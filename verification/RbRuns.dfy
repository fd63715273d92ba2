/** Height of red-black trees, and whole runs of tree operations. */
module RbRuns {
  import opened Basics
  import opened RbShape
  import opened RbHeap
  import opened RbOrder
  import opened RedBlackTree

  // -------------------------------------------------------------------- height

  ghost function Height(t: Tree): nat {
    if t.Leaf? then 0 else 1 + if Height(t.l) < Height(t.r) then Height(t.r) else Height(t.l)
  }

  lemma {:induction false} SizeByBlacks(t: Tree)
    requires Balanced(t)
    ensures Blacks(t) >= 1 && Pow2(Blacks(t) - 1) <= |InOrder(t)| + 1
  {
    if t.Br? {
      SizeByBlacks(t.l);
      SizeByBlacks(t.r);
    }
  }

  lemma {:induction false} HeightByBlacks(t: Tree)
    requires Balanced(t) && NoRedRed(t)
    ensures Blacks(t) >= 1 && Height(t) <= 2 * (Blacks(t) - 1) + if IsRed(t) then 1 else 0
  {
    if t.Br? {
      HeightByBlacks(t.l);
      HeightByBlacks(t.r);
    }
  }

  lemma {:induction false} Pow2Sum(a: nat, b: nat)
    ensures Pow2(a + b) == Pow2(a) * Pow2(b)
  {
    if a > 0 {
      Pow2Sum(a - 1, b);
    }
  }

  lemma Squares(a: nat, b: nat)
    requires a <= b
    ensures a * a <= b * b
  {
    assert a * a <= a * b <= b * b;
  }

  /** A tree of n keys has height at most 2 * log2(n + 1): two to the height is at most (n + 1) squared. */
  lemma HeightBound(t: Tree)
    requires RedBlack(t)
    ensures Pow2(Height(t)) <= (|InOrder(t)| + 1) * (|InOrder(t)| + 1)
  {
    SizeByBlacks(t);
    HeightByBlacks(t);
    var b, n := Blacks(t) - 1, |InOrder(t)| + 1;
    Pow2Monotone(Height(t), b + b);
    Pow2Sum(b, b);
    Squares(Pow2(b), n);
  }

  // ---------------------------------------------------------------------- runs

  datatype Op = InsertOp(k: Key, d: Data) | FindOp(k: Key)
  datatype Answer = Inserted(ok: bool) | Found(d: Data)

  ghost function StepMap(m: map<Key, Data>, op: Op): map<Key, Data> {
    if op.InsertOp? && op.k !in m then m[op.k := op.d] else m
  }

  ghost function MapAfter(m: map<Key, Data>, ops: seq<Op>): map<Key, Data> {
    if ops == [] then m else StepMap(MapAfter(m, ops[..|ops| - 1]), ops[|ops| - 1])
  }

  ghost function AnswerOf(m: map<Key, Data>, op: Op): Answer {
    match op
    case InsertOp(k, d) => Inserted(k !in m)
    case FindOp(k) => Found(if k in m then m[k] else NULL)
  }

  ghost predicate Answered(m: map<Key, Data>, ops: seq<Op>, answers: seq<Answer>) {
    |answers| == |ops| && forall i | 0 <= i < |ops| :: AnsweredAt(m, ops, i, answers[i])
  }

  ghost predicate AnsweredAt(m: map<Key, Data>, ops: seq<Op>, i: nat, a: Answer)
    requires i < |ops|
  {
    a == AnswerOf(MapAfter(m, ops[..i]), ops[i])
  }

  /** The pool's allocator, when it does not fail. */
  method Allocate(tree: RbTree) returns (n: Node)
    ensures n !in tree.mem
  {
    n := 0;
    ghost var seen: set<Node> := {};
    while n in tree.mem
      invariant seen <= tree.mem.Keys && forall i :: i in seen ==> i < n
      decreases |tree.mem.Keys - seen|
    {
      ghost var left := tree.mem.Keys - seen;
      seen := seen + {n};
      assert tree.mem.Keys - seen < left;
      Smaller(tree.mem.Keys - seen, left);
      n := n + 1;
    }
  }

  lemma Smaller(a: set<Node>, b: set<Node>)
    requires a < b
    ensures |a| < |b|
  {
    assert b == a + (b - a);
    assert |b| == |a| + |b - a|;
  }

  method Do(tree: RbTree, op: Op) returns (a: Answer)
    requires tree.Valid()
    modifies tree
    ensures tree.Valid()
    ensures tree.Contents() == StepMap(old(tree.Contents()), op)
    ensures a == AnswerOf(old(tree.Contents()), op)
  {
    match op {
      case InsertOp(k, d) =>
        var n := Allocate(tree);
        var ok := tree.Insert(k, d, Got(n));
        a := Inserted(ok);
      case FindOp(k) =>
        var d := tree.Find(k);
        a := Found(d);
    }
  }

  /** Any run of insertions and lookups answers as a finite map does. */
  method Run(tree: RbTree, ops: seq<Op>) returns (answers: seq<Answer>)
    requires tree.Valid()
    modifies tree
    ensures tree.Valid()
    ensures tree.Contents() == MapAfter(old(tree.Contents()), ops)
    ensures Answered(old(tree.Contents()), ops, answers)
  {
    ghost var m := tree.Contents();
    answers := [];
    for i := 0 to |ops|
      invariant tree.Valid() && tree.Contents() == MapAfter(m, ops[..i])
      invariant |answers| == i && forall j | 0 <= j < i :: AnsweredAt(m, ops, j, answers[j])
    {
      assert ops[..i + 1][..i] == ops[..i];
      var a := Do(tree, ops[i]);
      assert AnsweredAt(m, ops, i, a);
      answers := answers + [a];
    }
    assert ops[..|ops|] == ops;
  }

  // ---------------------------------------------------------- mixed-up data

  lemma {:induction false} SortedSize(s: Bindings)
    requires Sorted(s)
    ensures |MapOf(s)| == |s|
  {
    if s != [] {
      var n := |s| - 1;
      SortedSize(s[..n]);
      MapOfKeys(s[..n], s[n].0);
      assert MapOf(s).Keys == MapOf(s[..n]).Keys + {s[n].0};
    }
  }

  /** A subtree with one black node on a path has at most one node. */
  lemma OneBlack(t: Tree)
    requires Balanced(t) && NoRedRed(t) && Blacks(t) == 1
    ensures |InOrder(t)| <= 1
  {
    HeightByBlacks(t);
    if t.Br? {
      assert Height(t.l) == Height(t.r) == 0;
      assert t.l.Leaf? && t.r.Leaf?;
    }
  }

  lemma NoNodes(t: Tree)
    ensures InOrder(t) == [] <==> t.Leaf?
  {
  }

  lemma OneNode(t: Tree)
    requires t.Br? && |InOrder(t)| == 1
    ensures InOrder(t) == [(t.x.k, t.x.d)] && MaxTree(t) == t
  {
    NoNodes(t.l);
    NoNodes(t.r);
  }

  /** A red-black tree of three nodes has one on each side of the root. */
  lemma ThreeNodes(t: Tree)
    requires RedBlack(t) && |InOrder(t)| == 3
    ensures t.Br? && t.l.Br? && t.r.Br? && MaxTree(t.l) == t.l
    ensures InOrder(t)[0] == (t.l.x.k, t.l.x.d) && InOrder(t)[1] == (t.x.k, t.x.d)
  {
    if t.l.Leaf? {
      OneBlack(t.r);
    } else if t.r.Leaf? {
      OneBlack(t.l);
    }
    assert |InOrder(t.l)| + |InOrder(t.r)| == 2;
    OneNode(t.l);
  }

  lemma ThreeKeys(t: Tree, k1: Key, k2: Key, k3: Key)
    requires RedBlack(t) && Sorted(InOrder(t)) && k1 < k2 < k3 && MapOf(InOrder(t)).Keys == {k1, k2, k3}
    ensures t.Br? && t.l.Br? && t.r.Br? && t.x.k == k2 && MaxTree(t.l).x.k == k1
  {
    var s := InOrder(t);
    SortedSize(s);
    assert |MapOf(s)| == |MapOf(s).Keys| == 3;
    MapOfKeys(s, s[0].0);
    MapOfKeys(s, s[1].0);
    MapOfKeys(s, s[2].0);
    assert s[0].0 < s[1].0 < s[2].0;
    ThreeNodes(t);
  }

  method RemoveMiddle(tree: RbTree, k1: Key, k2: Key, k3: Key)
    requires tree.Valid() && k1 < k2 < k3 && tree.Contents().Keys == {k1, k2, k3}
    modifies tree
    ensures tree.Valid() && tree.Contents() == (old(tree.Contents()) - {k2})[k1 := old(tree.Contents())[k2]]
  {
    ThreeKeys(tree.shape, k1, k2, k3);
    MapOfNode(Top, tree.shape);
    var _ := tree.Remove(k2);
  }

  method InsertThree(k1: Key, k2: Key, k3: Key, d1: Data, d2: Data, d3: Data) returns (tree: RbTree)
    requires k1 < k2 < k3
    ensures fresh(tree) && tree.Valid() && tree.Contents() == map[k1 := d1, k2 := d2, k3 := d3]
  {
    tree := new RbTree();
    var _ := Do(tree, InsertOp(k2, d2));
    var _ := Do(tree, InsertOp(k1, d1));
    var _ := Do(tree, InsertOp(k3, d3));
  }

  /** With three keys in the tree, removing the middle one leaves its data with the smallest. */
  method RemoveMixes(k1: Key, k2: Key, k3: Key, d1: Data, d2: Data, d3: Data) returns (tree: RbTree)
    requires k1 < k2 < k3
    ensures tree.Valid() && tree.Contents() == map[k1 := d2, k3 := d3]
  {
    tree := InsertThree(k1, k2, k3, d1, d2, d3);
    RemoveMiddle(tree, k1, k2, k3);
  }

  datatype Update = Add(k: Key, d: Data) | Delete(k: Key)

  ghost function KeysAfter(s: set<Key>, us: seq<Update>): set<Key> {
    if us == [] then s
    else
      var u := us[|us| - 1];
      var s' := KeysAfter(s, us[..|us| - 1]);
      if u.Add? then s' + {u.k} else s' - {u.k}
  }

  /** Any run of insertions and removals keeps a red-black tree over the right set of keys. */
  method RunUpdates(tree: RbTree, us: seq<Update>)
    requires tree.Valid()
    modifies tree
    ensures tree.Valid()
    ensures tree.Contents().Keys == KeysAfter(old(tree.Contents()).Keys, us)
  {
    ghost var s := tree.Contents().Keys;
    for i := 0 to |us|
      invariant tree.Valid()
      invariant tree.Contents().Keys == KeysAfter(s, us[..i])
    {
      assert us[..i + 1][..i] == us[..i];
      match us[i] {
        case Add(k, d) =>
          var n := Allocate(tree);
          var _ := tree.Insert(k, d, Got(n));
        case Delete(k) =>
          var _ := tree.Remove(k);
      }
    }
    assert us[..|us|] == us;
  }
}
