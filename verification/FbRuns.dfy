/** The fixed-size B-tree as a map, over whole runs of operations. */
module FbRuns {
  import opened Basics
  import opened PageSearch
  import opened FbNode
  import opened FbShape
  import opened FbTrees
  import opened FbSearch
  import opened FbInserts
  import opened FbRemoves
  import opened FbUpdates

  // --------------------------------------------------------------------- as a map

  ghost function MapOf(s: seq<Slot>): map<int, Id>
    requires Ascending(s)
  {
    map b | b in s :: b.key := b.kid
  }

  lemma MapHas(s: seq<Slot>, b: Slot)
    requires Ascending(s) && b in s
    ensures b.key in MapOf(s) && MapOf(s)[b.key] == b.kid
  {
  }

  lemma MapWithout(a: seq<Slot>, b: seq<Slot>, x: Slot)
    requires Ascending(a) && Ascending(b) && x in b
    requires (forall y | y in a :: y in b && y.key != x.key) && (forall y | y in b :: y in a || y == x)
    ensures MapOf(a) == MapOf(b) - {x.key}
  {
    var m, n := MapOf(a), MapOf(b) - {x.key};
    forall k | k in m
      ensures k in n && n[k] == m[k]
    {
      var y :| y in a && y.key == k;
      assert y in b && y.key != x.key;
      MapHas(a, y);
      MapHas(b, y);
      assert k in MapOf(b) && k != x.key;
    }
    forall k | k in n
      ensures k in m
    {
      var y :| y in b && y.key == k;
      MapHas(a, y);
    }
  }

  lemma MapOneMore(a: seq<Slot>, b: seq<Slot>, x: Slot)
    requires Ascending(a) && Ascending(b) && OneMore(a, b, x)
    ensures x.key !in MapOf(a) && x.key in MapOf(b) && MapOf(b)[x.key] == x.kid && MapOf(a) == MapOf(b) - {x.key}
  {
    OneMoreMembers(a, b, x);
    MapHas(b, x);
    MapWithout(a, b, x);
  }

  /** `k` is the greatest key of `m` that is not above `key`. */
  ghost predicate IsFloorOf(m: map<int, Id>, key: int, k: int) {
    k in m && k <= key && forall j | j in m && j <= key :: j <= k
  }

  /** The greatest key that is not above `key`, or the smallest of all if there is none. */
  ghost predicate IsNearest(m: map<int, Id>, key: int, k: int) {
    IsFloorOf(m, key, k) || (k in m && forall j | j in m :: key < j && k <= j)
  }

  /** A search ends at the greatest key that is not above the one searched for. */
  lemma AnswerIn(t: Tree, lv: Levels, key: int)
    requires TreeOk(t, lv) && Tight(t, lv) && Ascending(Bindings(t, lv)) && Bindings(t, lv)[0].key <= key
    ensures LEFT_MOST_KEY <= Bindings(t, lv)[0].key
    ensures var m, a := MapOf(Bindings(t, lv)), Answer(t, lv, key);
            && IsFloorOf(m, key, a.key) && m[a.key] == a.kid && (a.key == key <==> key in m)
  {
    var s := Bindings(t, lv);
    assert s[0] in s;
    BindingInside(t.nodes, lv, t.root, LEFT_MOST_KEY, NIL_KEY, s[0]);
    forall b | b in s && b.key <= key
      ensures Answer(t, lv, key) in s && b.key <= Answer(t, lv, key).key <= key
    {
      AnswerIsFloor(t, lv, key, b);
    }
  }

  lemma BelowAll(t: Tree, lv: Levels, key: int)
    requires TreeOk(t, lv) && Ascending(Bindings(t, lv)) && Bindings(t, lv) != [] && key < Bindings(t, lv)[0].key
    ensures Answer(t, lv, key) == Bindings(t, lv)[0]
  {
    var s := Bindings(t, lv);
    FoundMember(t.nodes, lv, t.root, LEFT_MOST_KEY, NIL_KEY, key);
    FoundPresent(t.nodes, lv, t.root, LEFT_MOST_KEY, NIL_KEY, s[0]);
    FoundMonotone(t.nodes, lv, t.root, LEFT_MOST_KEY, NIL_KEY, key, s[0].key);
  }

  /** Also below the smallest key it is settled where a search ends. */
  lemma AnswerNearest(t: Tree, lv: Levels, key: int)
    requires TreeOk(t, lv) && Tight(t, lv) && Ascending(Bindings(t, lv))
    ensures var m, a := MapOf(Bindings(t, lv)), Answer(t, lv, key);
            IsNearest(m, key, a.key) && m[a.key] == a.kid
  {
    var s := Bindings(t, lv);
    if s[0].key <= key {
      AnswerIn(t, lv, key);
    } else {
      BelowAll(t, lv, key);
      MapHas(s, s[0]);
      assert forall b | b in s :: s[0].key <= b.key;
    }
  }

  /** A search ends at a key exactly if it is there. */
  lemma AnswerPresent(t: Tree, lv: Levels, key: int)
    requires TreeOk(t, lv) && Ascending(Bindings(t, lv))
    ensures var m, a := MapOf(Bindings(t, lv)), Answer(t, lv, key);
            (a.key == key <==> key in m) && (key in m ==> m[key] == a.kid)
  {
    FoundMember(t.nodes, lv, t.root, LEFT_MOST_KEY, NIL_KEY, key);
    forall b | b in Bindings(t, lv) && b.key == key
      ensures Answer(t, lv, key) == b
    {
      FoundPresent(t.nodes, lv, t.root, LEFT_MOST_KEY, NIL_KEY, b);
    }
  }

  /** Some key of `m` is not above `key`. */
  ghost predicate HasFloor(m: map<int, Id>, key: int) {
    exists k | k in m :: k <= key
  }

  lemma FloorIsFirst(s: seq<Slot>, key: int)
    requires Ascending(s) && s != []
    ensures HasFloor(MapOf(s), key) <==> s[0].key <= key
  {
    MapHas(s, s[0]);
    assert forall b | b in s :: s[0].key <= b.key;
  }

  lemma FirstIsLeast(s: seq<Slot>, b: Slot)
    requires Ascending(s) && b in s
    ensures s[0] == b <==> forall k | k in MapOf(s) :: b.key <= k
  {
    MapHas(s, s[0]);
    MapHas(s, b);
    assert forall y | y in s :: s[0].key <= y.key;
    if s[0] != b {
      assert s[0].key < b.key;
    }
  }

  /** A removal, as a change of the map. */
  lemma TakenMap(t: Tree, lv: Levels, b: Slot, t': Tree, lv': Levels)
    requires TreeOk(t, lv) && Ascending(Bindings(t, lv)) && Taken(t, lv, b, t', lv')
    ensures MapOf(Bindings(t', lv')) == MapOf(Bindings(t, lv)) - {b.key} && MapOf(Bindings(t', lv')) != map[]
    ensures Bindings(t, lv)[0] == b <==> forall k | k in MapOf(Bindings(t, lv)) :: b.key <= k
  {
    MapOneMore(Bindings(t', lv'), Bindings(t, lv), b);
    OneMoreMembers(Bindings(t', lv'), Bindings(t, lv), b);
    FirstIsLeast(Bindings(t, lv), b);
    FoundMember(t'.nodes, lv', t'.root, LEFT_MOST_KEY, NIL_KEY, 0);
    MapHas(Bindings(t', lv'), Answer(t', lv', 0));
  }

  lemma OnlyOne(s: seq<Slot>, b: Slot)
    requires s == [b]
    ensures MapOf(s) - {b.key} == map[]
  {
  }

  /** What `RemoveFrom` promises, as a change of the map. */
  lemma RemovedMap(t: Tree, lv: Levels, key: int, ok: bool, t': Tree, lv': Levels)
    requires TreeOk(t, lv) && Ascending(Bindings(t, lv)) && (ok <==> Answer(t, lv, key).key == key)
    requires !ok ==> t' == t && lv' == lv
    requires ok ==> if |Bindings(t, lv)| > 1 then Taken(t, lv, Answer(t, lv, key), t', lv')
                    else Bindings(t, lv) == [Answer(t, lv, key)] && t' == Emptied(t) && lv' == lv
    ensures var m := MapOf(Bindings(t, lv));
            && (ok <==> key in m) && (t'.level > 0 ==> TreeOk(t', lv') && Ascending(Bindings(t', lv')))
            && (t'.level == 0 ==> ok && m - {key} == map[])
            && (t'.level > 0 ==> MapOf(Bindings(t', lv')) == m - {key} && m - {key} != map[])
            && (ok && t'.level > 0 && Tight(t, lv) ==>
                  (Tight(t', lv') <==> !GoesFirst(t.nodes, lv, t.root, key) || forall k | k in m :: key <= k))
  {
    var s, b := Bindings(t, lv), Answer(t, lv, key);
    AnswerPresent(t, lv, key);
    FoundMember(t.nodes, lv, t.root, LEFT_MOST_KEY, NIL_KEY, key);
    if !ok {
      MapHas(s, b);
      assert MapOf(s) - {key} == MapOf(s);
    } else if |s| > 1 {
      TakenMap(t, lv, b, t', lv');
    } else {
      OnlyOne(s, b);
    }
  }

  /** `fb_make_new_root` in a tree without a root: a leaf with one key. */
  function WithFirst(t: Tree, key: int, data: Id, junk: seq<int>): Tree
    requires |junk| == SLOT_MAX
  {
    Tree(t.nodes[t.next := LeafNode([Slot(key, data)], junk)], t.next, 1, t.next + 1)
  }

  lemma FirstOk(t: Tree, lv: Levels, key: int, data: Id, junk: seq<int>)
    requires Fresh(t, lv) && LEFT_MOST_KEY <= key < NIL_KEY && |junk| == SLOT_MAX
    ensures var t', lv' := WithFirst(t, key, data, junk), lv[t.next := 1];
            TreeOk(t', lv') && Bindings(t', lv') == [Slot(key, data)] && Tight(t', lv')
  {
    var s := [Slot(key, data)];
    LeafNodeOk(s, junk);
    assert KeyIn(s, LEFT_MOST_KEY, NIL_KEY, 0);
    var t', lv' := WithFirst(t, key, data, junk), lv[t.next := 1];
    assert Slots(t'.nodes[t'.root]) == s && s[Pick(s, 0)] == s[0];
    forall k
      ensures Answer(t', lv', k) == s[0]
    {
      PickIs(s, k, 0);
      assert Found(t'.nodes, lv', t'.root, k) == Entered(t'.nodes, lv', s, 1, k);
    }
  }

  class FbTree {
    var tree: Tree
    ghost var levels: Levels

    /** No tree at all, or a well-formed one. */
    ghost predicate Valid()
      reads this
    {
      && Fresh(tree, levels) && (tree.level == 0 ==> tree.root == NIL_NODE)
      && (tree.level > 0 ==> TreeOk(tree, levels) && Ascending(Bindings(tree, levels)))
    }

    ghost function Contents(): map<int, Id>
      requires Valid()
      reads this
    {
      if tree.level == 0 then map[] else MapOf(Bindings(tree, levels))
    }

    /** Searches from the smallest key on end at keys not above theirs. */
    ghost predicate Sound()
      reads this
    {
      tree.level > 0 ==> Tight(tree, levels)
    }

    /** `fb_create`. */
    constructor ()
      ensures Valid() && Sound() && Contents() == map[]
    {
      tree, levels := Tree(map[], NIL_NODE, 0, 0), map[];
    }

    /** Whether a key that is not there can be inserted depends on where a search for it ends. */
    ghost predicate Takes(key: int)
      reads this
    {
      tree.level > 0 ==> Answer(tree, levels, key).key <= key
    }

    /** In a sound tree that is whether some key is not above it. */
    lemma TakesIff(key: int)
      requires Valid() && Sound()
      ensures Takes(key) <==> Contents() == map[] || HasFloor(Contents(), key)
    {
      if tree.level > 0 {
        SmallestDecides(tree, levels, key);
        FloorIsFirst(Bindings(tree, levels), key);
        assert Bindings(tree, levels)[0].key in Contents();
      }
    }

    method Insert(key: int, data: Id, junk: seq<int>) returns (ok: bool)
      requires Valid() && LEFT_MOST_KEY <= key < NIL_KEY && |junk| == SLOT_MAX
      modifies this
      ensures ok <==> key !in old(Contents())
      ensures Formed(tree) || !ok <==> old(Takes(key))
      ensures old(Takes(key)) ==> Valid() && (old(Sound()) ==> Sound())
      ensures old(Takes(key)) ==> Contents() == if ok then old(Contents())[key := data] else old(Contents())
    {
      ghost var t, lv := tree, levels;
      if tree.level == 0 {
        FirstOk(tree, levels, key, data, junk);
        tree, levels := WithFirst(tree, key, data, junk), levels[tree.next := 1];
        return true;
      }
      AnswerPresent(t, lv, key);
      var t';
      ghost var lv';
      ok, t', lv' := InsertInto(tree, levels, key, data, junk);
      if ok && Formed(t') {
        MapOneMore(Bindings(t, lv), Bindings(t', lv'), Slot(key, data));
      }
      tree, levels := t', lv';
    }

    /** The slot of the key is not the first of its node, or nothing is left, or the key was the smallest. */
    ghost predicate StaysSound(key: int, rest: map<int, Id>)
      requires Valid()
      reads this
    {
      || rest == map[] || !GoesFirst(tree.nodes, levels, tree.root, key)
      || forall k | k in Contents() :: key <= k
    }

    /** Removal keeps every tree well formed; it keeps a sound one sound on one exact condition. */
    method Remove(key: int, junk: int) returns (ok: bool)
      requires Valid() && LEFT_MOST_KEY <= key < NIL_KEY
      modifies this
      ensures Valid() && ok == (key in old(Contents())) && Contents() == old(Contents()) - {key}
      ensures old(Sound()) ==> (Sound() <==> !ok || old(StaysSound(key, Contents() - {key})))
    {
      if tree.level == 0 {
        return false;
      }
      var t';
      ghost var lv';
      ok, t', lv' := RemoveFrom(tree, levels, key, junk);
      RemovedMap(tree, levels, key, ok, t', lv');
      tree, levels := t', lv';
    }

    /** The data of a key that is there; else, in a sound tree, that of the nearest key. */
    method Find(key: int) returns (v: Id)
      requires Valid() && LEFT_MOST_KEY <= key < NIL_KEY
      ensures key in Contents() ==> v == Contents()[key]
      ensures Sound() ==> Replies(Contents(), key, v)
    {
      if tree.level == 0 {
        return NIL_NODE;
      }
      v := FbTrees.Find(tree, levels, key);
      AnswerPresent(tree, levels, key);
      if Sound() {
        AnswerNearest(tree, levels, key);
        assert IsNearest(Contents(), key, Answer(tree, levels, key).key);
      }
    }
  }

  /** What a lookup returns in a sound tree. */
  ghost predicate Replies(m: map<int, Id>, key: int, v: Id) {
    if m == map[] then v == NIL_NODE else exists k :: IsNearest(m, key, k) && v == m[k]
  }

  /** Into any sound tree that has keys, a key below all of them is accepted, and the tree is broken. */
  method InsertBelowFirst(f: FbTree, key: int, data: Id, junk: seq<int>) returns (ok: bool)
    requires f.Valid() && f.Sound() && LEFT_MOST_KEY <= key < NIL_KEY && |junk| == SLOT_MAX
    requires f.Contents() != map[] && forall k | k in f.Contents() :: key < k
    modifies f
    ensures ok && !Formed(f.tree)
  {
    f.TakesIff(key);
    ok := f.Insert(key, data, junk);
  }

  // ----------------------------------------------------------------------------- runs

  datatype Op = InsertOp(k: int, d: Id) | RemoveOp(k: int) | FindOp(k: int)
  datatype Reply = Done(ok: bool) | Got(v: Id)

  ghost function StepMap(m: map<int, Id>, op: Op): map<int, Id> {
    match op
    case InsertOp(k, d) => if k in m then m else m[k := d]
    case RemoveOp(k) => m - {k}
    case FindOp(_) => m
  }

  ghost function MapAfter(m: map<int, Id>, ops: seq<Op>): map<int, Id> {
    if ops == [] then m else StepMap(MapAfter(m, ops[..|ops| - 1]), ops[|ops| - 1])
  }

  /** What the map replies; only `sound` settles a lookup of a key that is not there. */
  ghost predicate Fits(m: map<int, Id>, op: Op, r: Reply, sound: bool) {
    match op
    case InsertOp(k, _) => r == Done(k !in m)
    case RemoveOp(k) => r == Done(k in m)
    case FindOp(k) => r.Got? && (k in m ==> r.v == m[k]) && (sound ==> Replies(m, k, r.v))
  }

  ghost predicate FitsAt(m: map<int, Id>, ops: seq<Op>, i: nat, r: Reply, sound: bool)
    requires i < |ops|
  {
    Fits(MapAfter(m, ops[..i]), ops[i], r, sound)
  }

  /** A key below all others is not inserted. */
  ghost predicate Legal(m: map<int, Id>, op: Op) {
    LEFT_MOST_KEY <= op.k < NIL_KEY && !op.RemoveOp? && (op.InsertOp? ==> m == map[] || HasFloor(m, op.k))
  }

  ghost predicate LegalAt(m: map<int, Id>, ops: seq<Op>, i: nat)
    requires i < |ops|
  {
    Legal(MapAfter(m, ops[..i]), ops[i])
  }

  method Do(f: FbTree, op: Op, junk: seq<int>) returns (r: Reply)
    requires f.Valid() && f.Sound() && Legal(f.Contents(), op) && |junk| == SLOT_MAX
    modifies f
    ensures f.Valid() && f.Sound()
    ensures f.Contents() == StepMap(old(f.Contents()), op) && Fits(old(f.Contents()), op, r, true)
  {
    match op {
      case InsertOp(k, d) =>
        f.TakesIff(k);
        var ok := f.Insert(k, d, junk);
        r := Done(ok);
      case FindOp(k) =>
        var v := f.Find(k);
        r := Got(v);
    }
  }

  /**
   From an empty or any sound tree, a run of insertions, none below all keys there, and
   of lookups answers as a map that replies with the nearest key.
   */
  method Run(f: FbTree, ops: seq<Op>, junk: seq<int>) returns (rs: seq<Reply>)
    requires f.Valid() && f.Sound() && |junk| == SLOT_MAX
    requires forall i | 0 <= i < |ops| :: LegalAt(f.Contents(), ops, i)
    modifies f
    ensures f.Valid() && f.Sound() && f.Contents() == MapAfter(old(f.Contents()), ops)
    ensures |rs| == |ops| && forall i | 0 <= i < |ops| :: FitsAt(old(f.Contents()), ops, i, rs[i], true)
  {
    ghost var m := f.Contents();
    rs := [];
    for i := 0 to |ops|
      invariant f.Valid() && f.Sound() && f.Contents() == MapAfter(m, ops[..i])
      invariant |rs| == i && forall j | 0 <= j < i :: FitsAt(m, ops, j, rs[j], true)
    {
      assert ops[..i + 1][..i] == ops[..i];
      assert LegalAt(m, ops, i);
      var r := Do(f, ops[i], junk);
      assert FitsAt(m, ops, i, r, true);
      rs := rs + [r];
    }
    assert ops[..|ops|] == ops;
  }

  method DoAny(f: FbTree, op: Op, junk: int) returns (r: Reply)
    requires f.Valid() && !op.InsertOp? && LEFT_MOST_KEY <= op.k < NIL_KEY
    modifies f
    ensures f.Valid()
    ensures f.Contents() == StepMap(old(f.Contents()), op) && Fits(old(f.Contents()), op, r, false)
  {
    match op {
      case RemoveOp(k) =>
        var ok := f.Remove(k, junk);
        r := Done(ok);
      case FindOp(k) =>
        var v := f.Find(k);
        r := Got(v);
    }
  }

  /** On any well-formed tree, a run of removals and lookups answers as a map, down to the empty tree. */
  method RunRemovals(f: FbTree, ops: seq<Op>, junk: int) returns (rs: seq<Reply>)
    requires f.Valid() && forall i | 0 <= i < |ops| :: !ops[i].InsertOp? && LEFT_MOST_KEY <= ops[i].k < NIL_KEY
    modifies f
    ensures f.Valid() && f.Contents() == MapAfter(old(f.Contents()), ops)
    ensures |rs| == |ops| && forall i | 0 <= i < |ops| :: FitsAt(old(f.Contents()), ops, i, rs[i], false)
  {
    ghost var m := f.Contents();
    rs := [];
    for i := 0 to |ops|
      invariant f.Valid() && f.Contents() == MapAfter(m, ops[..i])
      invariant |rs| == i && forall j | 0 <= j < i :: FitsAt(m, ops, j, rs[j], false)
    {
      assert ops[..i + 1][..i] == ops[..i];
      var r := DoAny(f, ops[i], junk);
      assert FitsAt(m, ops, i, r, false);
      rs := rs + [r];
    }
    assert ops[..|ops|] == ops;
  }
}
