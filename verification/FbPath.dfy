/**
 What it does to a whole tree when a node on the path stack is replaced by a clone
 and the slot above it overwritten: insertion and removal both end that way.
 */
module FbPaths {
  import opened Basics
  import opened PageSearch
  import opened FbNode
  import opened FbShape
  import opened FbTrees
  import opened FbSearch

  // ------------------------------------------------------------------- beside the path

  /** But for `g`, the nodes are as they were. */
  ghost predicate OnlyAt(ns: Nodes, lv: Levels, ns': Nodes, lv': Levels, g: Id) {
    && (forall a | a in lv :: a in lv' && lv'[a] == lv[a])
    && (forall a | a in lv && a in ns && a != g :: a in ns' && ns'[a] == ns[a])
  }

  /** `g` is not under a node with the interval [lo, hi) at level `h`. */
  ghost predicate Outside(ns: Nodes, lv: Levels, g: Id, h: nat, lo: int, hi: int) {
    && g in ns && g in lv && NodeOk(ns[g]) && Slots(ns[g]) != []
    && (h < lv[g] || Slots(ns[g])[0].key < lo || hi <= Slots(ns[g])[0].key)
  }

  lemma OutsideKid(ns: Nodes, lv: Levels, a: Id, lo: int, hi: int, g: Id, i: nat)
    requires WellFormed(ns, lv, a, lo, hi) && lv[a] > 1 && i < Count(ns[a]) && Outside(ns, lv, g, lv[a], lo, hi)
    ensures a != g && KidOk(ns, lv, Slots(ns[a]), lv[a], hi, i)
    ensures var s := Slots(ns[a]); Outside(ns, lv, g, lv[a] - 1, s[i].key, EndOf(s, i, hi))
  {
    var s := Slots(ns[a]);
    assert KeyIn(s, lo, hi, 0) && KeyIn(s, lo, hi, i) && (i + 1 < |s| ==> KeyIn(s, lo, hi, i + 1));
    assert KidOk(ns, lv, s, lv[a], hi, i);
  }

  lemma {:induction false} Apart(ns: Nodes, lv: Levels, ns': Nodes, lv': Levels, g: Id, a: Id, lo: int, hi: int)
    requires OnlyAt(ns, lv, ns', lv', g) && WellFormed(ns, lv, a, lo, hi) && Outside(ns, lv, g, lv[a], lo, hi)
    ensures WellFormed(ns', lv', a, lo, hi) && InOrder(ns', lv', a) == InOrder(ns, lv, a)
    decreases LevelOf(lv, a)
  {
    var s := Slots(ns[a]);
    assert KeyIn(s, lo, hi, 0);
    if lv[a] > 1 {
      forall i | 0 <= i < |s|
        ensures KidOk(ns', lv', s, lv[a], hi, i) && SamePiece(ns, lv, s, ns', lv', s, lv[a], i)
      {
        OutsideKid(ns, lv, a, lo, hi, g, i);
        Apart(ns, lv, ns', lv', g, s[i].kid, s[i].key, EndOf(s, i, hi));
      }
      FlatSame(ns, lv, s, ns', lv', s, lv[a]);
    }
  }

  lemma {:induction false} ApartFound(ns: Nodes, lv: Levels, ns': Nodes, lv': Levels, g: Id, a: Id, lo: int, hi: int,
                                      key: int)
    requires OnlyAt(ns, lv, ns', lv', g) && WellFormed(ns, lv, a, lo, hi) && Outside(ns, lv, g, lv[a], lo, hi)
    ensures Found(ns', lv', a, key) == Found(ns, lv, a, key)
    decreases LevelOf(lv, a)
  {
    var s := Slots(ns[a]);
    assert KeyIn(s, lo, hi, 0);
    if lv[a] > 1 {
      var i := Pick(s, key);
      OutsideKid(ns, lv, a, lo, hi, g, i);
      ApartFound(ns, lv, ns', lv', g, s[i].kid, s[i].key, EndOf(s, i, hi), key);
    }
  }

  // ----------------------------------------------------------------- along the path

  /** The stack holds a path from the root to a slot of a leaf. */
  ghost predicate LeafPath(t: Tree, lv: Levels, pos: seq<Pos>) {
    TreeOk(t, lv) && |pos| == t.level && PathTo(t, lv, pos, t.level - 1)
  }

  /** What `fb_traverse` leaves behind. */
  ghost predicate Searched(t: Tree, lv: Levels, pos: seq<Pos>, key: int) {
    && LeafPath(t, lv, pos) && LEFT_MOST_KEY <= key < NIL_KEY
    && forall j | 0 <= j < t.level :: SearchedAt(t, pos, key, j)
  }

  function Leaf(pos: seq<Pos>): Pos
    requires pos != []
  {
    pos[|pos| - 1]
  }

  ghost function SlotsAt(t: Tree, p: Pos): seq<Slot> {
    if p.node in t.nodes && |t.nodes[p.node].keys| == |t.nodes[p.node].kids| then Slots(t.nodes[p.node]) else []
  }

  /** The interval of the node at `j`. */
  ghost function Lo(t: Tree, pos: seq<Pos>, j: nat): int
    requires j < |pos|
  {
    if j == 0 then LEFT_MOST_KEY
    else
      var s := SlotsAt(t, pos[j - 1]);
      if pos[j - 1].idx < |s| then s[pos[j - 1].idx].key else LEFT_MOST_KEY
  }

  ghost function Hi(t: Tree, pos: seq<Pos>, j: nat): int
    requires j < |pos|
  {
    if j == 0 then NIL_KEY
    else
      var s := SlotsAt(t, pos[j - 1]);
      if pos[j - 1].idx < |s| then EndOf(s, pos[j - 1].idx, Hi(t, pos, j - 1)) else NIL_KEY
  }

  /** What is known of the node at `j` and of the slot the path takes there. */
  ghost predicate OnPath(t: Tree, lv: Levels, pos: seq<Pos>, j: nat)
    requires j < |pos|
  {
    && pos[j].node in t.nodes && pos[j].node in lv && lv[pos[j].node] + j == t.level == |pos|
    && WellFormed(t.nodes, lv, pos[j].node, Lo(t, pos, j), Hi(t, pos, j)) && Hi(t, pos, j) <= NIL_KEY
    && NodeOk(t.nodes[pos[j].node]) && SlotsAt(t, pos[j]) == Slots(t.nodes[pos[j].node])
    && pos[j].idx < |SlotsAt(t, pos[j])| && Ascending(SlotsAt(t, pos[j]))
    && (j + 1 < |pos| ==> SlotsAt(t, pos[j])[pos[j].idx].kid == pos[j + 1].node
                          && KidOk(t.nodes, lv, SlotsAt(t, pos[j]), lv[pos[j].node], Hi(t, pos, j), pos[j].idx))
  }

  lemma HiBelow(s: seq<Slot>, lo: int, hi: int, k: nat)
    requires k < |s| && forall i | 0 <= i < |s| :: KeyIn(s, lo, hi, i)
    ensures lo <= s[k].key && EndOf(s, k, hi) <= hi
  {
    assert KeyIn(s, lo, hi, k) && (k + 1 < |s| ==> KeyIn(s, lo, hi, k + 1));
  }

  /** From the interval of a node, everything else. */
  lemma NodeOnPath(t: Tree, lv: Levels, pos: seq<Pos>, j: nat)
    requires LeafPath(t, lv, pos) && j < |pos|
    requires WellFormed(t.nodes, lv, pos[j].node, Lo(t, pos, j), Hi(t, pos, j)) && Hi(t, pos, j) <= NIL_KEY
    ensures OnPath(t, lv, pos, j)
  {
    assert StepAt(t, lv, pos, j);
    SlotsAscending(t.nodes[pos[j].node]);
    if j + 1 < |pos| {
      assert LinkAt(t, pos, j);
      assert KidOk(t.nodes, lv, Slots(t.nodes[pos[j].node]), lv[pos[j].node], Hi(t, pos, j), pos[j].idx);
    }
  }

  lemma {:induction false} PathNode(t: Tree, lv: Levels, pos: seq<Pos>, j: nat)
    requires LeafPath(t, lv, pos) && j < |pos|
    ensures OnPath(t, lv, pos, j)
  {
    if j > 0 {
      PathNode(t, lv, pos, j - 1);
      HiBelow(SlotsAt(t, pos[j - 1]), Lo(t, pos, j - 1), Hi(t, pos, j - 1), pos[j - 1].idx);
    }
    NodeOnPath(t, lv, pos, j);
  }

  ghost predicate Within(t: Tree, pos: seq<Pos>, i: nat, j: nat)
    requires i < |pos| && j < |pos|
  {
    Lo(t, pos, i) <= Lo(t, pos, j) && Hi(t, pos, j) <= Hi(t, pos, i)
  }

  lemma NarrowsOnce(t: Tree, lv: Levels, pos: seq<Pos>, j: nat)
    requires LeafPath(t, lv, pos) && j + 1 < |pos|
    ensures Within(t, pos, j, j + 1)
  {
    PathNode(t, lv, pos, j);
    HiBelow(SlotsAt(t, pos[j]), Lo(t, pos, j), Hi(t, pos, j), pos[j].idx);
  }

  lemma {:induction false} Rises(a: seq<int>, i: nat, j: nat)
    requires i <= j < |a| && forall k | 0 <= k < |a| - 1 :: a[k] <= a[k + 1]
    ensures a[i] <= a[j]
    decreases j
  {
    if i < j {
      Rises(a, i, j - 1);
    }
  }

  /** Intervals get smaller down the path. */
  lemma Narrows(t: Tree, lv: Levels, pos: seq<Pos>, i: nat, j: nat)
    requires LeafPath(t, lv, pos) && i <= j < |pos|
    ensures Within(t, pos, i, j)
  {
    var los := seq(|pos|, k requires 0 <= k < |pos| => Lo(t, pos, k));
    var his := seq(|pos|, k requires 0 <= k < |pos| => -Hi(t, pos, k));
    forall k | 0 <= k < |pos| - 1
      ensures los[k] <= los[k + 1] && his[k] <= his[k + 1]
    {
      NarrowsOnce(t, lv, pos, k);
    }
    Rises(los, i, j);
    Rises(his, i, j);
  }

  /** A searched key lies in the interval of every node of its path, but maybe below the first. */
  lemma {:induction false} KeyBelowHi(t: Tree, lv: Levels, pos: seq<Pos>, key: int, j: nat)
    requires Searched(t, lv, pos, key) && j < |pos|
    ensures key < Hi(t, pos, j)
  {
    if j > 0 {
      KeyBelowHi(t, lv, pos, key, j - 1);
      Picked(t, lv, pos, key, j - 1);
    }
  }

  lemma Picked(t: Tree, lv: Levels, pos: seq<Pos>, key: int, j: nat)
    requires Searched(t, lv, pos, key) && j < |pos|
    ensures OnPath(t, lv, pos, j) && Pick(SlotsAt(t, pos[j]), key) == pos[j].idx
  {
    PathNode(t, lv, pos, j);
    assert SearchedAt(t, pos, key, j);
    SearchPicks(t.nodes[pos[j].node], key, pos[j].idx);
  }

  /** A search that takes the same slots comes by the same nodes. */
  lemma {:induction false} FoundOnPath(t: Tree, lv: Levels, pos: seq<Pos>, key: int, j: nat, d: nat)
    requires LeafPath(t, lv, pos) && j <= d < |pos| && Along(t, pos, key, j, d)
    ensures Found(t.nodes, lv, pos[j].node, key) == Found(t.nodes, lv, pos[d].node, key)
    decreases d - j
  {
    if j < d {
      PathNode(t, lv, pos, j);
      assert TakesAt(t, pos, key, j);
      FoundBelow(t.nodes, lv, pos[j].node, Lo(t, pos, j), Hi(t, pos, j), key);
      FoundOnPath(t, lv, pos, key, j + 1, d);
    }
  }

  ghost predicate TakesAt(t: Tree, pos: seq<Pos>, key: int, j: nat)
    requires j < |pos|
  {
    SlotsAt(t, pos[j]) != [] && Pick(SlotsAt(t, pos[j]), key) == pos[j].idx
  }

  /** A search for `key` takes the slots of the path from `j` to above `d`. */
  ghost predicate Along(t: Tree, pos: seq<Pos>, key: int, j: nat, d: nat)
    requires d <= |pos|
  {
    forall i | j <= i < d :: TakesAt(t, pos, key, i)
  }

  /** The path ends where the search does. */
  lemma PathFound(t: Tree, lv: Levels, pos: seq<Pos>, key: int)
    requires Searched(t, lv, pos, key)
    ensures Along(t, pos, key, 0, |pos|) && OnPath(t, lv, pos, |pos| - 1)
    ensures Answer(t, lv, key) == SlotsAt(t, Leaf(pos))[Leaf(pos).idx]
  {
    forall j | 0 <= j < |pos|
      ensures TakesAt(t, pos, key, j)
    {
      Picked(t, lv, pos, key, j);
    }
    PathNode(t, lv, pos, |pos| - 1);
    assert TakesAt(t, pos, key, |pos| - 1);
    FoundOnPath(t, lv, pos, key, 0, |pos| - 1);
  }

  // -------------------------------------------------------------- replacing a node

  /** The tree after the node at `d` is replaced by its clone `c`. */
  function WithNode(t: Tree, pos: seq<Pos>, d: nat, c: Node): Tree
    requires d < |pos| && t.next !in t.nodes
    requires d > 0 ==> pos[d - 1].node in t.nodes && pos[d - 1].idx < |t.nodes[pos[d - 1].node].kids|
  {
    var t1 := t.(nodes := t.nodes[t.next := c], next := t.next + 1);
    if d > 0 then Overwritten(t1, pos[d - 1].node, pos[d - 1].idx, t.next) else t1.(root := t.next)
  }

  ghost predicate Changed(t: Tree, lv: Levels, pos: seq<Pos>, d: nat, c: Node, t': Tree, lv': Levels) {
    && LeafPath(t, lv, pos) && d < |pos| && t.next !in t.nodes
    && (d > 0 ==> pos[d - 1].node in t.nodes && pos[d - 1].idx < |t.nodes[pos[d - 1].node].kids|)
    && t' == WithNode(t, pos, d, c) && lv' == lv[t.next := t.level - d]
  }

  lemma Changes(t: Tree, lv: Levels, pos: seq<Pos>, d: nat, c: Node)
    requires LeafPath(t, lv, pos) && d < |pos|
    ensures t.next !in t.nodes
    ensures d > 0 ==> pos[d - 1].node in t.nodes && pos[d - 1].idx < |t.nodes[pos[d - 1].node].kids|
    ensures Changed(t, lv, pos, d, c, WithNode(t, pos, d, c), lv[t.next := t.level - d])
  {
    if d > 0 {
      PathNode(t, lv, pos, d - 1);
    }
  }

  /** The node that takes the place of the one at `j`. */
  ghost function NewAt(t: Tree, pos: seq<Pos>, d: nat, j: nat): Id
    requires j <= d < |pos|
  {
    if j == d then t.next else pos[j].node
  }

  /** The slots of the node at `j`, above the change. */
  ghost function NewSlots(t: Tree, pos: seq<Pos>, d: nat, j: nat): seq<Slot>
    requires j < d < |pos| && pos[j].idx < |SlotsAt(t, pos[j])|
  {
    var s, k := SlotsAt(t, pos[j]), pos[j].idx;
    s[k := Slot(s[k].key, NewAt(t, pos, d, j + 1))]
  }

  lemma OneOverwritten(t: Tree, lv: Levels, pos: seq<Pos>, d: nat, c: Node, t': Tree, lv': Levels)
    requires Changed(t, lv, pos, d, c, t', lv') && d > 0
    ensures OnlyAt(t.nodes, lv, t'.nodes, lv', pos[d - 1].node)
    ensures var g := pos[d - 1].node;
            g in t'.nodes && t'.nodes[g] == t.nodes[g].(kids := t.nodes[g].kids[pos[d - 1].idx := t.next])
  {
  }

  lemma ChangedNode(t: Tree, lv: Levels, pos: seq<Pos>, d: nat, c: Node, t': Tree, lv': Levels, j: nat)
    requires Changed(t, lv, pos, d, c, t', lv') && j < d && OnPath(t, lv, pos, j)
    ensures OnlyAt(t.nodes, lv, t'.nodes, lv', pos[d - 1].node) && pos[j].node in t'.nodes
    ensures NodeOk(t'.nodes[pos[j].node]) && Slots(t'.nodes[pos[j].node]) == NewSlots(t, pos, d, j)
  {
    OneOverwritten(t, lv, pos, d, c, t', lv');
    if j + 1 == d {
      RedirectedSlots(t.nodes[pos[j].node], pos[j].idx, t.next);
    } else {
      assert StepAt(t, lv, pos, d - 1);
      var s, k := SlotsAt(t, pos[j]), pos[j].idx;
      assert s[k := Slot(s[k].key, s[k].kid)] == s;
    }
  }

  /** The first key of a node of the path lies in the intervals of the nodes above it. */
  lemma FirstKeyIn(t: Tree, lv: Levels, pos: seq<Pos>, i: nat, j: nat)
    requires LeafPath(t, lv, pos) && i <= j < |pos|
    ensures OnPath(t, lv, pos, j) && Lo(t, pos, i) <= SlotsAt(t, pos[j])[0].key < Hi(t, pos, i)
  {
    PathNode(t, lv, pos, j);
    assert KeyIn(SlotsAt(t, pos[j]), Lo(t, pos, j), Hi(t, pos, j), 0);
    Narrows(t, lv, pos, i, j);
  }

  /** Different slots have disjoint intervals. */
  lemma OtherInterval(s: seq<Slot>, lo: int, hi: int, i: nat, k: nat, x: int)
    requires Ascending(s) && i < |s| && k < |s| && i != k && forall j | 0 <= j < |s| :: KeyIn(s, lo, hi, j)
    requires s[k].key <= x < EndOf(s, k, hi)
    ensures x < s[i].key || EndOf(s, i, hi) <= x
  {
  }

  lemma FirstKeyBelow(t: Tree, lv: Levels, pos: seq<Pos>, j: nat, g: nat)
    requires LeafPath(t, lv, pos) && j < g < |pos| && OnPath(t, lv, pos, j)
    ensures SlotsAt(t, pos[g]) != []
    ensures var s, k := SlotsAt(t, pos[j]), pos[j].idx;
            s[k].key <= SlotsAt(t, pos[g])[0].key < EndOf(s, k, Hi(t, pos, j))
  {
    FirstKeyIn(t, lv, pos, j + 1, g);
  }

  /** Beside the path, the overwritten node is out of the way. */
  lemma SiblingOutside(t: Tree, lv: Levels, pos: seq<Pos>, d: nat, j: nat, i: nat)
    requires LeafPath(t, lv, pos) && j < d < |pos| && OnPath(t, lv, pos, j)
    requires i < |SlotsAt(t, pos[j])| && i != pos[j].idx
    ensures var s := SlotsAt(t, pos[j]);
            && KidOk(t.nodes, lv, s, lv[pos[j].node], Hi(t, pos, j), i)
            && Outside(t.nodes, lv, pos[d - 1].node, lv[s[i].kid], s[i].key, EndOf(s, i, Hi(t, pos, j)))
  {
    var s := SlotsAt(t, pos[j]);
    assert KidOk(t.nodes, lv, s, lv[pos[j].node], Hi(t, pos, j), i);
    assert StepAt(t, lv, pos, d - 1);
    if j + 1 < d {
      FirstKeyBelow(t, lv, pos, j, d - 1);
      OtherInterval(s, Lo(t, pos, j), Hi(t, pos, j), i, pos[j].idx, SlotsAt(t, pos[d - 1])[0].key);
    }
  }

  // ------------------------------------------------------------- bindings and order

  ghost predicate Around(a: seq<Slot>, u: seq<Slot>, p: seq<Slot>, q: seq<Slot>) { a == p + u + q }

  /** `b` is `a` with `v` in the place of `u`. */
  ghost predicate Swapped(a: seq<Slot>, b: seq<Slot>, u: seq<Slot>, v: seq<Slot>) {
    exists p, q :: Around(a, u, p, q) && Around(b, v, p, q)
  }

  lemma SwappedInside(p: seq<Slot>, a: seq<Slot>, b: seq<Slot>, q: seq<Slot>, u: seq<Slot>, v: seq<Slot>)
    requires Swapped(a, b, u, v)
    ensures Swapped(p + a + q, p + b + q, u, v)
  {
    var p', q' :| Around(a, u, p', q') && Around(b, v, p', q');
    assert Around(p + a + q, u, p + p', q' + q) && Around(p + b + q, v, p + p', q' + q);
  }

  /** The bindings under a node, split at the child `k`. */
  lemma FlatAround(ns: Nodes, lv: Levels, s: seq<Slot>, h: nat, k: nat)
    requires k < |s|
    ensures Flat(ns, lv, s, h) == Flat(ns, lv, s[..k], h) + Piece(ns, lv, s[k], h) + Flat(ns, lv, s[k + 1..], h)
  {
    assert s == s[..k] + ([s[k]] + s[k + 1..]);
    FlatConcat(ns, lv, s[..k], [s[k]] + s[k + 1..], h);
    FlatOne(ns, lv, s[k], s[k + 1..], h);
  }

  lemma FlatSwapped(ns: Nodes, lv: Levels, s: seq<Slot>, ns': Nodes, lv': Levels, s': seq<Slot>, h: nat, k: nat,
                    u: seq<Slot>, v: seq<Slot>)
    requires |s'| == |s| && k < |s| && Swapped(Piece(ns, lv, s[k], h), Piece(ns', lv', s'[k], h), u, v)
    requires forall i | 0 <= i < |s| && i != k :: SamePiece(ns, lv, s, ns', lv', s', h, i)
    ensures Swapped(Flat(ns, lv, s, h), Flat(ns', lv', s', h), u, v)
  {
    var a, a', b, b' := s[..k], s'[..k], s[k + 1..], s'[k + 1..];
    forall i | 0 <= i < k
      ensures SamePiece(ns, lv, a, ns', lv', a', h, i)
    {
      assert SamePiece(ns, lv, s, ns', lv', s', h, i);
    }
    forall i | 0 <= i < |b|
      ensures SamePiece(ns, lv, b, ns', lv', b', h, i)
    {
      assert SamePiece(ns, lv, s, ns', lv', s', h, k + 1 + i);
    }
    FlatSame(ns, lv, a, ns', lv', a', h);
    FlatSame(ns, lv, b, ns', lv', b', h);
    FlatAround(ns, lv, s, h, k);
    FlatAround(ns', lv', s', h, k);
    SwappedInside(Flat(ns, lv, a, h), Piece(ns, lv, s[k], h), Piece(ns', lv', s'[k], h), Flat(ns, lv, b, h), u, v);
  }

  /** From node `j` down, the tree is well formed again and only the bindings under the clone differ. */
  ghost predicate SwappedAt(t: Tree, lv: Levels, pos: seq<Pos>, d: nat, t': Tree, lv': Levels, j: nat)
    requires j <= d < |pos|
  {
    && WellFormed(t'.nodes, lv', NewAt(t, pos, d, j), Lo(t, pos, j), Hi(t, pos, j))
    && Swapped(InOrder(t.nodes, lv, pos[j].node), InOrder(t'.nodes, lv', NewAt(t, pos, d, j)),
               InOrder(t.nodes, lv, pos[d].node), InOrder(t'.nodes, lv', t.next))
  }

  /** The child that the path goes through. */
  lemma KidSwapped(t: Tree, lv: Levels, pos: seq<Pos>, d: nat, c: Node, t': Tree, lv': Levels, j: nat)
    requires Changed(t, lv, pos, d, c, t', lv') && j < d && OnPath(t, lv, pos, j)
    requires SwappedAt(t, lv, pos, d, t', lv', j + 1)
    ensures var s, s', k, h := SlotsAt(t, pos[j]), NewSlots(t, pos, d, j), pos[j].idx, lv[pos[j].node];
            && KidOk(t'.nodes, lv', s', h, Hi(t, pos, j), k)
            && Swapped(Piece(t.nodes, lv, s[k], h), Piece(t'.nodes, lv', s'[k], h),
                       InOrder(t.nodes, lv, pos[d].node), InOrder(t'.nodes, lv', t.next))
  {
    assert StepAt(t, lv, pos, j + 1);
  }

  /** The other children. */
  lemma KidKept(t: Tree, lv: Levels, pos: seq<Pos>, d: nat, c: Node, t': Tree, lv': Levels, j: nat, i: nat)
    requires Changed(t, lv, pos, d, c, t', lv') && j < d && OnPath(t, lv, pos, j)
    requires i < |SlotsAt(t, pos[j])| && i != pos[j].idx && OnlyAt(t.nodes, lv, t'.nodes, lv', pos[d - 1].node)
    ensures var s, s', h := SlotsAt(t, pos[j]), NewSlots(t, pos, d, j), lv[pos[j].node];
            && KidOk(t'.nodes, lv', s', h, Hi(t, pos, j), i) && SamePiece(t.nodes, lv, s, t'.nodes, lv', s', h, i)
  {
    var s, s' := SlotsAt(t, pos[j]), NewSlots(t, pos, d, j);
    SiblingOutside(t, lv, pos, d, j, i);
    Apart(t.nodes, lv, t'.nodes, lv', pos[d - 1].node, s[i].kid, s[i].key, EndOf(s, i, Hi(t, pos, j)));
    assert s'[i] == s[i] && EndOf(s', i, Hi(t, pos, j)) == EndOf(s, i, Hi(t, pos, j));
  }

  lemma SwapStep(t: Tree, lv: Levels, pos: seq<Pos>, d: nat, c: Node, t': Tree, lv': Levels, j: nat)
    requires Changed(t, lv, pos, d, c, t', lv') && j < d && OnPath(t, lv, pos, j)
    requires SwappedAt(t, lv, pos, d, t', lv', j + 1)
    ensures SwappedAt(t, lv, pos, d, t', lv', j)
  {
    var p, k, lo, hi := pos[j].node, pos[j].idx, Lo(t, pos, j), Hi(t, pos, j);
    var s, s', h := SlotsAt(t, pos[j]), NewSlots(t, pos, d, j), lv[p];
    ChangedNode(t, lv, pos, d, c, t', lv', j);
    KidSwapped(t, lv, pos, d, c, t', lv', j);
    forall i | 0 <= i < |s'|
      ensures KeyIn(s', lo, hi, i) && KidOk(t'.nodes, lv', s', h, hi, i)
      ensures i != k ==> SamePiece(t.nodes, lv, s, t'.nodes, lv', s', h, i)
    {
      assert KeyIn(s, lo, hi, i);
      if i != k {
        KidKept(t, lv, pos, d, c, t', lv', j, i);
      }
    }
    FlatSwapped(t.nodes, lv, s, t'.nodes, lv', s', h, k,
                InOrder(t.nodes, lv, pos[d].node), InOrder(t'.nodes, lv', t.next));
  }

  lemma {:induction false} Swap(t: Tree, lv: Levels, pos: seq<Pos>, d: nat, c: Node, t': Tree, lv': Levels, j: nat)
    requires Changed(t, lv, pos, d, c, t', lv') && j <= d
    requires WellFormed(t'.nodes, lv', t.next, Lo(t, pos, d), Hi(t, pos, d))
    ensures SwappedAt(t, lv, pos, d, t', lv', j)
    decreases d - j
  {
    if j < d {
      Swap(t, lv, pos, d, c, t', lv', j + 1);
      PathNode(t, lv, pos, j);
      SwapStep(t, lv, pos, d, c, t', lv', j);
    } else {
      SwappedWhole(InOrder(t.nodes, lv, pos[d].node), InOrder(t'.nodes, lv', t.next));
    }
  }

  lemma SwappedWhole(u: seq<Slot>, v: seq<Slot>)
    ensures Swapped(u, v, u, v)
  {
    assert Around(u, u, [], []) && Around(v, v, [], []);
  }

  /** A clone that fits the interval of the node it replaces leaves a well-formed tree with its bindings swapped in. */
  lemma TreeSwapped(t: Tree, lv: Levels, pos: seq<Pos>, d: nat, c: Node, t': Tree, lv': Levels)
    requires Changed(t, lv, pos, d, c, t', lv')
    requires WellFormed(t'.nodes, lv', t.next, Lo(t, pos, d), Hi(t, pos, d))
    ensures TreeOk(t', lv') && Ascending(Bindings(t', lv'))
    ensures Swapped(Bindings(t, lv), Bindings(t', lv'), InOrder(t.nodes, lv, pos[d].node),
                    InOrder(t'.nodes, lv', t.next))
  {
    Swap(t, lv, pos, d, c, t', lv', 0);
    InOrderAscends(t'.nodes, lv', t'.root, LEFT_MOST_KEY, NIL_KEY);
  }

  lemma KidAnyhow(t: Tree, lv: Levels, pos: seq<Pos>, d: nat, c: Node, t': Tree, lv': Levels, levels: Levels, j: nat,
                  lo: int, hi: int)
    requires Changed(t, lv, pos, d, c, t', lv') && j < d && OnPath(t, lv, pos, j)
    requires WellFormed(t'.nodes, levels, pos[j].node, lo, hi) && levels[pos[j].node] == t.level - j
    ensures KidOk(t'.nodes, levels, NewSlots(t, pos, d, j), t.level - j, hi, pos[j].idx)
  {
    ChangedNode(t, lv, pos, d, c, t', lv', j);
    assert KidOk(t'.nodes, levels, Slots(t'.nodes[pos[j].node]), t.level - j, hi, pos[j].idx);
  }

  /** However levels are given to its nodes, a tree is well formed only if the clone is in order. */
  lemma {:induction false} CloneReached(t: Tree, lv: Levels, pos: seq<Pos>, d: nat, c: Node, t': Tree, lv': Levels,
                                        levels: Levels, j: nat, lo: int, hi: int)
    requires Changed(t, lv, pos, d, c, t', lv') && j <= d
    requires WellFormed(t'.nodes, levels, NewAt(t, pos, d, j), lo, hi)
    requires levels[NewAt(t, pos, d, j)] == t.level - j
    ensures NodeOk(c)
    decreases d - j
  {
    if j < d {
      PathNode(t, lv, pos, j);
      var s', k := NewSlots(t, pos, d, j), pos[j].idx;
      KidAnyhow(t, lv, pos, d, c, t', lv', levels, j, lo, hi);
      CloneReached(t, lv, pos, d, c, t', lv', levels, j + 1, s'[k].key, EndOf(s', k, hi));
    }
  }

  lemma NotOkWithout(t: Tree, lv: Levels, pos: seq<Pos>, d: nat, c: Node, t': Tree, lv': Levels, levels: Levels)
    requires Changed(t, lv, pos, d, c, t', lv') && !NodeOk(c)
    ensures !TreeOk(t', levels)
  {
    if TreeOk(t', levels) {
      CloneReached(t, lv, pos, d, c, t', lv', levels, 0, LEFT_MOST_KEY, NIL_KEY);
    }
  }

  // ---------------------------------------------------------------- later searches

  /** Beside the path a search finds what it found. */
  lemma SiblingFound(t: Tree, lv: Levels, pos: seq<Pos>, d: nat, t': Tree, lv': Levels, j: nat, i: nat, key: int)
    requires LeafPath(t, lv, pos) && j < d < |pos| && OnPath(t, lv, pos, j)
    requires i < |SlotsAt(t, pos[j])| && i != pos[j].idx && OnlyAt(t.nodes, lv, t'.nodes, lv', pos[d - 1].node)
    ensures var x := SlotsAt(t, pos[j])[i].kid;
            && x in lv' && lv'[x] < lv[pos[j].node] && Found(t'.nodes, lv', x, key) == Found(t.nodes, lv, x, key)
  {
    var s := SlotsAt(t, pos[j]);
    SiblingOutside(t, lv, pos, d, j, i);
    ApartFound(t.nodes, lv, t'.nodes, lv', pos[d - 1].node, s[i].kid, s[i].key, EndOf(s, i, Hi(t, pos, j)), key);
  }

  /** A search that leaves the path at `j` finds what it found. */
  lemma LeavesPath(t: Tree, lv: Levels, pos: seq<Pos>, d: nat, c: Node, t': Tree, lv': Levels, j: nat, key: int)
    requires Changed(t, lv, pos, d, c, t', lv') && j < d && OnPath(t, lv, pos, j) && !TakesAt(t, pos, key, j)
    ensures Found(t'.nodes, lv', pos[j].node, key) == Found(t.nodes, lv, pos[j].node, key)
  {
    var i := Pick(SlotsAt(t, pos[j]), key);
    ChangedNode(t, lv, pos, d, c, t', lv', j);
    FoundBelow(t.nodes, lv, pos[j].node, Lo(t, pos, j), Hi(t, pos, j), key);
    SiblingFound(t, lv, pos, d, t', lv', j, i, key);
    FoundThrough(t'.nodes, lv', pos[j].node, SlotsAt(t, pos[j]), NewSlots(t, pos, d, j), key);
  }

  /** A search that takes the path's slot goes on to the node that is there now. */
  lemma StaysOnPath(t: Tree, lv: Levels, pos: seq<Pos>, d: nat, c: Node, t': Tree, lv': Levels, j: nat, key: int)
    requires Changed(t, lv, pos, d, c, t', lv') && j < d && OnPath(t, lv, pos, j) && TakesAt(t, pos, key, j)
    ensures Found(t'.nodes, lv', pos[j].node, key) == Found(t'.nodes, lv', NewAt(t, pos, d, j + 1), key)
  {
    ChangedNode(t, lv, pos, d, c, t', lv', j);
    assert StepAt(t, lv, pos, j + 1);
    FoundThrough(t'.nodes, lv', pos[j].node, SlotsAt(t, pos[j]), NewSlots(t, pos, d, j), key);
  }

  /** A search finds what it found, unless it comes by the clone. */
  lemma {:induction false} FoundAfter(t: Tree, lv: Levels, pos: seq<Pos>, d: nat, c: Node, t': Tree, lv': Levels,
                                      j: nat, key: int)
    requires Changed(t, lv, pos, d, c, t', lv') && j <= d
    ensures Found(t'.nodes, lv', NewAt(t, pos, d, j), key)
            == if Along(t, pos, key, j, d) then Found(t'.nodes, lv', t.next, key)
               else Found(t.nodes, lv, pos[j].node, key)
    decreases d - j
  {
    if j < d {
      PathNode(t, lv, pos, j);
      if TakesAt(t, pos, key, j) {
        StaysOnPath(t, lv, pos, d, c, t', lv', j, key);
        FoundAfter(t, lv, pos, d, c, t', lv', j + 1, key);
        FoundBelow(t.nodes, lv, pos[j].node, Lo(t, pos, j), Hi(t, pos, j), key);
        assert Along(t, pos, key, j, d) <==> Along(t, pos, key, j + 1, d);
      } else {
        LeavesPath(t, lv, pos, d, c, t', lv', j, key);
      }
    }
  }

  lemma AnswerAfter(t: Tree, lv: Levels, pos: seq<Pos>, d: nat, c: Node, t': Tree, lv': Levels, key: int)
    requires Changed(t, lv, pos, d, c, t', lv')
    ensures !Along(t, pos, key, 0, d) ==> Answer(t', lv', key) == Answer(t, lv, key)
    ensures Along(t, pos, key, 0, d) ==> && Answer(t, lv, key) == Found(t.nodes, lv, pos[d].node, key)
                                         && Answer(t', lv', key) == Found(t'.nodes, lv', t.next, key)
  {
    FoundAfter(t, lv, pos, d, c, t', lv', 0, key);
    if Along(t, pos, key, 0, d) {
      FoundOnPath(t, lv, pos, key, 0, d);
    }
  }
}
