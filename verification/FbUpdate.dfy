/** `fb_insert` with its retry after a split, and a removal followed by an insertion. */
module FbUpdates {
  import opened Basics
  import opened PageSearch
  import opened FbNode
  import opened FbShape
  import opened FbTrees
  import opened FbSearch
  import opened FbPaths
  import opened FbInserts
  import opened FbRemoves

  // ----------------------------------------------------------------------- the retry

  /** The key at the end of a path to a leaf. */
  ghost function LastKey(t: Tree, pos: seq<Pos>): int
    requires pos != [] && Leaf(pos).idx < |SlotsAt(t, Leaf(pos))|
  {
    SlotsAt(t, Leaf(pos))[Leaf(pos).idx].key
  }

  /** It lies in the interval of every node of the path. */
  lemma LastInside(t: Tree, lv: Levels, pos: seq<Pos>, j: nat)
    requires LeafPath(t, lv, pos) && j < |pos|
    ensures OnPath(t, lv, pos, |pos| - 1) && Lo(t, pos, j) <= LastKey(t, pos) < Hi(t, pos, j)
  {
    var d := |pos| - 1;
    PathNode(t, lv, pos, d);
    assert KeyIn(SlotsAt(t, pos[d]), Lo(t, pos, d), Hi(t, pos, d), pos[d].idx);
    Narrows(t, lv, pos, j, d);
  }

  /** Two paths that end at the same key come by the same nodes. */
  lemma {:induction false} OnePlace(t: Tree, lv: Levels, p: seq<Pos>, q: seq<Pos>, j: nat)
    requires LeafPath(t, lv, p) && LeafPath(t, lv, q) && j < |p|
    requires Leaf(p).idx < |SlotsAt(t, Leaf(p))| && Leaf(q).idx < |SlotsAt(t, Leaf(q))|
    requires LastKey(t, p) == LastKey(t, q)
    ensures p[j].node == q[j].node && Hi(t, p, j) == Hi(t, q, j)
  {
    if j > 0 {
      OnePlace(t, lv, p, q, j - 1);
      PathNode(t, lv, p, j - 1);
      PathNode(t, lv, q, j - 1);
      LastInside(t, lv, p, j);
      LastInside(t, lv, q, j);
      SameSlotTaken(SlotsAt(t, p[j - 1]), Hi(t, p, j - 1), p[j - 1].idx, q[j - 1].idx, LastKey(t, p));
    }
  }

  lemma SameSlotTaken(s: seq<Slot>, hi: int, a: nat, b: nat, x: int)
    requires Ascending(s) && a < |s| && b < |s|
    requires s[a].key <= x < EndOf(s, a, hi) && s[b].key <= x < EndOf(s, b, hi)
    ensures a == b
  {
  }

  /** A search for `key` ends in a leaf with room. */
  ghost predicate RoomFor(t: Tree, lv: Levels, key: int) {
    forall pos | Searched(t, lv, pos, key) :: HasRoom(t, Leaf(pos))
  }

  /** A path that ends where a search does ends in the search's leaf. */
  lemma SearchedLeaf(t: Tree, lv: Levels, p: seq<Pos>, q: seq<Pos>, key: int)
    requires LeafPath(t, lv, p) && Leaf(p).idx < |SlotsAt(t, Leaf(p))| && LastKey(t, p) == Answer(t, lv, key).key
    requires Searched(t, lv, q, key)
    ensures Leaf(q).node == Leaf(p).node
  {
    PathFound(t, lv, q, key);
    OnePlace(t, lv, p, q, |q| - 1);
  }

  lemma SplitAnswer(t: Tree, lv: Levels, pos: seq<Pos>, key: int, t': Tree, lv': Levels, pos': seq<Pos>, d': nat)
    requires Searched(t, lv, pos, key) && SplitDone(t, lv, pos, t.level - 1, t', lv', pos', d')
    ensures LeafPath(t', lv', pos') && HasRoom(t', Leaf(pos')) && Leaf(pos').idx < |SlotsAt(t', Leaf(pos'))|
    ensures LastKey(t', pos') == Answer(t', lv', key).key
  {
    PathFound(t, lv, pos, key);
    PathNode(t', lv', pos', |pos'| - 1);
    assert Answer(t', lv', key) == Answer(t, lv, key);
  }

  /** After a split of the leaf a search ended in, the same search ends in a leaf with room. */
  lemma RoomAfterSplit(t: Tree, lv: Levels, pos: seq<Pos>, key: int, t': Tree, lv': Levels, pos': seq<Pos>, d': nat)
    requires Searched(t, lv, pos, key) && SplitDone(t, lv, pos, t.level - 1, t', lv', pos', d')
    ensures RoomFor(t', lv', key)
  {
    SplitAnswer(t, lv, pos, key, t', lv', pos', d');
    forall q | Searched(t', lv', q, key)
      ensures HasRoom(t', Leaf(q))
    {
      SearchedLeaf(t', lv', pos', q, key);
    }
  }

  /** Traversal, check for a duplicate, and a split with a retry if the leaf is full. */
  method MakeRoom(t: Tree, ghost lv: Levels, key: int, junk: seq<int>)
    returns (dup: bool, t': Tree, ghost lv': Levels, pos: seq<Pos>)
    requires TreeOk(t, lv) && LEFT_MOST_KEY <= key < NIL_KEY && |junk| == SLOT_MAX
    ensures TreeOk(t', lv') && Alike(t, lv, t', lv') && Searched(t', lv', pos, key)
    ensures dup <==> Answer(t, lv, key).key == key
    ensures dup ==> t' == t && lv' == lv
    ensures !dup ==> HasRoom(t', Leaf(pos))
  {
    t', lv' := t, lv;
    ghost var split := false;
    while true
      invariant TreeOk(t', lv') && Alike(t, lv, t', lv')
      invariant if split then Answer(t, lv, key).key != key && RoomFor(t', lv', key) else t' == t && lv' == lv
      decreases if split then 0 else 1
    {
      pos := Traverse(t', lv', key);
      PathFound(t', lv', pos, key);
      assert Answer(t', lv', key) == Answer(t, lv, key);
      var leaf := t'.nodes[Leaf(pos).node];
      FullCount(leaf);
      if leaf.keys[Leaf(pos).idx] == key {
        return true, t', lv', pos;
      }
      if !Full(leaf) {
        return false, t', lv', pos;
      }
      var t2, pos2, d2;
      ghost var lv2;
      t2, lv2, pos2, d2 := SplitNode(t', lv', pos, t'.level - 1, junk);
      RoomAfterSplit(t', lv', pos, key, t2, lv2, pos2, d2);
      AlikeTrans(t, lv, t', lv', t2, lv2);
      t', lv', split := t2, lv2, true;
    }
  }

  // ------------------------------------------------------------------------ insertion

  /** The tree after the leaf at the end of the path is replaced by a clone with one more slot. */
  lemma LeafReady(t: Tree, lv: Levels, pos: seq<Pos>, x: Slot)
    requires Searched(t, lv, pos, x.key) && HasRoom(t, Leaf(pos))
    ensures t.next !in t.nodes && Leaf(pos).node in t.nodes && Leaf(pos).idx < LAST_SLOT
    ensures NodeOk(t.nodes[Leaf(pos).node])
    ensures |pos| > 1 ==> pos[|pos| - 2].node in t.nodes
                          && pos[|pos| - 2].idx < |t.nodes[pos[|pos| - 2].node].kids|
    ensures var c := ClonedInsert(t.nodes[Leaf(pos).node], Leaf(pos).idx + 1, x.key, x.kid);
            Inserts(t, lv, pos, x, WithNode(t, pos, |pos| - 1, c), lv[t.next := 1])
  {
    PathNode(t, lv, pos, |pos| - 1);
    Changes(t, lv, pos, |pos| - 1, ClonedInsert(t.nodes[Leaf(pos).node], Leaf(pos).idx + 1, x.key, x.kid));
  }

  lemma AlikeTight(t: Tree, lv: Levels, t': Tree, lv': Levels)
    requires Alike(t, lv, t', lv') && Tight(t, lv)
    ensures Tight(t', lv')
  {
    forall key | Bindings(t', lv')[0].key <= key
      ensures Answer(t', lv', key).key <= key
    {
      assert Answer(t', lv', key) == Answer(t, lv, key);
    }
  }

  /** What an insertion of `x` makes of a tree, if it goes well. */
  ghost predicate Added(t: Tree, lv: Levels, x: Slot, t': Tree, lv': Levels) {
    && TreeOk(t', lv') && Ascending(Bindings(t', lv')) && OneMore(Bindings(t, lv), Bindings(t', lv'), x)
    && (Tight(t, lv) ==> Tight(t', lv') && Bindings(t', lv')[0] == Bindings(t, lv)[0])
  }

  lemma AddedTo(t: Tree, lv: Levels, t1: Tree, lv1: Levels, pos: seq<Pos>, x: Slot, t': Tree, lv': Levels)
    requires Alike(t, lv, t1, lv1) && Inserts(t1, lv1, pos, x, t', lv') && Answer(t1, lv1, x.key).key < x.key
    ensures Added(t, lv, x, t', lv')
  {
    InsertGrows(t1, lv1, pos, x, t', lv');
    if Tight(t, lv) {
      AlikeTight(t, lv, t1, lv1);
      InsertTight(t1, lv1, pos, x, t', lv');
    }
  }

  /** If searches are tight, the smallest key decides where the search for an absent key ends. */
  lemma SmallestDecides(t: Tree, lv: Levels, key: int)
    requires TreeOk(t, lv) && Tight(t, lv)
    ensures Answer(t, lv, key).key <= key <==> Bindings(t, lv)[0].key <= key
  {
    FoundMember(t.nodes, lv, t.root, LEFT_MOST_KEY, NIL_KEY, key);
    InOrderAscends(t.nodes, lv, t.root, LEFT_MOST_KEY, NIL_KEY);
  }

  /** Some levels make a well-formed tree of these nodes. */
  ghost predicate Formed(t: Tree) {
    exists levels :: TreeOk(t, levels)
  }

  /** `fb_insert`: it fails exactly for a key that is there, and goes well exactly behind a smaller key. */
  method InsertInto(t: Tree, ghost lv: Levels, key: int, data: Id, junk: seq<int>)
    returns (ok: bool, t': Tree, ghost lv': Levels)
    requires TreeOk(t, lv) && LEFT_MOST_KEY <= key < NIL_KEY && |junk| == SLOT_MAX
    ensures ok <==> Answer(t, lv, key).key != key
    ensures !ok ==> t' == t && lv' == lv
    ensures ok ==> (Formed(t') <==> Answer(t, lv, key).key < key)
    ensures ok && Tight(t, lv) ==> (Formed(t') <==> Bindings(t, lv)[0].key <= key)
    ensures ok && Formed(t') ==> Added(t, lv, Slot(key, data), t', lv')
  {
    var dup, t1, pos;
    ghost var lv1;
    dup, t1, lv1, pos := MakeRoom(t, lv, key, junk);
    assert Answer(t1, lv1, key) == Answer(t, lv, key);
    if dup {
      return false, t1, lv1;
    }
    ghost var x := Slot(key, data);
    LeafReady(t1, lv1, pos, x);
    var c := ClonedInsert(t1.nodes[Leaf(pos).node], Leaf(pos).idx + 1, key, data);
    t', lv' := WithNode(t1, pos, |pos| - 1, c), lv1[t1.next := 1];
    ok := true;
    InsertOkIff(t1, lv1, pos, x, t', lv');
    if Tight(t, lv) {
      SmallestDecides(t, lv, key);
    }
    if Answer(t, lv, key).key < key {
      AddedTo(t, lv, t1, lv1, pos, x, t', lv');
    }
  }

  // ------------------------------------------------------------- removal and insertion

  lemma PlaceOf(a: seq<Slot>, i: nat, x: Slot)
    requires i <= |a| && Ascending(Inserted(a, i, x))
    ensures (forall k | 0 <= k < i :: a[k].key < x.key) && (forall k | i <= k < |a| :: x.key < a[k].key)
  {
    var b := Inserted(a, i, x);
    assert b[i] == x;
    assert forall k | 0 <= k < |a| :: a[k] == b[if k < i then k else k + 1];
  }

  /** A key has one place in a sorted sequence. */
  lemma OneWayIn(a: seq<Slot>, b: seq<Slot>, c: seq<Slot>, x: Slot)
    requires OneMore(a, b, x) && OneMore(a, c, x) && Ascending(b) && Ascending(c)
    ensures b == c
  {
    var i :| 0 <= i <= |a| && b == Inserted(a, i, x);
    var j :| 0 <= j <= |a| && c == Inserted(a, j, x);
    PlaceOf(a, i, x);
    PlaceOf(a, j, x);
  }

  /**
   A key removed and inserted again: the tree has the bindings it had if the key was
   not the first under the lowest node with more than one, and is broken if it was.
   */
  method Reinsert(t: Tree, ghost lv: Levels, key: int, junk: seq<int>) returns (t': Tree, ghost lv': Levels)
    requires TreeOk(t, lv) && LEFT_MOST_KEY <= key < NIL_KEY && |junk| == SLOT_MAX
    requires Answer(t, lv, key).key == key && |Bindings(t, lv)| > 1
    ensures Formed(t') <==> !GoesFirst(t.nodes, lv, t.root, key)
    ensures Formed(t') ==> TreeOk(t', lv') && Bindings(t', lv') == Bindings(t, lv)
  {
    var data := Find(t, lv, key);
    var ok, t1;
    ghost var lv1;
    ok, t1, lv1 := RemoveFrom(t, lv, key, 0);
    ok, t', lv' := InsertInto(t1, lv1, key, data, junk);
    if Formed(t') {
      InOrderAscends(t.nodes, lv, t.root, LEFT_MOST_KEY, NIL_KEY);
      OneWayIn(Bindings(t1, lv1), Bindings(t, lv), Bindings(t', lv'), Slot(key, data));
    }
  }

  function LeafNode(s: seq<Slot>, junk: seq<int>): Node
    requires |s| <= SLOT_MAX == |junk|
  {
    Node(seq(|s|, i requires 0 <= i < |s| => s[i].key) + Nils(SLOT_MAX - |s|),
         seq(|s|, i requires 0 <= i < |s| => s[i].kid) + junk[|s|..])
  }

  lemma LeafNodeOk(s: seq<Slot>, junk: seq<int>)
    requires 0 < |s| <= SLOT_MAX == |junk| && Ascending(s)
    requires forall i | 0 <= i < |s| :: LEFT_MOST_KEY <= s[i].key < NIL_KEY
    ensures NodeOk(LeafNode(s, junk)) && Slots(LeafNode(s, junk)) == s
  {
    var n := LeafNode(s, junk);
    assert forall i | 0 <= i < SLOT_MAX :: n.keys[i] == if i < |s| then s[i].key else NIL_KEY;
    SlotsAre(n, s);
  }

  /** A root with the separator `b.key` over the leaves [a] and [b, c]. */
  function TwoLeaves(a: Slot, b: Slot, c: Slot, junk: seq<int>): Tree
    requires |junk| == SLOT_MAX
  {
    Tree(map[0 := LeafNode([a], junk), 1 := LeafNode([b, c], junk), 2 := RootNode(0, b.key, 1, junk)], 2, 2, 3)
  }

  ghost const TwoLevels: Levels := map[0 := 1, 1 := 1, 2 := 2]

  lemma TwoLeavesNodes(a: Slot, b: Slot, c: Slot, junk: seq<int>)
    requires |junk| == SLOT_MAX && LEFT_MOST_KEY <= a.key < b.key < c.key < NIL_KEY
    ensures var ns := TwoLeaves(a, b, c, junk).nodes;
            && NodeOk(ns[0]) && Slots(ns[0]) == [a] && NodeOk(ns[1]) && Slots(ns[1]) == [b, c]
            && NodeOk(ns[2]) && Slots(ns[2]) == [Slot(LEFT_MOST_KEY, 0), Slot(b.key, 1)]
  {
    LeafNodeOk([a], junk);
    LeafNodeOk([b, c], junk);
    RootSlots(0, b.key, 1, junk);
  }

  lemma TwoLeavesOk(a: Slot, b: Slot, c: Slot, junk: seq<int>)
    requires |junk| == SLOT_MAX && LEFT_MOST_KEY <= a.key < b.key < c.key < NIL_KEY
    ensures var t := TwoLeaves(a, b, c, junk); TreeOk(t, TwoLevels) && Bindings(t, TwoLevels) == [a, b, c]
  {
    var t, s := TwoLeaves(a, b, c, junk), [Slot(LEFT_MOST_KEY, 0), Slot(b.key, 1)];
    TwoLeavesNodes(a, b, c, junk);
    assert KeyIn([a], LEFT_MOST_KEY, b.key, 0);
    assert KeyIn([b, c], b.key, NIL_KEY, 0) && KeyIn([b, c], b.key, NIL_KEY, 1);
    assert KeyIn(s, LEFT_MOST_KEY, NIL_KEY, 0) && KeyIn(s, LEFT_MOST_KEY, NIL_KEY, 1);
    assert KidOk(t.nodes, TwoLevels, s, 2, NIL_KEY, 0) && KidOk(t.nodes, TwoLevels, s, 2, NIL_KEY, 1);
    FlatTwo(t.nodes, TwoLevels, s, 2);
  }

  lemma TwoLeavesAnswer(a: Slot, b: Slot, c: Slot, junk: seq<int>, key: int)
    requires |junk| == SLOT_MAX && LEFT_MOST_KEY <= a.key < b.key < c.key < NIL_KEY
    ensures Answer(TwoLeaves(a, b, c, junk), TwoLevels, key) == if key < b.key then a else if key < c.key then b else c
  {
    TwoLeavesNodes(a, b, c, junk);
    PickIs([Slot(LEFT_MOST_KEY, 0), Slot(b.key, 1)], key, if key < b.key then 0 else 1);
    PickIs([b, c], key, if key < c.key then 0 else 1);
  }

  /** A tree in which all searches are tight, and a key that is not the smallest and whose slot is the first. */
  lemma TwoLeavesBreak(a: Slot, b: Slot, c: Slot, junk: seq<int>)
    requires |junk| == SLOT_MAX && LEFT_MOST_KEY <= a.key < b.key < c.key < NIL_KEY
    ensures var t := TwoLeaves(a, b, c, junk);
            && TreeOk(t, TwoLevels) && Tight(t, TwoLevels) && Bindings(t, TwoLevels) == [a, b, c]
            && Answer(t, TwoLevels, b.key) == b && GoesFirst(t.nodes, TwoLevels, t.root, b.key)
  {
    var t := TwoLeaves(a, b, c, junk);
    TwoLeavesOk(a, b, c, junk);
    TwoLeavesNodes(a, b, c, junk);
    forall key
      ensures Answer(t, TwoLevels, key) == if key < b.key then a else if key < c.key then b else c
    {
      TwoLeavesAnswer(a, b, c, junk, key);
    }
    PickIs([Slot(LEFT_MOST_KEY, 0), Slot(b.key, 1)], b.key, 1);
    PickIs([b, c], b.key, 0);
  }

  /** From the leaves [a] and [b, c], `b` is removed and inserted again, and the tree is broken. */
  method ReinsertBreaks(a: Slot, b: Slot, c: Slot, junk: seq<int>) returns (t: Tree)
    requires |junk| == SLOT_MAX && LEFT_MOST_KEY <= a.key < b.key < c.key < NIL_KEY
    ensures !Formed(t)
  {
    TwoLeavesBreak(a, b, c, junk);
    ghost var lv;
    t, lv := Reinsert(TwoLeaves(a, b, c, junk), TwoLevels, b.key, junk);
  }
}
