/** `fb_cloning_and_insert` and `fb_replace_child` on a leaf, as a change of the whole tree. */
module FbInserts {
  import opened Basics
  import opened PageSearch
  import opened FbNode
  import opened FbShape
  import opened FbTrees
  import opened FbSearch
  import opened FbPaths

  /** `b` is `a` with `x` somewhere in it. */
  ghost predicate OneMore(a: seq<Slot>, b: seq<Slot>, x: Slot) {
    exists i {:trigger Inserted(a, i, x)} | 0 <= i <= |a| :: b == Inserted(a, i, x)
  }

  lemma SwappedOneMore(a: seq<Slot>, b: seq<Slot>, u: seq<Slot>, v: seq<Slot>, x: Slot)
    requires Swapped(a, b, u, v) && OneMore(u, v, x)
    ensures OneMore(a, b, x)
  {
    var p, q :| Around(a, u, p, q) && Around(b, v, p, q);
    var i :| 0 <= i <= |u| && v == Inserted(u, i, x);
    assert b == Inserted(a, |p| + i, x);
  }

  lemma OneMoreMembers(a: seq<Slot>, b: seq<Slot>, x: Slot)
    requires Ascending(b) && OneMore(a, b, x)
    ensures x in b && (forall y | y in a :: y in b && y.key != x.key) && (forall y | y in b :: y in a || y == x)
  {
    var i :| 0 <= i <= |a| && b == Inserted(a, i, x);
    assert b[i] == x;
    forall y | y in a
      ensures y in b && y.key != x.key
    {
      var k :| 0 <= k < |a| && a[k] == y;
      assert b[if k < i then k else k + 1] == y;
    }
  }

  /** The leaf itself. */
  lemma LeafGrows(ns: Nodes, lv: Levels, f: Id, ns': Nodes, lv': Levels, n: Id, idx: nat, lo: int, hi: int, x: Slot)
    requires WellFormed(ns, lv, f, lo, hi) && lv[f] == 1 && Count(ns[f]) < SLOT_MAX && x.key < hi <= NIL_KEY
    requires IsSlot(ns[f].keys, x.key, idx) && ns[f].keys[idx] < x.key && idx < LAST_SLOT
    requires n in ns' && n in lv' && lv'[n] == 1 && ns'[n] == ClonedInsert(ns[f], idx + 1, x.key, x.kid)
    ensures WellFormed(ns', lv', n, lo, hi) && InOrder(ns', lv', n) == Inserted(InOrder(ns, lv, f), idx + 1, x)
  {
    var s := Slots(ns[f]);
    assert KeyIn(s, lo, hi, 0);
    SearchPicks(ns[f], x.key, idx);
    SlotsAscending(ns[f]);
    assert ns[f].keys[0] <= ns[f].keys[idx];
    InsertOrdered(ns[f], x.key, x.kid, idx);
    InsertSlots(ns[f], idx + 1, x.key, x.kid);
    InsertedKeys(s, idx + 1, lo, hi, x);
  }

  lemma InsertedKeys(s: seq<Slot>, k: nat, lo: int, hi: int, x: Slot)
    requires k <= |s| && lo <= x.key < hi && forall i | 0 <= i < |s| :: KeyIn(s, lo, hi, i)
    ensures forall i | 0 <= i <= |s| :: KeyIn(Inserted(s, k, x), lo, hi, i)
  {
    var s' := Inserted(s, k, x);
    forall i | 0 <= i < |s'|
      ensures KeyIn(s', lo, hi, i)
    {
      if i != k {
        var j := if i < k then i else i - 1;
        assert s'[i] == s[j] && KeyIn(s, lo, hi, j);
      }
    }
  }

  // ------------------------------------------------------------------ the whole tree

  /** `t'` is `t` with `x` cloned into the leaf that a search for its key ends in. */
  ghost predicate Inserts(t: Tree, lv: Levels, pos: seq<Pos>, x: Slot, t': Tree, lv': Levels) {
    && Searched(t, lv, pos, x.key) && HasRoom(t, Leaf(pos)) && Leaf(pos).idx < LAST_SLOT
    && NodeOk(t.nodes[Leaf(pos).node])
    && Changed(t, lv, pos, |pos| - 1, ClonedInsert(t.nodes[Leaf(pos).node], Leaf(pos).idx + 1, x.key, x.kid), t', lv')
  }

  lemma LeafReplaced(t: Tree, lv: Levels, pos: seq<Pos>, x: Slot, t': Tree, lv': Levels)
    requires Inserts(t, lv, pos, x, t', lv') && Answer(t, lv, x.key).key < x.key
    ensures var d := |pos| - 1;
            && WellFormed(t'.nodes, lv', t.next, Lo(t, pos, d), Hi(t, pos, d))
            && OneMore(InOrder(t.nodes, lv, pos[d].node), InOrder(t'.nodes, lv', t.next), x)
  {
    var d, f := |pos| - 1, Leaf(pos).node;
    PathFound(t, lv, pos, x.key);
    KeyBelowHi(t, lv, pos, x.key, d);
    assert SearchedAt(t, pos, x.key, d);
    LeafGrows(t.nodes, lv, f, t'.nodes, lv', t.next, Leaf(pos).idx, Lo(t, pos, d), Hi(t, pos, d), x);
  }

  /** Inserting a key behind a smaller one adds exactly that binding, in order, and keeps the tree well formed. */
  lemma InsertGrows(t: Tree, lv: Levels, pos: seq<Pos>, x: Slot, t': Tree, lv': Levels)
    requires Inserts(t, lv, pos, x, t', lv') && Answer(t, lv, x.key).key < x.key
    ensures TreeOk(t', lv') && Ascending(Bindings(t', lv')) && OneMore(Bindings(t, lv), Bindings(t', lv'), x)
  {
    var d, n := |pos| - 1, t.nodes[Leaf(pos).node];
    LeafReplaced(t, lv, pos, x, t', lv');
    TreeSwapped(t, lv, pos, d, ClonedInsert(n, Leaf(pos).idx + 1, x.key, x.kid), t', lv');
    SwappedOneMore(Bindings(t, lv), Bindings(t', lv'), InOrder(t.nodes, lv, pos[d].node),
                   InOrder(t'.nodes, lv', t.next), x);
  }

  /** Inserting a key behind a greater one breaks the tree, however levels are given to its nodes. */
  lemma InsertBreaks(t: Tree, lv: Levels, pos: seq<Pos>, x: Slot, t': Tree, lv': Levels, levels: Levels)
    requires Inserts(t, lv, pos, x, t', lv') && Answer(t, lv, x.key).key > x.key
    ensures !TreeOk(t', levels)
  {
    var d, n := |pos| - 1, t.nodes[Leaf(pos).node];
    PathFound(t, lv, pos, x.key);
    assert SearchedAt(t, pos, x.key, d);
    InsertOrdered(n, x.key, x.kid, Leaf(pos).idx);
    NotOkWithout(t, lv, pos, d, ClonedInsert(n, Leaf(pos).idx + 1, x.key, x.kid), t', lv', levels);
  }

  /** The exact condition: an absent key goes in well if and only if the search for it ends at a smaller one. */
  lemma InsertOkIff(t: Tree, lv: Levels, pos: seq<Pos>, x: Slot, t': Tree, lv': Levels)
    requires Inserts(t, lv, pos, x, t', lv') && Answer(t, lv, x.key).key != x.key
    ensures TreeOk(t', lv') <==> Answer(t, lv, x.key).key < x.key
    ensures (exists levels :: TreeOk(t', levels)) <==> Answer(t, lv, x.key).key < x.key
  {
    if Answer(t, lv, x.key).key < x.key {
      InsertGrows(t, lv, pos, x, t', lv');
    } else {
      forall levels
        ensures !TreeOk(t', levels)
      {
        InsertBreaks(t, lv, pos, x, t', lv', levels);
      }
    }
  }

  // --------------------------------------------------------------- searches afterwards

  lemma LeafSound(s: seq<Slot>, k: nat, x: Slot, key: int)
    requires Ascending(s) && 0 < k <= |s| && s[Pick(s, key)].key <= key
    ensures var s' := Inserted(s, k, x); s'[Pick(s', key)].key <= key
  {
    assert s[0].key <= s[Pick(s, key)].key;
  }

  lemma NodeSound(ns: Nodes, lv: Levels, f: Id, ns': Nodes, lv': Levels, n: Id, k: nat, x: Slot, key: int)
    requires f in ns && f in lv && lv[f] == 1 && NodeOk(ns[f]) && 0 < k <= Count(ns[f])
    requires n in ns' && n in lv' && lv'[n] == 1 && |ns'[n].keys| == |ns'[n].kids|
    requires Slots(ns'[n]) == Inserted(Slots(ns[f]), k, x) && Found(ns, lv, f, key).key <= key
    ensures Found(ns', lv', n, key).key <= key
  {
    SlotsAscending(ns[f]);
    LeafSound(Slots(ns[f]), k, x, key);
  }

  /** A search that ended at a key not above its own still does. */
  lemma InsertSound(t: Tree, lv: Levels, pos: seq<Pos>, x: Slot, t': Tree, lv': Levels, key: int)
    requires Inserts(t, lv, pos, x, t', lv') && Answer(t, lv, key).key <= key
    ensures Answer(t', lv', key).key <= key
  {
    var d, f, k := |pos| - 1, Leaf(pos).node, Leaf(pos).idx + 1;
    PathNode(t, lv, pos, d);
    var c := ClonedInsert(t.nodes[f], k, x.key, x.kid);
    AnswerAfter(t, lv, pos, d, c, t', lv', key);
    if Along(t, pos, key, 0, d) {
      InsertSlots(t.nodes[f], k, x.key, x.kid);
      NodeSound(t.nodes, lv, f, t'.nodes, lv', t.next, k, x, key);
    }
  }

  /** From the smallest key on, every search ends at a key not above its own. */
  ghost predicate Tight(t: Tree, lv: Levels) {
    Bindings(t, lv) != [] && forall key | Bindings(t, lv)[0].key <= key :: Answer(t, lv, key).key <= key
  }

  lemma InsertTight(t: Tree, lv: Levels, pos: seq<Pos>, x: Slot, t': Tree, lv': Levels)
    requires Inserts(t, lv, pos, x, t', lv') && Answer(t, lv, x.key).key < x.key && Tight(t, lv)
    ensures Tight(t', lv') && Bindings(t', lv')[0] == Bindings(t, lv)[0]
  {
    InsertGrows(t, lv, pos, x, t', lv');
    FoundMember(t.nodes, lv, t.root, LEFT_MOST_KEY, NIL_KEY, x.key);
    FirstStays(Bindings(t, lv), Bindings(t', lv'), x, Answer(t, lv, x.key));
    forall key | Bindings(t', lv')[0].key <= key
      ensures Answer(t', lv', key).key <= key
    {
      assert Answer(t, lv, key).key <= key;
      InsertSound(t, lv, pos, x, t', lv', key);
    }
  }

  lemma FirstStays(a: seq<Slot>, b: seq<Slot>, x: Slot, y: Slot)
    requires OneMore(a, b, x) && Ascending(b) && y in a && y.key < x.key
    ensures b[0] == a[0]
  {
    var i :| 0 <= i <= |a| && b == Inserted(a, i, x);
    var k :| 0 <= k < |a| && a[k] == y;
    assert b[i] == x && b[if k < i then k else k + 1] == y;
  }

  /** In such a tree a search ends at the binding with the greatest key that is not above. */
  lemma AnswerIsFloor(t: Tree, lv: Levels, key: int, b: Slot)
    requires TreeOk(t, lv) && Tight(t, lv) && Bindings(t, lv)[0].key <= key && b in Bindings(t, lv) && b.key <= key
    ensures Answer(t, lv, key) in Bindings(t, lv) && b.key <= Answer(t, lv, key).key <= key
  {
    FoundMember(t.nodes, lv, t.root, LEFT_MOST_KEY, NIL_KEY, key);
    FoundPresent(t.nodes, lv, t.root, LEFT_MOST_KEY, NIL_KEY, b);
    FoundMonotone(t.nodes, lv, t.root, LEFT_MOST_KEY, NIL_KEY, b.key, key);
  }
}
