/**
 `_fb_remove` on a whole tree: nodes with one key are freed up the path, and the first
 node with more loses its slot.
 */
module FbRemoves {
  import opened Basics
  import opened PageSearch
  import opened FbNode
  import opened FbShape
  import opened FbTrees
  import opened FbSearch
  import opened FbPaths
  import opened FbInserts

  // -------------------------------------------------------------- wider intervals

  lemma {:induction false} Widened(ns: Nodes, lv: Levels, id: Id, lo: int, hi: int, hi': int)
    requires WellFormed(ns, lv, id, lo, hi) && hi <= hi'
    ensures WellFormed(ns, lv, id, lo, hi')
    decreases LevelOf(lv, id)
  {
    var s := Slots(ns[id]);
    forall i | 0 <= i < |s|
      ensures KeyIn(s, lo, hi', i) && (lv[id] > 1 ==> KidOk(ns, lv, s, lv[id], hi', i))
    {
      assert KeyIn(s, lo, hi, i);
      if lv[id] > 1 {
        assert KidOk(ns, lv, s, lv[id], hi, i);
        Widened(ns, lv, s[i].kid, s[i].key, EndOf(s, i, hi), EndOf(s, i, hi'));
      }
    }
  }

  /** Without slot `i`, its left neighbour's interval takes over what was its own. */
  lemma RemovedKid(ns: Nodes, lv: Levels, s: seq<Slot>, h: nat, lo: int, hi: int, i: nat, k: nat)
    requires Ascending(s) && i < |s| && k + 1 < |s|
    requires forall j | 0 <= j < |s| :: KeyIn(s, lo, hi, j)
    requires h > 1 ==> forall j | 0 <= j < |s| :: KidOk(ns, lv, s, h, hi, j)
    ensures KeyIn(Removed(s, i), lo, hi, k) && (h > 1 ==> KidOk(ns, lv, Removed(s, i), h, hi, k))
  {
    var s', j := Removed(s, i), if k < i then k else k + 1;
    assert s'[k] == s[j] && KeyIn(s, lo, hi, j);
    if h > 1 {
      assert KidOk(ns, lv, s, h, hi, j);
      assert j + 1 < |s| ==> KeyIn(s, lo, hi, j + 1);
      assert EndOf(s, j, hi) <= EndOf(s', k, hi);
      Widened(ns, lv, s[j].kid, s[j].key, EndOf(s, j, hi), EndOf(s', k, hi));
    }
  }

  // ------------------------------------------------------------------- one node

  /** `n` is a clone of `f` without slot `i`, and nothing below has changed. */
  ghost predicate ShrunkNode(ns: Nodes, lv: Levels, f: Id, ns': Nodes, lv': Levels, n: Id, i: nat, lo: int, hi: int) {
    && WellFormed(ns, lv, f, lo, hi) && i < |Slots(ns[f])| && |Slots(ns[f])| > 1
    && n in ns' && n in lv' && lv'[n] == lv[f] && NodeOk(ns'[n]) && Slots(ns'[n]) == Removed(Slots(ns[f]), i)
    && Extends(ns, lv, ns', lv', lv[f])
  }

  lemma ShrunkWellFormed(ns: Nodes, lv: Levels, f: Id, ns': Nodes, lv': Levels, n: Id, i: nat, lo: int, hi: int)
    requires ShrunkNode(ns, lv, f, ns', lv', n, i, lo, hi)
    ensures WellFormed(ns', lv', n, lo, hi)
  {
    var s, s', h := Slots(ns[f]), Slots(ns'[n]), lv[f];
    SlotsAscending(ns[f]);
    forall k | 0 <= k < |s'|
      ensures KeyIn(s', lo, hi, k) && (h > 1 ==> KidOk(ns, lv, s', h, hi, k))
    {
      RemovedKid(ns, lv, s, h, lo, hi, i, k);
    }
    if h > 1 {
      KidsExtended(ns, lv, ns', lv', s', h, hi);
    }
  }

  /** What hangs on a slot. */
  ghost function Under(ns: Nodes, lv: Levels, h: nat, x: Slot): seq<Slot> {
    if h <= 1 then [x] else Piece(ns, lv, x, h)
  }

  lemma ShrunkBindings(ns: Nodes, lv: Levels, f: Id, ns': Nodes, lv': Levels, n: Id, i: nat, lo: int, hi: int, b: Slot)
    requires ShrunkNode(ns, lv, f, ns', lv', n, i, lo, hi) && Under(ns, lv, lv[f], Slots(ns[f])[i]) == [b]
    ensures OneMore(InOrder(ns', lv', n), InOrder(ns, lv, f), b)
  {
    var s, s', h := Slots(ns[f]), Slots(ns'[n]), lv[f];
    if h > 1 {
      SlotsAscending(ns[f]);
      forall k | 0 <= k < |s'|
        ensures KidOk(ns, lv, s', h, hi, k)
      {
        RemovedKid(ns, lv, s, h, lo, hi, i, k);
      }
      KidsExtended(ns, lv, ns', lv', s', h, hi);
      FlatAround(ns, lv, s, h, i);
      FlatConcat(ns, lv, s[..i], s[i + 1..], h);
      PutBack(Flat(ns, lv, s[..i], h), b, Flat(ns, lv, s[i + 1..], h));
    } else {
      PutBack(s[..i], b, s[i + 1..]);
      assert s == s[..i] + [b] + s[i + 1..];
    }
  }

  lemma PutBack(p: seq<Slot>, b: Slot, q: seq<Slot>)
    ensures OneMore(p + q, p + [b] + q, b)
  {
    assert p + [b] + q == Inserted(p + q, |p|, b);
  }

  // ---------------------------------------------------------- searches in one node

  /** Where a search ends that takes slot `x`. */
  ghost function EndsAt(ns: Nodes, lv: Levels, h: nat, x: Slot, key: int): Slot {
    if h <= 1 then x else Found(ns, lv, x.kid, key)
  }

  lemma FoundEnds(ns: Nodes, lv: Levels, f: Id, lo: int, hi: int, key: int)
    requires WellFormed(ns, lv, f, lo, hi)
    ensures Found(ns, lv, f, key) == EndsAt(ns, lv, lv[f], Slots(ns[f])[Pick(Slots(ns[f]), key)], key)
  {
    if lv[f] > 1 {
      FoundBelow(ns, lv, f, lo, hi, key);
    }
  }

  lemma EndsInside(ns: Nodes, lv: Levels, f: Id, lo: int, hi: int, i: nat, key: int)
    requires WellFormed(ns, lv, f, lo, hi) && i < |Slots(ns[f])|
    ensures var s := Slots(ns[f]); s[i].key <= EndsAt(ns, lv, lv[f], s[i], key).key < EndOf(s, i, hi)
  {
    var s := Slots(ns[f]);
    SlotsAscending(ns[f]);
    assert KeyIn(s, lo, hi, i);
    if lv[f] > 1 {
      assert KidOk(ns, lv, s, lv[f], hi, i);
      FoundInside(ns, lv, s[i].kid, s[i].key, EndOf(s, i, hi), key);
    }
  }

  /** The slot a search takes once slot `i` is gone. */
  ghost function Instead(s: seq<Slot>, i: nat, key: int): nat
    requires i < |s| && |s| > 1
  {
    var m := Pick(s, key);
    if m != i then m else if i > 0 then i - 1 else 1
  }

  lemma PickRemoved(s: seq<Slot>, i: nat, key: int)
    requires Ascending(s) && i < |s| && |s| > 1
    ensures var s' := Removed(s, i); s'[Pick(s', key)] == s[Instead(s, i, key)]
  {
    var s', m := Removed(s, i), Pick(s, key);
    assert forall k | 0 <= k < |s'| :: s'[k] == if k < i then s[k] else s[k + 1];
    PickIs(s', key, if m < i then m else if m > 0 then m - 1 else 0);
  }

  lemma ShrunkFound(ns: Nodes, lv: Levels, f: Id, ns': Nodes, lv': Levels, n: Id, i: nat, lo: int, hi: int, key: int)
    requires ShrunkNode(ns, lv, f, ns', lv', n, i, lo, hi)
    ensures var s := Slots(ns[f]); Found(ns', lv', n, key) == EndsAt(ns, lv, lv[f], s[Instead(s, i, key)], key)
  {
    var s, s', k := Slots(ns[f]), Slots(ns'[n]), Instead(Slots(ns[f]), i, key);
    SlotsAscending(ns[f]);
    PickRemoved(s, i, key);
    ShrunkWellFormed(ns, lv, f, ns', lv', n, i, lo, hi);
    FoundEnds(ns', lv', n, lo, hi, key);
    if lv[f] > 1 {
      assert KidOk(ns, lv, s, lv[f], hi, k);
      ExtendedFound(ns, lv, ns', lv', s[k].kid, s[k].key, EndOf(s, k, hi), key);
    }
  }

  /**
   After slot `i` is gone, a search that took it ends further left, below the slot's
   key, or, if it was the first, above the key searched for; others end where they did.
   */
  lemma ShrunkAnswers(ns: Nodes, lv: Levels, f: Id, ns': Nodes, lv': Levels, n: Id, i: nat, lo: int, hi: int, key: int)
    requires ShrunkNode(ns, lv, f, ns', lv', n, i, lo, hi)
    ensures var s := Slots(ns[f]); var x := Found(ns', lv', n, key);
            if Pick(s, key) != i then x == Found(ns, lv, f, key)
            else if i > 0 then x.key < s[i].key <= key else key < x.key
  {
    var s := Slots(ns[f]);
    var k := Instead(s, i, key);
    ShrunkFound(ns, lv, f, ns', lv', n, i, lo, hi, key);
    FoundEnds(ns, lv, f, lo, hi, key);
    EndsInside(ns, lv, f, lo, hi, k, key);
  }

  // ------------------------------------------------------------------ the path

  /** From `d` + 1 down every node of the path has one slot, and the node at `d` has more. */
  ghost predicate CutAt(t: Tree, pos: seq<Pos>, d: nat) {
    d < |pos| && |SlotsAt(t, pos[d])| > 1 && SinglesBelow(t, pos, d)
  }

  ghost predicate SinglesBelow(t: Tree, pos: seq<Pos>, d: int) {
    forall j | 0 <= j < |pos| && d < j :: |SlotsAt(t, pos[j])| == 1
  }

  /** Under a node from which only nodes with one slot follow there is one binding. */
  lemma {:induction false} SingleBinding(t: Tree, lv: Levels, pos: seq<Pos>, j: nat)
    requires LeafPath(t, lv, pos) && j < |pos| && SinglesBelow(t, pos, j - 1)
    ensures OnPath(t, lv, pos, |pos| - 1)
    ensures InOrder(t.nodes, lv, pos[j].node) == [SlotsAt(t, Leaf(pos))[Leaf(pos).idx]]
    decreases |pos| - j
  {
    PathNode(t, lv, pos, j);
    var s := SlotsAt(t, pos[j]);
    assert s == [s[0]] && pos[j].idx == 0;
    if j + 1 < |pos| {
      SingleBinding(t, lv, pos, j + 1);
      FlatAround(t.nodes, lv, s, lv[pos[j].node], 0);
      assert s[..0] == [] && s[1..] == [];
    }
  }

  /** What hangs on the slot that goes is the one binding. */
  lemma CutBinding(t: Tree, lv: Levels, pos: seq<Pos>, d: nat)
    requires LeafPath(t, lv, pos) && CutAt(t, pos, d)
    ensures OnPath(t, lv, pos, d) && OnPath(t, lv, pos, |pos| - 1)
    ensures Under(t.nodes, lv, lv[pos[d].node], SlotsAt(t, pos[d])[pos[d].idx])
            == [SlotsAt(t, Leaf(pos))[Leaf(pos).idx]]
  {
    PathNode(t, lv, pos, d);
    PathNode(t, lv, pos, |pos| - 1);
    if d + 1 < |pos| {
      SingleBinding(t, lv, pos, d + 1);
    }
  }

  /** `t'` is `t` without the binding `b` that the search has found. */
  ghost predicate Removes(t: Tree, lv: Levels, pos: seq<Pos>, d: nat, b: Slot, junk: int, t': Tree, lv': Levels) {
    && Searched(t, lv, pos, b.key) && Answer(t, lv, b.key) == b && CutAt(t, pos, d)
    && pos[d].node in t.nodes && NodeOk(t.nodes[pos[d].node]) && pos[d].idx < SLOT_MAX
    && Changed(t, lv, pos, d, ClonedRemove(t.nodes[pos[d].node], pos[d].idx, junk), t', lv')
  }

  lemma BelowKept(t: Tree, lv: Levels, pos: seq<Pos>, d: nat, c: Node, t': Tree, lv': Levels)
    requires Changed(t, lv, pos, d, c, t', lv')
    ensures Extends(t.nodes, lv, t'.nodes, lv', t.level - d)
    ensures t.next in t'.nodes && t'.nodes[t.next] == c && t.next in lv' && lv'[t.next] == t.level - d
  {
    if d > 0 {
      assert StepAt(t, lv, pos, d - 1);
      OneOverwritten(t, lv, pos, d, c, t', lv');
    }
  }

  lemma CutNode(t: Tree, lv: Levels, pos: seq<Pos>, d: nat, b: Slot, junk: int, t': Tree, lv': Levels)
    requires Removes(t, lv, pos, d, b, junk, t', lv')
    ensures OnPath(t, lv, pos, d) && Under(t.nodes, lv, lv[pos[d].node], SlotsAt(t, pos[d])[pos[d].idx]) == [b]
    ensures ShrunkNode(t.nodes, lv, pos[d].node, t'.nodes, lv', t.next, pos[d].idx, Lo(t, pos, d), Hi(t, pos, d))
  {
    PathFound(t, lv, pos, b.key);
    CutBinding(t, lv, pos, d);
    RemoveSlots(t.nodes[pos[d].node], pos[d].idx, junk);
    BelowKept(t, lv, pos, d, ClonedRemove(t.nodes[pos[d].node], pos[d].idx, junk), t', lv');
  }

  lemma SwappedBack(a: seq<Slot>, b: seq<Slot>, u: seq<Slot>, v: seq<Slot>)
    requires Swapped(a, b, u, v)
    ensures Swapped(b, a, v, u)
  {
    var p, q :| Around(a, u, p, q) && Around(b, v, p, q);
  }

  /** A removal keeps every tree well formed and takes out exactly the one binding. */
  lemma RemoveShrinks(t: Tree, lv: Levels, pos: seq<Pos>, d: nat, b: Slot, junk: int, t': Tree, lv': Levels)
    requires Removes(t, lv, pos, d, b, junk, t', lv')
    ensures TreeOk(t', lv') && Ascending(Bindings(t', lv')) && OneMore(Bindings(t', lv'), Bindings(t, lv), b)
  {
    var f, i, lo, hi := pos[d].node, pos[d].idx, Lo(t, pos, d), Hi(t, pos, d);
    CutNode(t, lv, pos, d, b, junk, t', lv');
    ShrunkWellFormed(t.nodes, lv, f, t'.nodes, lv', t.next, i, lo, hi);
    ShrunkBindings(t.nodes, lv, f, t'.nodes, lv', t.next, i, lo, hi, b);
    TreeSwapped(t, lv, pos, d, ClonedRemove(t.nodes[f], i, junk), t', lv');
    SwappedBack(Bindings(t, lv), Bindings(t', lv'), InOrder(t.nodes, lv, f), InOrder(t'.nodes, lv', t.next));
    SwappedOneMore(Bindings(t', lv'), Bindings(t, lv), InOrder(t'.nodes, lv', t.next), InOrder(t.nodes, lv, f), b);
  }

  // --------------------------------------------------------------- searches afterwards

  /** A search takes the slot that goes. */
  ghost predicate TakesCut(t: Tree, pos: seq<Pos>, d: nat, key: int)
    requires d < |pos|
  {
    Along(t, pos, key, 0, d) && TakesAt(t, pos, key, d)
  }

  /** Every search, after the removal. */
  lemma RemoveAnswers(t: Tree, lv: Levels, pos: seq<Pos>, d: nat, b: Slot, junk: int, t': Tree, lv': Levels, key: int)
    requires Removes(t, lv, pos, d, b, junk, t', lv')
    ensures !TakesCut(t, pos, d, key) ==> Answer(t', lv', key) == Answer(t, lv, key)
    ensures TakesCut(t, pos, d, key) && pos[d].idx > 0 ==>
              pos[d].idx < |SlotsAt(t, pos[d])| && Answer(t', lv', key).key < SlotsAt(t, pos[d])[pos[d].idx].key <= key
    ensures TakesCut(t, pos, d, key) && pos[d].idx == 0 ==> key < Answer(t', lv', key).key
  {
    var f, i, lo, hi := pos[d].node, pos[d].idx, Lo(t, pos, d), Hi(t, pos, d);
    CutNode(t, lv, pos, d, b, junk, t', lv');
    AnswerAfter(t, lv, pos, d, ClonedRemove(t.nodes[f], i, junk), t', lv', key);
    ShrunkAnswers(t.nodes, lv, f, t'.nodes, lv', t.next, i, lo, hi, key);
  }

  lemma CutTaken(t: Tree, lv: Levels, pos: seq<Pos>, d: nat, key: int)
    requires Searched(t, lv, pos, key) && d < |pos|
    ensures TakesCut(t, pos, d, key)
  {
    PathFound(t, lv, pos, key);
    assert TakesAt(t, pos, key, d);
  }

  /** The search for the removed key ends at a smaller one exactly if the slot that went was not the first. */
  lemma RemovedAnswer(t: Tree, lv: Levels, pos: seq<Pos>, d: nat, b: Slot, junk: int, t': Tree, lv': Levels)
    requires Removes(t, lv, pos, d, b, junk, t', lv')
    ensures Answer(t', lv', b.key).key != b.key
    ensures Answer(t', lv', b.key).key < b.key <==> pos[d].idx > 0
  {
    CutTaken(t, lv, pos, d, b.key);
    RemoveAnswers(t, lv, pos, d, b, junk, t', lv', b.key);
  }

  /** Searches that take the slot that goes had ended at the binding that goes. */
  lemma CutAnswer(t: Tree, lv: Levels, pos: seq<Pos>, d: nat, b: Slot, junk: int, t': Tree, lv': Levels, key: int)
    requires Removes(t, lv, pos, d, b, junk, t', lv') && TakesCut(t, pos, d, key)
    ensures Answer(t, lv, key) == b
  {
    var f, i, lo, hi := pos[d].node, pos[d].idx, Lo(t, pos, d), Hi(t, pos, d);
    CutNode(t, lv, pos, d, b, junk, t', lv');
    FoundOnPath(t, lv, pos, key, 0, d);
    FoundEnds(t.nodes, lv, f, lo, hi, key);
    var s := Slots(t.nodes[f]);
    if lv[f] > 1 {
      assert KidOk(t.nodes, lv, s, lv[f], hi, i);
      FoundMember(t.nodes, lv, s[i].kid, s[i].key, EndOf(s, i, hi), key);
    }
  }

  /** The first binding that is left is one of the old ones, and not before their first. */
  lemma FirstLeft(a: seq<Slot>, b: seq<Slot>, x: Slot)
    requires OneMore(a, b, x) && Ascending(b) && a != []
    ensures a[0] in b && a[0].key != x.key && b[0].key <= a[0].key && x in b
    ensures b[0] != x ==> a[0] == b[0] && b[0].key < x.key
  {
    OneMoreMembers(a, b, x);
    var i :| 0 <= i <= |a| && b == Inserted(a, i, x);
    assert a[0] in a;
    assert b[i] == x;
  }

  /**
   After a removal every search from the smallest key on ends at a key not above its
   own, as before, if and only if the slot that went was not the first of its node, or
   the key was the smallest.
   */
  lemma RemoveTightIff(t: Tree, lv: Levels, pos: seq<Pos>, d: nat, b: Slot, junk: int, t': Tree, lv': Levels)
    requires Removes(t, lv, pos, d, b, junk, t', lv') && Tight(t, lv)
    ensures Tight(t', lv') <==> pos[d].idx > 0 || Bindings(t, lv)[0] == b
  {
    RemoveShrinks(t, lv, pos, d, b, junk, t', lv');
    FoundMember(t'.nodes, lv', t'.root, LEFT_MOST_KEY, NIL_KEY, 0);
    InOrderAscends(t.nodes, lv, t.root, LEFT_MOST_KEY, NIL_KEY);
    FirstLeft(Bindings(t', lv'), Bindings(t, lv), b);
    if pos[d].idx > 0 || Bindings(t, lv)[0] == b {
      forall key | Bindings(t', lv')[0].key <= key
        ensures Answer(t', lv', key).key <= key
      {
        StillTight(t, lv, pos, d, b, junk, t', lv', key);
      }
    } else {
      RemovedAnswer(t, lv, pos, d, b, junk, t', lv');
    }
  }

  lemma StillTight(t: Tree, lv: Levels, pos: seq<Pos>, d: nat, b: Slot, junk: int, t': Tree, lv': Levels, key: int)
    requires Removes(t, lv, pos, d, b, junk, t', lv') && Tight(t, lv)
    requires pos[d].idx > 0 || Bindings(t, lv)[0] == b
    requires Bindings(t', lv') != [] && Bindings(t', lv')[0].key <= key && Ascending(Bindings(t, lv))
    requires OneMore(Bindings(t', lv'), Bindings(t, lv), b)
    ensures Answer(t', lv', key).key <= key
  {
    var first := Bindings(t', lv')[0];
    FirstLeft(Bindings(t', lv'), Bindings(t, lv), b);
    assert Answer(t, lv, key).key <= key;
    RemoveAnswers(t, lv, pos, d, b, junk, t', lv', key);
    if TakesCut(t, pos, d, key) && pos[d].idx == 0 {
      CutAnswer(t, lv, pos, d, b, junk, t', lv', key);
      FoundPresent(t.nodes, lv, t.root, LEFT_MOST_KEY, NIL_KEY, first);
      FoundMonotone(t.nodes, lv, t.root, LEFT_MOST_KEY, NIL_KEY, first.key, key);
      assert false;
    }
  }

  // ------------------------------------------------- which slot goes, without a path

  /**
   The key is the first under the lowest node on its way that has more than one
   binding under it.
   */
  ghost predicate GoesFirst(ns: Nodes, lv: Levels, id: Id, key: int)
    decreases LevelOf(lv, id)
  {
    && id in ns && id in lv && |ns[id].keys| == |ns[id].kids| && Slots(ns[id]) != []
    && var s := Slots(ns[id]); var x := s[Pick(s, key)];
    if lv[id] > 1 && LevelOf(lv, x.kid) < lv[id] && |InOrder(ns, lv, x.kid)| > 1
    then GoesFirst(ns, lv, x.kid, key)
    else Pick(s, key) == 0
  }

  lemma {:induction false} FlatLong(ns: Nodes, lv: Levels, s: seq<Slot>, h: nat, hi: int)
    requires forall i | 0 <= i < |s| :: KidOk(ns, lv, s, h, hi, i)
    ensures |Flat(ns, lv, s, h)| >= |s|
    decreases |s|
  {
    if s != [] {
      assert KidOk(ns, lv, s, h, hi, 0);
      FoundMember(ns, lv, s[0].kid, s[0].key, EndOf(s, 0, hi), 0);
      TailKids(ns, lv, s, h, hi);
      FlatLong(ns, lv, s[1..], h, hi);
    }
  }

  /** Above the cut there is more than one binding under each node. */
  lemma {:induction false} ManyAbove(t: Tree, lv: Levels, pos: seq<Pos>, d: nat, j: nat)
    requires LeafPath(t, lv, pos) && CutAt(t, pos, d) && j <= d
    ensures |InOrder(t.nodes, lv, pos[j].node)| > 1
    decreases d - j
  {
    PathNode(t, lv, pos, j);
    var s, h := SlotsAt(t, pos[j]), lv[pos[j].node];
    if j < d {
      ManyAbove(t, lv, pos, d, j + 1);
      FlatAround(t.nodes, lv, s, h, pos[j].idx);
    } else if h > 1 {
      FlatLong(t.nodes, lv, s, h, Hi(t, pos, j));
    }
  }

  lemma {:induction false} CutGoesFirst(t: Tree, lv: Levels, pos: seq<Pos>, key: int, d: nat, j: nat)
    requires Searched(t, lv, pos, key) && CutAt(t, pos, d) && j <= d
    ensures GoesFirst(t.nodes, lv, pos[j].node, key) <==> pos[d].idx == 0
    decreases d - j
  {
    Picked(t, lv, pos, key, j);
    if j < d {
      ManyAbove(t, lv, pos, d, j + 1);
      CutGoesFirst(t, lv, pos, key, d, j + 1);
    } else if j + 1 < |pos| {
      SingleBinding(t, lv, pos, j + 1);
    }
  }

  // -------------------------------------------------------------------- the method

  /** `fb_remain_one_key`. */
  predicate OneKey(n: Node)
    requires |n.keys| == SLOT_MAX
  {
    n.keys[1] == NIL_KEY
  }

  lemma OneKeyCount(n: Node)
    requires NodeOk(n) && Slots(n) != []
    ensures OneKey(n) <==> |Slots(n)| == 1
  {
  }

  /** What is left of a tree with more than one binding when `b` goes. */
  ghost predicate Taken(t: Tree, lv: Levels, b: Slot, t': Tree, lv': Levels) {
    && TreeOk(t', lv') && Ascending(Bindings(t', lv')) && OneMore(Bindings(t', lv'), Bindings(t, lv), b)
    && Answer(t', lv', b.key).key != b.key
    && (Answer(t', lv', b.key).key < b.key <==> !GoesFirst(t.nodes, lv, t.root, b.key))
    && (Tight(t, lv) ==> (Tight(t', lv') <==>
                          !GoesFirst(t.nodes, lv, t.root, b.key) || Bindings(t, lv)[0] == b))
  }

  lemma RemoveTakes(t: Tree, lv: Levels, pos: seq<Pos>, d: nat, b: Slot, junk: int, t': Tree, lv': Levels)
    requires Removes(t, lv, pos, d, b, junk, t', lv')
    ensures |Bindings(t, lv)| > 1 && Taken(t, lv, b, t', lv')
  {
    ManyAbove(t, lv, pos, d, 0);
    RemoveShrinks(t, lv, pos, d, b, junk, t', lv');
    RemovedAnswer(t, lv, pos, d, b, junk, t', lv');
    CutGoesFirst(t, lv, pos, b.key, d, 0);
    if Tight(t, lv) {
      RemoveTightIff(t, lv, pos, d, b, junk, t', lv');
    }
  }

  const NIL_NODE: Id := -1

  /** The tree that `fb_create` makes and that is left when the last key goes. */
  function Emptied(t: Tree): Tree { t.(root := NIL_NODE, level := 0) }

  /** What the loop reads of a node. */
  ghost predicate Legible(t: Tree, p: Pos) {
    && p.node in t.nodes && |t.nodes[p.node].keys| == SLOT_MAX && SlotsAt(t, p) != []
    && (OneKey(t.nodes[p.node]) <==> |SlotsAt(t, p)| == 1)
  }

  lemma PathLegible(t: Tree, lv: Levels, pos: seq<Pos>)
    requires LeafPath(t, lv, pos)
    ensures forall j | 0 <= j < |pos| :: Legible(t, pos[j])
  {
    forall j | 0 <= j < |pos|
      ensures Legible(t, pos[j])
    {
      PathNode(t, lv, pos, j);
      OneKeyCount(t.nodes[pos[j].node]);
    }
  }

  /** The loop that frees nodes with one key, from the leaf up. */
  method FreeUp(t: Tree, pos: seq<Pos>) returns (all: bool, d: nat)
    requires pos != [] && forall j | 0 <= j < |pos| :: Legible(t, pos[j])
    ensures if all then SinglesBelow(t, pos, -1) else CutAt(t, pos, d)
  {
    d := |pos| - 1;
    while OneKey(t.nodes[pos[d].node])
      invariant d < |pos| && SinglesBelow(t, pos, d)
      decreases d
    {
      if d == 0 {
        return true, 0;
      }
      d := d - 1;
    }
    return false, d;
  }

  lemma AllFreed(t: Tree, lv: Levels, pos: seq<Pos>, key: int)
    requires Searched(t, lv, pos, key) && SinglesBelow(t, pos, -1)
    ensures Bindings(t, lv) == [Answer(t, lv, key)]
  {
    PathFound(t, lv, pos, key);
    SingleBinding(t, lv, pos, 0);
  }

  lemma ReadyToRemove(t: Tree, lv: Levels, pos: seq<Pos>, d: nat, key: int, junk: int)
    requires Searched(t, lv, pos, key) && Answer(t, lv, key).key == key && CutAt(t, pos, d)
    ensures t.next !in t.nodes && OnPath(t, lv, pos, d)
    ensures d > 0 ==> pos[d - 1].node in t.nodes && pos[d - 1].idx < |t.nodes[pos[d - 1].node].kids|
    ensures var c := ClonedRemove(t.nodes[pos[d].node], pos[d].idx, junk);
            var t', lv' := WithNode(t, pos, d, c), lv[t.next := t.level - d];
            |Bindings(t, lv)| > 1 && Taken(t, lv, Answer(t, lv, key), t', lv')
  {
    PathNode(t, lv, pos, d);
    var c := ClonedRemove(t.nodes[pos[d].node], pos[d].idx, junk);
    Changes(t, lv, pos, d, c);
    RemoveTakes(t, lv, pos, d, Answer(t, lv, key), junk, WithNode(t, pos, d, c), lv[t.next := t.level - d]);
  }

  /** `fb_remove`: it fails exactly for an absent key, and keeps every tree well formed. */
  method RemoveFrom(t: Tree, ghost lv: Levels, key: int, junk: int) returns (ok: bool, t': Tree, ghost lv': Levels)
    requires TreeOk(t, lv) && LEFT_MOST_KEY <= key < NIL_KEY
    ensures ok <==> Answer(t, lv, key).key == key
    ensures !ok ==> t' == t && lv' == lv
    ensures ok ==> if |Bindings(t, lv)| > 1 then Taken(t, lv, Answer(t, lv, key), t', lv')
                   else Bindings(t, lv) == [Answer(t, lv, key)] && t' == Emptied(t) && lv' == lv
  {
    var pos := Traverse(t, lv, key);
    PathFound(t, lv, pos, key);
    if t.nodes[Leaf(pos).node].keys[Leaf(pos).idx] != key {
      return false, t, lv;
    }
    PathLegible(t, lv, pos);
    var all, d := FreeUp(t, pos);
    if all {
      AllFreed(t, lv, pos, key);
      return true, Emptied(t), lv;
    }
    ReadyToRemove(t, lv, pos, d, key, junk);
    var c := ClonedRemove(t.nodes[pos[d].node], pos[d].idx, junk);
    return true, WithNode(t, pos, d, c), lv[t.next := t.level - d];
  }
}
