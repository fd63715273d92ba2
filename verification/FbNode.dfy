/**
 A node of the fixed-size B-tree: two arrays of `FB_SLOT_MAX` entries in which
 unused slots carry `FB_NIL_KEY`, and the operations that clone, cut and search it.
 */
module FbNode {
  import opened Basics
  import opened PageSearch

  const SLOT_MAX: nat := 128
  const LAST_SLOT: nat := 127
  const HALF: nat := 64
  const NIL_KEY: int := 0xFFFF_FFFF
  const LEFT_MOST_KEY: int := 0

  datatype Node = Node(keys: seq<int>, kids: seq<int>)

  datatype Slot = Slot(key: int, kid: int)

  /** Used slots come first and ascend; what an unused slot's child holds does not matter. */
  ghost predicate NodeOk(n: Node) {
    && |n.keys| == SLOT_MAX && |n.kids| == SLOT_MAX
    && (forall i | 0 <= i < SLOT_MAX :: LEFT_MOST_KEY <= n.keys[i] <= NIL_KEY)
    && (forall i, j {:trigger n.keys[i], n.keys[j]} | 0 <= i < j < SLOT_MAX ::
       n.keys[i] < n.keys[j] || n.keys[j] == NIL_KEY)
  }

  /** The number of used slots from `i` on, plus `i`. */
  ghost function CountFrom(keys: seq<int>, i: nat): (c: nat)
    requires i <= |keys|
    ensures i <= c <= |keys|
    ensures forall j | i <= j < c :: keys[j] != NIL_KEY
    ensures c < |keys| ==> keys[c] == NIL_KEY
    decreases |keys| - i
  {
    if i == |keys| || keys[i] == NIL_KEY then i else CountFrom(keys, i + 1)
  }

  ghost function Count(n: Node): (c: nat)
    ensures c <= |n.keys|
  {
    CountFrom(n.keys, 0)
  }

  lemma CountIs(n: Node, c: nat)
    requires c <= |n.keys| && (forall j | 0 <= j < c :: n.keys[j] != NIL_KEY) && (c < |n.keys| ==> n.keys[c] == NIL_KEY)
    ensures Count(n) == c
  {
  }

  ghost function Slots(n: Node): (s: seq<Slot>)
    requires |n.keys| == |n.kids|
    ensures |s| == Count(n)
  {
    seq(Count(n), i requires 0 <= i < Count(n) => Slot(n.keys[i], n.kids[i]))
  }

  lemma SlotsAre(n: Node, s: seq<Slot>)
    requires |s| <= |n.keys| == |n.kids| && (|s| < |n.keys| ==> n.keys[|s|] == NIL_KEY)
    requires forall i | 0 <= i < |s| :: n.keys[i] != NIL_KEY && s[i].key == n.keys[i] && s[i].kid == n.kids[i]
    ensures Slots(n) == s
  {
    CountIs(n, |s|);
  }

  ghost predicate Ascending(s: seq<Slot>) {
    forall i, j {:trigger s[i], s[j]} | 0 <= i < j < |s| :: s[i].key < s[j].key
  }

  lemma SlotsAscending(n: Node)
    requires NodeOk(n)
    ensures Ascending(Slots(n)) && forall i | 0 <= i < |Slots(n)| :: LEFT_MOST_KEY <= Slots(n)[i].key < NIL_KEY
  {
  }

  predicate Full(n: Node)
    requires |n.keys| == SLOT_MAX
  {
    n.keys[LAST_SLOT] != NIL_KEY
  }

  lemma FullCount(n: Node)
    requires NodeOk(n)
    ensures Full(n) <==> Count(n) == SLOT_MAX
  {
  }

  // ---------------------------------------------------------------------- search

  /** The last slot whose key is not above `key`, or slot 0 if there is none. */
  ghost predicate IsSlot(keys: seq<int>, key: int, r: int) {
    && 0 <= r < |keys| && (r == 0 || keys[r] <= key)
    && forall j | r < j < |keys| :: key < keys[j]
  }

  /** `fb_search_in_node` halves the range it looks at until nothing is left. */
  method SearchInNode(n: Node, key: int) returns (idx: nat)
    requires NodeOk(n) && key < NIL_KEY
    ensures IsSlot(n.keys, key, idx)
  {
    var size := SLOT_MAX;
    idx := 0;
    ghost var e: nat := 7;
    assert Pow2(7) == 128;
    while size >= 1
      invariant size == 0 || size == Pow2(e)
      invariant idx + size <= SLOT_MAX && idx < SLOT_MAX
      invariant idx == 0 || n.keys[idx] <= key
      invariant forall j | (if size == 0 then idx + 1 else idx + size) <= j < SLOT_MAX :: key < n.keys[j]
    {
      assert e > 0 ==> Pow2(e) == 2 * Pow2(e - 1);
      size := size / 2;
      e := if e > 0 then e - 1 else 0;
      var mid := idx + size;
      if key >= n.keys[mid] {
        idx := mid;
      }
    }
  }

  // ---------------------------------------------------------------------- cloning

  function Nils(k: nat): seq<int> { seq(k, i => NIL_KEY) }

  /** The first `sp` slots in a node of their own. */
  function LeftHalf(n: Node, sp: nat, junk: seq<int>): Node
    requires sp <= SLOT_MAX <= |n.keys| && SLOT_MAX <= |n.kids| && |junk| == SLOT_MAX
  {
    Node(n.keys[..sp] + Nils(SLOT_MAX - sp), n.kids[..sp] + junk[sp..])
  }

  function RightHalf(n: Node, sp: nat, junk: seq<int>): Node
    requires sp <= SLOT_MAX == |n.keys| && SLOT_MAX == |n.kids| && |junk| == SLOT_MAX
  {
    Node(n.keys[sp..] + Nils(sp), n.kids[sp..] + junk[SLOT_MAX - sp..])
  }

  /** `fb_cloning_and_insert`: the slots from `idx` on move up by one and the last one drops out. */
  function ClonedInsert(n: Node, idx: nat, key: int, kid: int): Node
    requires idx < SLOT_MAX == |n.keys| && |n.kids| == SLOT_MAX
  {
    Node(n.keys[..idx] + [key] + n.keys[idx..LAST_SLOT], n.kids[..idx] + [kid] + n.kids[idx..LAST_SLOT])
  }

  /** `fb_cloning_and_remove`: the slots behind `idx` move down by one and the last one is reset. */
  function ClonedRemove(n: Node, idx: nat, junk: int): Node
    requires idx < SLOT_MAX == |n.keys| && |n.kids| == SLOT_MAX
  {
    Node(n.keys[..idx] + n.keys[idx + 1..] + [NIL_KEY], n.kids[..idx] + n.kids[idx + 1..] + [junk])
  }

  lemma LeftSlots(n: Node, sp: nat, junk: seq<int>)
    requires NodeOk(n) && 0 < sp <= Count(n) && |junk| == SLOT_MAX
    ensures NodeOk(LeftHalf(n, sp, junk)) && Slots(LeftHalf(n, sp, junk)) == Slots(n)[..sp]
  {
    var h := LeftHalf(n, sp, junk);
    assert forall i | 0 <= i < SLOT_MAX :: h.keys[i] == if i < sp then n.keys[i] else NIL_KEY;
    CountIs(h, sp);
  }

  lemma RightSlots(n: Node, sp: nat, junk: seq<int>)
    requires NodeOk(n) && sp < Count(n) == SLOT_MAX && |junk| == SLOT_MAX
    ensures NodeOk(RightHalf(n, sp, junk)) && Slots(RightHalf(n, sp, junk)) == Slots(n)[sp..]
  {
    var h := RightHalf(n, sp, junk);
    assert forall i | 0 <= i < SLOT_MAX :: h.keys[i] == if i < SLOT_MAX - sp then n.keys[sp + i] else NIL_KEY;
    CountIs(h, SLOT_MAX - sp);
  }

  lemma InsertFields(n: Node, idx: nat, key: int, kid: int)
    requires NodeOk(n) && idx < SLOT_MAX
    ensures var c := ClonedInsert(n, idx, key, kid);
            && |c.keys| == |c.kids| == SLOT_MAX && c.keys[idx] == key && c.kids[idx] == kid
            && (forall i | 0 <= i < SLOT_MAX && i != idx :: c.keys[i] == n.keys[if i < idx then i else i - 1])
            && (forall i | 0 <= i < SLOT_MAX && i != idx :: c.kids[i] == n.kids[if i < idx then i else i - 1])
  {
  }

  lemma InsertSlots(n: Node, idx: nat, key: int, kid: int)
    requires NodeOk(n) && idx <= Count(n) < SLOT_MAX && key != NIL_KEY
    ensures Slots(ClonedInsert(n, idx, key, kid)) == Inserted(Slots(n), idx, Slot(key, kid))
  {
    var c := ClonedInsert(n, idx, key, kid);
    var s := Inserted(Slots(n), idx, Slot(key, kid));
    InsertFields(n, idx, key, kid);
    assert forall i | 0 <= i < |s| && i != idx :: s[i] == Slots(n)[if i < idx then i else i - 1];
    SlotsAre(c, s);
  }

  /** Between its neighbours a new key keeps a node in order. */
  lemma InsertBetween(n: Node, idx: nat, key: int, kid: int)
    requires NodeOk(n) && idx <= Count(n) < SLOT_MAX && LEFT_MOST_KEY <= key < NIL_KEY
    requires (forall i | 0 <= i < idx :: n.keys[i] < key) && (forall i | idx <= i < SLOT_MAX :: key < n.keys[i])
    ensures NodeOk(ClonedInsert(n, idx, key, kid))
  {
    var c := ClonedInsert(n, idx, key, kid);
    InsertFields(n, idx, key, kid);
    forall i, j | 0 <= i < j < SLOT_MAX
      ensures c.keys[i] < c.keys[j] || c.keys[j] == NIL_KEY
    {
    }
  }

  /**
   The search answers slot 0 for a key below the whole node, so such a key is put
   second: an insertion keeps the node in order exactly if the key is above the first.
   */
  lemma InsertOrdered(n: Node, key: int, kid: int, r: nat)
    requires NodeOk(n) && 0 < Count(n) < SLOT_MAX && LEFT_MOST_KEY <= key < NIL_KEY && IsSlot(n.keys, key, r)
             && n.keys[r] != key
    ensures r < Count(n)
    ensures NodeOk(ClonedInsert(n, r + 1, key, kid)) <==> n.keys[0] < key
  {
    InsertFields(n, r + 1, key, kid);
    if n.keys[0] < key {
      assert forall i | 0 <= i <= r :: n.keys[i] < key;
      InsertBetween(n, r + 1, key, kid);
    } else {
      var c := ClonedInsert(n, r + 1, key, kid);
      assert c.keys[0] == n.keys[0] && c.keys[1] == key;
    }
  }

  lemma RemoveFields(n: Node, idx: nat, junk: int)
    requires NodeOk(n) && idx < SLOT_MAX
    ensures var c := ClonedRemove(n, idx, junk);
            && |c.keys| == |c.kids| == SLOT_MAX
            && (forall i | 0 <= i < LAST_SLOT :: c.keys[i] == n.keys[if i < idx then i else i + 1])
            && (forall i | 0 <= i < LAST_SLOT :: c.kids[i] == n.kids[if i < idx then i else i + 1])
            && c.keys[LAST_SLOT] == NIL_KEY
  {
  }

  lemma RemoveSlots(n: Node, idx: nat, junk: int)
    requires NodeOk(n) && idx < Count(n)
    ensures NodeOk(ClonedRemove(n, idx, junk)) && Slots(ClonedRemove(n, idx, junk)) == Removed(Slots(n), idx)
  {
    var c := ClonedRemove(n, idx, junk);
    RemoveFields(n, idx, junk);
    forall i, j | 0 <= i < j < SLOT_MAX
      ensures c.keys[i] < c.keys[j] || c.keys[j] == NIL_KEY
    {
    }
    RemovedSlots(n, c, idx);
  }

  lemma RemovedSlots(n: Node, c: Node, idx: nat)
    requires NodeOk(n) && |c.keys| == |c.kids| == SLOT_MAX && idx < Count(n) && c.keys[LAST_SLOT] == NIL_KEY
    requires forall i | 0 <= i < LAST_SLOT :: c.keys[i] == n.keys[if i < idx then i else i + 1]
    requires forall i | 0 <= i < LAST_SLOT :: c.kids[i] == n.kids[if i < idx then i else i + 1]
    ensures Slots(c) == Removed(Slots(n), idx)
  {
    var s := Removed(Slots(n), idx);
    assert forall i | 0 <= i < |s| :: s[i] == Slots(n)[if i < idx then i else i + 1];
    SlotsAre(c, s);
  }
}
