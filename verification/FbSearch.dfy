/** Searches in a well-formed tree: where they end, for keys that are there and keys that are not. */
module FbSearch {
  import opened Basics
  import opened PageSearch
  import opened FbNode
  import opened FbShape
  import opened FbTrees

  /** Bindings ascend from left to right. */
  lemma {:induction false} InOrderAscends(ns: Nodes, lv: Levels, id: Id, lo: int, hi: int)
    requires WellFormed(ns, lv, id, lo, hi)
    ensures Ascending(InOrder(ns, lv, id))
    decreases LevelOf(lv, id), 1, 0
  {
    SlotsAscending(ns[id]);
    if lv[id] > 1 {
      FlatAscends(ns, lv, Slots(ns[id]), lv[id], hi);
    }
  }

  lemma {:induction false} FlatAscends(ns: Nodes, lv: Levels, s: seq<Slot>, h: nat, hi: int)
    requires Ascending(s) && forall i | 0 <= i < |s| :: KidOk(ns, lv, s, h, hi, i)
    ensures Ascending(Flat(ns, lv, s, h))
    decreases h, 0, |s|
  {
    if s != [] {
      var a, b := Piece(ns, lv, s[0], h), Flat(ns, lv, s[1..], h);
      assert KidOk(ns, lv, s, h, hi, 0);
      InOrderAscends(ns, lv, s[0].kid, s[0].key, EndOf(s, 0, hi));
      TailKids(ns, lv, s, h, hi);
      FlatAscends(ns, lv, s[1..], h, hi);
      forall x, y | x in a && y in b
        ensures x.key < y.key
      {
        FirstBeforeRest(ns, lv, s, h, hi, x, y);
      }
      AscendingConcat(a, b);
    }
  }

  lemma TailKids(ns: Nodes, lv: Levels, s: seq<Slot>, h: nat, hi: int)
    requires s != [] && forall i | 0 <= i < |s| :: KidOk(ns, lv, s, h, hi, i)
    ensures forall i | 0 <= i < |s[1..]| :: KidOk(ns, lv, s[1..], h, hi, i)
  {
    forall i | 0 <= i < |s[1..]|
      ensures KidOk(ns, lv, s[1..], h, hi, i)
    {
      assert KidOk(ns, lv, s, h, hi, i + 1);
    }
  }

  lemma FirstBeforeRest(ns: Nodes, lv: Levels, s: seq<Slot>, h: nat, hi: int, x: Slot, y: Slot)
    requires Ascending(s) && s != [] && forall i | 0 <= i < |s| :: KidOk(ns, lv, s, h, hi, i)
    requires x in Piece(ns, lv, s[0], h) && y in Flat(ns, lv, s[1..], h)
    ensures x.key < y.key
  {
    var i := FlatMember(ns, lv, s[1..], h, y);
    assert KidOk(ns, lv, s, h, hi, 0) && KidOk(ns, lv, s, h, hi, i + 1);
    BindingInside(ns, lv, s[0].kid, s[0].key, EndOf(s, 0, hi), x);
    BindingInside(ns, lv, s[i + 1].kid, s[i + 1].key, EndOf(s, i + 1, hi), y);
  }

  lemma AscendingConcat(a: seq<Slot>, b: seq<Slot>)
    requires Ascending(a) && Ascending(b) && forall x, y | x in a && y in b :: x.key < y.key
    ensures Ascending(a + b)
  {
  }

  lemma {:induction false} FlatContains(ns: Nodes, lv: Levels, s: seq<Slot>, h: nat, i: nat, b: Slot)
    requires i < |s| && b in Piece(ns, lv, s[i], h)
    ensures b in Flat(ns, lv, s, h)
    decreases |s|
  {
    if i > 0 {
      FlatContains(ns, lv, s[1..], h, i - 1, b);
    }
  }

  /** A search ends at a binding. */
  lemma {:induction false} FoundMember(ns: Nodes, lv: Levels, id: Id, lo: int, hi: int, key: int)
    requires WellFormed(ns, lv, id, lo, hi)
    ensures Found(ns, lv, id, key) in InOrder(ns, lv, id)
    decreases LevelOf(lv, id)
  {
    var s := Slots(ns[id]);
    var i := Pick(s, key);
    if lv[id] > 1 {
      assert KidOk(ns, lv, s, lv[id], hi, i);
      FoundMember(ns, lv, s[i].kid, s[i].key, EndOf(s, i, hi), key);
      assert Found(ns, lv, id, key) == Found(ns, lv, s[i].kid, key);
      FlatContains(ns, lv, s, lv[id], i, Found(ns, lv, s[i].kid, key));
    }
  }

  /** A search for a greater key does not end further left. */
  lemma {:induction false} FoundMonotone(ns: Nodes, lv: Levels, id: Id, lo: int, hi: int, k1: int, k2: int)
    requires WellFormed(ns, lv, id, lo, hi) && k1 <= k2
    ensures Found(ns, lv, id, k1).key <= Found(ns, lv, id, k2).key
    decreases LevelOf(lv, id)
  {
    var s := Slots(ns[id]);
    var i, j := Pick(s, k1), Pick(s, k2);
    SlotsAscending(ns[id]);
    assert i <= j;
    if lv[id] > 1 {
      assert KidOk(ns, lv, s, lv[id], hi, i) && KidOk(ns, lv, s, lv[id], hi, j);
      if i == j {
        FoundMonotone(ns, lv, s[i].kid, s[i].key, EndOf(s, i, hi), k1, k2);
      } else {
        FoundInside(ns, lv, s[i].kid, s[i].key, EndOf(s, i, hi), k1);
        FoundInside(ns, lv, s[j].kid, s[j].key, EndOf(s, j, hi), k2);
      }
    }
  }

  lemma FoundInside(ns: Nodes, lv: Levels, id: Id, lo: int, hi: int, key: int)
    requires WellFormed(ns, lv, id, lo, hi)
    ensures lo <= Found(ns, lv, id, key).key < hi
  {
    FoundMember(ns, lv, id, lo, hi, key);
    BindingInside(ns, lv, id, lo, hi, Found(ns, lv, id, key));
  }

  /** A search picks by the keys alone. */
  lemma FoundThrough(ns: Nodes, lv: Levels, id: Id, s: seq<Slot>, s': seq<Slot>, key: int)
    requires id in ns && id in lv && NodeOk(ns[id]) && Slots(ns[id]) == s' && s != [] && lv[id] > 1
    requires |s'| == |s| && forall i | 0 <= i < |s| :: s'[i].key == s[i].key
    requires LevelOf(lv, s'[Pick(s, key)].kid) < lv[id]
    ensures Found(ns, lv, id, key) == Found(ns, lv, s'[Pick(s, key)].kid, key)
  {
    PickIs(s', key, Pick(s, key));
  }

  /** A search passes an inner node to the child it picks. */
  lemma FoundBelow(ns: Nodes, lv: Levels, id: Id, lo: int, hi: int, key: int)
    requires WellFormed(ns, lv, id, lo, hi) && lv[id] > 1
    ensures var s := Slots(ns[id]); var i := Pick(s, key);
            && KidOk(ns, lv, s, lv[id], hi, i) && Found(ns, lv, id, key) == Found(ns, lv, s[i].kid, key)
  {
    var s := Slots(ns[id]);
    assert KidOk(ns, lv, s, lv[id], hi, Pick(s, key));
  }
}
