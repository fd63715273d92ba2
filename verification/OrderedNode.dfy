/** The operations of `ywOrderedNode` on one page, under its lock. */
module OrderedNode {
  import opened Basics
  import opened PageSearch
  import opened OrderedPage

  /** States between the first and the last slot write of an insertion. */
  function Steps(n: nat, idx: nat): nat { if idx >= n then 1 else n - idx }

  /** What an insertion of `key` does to the keys of a page. */
  ghost predicate KeysGrew(ks: seq<Key>, key: Key, ks': seq<Key>) {
    ks' == Inserted(ks, Search(ks, key) + 1, key) && (Sorted(ks) ==> Sorted(ks'))
  }

  /** A search of a sorted page that meets a state of `trace` finds every old key; no state is left out. */
  ghost predicate TraceOk(h: Heap, ks: seq<Key>, key: Key, trace: seq<seq<Offset>>) {
    && (|ks| > 0 && Sorted(ks) ==> AllServe(h, trace, ks))
    && |trace| == Steps(|ks|, Search(ks, key) + 1)
  }

  class Node {
    const capacity: nat          // bytes behind the page header
    const slots: array<Offset>
    var count: nat
    var freeOffset: nat
    var records: Heap

    ghost predicate Valid()
      reads this, slots
    {
      && slots.Length == capacity / SLOT_SIZE && count <= slots.Length
      && LaidOut(capacity, freeOffset, records, slots[..count])
    }

    ghost function Keys(): seq<Key>
      reads this, slots
      requires Valid()
    {
      KeysOf(records, slots[..count])
    }

    ghost function LiveBytes(): nat
      reads this, slots
      requires Valid()
    {
      Live(records, slots[..count])
    }

    constructor (capacity: nat)
      ensures Valid() && this.capacity == capacity && fresh(slots) && Keys() == [] && freeOffset == capacity
    {
      this.capacity := capacity;
      slots := new Offset[capacity / SLOT_SIZE](_ => 0);
      count, freeOffset, records := 0, capacity, map[];
    }

    method Clear()
      requires slots.Length == capacity / SLOT_SIZE
      modifies this
      ensures Valid() && count == 0 && freeOffset == capacity && records == old(records)
    {
      count := 0;
      freeOffset := capacity;
    }

    /** `get_free`: bytes between the slots and the records. */
    function GetFree(): int
      reads this
    {
      freeOffset - count * SLOT_SIZE
    }

    method Alloc(size: nat) returns (r: Option<Offset>)
      requires Valid() && size > 0
      modifies `freeOffset
      ensures r.Some? <==> old(GetFree()) >= size + SLOT_SIZE
      ensures freeOffset == if r.Some? then old(freeOffset) - size else old(freeOffset)
      ensures r.Some? ==> r.value == freeOffset
    {
      if GetFree() >= size + SLOT_SIZE {
        freeOffset := freeOffset - size;
        return Some(freeOffset);
      }
      return None;
    }

    /** `_append`: the record goes behind the last slot, whatever its key. */
    method Append(r: Record) returns (ok: bool)
      requires Valid()
      modifies this, slots
      ensures Valid()
      ensures ok <==> old(GetFree()) >= r.size + SLOT_SIZE
      ensures ok ==> Keys() == old(Keys()) + [r.key] && GetFree() == old(GetFree()) - r.size - SLOT_SIZE
      ensures !ok ==> unchanged(this) && unchanged(slots)
    {
      var p := Alloc(r.size);
      if p.None? {
        return false;
      }
      ghost var s := slots[..count];
      LaidOutInsert(capacity, old(freeOffset), records, s, r, count);
      records := records[p.value := r];
      slots[count] := p.value;
      count := count + 1;
      assert slots[..count] == Inserted(s, |s|, p.value);
      KeysSame(old(records), records, s);
      return true;
    }

    /** The loop of `binary_search`. */
    method SearchLoop(k: Key, ghost s: seq<Offset>) returns (r: int)
      requires count <= slots.Length && s == slots[..count] && Known(records, s)
      ensures r == Search(KeysOf(records, s), k)
    {
      var min, max := 0, count - 1;
      ghost var ks := KeysOf(records, s);
      while min <= max
        invariant 0 <= min <= max + 1 <= |ks| == count
        invariant Bisect(ks, k, min, max) == Search(ks, k)
      {
        var mid := (min + max) / 2;
        if k < records[slots[mid]].key {
          max := mid - 1;
        } else {
          min := mid + 1;
        }
      }
      r := (min + max) / 2;
    }

    method BinarySearch(k: Key) returns (r: int)
      requires Valid()
      ensures r == Search(Keys(), k)
      ensures Sorted(Keys()) ==> IsFloor(Keys(), k, r)
    {
      r := SearchLoop(k, slots[..count]);
      if Sorted(Keys()) {
        SearchFloor(Keys(), k);
      }
    }

    /** The slot writes of `insert`. */
    method PlaceSlot(p: Offset, idx: nat) returns (ghost trace: seq<seq<Offset>>)
      requires count < slots.Length && idx <= count
      modifies `count, slots
      ensures count == old(count) + 1 && slots[..count] == Inserted(old(slots[..count]), idx, p)
      ensures old(count) > 0 ==> AllDoubled(old(slots[..count]), trace) && |trace| == Steps(old(count), idx)
      ensures old(count) == 0 ==> trace == [[old(slots[0])]]
    {
      if count > 0 {
        trace := ShiftIn(slots, count, idx, p);
        count := count + 1;
      } else {
        count := count + 1;
        trace := [slots[..count]];
        slots[idx] := p;
      }
    }

    /** The record is written, its place is searched for, and a slot is put there. */
    method WriteAndPlace(p: Offset, r: Record, ghost s: seq<Offset>) returns (ghost trace: seq<seq<Offset>>)
      requires count < slots.Length && s == slots[..count] && Known(records, s) && p !in s
      modifies this, slots
      ensures freeOffset == old(freeOffset) && records == old(records)[p := r] && count == old(count) + 1
      ensures slots[..count] == Inserted(s, Search(KeysOf(old(records), s), r.key) + 1, p)
      ensures TraceOk(records, KeysOf(old(records), s), r.key, trace)
      ensures |s| == 0 ==> trace == [[old(slots[0])]]
    {
      ghost var h := records;
      records := records[p := r];
      KeysSame(h, records, s);
      var at := SearchLoop(r.key, s);
      trace := PlaceSlot(p, at + 1);
      if |s| > 0 {
        TraceServes(h, s, records, trace);
      }
    }

    /** `insert` once its record has got its bytes. */
    method InsertAllocated(p: Offset, r: Record) returns (ghost trace: seq<seq<Offset>>)
      requires slots.Length == capacity / SLOT_SIZE && count <= slots.Length && p == freeOffset
      requires LaidOut(capacity, freeOffset + r.size, records, slots[..count])
      requires (count + 1) * SLOT_SIZE <= freeOffset
      modifies this, slots
      ensures Valid() && freeOffset == old(freeOffset) && count == old(count) + 1
      ensures KeysGrew(old(KeysOf(records, slots[..count])), r.key, Keys())
      ensures TraceOk(records, old(KeysOf(records, slots[..count])), r.key, trace)
      ensures old(count) == 0 ==> trace == [[old(slots[0])]]
    {
      ghost var s, h := slots[..count], records;
      ghost var i := Search(KeysOf(h, s), r.key) + 1;
      assert LaidOut(capacity, freeOffset, h[p := r], Inserted(s, i, p)) by {
        LaidOutInsert(capacity, freeOffset + r.size, h, s, r, i);
      }
      InsertKeepsOrder(h, s, p, r);
      trace := WriteAndPlace(p, r, s);
      assert slots[..count] == Inserted(s, i, p) && records == h[p := r];
    }

    /**
     `insert`.  On a sorted page that is not empty, `trace` lists what a search without the lock may
     meet between the first and the last slot write, and it finds every old key; on
     an empty page it may meet one slot nothing has been stored in yet.
     */
    method Insert(r: Record) returns (ok: bool, ghost trace: seq<seq<Offset>>)
      requires Valid()
      modifies this, slots
      ensures Valid()
      ensures ok <==> old(GetFree()) >= r.size + SLOT_SIZE
      ensures ok ==> KeysGrew(old(Keys()), r.key, Keys()) && TraceOk(records, old(Keys()), r.key, trace)
      ensures ok ==> GetFree() == old(GetFree()) - r.size - SLOT_SIZE
      ensures !ok ==> unchanged(this) && unchanged(slots) && trace == []
      ensures ok && old(count) == 0 ==> trace == [[old(slots[0])]]
    {
      var p := Alloc(r.size);
      if p.None? {
        return false, [];
      }
      trace := InsertAllocated(p.value, r);
      ok := true;
    }

    /** `_remove`; `trace` is what a search without the lock may meet between the slot writes. */
    method RemoveAt(idx: nat) returns (ok: bool, ghost trace: seq<seq<Offset>>)
      requires Valid()
      modifies this, slots
      ensures Valid() && (old(Sorted(Keys())) ==> Sorted(Keys()))
      ensures records == old(records) && freeOffset == old(freeOffset)
      ensures ok <==> idx < old(count)
      ensures ok ==> Keys() == Removed(old(Keys()), idx)
      ensures ok && old(Sorted(Keys())) ==> AllServe(records, trace, Removed(old(Keys()), idx))
      ensures ok ==> |trace| == old(count) - 1 - idx
      ensures !ok ==> unchanged(this) && unchanged(slots)
    {
      if count <= idx {
        return false, [];
      }
      ghost var s := slots[..count];
      RemovedKeys(records, s, idx);
      ghost var sorted := Sorted(KeysOf(records, s));
      if sorted {
        RemovedSorted(KeysOf(records, s), idx);
      }
      assert LaidOut(capacity, freeOffset, records, Removed(s, idx)) by {
        LaidOutRemove(capacity, freeOffset, records, s, idx);
      }
      trace := ShiftOut(slots, count, idx);
      count := count - 1;
      TraceServes(records, Removed(s, idx), records, trace);
      ok := true;
    }

    /** `remove` by key: the last record with that key goes, if there is one. */
    method Remove(k: Key) returns (ok: bool)
      requires Valid()
      modifies this, slots
      ensures Valid() && (old(Sorted(Keys())) ==> Sorted(Keys()))
      ensures ok <==> old(Finds(Keys(), k))
      ensures old(Sorted(Keys())) ==> (ok <==> k in old(Keys()))
      ensures ok ==> multiset(Keys()) == multiset(old(Keys())) - multiset{k}
      ensures !ok ==> unchanged(this) && unchanged(slots)
    {
      var idx := BinarySearch(k);
      if Sorted(Keys()) {
        PresentAtFloor(Keys(), k, idx);
      }
      if 0 <= idx < count && records[slots[idx]].key == k {
        RemovedBag(Keys(), idx);
        var gone, _ := RemoveAt(idx);
        ok := gone;
      } else {
        ok := false;
      }
    }

    /** The loop of `copy_node`: appends the records `q` refers to in `h`. */
    method AppendAll(h: Heap, q: seq<Offset>) returns (ok: bool)
      requires Valid() && Known(h, q)
      modifies this, slots
      ensures Valid()
      ensures ok <==> old(GetFree()) >= Live(h, q) + |q| * SLOT_SIZE
      ensures ok ==> Keys() == old(Keys()) + KeysOf(h, q)
      ensures ok ==> GetFree() == old(GetFree()) - Live(h, q) - |q| * SLOT_SIZE
    {
      ghost var ks := KeysOf(h, q);
      var i := 0;
      while i < |q|
        invariant 0 <= i <= |q| && Valid()
        invariant Keys() == old(Keys()) + ks[..i]
        invariant GetFree() == old(GetFree()) - Live(h, q[..i]) - i * SLOT_SIZE
      {
        LiveStep(h, q, i);
        var done := Append(h[q[i]]);
        if !done {
          return false;
        }
        i := i + 1;
      }
      assert q[..|q|] == q && ks[..|q|] == ks;
      ok := true;
    }

    /** `copy_node`: appends the records of slots [begin, end) to another page. */
    method CopyNode(target: Node, begin: nat, end: nat) returns (ok: bool)
      requires Valid() && target.Valid() && target != this && target.slots != slots && begin <= end <= count
      modifies target, target.slots
      ensures target.Valid()
      ensures ok <==> old(target.GetFree()) >= Live(records, slots[begin..end]) + (end - begin) * SLOT_SIZE
      ensures ok ==> target.Keys() == old(target.Keys()) + Keys()[begin..end]
      ensures ok ==> target.GetFree() == old(target.GetFree()) - Live(records,
              slots[begin..end]) - (end - begin) * SLOT_SIZE
    {
      assert KeysOf(records, slots[begin..end]) == Keys()[begin..end];
      ok := target.AppendAll(records, slots[begin..end]);
    }

    /** `compact` into another page of the same size: always fits, and only live bytes remain. */
    method Compact(target: Node) returns (ok: bool)
      requires Valid() && target != this && target.slots != slots
      requires target.capacity == capacity && target.slots.Length == capacity / SLOT_SIZE
      modifies target, target.slots
      ensures ok && target.Valid() && target.Keys() == Keys()
      ensures target.GetFree() == capacity - LiveBytes() - count * SLOT_SIZE
    {
      target.Clear();
      assert slots[0..count] == slots[..count];
      ok := CopyNode(target, 0, count);
    }
  }

  datatype PageOp = AppendOp(r: Record) | InsertOp(r: Record) | RemoveOp(idx: nat)

  /** Any run of appends, insertions and removals keeps slots and records apart. */
  method RunPage(node: Node, ops: seq<PageOp>)
    requires node.Valid()
    modifies node, node.slots
    ensures node.Valid()
  {
    for i := 0 to |ops|
      invariant node.Valid()
    {
      match ops[i] {
        case AppendOp(r) => var _ := node.Append(r);
        case InsertOp(r) => var _, _ := node.Insert(r);
        case RemoveOp(idx) => var _, _ := node.RemoveAt(idx);
      }
    }
  }
}
