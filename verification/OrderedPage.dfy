/**
 The slotted page of `ywOrderedNode`: an array of slots growing from the front,
 records growing from the back.  Slots hold record offsets and are kept in key
 order by shift loops that leave the page searchable at every step.
 */
module OrderedPage {
  import opened PageSearch

  type Offset = nat

  const SLOT_SIZE: nat := 2

  /** What lies at an offset: a key and the number of bytes of the whole record. */
  datatype RawRecord = Record(key: Key, size: nat)

  type Record = r: RawRecord | r.size > 0 witness Record(0, 1)

  type Heap = map<Offset, Record>

  // -------------------------------------------------------------- shift loops

  /** The states a concurrent search may meet while one element of `s` stands twice. */
  ghost predicate AllDoubled(s: seq<Offset>, trace: seq<seq<Offset>>) {
    forall v | v in trace :: exists h :: 0 <= h < |s| && v == Doubled(s, h)
  }

  /** The states between the slot writes of an insertion at `idx`, first to last. */
  ghost predicate ShiftsRight(s: seq<Offset>, idx: nat, trace: seq<seq<Offset>>) {
    && |trace| == (if idx >= |s| then 1 else |s| - idx) && |trace| <= |s|
    && forall i | 0 <= i < |trace| :: trace[i] == Doubled(s, |s| - 1 - i)
  }

  /** The states between the slot writes of a removal at `idx` that leaves `r`. */
  ghost predicate ShiftsLeft(r: seq<Offset>, idx: nat, trace: seq<seq<Offset>>) {
    && |trace| == |r| - idx
    && forall i | 0 <= i < |trace| :: trace[i] == Doubled(r, idx + i)
  }

  /** The loop of `insert` on a page that is not empty: makes room at `idx` and fills it. */
  method ShiftIn(a: array<Offset>, n: nat, idx: nat, x: Offset) returns (ghost trace: seq<seq<Offset>>)
    requires 0 < n < a.Length && idx <= n
    modifies a
    ensures a[..n + 1] == Inserted(old(a[..n]), idx, x)
    ensures ShiftsRight(old(a[..n]), idx, trace) && AllDoubled(old(a[..n]), trace)
  {
    ghost var s := a[..n];
    a[n] := a[n - 1];
    assert a[..n + 1] == Doubled(s, n - 1);
    trace := [a[..n + 1]];
    var i := n - 1;
    while i > idx
      invariant if idx == n then i == n - 1 else idx <= i < n
      invariant a[..n + 1] == Doubled(s, i)
      invariant |trace| == n - i && forall j | 0 <= j < |trace| :: trace[j] == Doubled(s, n - 1 - j)
    {
      a[i] := a[i - 1];
      i := i - 1;
      assert a[..n + 1] == Doubled(s, i);
      trace := trace + [a[..n + 1]];
    }
    a[idx] := x;
    assert a[..n + 1] == Inserted(s, idx, x);
  }

  /** The loop of `_remove`: closes the gap at `idx`; the count drops afterwards. */
  method ShiftOut(a: array<Offset>, n: nat, idx: nat) returns (ghost trace: seq<seq<Offset>>)
    requires idx < n <= a.Length
    modifies a
    ensures a[..n - 1] == Removed(old(a[..n]), idx)
    ensures ShiftsLeft(Removed(old(a[..n]), idx), idx, trace) && AllDoubled(Removed(old(a[..n]), idx), trace)
  {
    ghost var s := a[..n];
    ghost var r := Removed(s, idx);
    trace := [];
    var i := idx;
    while i < n - 1
      invariant idx <= i < n
      invariant a[..n] == r[..i] + s[i..]
      invariant |trace| == i - idx && forall j | 0 <= j < |trace| :: trace[j] == Doubled(r, idx + j)
    {
      a[i] := a[i + 1];
      assert a[..n] == r[..i + 1] + s[i + 1..] == Doubled(r, i);
      trace := trace + [a[..n]];
      i := i + 1;
    }
  }

  // ------------------------------------------------------------------- layout

  ghost predicate Known(h: Heap, s: seq<Offset>) {
    forall i | 0 <= i < |s| :: s[i] in h
  }

  ghost function KeysOf(h: Heap, s: seq<Offset>): (ks: seq<Key>)
    requires Known(h, s)
    ensures |ks| == |s| && forall i | 0 <= i < |s| :: ks[i] == h[s[i]].key
  {
    seq(|s|, i requires 0 <= i < |s| => h[s[i]].key)
  }

  ghost function SizeAt(h: Heap, p: Offset): nat {
    if p in h then h[p].size else 0
  }

  /** Bytes of the records the slots refer to. */
  ghost function Live(h: Heap, s: seq<Offset>): nat {
    if s == [] then 0 else Live(h, s[..|s| - 1]) + SizeAt(h, s[|s| - 1])
  }

  lemma {:induction false} LiveConcat(h: Heap, a: seq<Offset>, b: seq<Offset>)
    ensures Live(h, a + b) == Live(h, a) + Live(h, b)
  {
    if b == [] {
      assert a + b == a;
    } else {
      LiveConcat(h, a, b[..|b| - 1]);
      assert (a + b)[..|a + b| - 1] == a + b[..|b| - 1];
    }
  }

  lemma {:induction false} LiveSame(h: Heap, h': Heap, s: seq<Offset>)
    requires forall i | 0 <= i < |s| :: SizeAt(h', s[i]) == SizeAt(h, s[i])
    ensures Live(h', s) == Live(h, s)
  {
    if s != [] {
      LiveSame(h, h', s[..|s| - 1]);
    }
  }

  lemma LiveInserted(h: Heap, s: seq<Offset>, i: nat, p: Offset)
    requires i <= |s|
    ensures Live(h, Inserted(s, i, p)) == Live(h, s) + SizeAt(h, p)
  {
    LiveConcat(h, s[..i], [p]);
    LiveConcat(h, s[..i] + [p], s[i..]);
    LiveConcat(h, s[..i], s[i..]);
    assert s == s[..i] + s[i..];
  }

  lemma LiveStep(h: Heap, s: seq<Offset>, i: nat)
    requires i < |s|
    ensures Live(h, s[..i + 1]) == Live(h, s[..i]) + SizeAt(h, s[i]) && Live(h, s[..i + 1]) <= Live(h, s)
  {
    assert s[..i + 1][..i] == s[..i];
    LiveConcat(h, s[..i + 1], s[i + 1..]);
    assert s == s[..i + 1] + s[i + 1..];
  }

  /** Two records have no byte in common. */
  ghost predicate Clear(h: Heap, p: Offset, q: Offset) {
    p + SizeAt(h, p) <= q || q + SizeAt(h, q) <= p
  }

  /** Live records neither overlap nor leave the record area. */
  ghost predicate RecordsApart(capacity: nat, free: nat, h: Heap, s: seq<Offset>) {
    && Known(h, s)
    && (forall i | 0 <= i < |s| :: free <= s[i] && s[i] + h[s[i]].size <= capacity)
    && (forall i, j {:trigger Clear(h, s[i], s[j])} | 0 <= i < j < |s| :: Clear(h, s[i], s[j]))
  }

  /** Nor do slots reach into it, and there is room for what is alive. */
  ghost predicate LaidOut(capacity: nat, free: nat, h: Heap, s: seq<Offset>) {
    && RecordsApart(capacity, free, h, s)
    && |s| * SLOT_SIZE <= free <= capacity
    && Live(h, s) <= capacity - free
  }

  lemma LiveInsert(h: Heap, s: seq<Offset>, p: Offset, r: Record, i: nat)
    requires i <= |s| && p !in s
    ensures Live(h[p := r], Inserted(s, i, p)) == Live(h, s) + r.size
  {
    LiveSame(h, h[p := r], s);
    LiveInserted(h[p := r], s, i, p);
  }

  lemma LiveRemove(h: Heap, s: seq<Offset>, i: nat)
    requires i < |s|
    ensures Live(h, Removed(s, i)) == Live(h, s) - SizeAt(h, s[i])
  {
    LiveInserted(h, Removed(s, i), i, s[i]);
    assert Inserted(Removed(s, i), i, s[i]) == s;
  }

  lemma ApartInsert(capacity: nat, free: nat, h: Heap, s: seq<Offset>, r: Record, i: nat)
    requires RecordsApart(capacity, free, h, s) && r.size <= free <= capacity && i <= |s|
    ensures RecordsApart(capacity, free - r.size, h[free - r.size := r], Inserted(s, i, free - r.size))
  {
    var p := free - r.size;
    var s', h' := Inserted(s, i, p), h[p := r];
    assert forall j | 0 <= j < |s'| :: s'[j] == if j < i then s[j] else if j == i then p else s[j - 1];
    forall j, k | 0 <= j < k < |s'|
      ensures Clear(h', s'[j], s'[k])
    {
      if j != i && k != i {
        var j0, k0 := if j < i then j else j - 1, if k < i then k else k - 1;
        assert Clear(h, s[j0], s[k0]);
      }
    }
  }

  lemma ApartRemove(capacity: nat, free: nat, h: Heap, s: seq<Offset>, i: nat)
    requires RecordsApart(capacity, free, h, s) && i < |s|
    ensures RecordsApart(capacity, free, h, Removed(s, i))
  {
    var s' := Removed(s, i);
    assert forall j | 0 <= j < |s'| :: s'[j] == s[if j < i then j else j + 1];
    forall j, k | 0 <= j < k < |s'|
      ensures Clear(h, s'[j], s'[k])
    {
      assert Clear(h, s[if j < i then j else j + 1], s[if k < i then k else k + 1]);
    }
  }

  /** A new record just below the others, referred to from any slot. */
  lemma LaidOutInsert(capacity: nat, free: nat, h: Heap, s: seq<Offset>, r: Record, i: nat)
    requires LaidOut(capacity, free, h, s) && free >= |s| * SLOT_SIZE + r.size + SLOT_SIZE && i <= |s|
    ensures LaidOut(capacity, free - r.size, h[free - r.size := r], Inserted(s, i, free - r.size))
  {
    ApartInsert(capacity, free, h, s, r, i);
    LiveInsert(h, s, free - r.size, r, i);
  }

  lemma LaidOutRemove(capacity: nat, free: nat, h: Heap, s: seq<Offset>, i: nat)
    requires LaidOut(capacity, free, h, s) && i < |s|
    ensures LaidOut(capacity, free, h, Removed(s, i))
  {
    ApartRemove(capacity, free, h, s, i);
    LiveRemove(h, s, i);
  }

  // ------------------------------------------------------ searching mid-update

  /** A reader that meets the slots `v` finds every one of the keys `ks`. */
  ghost predicate Serves(h: Heap, v: seq<Offset>, ks: seq<Key>) {
    Known(h, v) && Sorted(KeysOf(h, v)) && forall k | k in ks :: Finds(KeysOf(h, v), k)
  }

  lemma DoubledServes(h: Heap, s: seq<Offset>, trace: seq<seq<Offset>>, v: seq<Offset>)
    requires Known(h, s) && Sorted(KeysOf(h, s)) && AllDoubled(s, trace) && v in trace
    ensures Serves(h, v, KeysOf(h, s))
  {
    var i :| 0 <= i < |s| && v == Doubled(s, i);
    assert KeysOf(h, v) == Doubled(KeysOf(h, s), i);
    DoubledSearchable(KeysOf(h, s), i);
  }

  lemma KeysSame(h: Heap, h': Heap, s: seq<Offset>)
    requires Known(h, s) && forall i | 0 <= i < |s| :: s[i] in h' && h'[s[i]] == h[s[i]]
    ensures Known(h', s) && KeysOf(h', s) == KeysOf(h, s)
  {
  }

  lemma InsertedKeys(h: Heap, s: seq<Offset>, i: nat, p: Offset)
    requires Known(h, s) && p in h && i <= |s|
    ensures Known(h, Inserted(s, i, p)) && KeysOf(h, Inserted(s, i, p)) == Inserted(KeysOf(h, s), i, h[p].key)
  {
  }

  lemma RemovedKeys(h: Heap, s: seq<Offset>, i: nat)
    requires Known(h, s) && i < |s|
    ensures Known(h, Removed(s, i)) && KeysOf(h, Removed(s, i)) == Removed(KeysOf(h, s), i)
  {
  }

  /** An insertion at its place keeps the order. */
  lemma InsertKeepsOrder(h: Heap, s: seq<Offset>, p: Offset, r: Record)
    requires Known(h, s) && p !in s
    ensures var i := Search(KeysOf(h, s), r.key) + 1; var h' := h[p := r];
      && Known(h', s) && KeysOf(h', s) == KeysOf(h, s)
      && Known(h', Inserted(s, i, p)) && KeysOf(h', Inserted(s, i, p)) == Inserted(KeysOf(h, s), i, r.key)
      && (Sorted(KeysOf(h, s)) ==> Sorted(Inserted(KeysOf(h, s), i, r.key)))
  {
    var i := Search(KeysOf(h, s), r.key) + 1;
    KeysSame(h, h[p := r], s);
    InsertedKeys(h[p := r], s, i, p);
    if Sorted(KeysOf(h, s)) {
      SearchFloor(KeysOf(h, s), r.key);
      InsertedSorted(KeysOf(h, s), r.key, i - 1);
    }
  }

  /** Every state of a trace serves the keys `ks`. */
  ghost predicate AllServe(h: Heap, trace: seq<seq<Offset>>, ks: seq<Key>) {
    forall v | v in trace :: Serves(h, v, ks)
  }

  lemma TraceServes(h: Heap, s: seq<Offset>, h': Heap, trace: seq<seq<Offset>>)
    requires Known(h, s) && AllDoubled(s, trace)
    requires forall i | 0 <= i < |s| :: s[i] in h' && h'[s[i]] == h[s[i]]
    ensures Sorted(KeysOf(h, s)) ==> AllServe(h', trace, KeysOf(h, s))
  {
    KeysSame(h, h', s);
    if Sorted(KeysOf(h, s)) {
      forall v | v in trace
        ensures Serves(h', v, KeysOf(h, s))
      {
        DoubledServes(h', s, trace, v);
      }
    }
  }
}
