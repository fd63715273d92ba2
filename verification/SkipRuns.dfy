/** A run of operations on a skip list is a run on a sorted set. */
module SkipRuns {
  import opened Basics
  import opened SkipRows
  import opened SkipLevels
  import opened SkipLists

  datatype Op = Insert(key: nat) | Remove(key: nat) | Search(key: nat)

  ghost function Applied(s: set<nat>, op: Op): set<nat> {
    match op
    case Insert(k) => if INIT_KEY < k < LAST_KEY then s + {k} else s
    case Remove(k) => s - {k}
    case Search(_) => s
  }

  ghost function After(s: set<nat>, ops: seq<Op>): set<nat> {
    if ops == [] then s else Applied(After(s, ops[..|ops| - 1]), ops[|ops| - 1])
  }

  /** Keys fit their type, and only keys that are present, or `INIT_KEY`, are removed. */
  ghost predicate Legal(s: set<nat>, ops: seq<Op>) {
    forall i {:trigger ops[i]} | 0 <= i < |ops| :: LegalAt(After(s, ops[..i]), ops[i])
  }

  ghost predicate LegalAt(s: set<nat>, op: Op) {
    op.key <= LAST_KEY && (op.Remove? ==> op.key == INIT_KEY || (op.key in s && op.key < LAST_KEY))
  }

  lemma GainedStored(m: Memory, rows: Rows, n: Memory, after: Rows, from: nat, target: nat)
    requires 0 < |rows| && from < |rows| && Gained(m, rows, n, after, from, target)
    ensures Stored(n, after) == Stored(m, rows) + {target}
  {
    assert GainedAt(m, rows, n, after, from, target, |rows| - 1);
  }

  lemma LostStored(m: Memory, rows: Rows, n: Memory, after: Rows, target: nat)
    requires 0 < |rows| && Lost(m, rows, n, after, target)
    ensures Stored(n, after) == Stored(m, rows) - {target}
  {
    assert LostAt(m, rows, n, after, target, |rows| - 1);
  }

  method Step(l: SkipList, op: Op) returns (r: nat)
    requires l.Valid() && LegalAt(l.Contents(), op)
    modifies l
    ensures l.Valid() && l.Contents() == Applied(old(l.Contents()), op)
    ensures op.Search? ==> IsCeiling(l.Contents(), op.key, r)
  {
    ghost var m, rows := l.mem, l.rows;
    r := 0;
    match op
    case Insert(k) =>
      var ok := l.Insert(k);
      if INIT_KEY < k < LAST_KEY && k !in Stored(m, rows) {
        GainedStored(m, rows, l.mem, l.rows, l.level - NewLevel(l.seqNo, l.level - 1), k);
      }
    case Remove(k) =>
      var ok := l.Remove(k);
      if ok { LostStored(m, rows, l.mem, l.rows, k); }
    case Search(k) =>
      r := l.Find(k);
  }

  /** From a new list, every search in the run finds the least key not below its target in the set so far. */
  method RunList(level: nat, ops: seq<Op>) returns (l: SkipList, out: seq<nat>)
    requires 0 < level <= MAX_LEVEL && Legal({}, ops)
    ensures l.Valid() && l.Contents() == After({}, ops) && |out| == |ops|
    ensures forall i | 0 <= i < |ops| && ops[i].Search? :: IsCeiling(After({}, ops[..i]), ops[i].key, out[i])
  {
    l := new SkipList(level);
    out := [];
    for i := 0 to |ops|
      invariant fresh(l) && l.Valid() && l.Contents() == After({}, ops[..i]) && |out| == i
      invariant forall k | 0 <= k < i && ops[k].Search? :: IsCeiling(After({}, ops[..k]), ops[k].key, out[k])
    {
      assert ops[..i + 1][..i] == ops[..i];
      var r := Step(l, ops[i]);
      out := out + [r];
    }
    assert ops[..|ops|] == ops;
  }
}
