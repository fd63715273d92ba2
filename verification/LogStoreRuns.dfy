/** What the log store guarantees over whole runs. */
module LogStoreRuns {
  import opened Basics
  import opened LogStore
  import opened LogStoreProof

  lemma AppendStep(s: State, a: Append)
    requires Inv(s) && EnabledAppend(s, a)
    ensures Inv(ApplyAppend(s, a))
  {
    AppendViews(s, a);
    AppendOrdered(s, a);
    AppendOwned(s, a);
    AppendComplete(s, a);
    AppendScan(s, a);
    AppendMins(s, a);
    AppendCache(s, a);
    AppendBases(s, a);
    AppendInPlace(s, a);
  }

  lemma FlushStep(s: State, f: Flush)
    requires Inv(s) && EnabledFlush(s, f)
    ensures Inv(ApplyFlush(s, f))
  {
    FlushComplete(s, f);
    FlushFlusherOk(s, f);
    FlushScan(s, f);
    FlushCache(s, f);
    FlushBases(s, f);
    FlushInPlace(s, f);
  }

  lemma StepInv(s: State, x: Action)
    requires Inv(s) && Enabled(s, x)
    ensures Inv(Apply(s, x))
  {
    match x
    case Appender(a) => AppendStep(s, a);
    case Flushing(f) => FlushStep(s, f);
  }

  ghost predicate StepAt(ss: seq<State>, xs: seq<Action>, i: nat)
    requires |ss| == |xs| + 1 && i < |xs|
  {
    Enabled(ss[i], xs[i]) && ss[i + 1] == Apply(ss[i], xs[i])
  }

  ghost predicate Run(n: nat, ss: seq<State>, xs: seq<Action>) {
    |ss| == |xs| + 1 && ss[0] == InitState(n) && forall i | 0 <= i < |xs| :: StepAt(ss, xs, i)
  }

  lemma {:induction false} ReachableInv(n: nat, ss: seq<State>, xs: seq<Action>, i: nat)
    requires Run(n, ss, xs) && i < |ss|
    ensures Inv(ss[i])
  {
    if i == 0 {
      InitInv(n);
    } else {
      ReachableInv(n, ss, xs, i - 1);
      assert StepAt(ss, xs, i - 1);
      StepInv(ss[i - 1], xs[i - 1]);
    }
  }

  // -------------------------------------------------------------- disjointness

  predicate Disjoint(a: Reservation, b: Reservation) {
    a.pos + a.size <= b.pos || b.pos + b.size <= a.pos
  }

  /** No two appenders are ever given a common byte. */
  lemma ReservationsDisjoint(n: nat, ss: seq<State>, xs: seq<Action>, i: nat, j: nat, k: nat)
    requires Run(n, ss, xs) && i < |ss| && j < |ss[i].reservations| && k < |ss[i].reservations| && j != k
    ensures Disjoint(ss[i].reservations[j], ss[i].reservations[k])
  {
    ReachableInv(n, ss, xs, i);
  }

  // -------------------------------------------------------------- flush safety

  /** Reservations keep their place, what is written stays written, and new ones lie beyond `append_pos`. */
  ghost predicate Extends(s: State, s': State) {
    && |s.reservations| <= |s'.reservations| && s.appendPos <= s'.appendPos
    && (forall k | 0 <= k < |s.reservations| ::
          && s'.reservations[k].pos == s.reservations[k].pos && s'.reservations[k].size == s.reservations[k].size
          && (s.reservations[k].done ==> s'.reservations[k].done))
    && (forall k | |s.reservations| <= k < |s'.reservations| :: s.appendPos <= s'.reservations[k].pos)
  }

  lemma AppendExtends(s: State, a: Append)
    requires Inv(s) && EnabledAppend(s, a)
    ensures Extends(s, ApplyAppend(s, a))
  {
    AppendOrdered(s, a);
  }

  lemma FlushExtends(s: State, f: Flush)
    requires EnabledFlush(s, f)
    ensures Extends(s, ApplyFlush(s, f))
  {
  }

  lemma StepExtends(s: State, x: Action)
    requires Inv(s) && Enabled(s, x)
    ensures Extends(s, Apply(s, x))
  {
    match x
    case Appender(a) => AppendExtends(s, a);
    case Flushing(f) => FlushExtends(s, f);
  }

  lemma {:induction false} RunExtends(n: nat, ss: seq<State>, xs: seq<Action>, i: nat, j: nat)
    requires Run(n, ss, xs) && i <= j < |ss|
    ensures Extends(ss[i], ss[j])
  {
    if i < j {
      RunExtends(n, ss, xs, i, j - 1);
      ReachableInv(n, ss, xs, j - 1);
      assert StepAt(ss, xs, j - 1);
      StepExtends(ss[j - 1], xs[j - 1]);
    }
  }

  predicate Overlaps(r: Reservation, lo: Pos, hi: Pos) { r.pos < hi && lo < r.pos + r.size }

  /**
   The flusher waits.  When it writes out [from, write_pos), every reservation that
   has a byte there, whenever in the run it is looked for, had been made and its
   appender's store was done by then.
   */
  lemma WritersFinished(n: nat, ss: seq<State>, xs: seq<Action>, i: nat, j: nat, k: nat)
    requires Run(n, ss, xs) && i <= j < |ss|
    requires ss[i].flusher.Stopped? && k < |ss[j].reservations|
    requires Overlaps(ss[j].reservations[k], ss[i].flusher.from, ss[i].writePos)
    ensures k < |ss[i].reservations| && ss[i].reservations[k].done
  {
    ReachableInv(n, ss, xs, i);
    RunExtends(n, ss, xs, i, j);
  }

  /**
   Flush safety.  As long as no reservation lies across a chunk boundary, what the
   flusher writes out at the log position of byte `b` of reservation `k` is that
   byte, whenever in the run the reservation is looked for.
   */
  lemma FlushSafety(n: nat, ss: seq<State>, xs: seq<Action>, i: nat, j: nat, k: nat, b: nat)
    requires Run(n, ss, xs) && i <= j < |ss| && NoneCross(ss[i].reservations)
    requires ss[i].flusher.Stopped? && k < |ss[j].reservations| && b < ss[j].reservations[k].size
    requires ss[i].flusher.from <= ss[j].reservations[k].pos + b < ss[i].writePos
    ensures k < |ss[i].reservations| && RightByte(ss[i], k, b)
  {
    WritersFinished(n, ss, xs, i, j, k);
    RunExtends(n, ss, xs, i, j);
    ReachableInv(n, ss, xs, i);
    var r := ss[i].reservations[k];
    InChunk(r.pos, r.size, b);
    assert ChunkOf(r.pos + b) in ss[i].cache;
  }

  /**
   Every chunk an appender has still to write to has its buffer from when it is created,
   also where the range goes on into the next chunk; and while it holds a pointer, that is the address of its
   position.
   */
  lemma BufferNotRecycled(n: nat, ss: seq<State>, xs: seq<Action>, i: nat, t: Tid, b: nat)
    requires Run(n, ss, xs) && i < |ss| && t < |ss[i].pcs|
    requires ss[i].pcs[t].Reserved? || HasBase(ss[i].pcs[t])
    ensures ss[i].pcs[t].k < |ss[i].reservations|
    ensures var c := ChunkOf(ss[i].reservations[ss[i].pcs[t].k].pos + b); c < ss[i].nextChunk ==> c in ss[i].cache
    ensures HasBase(ss[i].pcs[t]) ==>
              var r := ss[i].reservations[ss[i].pcs[t].k];
              ChunkOf(r.pos) in ss[i].cache && ss[i].pcs[t].base == AddressOf(ss[i].cache, r.pos)
  {
    ReachableInv(n, ss, xs, i);
    var s := ss[i];
    var k := s.pcs[t].k;
    assert ViewOk(s.pcs[t], s.views[t], s.appendPos, s.reservations) && BaseOk(s, s.pcs[t]);
    ChunkMonotone(From(s), s.writePos);
    ChunkMonotone(s.writePos, s.reservations[k].pos + b);
  }

  /** The appender's own check never fails: the minimum its scan found is at most the chunk it writes to. */
  lemma PublishedBelowOwnChunk(n: nat, ss: seq<State>, xs: seq<Action>, i: nat, t: Tid)
    requires Run(n, ss, xs) && i < |ss| && EnabledAppend(ss[i], WriteValue(t))
    ensures ss[i].pcs[t].min <= ChunkOf(ss[i].reservations[ss[i].pcs[t].k].pos)
  {
    ReachableInv(n, ss, xs, i);
    assert ViewOk(ss[i].pcs[t], ss[i].views[t], ss[i].appendPos, ss[i].reservations);
    assert MinOk(ss[i].pcs[t], t, ss[i].views[t], |ss[i].views|);
  }
}
