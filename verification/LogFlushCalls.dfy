/** What a `flush` has done by the time it returns, among any number of appenders. */
module LogFlushCalls {
  import opened Basics
  import opened LogStore
  import opened LogStoreProof
  import opened LogStoreRuns
  import opened LogCrossing

  /** The flusher begins a flush at step `b` and is first back from it at state `e`. */
  ghost predicate Call(n: nat, ss: seq<State>, xs: seq<Action>, b: nat, e: nat) {
    && Run(n, ss, xs) && b < e < |ss| && xs[b] == Flushing(Begin) && ss[e].flusher.Resting?
    && forall i | b < i < e :: !ss[i].flusher.Resting?
  }

  ghost predicate Completes(from: Pos, to: Pos, id: ChunkId) { ChunkOf(from) <= id < ChunkOf(to) }

  /** `cache` is `cache0`, but for completed chunks that may have gone. */
  ghost predicate KeepsOthers(cache0: Cache, cache: Cache, from: Pos, to: Pos) {
    && (forall id | id in cache :: id in cache0 && cache[id] == cache0[id])
    && (forall id | id in cache0 && !Completes(from, to, id) :: id in cache)
  }

  /** How far a flush is that began with `s0`. */
  ghost predicate Phase(s0: State, s: State) {
    && s0.writePos <= s.writePos && (s.writePos - s0.writePos) % FLUSH_UNIT == 0
    && match s.flusher
       case Resting => false
       case Flushed(from, to) =>
         from == s0.writePos < to == s.writePos && KeepsOthers(s0.cache, s.cache, from, to)
       case _ => s.flusher.from == s0.writePos && s.cache == s0.cache
  }

  /** The three ways a flush ends: nothing to write, a failed write, or all of it written and its chunks recycled. */
  ghost predicate Ends(s0: State, s: State, x: Action, s': State) {
    || (x == Flushing(Finish) && s.flusher.Stopped? && s'.writePos == s0.writePos && s'.cache == s0.cache)
    || (x == Flushing(WriteOut(false)) && s0.writePos < s.writePos && s'.writePos == s0.writePos
        && s'.cache == s0.cache)
    || (x == Flushing(Finish) && s.flusher.Flushed? && Advanced(s0, s'))
  }

  /** The position has moved on by whole units, and exactly the completed chunks have left the cache. */
  ghost predicate Advanced(s0: State, s': State) {
    && s0.writePos < s'.writePos && (s'.writePos - s0.writePos) % FLUSH_UNIT == 0
    && KeepsOthers(s0.cache, s'.cache, s0.writePos, s'.writePos)
    && forall id | Completes(s0.writePos, s'.writePos, id) :: id !in s'.cache
  }

  lemma UnitMore(d: nat)
    requires d % FLUSH_UNIT == 0
    ensures (d + FLUSH_UNIT) % FLUSH_UNIT == 0
  {
  }

  lemma FlushPhaseStep(s0: State, s: State, f: Flush)
    requires Phase(s0, s) && EnabledFlush(s, f)
    ensures var s' := ApplyFlush(s, f);
            && (s'.flusher.Resting? <==> f.Finish? || f == WriteOut(false))
            && if s'.flusher.Resting? then Ends(s0, s, Flushing(f), s') else Phase(s0, s')
  {
    if f.Emit? {
      UnitMore(s.writePos - s0.writePos);
    }
  }

  lemma AppendKeepsFlusher(s: State, a: Append)
    requires EnabledAppend(s, a)
    ensures var s' := ApplyAppend(s, a);
            s'.flusher == s.flusher && s'.writePos == s.writePos && s'.cache == s.cache
  {
  }

  lemma PhaseStep(ss: seq<State>, xs: seq<Action>, b: nat, i: nat)
    requires |ss| == |xs| + 1 && b < i < |xs| && StepAt(ss, xs, i) && Phase(ss[b], ss[i])
    ensures if ss[i + 1].flusher.Resting? then Ends(ss[b], ss[i], xs[i], ss[i + 1]) else Phase(ss[b], ss[i + 1])
  {
    match xs[i]
    case Appender(a) => AppendKeepsFlusher(ss[i], a);
    case Flushing(f) => FlushPhaseStep(ss[b], ss[i], f);
  }

  lemma {:induction false} Pending(n: nat, ss: seq<State>, xs: seq<Action>, b: nat, e: nat, i: nat)
    requires Call(n, ss, xs, b, e) && b < i < e
    ensures Phase(ss[b], ss[i])
  {
    assert StepAt(ss, xs, i - 1);
    if b + 1 < i {
      Pending(n, ss, xs, b, e, i - 1);
      PhaseStep(ss, xs, b, i - 1);
    }
  }

  /**
   A flush that has returned took nothing, or failed to write and is back where it
   began, or has moved on by whole units and given up exactly the chunks it completed.
   */
  lemma FlushReturns(n: nat, ss: seq<State>, xs: seq<Action>, b: nat, e: nat)
    requires Call(n, ss, xs, b, e)
    ensures b + 1 < e && Ends(ss[b], ss[e - 1], xs[e - 1], ss[e])
  {
    assert StepAt(ss, xs, b) && StepAt(ss, xs, e - 1);
    Pending(n, ss, xs, b, e, e - 1);
    PhaseStep(ss, xs, b, e - 1);
  }

  // ------------------------------------------------------------------ it can return

  /** Completed chunks that are still cached. */
  ghost function ToRecycle(s: State): set<ChunkId>
    requires s.flusher.Flushed?
  {
    set id | id in s.cache && Completes(s.flusher.from, s.flusher.to, id)
  }

  /** After its write, a flush can always recycle what it completed and return, from every reachable state. */
  lemma {:induction false} CanReturn(n: nat, s: State) returns (s': State)
    requires CanReach(n, s) && s.flusher.Flushed?
    ensures CanReach(n, s') && s'.flusher.Resting? && s'.writePos == s.writePos
    ensures forall id | Completes(s.flusher.from, s.flusher.to, id) :: id !in s'.cache
    decreases |ToRecycle(s)|
  {
    if ToRecycle(s) == {} {
      forall id | ChunkOf(s.flusher.from) <= id < ChunkOf(s.flusher.to)
        ensures id !in s.cache
      {
        assert Completes(s.flusher.from, s.flusher.to, id) && id !in ToRecycle(s);
      }
      Reach(n, s, Flushing(Finish));
      s' := Apply(s, Flushing(Finish));
    } else {
      var id :| id in ToRecycle(s);
      Reach(n, s, Flushing(Recycle(id)));
      var s1 := Apply(s, Flushing(Recycle(id)));
      assert ToRecycle(s1) == ToRecycle(s) - {id};
      s' := CanReturn(n, s1);
    }
  }
}
