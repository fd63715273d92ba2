/** What an `append` has done by the time it returns, whatever the other appenders and the flusher do meanwhile. */
module LogAppends {
  import opened Basics
  import opened LogStore
  import opened LogStoreProof
  import opened LogStoreRuns

  predicate By(x: Action, t: Tid) { x.Appender? && x.a.t == t }

  /** Thread `t` begins an append of `size` bytes at step `b` and is first back from it at state `e`. */
  ghost predicate Call(n: nat, ss: seq<State>, xs: seq<Action>, t: Tid, size: nat, b: nat, e: nat) {
    && Run(n, ss, xs) && b < e < |ss| && xs[b] == Appender(LoadView(t, size))
    && HasThread(ss[e], t) && ss[e].pcs[t].Idle?
    && forall i | b < i < e :: HasThread(ss[i], t) && !ss[i].pcs[t].Idle?
  }

  /** Step `j` of thread `t` makes a reservation. */
  ghost predicate Makes(ss: seq<State>, xs: seq<Action>, t: Tid, j: nat) {
    && |ss| == |xs| + 1 && j < |xs| && By(xs[j], t)
    && |ss[j + 1].reservations| == |ss[j].reservations| + 1
  }

  ghost predicate MakesNone(ss: seq<State>, xs: seq<Action>, t: Tid, lo: nat, hi: nat) {
    forall j | lo <= j < hi :: !Makes(ss, xs, t, j)
  }

  // ----------------------------------------------------------------------- one step

  /** On the way to a reservation; what `go_forward` has loaded is not behind `from`. */
  ghost predicate Seeking(pc: Pc, size: nat, from: Pos) {
    match pc
    case Loaded(_, z) => z == size
    case Enter(z) => z == size
    case Check(prev, z) => z == size && from <= prev
    case Reread(z, _) => z == size
    case Try(prev, z, _) => z == size && from <= prev
    case _ => false
  }

  /** With reservation `k`, and after the store, with its bytes in memory. */
  ghost predicate Having(s: State, pc: Pc, k: nat, size: nat, from: Pos) {
    && (pc.Reserved? || HasBase(pc) || pc.Written?) && pc.k == k && k < |s.reservations|
    && s.reservations[k].size == size && from <= s.reservations[k].pos
    && (pc.Written? ==> Stored(s, k))
  }

  /** The store of reservation `k` is done. */
  ghost predicate Stored(s: State, k: nat) {
    && k < |s.reservations| && s.reservations[k].done
    && exists w | w in s.memory :: w.owner == Some(k) && w.len == s.reservations[k].size
  }

  lemma SeekingStep(s: State, a: Append, size: nat, from: Pos)
    requires EnabledAppend(s, a) && Seeking(s.pcs[a.t], size, from) && from <= s.appendPos
    ensures var s', k := ApplyAppend(s, a), |s.reservations|;
            && HasThread(s', a.t)
            && if |s'.reservations| == k then Seeking(s'.pcs[a.t], size, from)
               else |s'.reservations| == k + 1 && Having(s', s'.pcs[a.t], k, size, from)
  {
  }

  lemma HavingStep(s: State, a: Append, k: nat, size: nat, from: Pos)
    requires EnabledAppend(s, a) && Having(s, s.pcs[a.t], k, size, from)
    ensures var s' := ApplyAppend(s, a);
            && HasThread(s', a.t) && |s'.reservations| == |s.reservations|
            && if s'.pcs[a.t].Idle?
               then Stored(s', k) && s'.reservations[k].size == size && from <= s'.reservations[k].pos
               else Having(s', s'.pcs[a.t], k, size, from)
  {
    if a.WriteValue? {
      var s' := ApplyAppend(s, a);
      assert s'.memory[|s.memory|] in s'.memory;
    }
  }

  /** What others do leaves a thread where it is, and what was reserved and stored. */
  ghost predicate Keeps(s: State, s': State, t: Tid)
    requires HasThread(s, t)
  {
    && HasThread(s', t) && s'.pcs[t] == s.pcs[t] && |s.reservations| <= |s'.reservations|
    && (forall k | 0 <= k < |s.reservations| ::
          && s'.reservations[k].pos == s.reservations[k].pos && s'.reservations[k].size == s.reservations[k].size
          && (s.reservations[k].done ==> s'.reservations[k].done))
    && s.memory <= s'.memory
  }

  lemma OtherAppend(s: State, a: Append, t: Tid)
    requires EnabledAppend(s, a) && HasThread(s, t) && a.t != t
    ensures Keeps(s, ApplyAppend(s, a), t)
  {
  }

  lemma OtherFlush(s: State, f: Flush, t: Tid)
    requires EnabledFlush(s, f) && HasThread(s, t)
    ensures Keeps(s, ApplyFlush(s, f), t)
  {
  }

  lemma OtherStep(s: State, x: Action, t: Tid)
    requires Enabled(s, x) && HasThread(s, t) && !By(x, t)
    ensures Keeps(s, Apply(s, x), t)
  {
    match x
    case Appender(a) => OtherAppend(s, a, t);
    case Flushing(f) => OtherFlush(s, f, t);
  }

  lemma KeepsHaving(s: State, s': State, t: Tid, k: nat, size: nat, from: Pos)
    requires HasThread(s, t) && Keeps(s, s', t) && Having(s, s.pcs[t], k, size, from)
    ensures Having(s', s'.pcs[t], k, size, from)
  {
    if s.pcs[t].Written? {
      var w :| w in s.memory && w.owner == Some(k) && w.len == s.reservations[k].size;
      assert w in s'.memory;
    }
  }

  // --------------------------------------------------------------------- a whole call

  /** How far an append that began at `b` is at state `i`. */
  ghost predicate Phase(ss: seq<State>, xs: seq<Action>, t: Tid, size: nat, b: nat, i: nat)
    requires b < i < |ss| && HasThread(ss[i], t)
  {
    || (Seeking(ss[i].pcs[t], size, ss[b].appendPos) && MakesNone(ss, xs, t, b, i))
    || exists j | b < j < i :: Reserving(ss, xs, t, size, b, i, j)
  }

  /** The reservation was made at step `j` and no other by this thread. */
  ghost predicate Reserving(ss: seq<State>, xs: seq<Action>, t: Tid, size: nat, b: nat, i: nat, j: nat)
    requires b < j < i < |ss| && HasThread(ss[i], t)
  {
    && Makes(ss, xs, t, j) && MakesNone(ss, xs, t, b, j) && MakesNone(ss, xs, t, j + 1, i)
    && Having(ss[i], ss[i].pcs[t], |ss[j].reservations|, size, ss[b].appendPos)
  }

  lemma SeekingAt(ss: seq<State>, xs: seq<Action>, t: Tid, size: nat, b: nat, i: nat)
    requires |ss| == |xs| + 1 && b < i < |xs| && StepAt(ss, xs, i) && HasThread(ss[i], t) && By(xs[i], t)
    requires Seeking(ss[i].pcs[t], size, ss[b].appendPos) && MakesNone(ss, xs, t, b, i)
    requires ss[b].appendPos <= ss[i].appendPos
    ensures HasThread(ss[i + 1], t) && !ss[i + 1].pcs[t].Idle? && Phase(ss, xs, t, size, b, i + 1)
  {
    SeekingStep(ss[i], xs[i].a, size, ss[b].appendPos);
    if Makes(ss, xs, t, i) {
      assert Reserving(ss, xs, t, size, b, i + 1, i);
    }
  }

  lemma HavingAt(ss: seq<State>, xs: seq<Action>, t: Tid, size: nat, b: nat, i: nat, j: nat)
    requires |ss| == |xs| + 1 && b < j < i < |xs| && StepAt(ss, xs, i) && HasThread(ss[i], t) && By(xs[i], t)
    requires Reserving(ss, xs, t, size, b, i, j)
    ensures HasThread(ss[i + 1], t) && !Makes(ss, xs, t, i)
    ensures if ss[i + 1].pcs[t].Idle? then Done(ss, xs, t, size, b, i + 1, j)
            else Reserving(ss, xs, t, size, b, i + 1, j)
  {
    HavingStep(ss[i], xs[i].a, |ss[j].reservations|, size, ss[b].appendPos);
  }

  /** By state `e` the append has made one reservation, at step `j`, and its store is done. */
  ghost predicate Done(ss: seq<State>, xs: seq<Action>, t: Tid, size: nat, b: nat, e: nat, j: nat) {
    && b < j < e < |ss| && Makes(ss, xs, t, j) && MakesNone(ss, xs, t, b, j) && MakesNone(ss, xs, t, j + 1, e)
    && var k := |ss[j].reservations|;
       Stored(ss[e], k) && ss[e].reservations[k].size == size && ss[b].appendPos <= ss[e].reservations[k].pos
  }

  ghost predicate Finished(ss: seq<State>, xs: seq<Action>, t: Tid, size: nat, b: nat, e: nat) {
    exists j: nat :: Done(ss, xs, t, size, b, e, j)
  }

  lemma OtherAt(ss: seq<State>, xs: seq<Action>, t: Tid, size: nat, b: nat, i: nat)
    requires |ss| == |xs| + 1 && b < i < |xs| && StepAt(ss, xs, i) && HasThread(ss[i], t) && !By(xs[i], t)
    requires Phase(ss, xs, t, size, b, i) && !ss[i].pcs[t].Idle?
    ensures HasThread(ss[i + 1], t) && !ss[i + 1].pcs[t].Idle? && Phase(ss, xs, t, size, b, i + 1)
  {
    OtherStep(ss[i], xs[i], t);
    if !(Seeking(ss[i].pcs[t], size, ss[b].appendPos) && MakesNone(ss, xs, t, b, i)) {
      var j :| b < j < i && Reserving(ss, xs, t, size, b, i, j);
      KeepsHaving(ss[i], ss[i + 1], t, |ss[j].reservations|, size, ss[b].appendPos);
      assert Reserving(ss, xs, t, size, b, i + 1, j);
    }
  }

  lemma PhaseStep(n: nat, ss: seq<State>, xs: seq<Action>, t: Tid, size: nat, b: nat, i: nat)
    requires Run(n, ss, xs) && b < i < |xs| && HasThread(ss[i], t) && Phase(ss, xs, t, size, b, i)
    requires !ss[i].pcs[t].Idle?
    ensures HasThread(ss[i + 1], t)
    ensures if ss[i + 1].pcs[t].Idle? then Finished(ss, xs, t, size, b, i + 1)
            else Phase(ss, xs, t, size, b, i + 1)
  {
    RunExtends(n, ss, xs, b, i);
    assert StepAt(ss, xs, i);
    if !By(xs[i], t) {
      OtherAt(ss, xs, t, size, b, i);
    } else if Seeking(ss[i].pcs[t], size, ss[b].appendPos) && MakesNone(ss, xs, t, b, i) {
      SeekingAt(ss, xs, t, size, b, i);
    } else {
      var j :| b < j < i && Reserving(ss, xs, t, size, b, i, j);
      HavingAt(ss, xs, t, size, b, i, j);
    }
  }

  lemma Begins(s: State, t: Tid, size: nat, from: Pos)
    requires EnabledAppend(s, LoadView(t, size))
    ensures var s' := ApplyAppend(s, LoadView(t, size));
            && HasThread(s', t) && s'.reservations == s.reservations
            && Seeking(s'.pcs[t], size, from) && !s'.pcs[t].Idle?
  {
  }

  lemma {:induction false} Pending(n: nat, ss: seq<State>, xs: seq<Action>, t: Tid, size: nat, b: nat, e: nat, i: nat)
    requires Call(n, ss, xs, t, size, b, e) && b < i < e
    ensures HasThread(ss[i], t) && Phase(ss, xs, t, size, b, i)
  {
    if b + 1 < i {
      Pending(n, ss, xs, t, size, b, e, i - 1);
      PhaseStep(n, ss, xs, t, size, b, i - 1);
    } else {
      assert StepAt(ss, xs, b);
      Begins(ss[b], t, size, ss[b].appendPos);
    }
  }

  /**
   An append that has returned made exactly one reservation, of its size and at or behind
   the position it found first, and its value is stored: no lost compare-and-swap
   makes it give up or reserve twice.
   */
  lemma AppendReturns(n: nat, ss: seq<State>, xs: seq<Action>, t: Tid, size: nat, b: nat, e: nat)
    requires Call(n, ss, xs, t, size, b, e)
    ensures Finished(ss, xs, t, size, b, e)
    ensures forall i: nat, j: nat | Makes(ss, xs, t, i) && Makes(ss, xs, t, j) && b <= i < e && b <= j < e :: i == j
  {
    assert StepAt(ss, xs, b);
    Begins(ss[b], t, size, ss[b].appendPos);
    Pending(n, ss, xs, t, size, b, e, e - 1);
    PhaseStep(n, ss, xs, t, size, b, e - 1);
    var j: nat :| Done(ss, xs, t, size, b, e, j);
    forall i: nat | b <= i < e && Makes(ss, xs, t, i)
      ensures i == j
    {
    }
  }
}
