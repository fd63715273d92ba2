/** What each call of the epoch protocol has done by the time it returns, whatever the other threads do meanwhile. */
module RcuCalls {
  import opened Basics
  import opened Rcu
  import opened RcuProof
  import opened RcuRuns

  predicate By(a: Action, t: Tid) {
    match a
    case Reader(x) => !x.Link? && !x.Unlink? && x.t == t
    case Clock(x) => x.t == t
    case Retire(x) => x.t == t
    case Reuse(x) => x.t == t
  }

  /** Nothing that belongs to thread `t` has changed. */
  ghost predicate Untouched(s: State, s': State, t: Tid)
    requires HasThread(s, t)
  {
    && HasThread(s', t) && s'.pcs[t] == s.pcs[t] && s'.slots[t] == s.slots[t]
    && (s.slots[t].oldest.Some? && s.slots[t].oldest.value in s.rings ==>
          s.slots[t].oldest.value in s'.rings && s'.rings[s.slots[t].oldest.value] == s.rings[s.slots[t].oldest.value])
  }

  lemma OtherReader(s: State, a: ReaderAction, t: Tid)
    requires HasThread(s, t) && EnabledReader(s, a) && !By(Reader(a), t)
    ensures Untouched(s, ApplyReader(s, a), t)
  {
  }

  lemma OtherClock(s: State, a: ClockAction, t: Tid)
    requires HasThread(s, t) && EnabledClock(s, a) && !By(Clock(a), t)
    ensures Untouched(s, ApplyClock(s, a), t)
  {
  }

  lemma OtherRetire(s: State, a: RetireAction, t: Tid)
    requires HasThread(s, t) && EnabledRetire(s, a) && !By(Retire(a), t)
    ensures Untouched(s, ApplyRetire(s, a), t)
  {
  }

  lemma OtherReuse(s: State, a: ReuseAction, t: Tid)
    requires HasThread(s, t) && RingOwners(s) && EnabledReuse(s, a) && !By(Reuse(a), t)
    ensures Untouched(s, ApplyReuse(s, a), t)
  {
  }

  lemma OtherStep(s: State, a: Action, t: Tid)
    requires Inv(s) && HasThread(s, t) && Enabled(s, a) && !By(a, t)
    ensures Untouched(s, Apply(s, a), t)
  {
    match a
    case Reader(x) => OtherReader(s, x, t);
    case Clock(x) => OtherClock(s, x, t);
    case Retire(x) => OtherRetire(s, x, t);
    case Reuse(x) => OtherReuse(s, x, t);
  }

  lemma OtherAt(n: nat, ss: seq<State>, acts: seq<Action>, i: nat, t: Tid)
    requires Run(n, ss, acts) && i < |acts| && t < n && !By(acts[i], t)
    ensures HasThread(ss[i], t) && Untouched(ss[i], ss[i + 1], t)
  {
    ThreadAt(n, ss, acts, i, t);
    ReachableInv(n, ss, acts, i);
    assert StepAt(ss, acts, i);
    OtherStep(ss[i], acts[i], t);
  }

  lemma ThreadAt(n: nat, ss: seq<State>, acts: seq<Action>, i: nat, t: Tid)
    requires Run(n, ss, acts) && i < |ss| && t < n
    ensures HasThread(ss[i], t)
  {
    NestCounts(n, ss, acts, i, t);
    ReachableInv(n, ss, acts, i);
  }

  /** Thread `t` begins a call at step `b` and is first back from it at state `e`. */
  ghost predicate Call(n: nat, ss: seq<State>, acts: seq<Action>, t: Tid, b: nat, e: nat) {
    && Run(n, ss, acts) && t < n && b < e < |ss| && By(acts[b], t)
    && HasThread(ss[e], t) && ss[e].pcs[t].Idle?
    && forall i | b < i < e :: HasThread(ss[i], t) && !ss[i].pcs[t].Idle?
  }

  // ------------------------------------------------------------------------- fix

  lemma BeginsFix(s: State, t: Tid)
    requires HasThread(s, t) && EnabledReader(s, FixBegin(t))
    ensures var s' := ApplyReader(s, FixBegin(t));
            && HasThread(s', t)
            && (s.slots[t].fixtime == NIL_TIME ==> s'.pcs[t] == FixLoaded(s.globalTime))
            && (s.slots[t].fixtime != NIL_TIME ==> s'.pcs[t] == Idle && s'.slots[t].fixtime != NIL_TIME)
  {
  }

  lemma BeginsFixAt(n: nat, ss: seq<State>, acts: seq<Action>, b: nat, t: Tid)
    requires Run(n, ss, acts) && b < |acts| && t < n && acts[b] == Reader(FixBegin(t))
    ensures HasThread(ss[b], t) && HasThread(ss[b + 1], t)
    ensures ss[b].slots[t].fixtime == NIL_TIME ==> ss[b + 1].pcs[t] == FixLoaded(ss[b].globalTime)
    ensures ss[b].slots[t].fixtime != NIL_TIME ==> ss[b + 1].pcs[t] == Idle && ss[b + 1].slots[t].fixtime != NIL_TIME
  {
    ThreadAt(n, ss, acts, b, t);
    assert StepAt(ss, acts, b);
    BeginsFix(ss[b], t);
  }

  lemma EndsFix(s: State, a: Action, t: Tid)
    requires HasThread(s, t) && Enabled(s, a) && By(a, t) && s.pcs[t].FixLoaded?
    ensures a == Reader(FixStore(t)) && HasThread(Apply(s, a), t)
    ensures Apply(s, a).pcs[t] == Idle && Apply(s, a).slots[t].fixtime == s.pcs[t].g
  {
  }

  /** Between its two halves, `fix` only goes on to the store. */
  lemma FixGoesOn(n: nat, ss: seq<State>, acts: seq<Action>, i: nat, t: Tid)
    requires Run(n, ss, acts) && i < |acts| && t < n && HasThread(ss[i], t) && ss[i].pcs[t].FixLoaded?
    ensures HasThread(ss[i + 1], t)
    ensures if By(acts[i], t)
            then && acts[i] == Reader(FixStore(t)) && ss[i + 1].pcs[t] == Idle
                 && ss[i + 1].slots[t].fixtime == ss[i].pcs[t].g
            else ss[i + 1].pcs[t] == ss[i].pcs[t]
  {
    if By(acts[i], t) {
      assert StepAt(ss, acts, i);
      EndsFix(ss[i], acts[i], t);
    } else {
      OtherAt(n, ss, acts, i, t);
    }
  }

  lemma {:induction false} FixPending(n: nat, ss: seq<State>, acts: seq<Action>, t: Tid, b: nat, e: nat, i: nat)
    requires Call(n, ss, acts, t, b, e) && acts[b] == Reader(FixBegin(t)) && b < i < e
    ensures HasThread(ss[i], t) && ss[i].pcs[t] == FixLoaded(ss[b].globalTime)
  {
    if b + 1 < i {
      FixPending(n, ss, acts, t, b, e, i - 1);
      FixGoesOn(n, ss, acts, i - 1, t);
    } else {
      BeginsFixAt(n, ss, acts, b, t);
    }
  }

  /**
   `fix`: when it returns, the thread is one section deeper, and a section entered from
   outside has published the global time at which the call began.
   */
  lemma FixReturns(n: nat, ss: seq<State>, acts: seq<Action>, t: Tid, b: nat, e: nat)
    requires Call(n, ss, acts, t, b, e) && acts[b] == Reader(FixBegin(t))
    ensures Depth(acts[..e], t) == Depth(acts[..b], t) + 1 && ss[e].slots[t].fixtime != NIL_TIME
    ensures Depth(acts[..b], t) == 0 ==> ss[e].slots[t].fixtime == ss[b].globalTime
  {
    BeginsFixAt(n, ss, acts, b, t);
    NestCounts(n, ss, acts, b, t);
    NestCounts(n, ss, acts, e, t);
    assert acts[..e][..e - 1] == acts[..e - 1];
    if b + 1 < e {
      FixPending(n, ss, acts, t, b, e, e - 1);
      FixGoesOn(n, ss, acts, e - 1, t);
      NotYetFixed(n, ss, acts, e - 1, t);
      NotYetFixed(n, ss, acts, b + 1, t);
      FixPending(n, ss, acts, t, b, e, b + 1);
      assert acts[..b + 1][..b] == acts[..b];
    }
  }

  /** A thread between the two halves of `fix` is in no section. */
  lemma NotYetFixed(n: nat, ss: seq<State>, acts: seq<Action>, i: nat, t: Tid)
    requires Run(n, ss, acts) && i < |ss| && t < n && HasThread(ss[i], t) && ss[i].pcs[t].FixLoaded?
    ensures Depth(acts[..i], t) == 0 && ss[i].pcs[t].g >= INIT_TIME
  {
    ReachableInv(n, ss, acts, i);
    NestCounts(n, ss, acts, i, t);
    assert PcTime(ss[i], ss[i].pcs[t]);
  }

  // -------------------------------------------------------------- regist_free_obj

  ghost predicate Registering(pc: Pc, o: Obj) {
    pc == Attach(o) || pc == ChangeBegin(ToAttach(o)) || (pc.ChangeMove? && pc.k == ToAttach(o))
  }

  lemma RegisteringStep(s: State, a: Action, t: Tid, o: Obj)
    requires HasThread(s, t) && Enabled(s, a) && By(a, t) && Registering(s.pcs[t], o)
    ensures HasThread(Apply(s, a), t)
    ensures if Registers(s, a, o)
            then Apply(s, a).pcs[t].Idle? && Apply(s, a).slots[t].latest == [o] + s.slots[t].latest
            else Registering(Apply(s, a).pcs[t], o) && forall x :: !Registers(s, a, x)
  {
  }

  lemma RegisteringAt(n: nat, ss: seq<State>, acts: seq<Action>, i: nat, t: Tid, o: Obj)
    requires Run(n, ss, acts) && i < |acts| && t < n && HasThread(ss[i], t) && Registering(ss[i].pcs[t], o)
    ensures HasThread(ss[i + 1], t)
    ensures if By(acts[i], t) && Registers(ss[i], acts[i], o)
            then ss[i + 1].pcs[t].Idle? && ss[i + 1].slots[t].latest == [o] + ss[i].slots[t].latest
            else Registering(ss[i + 1].pcs[t], o) && (By(acts[i], t) ==> forall x :: !Registers(ss[i], acts[i], x))
  {
    if By(acts[i], t) {
      assert StepAt(ss, acts, i);
      RegisteringStep(ss[i], acts[i], t, o);
    } else {
      OtherAt(n, ss, acts, i, t);
    }
  }

  lemma BeginsRegister(s: State, t: Tid, o: Obj)
    requires HasThread(s, t) && EnabledRetire(s, RegBegin(t, o))
    ensures HasThread(ApplyRetire(s, RegBegin(t, o)), t) && Registering(ApplyRetire(s, RegBegin(t, o)).pcs[t], o)
  {
  }

  lemma {:induction false} RegisterPending(n: nat, ss: seq<State>, acts: seq<Action>, t: Tid, o: Obj, b: nat, e: nat,
                                           i: nat)
    requires Call(n, ss, acts, t, b, e) && acts[b] == Retire(RegBegin(t, o)) && b < i < e
    ensures HasThread(ss[i], t) && Registering(ss[i].pcs[t], o)
  {
    if b + 1 < i {
      RegisterPending(n, ss, acts, t, o, b, e, i - 1);
      RegisteringAt(n, ss, acts, i - 1, t, o);
    } else {
      ThreadAt(n, ss, acts, b, t);
      assert StepAt(ss, acts, b);
      BeginsRegister(ss[b], t, o);
    }
  }

  /** `regist_free_obj`: it registers its object, exactly once, as its last step, and nothing else. */
  lemma RegisterReturns(n: nat, ss: seq<State>, acts: seq<Action>, t: Tid, o: Obj, b: nat, e: nat)
    requires Call(n, ss, acts, t, b, e) && acts[b] == Retire(RegBegin(t, o))
    ensures b + 1 < e && By(acts[e - 1], t) && Registers(ss[e - 1], acts[e - 1], o)
    ensures HasThread(ss[e - 1], t) && ss[e].slots[t].latest == [o] + ss[e - 1].slots[t].latest
    ensures forall i, x | b <= i < e - 1 && By(acts[i], t) :: !Registers(ss[i], acts[i], x)
  {
    ThreadAt(n, ss, acts, b, t);
    assert StepAt(ss, acts, b);
    BeginsRegister(ss[b], t, o);
    RegisterPending(n, ss, acts, t, o, b, e, e - 1);
    RegisteringAt(n, ss, acts, e - 1, t, o);
    forall i, x | b <= i < e - 1 && By(acts[i], t)
      ensures !Registers(ss[i], acts[i], x)
    {
      if b < i {
        RegisterPending(n, ss, acts, t, o, b, e, i);
        RegisterPending(n, ss, acts, t, o, b, e, i + 1);
        RegisteringAt(n, ss, acts, i, t, o);
      }
    }
  }
}
