/** What `get_reusable_item` returns: an object once a check of its ring passed, nothing for two reasons only. */
module RcuGet {
  import opened Basics
  import opened Rcu
  import opened RcuProof
  import opened RcuRuns
  import opened RcuCalls

  ghost predicate HasRing(s: State, t: Tid) {
    HasThread(s, t) && s.slots[t].oldest.Some? && s.slots[t].oldest.value in s.rings
  }

  ghost function OldestRing(s: State, t: Tid): Ring
    requires HasRing(s, t)
  {
    s.rings[s.slots[t].oldest.value]
  }

  /** A read of `reusable_time` that finds it past the stamp of the thread's ring. */
  ghost predicate Passes(s: State, t: Tid) {
    HasRing(s, t) && OldestRing(s, t).removeTime < s.reusableTime
  }

  ghost predicate Fails(s: State, t: Tid) {
    HasRing(s, t) && s.reusableTime <= OldestRing(s, t).removeTime
  }

  ghost predicate Getting(pc: Pc) {
    || pc.GetLoop? || pc.SecondPop? || NeedsRing(pc)
    || pc == ChangeBegin(ToSecondPop) || (pc.ChangeMove? && pc.k == ToSecondPop)
  }

  /** The last step of a call: with an object, after a second pop that gave no ring, or after a second failing read. */
  ghost predicate Ends(s: State, a: Action, t: Tid)
    requires HasThread(s, t) && Enabled(s, a)
  {
    || Returned(s, a).Some?
    || (a == Reuse(PopNull(t)) && s.pcs[t].SecondPop?)
    || (a == Reuse(Check(t)) && s.pcs[t].GetCheckAgain? && Fails(s, t))
  }

  lemma GetReuseStep(s: State, a: ReuseAction, t: Tid)
    requires HasThread(s, t) && EnabledReuse(s, a) && a.t == t && Getting(s.pcs[t])
    ensures var s' := ApplyReuse(s, a);
            && HasThread(s', t) && (s'.pcs[t].Idle? <==> Ends(s, Reuse(a), t))
            && (!s'.pcs[t].Idle? ==> Getting(s'.pcs[t]) && Returned(s, Reuse(a)).None?)
            && (s'.pcs[t].GetCheckAgain? ==> a == Check(t) && Fails(s, t) && s'.slots[t].oldest == s.slots[t].oldest)
  {
  }

  lemma GetRetireStep(s: State, a: RetireAction, t: Tid)
    requires HasThread(s, t) && EnabledRetire(s, a) && a.t == t && Getting(s.pcs[t])
    ensures var s' := ApplyRetire(s, a);
            && HasThread(s', t) && Getting(s'.pcs[t]) && !s'.pcs[t].GetCheckAgain?
  {
  }

  lemma GetStep(s: State, a: Action, t: Tid)
    requires HasThread(s, t) && Enabled(s, a) && By(a, t) && Getting(s.pcs[t])
    ensures var s' := Apply(s, a);
            && HasThread(s', t) && (s'.pcs[t].Idle? <==> Ends(s, a, t))
            && (!s'.pcs[t].Idle? ==> Getting(s'.pcs[t]) && Returned(s, a).None?)
            && (s'.pcs[t].GetCheckAgain? ==>
                  a == Reuse(Check(t)) && Fails(s, t) && s'.slots[t].oldest == s.slots[t].oldest)
  {
    match a
    case Retire(x) => GetRetireStep(s, x, t);
    case Reuse(x) => GetReuseStep(s, x, t);
    case _ =>
  }

  /** An earlier read, of the ring the thread still has, failed. */
  ghost predicate FailedBefore(ss: seq<State>, acts: seq<Action>, t: Tid, b: nat, i: nat)
    requires |ss| == |acts| + 1 && i < |ss| && HasThread(ss[i], t)
  {
    exists k | b < k < i ::
      acts[k] == Reuse(Check(t)) && Fails(ss[k], t) && ss[k].slots[t].oldest == ss[i].slots[t].oldest
  }

  lemma BeginsGet(s: State, t: Tid)
    requires HasThread(s, t) && EnabledReuse(s, GetBegin(t))
    ensures HasThread(ApplyReuse(s, GetBegin(t)), t) && ApplyReuse(s, GetBegin(t)).pcs[t].GetLoop?
  {
  }

  lemma BeginsGetAt(n: nat, ss: seq<State>, acts: seq<Action>, t: Tid, b: nat)
    requires Run(n, ss, acts) && b < |acts| && t < n && acts[b] == Reuse(GetBegin(t))
    ensures HasThread(ss[b + 1], t) && ss[b + 1].pcs[t].GetLoop?
  {
    ThreadAt(n, ss, acts, b, t);
    assert StepAt(ss, acts, b);
    BeginsGet(ss[b], t);
  }

  lemma GetStepAt(n: nat, ss: seq<State>, acts: seq<Action>, t: Tid, b: nat, i: nat)
    requires Run(n, ss, acts) && t < n && b < i < |acts| && HasThread(ss[i], t) && Getting(ss[i].pcs[t])
    requires ss[i].pcs[t].GetCheckAgain? ==> FailedBefore(ss, acts, t, b, i)
    ensures HasThread(ss[i + 1], t) && Enabled(ss[i], acts[i])
    ensures ss[i + 1].pcs[t].Idle? ==> By(acts[i], t) && Ends(ss[i], acts[i], t)
    ensures !ss[i + 1].pcs[t].Idle? ==>
              && Getting(ss[i + 1].pcs[t]) && (By(acts[i], t) ==> Returned(ss[i], acts[i]).None?)
              && (ss[i + 1].pcs[t].GetCheckAgain? ==> FailedBefore(ss, acts, t, b, i + 1))
  {
    assert StepAt(ss, acts, i);
    if By(acts[i], t) {
      GetStep(ss[i], acts[i], t);
    } else {
      OtherAt(n, ss, acts, i, t);
      if ss[i].pcs[t].GetCheckAgain? {
        var k :| b < k < i && acts[k] == Reuse(Check(t)) && Fails(ss[k], t)
                 && ss[k].slots[t].oldest == ss[i].slots[t].oldest;
        assert b < k < i + 1;
      }
    }
  }

  lemma {:induction false} GetPending(n: nat, ss: seq<State>, acts: seq<Action>, t: Tid, b: nat, e: nat, i: nat)
    requires Call(n, ss, acts, t, b, e) && acts[b] == Reuse(GetBegin(t)) && b < i < e
    ensures HasThread(ss[i], t) && Getting(ss[i].pcs[t])
    ensures ss[i].pcs[t].GetCheckAgain? ==> FailedBefore(ss, acts, t, b, i)
  {
    if b + 1 < i {
      GetPending(n, ss, acts, t, b, e, i - 1);
      GetStepAt(n, ss, acts, t, b, i - 1);
    } else {
      BeginsGetAt(n, ss, acts, t, b);
    }
  }

  /**
   A call of `get_reusable_item` returns an object with its last step and none before,
   or it returns nothing: then the pool had given no ring even after `change_ring`, or
   both reads of `reusable_time` found the ring's stamp not passed.
   */
  lemma GetReturns(n: nat, ss: seq<State>, acts: seq<Action>, t: Tid, b: nat, e: nat)
    requires Call(n, ss, acts, t, b, e) && acts[b] == Reuse(GetBegin(t))
    ensures b + 1 < e && By(acts[e - 1], t) && HasThread(ss[e - 1], t) && Enabled(ss[e - 1], acts[e - 1])
    ensures || Returned(ss[e - 1], acts[e - 1]).Some?
            || (acts[e - 1] == Reuse(PopNull(t)) && ss[e - 1].pcs[t].SecondPop?)
            || (acts[e - 1] == Reuse(Check(t)) && Fails(ss[e - 1], t) && FailedBefore(ss, acts, t, b, e - 1))
    ensures forall i | b <= i < e - 1 && By(acts[i], t) :: Enabled(ss[i], acts[i]) && Returned(ss[i], acts[i]).None?
  {
    BeginsGetAt(n, ss, acts, t, b);
    GetPending(n, ss, acts, t, b, e, e - 1);
    GetStepAt(n, ss, acts, t, b, e - 1);
    forall i | b <= i < e - 1 && By(acts[i], t)
      ensures Enabled(ss[i], acts[i]) && Returned(ss[i], acts[i]).None?
    {
      assert StepAt(ss, acts, i);
      if b < i {
        GetPending(n, ss, acts, t, b, e, i);
        GetStepAt(n, ss, acts, t, b, i);
        GetPending(n, ss, acts, t, b, e, i + 1);
      }
    }
  }

  // ----------------------------------------------------------------- a passed check

  lemma PassedStep(s: State, t: Tid)
    requires HasThread(s, t) && EnabledReuse(s, Check(t)) && Passes(s, t)
    ensures var s' := ApplyReuse(s, Check(t));
            && HasRing(s', t) && s'.pcs[t].GetTake? && OldestRing(s', t) == OldestRing(s, t)
            && s'.slots[t].oldest == s.slots[t].oldest
  {
  }

  /** Until the thread acts again, it keeps the ring that passed. */
  lemma {:induction false} StillPassed(n: nat, ss: seq<State>, acts: seq<Action>, t: Tid, i: nat, j: nat)
    requires Run(n, ss, acts) && t < n && i < j < |ss| && acts[i] == Reuse(Check(t)) && Passes(ss[i], t)
    requires forall k | i < k < j :: !By(acts[k], t)
    ensures HasRing(ss[j], t) && ss[j].pcs[t].GetTake? && OldestRing(ss[j], t) == OldestRing(ss[i], t)
  {
    if i + 1 < j {
      StillPassed(n, ss, acts, t, i, j - 1);
      OtherAt(n, ss, acts, j - 1, t);
    } else {
      assert StepAt(ss, acts, i);
      PassedStep(ss[i], t);
    }
  }

  lemma TakesNext(s: State, a: Action, t: Tid)
    requires HasRing(s, t) && Enabled(s, a) && By(a, t) && s.pcs[t].GetTake?
    ensures a == Reuse(Take(t)) && HasThread(Apply(s, a), t)
    ensures OldestRing(s, t).sub != [] ==> Returned(s, a) == Some(OldestRing(s, t).sub[0]) && Apply(s, a).pcs[t].Idle?
    ensures OldestRing(s, t).sub == [] ==> Returned(s, a).None? && Apply(s, a).pcs[t].GetLoop?
  {
  }

  /**
   When either read finds the stamp passed, the thread's next step hands out the first
   object of that ring, whatever the others do meanwhile; only an empty ring makes the
   call go on.
   */
  lemma PassedHandsOut(n: nat, ss: seq<State>, acts: seq<Action>, t: Tid, i: nat, j: nat)
    requires Run(n, ss, acts) && t < n && i < j < |acts| && acts[i] == Reuse(Check(t)) && Passes(ss[i], t)
    requires By(acts[j], t) && forall k | i < k < j :: !By(acts[k], t)
    ensures Enabled(ss[j], acts[j]) && HasThread(ss[j + 1], t)
    ensures OldestRing(ss[i], t).sub != [] ==>
              Returned(ss[j], acts[j]) == Some(OldestRing(ss[i], t).sub[0]) && ss[j + 1].pcs[t].Idle?
    ensures OldestRing(ss[i], t).sub == [] ==> Returned(ss[j], acts[j]).None? && ss[j + 1].pcs[t].GetLoop?
  {
    StillPassed(n, ss, acts, t, i, j);
    assert StepAt(ss, acts, j);
    TakesNext(ss[j], acts[j], t);
  }
}
