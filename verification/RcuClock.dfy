/** When `reusable_time` can go down: exactly if there are two threads or more. */
module RcuClock {
  import opened Basics
  import opened Rcu
  import opened RcuRuns

  ghost predicate CanReach(n: nat, s: State) {
    exists ss, acts :: Run(n, ss, acts) && ss[|acts|] == s
  }

  lemma Reach(n: nat, s: State, a: Action)
    requires CanReach(n, s) && Enabled(s, a)
    ensures CanReach(n, Apply(s, a))
  {
    var ss, acts :| Run(n, ss, acts) && ss[|acts|] == s;
    var ss', acts' := ss + [Apply(s, a)], acts + [a];
    forall i | 0 <= i < |acts'|
      ensures StepAt(ss', acts', i)
    {
      assert i < |acts| ==> StepAt(ss, acts, i);
    }
    assert Run(n, ss', acts');
  }

  ghost predicate Falls(s: State, a: Action) {
    Enabled(s, a) && Apply(s, a).reusableTime < s.reusableTime
  }

  // -------------------------------------------------------------- a single thread

  /** What a lone thread has loaded, published or scanned is not older than `reusable_time`. */
  ghost predicate UpToDate(s: State, x: Slot, pc: Pc) {
    && (x.fixtime != NIL_TIME ==> s.reusableTime <= x.fixtime)
    && (pc.FixLoaded? ==> s.reusableTime <= pc.g)
    && (pc.Scanning? ==> s.reusableTime <= pc.cur <= s.globalTime
                         && (pc.i > 0 && x.fixtime != NIL_TIME ==> pc.cur <= x.fixtime))
  }

  ghost predicate Alone(s: State) {
    && Shaped(s) && |s.slots| <= 1 && s.reusableTime <= s.globalTime
    && forall t | 0 <= t < |s.slots| :: UpToDate(s, s.slots[t], s.pcs[t])
  }

  lemma AloneReader(s: State, a: ReaderAction)
    requires Alone(s) && EnabledReader(s, a)
    ensures Alone(ApplyReader(s, a)) && !Falls(s, Reader(a))
  {
  }

  lemma AloneClock(s: State, a: ClockAction)
    requires Alone(s) && EnabledClock(s, a)
    ensures Alone(ApplyClock(s, a)) && !Falls(s, Clock(a))
  {
    assert a.t == 0 && UpToDate(s, s.slots[0], s.pcs[0]);
  }

  lemma AloneRetire(s: State, a: RetireAction)
    requires Alone(s) && EnabledRetire(s, a)
    ensures Alone(ApplyRetire(s, a)) && !Falls(s, Retire(a))
  {
  }

  lemma AloneReuse(s: State, a: ReuseAction)
    requires Alone(s) && EnabledReuse(s, a)
    ensures Alone(ApplyReuse(s, a)) && !Falls(s, Reuse(a))
  {
  }

  lemma AloneStep(s: State, a: Action)
    requires Alone(s) && Enabled(s, a)
    ensures Alone(Apply(s, a)) && !Falls(s, a)
  {
    match a
    case Reader(x) => AloneReader(s, x);
    case Clock(x) => AloneClock(s, x);
    case Retire(x) => AloneRetire(s, x);
    case Reuse(x) => AloneReuse(s, x);
  }

  lemma {:induction false} AloneRun(n: nat, ss: seq<State>, acts: seq<Action>, i: nat)
    requires Run(n, ss, acts) && n <= 1 && i < |ss|
    ensures Alone(ss[i])
  {
    if i > 0 {
      AloneRun(n, ss, acts, i - 1);
      assert StepAt(ss, acts, i - 1);
      AloneStep(ss[i - 1], acts[i - 1]);
    }
  }

  /** With at most one thread `reusable_time` never goes down, over any stretch of any run. */
  lemma {:induction false} LoneClockRises(n: nat, ss: seq<State>, acts: seq<Action>, i: nat, j: nat)
    requires Run(n, ss, acts) && n <= 1 && i <= j < |ss|
    ensures ss[i].reusableTime <= ss[j].reusableTime
    decreases j
  {
    if i < j {
      LoneClockRises(n, ss, acts, i, j - 1);
      AloneRun(n, ss, acts, j - 1);
      assert StepAt(ss, acts, j - 1);
      AloneStep(ss[j - 1], acts[j - 1]);
    }
  }

  // ------------------------------------------------------------ two threads or more

  /** All but thread 0 are idle and unfixed at time `g`; thread 0 published `f`. */
  function Quiet(n: nat, g: nat, reusable: nat, f: nat, pc: Pc): State
    requires n >= 2
  {
    var s := InitState(n);
    s.(globalTime := g, reusableTime := reusable, slots := s.slots[0 := Slot(f, 0, None, [])], pcs := s.pcs[0 := pc])
  }

  /** Thread 1 holds the lock in such a state and is at `at`. */
  function Updating(n: nat, g: nat, reusable: nat, f: nat, pc: Pc, at: Pc): State
    requires n >= 2
  {
    var s := Quiet(n, g, reusable, f, pc);
    s.(globalTime := g + 1, holder := Some(1), pcs := s.pcs[1 := at])
  }

  function Oldest(g: nat, f: nat): nat { if f != NIL_TIME then f else g + 1 }

  lemma ReachLocked(n: nat, g: nat, reusable: nat, f: nat, pc: Pc)
    requires n >= 2 && CanReach(n, Quiet(n, g, reusable, f, pc)) && !IsOdd(g) && f <= g
    ensures CanReach(n, Updating(n, g, reusable, f, pc, Scanning(1, Oldest(g, f))))
  {
    var s0 := Quiet(n, g, reusable, f, pc);
    var s1 := s0.(pcs := s0.pcs[1 := LockLoaded(g, true)]);
    Reach(n, s0, Clock(LockLoad(1, true)));
    assert Apply(s0, Clock(LockLoad(1, true))) == s1;
    var s2 := Updating(n, g, reusable, f, pc, ScanInit);
    Reach(n, s1, Clock(LockCas(1, false)));
    assert Apply(s1, Clock(LockCas(1, false))) == s2;
    var s3 := Updating(n, g, reusable, f, pc, Scanning(0, g + 1));
    Reach(n, s2, Clock(ScanStart(1)));
    assert Apply(s2, Clock(ScanStart(1))) == s3;
    Reach(n, s3, Clock(ScanSlot(1)));
    assert Apply(s3, Clock(ScanSlot(1))) == Updating(n, g, reusable, f, pc, Scanning(1, Oldest(g, f)));
  }

  /** The scan passes the slots of the others. */
  lemma {:induction false} ReachScanned(n: nat, g: nat, reusable: nat, f: nat, pc: Pc, i: nat, m: nat)
    requires n >= 2 && 1 <= i <= n && CanReach(n, Updating(n, g, reusable, f, pc, Scanning(i, m)))
    ensures CanReach(n, Updating(n, g, reusable, f, pc, Scanning(n, m)))
    decreases n - i
  {
    if i < n {
      var s := Updating(n, g, reusable, f, pc, Scanning(i, m));
      Reach(n, s, Clock(ScanSlot(1)));
      assert Apply(s, Clock(ScanSlot(1))) == Updating(n, g, reusable, f, pc, Scanning(i + 1, m));
      ReachScanned(n, g, reusable, f, pc, i + 1, m);
    }
  }

  /** `update_reusable_time` by thread 1, up to its store. */
  lemma ReachStore(n: nat, g: nat, reusable: nat, f: nat, pc: Pc)
    requires n >= 2 && CanReach(n, Quiet(n, g, reusable, f, pc)) && !IsOdd(g) && f <= g
    ensures CanReach(n, Updating(n, g, reusable, f, pc, Scanning(n, Oldest(g, f))))
  {
    ReachLocked(n, g, reusable, f, pc);
    ReachScanned(n, g, reusable, f, pc, 1, Oldest(g, f));
  }

  lemma ReachUpdated(n: nat, g: nat, reusable: nat, f: nat, pc: Pc)
    requires n >= 2 && CanReach(n, Quiet(n, g, reusable, f, pc)) && !IsOdd(g) && f <= g
    ensures CanReach(n, Quiet(n, g + 2, Oldest(g, f), f, pc))
  {
    ReachStore(n, g, reusable, f, pc);
    var m := Oldest(g, f);
    var s0, s1 := Updating(n, g, reusable, f, pc, Scanning(n, m)), Updating(n, g, m, f, pc, ScanRelease);
    Reach(n, s0, Clock(ScanStore(1)));
    assert Apply(s0, Clock(ScanStore(1))) == s1;
    Reach(n, s1, Clock(ScanEnd(1)));
    assert Apply(s1, Clock(ScanEnd(1))) == Quiet(n, g + 2, m, f, pc);
  }

  /**
   A reader stopped between the two halves of `fix` lets `reusable_time` reach
   3 and then publishes the older time 2, to which the next update goes back.
   */
  lemma ReusableTimeCanDecrease(n: nat) returns (s: State, a: Action)
    requires n >= 2
    ensures CanReach(n, s) && Enabled(s, a) && s.reusableTime == 3 && Apply(s, a).reusableTime == 2
  {
    var s0 := InitState(n);
    assert Run(n, [s0], []) && CanReach(n, s0);
    var s1 := Quiet(n, 2, 2, 0, FixLoaded(2));
    Reach(n, s0, Reader(FixBegin(0)));
    assert Apply(s0, Reader(FixBegin(0))) == s1;
    ReachUpdated(n, 2, 2, 0, FixLoaded(2));
    var s2 := Quiet(n, 4, 3, 0, FixLoaded(2));
    Reach(n, s2, Reader(FixStore(0)));
    assert Apply(s2, Reader(FixStore(0))) == Quiet(n, 4, 3, 2, Idle);
    ReachStore(n, 4, 3, 2, Idle);
    s, a := Updating(n, 4, 3, 2, Idle, Scanning(n, 2)), Clock(ScanStore(1));
  }

  /** `reusable_time` goes down in some run if and only if there are two threads or more. */
  lemma FallsIff(n: nat)
    ensures (exists s, a :: CanReach(n, s) && Falls(s, a)) <==> n >= 2
  {
    if n >= 2 {
      var s, a := ReusableTimeCanDecrease(n);
      assert CanReach(n, s) && Falls(s, a);
    } else {
      forall s, a | CanReach(n, s) && Enabled(s, a)
        ensures !Falls(s, a)
      {
        var ss, acts :| Run(n, ss, acts) && ss[|acts|] == s;
        AloneRun(n, ss, acts, |acts|);
        AloneStep(s, a);
      }
    }
  }
}
