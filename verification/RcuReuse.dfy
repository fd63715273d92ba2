/** What `aging` and `get_reusable_item` have done by the time they return. */
module RcuReuse {
  import opened Basics
  import opened Rcu
  import opened RcuProof
  import opened RcuRuns
  import opened RcuCalls

  // ------------------------------------------------------------ change_ring in aging

  /** The latest ring is still as it was: `change_ring` has not moved it. */
  ghost predicate Unmoved(pc: Pc) {
    pc == ChangeBegin(ToScan) || (pc.ChangeMove? && pc.k == ToScan)
  }

  /** `update_reusable_time`, from its lock to its release. */
  ghost predicate Updating(pc: Pc) {
    pc == LockEnter(true) || (pc.LockLoaded? && pc.scan) || InScan(pc)
  }

  /** A step that puts `moved` into a new ring with stamp `time` and the ring into the pool. */
  ghost predicate MovesTo(s: State, s': State, r: RingId, moved: seq<Obj>, time: nat) {
    r !in s.rings && r in s'.rings && r in s'.pool && s'.rings[r] == Ring(time, moved)
  }

  lemma UnmovedStep(s: State, a: Action, t: Tid)
    requires HasThread(s, t) && Enabled(s, a) && By(a, t) && Unmoved(s.pcs[t])
    ensures var s' := Apply(s, a);
            && HasThread(s', t)
            && if Unmoved(s'.pcs[t])
               then s'.slots[t].latest == s.slots[t].latest && s'.pcs[t] == ChangeMove(s.globalTime, ToScan)
               else Updating(s'.pcs[t]) && s'.slots[t].latest == []
                    && (s.slots[t].latest == []
                        || (s.pcs[t].ChangeMove? && exists r :: MovesTo(s, s', r, s.slots[t].latest, s.pcs[t].stamp)))
  {
    if s.pcs[t].ChangeMove? {
      assert MovesTo(s, Apply(s, a), a.ta.r, s.slots[t].latest, s.pcs[t].stamp);
    }
  }

  lemma {:induction false} TimeGrows(n: nat, ss: seq<State>, acts: seq<Action>, i: nat, j: nat)
    requires Run(n, ss, acts) && i <= j < |ss|
    ensures ss[i].globalTime <= ss[j].globalTime
    decreases j
  {
    if i < j {
      TimeGrows(n, ss, acts, i, j - 1);
      assert StepAt(ss, acts, j - 1);
      TimeStep(ss[j - 1], acts[j - 1]);
    }
  }

  lemma TimeStep(s: State, a: Action)
    requires Enabled(s, a)
    ensures s.globalTime <= Apply(s, a).globalTime
  {
    if !a.Clock? {
      OthersKeepTime(s, a);
    }
  }

  lemma OthersKeepTime(s: State, a: Action)
    requires Enabled(s, a) && !a.Clock?
    ensures Apply(s, a).globalTime == s.globalTime
  {
  }

  /** How often the lock was released. */
  ghost function Releases(acts: seq<Action>): nat {
    if acts == [] then 0 else Releases(acts[..|acts| - 1]) + if ReleasesLock(acts[|acts| - 1]) then 1 else 0
  }

  predicate ReleasesLock(a: Action) { a.Clock? && (a.ca.Release? || a.ca.ScanEnd?) }

  ghost function Held(s: State): nat { if s.holder.Some? then 1 else 0 }

  lemma ClockCounts(s: State, a: ClockAction)
    requires Control(s) && EnabledClock(s, a)
    ensures ApplyClock(s, a).globalTime + Held(s)
            == s.globalTime + Held(ApplyClock(s, a)) + if ReleasesLock(Clock(a)) then 2 else 0
  {
  }

  lemma OthersKeepLock(s: State, a: Action)
    requires Enabled(s, a) && !a.Clock?
    ensures Apply(s, a).holder == s.holder
  {
  }

  /** Over every run the global time counts two for every release of the lock, and one while it is held. */
  lemma {:induction false} TimeCounts(n: nat, ss: seq<State>, acts: seq<Action>, i: nat)
    requires Run(n, ss, acts) && i < |ss|
    ensures ss[i].globalTime == INIT_TIME + 2 * Releases(acts[..i]) + Held(ss[i])
  {
    if i > 0 {
      TimeCounts(n, ss, acts, i - 1);
      ReachableInv(n, ss, acts, i - 1);
      assert StepAt(ss, acts, i - 1);
      assert acts[..i][..i - 1] == acts[..i - 1];
      if acts[i - 1].Clock? {
        ClockCounts(ss[i - 1], acts[i - 1].ca);
      } else {
        OthersKeepTime(ss[i - 1], acts[i - 1]);
        OthersKeepLock(ss[i - 1], acts[i - 1]);
      }
    }
  }

  /** At step `k`, not before `b`, `moved` got a ring of its own, stamped with a time since `b`. */
  ghost predicate MovedAt(ss: seq<State>, b: nat, k: nat, r: RingId, moved: seq<Obj>) {
    && b <= k && k + 1 < |ss| && r in ss[k + 1].rings
    && MovesTo(ss[k], ss[k + 1], r, moved, ss[k + 1].rings[r].removeTime)
    && ss[b].globalTime <= ss[k + 1].rings[r].removeTime <= ss[k].globalTime
  }

  /** How far `aging` is at state `i`. */
  ghost predicate AgePhase(ss: seq<State>, t: Tid, moved: seq<Obj>, b: nat, i: nat)
    requires b < i < |ss| && HasThread(ss[i], t)
  {
    var pc, latest := ss[i].pcs[t], ss[i].slots[t].latest;
    || (&& Unmoved(pc) && latest == moved
        && (pc.ChangeMove? ==> ss[b].globalTime <= pc.stamp <= ss[i].globalTime))
    || (Updating(pc) && latest == [] && WasMoved(ss, moved, b, i))
  }

  ghost predicate WasMoved(ss: seq<State>, moved: seq<Obj>, b: nat, i: nat) {
    moved == [] || exists k: nat, r | k < i :: MovedAt(ss, b, k, r, moved)
  }

  lemma WasMovedLater(ss: seq<State>, moved: seq<Obj>, b: nat, i: nat)
    requires WasMoved(ss, moved, b, i)
    ensures WasMoved(ss, moved, b, i + 1)
  {
    if moved != [] {
      var k: nat, r :| k < i && MovedAt(ss, b, k, r, moved);
      assert k < i + 1 && MovedAt(ss, b, k, r, moved);
    }
  }

  /** `update_reusable_time` ends with its release, or without the lock. */
  ghost predicate GaveUp(s: State, a: Action, t: Tid)
    requires HasThread(s, t)
  {
    && a == Clock(LockCas(t, false)) && s.pcs[t].LockLoaded?
    && (IsOdd(s.pcs[t].prev) || s.globalTime != s.pcs[t].prev)
  }

  lemma UpdatingStep(s: State, a: Action, t: Tid)
    requires HasThread(s, t) && Enabled(s, a) && By(a, t) && Updating(s.pcs[t])
    ensures var s' := Apply(s, a);
            && HasThread(s', t) && s'.slots[t].latest == s.slots[t].latest
            && if s'.pcs[t].Idle? then GaveUp(s, a, t) || (a == Clock(ScanEnd(t)) && s.pcs[t].ScanRelease?)
               else Updating(s'.pcs[t])
  {
  }

  lemma BeginsAging(s: State, t: Tid)
    requires HasThread(s, t) && EnabledRetire(s, AgeBegin(t))
    ensures var s' := ApplyRetire(s, AgeBegin(t));
            HasThread(s', t) && s'.pcs[t] == ChangeBegin(ToScan) && s'.slots[t].latest == s.slots[t].latest
  {
  }

  lemma AgeStep(n: nat, ss: seq<State>, acts: seq<Action>, t: Tid, moved: seq<Obj>, b: nat, i: nat)
    requires Run(n, ss, acts) && t < n && b < i < |acts| && HasThread(ss[i], t) && AgePhase(ss, t, moved, b, i)
    ensures HasThread(ss[i + 1], t)
    ensures !ss[i + 1].pcs[t].Idle? ==> AgePhase(ss, t, moved, b, i + 1)
    ensures ss[i + 1].pcs[t].Idle? ==>
              && By(acts[i], t) && ss[i + 1].slots[t].latest == [] && WasMoved(ss, moved, b, i)
              && (GaveUp(ss[i], acts[i], t) || (acts[i] == Clock(ScanEnd(t)) && ss[i].pcs[t].ScanRelease?))
  {
    TimeGrows(n, ss, acts, b, i);
    TimeGrows(n, ss, acts, i, i + 1);
    if !By(acts[i], t) {
      OtherAt(n, ss, acts, i, t);
      if Updating(ss[i].pcs[t]) { WasMovedLater(ss, moved, b, i); }
    } else if Unmoved(ss[i].pcs[t]) {
      UnmovedAt(ss, acts, t, moved, b, i);
    } else {
      assert StepAt(ss, acts, i);
      UpdatingStep(ss[i], acts[i], t);
      WasMovedLater(ss, moved, b, i);
    }
  }

  lemma UnmovedAt(ss: seq<State>, acts: seq<Action>, t: Tid, moved: seq<Obj>, b: nat, i: nat)
    requires |ss| == |acts| + 1 && b < i < |acts| && StepAt(ss, acts, i) && By(acts[i], t)
    requires HasThread(ss[i], t) && AgePhase(ss, t, moved, b, i) && Unmoved(ss[i].pcs[t])
    requires ss[b].globalTime <= ss[i].globalTime <= ss[i + 1].globalTime
    ensures HasThread(ss[i + 1], t) && !ss[i + 1].pcs[t].Idle? && AgePhase(ss, t, moved, b, i + 1)
  {
    UnmovedStep(ss[i], acts[i], t);
    if !Unmoved(ss[i + 1].pcs[t]) && moved != [] {
      var r :| MovesTo(ss[i], ss[i + 1], r, moved, ss[i].pcs[t].stamp);
      assert MovedAt(ss, b, i, r, moved);
    }
  }

  lemma {:induction false} AgePending(n: nat, ss: seq<State>, acts: seq<Action>, t: Tid, b: nat, e: nat, i: nat)
    requires Call(n, ss, acts, t, b, e) && acts[b] == Retire(AgeBegin(t)) && b < i < e
    ensures HasThread(ss[b], t) && HasThread(ss[i], t) && AgePhase(ss, t, ss[b].slots[t].latest, b, i)
  {
    ThreadAt(n, ss, acts, b, t);
    if b + 1 < i {
      AgePending(n, ss, acts, t, b, e, i - 1);
      AgeStep(n, ss, acts, t, ss[b].slots[t].latest, b, i - 1);
    } else {
      assert StepAt(ss, acts, b);
      BeginsAging(ss[b], t);
    }
  }

  /**
   `aging`: when it returns, what the thread had registered is in a ring of its own,
   stamped with a global time of the call, and either the scan was done or the lock was
   not free.
   */
  lemma AgingReturns(n: nat, ss: seq<State>, acts: seq<Action>, t: Tid, b: nat, e: nat)
    requires Call(n, ss, acts, t, b, e) && acts[b] == Retire(AgeBegin(t))
    ensures b + 1 < e && HasThread(ss[b], t) && HasThread(ss[e - 1], t)
    ensures ss[e].slots[t].latest == [] && WasMoved(ss, ss[b].slots[t].latest, b, e)
    ensures GaveUp(ss[e - 1], acts[e - 1], t) || (acts[e - 1] == Clock(ScanEnd(t)) && ss[e - 1].pcs[t].ScanRelease?)
  {
    ThreadAt(n, ss, acts, b, t);
    assert StepAt(ss, acts, b);
    BeginsAging(ss[b], t);
    AgePending(n, ss, acts, t, b, e, e - 1);
    AgeStep(n, ss, acts, t, ss[b].slots[t].latest, b, e - 1);
    WasMovedLater(ss, ss[b].slots[t].latest, b, e - 1);
  }

  // ----------------------------------------------------------------------- the scan

  /** The least of a time and of the published ones among `fs`. */
  ghost predicate IsLeast(v: nat, g: nat, fs: seq<nat>) {
    && v <= g && (v == g || v in fs) && (forall i | 0 <= i < |fs| && fs[i] != NIL_TIME :: v <= fs[i])
    && (g != NIL_TIME ==> v != NIL_TIME)
  }

  lemma LeastGrows(v: nat, g: nat, fs: seq<nat>, f: nat)
    requires IsLeast(v, g, fs)
    ensures IsLeast(if f != NIL_TIME && f < v then f else v, g, fs + [f])
  {
    var w := if f != NIL_TIME && f < v then f else v;
    assert f in fs + [f];
    assert v in fs ==> v in fs + [f];
  }

  /** Slot `j` was read at step `at[j]`, all since `b` and before `i`. */
  ghost predicate ReadAt(ss: seq<State>, b: nat, i: nat, at: seq<nat>) {
    forall j | 0 <= j < |at| :: b <= at[j] < i < |ss| && j < |ss[at[j]].slots|
  }

  ghost function FixTimes(ss: seq<State>, b: nat, i: nat, at: seq<nat>): seq<nat>
    requires ReadAt(ss, b, i, at)
  {
    seq(|at|, j requires 0 <= j < |at| => ss[at[j]].slots[j].fixtime)
  }

  /** `v` is the least of the global time and the times of the first `k` slots, each read at some point since `b`. */
  ghost predicate ScanOf(ss: seq<State>, b: nat, i: nat, k: nat, v: nat) {
    exists g, at :: ScanBy(ss, b, i, k, v, g, at)
  }

  ghost predicate ScanBy(ss: seq<State>, b: nat, i: nat, k: nat, v: nat, g: nat, at: seq<nat>) {
    && b < i < |ss| && |at| == k && ss[b].globalTime <= g <= ss[i].globalTime
    && ReadAt(ss, b, i, at) && IsLeast(v, g, FixTimes(ss, b, i, at))
  }

  lemma ScanLater(ss: seq<State>, b: nat, i: nat, k: nat, v: nat)
    requires ScanOf(ss, b, i, k, v) && i + 1 < |ss| && ss[i].globalTime <= ss[i + 1].globalTime
    ensures ScanOf(ss, b, i + 1, k, v)
  {
    var g, at :| ScanBy(ss, b, i, k, v, g, at);
    assert FixTimes(ss, b, i + 1, at) == FixTimes(ss, b, i, at);
    assert ScanBy(ss, b, i + 1, k, v, g, at);
  }

  lemma ScanGrows(ss: seq<State>, b: nat, i: nat, k: nat, v: nat)
    requires ScanOf(ss, b, i, k, v) && i + 1 < |ss| && ss[i].globalTime <= ss[i + 1].globalTime && k < |ss[i].slots|
    ensures var f := ss[i].slots[k].fixtime; ScanOf(ss, b, i + 1, k + 1, if f != NIL_TIME && f < v then f else v)
  {
    var g, at :| ScanBy(ss, b, i, k, v, g, at);
    var at' := at + [i];
    var f := ss[i].slots[k].fixtime;
    assert FixTimes(ss, b, i + 1, at') == FixTimes(ss, b, i, at) + [f];
    LeastGrows(v, g, FixTimes(ss, b, i, at), f);
    assert ScanBy(ss, b, i + 1, k + 1, if f != NIL_TIME && f < v then f else v, g, at');
  }

  /** How a scan comes to where it is. */
  ghost predicate ScansOn(s: State, t: Tid, pc: Pc, pc': Pc)
    requires pc'.Scanning?
  {
    || (pc.ScanInit? && pc' == Scanning(0, s.globalTime))
    || (&& pc.Scanning? && pc.i < |s.slots| && pc'.i == pc.i + 1
        && var f := s.slots[pc.i].fixtime; pc'.cur == if f != NIL_TIME && f < pc.cur then f else pc.cur)
  }

  lemma ScanningClock(s: State, a: ClockAction, t: Tid)
    requires HasThread(s, t) && EnabledClock(s, a) && a.t == t
    ensures var s' := ApplyClock(s, a);
            HasThread(s', t) && (s'.pcs[t].Scanning? ==> ScansOn(s, t, s.pcs[t], s'.pcs[t]))
  {
  }

  lemma OthersDoNotScan(s: State, a: Action, t: Tid)
    requires HasThread(s, t) && Enabled(s, a) && By(a, t) && !a.Clock?
    ensures HasThread(Apply(s, a), t) && !Apply(s, a).pcs[t].Scanning?
  {
    match a
    case Reader(x) =>
    case Retire(x) => RetireDoesNotScan(s, x, t);
    case Reuse(x) => ReuseDoesNotScan(s, x, t);
  }

  lemma RetireDoesNotScan(s: State, a: RetireAction, t: Tid)
    requires HasThread(s, t) && EnabledRetire(s, a) && a.t == t
    ensures HasThread(ApplyRetire(s, a), t) && !ApplyRetire(s, a).pcs[t].Scanning?
  {
  }

  lemma ReuseDoesNotScan(s: State, a: ReuseAction, t: Tid)
    requires HasThread(s, t) && EnabledReuse(s, a) && a.t == t
    ensures HasThread(ApplyReuse(s, a), t) && !ApplyReuse(s, a).pcs[t].Scanning?
  {
  }

  lemma ScanningStep(s: State, a: Action, t: Tid)
    requires HasThread(s, t) && Enabled(s, a) && By(a, t)
    ensures var s' := Apply(s, a);
            HasThread(s', t) && (s'.pcs[t].Scanning? ==> ScansOn(s, t, s.pcs[t], s'.pcs[t]))
  {
    if a.Clock? {
      ScanningClock(s, a.ca, t);
    } else {
      OthersDoNotScan(s, a, t);
    }
  }

  lemma ScanningAt(n: nat, ss: seq<State>, acts: seq<Action>, t: Tid, i: nat)
    requires Run(n, ss, acts) && i < |acts| && HasThread(ss[i], t) && By(acts[i], t)
    ensures HasThread(ss[i + 1], t)
    ensures ss[i + 1].pcs[t].Scanning? ==> ScansOn(ss[i], t, ss[i].pcs[t], ss[i + 1].pcs[t])
  {
    assert StepAt(ss, acts, i);
    ScanningStep(ss[i], acts[i], t);
  }

  lemma AgingBegun(n: nat, ss: seq<State>, acts: seq<Action>, t: Tid, b: nat)
    requires Run(n, ss, acts) && t < n && b < |acts| && acts[b] == Retire(AgeBegin(t))
    ensures HasThread(ss[b], t) && HasThread(ss[b + 1], t) && ss[b + 1].pcs[t] == ChangeBegin(ToScan)
  {
    ThreadAt(n, ss, acts, b, t);
    assert StepAt(ss, acts, b);
    BeginsAging(ss[b], t);
  }

  /** What a scan under way has computed. */
  lemma {:induction false} ScanSoFar(n: nat, ss: seq<State>, acts: seq<Action>, t: Tid, b: nat, e: nat, i: nat)
    requires Call(n, ss, acts, t, b, e) && acts[b] == Retire(AgeBegin(t)) && b < i < e
    requires HasThread(ss[i], t) && ss[i].pcs[t].Scanning?
    ensures b + 1 < i && ScanOf(ss, b, i, ss[i].pcs[t].i, ss[i].pcs[t].cur)
  {
    AgingBegun(n, ss, acts, t, b);
    ThreadAt(n, ss, acts, i - 1, t);
    TimeGrows(n, ss, acts, b, i - 1);
    TimeGrows(n, ss, acts, i - 1, i);
    if By(acts[i - 1], t) {
      ScanningAt(n, ss, acts, t, i - 1);
      if ss[i - 1].pcs[t].ScanInit? {
        assert ScanBy(ss, b, i, 0, ss[i].pcs[t].cur, ss[i - 1].globalTime, []);
      } else {
        ScanSoFar(n, ss, acts, t, b, e, i - 1);
        ScanGrows(ss, b, i - 1, ss[i - 1].pcs[t].i, ss[i - 1].pcs[t].cur);
      }
    } else {
      OtherAt(n, ss, acts, i - 1, t);
      ScanSoFar(n, ss, acts, t, b, e, i - 1);
      ScanLater(ss, b, i - 1, ss[i].pcs[t].i, ss[i].pcs[t].cur);
    }
  }

  lemma ReleasingStep(s: State, a: Action, t: Tid)
    requires HasThread(s, t) && Enabled(s, a) && By(a, t) && Updating(s.pcs[t])
    ensures var s' := Apply(s, a);
            && HasThread(s', t)
            && (s'.pcs[t].ScanRelease? ==>
                  s.pcs[t].Scanning? && s.pcs[t].i == |s.slots| && s'.reusableTime == s.pcs[t].cur)
  {
  }

  /** The store of the scan. */
  ghost predicate StoredAt(ss: seq<State>, b: nat, k: nat) {
    b < k && k + 1 < |ss| && ScanOf(ss, b, k, |ss[k].slots|, ss[k + 1].reusableTime)
  }

  lemma {:induction false} ScanStored(n: nat, ss: seq<State>, acts: seq<Action>, t: Tid, b: nat, e: nat, i: nat)
    returns (k: nat)
    requires Call(n, ss, acts, t, b, e) && acts[b] == Retire(AgeBegin(t)) && b < i < e
    requires HasThread(ss[i], t) && ss[i].pcs[t].ScanRelease?
    ensures k < i && acts[k] == Clock(ScanStore(t)) && StoredAt(ss, b, k)
  {
    AgingBegun(n, ss, acts, t, b);
    AgePending(n, ss, acts, t, b, e, i - 1);
    if By(acts[i - 1], t) {
      StoresAt(n, ss, acts, t, b, i - 1);
      ScanSoFar(n, ss, acts, t, b, e, i - 1);
      k := i - 1;
    } else {
      OtherAt(n, ss, acts, i - 1, t);
      k := ScanStored(n, ss, acts, t, b, e, i - 1);
    }
  }

  lemma StoresAt(n: nat, ss: seq<State>, acts: seq<Action>, t: Tid, b: nat, i: nat)
    requires Run(n, ss, acts) && b < i < |acts| && By(acts[i], t)
    requires HasThread(ss[i], t) && HasThread(ss[i + 1], t) && ss[i + 1].pcs[t].ScanRelease?
    requires Unmoved(ss[i].pcs[t]) || Updating(ss[i].pcs[t])
    ensures acts[i] == Clock(ScanStore(t)) && ss[i].pcs[t].Scanning? && ss[i].pcs[t].i == |ss[i].slots|
    ensures ss[i + 1].reusableTime == ss[i].pcs[t].cur
  {
    assert StepAt(ss, acts, i);
    if Unmoved(ss[i].pcs[t]) {
      UnmovedStep(ss[i], acts[i], t);
    } else {
      ReleasingStep(ss[i], acts[i], t);
    }
  }

  /**
   `aging` that got the lock has stored as `reusable_time` the least of the global time
   and of the times in all slots, each read once during the call.
   */
  lemma AgingUpdates(n: nat, ss: seq<State>, acts: seq<Action>, t: Tid, b: nat, e: nat)
    requires Call(n, ss, acts, t, b, e) && acts[b] == Retire(AgeBegin(t))
    ensures b < e - 1 && HasThread(ss[e - 1], t)
    ensures GaveUp(ss[e - 1], acts[e - 1], t)
            || exists k | b < k < e :: acts[k] == Clock(ScanStore(t)) && StoredAt(ss, b, k)
  {
    AgingReturns(n, ss, acts, t, b, e);
    if !GaveUp(ss[e - 1], acts[e - 1], t) {
      var k := ScanStored(n, ss, acts, t, b, e, e - 1);
      assert b < k < e;
    }
  }
}
