/** What the epoch protocol guarantees over whole runs. */
module RcuRuns {
  import opened Basics
  import opened Rcu
  import opened RcuProof

  ghost predicate StepAt(ss: seq<State>, acts: seq<Action>, i: nat)
    requires |ss| == |acts| + 1 && i < |acts|
  {
    Enabled(ss[i], acts[i]) && ss[i + 1] == Apply(ss[i], acts[i])
  }

  ghost predicate Run(n: nat, ss: seq<State>, acts: seq<Action>) {
    && |ss| == |acts| + 1
    && ss[0] == InitState(n)
    && forall i | 0 <= i < |acts| :: StepAt(ss, acts, i)
  }

  lemma {:induction false} ReachableInv(n: nat, ss: seq<State>, acts: seq<Action>, i: nat)
    requires Run(n, ss, acts) && i < |ss|
    ensures Inv(ss[i])
  {
    if i == 0 {
      InitInv(n);
    } else {
      ReachableInv(n, ss, acts, i - 1);
      assert StepAt(ss, acts, i - 1);
      StepInv(ss[i - 1], acts[i - 1]);
    }
  }

  // --------------------------------------------------------------- grace period

  /**
   How deep a thread is in nested sections, from the calls alone: a `fix` from outside
   counts when its store is done, a nested one at once, and a surplus `unfix` not at all.
   */
  ghost function Depth(acts: seq<Action>, u: Tid): nat {
    if acts == [] then 0 else DepthAfter(Depth(acts[..|acts| - 1], u), acts[|acts| - 1], u)
  }

  ghost function DepthAfter(d: nat, a: Action, u: Tid): nat {
    if a == Reader(FixStore(u)) || (a == Reader(FixBegin(u)) && d > 0) then d + 1
    else if a == Reader(Unfix(u)) && d > 0 then d - 1
    else d
  }

  /** The slot of a thread counts its sections. */
  ghost predicate Counts(x: Slot, d: nat) {
    if x.fixtime == NIL_TIME then d == 0 && x.nest == 0 else x.nest + 1 == d
  }

  /** What a slot says about sections, and what readers hold, are as they were. */
  ghost predicate SectionsKept(s: State, s': State, u: Tid) {
    && |s'.slots| == |s.slots| && s'.held == s.held
    && (u < |s.slots| ==> s'.slots[u].fixtime == s.slots[u].fixtime && s'.slots[u].nest == s.slots[u].nest)
  }

  lemma ClockKeepsSections(s: State, a: ClockAction, u: Tid)
    requires EnabledClock(s, a)
    ensures SectionsKept(s, ApplyClock(s, a), u)
  {
  }

  lemma RetireKeepsSections(s: State, a: RetireAction, u: Tid)
    requires EnabledRetire(s, a)
    ensures SectionsKept(s, ApplyRetire(s, a), u)
  {
  }

  lemma ReuseKeepsSections(s: State, a: ReuseAction, u: Tid)
    requires EnabledReuse(s, a)
    ensures SectionsKept(s, ApplyReuse(s, a), u)
  {
  }

  /** Only readers' actions touch them. */
  lemma OthersKeepSections(s: State, a: Action, u: Tid)
    requires Enabled(s, a) && !a.Reader?
    ensures SectionsKept(s, Apply(s, a), u)
  {
    match a
    case Clock(x) => ClockKeepsSections(s, x, u);
    case Retire(x) => RetireKeepsSections(s, x, u);
    case Reuse(x) => ReuseKeepsSections(s, x, u);
  }

  lemma CountReader(s: State, a: ReaderAction, u: Tid, d: nat)
    requires Shaped(s) && EnabledReader(s, a) && u < |s.slots| && Counts(s.slots[u], d)
    requires s.pcs[u].FixLoaded? ==> s.pcs[u].g != NIL_TIME && s.slots[u].fixtime == NIL_TIME
    ensures var s' := ApplyReader(s, a);
            |s'.slots| == |s.slots| && Counts(s'.slots[u], DepthAfter(d, Reader(a), u))
  {
  }

  lemma CountStep(s: State, a: Action, u: Tid, d: nat)
    requires Inv(s) && Enabled(s, a) && u < |s.slots| && Counts(s.slots[u], d)
    ensures |Apply(s, a).slots| == |s.slots| && Counts(Apply(s, a).slots[u], DepthAfter(d, a, u))
  {
    if a.Reader? {
      assert PcTime(s, s.pcs[u]);
      CountReader(s, a.ra, u, d);
    } else {
      OthersKeepSections(s, a, u);
    }
  }

  /** Over every run a thread is fixed exactly while it is in a section, and `nest` counts the inner ones. */
  lemma {:induction false} NestCounts(n: nat, ss: seq<State>, acts: seq<Action>, i: nat, u: Tid)
    requires Run(n, ss, acts) && i < |ss| && u < n
    ensures |ss[i].slots| == n && Counts(ss[i].slots[u], Depth(acts[..i], u))
  {
    if i > 0 {
      NestCounts(n, ss, acts, i - 1, u);
      ReachableInv(n, ss, acts, i - 1);
      assert StepAt(ss, acts, i - 1);
      assert acts[..i][..i - 1] == acts[..i - 1];
      CountStep(ss[i - 1], acts[i - 1], u, Depth(acts[..i - 1], u));
    }
  }

  predicate Obtains(a: Action, u: Tid, o: Obj) { a == Reader(Obtain(u, o)) }

  lemma HeldReader(s: State, a: ReaderAction, u: Tid, o: Obj, d: nat)
    requires Shaped(s) && EnabledReader(s, a) && u < |s.slots| && Counts(s.slots[u], d)
    requires DepthAfter(d, Reader(a), u) > 0 && (Holds(s.held, u, o) || Obtains(Reader(a), u, o))
    ensures Holds(ApplyReader(s, a).held, u, o)
  {
  }

  /** A step after which a reader is still in a section leaves it what it holds. */
  lemma HeldStep(s: State, a: Action, u: Tid, o: Obj, d: nat)
    requires Shaped(s) && Enabled(s, a) && u < |s.slots| && Counts(s.slots[u], d) && DepthAfter(d, a, u) > 0
    requires Holds(s.held, u, o) || Obtains(a, u, o)
    ensures Holds(Apply(s, a).held, u, o)
  {
    if a.Reader? {
      HeldReader(s, a.ra, u, o, d);
    } else {
      OthersKeepSections(s, a, u);
    }
  }

  /** A reader that obtained an object and has been in a section ever since still holds it. */
  lemma {:induction false} StillHeld(n: nat, ss: seq<State>, acts: seq<Action>, j: nat, i: nat, u: Tid, o: Obj)
    requires Run(n, ss, acts) && j < i <= |acts| && Obtains(acts[j], u, o)
    requires forall k | j < k <= i :: Depth(acts[..k], u) > 0
    ensures Holds(ss[i].held, u, o)
  {
    ObtainerExists(n, ss, acts, j, u, o);
    ReachableInv(n, ss, acts, i - 1);
    assert StepAt(ss, acts, i - 1);
    NestCounts(n, ss, acts, i - 1, u);
    assert acts[..i][..i - 1] == acts[..i - 1];
    if j < i - 1 {
      StillHeld(n, ss, acts, j, i - 1, u, o);
    }
    HeldStep(ss[i - 1], acts[i - 1], u, o, Depth(acts[..i - 1], u));
  }

  lemma ObtainerExists(n: nat, ss: seq<State>, acts: seq<Action>, j: nat, u: Tid, o: Obj)
    requires Run(n, ss, acts) && j < |acts| && Obtains(acts[j], u, o)
    ensures u < n
  {
    assert StepAt(ss, acts, j);
    if n > 0 {
      NestCounts(n, ss, acts, j, 0);
    } else {
      NoThreads(ss, acts, j);
    }
  }

  lemma {:induction false} NoThreads(ss: seq<State>, acts: seq<Action>, i: nat)
    requires Run(0, ss, acts) && i < |ss|
    ensures ss[i].slots == []
  {
    if i > 0 {
      NoThreads(ss, acts, i - 1);
      assert StepAt(ss, acts, i - 1);
    }
  }

  lemma NobodyHoldsReturned(s: State, a: Action, u: Tid, o: Obj)
    requires Inv(s) && Enabled(s, a) && Returned(s, a) == Some(o)
    ensures !Holds(s.held, u, o)
  {
    assert RingFree(s.rings, s.held, s.slots[a.ua.t].oldest.value);
  }

  /**
   Grace period.  When `get_reusable_item` hands out an object in any
   interleaving, every reader that ever obtained it has been outside of all
   its sections since.
   */
  lemma GracePeriod(n: nat, ss: seq<State>, acts: seq<Action>, j: nat, i: nat, u: Tid, o: Obj)
    requires Run(n, ss, acts) && j < i < |acts|
    requires Obtains(acts[j], u, o)
    requires StepAt(ss, acts, i) && Returned(ss[i], acts[i]) == Some(o)
    ensures Depth(acts[..j], u) > 0 && exists k | j < k <= i :: Depth(acts[..k], u) == 0
  {
    ObtainerExists(n, ss, acts, j, u, o);
    assert StepAt(ss, acts, j);
    NestCounts(n, ss, acts, j, u);
    ReachableInv(n, ss, acts, i);
    NobodyHoldsReturned(ss[i], acts[i], u, o);
    if forall k | j < k <= i :: Depth(acts[..k], u) > 0 {
      StillHeld(n, ss, acts, j, i, u, o);
    }
  }

  // --------------------------------------------------------------- conservation

  /** A registered object waits in exactly one list, once. */
  lemma OneList(n: nat, ss: seq<State>, acts: seq<Action>, i: nat, o: Obj)
    requires Run(n, ss, acts) && i < |ss|
    ensures Distinct(ss[i])
    ensures o in ss[i].home <==> exists p :: ListedIn(ss[i], o, p)
    ensures forall p, q | ListedIn(ss[i], o, p) && ListedIn(ss[i], o, q) :: p == q
  {
    ReachableInv(n, ss, acts, i);
  }

  predicate Registers(s: State, a: Action, o: Obj) {
    a.Retire? && a.ta.RegAttach? && HasThread(s, a.ta.t) && s.pcs[a.ta.t] == Attach(o)
  }

  ghost function Registrations(ss: seq<State>, acts: seq<Action>, o: Obj): nat
    requires |ss| == |acts| + 1
  {
    if acts == [] then 0
    else Registrations(ss[..|acts|], acts[..|acts| - 1], o)
         + if Registers(ss[|acts| - 1], acts[|acts| - 1], o) then 1 else 0
  }

  ghost function HandOuts(ss: seq<State>, acts: seq<Action>, o: Obj): nat
    requires |ss| == |acts| + 1
  {
    if acts == [] then 0
    else HandOuts(ss[..|acts|], acts[..|acts| - 1], o)
         + if Enabled(ss[|acts| - 1], acts[|acts| - 1])
           && Returned(ss[|acts| - 1], acts[|acts| - 1]) == Some(o) then 1 else 0
  }

  lemma HomeStep(s: State, a: Action, o: Obj)
    requires Homes(s) && Enabled(s, a)
    ensures Registers(s, a, o) ==> o !in s.home && o in Apply(s, a).home
    ensures Returned(s, a) == Some(o) ==> o in s.home && o !in Apply(s, a).home
    ensures !Registers(s, a, o) && Returned(s, a) != Some(o) ==> (o in Apply(s, a).home <==> o in s.home)
  {
    if a.Reuse? && a.ua.Take? && Returned(s, a).Some? {
      assert ListedIn(s, Returned(s, a).value, InRing(s.slots[a.ua.t].oldest.value));
    }
  }

  /** Conservation: what was registered was handed out exactly once, or still waits in a list. */
  lemma {:induction false} HandedOutOncePerRegistration(n: nat, ss: seq<State>, acts: seq<Action>, o: Obj)
    requires Run(n, ss, acts)
    ensures Registrations(ss, acts, o) == HandOuts(ss, acts, o) + if o in ss[|acts|].home then 1 else 0
  {
    if acts != [] {
      var m := |acts| - 1;
      var ss', acts' := ss[..|acts|], acts[..m];
      assert StepAt(ss, acts, m);
      forall i | 0 <= i < |acts'|
        ensures StepAt(ss', acts', i)
      {
        assert StepAt(ss, acts, i);
      }
      HandedOutOncePerRegistration(n, ss', acts', o);
      ReachableInv(n, ss, acts, m);
      HomeStep(ss[m], acts[m], o);
    }
  }
}
