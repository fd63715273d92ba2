/**
 The epoch protocol of `ywRcuRef`: readers publish the time at which they
 entered, removed objects wait in rings stamped with the global time, and a
 ring's objects are reused once `reusable_time` has passed its stamp.

 The protocol is a transition system over an arbitrary number of threads.  One
 action is one access to shared state, so `fix` is a load followed by a store,
 `change_ring` stamps a ring before it moves objects into it, and the slot scan
 of `update_reusable_time` reads one slot per action.
 */
module Rcu {
  import opened Basics

  type Tid = nat
  type Obj = nat
  type RingId = nat

  const NIL_TIME: nat := 0
  const INIT_TIME: nat := 2
  /** `init_ring` stores -1 in an unsigned 64-bit field. */
  const NEVER: nat := 0xFFFF_FFFF_FFFF_FFFF

  datatype Ring = Ring(removeTime: nat, sub: seq<Obj>)

  datatype Slot = Slot(fixtime: nat, nest: nat, oldest: Option<RingId>, latest: seq<Obj>)

  /** Where control continues after `change_ring` returns. */
  datatype Cont = ToAttach(o: Obj) | ToSecondPop | ToScan

  datatype Pc =
    | Idle
    | FixLoaded(g: nat)
    | LockEnter(scan: bool)
    | LockLoaded(prev: nat, scan: bool)
    | ScanInit
    | Scanning(i: nat, cur: nat)
    | ScanRelease
    | Attach(o: Obj)
    | ChangeBegin(k: Cont)
    | ChangeMove(stamp: nat, k: Cont)
    | GetLoop
    | SecondPop
    | GetCheck
    | GetCheckAgain
    | GetTake

  /** The list a registered object waits in. */
  datatype Place = Latest(t: Tid) | InRing(r: RingId)

  /**
   `linked`, `held` and `home` do not exist in the program: which objects a
   newcomer can reach, which objects each reader has obtained since it became
   fixed, and the list each registered object was put into.
   */
  datatype State = State(
    globalTime: nat,
    reusableTime: nat,
    holder: Option<Tid>,
    slots: seq<Slot>,
    pcs: seq<Pc>,
    rings: map<RingId, Ring>,
    pool: set<RingId>,
    linked: set<Obj>,
    held: seq<set<Obj>>,
    home: map<Obj, Place>)

  datatype ReaderAction =
    | Link(o: Obj)
    | Unlink(o: Obj)
    | Obtain(t: Tid, o: Obj)
    | FixBegin(t: Tid)
    | FixStore(t: Tid)
    | Unfix(t: Tid)

  /** `lock`, `release` and, after its lock, `update_reusable_time`. */
  datatype ClockAction =
    | LockLoad(t: Tid, scan: bool)
    | LockCas(t: Tid, retry: bool)
    | Release(t: Tid)
    | ScanStart(t: Tid)
    | ScanSlot(t: Tid)
    | ScanStore(t: Tid)
    | ScanEnd(t: Tid)

  /** `regist_free_obj`, `aging` and `change_ring`. */
  datatype RetireAction =
    | RegBegin(t: Tid, o: Obj)
    | RegAttach(t: Tid)
    | AgeBegin(t: Tid)
    | Stamp(t: Tid)
    | Move(t: Tid, r: RingId)

  /** `get_reusable_item`. */
  datatype ReuseAction =
    | GetBegin(t: Tid)
    | PopRing(t: Tid, r: RingId)
    | PopNull(t: Tid)
    | Check(t: Tid)
    | Take(t: Tid)

  datatype Action =
    | Reader(ra: ReaderAction)
    | Clock(ca: ClockAction)
    | Retire(ta: RetireAction)
    | Reuse(ua: ReuseAction)

  function InitState(n: nat): State {
    State(INIT_TIME, INIT_TIME, None,
          seq(n, _ => Slot(NIL_TIME, 0, None, [])), seq(n, _ => Idle),
          map[], {}, {}, seq(n, _ => {}), map[])
  }

  // ---------------------------------------------------------------- actions

  function SetPc(s: State, t: Tid, pc: Pc): State
    requires t < |s.pcs|
  {
    s.(pcs := s.pcs[t := pc])
  }

  function SetSlot(s: State, t: Tid, x: Slot): State
    requires t < |s.slots|
  {
    s.(slots := s.slots[t := x])
  }

  /** `aging` goes on to the lock of `update_reusable_time`. */
  function Resume(k: Cont): Pc {
    match k
    case ToAttach(o) => Attach(o)
    case ToSecondPop => SecondPop
    case ToScan => LockEnter(true)
  }

  predicate Shaped(s: State) {
    |s.slots| == |s.pcs| == |s.held|
  }

  predicate HasThread(s: State, t: Tid) { Shaped(s) && t < |s.slots| }

  /**
   When an action may happen.  The conditions on `linked` and `home` are the
   clients' obligations: an object is made reachable or registered only while
   no list holds it, and what a thread has registered is unreachable for
   newcomers by the time its ring is stamped.
   */
  predicate EnabledReader(s: State, a: ReaderAction) {
    match a
    case Link(o) => o !in s.home
    case Unlink(o) => o in s.linked
    case Obtain(t, o) => HasThread(s, t) && s.pcs[t].Idle? && s.slots[t].fixtime != NIL_TIME && o in s.linked
    case FixBegin(t) => HasThread(s, t) && s.pcs[t].Idle?
    case FixStore(t) => HasThread(s, t) && s.pcs[t].FixLoaded?
    case Unfix(t) => HasThread(s, t) && s.pcs[t].Idle?
  }

  predicate EnabledClock(s: State, a: ClockAction) {
    match a
    case LockLoad(t, scan) => HasThread(s, t) && (s.pcs[t].Idle? || s.pcs[t] == LockEnter(scan))
    case LockCas(t, retry) => HasThread(s, t) && s.pcs[t].LockLoaded?
    case Release(t) => HasThread(s, t) && s.pcs[t].Idle? && s.holder == Some(t)
    case ScanStart(t) => HasThread(s, t) && s.pcs[t].ScanInit?
    case ScanSlot(t) => HasThread(s, t) && s.pcs[t].Scanning? && s.pcs[t].i < |s.slots|
    case ScanStore(t) => HasThread(s, t) && s.pcs[t].Scanning? && s.pcs[t].i == |s.slots|
    case ScanEnd(t) => HasThread(s, t) && s.pcs[t].ScanRelease?
  }

  predicate EnabledRetire(s: State, a: RetireAction) {
    match a
    case RegBegin(t, o) => HasThread(s, t) && s.pcs[t].Idle?
    case RegAttach(t) => HasThread(s, t) && s.pcs[t].Attach? && s.pcs[t].o !in s.home
    case AgeBegin(t) => HasThread(s, t) && s.pcs[t].Idle?
    case Stamp(t) => HasThread(s, t) && s.pcs[t].ChangeBegin? && (forall o | o in s.slots[t].latest :: o !in s.linked)
    case Move(t, r) => HasThread(s, t) && s.pcs[t].ChangeMove? && r !in s.rings
  }

  predicate EnabledReuse(s: State, a: ReuseAction) {
    match a
    case GetBegin(t) => HasThread(s, t) && s.pcs[t].Idle?
    case PopRing(t, r) =>
      HasThread(s, t) && (s.pcs[t].GetLoop? || s.pcs[t].SecondPop?) && s.slots[t].oldest.None? && r in s.pool
    case PopNull(t) => HasThread(s, t) && (s.pcs[t].GetLoop? || s.pcs[t].SecondPop?) && s.slots[t].oldest.None?
    case Check(t) =>
      HasThread(s, t) && (s.pcs[t].GetLoop? || s.pcs[t].GetCheck? || s.pcs[t].GetCheckAgain?)
      && s.slots[t].oldest.Some? && s.slots[t].oldest.value in s.rings
    case Take(t) => HasThread(s, t) && s.pcs[t].GetTake? && s.slots[t].oldest.Some?
                    && s.slots[t].oldest.value in s.rings
  }

  predicate Enabled(s: State, a: Action) {
    match a
    case Reader(x) => EnabledReader(s, x)
    case Clock(x) => EnabledClock(s, x)
    case Retire(x) => EnabledRetire(s, x)
    case Reuse(x) => EnabledReuse(s, x)
  }

  function DoFixBegin(s: State, t: Tid): State
    requires HasThread(s, t)
  {
    var x := s.slots[t];
    if x.fixtime != NIL_TIME then SetSlot(s, t, x.(nest := x.nest + 1))
    else SetPc(s, t, FixLoaded(s.globalTime))
  }

  function DoUnfix(s: State, t: Tid): State
    requires HasThread(s, t)
  {
    var x := s.slots[t];
    if x.nest == 0 then SetSlot(s, t, x.(fixtime := NIL_TIME)).(held := s.held[t := {}])
    else SetSlot(s, t, x.(nest := x.nest - 1))
  }

  function DoLockCas(s: State, t: Tid, retry: bool): State
    requires HasThread(s, t) && s.pcs[t].LockLoaded?
  {
    var pc := s.pcs[t];
    if !IsOdd(pc.prev) && s.globalTime == pc.prev then
      SetPc(s, t, if pc.scan then ScanInit else Idle).(globalTime := pc.prev + 1, holder := Some(t))
    else
      SetPc(s, t, if retry then LockEnter(pc.scan) else Idle)
  }

  function DoScanSlot(s: State, t: Tid): State
    requires HasThread(s, t) && s.pcs[t].Scanning? && s.pcs[t].i < |s.slots|
  {
    var pc := s.pcs[t];
    var f := s.slots[pc.i].fixtime;
    SetPc(s, t, Scanning(pc.i + 1, if f != NIL_TIME && f < pc.cur then f else pc.cur))
  }

  function DoRegBegin(s: State, t: Tid, o: Obj): State
    requires HasThread(s, t)
  {
    // latest_ring.remove_time is only ever written by init_ring
    SetPc(s, t, if NEVER < s.globalTime then ChangeBegin(ToAttach(o)) else Attach(o))
  }

  function DoRegAttach(s: State, t: Tid): State
    requires HasThread(s, t) && s.pcs[t].Attach?
  {
    var o := s.pcs[t].o;
    SetPc(SetSlot(s, t, s.slots[t].(latest := [o] + s.slots[t].latest)), t, Idle)
    .(home := s.home[o := Latest(t)])
  }

  function DoStamp(s: State, t: Tid): State
    requires HasThread(s, t) && s.pcs[t].ChangeBegin?
  {
    var k := s.pcs[t].k;
    SetPc(s, t, if s.slots[t].latest == [] then Resume(k) else ChangeMove(s.globalTime, k))
  }

  function Rehomed(home: map<Obj, Place>, moved: seq<Obj>, p: Place): map<Obj, Place> {
    map o | o in home :: if o in moved then p else home[o]
  }

  function DoMove(s: State, t: Tid, r: RingId): State
    requires HasThread(s, t) && s.pcs[t].ChangeMove?
  {
    var x := s.slots[t];
    SetPc(SetSlot(s, t, x.(latest := [])), t, Resume(s.pcs[t].k))
    .(rings := s.rings[r := Ring(s.pcs[t].stamp, x.latest)],
      pool := s.pool + {r},
      home := Rehomed(s.home, x.latest, InRing(r)))
  }

  function DoPopNull(s: State, t: Tid): State
    requires HasThread(s, t)
  {
    SetPc(s, t, if s.pcs[t].GetLoop? then ChangeBegin(ToSecondPop) else Idle)
  }

  /** The two reads of `reusable_time` in `is_reusable`. */
  function DoCheck(s: State, t: Tid): State
    requires HasThread(s, t) && s.slots[t].oldest.Some? && s.slots[t].oldest.value in s.rings
  {
    SetPc(s, t,
      if s.reusableTime > s.rings[s.slots[t].oldest.value].removeTime then GetTake
      else if s.pcs[t].GetCheckAgain? then Idle
      else GetCheckAgain)
  }

  function DoTake(s: State, t: Tid): State
    requires HasThread(s, t) && s.slots[t].oldest.Some? && s.slots[t].oldest.value in s.rings
  {
    var r := s.slots[t].oldest.value;
    var ring := s.rings[r];
    if ring.sub != [] then
      SetPc(s, t, Idle).(rings := s.rings[r := ring.(sub := ring.sub[1..])], home := s.home - {ring.sub[0]})
    else
      SetPc(SetSlot(s, t, s.slots[t].(oldest := None)), t, GetLoop).(rings := s.rings - {r})
  }

  function ApplyReader(s: State, a: ReaderAction): State
    requires EnabledReader(s, a)
  {
    match a
    case Link(o) => s.(linked := s.linked + {o})
    case Unlink(o) => s.(linked := s.linked - {o})
    case Obtain(t, o) => s.(held := s.held[t := s.held[t] + {o}])
    case FixBegin(t) => DoFixBegin(s, t)
    case FixStore(t) => SetPc(SetSlot(s, t, s.slots[t].(fixtime := s.pcs[t].g)), t, Idle)
    case Unfix(t) => DoUnfix(s, t)
  }

  function ApplyClock(s: State, a: ClockAction): State
    requires EnabledClock(s, a)
  {
    match a
    case LockLoad(t, scan) => SetPc(s, t, LockLoaded(s.globalTime, scan))
    case LockCas(t, retry) => DoLockCas(s, t, retry)
    case Release(t) => s.(globalTime := s.globalTime + 1, holder := None)
    case ScanStart(t) => SetPc(s, t, Scanning(0, s.globalTime))
    case ScanSlot(t) => DoScanSlot(s, t)
    case ScanStore(t) => SetPc(s, t, ScanRelease).(reusableTime := s.pcs[t].cur)
    case ScanEnd(t) => SetPc(s, t, Idle).(globalTime := s.globalTime + 1, holder := None)
  }

  function ApplyRetire(s: State, a: RetireAction): State
    requires EnabledRetire(s, a)
  {
    match a
    case RegBegin(t, o) => DoRegBegin(s, t, o)
    case RegAttach(t) => DoRegAttach(s, t)
    case AgeBegin(t) => SetPc(s, t, ChangeBegin(ToScan))
    case Stamp(t) => DoStamp(s, t)
    case Move(t, r) => DoMove(s, t, r)
  }

  function ApplyReuse(s: State, a: ReuseAction): State
    requires EnabledReuse(s, a)
  {
    match a
    case GetBegin(t) => SetPc(s, t, GetLoop)
    case PopRing(t, r) =>
      SetPc(SetSlot(s, t, s.slots[t].(oldest := Some(r))), t, GetCheck).(pool := s.pool - {r})
    case PopNull(t) => DoPopNull(s, t)
    case Check(t) => DoCheck(s, t)
    case Take(t) => DoTake(s, t)
  }

  function Apply(s: State, a: Action): State
    requires Enabled(s, a)
  {
    match a
    case Reader(x) => ApplyReader(s, x)
    case Clock(x) => ApplyClock(s, x)
    case Retire(x) => ApplyRetire(s, x)
    case Reuse(x) => ApplyReuse(s, x)
  }

  /** The object an action returns to the caller of `get_reusable_item`. */
  function Returned(s: State, a: Action): Option<Obj>
    requires Enabled(s, a)
  {
    if a.Reuse? && a.ua.Take? && s.rings[s.slots[a.ua.t].oldest.value].sub != []
    then Some(s.rings[s.slots[a.ua.t].oldest.value].sub[0])
    else None
  }
}
