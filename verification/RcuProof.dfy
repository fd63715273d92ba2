/** The inductive invariant of the epoch protocol and its preservation. */
module RcuProof {
  import opened Basics
  import opened Rcu

  // ------------------------------------------------------- the lists of objects

  ghost predicate ListedIn(s: State, o: Obj, p: Place) {
    match p
    case Latest(t) => t < |s.slots| && o in s.slots[t].latest
    case InRing(r) => r in s.rings && o in s.rings[r].sub
  }

  /** No list holds an object twice. */
  ghost predicate Distinct(s: State) {
    && (forall t | 0 <= t < |s.slots| :: NoDuplicates(s.slots[t].latest))
    && (forall r | r in s.rings :: NoDuplicates(s.rings[r].sub))
  }

  /** Every list holds exactly the objects whose home it is. */
  ghost predicate Homes(s: State) {
    && (forall o, p | ListedIn(s, o, p) :: o in s.home && s.home[o] == p)
    && (forall o | o in s.home :: ListedIn(s, o, s.home[o]))
  }

  // ----------------------------------------------------- control and ownership

  ghost predicate Control(s: State) {
    && (s.holder.Some? <==> IsOdd(s.globalTime))
    && (forall t | 0 <= t < |s.pcs| :: InScan(s.pcs[t]) ==> s.holder == Some(t))
  }

  ghost predicate InScan(pc: Pc) { pc.ScanInit? || pc.Scanning? || pc.ScanRelease? }

  ghost predicate NeedsRing(pc: Pc) { pc.GetCheck? || pc.GetCheckAgain? || pc.GetTake? }

  /** A ring is in the pool or the oldest ring of one thread, never both. */
  ghost predicate RingOwners(s: State)
    requires Shaped(s)
  {
    && (forall r | r in s.pool :: r in s.rings)
    && (forall t | 0 <= t < |s.slots| && s.slots[t].oldest.Some? ::
          s.slots[t].oldest.value in s.rings && s.slots[t].oldest.value !in s.pool)
    && (forall t, u | 0 <= t < |s.slots| && 0 <= u < |s.slots| && t != u && s.slots[t].oldest.Some? ::
          s.slots[t].oldest != s.slots[u].oldest)
    && (forall t | 0 <= t < |s.slots| && NeedsRing(s.pcs[t]) :: s.slots[t].oldest.Some?)
  }

  // ------------------------------------------------------------------- times

  ghost predicate PcTime(s: State, pc: Pc) {
    match pc
    case FixLoaded(g) => INIT_TIME <= g <= s.globalTime
    case Scanning(i, cur) => i <= |s.slots| && cur <= s.globalTime
    case ChangeMove(stamp, k) => stamp <= s.globalTime
    case _ => true
  }

  ghost predicate Times(s: State) {
    && INIT_TIME <= s.globalTime
    && s.reusableTime <= s.globalTime
    && (forall t | 0 <= t < |s.slots| :: s.slots[t].fixtime <= s.globalTime)
    && (forall t | 0 <= t < |s.pcs| :: PcTime(s, s.pcs[t]))
  }

  /** Only fixed readers hold objects, and a reader between the two halves of `fix` is not fixed. */
  ghost predicate Readers(s: State)
    requires Shaped(s)
  {
    && (forall u | 0 <= u < |s.held| && s.held[u] != {} :: s.slots[u].fixtime != NIL_TIME)
    && (forall u | 0 <= u < |s.pcs| && s.pcs[u].FixLoaded? :: s.slots[u].fixtime == NIL_TIME)
  }

  // ------------------------------------------------------------ stamped objects

  /** The time that decides when the objects of a list may be reused, once there is one. */
  ghost function StampOf(s: State, p: Place): Option<nat>
    requires Shaped(s)
  {
    match p
    case Latest(t) => if t < |s.pcs| && s.pcs[t].ChangeMove? then Some(s.pcs[t].stamp) else None
    case InRing(r) => if r in s.rings then Some(s.rings[r].removeTime) else None
  }

  /**
   A scan that is under way cannot push `reusable_time` past `stamp` while
   reader `u` stays fixed: either it is already bounded, or it has yet to read
   the slot of `u`.
   */
  ghost predicate ScanBounded(pc: Pc, u: Tid, stamp: nat) {
    pc.Scanning? ==> pc.cur <= stamp || pc.i <= u
  }

  /** What protects an object with stamp `stamp` that reader `u` still holds. */
  ghost predicate Protected(s: State, u: Tid, stamp: nat)
    requires HasThread(s, u)
  {
    && s.slots[u].fixtime <= stamp
    && s.reusableTime <= stamp
    && (forall v | 0 <= v < |s.pcs| :: ScanBounded(s.pcs[v], u, stamp))
  }

  ghost predicate Holds(held: seq<set<Obj>>, u: Tid, o: Obj) {
    u < |held| && o in held[u]
  }

  ghost predicate Grace(s: State)
    requires Shaped(s)
  {
    forall o, u: Tid | o in s.home && Holds(s.held, u, o) && StampOf(s, s.home[o]).Some? ::
      Protected(s, u, StampOf(s, s.home[o]).value)
  }

  /** No newcomer can reach an object whose list is stamped. */
  ghost predicate Unreachable(s: State)
    requires Shaped(s)
  {
    forall o | o in s.home && StampOf(s, s.home[o]).Some? :: o !in s.linked
  }

  ghost predicate RingFree(rings: map<RingId, Ring>, held: seq<set<Obj>>, r: RingId) {
    r in rings ==> forall o, u: Tid | o in rings[r].sub :: !Holds(held, u, o)
  }

  /** Once `is_reusable` said yes, nobody holds anything in the ring, whatever `reusable_time` does next. */
  ghost predicate Cleared(s: State)
    requires Shaped(s)
  {
    forall t | 0 <= t < |s.pcs| && s.pcs[t].GetTake?
      && s.slots[t].oldest.Some? :: RingFree(s.rings, s.held, s.slots[t].oldest.value)
  }

  ghost predicate Inv(s: State) {
    && Shaped(s)
    && Distinct(s)
    && Homes(s)
    && Control(s)
    && RingOwners(s)
    && Times(s)
    && Readers(s)
    && Grace(s)
    && Unreachable(s)
    && Cleared(s)
  }

  lemma InitInv(n: nat)
    ensures Inv(InitState(n))
  {
  }

  // ------------------------------------------------------------ preservation

  /** Program points at which a thread says nothing about objects. */
  ghost predicate Plain(pc: Pc) { !pc.Scanning? && !pc.ChangeMove? && !pc.GetTake? }

  /**
   Lists and `reusable_time` are as before and threads only move between plain
   points.  Readers may let go of objects or obtain reachable ones, and only a
   reader without objects changes its time.
   */
  ghost predicate SameLists(s: State, s': State)
    requires Shaped(s)
  {
    && Shaped(s') && |s'.slots| == |s.slots|
    && s'.rings == s.rings && s'.home == s.home && s'.reusableTime == s.reusableTime
    && (forall o | o in s'.linked :: o in s.linked || o !in s.home)
    && (forall u: Tid, o | Holds(s'.held, u, o) :: Holds(s.held, u, o) || o in s.linked)
    && (forall t | 0 <= t < |s.slots| ::
          && s'.slots[t].latest == s.slots[t].latest
          && (s'.held[t] == {} || s'.slots[t].fixtime == s.slots[t].fixtime)
          && (s'.pcs[t] == s.pcs[t] || (Plain(s.pcs[t]) && Plain(s'.pcs[t])))
          && (s'.pcs[t].GetTake? ==> s'.slots[t].oldest == s.slots[t].oldest))
  }

  /** The part of the invariant that is about objects. */
  ghost predicate ObjectInv(s: State)
    requires Shaped(s)
  {
    Distinct(s) && Homes(s) && Grace(s) && Unreachable(s) && Cleared(s)
  }

  lemma HomesSame(s: State, s': State)
    requires Homes(s) && s'.rings == s.rings && s'.home == s.home && |s'.slots| == |s.slots|
    requires forall t | 0 <= t < |s.slots| :: s'.slots[t].latest == s.slots[t].latest
    ensures Homes(s')
  {
    assert forall o, p :: ListedIn(s', o, p) == ListedIn(s, o, p);
  }

  /** Stamped objects keep their stamps and nothing their protection rests on changes. */
  lemma GraceSame(s: State, s': State)
    requires Shaped(s) && Shaped(s') && |s'.slots| == |s.slots| && Grace(s)
    requires s'.reusableTime == s.reusableTime
    requires forall t | 0 <= t < |s.pcs| :: s'.pcs[t].Scanning? ==> s'.pcs[t] == s.pcs[t]
    requires forall o | o in s'.home && StampOf(s', s'.home[o]).Some? ::
               o in s.home && StampOf(s, s.home[o]) == StampOf(s', s'.home[o])
    requires forall u: Tid, o | Holds(s'.held, u, o) && o in s'.home && StampOf(s', s'.home[o]).Some? ::
               Holds(s.held, u, o) && s'.slots[u].fixtime == s.slots[u].fixtime
    ensures Grace(s')
  {
    forall o, u: Tid | o in s'.home && Holds(s'.held, u, o) && StampOf(s', s'.home[o]).Some?
      ensures Protected(s', u, StampOf(s', s'.home[o]).value)
    {
      assert Protected(s, u, StampOf(s, s.home[o]).value);
    }
  }

  /** A ring nobody holds anything of stays so while its list does not grow. */
  lemma RingFreeSame(s: State, s': State, r: RingId)
    requires Shaped(s) && Homes(s) && Unreachable(s) && RingFree(s.rings, s.held, r)
    requires r in s'.rings ==> r in s.rings && forall o | o in s'.rings[r].sub :: o in s.rings[r].sub
    requires forall u: Tid, o | Holds(s'.held, u, o) :: Holds(s.held, u, o) || o in s.linked
    ensures RingFree(s'.rings, s'.held, r)
  {
    assert forall o | r in s.rings && o in s.rings[r].sub :: ListedIn(s, o, InRing(r));
  }

  lemma SameListsKeep(s: State, s': State)
    requires Shaped(s) && ObjectInv(s) && SameLists(s, s')
    ensures ObjectInv(s')
  {
    assert forall p: Place :: StampOf(s', p) == StampOf(s, p);
    HomesSame(s, s');
    GraceSame(s, s');
    forall t | 0 <= t < |s'.pcs| && s'.pcs[t].GetTake? && s'.slots[t].oldest.Some?
      ensures RingFree(s'.rings, s'.held, s'.slots[t].oldest.value)
    {
      RingFreeSame(s, s', s.slots[t].oldest.value);
    }
  }

  /** The part of the invariant that is about program points and times. */
  ghost predicate ThreadInv(s: State) {
    Shaped(s) && Control(s) && Times(s)
  }

  /** One thread moves on and the clock stands still. */
  ghost predicate OneMoves(s: State, s': State, t: Tid) {
    && Shaped(s) && Shaped(s') && |s'.slots| == |s.slots| && t < |s.slots|
    && s'.globalTime == s.globalTime && s'.reusableTime == s.reusableTime && s'.holder == s.holder
    && (forall u | 0 <= u < |s.slots| && u != t :: s'.pcs[u] == s.pcs[u] && s'.slots[u].fixtime == s.slots[u].fixtime)
    && s'.slots[t].fixtime <= s'.globalTime && PcTime(s', s'.pcs[t]) && !InScan(s'.pcs[t])
  }

  lemma OneMovesKeeps(s: State, s': State, t: Tid)
    requires ThreadInv(s) && OneMoves(s, s', t)
    ensures ThreadInv(s')
  {
    forall u | 0 <= u < |s'.pcs|
      ensures PcTime(s', s'.pcs[u])
    {
      if u != t { assert PcTime(s, s.pcs[u]); }
    }
  }

  lemma ReaderThreads(s: State, a: ReaderAction)
    requires ThreadInv(s) && EnabledReader(s, a)
    ensures ThreadInv(ApplyReader(s, a))
  {
  }

  lemma ClockThreads(s: State, a: ClockAction)
    requires ThreadInv(s) && EnabledClock(s, a)
    ensures ThreadInv(ApplyClock(s, a))
  {
  }

  lemma RetireThreads(s: State, a: RetireAction)
    requires ThreadInv(s) && EnabledRetire(s, a)
    ensures ThreadInv(ApplyRetire(s, a))
  {
    assert PcTime(s, s.pcs[a.t]);
    OneMovesKeeps(s, ApplyRetire(s, a), a.t);
  }

  lemma ReuseThreads(s: State, a: ReuseAction)
    requires ThreadInv(s) && EnabledReuse(s, a)
    ensures ThreadInv(ApplyReuse(s, a))
  {
    OneMovesKeeps(s, ApplyReuse(s, a), a.t);
  }

  lemma ReaderReaders(s: State, a: ReaderAction)
    requires Shaped(s) && Times(s) && Readers(s) && EnabledReader(s, a)
    ensures Shaped(ApplyReader(s, a)) && Readers(ApplyReader(s, a))
  {
  }

  lemma ClockReaders(s: State, a: ClockAction)
    requires Shaped(s) && Times(s) && Readers(s) && EnabledClock(s, a)
    ensures Shaped(ApplyClock(s, a)) && Readers(ApplyClock(s, a))
  {
  }

  lemma RetireReaders(s: State, a: RetireAction)
    requires Shaped(s) && Times(s) && Readers(s) && EnabledRetire(s, a)
    ensures Shaped(ApplyRetire(s, a)) && Readers(ApplyRetire(s, a))
  {
  }

  lemma ReuseReaders(s: State, a: ReuseAction)
    requires Shaped(s) && Times(s) && Readers(s) && EnabledReuse(s, a)
    ensures Shaped(ApplyReuse(s, a)) && Readers(ApplyReuse(s, a))
  {
  }

  /** Nothing that the ownership of rings rests on changes. */
  lemma SameRings(s: State, s': State)
    requires Shaped(s) && Shaped(s') && |s'.slots| == |s.slots| && RingOwners(s)
    requires s'.pool == s.pool && s'.rings == s.rings
    requires forall t | 0 <= t < |s.slots| :: s'.slots[t].oldest == s.slots[t].oldest
    requires forall t | 0 <= t < |s.slots| :: NeedsRing(s'.pcs[t]) ==> NeedsRing(s.pcs[t])
    ensures RingOwners(s')
  {
  }

  lemma ReaderRingOwners(s: State, a: ReaderAction)
    requires Shaped(s) && RingOwners(s) && EnabledReader(s, a)
    ensures Shaped(ApplyReader(s, a)) && RingOwners(ApplyReader(s, a))
  {
    SameRings(s, ApplyReader(s, a));
  }

  lemma ClockRingOwners(s: State, a: ClockAction)
    requires Shaped(s) && RingOwners(s) && EnabledClock(s, a)
    ensures Shaped(ApplyClock(s, a)) && RingOwners(ApplyClock(s, a))
  {
    SameRings(s, ApplyClock(s, a));
  }

  lemma RetireRingOwners(s: State, a: RetireAction)
    requires Shaped(s) && RingOwners(s) && EnabledRetire(s, a)
    ensures Shaped(ApplyRetire(s, a)) && RingOwners(ApplyRetire(s, a))
  {
  }

  lemma ReuseRingOwners(s: State, a: ReuseAction)
    requires Shaped(s) && RingOwners(s) && EnabledReuse(s, a)
    ensures Shaped(ApplyReuse(s, a)) && RingOwners(ApplyReuse(s, a))
  {
  }

  // ------------------------------------------------------ objects, by action

  lemma ReaderSame(s: State, a: ReaderAction)
    requires Shaped(s) && EnabledReader(s, a) && Readers(s)
    ensures Shaped(ApplyReader(s, a)) && SameLists(s, ApplyReader(s, a))
  {
  }

  lemma ReaderObjects(s: State, a: ReaderAction)
    requires Shaped(s) && ObjectInv(s) && EnabledReader(s, a) && Readers(s)
    ensures Shaped(ApplyReader(s, a)) && ObjectInv(ApplyReader(s, a))
  {
    ReaderSame(s, a);
    SameListsKeep(s, ApplyReader(s, a));
  }

  lemma ClockSame(s: State, a: ClockAction)
    requires Shaped(s) && EnabledClock(s, a) && !a.ScanStart? && !a.ScanSlot? && !a.ScanStore?
    ensures Shaped(ApplyClock(s, a)) && SameLists(s, ApplyClock(s, a))
  {
  }

  lemma ClockObjects(s: State, a: ClockAction)
    requires Shaped(s) && ObjectInv(s) && EnabledClock(s, a) && Readers(s)
    ensures Shaped(ApplyClock(s, a)) && ObjectInv(ApplyClock(s, a))
  {
    if a.ScanStart? || a.ScanSlot? || a.ScanStore? {
      ScanObjects(s, a);
    } else {
      ClockSame(s, a);
      SameListsKeep(s, ApplyClock(s, a));
    }
  }

  /** A step of the scan leaves everything protected that was. */
  lemma ScanProtects(s: State, a: ClockAction, u: Tid, stamp: nat)
    requires EnabledClock(s, a) && HasThread(s, u) && Protected(s, u, stamp) && s.slots[u].fixtime != NIL_TIME
    requires a.ScanStart? || a.ScanSlot? || a.ScanStore?
    ensures Shaped(ApplyClock(s, a)) && Protected(ApplyClock(s, a), u, stamp)
  {
    assert ScanBounded(s.pcs[a.t], u, stamp);
  }

  lemma ScanStamps(s: State, a: ClockAction)
    requires Shaped(s) && EnabledClock(s, a) && (a.ScanStart? || a.ScanSlot? || a.ScanStore?)
    ensures var s' := ApplyClock(s, a);
            && Shaped(s') && s'.home == s.home && s'.held == s.held && s'.rings == s.rings && s'.linked == s.linked
            && s'.slots == s.slots && (forall p: Place :: StampOf(s', p) == StampOf(s, p))
            && (forall t | 0 <= t < |s.pcs| :: s'.pcs[t].GetTake? ==> s.pcs[t].GetTake?)
  {
  }

  lemma ScanObjects(s: State, a: ClockAction)
    requires Shaped(s) && ObjectInv(s) && EnabledClock(s, a) && Readers(s)
    requires a.ScanStart? || a.ScanSlot? || a.ScanStore?
    ensures Shaped(ApplyClock(s, a)) && ObjectInv(ApplyClock(s, a))
  {
    var s' := ApplyClock(s, a);
    ScanStamps(s, a);
    HomesSame(s, s');
    forall o, u: Tid | o in s'.home && Holds(s'.held, u, o) && StampOf(s', s'.home[o]).Some?
      ensures Protected(s', u, StampOf(s', s'.home[o]).value)
    {
      ScanProtects(s, a, u, StampOf(s, s.home[o]).value);
    }
  }

  lemma AttachHomes(s: State, t: Tid)
    requires Homes(s) && EnabledRetire(s, RegAttach(t))
    ensures Homes(DoRegAttach(s, t))
  {
    var s' := DoRegAttach(s, t);
    assert forall o, p :: ListedIn(s', o, p) <==> ListedIn(s, o, p) || (o == s.pcs[t].o && p == Latest(t));
  }

  lemma AttachDistinct(s: State, t: Tid)
    requires Homes(s) && Distinct(s) && EnabledRetire(s, RegAttach(t))
    ensures Distinct(DoRegAttach(s, t))
  {
    assert !ListedIn(s, s.pcs[t].o, Latest(t));
  }

  lemma AttachObjects(s: State, t: Tid)
    requires Shaped(s) && ObjectInv(s) && EnabledRetire(s, RegAttach(t))
    ensures Shaped(DoRegAttach(s, t)) && ObjectInv(DoRegAttach(s, t))
  {
    var s' := DoRegAttach(s, t);
    AttachHomes(s, t);
    AttachDistinct(s, t);
    assert forall p: Place :: StampOf(s', p) == StampOf(s, p);
    GraceSame(s, s');
  }

  lemma StampObjects(s: State, t: Tid)
    requires Shaped(s) && ObjectInv(s) && EnabledRetire(s, Stamp(t)) && Times(s)
    ensures Shaped(DoStamp(s, t)) && ObjectInv(DoStamp(s, t))
  {
    var s' := DoStamp(s, t);
    HomesSame(s, s');
    forall o, u: Tid | o in s'.home && Holds(s'.held, u, o) && StampOf(s', s'.home[o]).Some?
      ensures Protected(s', u, StampOf(s', s'.home[o]).value)
    {
      if s.home[o] != Latest(t) {
        assert Protected(s, u, StampOf(s, s.home[o]).value);
      } else {
        assert forall v | 0 <= v < |s.pcs| :: PcTime(s, s.pcs[v]);
      }
    }
  }

  lemma MoveHomes(s: State, t: Tid, r: RingId)
    requires Homes(s) && EnabledRetire(s, Move(t, r))
    ensures Homes(DoMove(s, t, r))
  {
    var s' := DoMove(s, t, r);
    assert forall o, p :: ListedIn(s', o, p) <==>
      if p == InRing(r) then o in s.slots[t].latest else p != Latest(t) && ListedIn(s, o, p);
    assert forall o :: o in s.slots[t].latest <==> ListedIn(s, o, Latest(t));
  }

  lemma MoveStamps(s: State, t: Tid, r: RingId)
    requires Shaped(s) && Homes(s) && EnabledRetire(s, Move(t, r))
    ensures forall o | o in s.home :: StampOf(DoMove(s, t, r), DoMove(s, t, r).home[o]) == StampOf(s, s.home[o])
  {
    forall o | o in s.home
      ensures StampOf(DoMove(s, t, r), DoMove(s, t, r).home[o]) == StampOf(s, s.home[o])
    {
      assert ListedIn(s, o, s.home[o]);
      assert o in s.slots[t].latest <==> ListedIn(s, o, Latest(t));
    }
  }

  lemma MoveObjects(s: State, t: Tid, r: RingId)
    requires Shaped(s) && ObjectInv(s) && EnabledRetire(s, Move(t, r)) && RingOwners(s)
    ensures Shaped(DoMove(s, t, r)) && ObjectInv(DoMove(s, t, r))
  {
    var s' := DoMove(s, t, r);
    MoveHomes(s, t, r);
    MoveStamps(s, t, r);
    GraceSame(s, s');
    forall u | 0 <= u < |s'.pcs| && s'.pcs[u].GetTake? && s'.slots[u].oldest.Some?
      ensures RingFree(s'.rings, s'.held, s'.slots[u].oldest.value)
    {
      RingFreeSame(s, s', s.slots[u].oldest.value);
    }
  }

  lemma RetireSame(s: State, a: RetireAction)
    requires Shaped(s) && EnabledRetire(s, a) && !a.RegAttach? && !a.Stamp? && !a.Move?
    ensures Shaped(ApplyRetire(s, a)) && SameLists(s, ApplyRetire(s, a))
  {
  }

  lemma RetireObjects(s: State, a: RetireAction)
    requires Shaped(s) && ObjectInv(s) && EnabledRetire(s, a) && Times(s) && RingOwners(s)
    ensures Shaped(ApplyRetire(s, a)) && ObjectInv(ApplyRetire(s, a))
  {
    match a {
      case RegAttach(t) => AttachObjects(s, t);
      case Stamp(t) => StampObjects(s, t);
      case Move(t, r) => MoveObjects(s, t, r);
      case _ => RetireSame(s, a); SameListsKeep(s, ApplyRetire(s, a));
    }
  }

  /** A ring that `is_reusable` lets through holds nothing a reader still has. */
  lemma CheckedRingFree(s: State, r: RingId)
    requires Shaped(s) && Homes(s) && Grace(s)
    requires r in s.rings && s.reusableTime > s.rings[r].removeTime
    ensures RingFree(s.rings, s.held, r)
  {
    forall o, u: Tid | o in s.rings[r].sub
      ensures !Holds(s.held, u, o)
    {
      assert ListedIn(s, o, InRing(r)) && (HasThread(s, u) ==> !Protected(s, u, s.rings[r].removeTime));
    }
  }

  lemma CheckObjects(s: State, t: Tid)
    requires Shaped(s) && ObjectInv(s) && EnabledReuse(s, Check(t))
    ensures Shaped(DoCheck(s, t)) && ObjectInv(DoCheck(s, t))
  {
    var s' := DoCheck(s, t);
    assert forall p: Place :: StampOf(s', p) == StampOf(s, p);
    HomesSame(s, s');
    GraceSame(s, s');
    if s'.pcs[t].GetTake? {
      CheckedRingFree(s, s.slots[t].oldest.value);
    }
  }

  lemma TakeHomes(s: State, t: Tid)
    requires Distinct(s) && Homes(s) && EnabledReuse(s, Take(t))
    ensures Homes(DoTake(s, t))
  {
    var s' := DoTake(s, t);
    var r := s.slots[t].oldest.value;
    var sub := s.rings[r].sub;
    if sub != [] {
      assert forall o :: o in sub[1..] <==> o in sub && o != sub[0];
      assert forall o, p :: ListedIn(s', o, p) <==> ListedIn(s, o, p) && !(p == InRing(r) && o == sub[0]);
      assert ListedIn(s, sub[0], InRing(r));
    } else {
      assert forall o, p :: ListedIn(s', o, p) == ListedIn(s, o, p);
    }
  }

  lemma TakeStamps(s: State, t: Tid)
    requires Shaped(s) && Homes(s) && EnabledReuse(s, Take(t))
    ensures Shaped(DoTake(s, t))
    ensures forall o | o in DoTake(s, t).home :: StampOf(DoTake(s, t), s.home[o]) == StampOf(s, s.home[o])
  {
    forall o | o in DoTake(s, t).home
      ensures StampOf(DoTake(s, t), s.home[o]) == StampOf(s, s.home[o])
    {
      assert ListedIn(s, o, s.home[o]);
    }
  }

  lemma TakeObjects(s: State, t: Tid)
    requires Shaped(s) && ObjectInv(s) && EnabledReuse(s, Take(t)) && RingOwners(s)
    ensures Shaped(DoTake(s, t)) && ObjectInv(DoTake(s, t))
  {
    var s' := DoTake(s, t);
    TakeHomes(s, t);
    TakeStamps(s, t);
    GraceSame(s, s');
    forall u | 0 <= u < |s'.pcs| && s'.pcs[u].GetTake? && s'.slots[u].oldest.Some?
      ensures RingFree(s'.rings, s'.held, s'.slots[u].oldest.value)
    {
      RingFreeSame(s, s', s.slots[u].oldest.value);
    }
  }

  lemma ReuseSame(s: State, a: ReuseAction)
    requires Shaped(s) && EnabledReuse(s, a) && !a.Check? && !a.Take?
    ensures Shaped(ApplyReuse(s, a)) && SameLists(s, ApplyReuse(s, a))
  {
  }

  lemma ReuseObjects(s: State, a: ReuseAction)
    requires Shaped(s) && ObjectInv(s) && EnabledReuse(s, a) && RingOwners(s)
    ensures Shaped(ApplyReuse(s, a)) && ObjectInv(ApplyReuse(s, a))
  {
    match a {
      case Check(t) => CheckObjects(s, t);
      case Take(t) => TakeObjects(s, t);
      case _ => ReuseSame(s, a); SameListsKeep(s, ApplyReuse(s, a));
    }
  }

  /** Every action keeps the invariant. */
  lemma StepInv(s: State, a: Action)
    requires Inv(s) && Enabled(s, a)
    ensures Inv(Apply(s, a))
  {
    match a {
      case Reader(x) => ReaderThreads(s, x); ReaderReaders(s, x); ReaderRingOwners(s, x); ReaderObjects(s, x);
      case Clock(x) => ClockThreads(s, x); ClockReaders(s, x); ClockRingOwners(s, x); ClockObjects(s, x);
      case Retire(x) => RetireThreads(s, x); RetireReaders(s, x); RetireRingOwners(s, x); RetireObjects(s, x);
      case Reuse(x) => ReuseThreads(s, x); ReuseReaders(s, x); ReuseRingOwners(s, x); ReuseObjects(s, x);
    }
  }
}
