/**
 The sequence lock of `ywSeqLockGuard` around the page search of
 `ywOrderedNode`: writers change one slot or the count at a time while they hold
 the lock; readers take no lock and check the sequence word before and after.
 */
module SeqLock {
  import opened Basics
  import opened PageSearch

  type Tid = nat

  /** The sequence word is 32 bits wide; its low bit is the lock. */
  const WORD: nat := 0x1_0000_0000

  /** The slot array with the keys its slots refer to, and the count. */
  datatype Page = Page(slots: seq<Key>, count: nat)

  ghost predicate PageOk(p: Page) { 0 < |p.slots| && p.count <= |p.slots| }

  /** What `search_body` returns on a page nobody is changing. */
  ghost function Answer(p: Page, k: Key): Key
    requires PageOk(p)
  {
    var r := Search(p.slots[..p.count], k);
    p.slots[if r < 0 then 0 else r]
  }

  /** A thread inside `lock`, holding the lock, or inside `search_body`. */
  datatype Pc =
    | Idle
    | Locking(prev: nat)
    | Locked
    | Began(seen: nat, k: Key)
    | Bisecting(seen: nat, k: Key, min: int, max: int)
    | Got(seen: nat, k: Key, ret: Key)

  /**
   `total` counts every change of the sequence word, of which the program only
   sees the low 32 bits.  `starts` remembers the page and the total at which each
   search began.
   */
  datatype State = State(total: nat, page: Page, pcs: seq<Pc>, starts: seq<Start>)

  datatype Start = Start(total: nat, page: Page)

  function WordOf(s: State): nat { s.total % WORD }

  datatype Action =
    | LockLoad(t: Tid)
    | LockCas(t: Tid)
    | WriteSlot(t: Tid, i: nat, k: Key)
    | WriteCount(t: Tid, n: nat)
    | Release(t: Tid)
    | ReadBegin(t: Tid, k: Key)
    | ReadCount(t: Tid)
    | ReadMid(t: Tid)
    | ReadResult(t: Tid)
    | ReadEnd(t: Tid)

  predicate HasThread(s: State, t: Tid) { |s.pcs| == |s.starts| && t < |s.pcs| }

  predicate Enabled(s: State, a: Action) {
    && HasThread(s, a.t)
    && var pc := s.pcs[a.t];
       match a
       case LockLoad(t) => pc.Idle?
       case LockCas(t) => pc.Locking?
       case WriteSlot(t, i, k) => pc.Locked? && i < |s.page.slots|
       case WriteCount(t, n) => pc.Locked? && n <= |s.page.slots|
       case Release(t) => pc.Locked?
       case ReadBegin(t, k) => pc.Idle?
       case ReadCount(t) => pc.Began?
       case ReadMid(t) => pc.Bisecting? && pc.min <= pc.max && 0 <= (pc.min + pc.max) / 2 < |s.page.slots|
       case ReadResult(t) => pc.Bisecting? && pc.min > pc.max && (pc.min + pc.max) / 2 < |s.page.slots|
         && 0 < |s.page.slots|
       case ReadEnd(t) => pc.Got?
  }

  function SetPc(s: State, t: Tid, pc: Pc): State
    requires t < |s.pcs|
  {
    s.(pcs := s.pcs[t := pc])
  }

  /** One round of the loop in `binary_search`. */
  function Narrowed(pc: Pc, slots: seq<Key>, mid: int): Pc
    requires pc.Bisecting? && 0 <= mid < |slots|
  {
    if pc.k < slots[mid] then pc.(max := mid - 1) else pc.(min := mid + 1)
  }

  /** `lock` gives up on an odd word or a failed compare-and-swap; `read_end` leaves either way. */
  function Apply(s: State, a: Action): State
    requires Enabled(s, a)
  {
    var pc := s.pcs[a.t];
    match a
    case LockLoad(t) => SetPc(s, t, if IsOdd(WordOf(s)) then Idle else Locking(WordOf(s)))
    case LockCas(t) =>
      if WordOf(s) == pc.prev then SetPc(s, t, Locked).(total := s.total + 1) else SetPc(s, t, Idle)
    case WriteSlot(t, i, k) => s.(page := s.page.(slots := s.page.slots[i := k]))
    case WriteCount(t, n) => s.(page := s.page.(count := n))
    case Release(t) => SetPc(s, t, Idle).(total := s.total + 1)
    case ReadBegin(t, k) => SetPc(s, t, Began(WordOf(s), k)).(starts := s.starts[t := Start(s.total, s.page)])
    case ReadCount(t) => SetPc(s, t, Bisecting(pc.seen, pc.k, 0, s.page.count - 1))
    case ReadMid(t) => SetPc(s, t, Narrowed(pc, s.page.slots, (pc.min + pc.max) / 2))
    case ReadResult(t) =>
      var r := (pc.min + pc.max) / 2;
      SetPc(s, t, Got(pc.seen, pc.k, s.page.slots[if r < 0 then 0 else r]))
    case ReadEnd(t) => SetPc(s, t, Idle)
  }

  /** `read_end`: what the search reports to its caller. */
  predicate Succeeds(s: State, t: Tid) {
    t < |s.pcs| && s.pcs[t].Got? && !IsOdd(s.pcs[t].seen) && s.pcs[t].seen == WordOf(s)
  }

  ghost predicate Initial(s: State) {
    && s.total == 0 && PageOk(s.page) && |s.starts| == |s.pcs|
    && forall t | 0 <= t < |s.pcs| :: s.pcs[t].Idle?
  }
}
