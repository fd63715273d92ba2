/** A search that reports success answered from one page state no writer was changing. */
module SeqLockProof {
  import opened Basics
  import opened PageSearch
  import opened SeqLock

  ghost predicate Reading(pc: Pc) { pc.Began? || pc.Bisecting? || pc.Got? }

  ghost function KeysOf(p: Page): seq<Key>
    requires PageOk(p)
  {
    p.slots[..p.count]
  }

  /** One writer at most, and only while the sequence is odd. */
  ghost predicate Writers(s: State) {
    && (forall t | 0 <= t < |s.pcs| && s.pcs[t].Locked? :: IsOdd(s.total))
    && (forall t, u | 0 <= t < u < |s.pcs| :: !(s.pcs[t].Locked? && s.pcs[u].Locked?))
    && (forall t | 0 <= t < |s.pcs| && s.pcs[t].Locking? :: !IsOdd(s.pcs[t].prev))
  }

  /** Where a reader is on the page it started from. */
  ghost predicate Progress(pc: Pc, p: Page)
    requires PageOk(p)
  {
    match pc
    case Bisecting(_, k, min, max) =>
      0 <= min <= max + 1 <= p.count && Bisect(KeysOf(p), k, min, max) == Search(KeysOf(p), k)
    case Got(_, k, ret) => ret == Answer(p, k)
    case _ => true
  }

  /** A reader stays inside the slot array whatever it has read; and while nothing has changed, it is on track. */
  ghost predicate ReaderOk(pc: Pc, start: Start, total: nat, page: Page)
    requires Reading(pc)
  {
    && start.total <= total && PageOk(start.page) && |start.page.slots| == |page.slots|
    && pc.seen == start.total % WORD
    && (pc.Bisecting? ==> 0 <= pc.min <= pc.max + 1 <= |page.slots|)
    && (start.total == total && !IsOdd(total) ==> page == start.page && Progress(pc, start.page))
  }

  ghost predicate Readers(s: State)
    requires |s.starts| == |s.pcs|
  {
    forall t | 0 <= t < |s.pcs| && Reading(s.pcs[t]) :: ReaderOk(s.pcs[t], s.starts[t], s.total, s.page)
  }

  ghost predicate Inv(s: State) {
    |s.starts| == |s.pcs| && PageOk(s.page) && Writers(s) && Readers(s)
  }

  lemma OddWord(n: nat)
    ensures IsOdd(n % WORD) <==> IsOdd(n)
  {
  }

  /** Only a successful compare-and-swap makes a writer, and then there was none. */
  lemma StepWriters(s: State, a: Action)
    requires |s.starts| == |s.pcs| && Writers(s) && Enabled(s, a)
    ensures Writers(Apply(s, a))
  {
    OddWord(s.total);
    var s' := Apply(s, a);
    assert forall t | 0 <= t < |s.pcs| && t != a.t :: s'.pcs[t] == s.pcs[t];
    if a.LockCas? && s'.pcs[a.t].Locked? {
      assert !IsOdd(s.total);
    }
  }

  /** Readers other than the acting thread. */
  lemma OtherReaders(s: State, a: Action, t: Tid)
    requires Inv(s) && Enabled(s, a) && t < |s.pcs| && t != a.t && Reading(s.pcs[t])
    ensures var s' := Apply(s, a); ReaderOk(s'.pcs[t], s'.starts[t], s'.total, s'.page)
  {
    assert ReaderOk(s.pcs[t], s.starts[t], s.total, s.page);
  }

  /** One step of the bisection, seen from the reader. */
  lemma MidKeeps(pc: Pc, start: Start, total: nat, page: Page, mid: int)
    requires pc.Bisecting? && ReaderOk(pc, start, total, page) && pc.min <= pc.max
    requires mid == (pc.min + pc.max) / 2 && 0 <= mid < |page.slots|
    ensures Reading(Narrowed(pc, page.slots, mid)) && ReaderOk(Narrowed(pc, page.slots, mid), start, total, page)
  {
    if start.total == total && !IsOdd(total) {
      assert KeysOf(page)[mid] == page.slots[mid];
    }
  }

  lemma ReadMidKeeps(s: State, t: Tid)
    requires Enabled(s, ReadMid(t)) && Reading(s.pcs[t]) && ReaderOk(s.pcs[t], s.starts[t], s.total, s.page)
    ensures var s' := Apply(s, ReadMid(t)); Reading(s'.pcs[t]) && ReaderOk(s'.pcs[t], s'.starts[t], s'.total, s'.page)
  {
    var pc := s.pcs[t];
    MidKeeps(pc, s.starts[t], s.total, s.page, (pc.min + pc.max) / 2);
    assert Apply(s, ReadMid(t)).pcs[t] == Narrowed(pc, s.page.slots, (pc.min + pc.max) / 2);
  }

  lemma OwnReader(s: State, a: Action)
    requires Inv(s) && Enabled(s, a) && Reading(Apply(s, a).pcs[a.t])
    ensures var s' := Apply(s, a); ReaderOk(s'.pcs[a.t], s'.starts[a.t], s'.total, s'.page)
  {
    match a {
      case ReadMid(t) => assert ReaderOk(s.pcs[t], s.starts[t], s.total, s.page); ReadMidKeeps(s, t);
      case ReadCount(t) => assert ReaderOk(s.pcs[t], s.starts[t], s.total, s.page);
      case ReadResult(t) => assert ReaderOk(s.pcs[t], s.starts[t], s.total, s.page);
      case _ =>
    }
  }

  lemma StepInv(s: State, a: Action)
    requires Inv(s) && Enabled(s, a)
    ensures Inv(Apply(s, a))
  {
    var s' := Apply(s, a);
    StepWriters(s, a);
    forall t | 0 <= t < |s'.pcs| && Reading(s'.pcs[t])
      ensures ReaderOk(s'.pcs[t], s'.starts[t], s'.total, s'.page)
    {
      if t == a.t {
        OwnReader(s, a);
      } else {
        OtherReaders(s, a, t);
      }
    }
  }

  // ---------------------------------------------------------------------- runs

  ghost predicate StepAt(ss: seq<State>, acts: seq<Action>, i: nat)
    requires |ss| == |acts| + 1 && i < |acts|
  {
    Enabled(ss[i], acts[i]) && ss[i + 1] == Apply(ss[i], acts[i])
  }

  ghost predicate Run(ss: seq<State>, acts: seq<Action>) {
    |ss| == |acts| + 1 && Initial(ss[0]) && forall i | 0 <= i < |acts| :: StepAt(ss, acts, i)
  }

  lemma {:induction false} ReachableInv(ss: seq<State>, acts: seq<Action>, i: nat)
    requires Run(ss, acts) && i < |ss|
    ensures Inv(ss[i])
  {
    if i > 0 {
      ReachableInv(ss, acts, i - 1);
      assert StepAt(ss, acts, i - 1);
      StepInv(ss[i - 1], acts[i - 1]);
    }
  }

  /** Thread `t` began a search for `k` at step `b` and is still in it at state `e`. */
  ghost predicate InSearch(ss: seq<State>, acts: seq<Action>, t: Tid, k: Key, b: nat, e: nat)
    requires |ss| == |acts| + 1
  {
    && b < e < |ss| && acts[b] == ReadBegin(t, k)
    && (forall i | b < i <= e :: t < |ss[i].pcs| && Reading(ss[i].pcs[t]))
  }

  lemma {:induction false} StartOfSearch(ss: seq<State>, acts: seq<Action>, t: Tid, k: Key, b: nat, e: nat)
    requires Run(ss, acts) && InSearch(ss, acts, t, k, b, e)
    ensures HasThread(ss[e], t) && ss[e].starts[t] == Start(ss[b].total, ss[b].page) && ss[e].pcs[t].k == k
  {
    assert StepAt(ss, acts, e - 1);
    ReachableInv(ss, acts, e - 1);
    if b + 1 < e {
      StartOfSearch(ss, acts, t, k, b, e - 1);
    }
  }

  lemma {:induction false} TotalGrows(ss: seq<State>, acts: seq<Action>, i: nat, j: nat)
    requires Run(ss, acts) && i <= j < |ss|
    ensures ss[i].total <= ss[j].total
  {
    if i < j {
      TotalGrows(ss, acts, i, j - 1);
      assert StepAt(ss, acts, j - 1);
    }
  }

  lemma SameWord(a: nat, b: nat)
    requires a <= b < a + WORD && a % WORD == b % WORD
    ensures a == b
  {
  }

  /** The used part of a page in key order. */
  ghost predicate InOrder(p: Page) {
    p.count <= |p.slots| && forall i, j | 0 <= i < j < p.count :: p.slots[i] <= p.slots[j]
  }

  /** `ret` is the greatest key of the page that is not above `k`, or its first key if all are above. */
  ghost predicate Nearest(p: Page, k: Key, ret: Key) {
    && p.count <= |p.slots| && (exists i | 0 <= i < p.count :: p.slots[i] == ret)
    && (forall i | 0 <= i < p.count && p.slots[i] <= k :: p.slots[i] <= ret <= k)
    && ((forall i | 0 <= i < p.count :: k < p.slots[i]) ==> ret == p.slots[0])
  }

  /** What the search of a page in order answers. */
  lemma AnswerNearest(p: Page, k: Key)
    requires PageOk(p) && InOrder(p) && p.count > 0
    ensures Nearest(p, k, Answer(p, k))
  {
    var ks := p.slots[..p.count];
    SearchFloor(ks, k);
  }

  /**
   Linearizability.  A search that reports success answered exactly what the
   search of the page as it stood at every moment of its interval gives, and no
   writer held the lock there, unless the sequence word went all the way round.
   */
  lemma SearchLinearizable(ss: seq<State>, acts: seq<Action>, t: Tid, k: Key, b: nat, e: nat, i: nat)
    requires Run(ss, acts) && InSearch(ss, acts, t, k, b, e) && Succeeds(ss[e], t)
    requires ss[e].total < ss[b].total + WORD
    requires b <= i <= e
    ensures PageOk(ss[i].page) && ss[e].pcs[t].ret == Answer(ss[i].page, k)
    ensures InOrder(ss[i].page) && ss[i].page.count > 0 ==>
              && Nearest(ss[i].page, k, ss[e].pcs[t].ret)
              && (k in ss[i].page.slots[..ss[i].page.count] ==> ss[e].pcs[t].ret == k)
    ensures forall u | 0 <= u < |ss[i].pcs| :: !ss[i].pcs[u].Locked?
  {
    ReachableInv(ss, acts, e);
    ReachableInv(ss, acts, i);
    StartOfSearch(ss, acts, t, k, b, e);
    TotalGrows(ss, acts, b, i);
    TotalGrows(ss, acts, i, e);
    assert ReaderOk(ss[e].pcs[t], ss[e].starts[t], ss[e].total, ss[e].page);
    SameWord(ss[b].total, ss[e].total);
    OddWord(ss[e].total);
    if b < i {
      StartOfSearch(ss, acts, t, k, b, i);
      assert ReaderOk(ss[i].pcs[t], ss[i].starts[t], ss[i].total, ss[i].page);
    }
    if InOrder(ss[i].page) && ss[i].page.count > 0 {
      AnswerNearest(ss[i].page, k);
    }
  }
}
