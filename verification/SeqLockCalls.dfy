/** When `lock` and `read_end` succeed, what the sequence counts, and what writers leave on the page. */
module SeqLockCalls {
  import opened Basics
  import opened PageSearch
  import opened SeqLock
  import opened SeqLockProof

  // ------------------------------------------------------------------ the sequence

  ghost predicate Writing(s: State) {
    exists t | 0 <= t < |s.pcs| :: s.pcs[t].Locked?
  }

  /** How often the lock was released. */
  ghost function Releases(acts: seq<Action>): nat {
    if acts == [] then 0
    else Releases(acts[..|acts| - 1]) + if acts[|acts| - 1].Release? then 1 else 0
  }

  lemma CountStep(s: State, a: Action)
    requires Inv(s) && Enabled(s, a)
    ensures Apply(s, a).total + (if Writing(s) then 1 else 0)
            == s.total + (if Writing(Apply(s, a)) then 1 else 0) + if a.Release? then 2 else 0
  {
    var s', t := Apply(s, a), a.t;
    OddWord(s.total);
    assert forall u | 0 <= u < |s.pcs| && u != t :: s'.pcs[u] == s.pcs[u];
    if a.Release? {
      assert s.pcs[t].Locked? && Writing(s);
      assert forall u | 0 <= u < |s.pcs| && u != t :: !s.pcs[u].Locked?;
      assert !Writing(s');
    } else if s'.pcs[t].Locked? && !s.pcs[t].Locked? {
      assert s'.pcs[t].Locked? && Writing(s');
      assert !IsOdd(s.total) && !Writing(s);
    } else {
      SameWriting(s, s', t);
    }
  }

  lemma SameWriting(s: State, s': State, t: Tid)
    requires |s'.pcs| == |s.pcs| && t < |s.pcs| && (s'.pcs[t].Locked? <==> s.pcs[t].Locked?)
    requires forall u | 0 <= u < |s.pcs| && u != t :: s'.pcs[u] == s.pcs[u]
    ensures Writing(s') <==> Writing(s)
  {
    if Writing(s) {
      var u :| 0 <= u < |s.pcs| && s.pcs[u].Locked?;
      assert s'.pcs[u].Locked?;
    }
    if Writing(s') {
      var u :| 0 <= u < |s.pcs| && s'.pcs[u].Locked?;
      assert s.pcs[u].Locked?;
    }
  }

  /** Over every run the sequence is twice the number of finished writers, plus one while there is one. */
  lemma {:induction false} SequenceCounts(ss: seq<State>, acts: seq<Action>, i: nat)
    requires Run(ss, acts) && i < |ss|
    ensures ss[i].total == 2 * Releases(acts[..i]) + if Writing(ss[i]) then 1 else 0
  {
    if i > 0 {
      SequenceCounts(ss, acts, i - 1);
      ReachableInv(ss, acts, i - 1);
      assert StepAt(ss, acts, i - 1);
      assert acts[..i][..i - 1] == acts[..i - 1];
      CountStep(ss[i - 1], acts[i - 1]);
    }
  }

  // -------------------------------------------------------------------------- lock

  /** Thread `t` begins `lock` at step `b` and is first out of it at state `e`. */
  ghost predicate LockCall(ss: seq<State>, acts: seq<Action>, t: Tid, b: nat, e: nat) {
    && Run(ss, acts) && b < e < |ss| && acts[b] == LockLoad(t) && t < |ss[e].pcs| && !ss[e].pcs[t].Locking?
    && forall i | b < i < e :: t < |ss[i].pcs| && ss[i].pcs[t].Locking?
  }

  lemma {:induction false} StillLocking(ss: seq<State>, acts: seq<Action>, t: Tid, b: nat, e: nat, i: nat)
    requires LockCall(ss, acts, t, b, e) && b < i < e
    ensures HasThread(ss[i], t) && ss[i].pcs[t] == Locking(WordOf(ss[b])) && !IsOdd(WordOf(ss[b]))
  {
    assert StepAt(ss, acts, i - 1);
    if b + 1 < i {
      StillLocking(ss, acts, t, b, e, i - 1);
      LockingStep(ss[i - 1], acts[i - 1], t);
    }
  }

  /** A thread in `lock` stays there until its compare-and-swap, which decides. */
  lemma LockingStep(s: State, a: Action, t: Tid)
    requires Enabled(s, a) && HasThread(s, t) && s.pcs[t].Locking?
    ensures var pc' := Apply(s, a).pcs[t];
            && HasThread(Apply(s, a), t)
            && if a.t != t then pc' == s.pcs[t]
               else a.LockCas? && pc' == if WordOf(s) == s.pcs[t].prev then Locked else Idle
  {
  }

  /** `lock` succeeds exactly if the word was even when it was loaded and the same at the compare-and-swap. */
  lemma LockReturns(ss: seq<State>, acts: seq<Action>, t: Tid, b: nat, e: nat)
    requires LockCall(ss, acts, t, b, e)
    ensures ss[e].pcs[t].Locked? || ss[e].pcs[t].Idle?
    ensures ss[e].pcs[t].Locked? <==> !IsOdd(WordOf(ss[b])) && WordOf(ss[e - 1]) == WordOf(ss[b])
  {
    assert StepAt(ss, acts, e - 1);
    if b + 1 < e {
      StillLocking(ss, acts, t, b, e, e - 1);
      LockingStep(ss[e - 1], acts[e - 1], t);
    }
  }

  // ---------------------------------------------------------------------- read_end

  /** A finished search succeeds exactly if the word was even when it began and is the same at its end. */
  lemma SucceedsIff(ss: seq<State>, acts: seq<Action>, t: Tid, k: Key, b: nat, e: nat)
    requires Run(ss, acts) && InSearch(ss, acts, t, k, b, e) && ss[e].pcs[t].Got?
    ensures Succeeds(ss[e], t) <==> !IsOdd(WordOf(ss[b])) && WordOf(ss[e]) == WordOf(ss[b])
  {
    ReachableInv(ss, acts, e);
    StartOfSearch(ss, acts, t, k, b, e);
    assert ReaderOk(ss[e].pcs[t], ss[e].starts[t], ss[e].total, ss[e].page);
  }

  /** In particular a search that no writer overlaps succeeds. */
  lemma UndisturbedSucceeds(ss: seq<State>, acts: seq<Action>, t: Tid, k: Key, b: nat, e: nat)
    requires Run(ss, acts) && InSearch(ss, acts, t, k, b, e) && ss[e].pcs[t].Got?
    requires forall i | b <= i <= e :: !Writing(ss[i])
    ensures Succeeds(ss[e], t)
  {
    SucceedsIff(ss, acts, t, k, b, e);
    SequenceCounts(ss, acts, b);
    SequenceCounts(ss, acts, e);
    NoReleases(ss, acts, b, e);
    OddWord(ss[b].total);
  }

  lemma ReleaserWrites(s: State, a: Action)
    requires Enabled(s, a)
    ensures a.Release? ==> Writing(s)
  {
  }

  lemma {:induction false} NoReleases(ss: seq<State>, acts: seq<Action>, b: nat, e: nat)
    requires Run(ss, acts) && b <= e < |ss| && forall i | b <= i <= e :: !Writing(ss[i])
    ensures Releases(acts[..e]) == Releases(acts[..b])
    decreases e
  {
    if b < e {
      NoReleases(ss, acts, b, e - 1);
      assert StepAt(ss, acts, e - 1);
      assert acts[..e][..e - 1] == acts[..e - 1];
      assert !Writing(ss[e - 1]);
      ReleaserWrites(ss[e - 1], acts[e - 1]);
    }
  }

  // -------------------------------------------------------------------- the writers

  /** What slot `i` holds after the actions, if it held `k` before. */
  ghost function LastWrite(acts: seq<Action>, i: nat, k: Key): Key {
    if acts == [] then k
    else
      var a := acts[|acts| - 1];
      if a.WriteSlot? && a.i == i then a.k else LastWrite(acts[..|acts| - 1], i, k)
  }

  ghost function LastCount(acts: seq<Action>, n: nat): nat {
    if acts == [] then n
    else if acts[|acts| - 1].WriteCount? then acts[|acts| - 1].n else LastCount(acts[..|acts| - 1], n)
  }

  /** The page holds what was last written to each slot and to the count, by threads that held the lock. */
  lemma {:induction false} PageIsLastWrites(ss: seq<State>, acts: seq<Action>, e: nat, i: nat)
    requires Run(ss, acts) && e < |ss| && i < |ss[0].page.slots|
    ensures |ss[e].page.slots| == |ss[0].page.slots|
    ensures ss[e].page.slots[i] == LastWrite(acts[..e], i, ss[0].page.slots[i])
    ensures ss[e].page.count == LastCount(acts[..e], ss[0].page.count)
    ensures forall j | 0 <= j < e && (acts[j].WriteSlot? || acts[j].WriteCount?) :: acts[j].t < |ss[j].pcs|
              && ss[j].pcs[acts[j].t].Locked?
  {
    if e > 0 {
      PageIsLastWrites(ss, acts, e - 1, i);
      assert StepAt(ss, acts, e - 1);
      assert acts[..e][..e - 1] == acts[..e - 1];
    }
  }
}
