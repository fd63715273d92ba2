/** Conservation of the pooled nodes over whole runs of pushes and pops by any threads. */
module PoolRuns {
  import opened Basics
  import opened DList
  import opened PooledLists

  datatype Op = Push(tid: nat, x: Node, locked: bool) | Pop(tid: nat, locked: bool)

  /** `PRIVATE_COUNT` and `SHARING_THRESHOLD`. */
  datatype Config = Config(private_: nat, threshold: nat)

  ghost function Step(c: Config, ls: Lists, op: Op): (r: (Lists, Option<Node>))
    requires op.tid < |ls| - 1
    ensures |r.0| == |ls|
  {
    match op
    case Push(tid, x, locked) => (AfterPush(ls, tid, x, locked, c.private_, c.threshold), None)
    case Pop(tid, locked) => AfterPop(ls, tid, locked, c.private_)
  }

  ghost predicate InRange(n: nat, ops: seq<Op>) {
    forall op | op in ops :: op.tid < n
  }

  /** The lists after a run and what each operation returned. */
  ghost function Run(c: Config, ls: Lists, ops: seq<Op>): (r: (Lists, seq<Option<Node>>))
    requires |ls| > 0 && InRange(|ls| - 1, ops)
    ensures |r.0| == |ls| && |r.1| == |ops|
  {
    if ops == [] then (ls, []) else
      var before := ops[..|ops| - 1];
      var r := Run(c, ls, before);
      var s := Step(c, r.0, ops[|ops| - 1]);
      (s.0, r.1 + [s.1])
  }

  ghost function Occurrences(s: seq<Node>, x: Node): nat {
    if s == [] then 0 else (if s[0] == x then 1 else 0) + Occurrences(s[1..], x)
  }

  /** How often `x` is in the lists. */
  ghost function Held(ls: Lists, x: Node): nat {
    if ls == [] then 0 else Occurrences(ls[0], x) + Held(ls[1..], x)
  }

  /** How often `x` was pushed. */
  ghost function Given(ops: seq<Op>, x: Node): nat {
    if ops == [] then 0 else Given(ops[..|ops| - 1], x) + Gives(ops[|ops| - 1], x)
  }

  ghost function Gives(op: Op, x: Node): nat {
    if op.Push? && op.x == x then 1 else 0
  }

  /** How often `x` was returned. */
  ghost function HandedOut(out: seq<Option<Node>>, x: Node): nat {
    if out == [] then 0 else HandedOut(out[..|out| - 1], x) + Takes(out[|out| - 1], x)
  }

  ghost function Takes(r: Option<Node>, x: Node): nat {
    if r == Some(x) then 1 else 0
  }

  lemma {:induction false} OccurrencesConcat(a: seq<Node>, b: seq<Node>, x: Node)
    ensures Occurrences(a + b, x) == Occurrences(a, x) + Occurrences(b, x)
  {
    if a == [] {
      assert a + b == b;
    } else {
      assert (a + b)[1..] == a[1..] + b;
      OccurrencesConcat(a[1..], b, x);
    }
  }

  lemma {:induction false} HeldUpdate(ls: Lists, i: nat, s: seq<Node>, x: Node)
    requires i < |ls|
    ensures Held(ls[i := s], x) + Occurrences(ls[i], x) == Held(ls, x) + Occurrences(s, x)
  {
    if i > 0 {
      HeldUpdate(ls[1..], i - 1, s, x);
      assert ls[i := s][1..] == ls[1..][i - 1 := s];
    } else {
      assert ls[i := s][1..] == ls[1..];
    }
  }

  lemma MovedHeld(ls: Lists, from: nat, to: nat, n: nat, x: Node)
    requires from < |ls| && to < |ls| && from != to
    ensures Held(Moved(ls, from, to, n), x) == Held(ls, x)
  {
    var k := Min(n, |ls[from]|);
    var seg, rest := ls[from][..k], ls[from][k..];
    assert ls[from] == seg + rest;
    OccurrencesConcat(seg, rest, x);
    OccurrencesConcat(seg, ls[to], x);
    HeldUpdate(ls, from, rest, x);
    HeldUpdate(ls[from := rest], to, seg + ls[to], x);
  }

  lemma PushedHeld(ls: Lists, i: nat, y: Node, x: Node)
    requires i < |ls|
    ensures Held(Pushed(ls, i, y), x) == Held(ls, x) + if x == y then 1 else 0
  {
    HeldUpdate(ls, i, [y] + ls[i], x);
    assert ([y] + ls[i])[1..] == ls[i];
  }

  lemma PoppedHeld(ls: Lists, i: nat, x: Node)
    requires i < |ls|
    ensures Held(Popped(ls, i).0, x) + Takes(Popped(ls, i).1, x) == Held(ls, x)
  {
    if ls[i] != [] {
      HeldUpdate(ls, i, ls[i][1..], x);
    }
  }

  lemma PushHeld(c: Config, ls: Lists, tid: nat, y: Node, locked: bool, x: Node)
    requires tid < |ls| - 1
    ensures Held(AfterPush(ls, tid, y, locked, c.private_, c.threshold), x) == Held(ls, x) + if x == y then 1 else 0
  {
    PushedHeld(ls, tid, y, x);
    PushedHeld(ls, |ls| - 1, y, x);
    MovedHeld(Pushed(ls, tid, y), tid, |ls| - 1, c.private_, x);
  }

  lemma PopHeld(c: Config, ls: Lists, tid: nat, locked: bool, x: Node)
    requires tid < |ls| - 1
    ensures var r := AfterPop(ls, tid, locked, c.private_); Held(r.0, x) + Takes(r.1, x) == Held(ls, x)
  {
    var shared := |ls| - 1;
    if c.private_ == 0 {
      PoppedHeld(ls, shared, x);
    } else if ls[tid] == [] && locked {
      MovedHeld(ls, shared, tid, c.private_, x);
      PoppedHeld(Moved(ls, shared, tid, c.private_), tid, x);
    } else {
      PoppedHeld(ls, tid, x);
    }
  }

  lemma StepHeld(c: Config, ls: Lists, op: Op, x: Node)
    requires op.tid < |ls| - 1
    ensures var r := Step(c, ls, op); Held(r.0, x) + Takes(r.1, x) == Held(ls, x) + Gives(op, x)
  {
    match op
    case Push(tid, y, locked) => PushHeld(c, ls, tid, y, locked, x);
    case Pop(tid, locked) => PopHeld(c, ls, tid, locked, x);
  }

  /** Whatever the threads and the lock do, nothing pushed is lost and nothing is made up. */
  lemma {:induction false} Conservation(c: Config, ls: Lists, ops: seq<Op>, x: Node)
    requires |ls| > 0 && InRange(|ls| - 1, ops)
    ensures Held(Run(c, ls, ops).0, x) + HandedOut(Run(c, ls, ops).1, x) == Held(ls, x) + Given(ops, x)
  {
    if ops != [] {
      var before := ops[..|ops| - 1];
      Conservation(c, ls, before, x);
      StepHeld(c, Run(c, ls, before).0, ops[|ops| - 1], x);
      var r := Run(c, ls, ops);
      assert r.1[..|ops| - 1] == Run(c, ls, before).1;
    }
  }

  /** The client's obligation: a node is pushed only while it is not in the pool. */
  ghost predicate Legal(c: Config, ls: Lists, ops: seq<Op>)
    requires |ls| > 0
  {
    && InRange(|ls| - 1, ops)
    && forall i {:trigger ops[i]} | 0 <= i < |ops| && ops[i].Push? :: PushLegal(c, ls, ops, i)
  }

  ghost predicate PushLegal(c: Config, ls: Lists, ops: seq<Op>, i: nat)
    requires |ls| > 0 && InRange(|ls| - 1, ops) && i < |ops| && ops[i].Push?
  {
    ops[i].x >= |ls| && Held(Run(c, ls, ops[..i]).0, ops[i].x) == 0
  }

  /** At every point of a run a node has been handed out as often as it was pushed, or once less. */
  lemma HandedOutOncePerPush(c: Config, ls: Lists, ops: seq<Op>, n: nat, x: Node)
    requires |ls| > 0 && Legal(c, ls, ops) && n <= |ops| && Held(ls, x) == 0
    ensures HandedOut(Run(c, ls, ops[..n]).1, x) <= Given(ops[..n], x) <= HandedOut(Run(c, ls, ops[..n]).1, x) + 1
  {
    Conservation(c, ls, ops[..n], x);
    HeldOnce(c, ls, ops, n, x);
  }

  lemma {:induction false} HeldOnce(c: Config, ls: Lists, ops: seq<Op>, n: nat, x: Node)
    requires |ls| > 0 && Legal(c, ls, ops) && n <= |ops| && Held(ls, x) == 0
    ensures Held(Run(c, ls, ops[..n]).0, x) <= 1
  {
    if n > 0 {
      HeldOnce(c, ls, ops, n - 1, x);
      assert ops[..n][..n - 1] == ops[..n - 1];
      StepHeld(c, Run(c, ls, ops[..n - 1]).0, ops[n - 1], x);
      assert ops[n - 1].Push? ==> PushLegal(c, ls, ops, n - 1);
    }
  }

  lemma {:induction false} HeldIn(ls: Lists, i: nat, x: Node)
    requires i < |ls| && x in ls[i]
    ensures Held(ls, x) > 0
  {
    if i > 0 {
      HeldIn(ls[1..], i - 1, x);
    } else {
      OccursIn(ls[0], x);
    }
  }

  lemma {:induction false} OccursIn(s: seq<Node>, x: Node)
    requires x in s
    ensures Occurrences(s, x) > 0
  {
    if s[0] != x { OccursIn(s[1..], x); }
  }

  /** The linked lists follow the run. */
  method RunPool(p: Pool, ops: seq<Op>) returns (out: seq<Option<Node>>)
    requires p.Valid() && p.heads == seq(p.shared + 1, i => i)
    requires Legal(Config(p.privateCount, p.sharingThreshold), p.lists, ops)
    modifies p, p.store
    ensures p.Valid()
    ensures (p.lists, out) == Run(Config(p.privateCount, p.sharingThreshold), old(p.lists), ops)
  {
    ghost var c := Config(p.privateCount, p.sharingThreshold);
    ghost var ls := p.lists;
    out := [];
    for i := 0 to |ops|
      invariant p.Valid() && |p.lists| == |ls|
      invariant (p.lists, out) == Run(c, ls, ops[..i])
    {
      assert ops[..i + 1][..i] == ops[..i] && ops[i] in ops;
      match ops[i]
      case Push(tid, x, locked) =>
        assert PushLegal(c, ls, ops, i);
        NotOwned(p.heads, p.lists, x);
        p.Push(tid, x, locked);
        out := out + [None];
      case Pop(tid, locked) =>
        var r := p.Pop(tid, locked);
        out := out + [r];
    }
    assert ops[..|ops|] == ops;
  }

  lemma NotOwned(heads: seq<Node>, ls: Lists, x: Node)
    requires |heads| == |ls| && heads == seq(|ls|, i => i) && x >= |ls| && Held(ls, x) == 0
    ensures Free(heads, ls, x)
  {
    forall i: nat
      ensures !Owns(heads, ls, i, x)
    {
      if i < |ls| && x in ls[i] { HeldIn(ls, i, x); }
    }
  }
}
