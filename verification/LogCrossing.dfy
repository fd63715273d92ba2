/**
 Reservations that lie across a chunk boundary: where their bytes go, when they can
 happen at all, and what they do to the log.
 */
module LogCrossing {
  import opened Basics
  import opened LogStore
  import opened LogStoreProof
  import opened LogStoreRuns

  // ------------------------------------------------------ where a value is stored

  /** The chunks a range goes on into are cached, each in the buffer behind the one before. */
  ghost predicate Adjoining(cache: Cache, pos: Pos, size: nat)
    requires ChunkOf(pos) in cache
  {
    size > 0 ==>
      forall c | ChunkOf(pos) < c <= ChunkOf(pos + size - 1) ::
        c in cache && cache[c] == cache[ChunkOf(pos)] + (c - ChunkOf(pos))
  }

  lemma Split(pos: Pos)
    ensures pos == ChunkOf(pos) * CHUNK_SIZE + OffsetOf(pos)
  {
  }

  /**
   `append` stores its value from one pointer on.  The bytes land where the flusher
   looks for them exactly if every further chunk has the buffer behind.
   */
  lemma WriteLandsIff(cache: Cache, pos: Pos, size: nat)
    requires ChunkOf(pos) in cache
    ensures Stretch(AddressOf(cache, pos), size) == Image(cache, pos, pos + size) <==> Adjoining(cache, pos, size)
  {
    var written, image := Stretch(AddressOf(cache, pos), size), Image(cache, pos, pos + size);
    if Adjoining(cache, pos, size) {
      forall i | 0 <= i < size
        ensures written[i] == image[i]
      {
        ChunkMonotone(pos, pos + i);
        ChunkMonotone(pos + i, pos + size - 1);
        Split(pos);
        Split(pos + i);
        assert AddressOf(cache, pos + i) == AddressOf(cache, pos) + i;
      }
    }
    if written == image && size > 0 {
      forall c | ChunkOf(pos) < c <= ChunkOf(pos + size - 1)
        ensures c in cache && cache[c] == cache[ChunkOf(pos)] + (c - ChunkOf(pos))
      {
        var i := FirstOf(pos, size, c);
        Split(pos);
        assert written[i] == image[i];
        assert AddressOf(cache, pos + i) == AddressOf(cache, pos) + i;
      }
    }
  }

  /** Where in a range chunk `c` begins. */
  lemma FirstOf(pos: Pos, size: nat, c: ChunkId) returns (i: nat)
    requires size > 0 && ChunkOf(pos) < c <= ChunkOf(pos + size - 1)
    ensures i < size && pos + i == c * CHUNK_SIZE && ChunkOf(pos + i) == c && OffsetOf(pos + i) == 0
  {
    i := c * CHUNK_SIZE - pos;
  }

  /** A value of at most a chunk has one further chunk at most, and has it exactly if it crosses. */
  lemma AdjoiningNext(cache: Cache, pos: Pos, size: nat)
    requires ChunkOf(pos) in cache && size <= CHUNK_SIZE
    ensures Adjoining(cache, pos, size) <==>
              !Crosses(pos, size) || (ChunkOf(pos) + 1 in cache && cache[ChunkOf(pos) + 1] == cache[ChunkOf(pos)] + 1)
  {
    Split(pos);
    if Crosses(pos, size) {
      assert ChunkOf(pos + size - 1) == ChunkOf(pos) + 1;
    } else if size > 0 {
      assert ChunkOf(pos + size - 1) == ChunkOf(pos);
    }
  }

  /** In every run: the addresses an appender stores to are those of its range, exactly if its chunks adjoin. */
  lemma StoredInPlaceIff(n: nat, ss: seq<State>, xs: seq<Action>, i: nat, t: Tid)
    requires Run(n, ss, xs) && i < |xs| && xs[i] == Appender(WriteValue(t)) && StepAt(ss, xs, i)
    ensures var s := ss[i];
            var r := s.reservations[s.pcs[t].k];
            && ChunkOf(r.pos) in s.cache
            && (Stretch(s.pcs[t].base, r.size) == Image(s.cache, r.pos, r.pos + r.size)
                <==> Adjoining(s.cache, r.pos, r.size))
  {
    var s := ss[i];
    BufferNotRecycled(n, ss, xs, i, t, 0);
    WriteLandsIff(s.cache, s.reservations[s.pcs[t].k].pos, s.reservations[s.pcs[t].k].size);
  }

  // ---------------------------------------------------------- a single appender

  /** Values are neither empty nor larger than a chunk. */
  ghost predicate Sized(x: Action) {
    x.Appender? && x.a.LoadView? ==> 1 <= x.a.size <= CHUNK_SIZE
  }

  ghost predicate AllSized(xs: seq<Action>) { forall i | 0 <= i < |xs| :: Sized(xs[i]) }

  ghost predicate SizeOk(pc: Pc) {
    pc.Loaded? || InGoForward(pc) ==> 1 <= pc.size <= CHUNK_SIZE
  }

  /** An undisturbed `go_forward` finds the boundary it aligned to. */
  ghost predicate Undisturbed(pc: Pc, appendPos: Pos) {
    && SizeOk(pc)
    && (pc.Reread? ==> appendPos == pc.aligned && OffsetOf(pc.aligned) == 0)
    && (pc.Try? ==> !Crosses(pc.prev, pc.size))
  }

  ghost predicate Solo(s: State) {
    |s.pcs| <= 1 && NoneCross(s.reservations) && forall t | 0 <= t < |s.pcs| :: Undisturbed(s.pcs[t], s.appendPos)
  }

  lemma SoloStep(s: State, x: Action)
    requires Solo(s) && Enabled(s, x) && Sized(x)
    ensures Solo(Apply(s, x))
  {
    if x.Appender? {
      assert x.a.t == 0 && Undisturbed(s.pcs[0], s.appendPos);
      if x.a.AlignCas? {
        AlignUpBounds(s.pcs[0].prev);
      }
    }
  }

  lemma {:induction false} SoloRun(n: nat, ss: seq<State>, xs: seq<Action>, i: nat)
    requires Run(n, ss, xs) && AllSized(xs) && n <= 1 && i < |ss|
    ensures Solo(ss[i])
  {
    if i > 0 {
      SoloRun(n, ss, xs, i - 1);
      assert StepAt(ss, xs, i - 1);
      SoloStep(ss[i - 1], xs[i - 1]);
    }
  }

  // ------------------------------------------------------------ reachable states

  ghost predicate CanReach(n: nat, s: State) {
    exists ss, xs :: Run(n, ss, xs) && AllSized(xs) && ss[|xs|] == s
  }

  lemma Reach(n: nat, s: State, x: Action)
    requires CanReach(n, s) && Enabled(s, x) && Sized(x)
    ensures CanReach(n, Apply(s, x))
  {
    var ss, xs :| Run(n, ss, xs) && AllSized(xs) && ss[|xs|] == s;
    var ss', xs' := ss + [Apply(s, x)], xs + [x];
    forall i | 0 <= i < |xs'|
      ensures StepAt(ss', xs', i)
    {
      assert i < |xs| ==> StepAt(ss, xs, i);
    }
    assert Run(n, ss', xs');
  }

  /** The appender's scan of the published chunks, up to its end. */
  lemma {:induction false} ReachAsserted(n: nat, s: State, u: Tid) returns (min: nat)
    requires CanReach(n, s) && HasThread(s, u) && s.pcs[u].Asserting? && s.pcs[u].i <= |s.views|
    ensures CanReach(n, s.(pcs := s.pcs[u := s.pcs[u].(i := |s.views|, min := min)]))
    decreases |s.views| - s.pcs[u].i
  {
    if s.pcs[u].i == |s.views| {
      min := s.pcs[u].min;
      assert s.pcs[u := s.pcs[u].(i := |s.views|, min := min)] == s.pcs;
    } else {
      Reach(n, s, Appender(MinNext(u)));
      var s1 := Apply(s, Appender(MinNext(u)));
      min := ReachAsserted(n, s1, u);
      assert s1.pcs[u := s1.pcs[u].(i := |s.views|, min := min)] == s.pcs[u := s.pcs[u].(i := |s.views|, min := min)];
    }
  }

  /** The rest of an append once its range is reserved. */
  ghost function Finished(s: State, u: Tid, k: nat): State
    requires HasThread(s, u) && k < |s.reservations|
  {
    var r := s.reservations[k];
    s.(views := s.views[u := VIEW_DEFAULT], pcs := s.pcs[u := Idle],
       reservations := s.reservations[k := r.(done := true)],
       memory := s.memory + [Store(AddressOf(s.cache, r.pos), r.size, Some(k))])
  }

  lemma ReachFinished(n: nat, s: State, u: Tid, k: nat)
    requires CanReach(n, s) && HasThread(s, u) && s.pcs[u] == Reserved(k) && k < |s.reservations|
    requires ChunkOf(s.reservations[k].pos) in s.cache
    ensures CanReach(n, Finished(s, u, k))
  {
    var base := AddressOf(s.cache, s.reservations[k].pos);
    Reach(n, s, Appender(FindBuffer(u)));
    var s1 := s.(pcs := s.pcs[u := HasBuffer(k, base)]);
    assert Apply(s, Appender(FindBuffer(u))) == s1;
    Reach(n, s1, Appender(MinFirst(u)));
    var s2 := s.(pcs := s.pcs[u := Asserting(k, base, 0, s.views[0])]);
    assert Apply(s1, Appender(MinFirst(u))) == s2;
    var min := ReachAsserted(n, s2, u);
    var s3 := s.(pcs := s.pcs[u := Asserting(k, base, |s.views|, min)]);
    assert s2.(pcs := s2.pcs[u := s2.pcs[u].(i := |s2.views|, min := min)]) == s3;
    ReachStored(n, s, s3, u, k);
  }

  lemma ReachStored(n: nat, s: State, s3: State, u: Tid, k: nat)
    requires CanReach(n, s3) && HasThread(s, u) && k < |s.reservations| && |s3.pcs| == |s.pcs|
    requires s3.pcs[u].Asserting? && s3.pcs[u].k == k && s3.pcs[u].i == |s.views|
    requires s3.pcs[u].base == AddressOf(s.cache, s.reservations[k].pos)
    requires s3 == s.(pcs := s.pcs[u := s3.pcs[u]])
    ensures CanReach(n, Finished(s, u, k))
  {
    Reach(n, s3, Appender(WriteValue(u)));
    var s4 := Apply(s3, Appender(WriteValue(u)));
    Reach(n, s4, Appender(ResetView(u)));
    assert Apply(s4, Appender(ResetView(u))) == Finished(s, u, k);
  }

  /** A whole append that nobody disturbs and that fits. */
  ghost function Appended(s: State, size: nat): State {
    s.(appendPos := s.appendPos + size, reservations := s.reservations + [Reservation(s.appendPos, size, true)],
       memory := s.memory + [Store(AddressOf(s.cache, s.appendPos), size, Some(|s.reservations|))])
  }

  ghost predicate Away(s: State, u: Tid) {
    HasThread(s, u) && s.pcs[u] == Idle && s.views[u] == VIEW_DEFAULT
  }

  ghost predicate Fitting(s: State, size: nat) {
    1 <= size <= CHUNK_SIZE && !Crosses(s.appendPos, size) && ChunkOf(s.appendPos) in s.cache
  }

  lemma ReachAppended(n: nat, s: State, u: Tid, size: nat)
    requires CanReach(n, s) && Away(s, u) && Fitting(s, size)
    ensures CanReach(n, Appended(s, size))
  {
    var s1 := Apply(s, Appender(LoadView(u, size)));
    Reach(n, s, Appender(LoadView(u, size)));
    var s2 := Apply(s1, Appender(StoreView(u)));
    Reach(n, s1, Appender(StoreView(u)));
    var s3 := Apply(s2, Appender(LoadPos(u)));
    Reach(n, s2, Appender(LoadPos(u)));
    var s4 := Apply(s3, Appender(ReserveCas(u)));
    Reach(n, s3, Appender(ReserveCas(u)));
    ReachFinished(n, s4, u, |s.reservations|);
    assert s4.views[u := VIEW_DEFAULT] == s.views && s4.pcs[u := Idle] == s.pcs;
    assert Finished(s4, u, |s.reservations|) == Appended(s, size);
  }

  /** Thread `u` finds that ten bytes do not fit and moves `append_pos` to the boundary. */
  ghost function Aligned(s: State, u: Tid): State
    requires HasThread(s, u)
  {
    s.(appendPos := AlignUp(s.appendPos), views := s.views[u := ChunkOf(s.appendPos)],
       pcs := s.pcs[u := Reread(10, AlignUp(s.appendPos))])
  }

  lemma ReachAligned(n: nat, s: State, u: Tid)
    requires CanReach(n, s) && Away(s, u) && Crosses(s.appendPos, 10)
    ensures CanReach(n, Aligned(s, u))
  {
    var s1 := Apply(s, Appender(LoadView(u, 10)));
    Reach(n, s, Appender(LoadView(u, 10)));
    var s2 := Apply(s1, Appender(StoreView(u)));
    Reach(n, s1, Appender(StoreView(u)));
    var s3 := Apply(s2, Appender(LoadPos(u)));
    Reach(n, s2, Appender(LoadPos(u)));
    Reach(n, s3, Appender(AlignCas(u)));
    assert Apply(s3, Appender(AlignCas(u))) == Aligned(s, u);
  }

  /** It re-reads `append_pos`, takes what it finds there untested and goes on to the end. */
  ghost function Resumed(s: State, u: Tid): State
    requires HasThread(s, u)
  {
    Appended(s, 10).(views := s.views[u := VIEW_DEFAULT], pcs := s.pcs[u := Idle])
  }

  lemma ReachResumed(n: nat, s: State, u: Tid, aligned: Pos)
    requires CanReach(n, s) && HasThread(s, u) && s.pcs[u] == Reread(10, aligned) && ChunkOf(s.appendPos) in s.cache
    ensures CanReach(n, Resumed(s, u))
  {
    var s1 := Apply(s, Appender(LoadAligned(u)));
    Reach(n, s, Appender(LoadAligned(u)));
    var s2 := Apply(s1, Appender(ReserveCas(u)));
    Reach(n, s1, Appender(ReserveCas(u)));
    ReachFinished(n, s2, u, |s.reservations|);
    assert s2.pcs[u := Idle] == s.pcs[u := Idle];
    assert Finished(s2, u, |s.reservations|) == Resumed(s, u);
  }

  // ------------------------------------------------------------------ a whole flush

  ghost predicate NoneInside(s: State) {
    |s.views| > 0 && forall t | 0 <= t < |s.views| :: s.views[t] == VIEW_DEFAULT
  }

  lemma {:induction false} ReachScanned(n: nat, s: State)
    requires CanReach(n, s) && NoneInside(s) && s.flusher.Scanning? && s.flusher.i <= |s.views|
    requires s.flusher.min == VIEW_DEFAULT
    ensures CanReach(n, s.(flusher := s.flusher.(i := |s.views|)))
    decreases |s.views| - s.flusher.i
  {
    if s.flusher.i < |s.views| {
      Reach(n, s, Flushing(ScanNext));
      var s1 := Apply(s, Flushing(ScanNext));
      ReachScanned(n, s1);
      assert s1.(flusher := s1.flusher.(i := |s.views|)) == s.(flusher := s.flusher.(i := |s.views|));
    } else {
      assert s.(flusher := s.flusher.(i := |s.views|)) == s;
    }
  }

  /** One round of the flusher's loop while no appender is inside. */
  lemma ReachUnit(n: nat, s: State)
    requires CanReach(n, s) && NoneInside(s) && s.flusher.LoopTop? && s.writePos + FLUSH_UNIT <= s.appendPos
    requires ChunkOf(s.writePos) in s.cache && ChunkOf(s.writePos) < VIEW_DEFAULT
    ensures CanReach(n, s.(writePos := s.writePos + FLUSH_UNIT))
  {
    var from := s.flusher.from;
    Reach(n, s, Flushing(ReadAppendPos));
    var s1 := s.(flusher := CanRead(from));
    Reach(n, s1, Flushing(FindCache(true)));
    var s2 := s.(flusher := ScanStart(from));
    Reach(n, s2, Flushing(ScanFirst));
    var s3 := s.(flusher := Scanning(from, 0, VIEW_DEFAULT));
    ReachScanned(n, s3);
    var s4 := s.(flusher := Scanning(from, |s.views|, VIEW_DEFAULT));
    assert s3.(flusher := s3.flusher.(i := |s3.views|)) == s4;
    Reach(n, s4, Flushing(Emit));
    assert Apply(s4, Flushing(Emit)) == s.(writePos := s.writePos + FLUSH_UNIT);
  }

  lemma {:induction false} ReachUnits(n: nat, s: State, m: nat)
    requires CanReach(n, s) && NoneInside(s) && s.flusher.LoopTop? && s.writePos + m * FLUSH_UNIT <= s.appendPos
    requires forall p: Pos | s.writePos <= p < s.writePos + m * FLUSH_UNIT ::
               ChunkOf(p) in s.cache && ChunkOf(p) < VIEW_DEFAULT
    ensures CanReach(n, s.(writePos := s.writePos + m * FLUSH_UNIT))
    decreases m
  {
    if m > 0 {
      var s1 := s.(writePos := s.writePos + FLUSH_UNIT);
      assert ChunkOf(s.writePos) in s.cache && ChunkOf(s.writePos) < VIEW_DEFAULT;
      ReachUnit(n, s);
      ReachUnits(n, s1, m - 1);
      assert s1.writePos + (m - 1) * FLUSH_UNIT == s.writePos + m * FLUSH_UNIT;
    } else {
      assert s.(writePos := s.writePos + 0 * FLUSH_UNIT) == s;
    }
  }

  // ------------------------------------------------------------- a byte gone astray

  const C: nat := CHUNK_SIZE

  lemma Places(k: nat)
    requires k >= 1
    ensures ChunkOf(k * C) == k && OffsetOf(k * C) == 0 && ChunkOf(k * C + 5) == k && OffsetOf(k * C + 5) == 5
    ensures ChunkOf(k * C - 5) == k - 1 && OffsetOf(k * C - 5) == C - 5 && AlignUp(k * C - 5) == k * C
  {
  }

  /** Chunk 1 is filled but for five bytes; thread 0 aligns to chunk 2, which thread 1 then fills but for five bytes. */
  lemma ReachGap(n: nat) returns (s: State)
    requires n >= 2
    ensures CanReach(n, s) && HasThread(s, 0) && HasThread(s, 1) && s.pcs[0] == Reread(10, 2 * C) && Away(s, 1)
    ensures s.appendPos == 3 * C - 5 && s.writePos == C && s.cache == map[1 := 0, 2 := 2] && s.highWater == 3
    ensures s.nextChunk == 3 && s.flusher == Resting && |s.reservations| == 2
    ensures forall t | 0 < t < |s.views| :: s.views[t] == VIEW_DEFAULT
  {
    var s0 := InitState(n);
    assert Run(n, [s0], []) && CanReach(n, s0);
    Places(1);
    Places(2);
    ReachAppended(n, s0, 1, C - 5);
    var s1 := Appended(s0, C - 5);
    ReachAligned(n, s1, 0);
    var s2 := Aligned(s1, 0);
    assert |s2.cache| == 1 && Allocates(s2, 2);
    Reach(n, s2, Flushing(CreateChunk(2)));
    var s3 := Apply(s2, Flushing(CreateChunk(2)));
    ReachAppended(n, s3, 1, C - 5);
    s := Appended(s3, C - 5);
    assert s.cache == map[1 := 0, 2 := 2];
  }

  /**
   Thread 0 stores ten bytes across the end of chunk 2, five of them into buffer 3.
   Then chunk 3 is created there, which clears them.
   */
  lemma ReachCleared(n: nat) returns (s: State)
    requires n >= 2
    ensures CanReach(n, s) && NoneInside(s) && Away(s, 1) && s.flusher == Resting && s.writePos == C
    ensures s.appendPos == 3 * C + 5 && s.cache == map[1 := 0, 2 := 2, 3 := 3]
    ensures |s.reservations| == 3 && s.reservations[2] == Reservation(3 * C - 5, 10, true)
    ensures ByteAt(s.memory, 3 * C) == None
  {
    var g := ReachGap(n);
    Places(3);
    ReachResumed(n, g, 0, 2 * C);
    var s1 := Resumed(g, 0);
    assert s1.cache == map[1 := 0, 2 := 2] && |s1.cache| == 2 && Allocates(s1, 3);
    Reach(n, s1, Flushing(CreateChunk(3)));
    s := Apply(s1, Flushing(CreateChunk(3)));
    ByteAtPush(s1.memory, Store(3 * C, C, None), 3 * C);
  }

  lemma ReachLost(n: nat) returns (s: State)
    requires n >= 2
    ensures CanReach(n, s) && NoneInside(s) && s.flusher == Resting && s.writePos == C && s.appendPos == 4 * C - 5
    ensures s.cache == map[1 := 0, 2 := 2, 3 := 3]
    ensures |s.reservations| == 4 && s.reservations[2] == Reservation(3 * C - 5, 10, true)
    ensures ByteAt(s.memory, 3 * C) == None
  {
    var s2 := ReachCleared(n);
    Places(3);
    ReachAppended(n, s2, 1, C - 10);
    s := Appended(s2, C - 10);
    ByteAtPush(s2.memory, Store(AddressOf(s2.cache, s2.appendPos), C - 10, Some(3)), 3 * C);
  }

  /** The flusher writes the first byte of chunk 3 out, where the sixth byte of that value should be. */
  lemma ReachWrong(n: nat) returns (s: State)
    requires n >= 2
    ensures CanReach(n, s) && s.flusher == Stopped(C) && s.writePos == 4 * C - FLUSH_UNIT
    ensures |s.reservations| == 4 && s.reservations[2] == Reservation(3 * C - 5, 10, true)
    ensures !RightByte(s, 2, 5)
  {
    var s0 := ReachLost(n);
    Places(3);
    Reach(n, s0, Flushing(Begin));
    var s1 := s0.(flusher := LoopTop(C));
    assert Apply(s0, Flushing(Begin)) == s1;
    forall p: Pos | s1.writePos <= p < s1.writePos + 191 * FLUSH_UNIT
      ensures ChunkOf(p) in s1.cache && ChunkOf(p) < VIEW_DEFAULT
    {
      assert 1 <= ChunkOf(p) <= 3;
    }
    ReachUnits(n, s1, 191);
    var s2 := s1.(writePos := 4 * C - FLUSH_UNIT);
    assert s1.(writePos := s1.writePos + 191 * FLUSH_UNIT) == s2;
    Reach(n, s2, Flushing(ReadAppendPos));
    s := s2.(flusher := Stopped(C));
    assert Apply(s2, Flushing(ReadAppendPos)) == s;
    assert AddressOf(s.cache, s.reservations[2].pos + 5) == 3 * C;
  }

  // ----------------------------------------------------------- the exact conditions

  /** What the flusher is about to write out is, byte by byte, what the appenders stored. */
  ghost predicate EmitsRight(s: State) {
    s.flusher.Stopped? ==>
      forall k: nat, b: nat | k < |s.reservations| && b < s.reservations[k].size
                              && s.flusher.from <= s.reservations[k].pos + b < s.writePos :: RightByte(s, k, b)
  }

  ghost predicate NeverCrosses(n: nat) {
    forall s | CanReach(n, s) :: NoneCross(s.reservations)
  }

  ghost predicate AlwaysEmitsRight(n: nat) {
    forall s | CanReach(n, s) :: EmitsRight(s)
  }

  /** With values of at most a chunk, no reservation ever crosses exactly if there is one appender at most. */
  lemma NeverCrossesIff(n: nat)
    ensures NeverCrosses(n) <==> n <= 1
  {
    if n <= 1 {
      forall s | CanReach(n, s)
        ensures NoneCross(s.reservations)
      {
        var ss, xs :| Run(n, ss, xs) && AllSized(xs) && ss[|xs|] == s;
        SoloRun(n, ss, xs, |xs|);
      }
    } else {
      var s := ReachWrong(n);
      Places(3);
      assert Crosses(s.reservations[2].pos, s.reservations[2].size);
    }
  }

  /** And exactly then the log always comes out as it was appended. */
  lemma AlwaysEmitsRightIff(n: nat)
    ensures AlwaysEmitsRight(n) <==> n <= 1
  {
    if n <= 1 {
      forall s | CanReach(n, s)
        ensures EmitsRight(s)
      {
        var ss, xs :| Run(n, ss, xs) && AllSized(xs) && ss[|xs|] == s;
        SoloRun(n, ss, xs, |xs|);
        EmitsRightUnlessCrossing(n, ss, xs, |xs|);
      }
    } else {
      var s := ReachWrong(n);
      assert !EmitsRight(s);
    }
  }

  lemma EmitsRightUnlessCrossing(n: nat, ss: seq<State>, xs: seq<Action>, i: nat)
    requires Run(n, ss, xs) && i < |ss| && NoneCross(ss[i].reservations)
    ensures EmitsRight(ss[i])
  {
    var s := ss[i];
    if s.flusher.Stopped? {
      forall k: nat, b: nat | k < |s.reservations| && b < s.reservations[k].size
                              && s.flusher.from <= s.reservations[k].pos + b < s.writePos
        ensures RightByte(s, k, b)
      {
        FlushSafety(n, ss, xs, i, i, k, b);
      }
    }
  }
}
