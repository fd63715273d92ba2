/** The invariant of the log store and what it gives over whole runs. */
module LogStoreProof {
  import opened Basics
  import opened LogStore

  // -------------------------------------------------------------- arithmetic

  lemma AlignUpBounds(pos: Pos)
    ensures pos <= AlignUp(pos) < pos + CHUNK_SIZE && AlignUp(pos) % CHUNK_SIZE == 0
  {
  }

  lemma ChunkMonotone(a: Pos, b: Pos)
    requires a <= b
    ensures ChunkOf(a) <= ChunkOf(b)
  {
  }

  /** A unit-aligned flush never leaves its chunk. */
  lemma UnitInsideChunk(w: Pos, p: Pos)
    requires w % FLUSH_UNIT == 0 && ChunkOf(p) > ChunkOf(w)
    ensures w + FLUSH_UNIT <= p
  {
    var q, c := w / FLUSH_UNIT, w / CHUNK_SIZE;
    assert w == FLUSH_UNIT * q && CHUNK_SIZE == 64 * FLUSH_UNIT;
    assert w < CHUNK_SIZE * (c + 1) <= p;
    assert q < 64 * (c + 1);
  }

  // --------------------------------------------------------------- invariants

  ghost predicate InGoForward(pc: Pc) { pc.Enter? || pc.Check? || pc.Reread? || pc.Try? }

  ghost predicate HasReservation(pc: Pc) { pc.Reserved? || HasBase(pc) || pc.Written? }

  ghost predicate HasBase(pc: Pc) { pc.HasBuffer? || pc.Asserting? }

  /** The appender's own scan cannot miss what it has published itself. */
  ghost predicate MinOk(pc: Pc, t: Tid, view: nat, n: nat) {
    pc.Asserting? ==> pc.i <= n && (t < pc.i ==> pc.min <= view)
  }

  /** What an appender has published never exceeds the chunk it writes or is about to reserve in. */
  ghost predicate ViewOk(pc: Pc, view: nat, appendPos: Pos, rs: seq<Reservation>) {
    && (pc.Loaded? ==> pc.v <= appendPos)
    && (InGoForward(pc) ==> view <= ChunkOf(appendPos))
    && (pc.Reread? ==> OffsetOf(pc.aligned) == 0)
    && (pc.Try? ==> if pc.origin.Tested? then !Crosses(pc.prev, pc.size) else OffsetOf(pc.origin.aligned) == 0)
    && (HasReservation(pc) ==> pc.k < |rs| && view <= ChunkOf(rs[pc.k].pos) && (rs[pc.k].done <==> pc.Written?))
  }

  ghost predicate Views(s: State) {
    |s.views| == |s.pcs| && forall t | 0 <= t < |s.pcs| :: ViewOk(s.pcs[t], s.views[t], s.appendPos, s.reservations)
  }

  ghost predicate Mins(s: State)
    requires |s.views| == |s.pcs|
  {
    forall t | 0 <= t < |s.pcs| :: MinOk(s.pcs[t], t, s.views[t], |s.views|)
  }

  /** Reservations are laid out in the order they were made, below `append_pos`. */
  ghost predicate Ordered(rs: seq<Reservation>, appendPos: Pos) {
    && (forall k | 0 <= k < |rs| :: rs[k].pos + rs[k].size <= appendPos)
    && (forall j, k | 0 <= j < k < |rs| :: rs[j].pos + rs[j].size <= rs[k].pos)
  }

  /** Thread `t` made reservation `k` and is still inside `append`. */
  ghost predicate OwnedBy(pcs: seq<Pc>, t: Tid, k: nat) {
    t < |pcs| && HasReservation(pcs[t]) && pcs[t].k == k
  }

  /** Every unfinished reservation has one appender inside `append`. */
  ghost predicate Owned(pcs: seq<Pc>, rs: seq<Reservation>) {
    && (forall k | 0 <= k < |rs| && !rs[k].done :: exists t: Tid :: OwnedBy(pcs, t, k))
    && (forall t: Tid, k: nat | OwnedBy(pcs, t, k) :: k < |rs|)
    && (forall t: Tid, u: Tid, k: nat | OwnedBy(pcs, t, k) && OwnedBy(pcs, u, k) :: t == u)
  }

  /** Everything below `write_pos` is written. */
  ghost predicate Complete(s: State) {
    && s.writePos % FLUSH_UNIT == 0 && s.writePos <= s.appendPos
    && (forall k | 0 <= k < |s.reservations| && !s.reservations[k].done :: s.writePos <= s.reservations[k].pos)
  }

  ghost function From(s: State): Pos {
    match s.flusher
    case Resting => s.writePos
    case Flushed(from, to) => to
    case _ => s.flusher.from
  }

  /** No chunk that was created and is not written out has lost its buffer. */
  ghost predicate FlusherOk(s: State) {
    && From(s) <= s.writePos && From(s) % FLUSH_UNIT == 0
    && (s.flusher.Flushed? ==> s.flusher.from <= s.flusher.to == s.writePos)
    && (forall id | ChunkOf(From(s)) <= id < s.nextChunk :: id in s.cache)
    && (s.flusher.CanRead? || s.flusher.ScanStart? || s.flusher.Scanning? ==> s.writePos + FLUSH_UNIT <= s.appendPos)
    && (s.flusher.Scanning? ==> s.flusher.i <= |s.views|)
  }

  ghost predicate InLoop(f: Flusher) { !f.Resting? && !f.Flushed? }

  /** Chunks have buffers of their own, and the flusher's loop has its chunks in the cache. */
  ghost predicate CacheOk(s: State) {
    && (forall id | id in s.cache :: id < s.nextChunk)
    && (forall a, b | a in s.cache && b in s.cache && s.cache[a] == s.cache[b] :: a == b)
    && (InLoop(s.flusher) ==> forall p: Pos | s.flusher.from <= p < s.writePos :: ChunkOf(p) in s.cache)
    && (s.flusher.ScanStart? || s.flusher.Scanning? ==> ChunkOf(s.writePos) in s.cache)
  }

  ghost predicate BaseOk(s: State, pc: Pc) {
    HasBase(pc) ==> pc.k < |s.reservations| && ChunkOf(s.reservations[pc.k].pos) in s.cache
                    && pc.base == AddressOf(s.cache, s.reservations[pc.k].pos)
  }

  /** The pointer an appender holds stays that of its position until it has written. */
  ghost predicate Bases(s: State) {
    forall t | 0 <= t < |s.pcs| :: BaseOk(s, s.pcs[t])
  }

  ghost predicate NoneCross(rs: seq<Reservation>) {
    forall k | 0 <= k < |rs| :: !Crosses(rs[k].pos, rs[k].size)
  }

  /** The byte at its log position's address is the one its appender was given the position for. */
  ghost predicate RightByte(s: State, k: nat, b: nat)
    requires k < |s.reservations|
  {
    ByteAt(s.memory, AddressOf(s.cache, s.reservations[k].pos + b)) == Some(Mark(k, b))
  }

  /** What has been written and not recycled is in place, byte by byte, as long as nothing crosses. */
  ghost predicate InPlace(s: State) {
    && (forall k | 0 <= k < |s.reservations| && s.reservations[k].done ::
          ChunkOf(s.reservations[k].pos) < s.nextChunk)
    && (NoneCross(s.reservations) ==>
          forall k: nat, b: nat | k < |s.reservations| && s.reservations[k].done && b < s.reservations[k].size
                                  && ChunkOf(s.reservations[k].pos) in s.cache :: RightByte(s, k, b))
  }

  /** An appender that still has to write into the unit at `write_pos` has not been missed by the scan. */
  ghost predicate ScanOk(s: State) {
    s.flusher.Scanning? ==>
      forall t: Tid, k: nat | OwnedBy(s.pcs, t, k) && k < |s.reservations| && !s.reservations[k].done ::
        s.reservations[k].pos < s.writePos + FLUSH_UNIT && t < s.flusher.i ==> s.flusher.min <= ChunkOf(s.writePos)
  }

  ghost predicate Inv(s: State) {
    && Views(s) && Ordered(s.reservations, s.appendPos) && Owned(s.pcs, s.reservations) && Complete(s)
    && FlusherOk(s) && ScanOk(s) && Mins(s) && CacheOk(s) && Bases(s) && InPlace(s)
  }

  lemma InitInv(n: nat)
    ensures Inv(InitState(n))
  {
  }

  /** `append_pos` only moves forward, and a new reservation takes the place between its old and new value. */
  lemma AppendOrdered(s: State, a: Append)
    requires EnabledAppend(s, a) && Ordered(s.reservations, s.appendPos)
    ensures s.appendPos <= ApplyAppend(s, a).appendPos
    ensures Ordered(ApplyAppend(s, a).reservations, ApplyAppend(s, a).appendPos)
  {
    if a.AlignCas? {
      AlignUpBounds(s.pcs[a.t].prev);
    }
  }

  lemma OtherViewOk(pc: Pc, view: nat, appendPos: Pos, appendPos': Pos, rs: seq<Reservation>, rs': seq<Reservation>)
    requires ViewOk(pc, view, appendPos, rs) && appendPos <= appendPos'
    requires |rs| <= |rs'| && (HasReservation(pc) && pc.k < |rs| ==> rs'[pc.k] == rs[pc.k])
    ensures ViewOk(pc, view, appendPos', rs')
  {
    ChunkMonotone(appendPos, appendPos');
  }

  lemma OwnViewOk(s: State, a: Append)
    requires Views(s) && EnabledAppend(s, a)
    ensures var s' := ApplyAppend(s, a); |s'.views| == |s'.pcs| == |s.pcs|
                                         && ViewOk(s'.pcs[a.t], s'.views[a.t], s'.appendPos, s'.reservations)
  {
    match a {
      case StoreView(t) => ChunkMonotone(s.pcs[t].v, s.appendPos);
      case AlignCas(t) =>
        AlignUpBounds(s.pcs[t].prev);
        ChunkMonotone(s.pcs[t].prev, AlignUp(s.pcs[t].prev));
      case _ =>
    }
  }

  lemma AppendViews(s: State, a: Append)
    requires Views(s) && EnabledAppend(s, a) && Ordered(s.reservations, s.appendPos) && Owned(s.pcs, s.reservations)
    ensures Views(ApplyAppend(s, a))
  {
    var s' := ApplyAppend(s, a);
    AppendOrdered(s, a);
    OwnViewOk(s, a);
    forall t | 0 <= t < |s'.pcs| && t != a.t
      ensures ViewOk(s'.pcs[t], s'.views[t], s'.appendPos, s'.reservations)
    {
      if a.WriteValue? && HasReservation(s.pcs[t]) {
        assert OwnedBy(s.pcs, a.t, s.pcs[a.t].k) && OwnedBy(s.pcs, t, s.pcs[t].k);
      }
      OtherViewOk(s.pcs[t], s.views[t], s.appendPos, s'.appendPos, s.reservations, s'.reservations);
    }
  }

  lemma AppendOwned(s: State, a: Append)
    requires EnabledAppend(s, a) && Owned(s.pcs, s.reservations) && Views(s)
    ensures Owned(ApplyAppend(s, a).pcs, ApplyAppend(s, a).reservations)
  {
    var s' := ApplyAppend(s, a);
    assert ViewOk(s.pcs[a.t], s.views[a.t], s.appendPos, s.reservations);
    assert forall t: Tid, k: nat | t != a.t :: OwnedBy(s'.pcs, t, k) == OwnedBy(s.pcs, t, k);
    assert forall k: nat | OwnedBy(s'.pcs, a.t, k) ::
           OwnedBy(s.pcs, a.t, k) || k == |s.reservations| < |s'.reservations|;
    forall k | 0 <= k < |s'.reservations| && !s'.reservations[k].done
      ensures exists t: Tid :: OwnedBy(s'.pcs, t, k)
    {
      if k < |s.reservations| {
        var t: Tid :| OwnedBy(s.pcs, t, k);
        assert OwnedBy(s'.pcs, t, k);
      } else {
        assert OwnedBy(s'.pcs, a.t, k);
      }
    }
  }

  lemma AppendComplete(s: State, a: Append)
    requires EnabledAppend(s, a) && Complete(s) && FlusherOk(s) && Ordered(s.reservations, s.appendPos)
    ensures Complete(ApplyAppend(s, a)) && FlusherOk(ApplyAppend(s, a))
  {
    AppendOrdered(s, a);
  }

  lemma AppendScan(s: State, a: Append)
    requires EnabledAppend(s, a) && ScanOk(s) && Views(s) && FlusherOk(s)
    ensures ScanOk(ApplyAppend(s, a))
  {
    var s' := ApplyAppend(s, a);
    if s'.flusher.Scanning? {
      forall t: Tid, k: nat | OwnedBy(s'.pcs, t, k) && k < |s'.reservations| && !s'.reservations[k].done
                           && s'.reservations[k].pos < s'.writePos + FLUSH_UNIT && t < s'.flusher.i
        ensures s'.flusher.min <= ChunkOf(s'.writePos)
      {
        assert k < |s.reservations| && OwnedBy(s.pcs, t, k);
      }
    }
  }

  lemma FlushScan(s: State, a: Flush)
    requires EnabledFlush(s, a) && Views(s) && Complete(s) && ScanOk(s)
    ensures ScanOk(ApplyFlush(s, a))
  {
    if a.ScanNext? {
      var i := s.flusher.i;
      forall k: nat | OwnedBy(s.pcs, i, k) && k < |s.reservations| && s.reservations[k].pos < s.writePos + FLUSH_UNIT
        ensures s.views[i] <= ChunkOf(s.writePos)
      {
        assert ViewOk(s.pcs[i], s.views[i], s.appendPos, s.reservations);
        if ChunkOf(s.reservations[k].pos) > ChunkOf(s.writePos) {
          UnitInsideChunk(s.writePos, s.reservations[k].pos);
        }
      }
    }
  }

  /** A scan that found nothing at or below the chunk proves the whole unit written. */
  lemma UnitWritten(s: State, k: nat)
    requires Owned(s.pcs, s.reservations) && ScanOk(s) && k < |s.reservations| && |s.views| == |s.pcs|
    requires s.flusher.Scanning? && s.flusher.i == |s.views| && s.flusher.min > ChunkOf(s.writePos)
    ensures s.reservations[k].done || s.writePos + FLUSH_UNIT <= s.reservations[k].pos
  {
    if !s.reservations[k].done {
      var t: Tid :| OwnedBy(s.pcs, t, k);
    }
  }

  lemma FlushComplete(s: State, a: Flush)
    requires EnabledFlush(s, a) && Complete(s) && FlusherOk(s) && ScanOk(s) && Views(s) && Owned(s.pcs, s.reservations)
    ensures Complete(ApplyFlush(s, a))
  {
    if a.Emit? && s.flusher.min > ChunkOf(s.writePos) {
      forall k | 0 <= k < |s.reservations| && !s.reservations[k].done
        ensures s.writePos + FLUSH_UNIT <= s.reservations[k].pos
      {
        UnitWritten(s, k);
      }
    }
  }

  lemma FlushFlusherOk(s: State, a: Flush)
    requires EnabledFlush(s, a) && FlusherOk(s) && Complete(s)
    ensures FlusherOk(ApplyFlush(s, a))
  {
    var s' := ApplyFlush(s, a);
    ChunkMonotone(From(s), s.writePos);
    assert From(s) <= From(s') && ChunkOf(From(s)) <= ChunkOf(From(s'));
  }

  // -------------------------------------------------------------- buffer memory

  lemma AppendMins(s: State, a: Append)
    requires |s.views| == |s.pcs| && Mins(s) && Views(s) && EnabledAppend(s, a)
    ensures |ApplyAppend(s, a).views| == |ApplyAppend(s, a).pcs| && Mins(ApplyAppend(s, a))
  {
    var s' := ApplyAppend(s, a);
    forall t | 0 <= t < |s'.pcs|
      ensures MinOk(s'.pcs[t], t, s'.views[t], |s'.views|)
    {
      assert MinOk(s.pcs[t], t, s.views[t], |s.views|);
    }
  }

  lemma AppendBases(s: State, a: Append)
    requires EnabledAppend(s, a) && Bases(s)
    ensures Bases(ApplyAppend(s, a))
  {
    var s' := ApplyAppend(s, a);
    forall t | 0 <= t < |s'.pcs|
      ensures BaseOk(s', s'.pcs[t])
    {
      assert BaseOk(s, s.pcs[t]);
    }
  }

  lemma AppendCache(s: State, a: Append)
    requires EnabledAppend(s, a) && CacheOk(s)
    ensures CacheOk(ApplyAppend(s, a))
  {
  }

  lemma FlushCache(s: State, a: Flush)
    requires EnabledFlush(s, a) && CacheOk(s) && Complete(s) && FlusherOk(s)
    ensures CacheOk(ApplyFlush(s, a))
  {
    var s' := ApplyFlush(s, a);
    if a.Emit? && s'.writePos != s.writePos {
      forall p: Pos | s'.flusher.from <= p < s'.writePos
        ensures ChunkOf(p) in s'.cache
      {
        if p >= s.writePos {
          SameChunk(s.writePos, p);
        }
      }
    }
  }

  lemma SameChunk(w: Pos, p: Pos)
    requires w % FLUSH_UNIT == 0 && w <= p < w + FLUSH_UNIT
    ensures ChunkOf(p) == ChunkOf(w)
  {
    ChunkMonotone(w, p);
    if ChunkOf(p) > ChunkOf(w) {
      UnitInsideChunk(w, p);
    }
  }

  /** What is recycled lies below every appender that has still to write. */
  lemma FlushBases(s: State, a: Flush)
    requires EnabledFlush(s, a) && Bases(s) && Views(s) && CacheOk(s) && Complete(s) && FlusherOk(s)
    ensures Bases(ApplyFlush(s, a))
  {
    var s' := ApplyFlush(s, a);
    forall t | 0 <= t < |s'.pcs|
      ensures BaseOk(s', s'.pcs[t])
    {
      assert BaseOk(s, s.pcs[t]) && ViewOk(s.pcs[t], s.views[t], s.appendPos, s.reservations);
      if a.Recycle? && HasBase(s.pcs[t]) {
        ChunkMonotone(s.writePos, s.reservations[s.pcs[t].k].pos);
      }
    }
  }

  // ------------------------------------------------------------- byte by byte

  lemma ByteAtPush(memory: seq<Store>, w: Store, a: Address)
    ensures ByteAt(memory + [w], a)
         == if !CoversByte(w, a) then ByteAt(memory, a)
            else if w.owner.Some? then Some(Mark(w.owner.value, a - w.base)) else None
  {
    assert (memory + [w])[..|memory|] == memory;
  }

  /** A value that stays in its chunk has its bytes one behind the other. */
  lemma InChunk(pos: Pos, size: nat, b: nat)
    requires !Crosses(pos, size) && b < size
    ensures ChunkOf(pos + b) == ChunkOf(pos) && OffsetOf(pos + b) == OffsetOf(pos) + b
  {
  }

  lemma BuffersApart(a: nat, b: nat, i: nat, j: nat)
    requires a != b && i < CHUNK_SIZE && j < CHUNK_SIZE
    ensures a * CHUNK_SIZE + i != b * CHUNK_SIZE + j
  {
  }

  /** The store of one value does not reach a byte of another position. */
  lemma StoreMisses(cache: Cache, p: Pos, own: Reservation, k: nat)
    requires forall a, b | a in cache && b in cache && cache[a] == cache[b] :: a == b
    requires ChunkOf(p) in cache && ChunkOf(own.pos) in cache && !Crosses(own.pos, own.size)
    requires p < own.pos || own.pos + own.size <= p
    ensures !CoversByte(Store(AddressOf(cache, own.pos), own.size, Some(k)), AddressOf(cache, p))
  {
    var c, d := cache[ChunkOf(p)], cache[ChunkOf(own.pos)];
    if c != d {
      assert c * CHUNK_SIZE + CHUNK_SIZE <= d * CHUNK_SIZE || d * CHUNK_SIZE + CHUNK_SIZE <= c * CHUNK_SIZE;
    }
  }

  /** The store of a value puts its own bytes in place and touches no other value's. */
  lemma WritePlaces(s: State, k: nat, b: nat, own: nat)
    requires CacheOk(s) && Ordered(s.reservations, s.appendPos) && own < |s.reservations| && k < |s.reservations|
    requires NoneCross(s.reservations) && b < s.reservations[k].size
    requires ChunkOf(s.reservations[k].pos) in s.cache && ChunkOf(s.reservations[own].pos) in s.cache
    requires k == own || RightByte(s, k, b)
    ensures var w := Store(AddressOf(s.cache, s.reservations[own].pos), s.reservations[own].size, Some(own));
            RightByte(s.(memory := s.memory + [w]), k, b)
  {
    var r, o := s.reservations[k], s.reservations[own];
    var w := Store(AddressOf(s.cache, o.pos), o.size, Some(own));
    InChunk(r.pos, r.size, b);
    ByteAtPush(s.memory, w, AddressOf(s.cache, r.pos + b));
    if k != own {
      StoreMisses(s.cache, r.pos + b, o, own);
    }
  }

  lemma WriteInPlace(s: State, t: Tid)
    requires EnabledAppend(s, WriteValue(t)) && InPlace(s) && CacheOk(s) && Bases(s)
    requires Ordered(s.reservations, s.appendPos)
    ensures InPlace(ApplyAppend(s, WriteValue(t)))
  {
    var s', own := ApplyAppend(s, WriteValue(t)), s.pcs[t].k;
    assert BaseOk(s, s.pcs[t]);
    assert forall k | 0 <= k < |s.reservations| ::
        s'.reservations[k].(done := s.reservations[k].done) == s.reservations[k];
    if NoneCross(s'.reservations) {
      EarlierNoneCross(s.reservations, s'.reservations);
      forall k: nat, b: nat | k < |s'.reservations| && s'.reservations[k].done && b < s'.reservations[k].size
                              && ChunkOf(s'.reservations[k].pos) in s'.cache
        ensures RightByte(s', k, b)
      {
        assert k == own || RightByte(s, k, b);
        WritePlaces(s, k, b, own);
      }
    }
  }

  lemma EarlierNoneCross(rs: seq<Reservation>, rs': seq<Reservation>)
    requires NoneCross(rs') && |rs| <= |rs'|
    requires forall k | 0 <= k < |rs| :: rs'[k].pos == rs[k].pos && rs'[k].size == rs[k].size
    ensures NoneCross(rs)
  {
    forall k | 0 <= k < |rs|
      ensures !Crosses(rs[k].pos, rs[k].size)
    {
      assert !Crosses(rs'[k].pos, rs'[k].size);
    }
  }

  lemma AppendInPlace(s: State, a: Append)
    requires EnabledAppend(s, a) && InPlace(s) && CacheOk(s) && Bases(s) && Ordered(s.reservations, s.appendPos)
    ensures InPlace(ApplyAppend(s, a))
  {
    if a.WriteValue? {
      WriteInPlace(s, a.t);
    } else {
      SameInPlace(s, ApplyAppend(s, a));
    }
  }

  /** New reservations are not written yet, and nothing else that matters changes. */
  lemma SameInPlace(s: State, s': State)
    requires InPlace(s) && s'.memory == s.memory && s'.cache == s.cache && s'.nextChunk == s.nextChunk
    requires |s.reservations| <= |s'.reservations|
    requires forall k | 0 <= k < |s.reservations| :: s'.reservations[k] == s.reservations[k]
    requires forall k | |s.reservations| <= k < |s'.reservations| :: !s'.reservations[k].done
    ensures InPlace(s')
  {
    if NoneCross(s'.reservations) {
      EarlierNoneCross(s.reservations, s'.reservations);
      forall k: nat, b: nat | k < |s'.reservations| && s'.reservations[k].done && b < s'.reservations[k].size
                              && ChunkOf(s'.reservations[k].pos) in s'.cache
        ensures RightByte(s', k, b)
      {
        assert RightByte(s, k, b);
      }
    }
  }

  /** Filling an unused buffer touches no cached chunk. */
  lemma OverwriteKeeps(s: State, b: nat, k: nat, i: nat)
    requires CacheOk(s) && !Occupied(s.cache, b) && k < |s.reservations| && i < s.reservations[k].size
    requires !Crosses(s.reservations[k].pos, s.reservations[k].size) && ChunkOf(s.reservations[k].pos) in s.cache
    requires RightByte(s, k, i)
    ensures RightByte(Overwritten(s, b), k, i)
  {
    var r := s.reservations[k];
    InChunk(r.pos, r.size, i);
    var a, c := AddressOf(s.cache, r.pos + i), s.cache[ChunkOf(r.pos)];
    ByteAtPush(s.memory, Store(b * CHUNK_SIZE, CHUNK_SIZE, None), a);
    if CoversByte(Store(b * CHUNK_SIZE, CHUNK_SIZE, None), a) {
      BuffersApart(c, b, OffsetOf(r.pos + i), a - b * CHUNK_SIZE);
    }
  }

  lemma FlushInPlace(s: State, a: Flush)
    requires EnabledFlush(s, a) && InPlace(s) && CacheOk(s)
    ensures InPlace(ApplyFlush(s, a))
  {
    var s' := ApplyFlush(s, a);
    if NoneCross(s'.reservations) {
      forall k: nat, b: nat | k < |s'.reservations| && s'.reservations[k].done && b < s'.reservations[k].size
                              && ChunkOf(s'.reservations[k].pos) in s'.cache
        ensures RightByte(s', k, b)
      {
        assert RightByte(s, k, b);
        FlushKeepsByte(s, a, k, b);
      }
    }
  }

  lemma FlushKeepsByte(s: State, a: Flush, k: nat, b: nat)
    requires EnabledFlush(s, a) && CacheOk(s) && k < |s.reservations| && b < s.reservations[k].size
    requires !Crosses(s.reservations[k].pos, s.reservations[k].size) && ChunkOf(s.reservations[k].pos) < s.nextChunk
    requires ChunkOf(s.reservations[k].pos) in ApplyFlush(s, a).cache
    requires RightByte(s, k, b)
    ensures RightByte(ApplyFlush(s, a), k, b)
  {
    var p := s.reservations[k].pos + b;
    InChunk(s.reservations[k].pos, s.reservations[k].size, b);
    FlushKeepsAddress(s, a, p);
    if a.CreateChunk? || a.WriteMaster? {
      OverwriteKeeps(s, a.b, k, b);
    }
  }

  lemma FlushKeepsAddress(s: State, a: Flush, p: Pos)
    requires EnabledFlush(s, a) && ChunkOf(p) in ApplyFlush(s, a).cache && ChunkOf(p) < s.nextChunk
    ensures AddressOf(ApplyFlush(s, a).cache, p) == AddressOf(s.cache, p)
    ensures ApplyFlush(s, a).reservations == s.reservations
    ensures ApplyFlush(s, a).memory == if a.CreateChunk? || a.WriteMaster? then Overwritten(s, a.b).memory else s.memory
  {
  }
}
