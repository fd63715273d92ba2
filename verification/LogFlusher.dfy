/** The flusher thread: chunks it prepares, buffers it holds, and what it writes where. */
module LogFlusher {
  import opened Basics
  import opened LogStore
  import opened LogBuffers
  import opened LogFlush

  /** What `ywChunkMgr::dump` writes. */
  datatype Dump = Dump(lastId: nat, chunkMap: map<ChunkId, ChunkInfo>)

  /** The cache with one chunk more; the others keep their buffers. */
  ghost predicate OneMoreChunk(before: map<ChunkId, nat>, after: map<ChunkId, nat>, id: ChunkId) {
    id !in before && after.Keys == before.Keys + {id} && forall k | k in before :: after[k] == before[k]
  }

  lemma ElementsPush(done: seq<ChunkId>, i: nat)
    requires i < |done|
    ensures Elements(done[..i + 1]) == Elements(done[..i]) + {done[i]}
  {
    assert done[..i + 1] == done[..i] + [done[i]];
  }

  class FlusherThread {
    var writePos: Pos
    var prepared: nat
    var cache: map<ChunkId, nat>
    var master: Dump             // what the file's master chunk holds
    const mgr: ChunkMgr
    const buffers: BuffCache

    /** Every cached chunk has its own buffer in use. */
    ghost predicate CacheOk()
      reads this, mgr, buffers, buffers.status
    {
      && (forall id | id in cache :: id < mgr.lastId && cache[id] < buffers.status.Length && buffers.status[cache[id]])
      && (forall a, b | a in cache && b in cache && a != b :: cache[a] != cache[b])
    }

    /** Between operations the buffers in use are the prepared chunks, and one of the sixteen is spare. */
    ghost predicate Valid()
      reads this, mgr, buffers, buffers.status
    {
      && mgr.Valid() && buffers.Valid() && buffers.status.Length == MAX_PREPARE
      && CacheOk()
      && InUse(buffers.status[..]) == prepared < MAX_PREPARE
      && writePos % FLUSH_UNIT == 0
    }

    /** The constructor and `create_master`: chunk 0 is the master chunk, chunk 1 the first of the log. */
    constructor ()
      ensures Valid() && fresh(mgr) && fresh(buffers) && fresh(buffers.status)
      ensures writePos == CHUNK_SIZE && cache.Keys == {1} && prepared == 1 && mgr.lastId == 2
      ensures master == Dump(mgr.lastId, mgr.chunkMap)
    {
      mgr := new ChunkMgr();
      buffers := new BuffCache(MAX_PREPARE);
      writePos, prepared, cache, master := 0, 0, map[], Dump(0, map[]);
      new;
      var _ := mgr.AllocChunk(MASTER_KIND, true);
      var pos := CreateChunk(true);
      writePos := pos.value;
      WriteMasterChunk();
    }

    /** `create_chunk`; `locked` is the answer of the chunk map's lock. */
    method CreateChunk(locked: bool) returns (pos: Option<Pos>)
      requires Valid()
      modifies this, mgr, buffers, buffers.status
      ensures mgr.Valid() && buffers.Valid() && CacheOk() && writePos == old(writePos) && master == old(master)
      ensures InUse(buffers.status[..]) == prepared
      ensures pos.Some? <==> locked && old(mgr.lastId) < CHUNK_MAP_MAX
      ensures pos.Some? ==> pos.value == old(mgr.lastId) * CHUNK_SIZE && mgr.lastId == old(mgr.lastId) + 1
      ensures pos.Some? ==> prepared == old(prepared) + 1 && OneMoreChunk(old(cache), cache, old(mgr.lastId))
      ensures pos.None? ==> prepared == old(prepared) && cache == old(cache) && mgr.lastId == old(mgr.lastId)
    {
      ghost var was := buffers.status[..];
      var b := buffers.AllocCache();
      var id := mgr.AllocChunk(LOG_KIND, locked);
      if id.None? {
        var _ := buffers.DeallocCache(b);
        assert buffers.status[..] == was[b := true][b := false] == was;
        return None;
      }
      cache := cache[id.value := b];
      prepared := prepared + 1;
      pos := Some(id.value * CHUNK_SIZE);
    }

    method ReserveSpace(locked: bool)
      requires Valid()
      modifies this, mgr, buffers, buffers.status
      ensures Valid() && writePos == old(writePos) && master == old(master)
      ensures if old(prepared) < MAX_PREPARE - 1 && locked && old(mgr.lastId) < CHUNK_MAP_MAX
              then && prepared == old(prepared) + 1 && OneMoreChunk(old(cache), cache, old(mgr.lastId))
                   && mgr.lastId == old(mgr.lastId) + 1
              else prepared == old(prepared) && cache == old(cache) && mgr.lastId == old(mgr.lastId)
    {
      if prepared < MAX_PREPARE - 1 {
        var _ := CreateChunk(locked);
      }
    }

    /** `write_master_chunk` borrows the spare buffer for the duration of one write. */
    method WriteMasterChunk()
      requires Valid()
      modifies `master, buffers, buffers.status
      ensures Valid() && buffers.status[..] == old(buffers.status[..])
      ensures master == Dump(mgr.lastId, mgr.chunkMap)
    {
      ghost var was := buffers.status[..];
      var b := buffers.AllocCache();
      master := Dump(mgr.lastId, mgr.chunkMap);
      var ok := buffers.DeallocCache(b);
      assert ok;
      assert buffers.status[..] == was[b := true][b := false] == was;
    }

    /** `set_victim`: false for a chunk that is not cached. */
    method SetVictim(id: ChunkId) returns (ok: bool)
      requires mgr.Valid() && buffers.Valid() && CacheOk()
      modifies this, buffers.status
      ensures ok == (id in old(cache))
      ensures buffers.Valid() && CacheOk() && cache == old(cache) - {id}
      ensures InUse(buffers.status[..]) == old(InUse(buffers.status[..])) - if ok then 1 else 0
      ensures prepared == old(prepared) && writePos == old(writePos) && master == old(master)
    {
      if id !in cache {
        assert cache - {id} == cache;
        return false;
      }
      ok := buffers.DeallocCache(cache[id]);
      cache := cache - {id};
    }

    /** The end of a successful `flush`: finished chunks give their buffers back. */
    method Release(done: seq<ChunkId>)
      requires Valid() && (forall id | id in done :: id in cache)
      requires forall i, j | 0 <= i < j < |done| :: done[i] != done[j]
      modifies this, buffers, buffers.status
      ensures Valid() && writePos == old(writePos)
      ensures prepared == old(prepared) - |done| && cache == old(cache) - Elements(done)
      ensures master == if done != [] then Dump(mgr.lastId, mgr.chunkMap) else old(master)
    {
      var i := 0;
      while i < |done|
        invariant 0 <= i <= |done|
        invariant buffers.Valid() && CacheOk() && mgr.Valid() && writePos == old(writePos) && master == old(master)
        invariant InUse(buffers.status[..]) == prepared == old(prepared) - i
        invariant cache == old(cache) - Elements(done[..i])
      {
        assert done[i] !in done[..i];
        var _ := SetVictim(done[i]);
        prepared := prepared - 1;
        ElementsPush(done, i);
        i := i + 1;
      }
      assert done[..|done|] == done;
      if |done| > 0 {
        WriteMasterChunk();
      }
    }

    /**
     `flush`.  `seen` is what each round of the loop reads of the appenders, and
     `written` is whether the vectored write of `v` at file offset `at` succeeded.
     */
    method Flush(seen: nat -> Seen, written: bool) returns (ok: bool, v: seq<Piece>, at: nat, ghost units: nat)
      requires Valid()
      modifies this, buffers, buffers.status
      ensures Valid()
      ensures ok <==> Ready(old(cache), old(writePos), seen(0)) && written
      ensures v != [] <==> Ready(old(cache), old(writePos), seen(0))
      ensures TookAll(old(cache), old(writePos), seen, units, |v| == FLUSH_COUNT)
      ensures writePos == old(writePos) + if ok then units * FLUSH_UNIT else 0
      ensures !ok ==> cache == old(cache) && prepared == old(prepared) && master == old(master)
      ensures ok ==> master == if ChunkOf(old(writePos)) < ChunkOf(writePos) then Dump(mgr.lastId, mgr.chunkMap)
                               else old(master)
      ensures |v| <= FLUSH_COUNT
      ensures v != [] ==> at == old(writePos)
      ensures ok ==> old(writePos) < writePos && Covers(v) == Image(old(cache), old(writePos), writePos)
      ensures ok ==> cache == old(cache) - Elements(Completed(old(writePos), writePos))
      ensures ok ==> prepared == old(prepared) - (ChunkOf(writePos) - ChunkOf(old(writePos)))
    {
      var from := writePos;
      var id := ChunkOf(from);
      at := (if id in mgr.chunkMap then mgr.chunkMap[id].place else 0) * CHUNK_SIZE + OffsetOf(from);
      var to, vec, done, size;
      to, vec, done, size, units := Gather(cache, from, seen);
      assert ReadyAt(cache, from, seen, 0) == Ready(cache, from, seen(0));
      v := vec;
      writePos := to;
      if v == [] {
        return false, v, at, units;
      }
      if !written {
        writePos := from;
        return false, v, at, units;
      }
      Release(done);
      ok := true;
    }
  }

  /** One round of `log_flusher`: the chunk map's lock, the appenders and the file may answer anything. */
  datatype Round = Round(locked: bool, seen: nat -> Seen, written: bool)

  /** The flusher between two of its operations. */
  datatype Snap = Snap(writePos: Pos, prepared: nat, cache: map<ChunkId, nat>, lastId: nat)

  ghost function SnapOf(f: FlusherThread): Snap
    reads f, f.mgr
  {
    Snap(f.writePos, f.prepared, f.cache, f.mgr.lastId)
  }

  /** `reserve_space` prepares a chunk exactly if a buffer beyond the spare one and a number are left. */
  ghost predicate Reserved(a: Snap, b: Snap, locked: bool) {
    if a.prepared < MAX_PREPARE - 1 && locked && a.lastId < CHUNK_MAP_MAX
    then && b.writePos == a.writePos && b.prepared == a.prepared + 1 && b.lastId == a.lastId + 1
         && OneMoreChunk(a.cache, b.cache, a.lastId)
    else b == a
  }

  /** `flush` succeeds exactly if the next unit is ready and written: then with all ready units, or as many as fit. */
  ghost predicate Flushed(a: Snap, b: Snap, seen: nat -> Seen, written: bool) {
    if Ready(a.cache, a.writePos, seen(0)) && written
    then exists units: nat, v: seq<Piece> :: FlushedUnits(a, b, seen, units, v)
    else b == a
  }

  ghost predicate FlushedUnits(a: Snap, b: Snap, seen: nat -> Seen, units: nat, v: seq<Piece>) {
    && |v| <= FLUSH_COUNT && TookAll(a.cache, a.writePos, seen, units, |v| == FLUSH_COUNT)
    && a.writePos < b.writePos == a.writePos + units * FLUSH_UNIT && Covers(v) == Image(a.cache, a.writePos, b.writePos)
    && b.cache == a.cache - Elements(Completed(a.writePos, b.writePos)) && b.lastId == a.lastId
    && b.prepared == a.prepared - (ChunkOf(b.writePos) - ChunkOf(a.writePos))
  }

  ghost predicate RoundAt(trace: seq<Snap>, rounds: seq<Round>, i: nat) {
    && i < |rounds| && 2 * i + 2 < |trace|
    && Reserved(trace[2 * i], trace[2 * i + 1], rounds[i].locked)
    && Flushed(trace[2 * i + 1], trace[2 * i + 2], rounds[i].seen, rounds[i].written)
  }

  lemma RoundsKept(trace: seq<Snap>, a: Snap, b: Snap, rounds: seq<Round>, i: nat)
    requires i < |rounds| && |trace| == 2 * i + 1 && forall j | 0 <= j < i :: RoundAt(trace, rounds, j)
    requires Reserved(trace[2 * i], a, rounds[i].locked) && Flushed(a, b, rounds[i].seen, rounds[i].written)
    ensures forall j | 0 <= j < i + 1 :: RoundAt(trace + [a, b], rounds, j)
  {
    forall j | 0 <= j < i + 1
      ensures RoundAt(trace + [a, b], rounds, j)
    {
      if j < i {
        assert RoundAt(trace, rounds, j);
      }
    }
  }

  /**
   Any number of rounds: each reserves and then flushes, every search for a buffer
   ends, the buffers in use are those of the prepared chunks, and at least one of the
   sixteen stays spare.
   */
  method LogFlusher(f: FlusherThread, rounds: seq<Round>) returns (ghost trace: seq<Snap>)
    requires f.Valid()
    modifies f, f.mgr, f.buffers, f.buffers.status
    ensures f.Valid() && InUse(f.buffers.status[..]) == f.prepared <= MAX_PREPARE - 1
    ensures old(f.writePos) <= f.writePos
    ensures |trace| == 2 * |rounds| + 1 && trace[0] == old(SnapOf(f)) && trace[2 * |rounds|] == SnapOf(f)
    ensures forall i | 0 <= i < |rounds| :: RoundAt(trace, rounds, i)
  {
    trace := [SnapOf(f)];
    for i := 0 to |rounds|
      invariant f.Valid() && old(f.writePos) <= f.writePos
      invariant |trace| == 2 * i + 1 && trace[0] == old(SnapOf(f)) && trace[2 * i] == SnapOf(f)
      invariant forall j | 0 <= j < i :: RoundAt(trace, rounds, j)
    {
      ghost var a, b := DoRound(f, rounds[i]);
      RoundsKept(trace, a, b, rounds, i);
      trace := trace + [a, b];
    }
  }

  method DoRound(f: FlusherThread, r: Round) returns (ghost a: Snap, ghost b: Snap)
    requires f.Valid()
    modifies f, f.mgr, f.buffers, f.buffers.status
    ensures f.Valid() && old(f.writePos) <= f.writePos && b == SnapOf(f)
    ensures Reserved(old(SnapOf(f)), a, r.locked) && Flushed(a, b, r.seen, r.written)
  {
    f.ReserveSpace(r.locked);
    a := SnapOf(f);
    var ok, v, at;
    ghost var units;
    ok, v, at, units := f.Flush(r.seen, r.written);
    b := SnapOf(f);
    if ok {
      assert FlushedUnits(a, b, r.seen, units, v);
    }
  }
}
