/**
 The flusher thread of the log store on its own: the loop of `flush` that
 gathers the pieces of one vectored write, and the buffers it allocates and
 recycles around it.
 */
module LogFlush {
  import opened Basics
  import opened LogStore
  import opened LogBuffers

  const FLUSH_COUNT: nat := 32
  const MASTER_KIND: nat := 1
  const LOG_KIND: nat := 2

  /** One element of the write vector. */
  datatype Piece = Piece(base: Address, len: nat)

  /** The addresses a write vector covers, in order. */
  ghost function Covers(v: seq<Piece>): seq<Address> {
    if v == [] then [] else Covers(v[..|v| - 1]) + Stretch(v[|v| - 1].base, v[|v| - 1].len)
  }

  lemma CoversPush(v: seq<Piece>, p: Piece)
    ensures Covers(v + [p]) == Covers(v) + Stretch(p.base, p.len)
  {
    assert (v + [p])[..|v|] == v;
  }

  lemma CoversGrow(v: seq<Piece>, more: nat)
    requires v != []
    ensures var last := v[|v| - 1];
      Covers(v[|v| - 1 := last.(len := last.len + more)]) == Covers(v) + Stretch(last.base + last.len, more)
  {
    var last := v[|v| - 1];
    var v' := v[|v| - 1 := last.(len := last.len + more)];
    assert v'[..|v'| - 1] == v[..|v| - 1];
    assert Stretch(last.base, last.len + more) == Stretch(last.base, last.len) + Stretch(last.base + last.len, more);
  }

  /** One flush unit of the log is contiguous in memory. */
  lemma ImageUnit(cache: map<ChunkId, nat>, lo: Pos, w: Pos)
    requires lo <= w && w % FLUSH_UNIT == 0 && ChunkOf(w) in cache
    ensures Image(cache, lo, w + FLUSH_UNIT) == Image(cache, lo, w) + Stretch(AddressOf(cache, w), FLUSH_UNIT)
  {
    UnitInOneChunk(w);
    var whole, unit := Image(cache, lo, w + FLUSH_UNIT), Stretch(AddressOf(cache, w), FLUSH_UNIT);
    forall i | 0 <= i < FLUSH_UNIT
      ensures whole[w - lo + i] == unit[i]
    {
      UnitInOneChunkAt(w, w + i);
      assert whole[w - lo + i] == AddressOf(cache, w + i) == AddressOf(cache, w) + i;
    }
    assert whole[..w - lo] == Image(cache, lo, w);
    assert whole[w - lo..] == unit;
  }

  lemma UnitInOneChunk(w: Pos)
    requires w % FLUSH_UNIT == 0
    ensures OffsetOf(w) % FLUSH_UNIT == 0 && OffsetOf(w) + FLUSH_UNIT <= CHUNK_SIZE
  {
    var q := w / FLUSH_UNIT;
    assert w == FLUSH_UNIT * q && CHUNK_SIZE == 64 * FLUSH_UNIT;
    assert w / CHUNK_SIZE == q / 64;
    assert w % CHUNK_SIZE == FLUSH_UNIT * (q % 64);
  }

  lemma UnitInOneChunkAt(w: Pos, p: Pos)
    requires OffsetOf(w) + FLUSH_UNIT <= CHUNK_SIZE && w <= p < w + FLUSH_UNIT
    ensures ChunkOf(p) == ChunkOf(w) && OffsetOf(p) == OffsetOf(w) + (p - w)
  {
  }

  /** Chunks that end in [lo, hi), in order. */
  ghost function Completed(lo: Pos, hi: Pos): seq<ChunkId>
    requires lo <= hi
  {
    seq(ChunkOf(hi) - ChunkOf(lo), i requires 0 <= i => ChunkOf(lo) + i)
  }

  ghost function Elements(s: seq<ChunkId>): set<ChunkId> {
    set i | 0 <= i < |s| :: s[i]
  }

  lemma Place(q: nat, r: nat)
    requires r < CHUNK_SIZE
    ensures ChunkOf(q * CHUNK_SIZE + r) == q && OffsetOf(q * CHUNK_SIZE + r) == r
  {
  }

  lemma Parts(w: Pos)
    ensures w == ChunkOf(w) * CHUNK_SIZE + OffsetOf(w)
  {
  }

  lemma NextMultiple(w: Pos)
    requires w % FLUSH_UNIT == 0
    ensures (w + FLUSH_UNIT) % FLUSH_UNIT == 0
  {
  }

  /** A step of `d` bytes inside a chunk, or to its end. */
  lemma Step(w: Pos, d: nat)
    requires OffsetOf(w) + d <= CHUNK_SIZE
    ensures OffsetOf(w) + d < CHUNK_SIZE ==> ChunkOf(w + d) == ChunkOf(w) && OffsetOf(w + d) == OffsetOf(w) + d
    ensures OffsetOf(w) + d == CHUNK_SIZE ==> ChunkOf(w + d) == ChunkOf(w) + 1 && OffsetOf(w + d) == 0
  {
    Parts(w);
    var q, r := ChunkOf(w), OffsetOf(w) + d;
    if r < CHUNK_SIZE {
      assert w + d == q * CHUNK_SIZE + r;
      Place(q, r);
    } else {
      assert w + d == (q + 1) * CHUNK_SIZE + 0;
      Place(q + 1, 0);
    }
  }

  lemma NextUnit(w: Pos)
    requires w % FLUSH_UNIT == 0
    ensures (w + FLUSH_UNIT) % FLUSH_UNIT == 0 && OffsetOf(w) + FLUSH_UNIT <= CHUNK_SIZE
    ensures OffsetOf(w) + FLUSH_UNIT < CHUNK_SIZE ==> ChunkOf(w + FLUSH_UNIT) == ChunkOf(w)
                                                      && OffsetOf(w + FLUSH_UNIT) == OffsetOf(w) + FLUSH_UNIT
    ensures OffsetOf(w) + FLUSH_UNIT == CHUNK_SIZE ==> ChunkOf(w + FLUSH_UNIT) == ChunkOf(w) + 1
                                                       && OffsetOf(w + FLUSH_UNIT) == 0
  {
    UnitInOneChunk(w);
    NextMultiple(w);
    Step(w, FLUSH_UNIT);
  }

  lemma CompletedUnit(lo: Pos, w: Pos)
    requires lo <= w && w % FLUSH_UNIT == 0
    ensures ChunkOf(lo) <= ChunkOf(w)
    ensures Completed(lo, w + FLUSH_UNIT)
         == Completed(lo, w) + if OffsetOf(w) + FLUSH_UNIT == CHUNK_SIZE then [ChunkOf(w)] else []
  {
    NextUnit(w);
  }

  /** What the gathering loop knows about the bytes it has collected. */
  ghost predicate Gathered(cache: map<ChunkId, nat>, from: Pos, to: Pos, v: seq<Piece>, done: seq<ChunkId>) {
    && from <= to && to % FLUSH_UNIT == 0
    && Covers(v) == Image(cache, from, to)
    && (v == [] <==> to == from) && (from < to ==> ChunkOf(from) in cache)
    && done == Completed(from, to) && (forall id | id in done :: id in cache)
    && |done| + Partial(to, v) <= |v|
    && (Partial(to, v) == 1 ==> ChunkOf(to) in cache && EndOf(v) == AddressOf(cache, to))
  }

  /** One if the last piece ends inside a chunk. */
  function Partial(to: Pos, v: seq<Piece>): nat {
    if OffsetOf(to) != 0 && v != [] then 1 else 0
  }

  /** The end of the last piece. */
  function EndOf(v: seq<Piece>): Address {
    if v == [] then -1 else v[|v| - 1].base + v[|v| - 1].len
  }

  /** Lengthening the last piece or adding one for the next unit. */
  function AddUnit(v: seq<Piece>, ptr: Address, offset: nat): seq<Piece>
    requires EndOf(v) == ptr ==> v != []
  {
    if EndOf(v) == ptr && offset != 0 then v[|v| - 1 := v[|v| - 1].(len := v[|v| - 1].len + FLUSH_UNIT)]
    else v + [Piece(ptr, FLUSH_UNIT)]
  }

  lemma AddUnitCovers(v: seq<Piece>, ptr: Address, offset: nat)
    requires 0 <= ptr
    ensures EndOf(v) == ptr ==> v != []
    ensures Covers(AddUnit(v, ptr, offset)) == Covers(v) + Stretch(ptr, FLUSH_UNIT)
    ensures AddUnit(v, ptr, offset) != [] && EndOf(AddUnit(v, ptr, offset)) == ptr + FLUSH_UNIT
  {
    if EndOf(v) == ptr && offset != 0 {
      CoversGrow(v, FLUSH_UNIT);
    } else {
      CoversPush(v, Piece(ptr, FLUSH_UNIT));
    }
  }

  function Ended(to: Pos, done: seq<ChunkId>): seq<ChunkId> {
    if OffsetOf(to) + FLUSH_UNIT == CHUNK_SIZE then done + [ChunkOf(to)] else done
  }

  lemma GatherStep(cache: map<ChunkId, nat>, from: Pos, to: Pos, v: seq<Piece>, done: seq<ChunkId>)
    requires Gathered(cache, from, to, v, done) && ChunkOf(to) in cache
    ensures EndOf(v) == AddressOf(cache, to) ==> v != []
    ensures Gathered(cache, from, to + FLUSH_UNIT, AddUnit(v, AddressOf(cache, to), OffsetOf(to)), Ended(to, done))
  {
    var v' := AddUnit(v, AddressOf(cache, to), OffsetOf(to));
    NextUnit(to);
    AddUnitCovers(v, AddressOf(cache, to), OffsetOf(to));
    ImageUnit(cache, from, to);
    CompletedUnit(from, to);
    assert Ended(to, done) == Completed(from, to + FLUSH_UNIT);
  }

  /** How much the loop can still do. */
  ghost function Left(to: Pos, v: seq<Piece>): nat
    requires |v| <= FLUSH_COUNT
  {
    (FLUSH_COUNT - |v| + Partial(to, v)) * CHUNK_SIZE + (CHUNK_SIZE - OffsetOf(to))
  }

  lemma LeftDecreases(cache: map<ChunkId, nat>, from: Pos, to: Pos, v: seq<Piece>, done: seq<ChunkId>)
    requires Gathered(cache, from, to, v, done) && ChunkOf(to) in cache && |v| < FLUSH_COUNT
    ensures EndOf(v) == AddressOf(cache, to) ==> v != []
    ensures var v' := AddUnit(v, AddressOf(cache, to), OffsetOf(to));
      |v'| <= FLUSH_COUNT && Left(to + FLUSH_UNIT, v') < Left(to, v)
  {
    NextUnit(to);
  }

  /** What the loop reads in one round: `append_pos` and the least published chunk. */
  datatype Seen = Seen(appended: Pos, published: ChunkId)

  /** The unit at `pos` is appended, its chunk is cached and no appender may still write to it. */
  predicate Ready(cache: map<ChunkId, nat>, pos: Pos, s: Seen) {
    pos + FLUSH_UNIT <= s.appended && ChunkOf(pos) in cache && ChunkOf(pos) < s.published
  }

  /** The loop took the first `n` units from `from` on and no more: then one was not ready or there was no room. */
  ghost predicate TookAll(cache: map<ChunkId, nat>, from: Pos, seen: nat -> Seen, n: nat, full: bool) {
    && (forall i | 0 <= i < n :: ReadyAt(cache, from, seen, i))
    && (full || !ReadyAt(cache, from, seen, n))
  }

  predicate ReadyAt(cache: map<ChunkId, nat>, from: Pos, seen: nat -> Seen, i: nat) {
    Ready(cache, from + i * FLUSH_UNIT, seen(i))
  }

  /**
   The do-while loop of `flush`.  `seen(i)` is what round `i` reads of the appenders.
   */
  method Gather(cache: map<ChunkId, nat>, from: Pos, seen: nat -> Seen)
    returns (to: Pos, v: seq<Piece>, done: seq<ChunkId>, size: nat, ghost units: nat)
    requires from % FLUSH_UNIT == 0
    ensures Gathered(cache, from, to, v, done)
    ensures size == to - from == units * FLUSH_UNIT && |done| <= |v| <= FLUSH_COUNT
    ensures TookAll(cache, from, seen, units, |v| == FLUSH_COUNT)
  {
    to, v, done, size, units := from, [], [], 0, 0;
    var round, last: Address := 0, -1;
    while |v| < FLUSH_COUNT
      invariant Gathered(cache, from, to, v, done) && round == units
      invariant size == to - from == units * FLUSH_UNIT && |v| <= FLUSH_COUNT && last == EndOf(v)
      invariant forall i | 0 <= i < units :: ReadyAt(cache, from, seen, i)
      decreases Left(to, v)
    {
      if to + FLUSH_UNIT > seen(round).appended {
        break;
      }
      var id, offset := ChunkOf(to), OffsetOf(to);
      if id !in cache {
        break;
      }
      if seen(round).published <= id {
        break;
      }
      assert ReadyAt(cache, from, seen, units);
      GatherStep(cache, from, to, v, done);
      LeftDecreases(cache, from, to, v, done);
      ghost var v', done' := AddUnit(v, AddressOf(cache, to), offset), Ended(to, done);
      var ptr := AddressOf(cache, to);
      if last == ptr && offset != 0 {
        v := v[|v| - 1 := v[|v| - 1].(len := v[|v| - 1].len + FLUSH_UNIT)];
      } else {
        v := v + [Piece(ptr, FLUSH_UNIT)];
      }
      last := ptr + FLUSH_UNIT;
      if offset + FLUSH_UNIT == CHUNK_SIZE {
        done := done + [id];
      }
      assert v == v' && done == done';
      to := to + FLUSH_UNIT;
      size := size + FLUSH_UNIT;
      units, round := units + 1, round + 1;
    }
  }
}
