/**
 The log store of `ywLogStore`: any number of appenders reserve ranges of the
 log by compare-and-swap on `append_pos`, publish the chunk they may still
 write to, and fill their range; one flusher writes finished ranges out and
 recycles the buffers of finished chunks.

 The store is a transition system.  One action is one access to shared state:
 the loads and the compare-and-swaps of `go_forward` are separate, and the
 flusher reads the published chunks one thread at a time.
 */
module LogStore {
  import opened Basics

  type Tid = nat
  type Pos = nat
  type ChunkId = nat

  const CHUNK_SIZE: nat := 0x100_0000
  const FLUSH_UNIT: nat := 0x4_0000
  /** Buffers of one chunk each, of which all but one may hold chunks of the log. */
  const MAX_PREPARE: nat := 16
  const VIEW_DEFAULT: nat := 0x7FFF_FFFF_FFFF_FFFF

  function ChunkOf(pos: Pos): ChunkId { pos / CHUNK_SIZE }

  function OffsetOf(pos: Pos): nat { pos % CHUNK_SIZE }

  /** The next chunk boundary, at or after `pos`. */
  function AlignUp(pos: Pos): Pos { (pos + CHUNK_SIZE - 1) / CHUNK_SIZE * CHUNK_SIZE }

  predicate Crosses(pos: Pos, size: nat) { OffsetOf(pos) + size > CHUNK_SIZE }

  // -------------------------------------------------------------- buffer memory

  /** The buffers lie one behind the other; addresses count from the first byte of the first. */
  type Address = int

  type Cache = map<ChunkId, nat>

  /** Where in buffer memory the byte at a log position is, if its chunk is there. */
  function AddressOf(cache: Cache, pos: Pos): Address {
    if ChunkOf(pos) in cache then cache[ChunkOf(pos)] * CHUNK_SIZE + OffsetOf(pos) else -1
  }

  /** The addresses of the bytes of the log from `lo` up to `hi`. */
  ghost function Image(cache: Cache, lo: Pos, hi: Pos): seq<Address>
    requires lo <= hi
  {
    seq(hi - lo, i requires 0 <= i => AddressOf(cache, lo + i))
  }

  ghost function Stretch(base: Address, len: nat): seq<Address> {
    seq(len, i requires 0 <= i => base + i)
  }

  /** Byte `i` of the value that reservation `k` is for. */
  datatype Mark = Mark(k: nat, i: nat)

  /** One store of `len` bytes from `base` on: the value of a reservation, or bytes of no value. */
  datatype Store = Store(base: Address, len: nat, owner: Option<nat>)

  predicate CoversByte(w: Store, a: Address) { w.base <= a < w.base + w.len }

  /** What the last store to `a` left there. */
  function ByteAt(memory: seq<Store>, a: Address): Option<Mark> {
    if memory == [] then None
    else
      var w := memory[|memory| - 1];
      if !CoversByte(w, a) then ByteAt(memory[..|memory| - 1], a)
      else if w.owner.Some? then Some(Mark(w.owner.value, a - w.base)) else None
  }

  // -------------------------------------------------------------------- threads

  datatype Reservation = Reservation(pos: Pos, size: nat, done: bool)

  /** Whether `go_forward` tested the position it will try, or re-read it after aligning to `aligned`. */
  datatype Origin = Tested | ReadAgain(aligned: Pos)

  /**
   An appender inside `append`.  `k` is the index of its reservation and `base` the
   pointer it got; `Asserting` is its own scan of the published chunks.
   */
  datatype Pc =
    | Idle
    | Loaded(v: Pos, size: nat)
    | Enter(size: nat)
    | Check(prev: Pos, size: nat)
    | Reread(size: nat, aligned: Pos)
    | Try(prev: Pos, size: nat, origin: Origin)
    | Reserved(k: nat)
    | HasBuffer(k: nat, base: Address)
    | Asserting(k: nat, base: Address, i: nat, min: nat)
    | Written(k: nat)

  /** The flusher inside `flush`; `from` is where the call started. */
  datatype Flusher =
    | Resting
    | LoopTop(from: Pos)
    | CanRead(from: Pos)
    | ScanStart(from: Pos)
    | Scanning(from: Pos, i: nat, min: nat)
    | Stopped(from: Pos)
    | Flushed(from: Pos, to: Pos)

  datatype State = State(
    appendPos: Pos,
    writePos: Pos,
    views: seq<nat>,
    pcs: seq<Pc>,
    reservations: seq<Reservation>,
    flusher: Flusher,
    nextChunk: ChunkId,
    cache: Cache,
    highWater: nat,
    memory: seq<Store>)

  /**
   After `create_master`: chunk 0 is the master chunk, chunk 1 the first log chunk,
   in buffer 0, and the master chunk was written from buffer 1.
   */
  function InitState(n: nat): State {
    State(CHUNK_SIZE, CHUNK_SIZE, seq(n, _ => VIEW_DEFAULT), seq(n, _ => Idle), [], Resting,
          2, map[1 := 0], 2, [])
  }

  // ------------------------------------------------------------------ appenders

  datatype Append =
    | LoadView(t: Tid, size: nat)
    | StoreView(t: Tid)
    | LoadPos(t: Tid)
    | AlignCas(t: Tid)
    | LoadAligned(t: Tid)
    | ReserveCas(t: Tid)
    | FindBuffer(t: Tid)
    | MinFirst(t: Tid)
    | MinNext(t: Tid)
    | WriteValue(t: Tid)
    | ResetView(t: Tid)

  predicate HasThread(s: State, t: Tid) { |s.views| == |s.pcs| && t < |s.pcs| }

  predicate EnabledAppend(s: State, a: Append) {
    && HasThread(s, a.t)
    && var pc := s.pcs[a.t];
       match a
       case LoadView(t, size) => pc.Idle?
       case StoreView(t) => pc.Loaded?
       case LoadPos(t) => pc.Enter?
       case AlignCas(t) => pc.Check?
       case LoadAligned(t) => pc.Reread?
       case ReserveCas(t) => pc.Try?
       case FindBuffer(t) => pc.Reserved? && pc.k < |s.reservations| && ChunkOf(s.reservations[pc.k].pos) in s.cache
       case MinFirst(t) => pc.HasBuffer?
       case MinNext(t) => pc.Asserting? && pc.i < |s.views|
       case WriteValue(t) => pc.Asserting? && pc.i == |s.views| && pc.k < |s.reservations|
       case ResetView(t) => pc.Written?
  }

  function SetPc(s: State, t: Tid, pc: Pc): State
    requires t < |s.pcs|
  {
    s.(pcs := s.pcs[t := pc])
  }

  /** After a load of `append_pos` in `go_forward`: does the range fit into the chunk? */
  function AfterLoad(prev: Pos, size: nat): Pc {
    if Crosses(prev, size) then Check(prev, size) else Try(prev, size, Tested)
  }

  function ApplyAppend(s: State, a: Append): State
    requires EnabledAppend(s, a)
  {
    var pc := s.pcs[a.t];
    match a
    case LoadView(t, size) => SetPc(s, t, Loaded(s.appendPos, size))
    case StoreView(t) => SetPc(s, t, Enter(pc.size)).(views := s.views[t := ChunkOf(pc.v)])
    case LoadPos(t) => SetPc(s, t, AfterLoad(s.appendPos, pc.size))
    case AlignCas(t) =>
      if s.appendPos == pc.prev then SetPc(s, t, Reread(pc.size, AlignUp(pc.prev))).(appendPos := AlignUp(pc.prev))
      else SetPc(s, t, Enter(pc.size))
    case LoadAligned(t) => SetPc(s, t, Try(s.appendPos, pc.size, ReadAgain(pc.aligned)))
    case ReserveCas(t) =>
      if s.appendPos == pc.prev then
        SetPc(s, t, Reserved(|s.reservations|))
        .(appendPos := pc.prev + pc.size, reservations := s.reservations + [Reservation(pc.prev, pc.size, false)])
      else SetPc(s, t, Enter(pc.size))
    case FindBuffer(t) => SetPc(s, t, HasBuffer(pc.k, AddressOf(s.cache, s.reservations[pc.k].pos)))
    case MinFirst(t) => SetPc(s, t, Asserting(pc.k, pc.base, 0, s.views[0]))
    case MinNext(t) =>
      SetPc(s, t, Asserting(pc.k, pc.base, pc.i + 1, if s.views[pc.i] < pc.min then s.views[pc.i] else pc.min))
    case WriteValue(t) =>
      SetPc(s, t, Written(pc.k))
      .(reservations := s.reservations[pc.k := s.reservations[pc.k].(done := true)],
        memory := s.memory + [Store(pc.base, s.reservations[pc.k].size, Some(pc.k))])
    case ResetView(t) => SetPc(s, t, Idle).(views := s.views[t := VIEW_DEFAULT])
  }

  // -------------------------------------------------------------------- flusher

  /** `alloc_cache` takes a fresh buffer while there is one, then the first unused one from buffer 1 on. */
  predicate Allocates(s: State, b: nat) {
    && b < MAX_PREPARE && !Occupied(s.cache, b)
    && if s.highWater < MAX_PREPARE then b == s.highWater
       else forall c | 0 < c < (if b == 0 then MAX_PREPARE else b) :: Occupied(s.cache, c)
  }

  predicate Occupied(cache: Cache, b: nat) { exists id | id in cache :: cache[id] == b }

  /** Buffer `b` after it was allocated and filled with zeros or with the master chunk. */
  function Overwritten(s: State, b: nat): State {
    s.(highWater := if s.highWater < MAX_PREPARE then s.highWater + 1 else s.highWater,
       memory := s.memory + [Store(b * CHUNK_SIZE, CHUNK_SIZE, None)])
  }

  /** `find_cache` may miss a cached chunk, and the loop may stop when its vector is full. */
  datatype Flush =
    | CreateChunk(b: nat)
    | Begin
    | ReadAppendPos
    | FindCache(found: bool)
    | ScanFirst
    | ScanNext
    | Emit
    | VectorFull
    | WriteOut(ok: bool)
    | Recycle(id: ChunkId)
    | WriteMaster(b: nat)
    | Finish

  /** Every chunk that the flush completed has been recycled. */
  predicate AllRecycled(s: State)
    requires s.flusher.Flushed?
  {
    forall id | ChunkOf(s.flusher.from) <= id < ChunkOf(s.flusher.to) :: id !in s.cache
  }

  predicate EnabledFlush(s: State, a: Flush) {
    match a
    case CreateChunk(b) => s.flusher.Resting? && |s.cache| < MAX_PREPARE - 1 && Allocates(s, b)
    case Begin => s.flusher.Resting?
    case ReadAppendPos => s.flusher.LoopTop?
    case FindCache(found) => s.flusher.CanRead? && (found ==> ChunkOf(s.writePos) in s.cache)
    case ScanFirst => s.flusher.ScanStart? && |s.views| > 0
    case ScanNext => s.flusher.Scanning? && s.flusher.i < |s.views|
    case Emit => s.flusher.Scanning? && s.flusher.i == |s.views|
    case VectorFull => s.flusher.LoopTop? && s.flusher.from < s.writePos
    case WriteOut(ok) => s.flusher.Stopped? && s.flusher.from < s.writePos
    case Recycle(id) => s.flusher.Flushed? && ChunkOf(s.flusher.from) <= id < ChunkOf(s.flusher.to) && id in s.cache
    case WriteMaster(b) => s.flusher.Flushed? && AllRecycled(s) && Allocates(s, b)
    case Finish => (s.flusher.Flushed? && AllRecycled(s)) || (s.flusher.Stopped? && s.flusher.from == s.writePos)
  }

  function ApplyFlush(s: State, a: Flush): State
    requires EnabledFlush(s, a)
  {
    var f := s.flusher;
    match a
    case CreateChunk(b) => Overwritten(s, b).(nextChunk := s.nextChunk + 1, cache := s.cache[s.nextChunk := b])
    case Begin => s.(flusher := LoopTop(s.writePos))
    case ReadAppendPos =>
      s.(flusher := if s.writePos + FLUSH_UNIT > s.appendPos then Stopped(f.from) else CanRead(f.from))
    case FindCache(found) => s.(flusher := if found then ScanStart(f.from) else Stopped(f.from))
    case ScanFirst => s.(flusher := Scanning(f.from, 0, s.views[0]))
    case ScanNext => s.(flusher := Scanning(f.from, f.i + 1, if s.views[f.i] < f.min then s.views[f.i] else f.min))
    case Emit =>
      if f.min <= ChunkOf(s.writePos) then s.(flusher := Stopped(f.from))
      else s.(flusher := LoopTop(f.from), writePos := s.writePos + FLUSH_UNIT)
    case VectorFull => s.(flusher := Stopped(f.from))
    case WriteOut(ok) =>
      if ok then s.(flusher := Flushed(f.from, s.writePos)) else s.(flusher := Resting, writePos := f.from)
    case Recycle(id) => s.(cache := s.cache - {id})
    case WriteMaster(b) => Overwritten(s, b)
    case Finish => s.(flusher := Resting)
  }

  datatype Action = Appender(a: Append) | Flushing(f: Flush)

  predicate Enabled(s: State, x: Action) {
    match x
    case Appender(a) => EnabledAppend(s, a)
    case Flushing(f) => EnabledFlush(s, f)
  }

  function Apply(s: State, x: Action): State
    requires Enabled(s, x)
  {
    match x
    case Appender(a) => ApplyAppend(s, a)
    case Flushing(f) => ApplyFlush(s, f)
  }
}
