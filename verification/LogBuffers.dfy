/**
 Chunk numbers, physical places and buffers of the log store: `ywChunkMgr`,
 the allocator of `ywBuffCache` and `ywPos::go_forward` without interference.
 */
module LogBuffers {
  import opened Basics
  import opened LogStore

  // ------------------------------------------------------------------ positions

  class Position {
    var val: Pos

    constructor (v: Pos)
      ensures val == v
    {
      val := v;
    }

    /** Alone, its compare-and-swaps succeed, and a value of at most a chunk never leaves its chunk. */
    method GoForward(size: nat) returns (pos: Pos)
      modifies this
      ensures pos == if Crosses(old(val), size) then AlignUp(old(val)) else old(val)
      ensures val == pos + size
      ensures size <= CHUNK_SIZE ==> !Crosses(pos, size)
      ensures old(val) <= pos < old(val) + CHUNK_SIZE
    {
      var prev := val;
      if Crosses(prev, size) {
        val := AlignUp(prev);
        prev := val;
      }
      val := prev + size;
      pos := prev;
    }
  }

  // --------------------------------------------------------------- chunk manager

  const CHUNK_MAP_MAX: nat := 65536

  datatype ChunkInfo = ChunkInfo(kind: nat, place: nat)

  class ChunkMgr {
    var lastId: nat
    var usedPlaces: nat
    var chunkMap: map<ChunkId, ChunkInfo>

    /** Numbers and places are given out in step, so every chunk lies at the place of its number. */
    ghost predicate Valid()
      reads this
    {
      && lastId == usedPlaces <= CHUNK_MAP_MAX
      && (forall id | 0 <= id < lastId :: id in chunkMap && chunkMap[id].place == id)
    }

    constructor ()
      ensures Valid() && lastId == 0
    {
      lastId, usedPlaces, chunkMap := 0, 0, map[];
    }

    /** `locked` is the answer of the map lock. */
    method AllocChunk(kind: nat, locked: bool) returns (r: Option<ChunkId>)
      requires Valid()
      modifies this
      ensures Valid()
      ensures r.Some? <==> locked && old(lastId) < CHUNK_MAP_MAX
      ensures r.Some? ==> r.value == old(lastId) && lastId == old(lastId) + 1
      ensures r.Some? ==> chunkMap == old(chunkMap)[r.value := ChunkInfo(kind, r.value)]
      ensures r.None? ==> lastId == old(lastId) && chunkMap == old(chunkMap)
    {
      if !locked {
        return None;
      }
      var id, place := lastId, usedPlaces;
      lastId := lastId + 1;
      usedPlaces := usedPlaces + 1;
      if id >= CHUNK_MAP_MAX {
        lastId := lastId - 1;
        usedPlaces := usedPlaces - 1;
        return None;
      }
      chunkMap := chunkMap[id := ChunkInfo(kind, place)];
      r := Some(id);
    }
  }

  // ------------------------------------------------------------ buffer allocator

  ghost function InUse(s: seq<bool>): nat {
    if s == [] then 0 else InUse(s[..|s| - 1]) + if s[|s| - 1] then 1 else 0
  }

  lemma {:induction false} InUseUpdate(s: seq<bool>, i: nat, b: bool)
    requires i < |s|
    ensures InUse(s[i := b]) == InUse(s) + (if b then 1 else 0) - (if s[i] then 1 else 0)
  {
    var n := |s| - 1;
    if i < n {
      InUseUpdate(s[..n], i, b);
      assert s[i := b][..n] == s[..n][i := b];
    } else {
      assert s[i := b][..n] == s[..n];
    }
  }

  /** A buffer that is not in use exists as soon as the count says so. */
  lemma {:induction false} SomeUnused(s: seq<bool>) returns (i: nat)
    requires InUse(s) < |s|
    ensures i < |s| && !s[i]
  {
    var n := |s| - 1;
    if !s[n] {
      i := n;
    } else {
      i := SomeUnused(s[..n]);
    }
  }

  /** The first unused buffer from buffer 1 on, and buffer 0 last. */
  ghost predicate FirstUnused(s: seq<bool>, b: nat) {
    b < |s| && !s[b] && forall c | 0 < c < (if b == 0 then |s| else b) :: s[c]
  }

  class BuffCache {
    const status: array<bool>
    var highWater: nat

    ghost predicate Valid()
      reads this, status
    {
      highWater <= status.Length && status.Length > 0 && forall i | highWater <= i < status.Length :: !status[i]
    }

    constructor (count: nat)
      requires count > 0
      ensures Valid() && fresh(status) && status.Length == count && InUse(status[..]) == 0
    {
      status := new bool[count](_ => false);
      highWater := 0;
      new;
      NoneUsed(status[..]);
    }

    /** The search for an unused buffer ends, because there is one. */
    method AllocCache() returns (b: nat)
      requires Valid() && InUse(status[..]) < status.Length
      modifies this, status
      ensures Valid()
      ensures b < status.Length && !old(status[b]) && status[..] == old(status[..])[b := true]
      ensures InUse(status[..]) == old(InUse(status[..])) + 1
      ensures if old(highWater) < status.Length then b == old(highWater) && highWater == b + 1
              else highWater == old(highWater) && FirstUnused(old(status[..]), b)
    {
      ghost var was := status[..];
      if highWater < status.Length {
        b := highWater;
        highWater := highWater + 1;
      } else {
        ghost var free := SomeUnused(was);
        b := NextBuffer(0);
        while status[b]
          invariant b < status.Length && status[..] == was
          invariant forall c | 0 < c < (if b == 0 then status.Length else b) :: was[c]
          decreases if b <= free then free - b else free + status.Length - b
        {
          b := NextBuffer(b);
        }
      }
      status[b] := true;
      InUseUpdate(was, b, true);
    }

    function NextBuffer(b: nat): (r: nat)
      requires status.Length > 0
      ensures r < status.Length
    {
      if b + 1 >= status.Length then 0 else b + 1
    }

    method DeallocCache(b: nat) returns (ok: bool)
      requires Valid() && b < status.Length
      modifies status
      ensures Valid()
      ensures ok == old(status[b]) && status[..] == old(status[..])[b := false]
      ensures InUse(status[..]) == old(InUse(status[..])) - if ok then 1 else 0
    {
      ghost var was := status[..];
      InUseUpdate(was, b, false);
      if !status[b] {
        return false;
      }
      status[b] := false;
      return true;
    }
  }

  lemma {:induction false} NoneUsed(s: seq<bool>)
    requires forall i | 0 <= i < |s| :: !s[i]
    ensures InUse(s) == 0
  {
    if s != [] {
      NoneUsed(s[..|s| - 1]);
    }
  }
}
