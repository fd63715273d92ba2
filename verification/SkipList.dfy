/** `ywSkipList` without interference: search, insertion and removal on linked towers. */
module SkipLists {
  import opened Basics
  import opened SkipRows
  import opened SkipLast
  import opened SkipLevels

  const MAX_LEVEL: nat := 8

  class SkipList {
    const level: nat
    const heads: seq<Node>
    const tails: seq<Node>
    var mem: Memory
    var seqNo: nat
    var nextNode: Node
    ghost var rows: Rows

    ghost predicate Valid()
      reads this
    {
      && 0 < level <= MAX_LEVEL && |rows| == level
      && Ok(mem, rows, heads, tails)
      && Allocated(mem, nextNode)
    }

    /** The keys stored in the list. */
    ghost function Contents(): set<nat>
      requires Valid()
      reads this
    {
      Stored(mem, rows)
    }

    constructor (level: nat)
      requires 0 < level <= MAX_LEVEL
      ensures Valid() && this.level == level && seqNo == 0 && Contents() == {}
    {
      var hs := seq(level, i => i);
      var ts := seq(level, i => level + i);
      this.level, heads, tails := level, hs, ts;
      var m: Memory := map[];
      ghost var rs: Rows := [];
      for i := 0 to level
        invariant |rs| == i && forall n | n in m :: n < 2 * level
        invariant forall k | 0 <= k < i :: Sentinels(m, rs, level, k)
      {
        ghost var m0, rs0 := m, rs;
        m := m[hs[i] := Rec(ts[i], if i + 1 < level then Some(i + 1) else None, if i > 0 then Some(i - 1) else None,
          INIT_KEY)];
        m := m[ts[i] := Rec(hs[i], if i + 1 < level then Some(level + i + 1) else None,
          if i > 0 then Some(level + i - 1) else None, LAST_KEY)];
        rs := rs + [{i, level + i}];
        forall k | 0 <= k <= i
          ensures Sentinels(m, rs, level, k)
        {
          if k < i { assert Sentinels(m0, rs0, level, k); }
        }
      }
      SentinelsOk(m, rs, level, hs, ts);
      mem, rows, nextNode, seqNo := m, rs, 2 * level, 0;
    }

    method Search(target: nat) returns (history: seq<Node>)
      requires Valid() && target <= LAST_KEY
      ensures |history| == level && Preds(mem, rows, heads, tails, history, target)
      ensures var b := level - 1; RowAt(mem, rows, heads, tails, b)
                                  && history[b] == Scan(mem, rows[b], heads[b], tails[b], heads[b], target)
    {
      history := SearchDown(mem, rows, heads, tails, target);
      BottomScan(mem, rows, heads, tails, history, target);
    }

    /** `search`: the key of the node after the predecessor. */
    method Find(target: nat) returns (k: nat)
      requires Valid() && target <= LAST_KEY
      ensures IsCeiling(Contents(), target, k)
    {
      var history := SearchDown(mem, rows, heads, tails, target);
      ghost var b := level - 1;
      assert RowAt(mem, rows, heads, tails, b) && PredAt(mem, rows, heads, tails, history, target, b);
      NextIsCeiling(mem, rows[b], heads[b], tails[b], history[b], target);
      k := mem[mem[history[level - 1]].next].key;
    }

    method GetNewLevel() returns (h: nat)
      requires 0 < level
      modifies this`seqNo
      ensures seqNo == (old(seqNo) + 1) % WORD && h == NewLevel(seqNo, level - 1)
    {
      seqNo := (seqNo + 1) % WORD;
      var i := level - 1;
      while i > 0
        invariant 0 <= i < level && NewLevel(seqNo, level - 1) == NewLevel(seqNo, i)
      {
        if AllSet(seqNo, i) {
          return i + 1;
        }
        i := i - 1;
      }
      return 1;
    }

    method Insert(target: nat) returns (ok: bool)
      requires Valid() && target <= LAST_KEY
      modifies this
      ensures Valid() && ok == (target != INIT_KEY) && seqNo == (old(seqNo) + 1) % WORD
      ensures if INIT_KEY < target < LAST_KEY && target !in old(Contents())
              then Gained(old(mem), old(rows), mem, rows, level - NewLevel(seqNo, level - 1), target)
              else mem == old(mem) && rows == old(rows)
    {
      var h := GetNewLevel();
      if target == INIT_KEY {
        return false;
      }
      mem, nextNode, rows := InsertKey(mem, rows, heads, tails, nextNode, h, target);
      return true;
    }

    /**
     The code never returns for a key that is not present.  Otherwise the list stays
     well formed, with any choice of levels, exactly if the key is not `LAST_KEY`.
     */
    method Remove(target: nat) returns (ok: bool)
      requires Valid() && target <= LAST_KEY && (target in {INIT_KEY, LAST_KEY} || target in Contents())
      modifies this
      ensures ok == (target != INIT_KEY)
      ensures (exists after :: Ok(mem, after, heads, tails)) <==> target != LAST_KEY
      ensures Valid() <==> target != LAST_KEY
      ensures if !ok then mem == old(mem) && rows == old(rows)
              else target < LAST_KEY ==> Lost(old(mem), old(rows), mem, rows, target)
    {
      if target == INIT_KEY {
        return false;
      }
      mem, rows := RemoveKey(mem, rows, heads, tails, target);
      assert target < LAST_KEY ==> Ok(mem, rows, heads, tails);
      return true;
    }
  }

  /** The keys of the bottom level, which are all the keys there are. */
  ghost function Stored(m: Memory, rows: Rows): set<nat>
    requires |rows| > 0
  {
    Keys(m, rows[|rows| - 1])
  }

  /** `history` holds the predecessors of `target` on the top levels. */
  ghost predicate Preds(m: Memory, rows: Rows, heads: seq<Node>, tails: seq<Node>, history: seq<Node>, target: nat) {
    && |history| <= |rows| == |heads| == |tails|
    && forall i | 0 <= i < |history| :: PredAt(m, rows, heads, tails, history, target, i)
  }

  ghost predicate PredAt(m: Memory, rows: Rows, heads: seq<Node>, tails: seq<Node>, history: seq<Node>, target: nat,
                         i: nat)
    requires i < |history| <= |rows| == |heads| == |tails|
  {
    IsPred(m, rows[i], heads[i], tails[i], history[i], target)
  }

  /** The loop of `_search` over all levels. */
  method SearchDown(m: Memory, ghost rows: Rows, heads: seq<Node>, ghost tails: seq<Node>,
                    target: nat) returns (history: seq<Node>)
    requires Ok(m, rows, heads, tails) && target <= LAST_KEY
    ensures |history| == |heads| && Preds(m, rows, heads, tails, history, target)
  {
    var cursor: Node := heads[0];
    assert RowAt(m, rows, heads, tails, 0);
    history := [];
    while |history| < |heads|
      invariant |history| <= |heads|
      invariant |history| < |heads| ==> Below(m, rows[|history|], heads[|history|], tails[|history|], cursor, target)
      invariant Preds(m, rows, heads, tails, history, target)
      decreases |heads| - |history|, LAST_KEY - if cursor in m then m[cursor].key else 0
    {
      StepAlong(m, rows, heads, tails, |history|, cursor, target);
      if m[m[cursor].next].key < target {
        cursor := m[cursor].next;
      } else {
        PredsPush(m, rows, heads, tails, history, cursor, target);
        history := history + [cursor];
        if |history| < |heads| {
          cursor := m[cursor].down.value;
        }
      }
    }
  }

  /** The pointer writes for one new node. */
  method LinkNode(m: Memory, base: Node, x: Node, d: Option<Node>, target: nat) returns (n: Memory)
    requires base in m && Allocated(m, x) && (d.Some? ==> d.value in m)
    ensures n == Inserted(m, base, x, d, target) && Allocated(n, x + 1)
  {
    n := m;
    if d.Some? {
      n := n[d.value := n[d.value].(up := Some(x))];
    }
    n := n[x := Rec(n[base].next, d, None, target)];
    n := n[base := n[base].(next := x)];
  }

  lemma PredsPush(m: Memory, rows: Rows, heads: seq<Node>, tails: seq<Node>, history: seq<Node>, n: Node, target: nat)
    requires Preds(m, rows, heads, tails, history, target) && |history| < |rows|
    requires IsPred(m, rows[|history|], heads[|history|], tails[|history|], n, target)
    ensures Preds(m, rows, heads, tails, history + [n], target)
  {
    forall i | 0 <= i <= |history|
      ensures PredAt(m, rows, heads, tails, history + [n], target, i)
    {
      if i < |history| {
        assert PredAt(m, rows, heads, tails, history, target, i);
      }
    }
  }

  lemma BottomScan(m: Memory, rows: Rows, heads: seq<Node>, tails: seq<Node>, history: seq<Node>, target: nat)
    requires Ok(m, rows, heads, tails) && Preds(m, rows, heads, tails, history, target) && |history| == |rows|
             && target <= LAST_KEY
    ensures var b := |rows| - 1;
            RowAt(m, rows, heads, tails, b) && history[b] == Scan(m, rows[b], heads[b], tails[b], heads[b], target)
  {
    var b := |rows| - 1;
    assert RowAt(m, rows, heads, tails, b) && PredAt(m, rows, heads, tails, history, target, b);
    PredUnique(m, rows[b], heads[b], tails[b], history[b], Scan(m, rows[b], heads[b], tails[b], heads[b], target),
      target);
  }

  /** Along a level, or down to the next one, a search stays below its target. */
  lemma StepAlong(m: Memory, rows: Rows, heads: seq<Node>, tails: seq<Node>, i: nat, n: Node, target: nat)
    requires Ok(m, rows, heads, tails) && i < |rows| && target <= LAST_KEY
             && Below(m, rows[i], heads[i], tails[i], n, target)
    ensures m[n].next in m && m[n].key < m[m[n].next].key <= LAST_KEY
    ensures m[m[n].next].key < target ==> Below(m, rows[i], heads[i], tails[i], m[n].next, target)
    ensures m[m[n].next].key >= target ==> IsPred(m, rows[i], heads[i], tails[i], n, target)
    ensures i + 1 < |rows| ==> m[n].down.Some?
                               && Below(m, rows[i + 1], heads[i + 1], tails[i + 1], m[n].down.value, target)
  {
    assert RowAt(m, rows, heads, tails, i);
    if i + 1 < |rows| {
      StepDown(m, rows, heads, tails, i, n, target);
    }
  }

  /** `n` is on the way to the predecessor of `target`. */
  ghost predicate Below(m: Memory, row: set<Node>, head: Node, tail: Node, n: Node, target: nat) {
    n in row && n in m && n != tail && (n == head || m[n].key < target)
  }

  lemma StepDown(m: Memory, rows: Rows, heads: seq<Node>, tails: seq<Node>, i: nat, n: Node, target: nat)
    requires Ok(m, rows, heads, tails) && i + 1 < |rows| && Below(m, rows[i], heads[i], tails[i], n, target)
    ensures m[n].down.Some? && Below(m, rows[i + 1], heads[i + 1], tails[i + 1], m[n].down.value, target)
  {
    assert RowAt(m, rows, heads, tails, i) && RowAt(m, rows, heads, tails, i + 1);
    var j := i + 1;
    assert TowersAt(m, rows, j);
  }

  // ------------------------------------------------------------------ insertion

  /** On the top `k` levels, `target` is absent and belongs right after `history`. */
  ghost predicate Open(m: Memory, rows: Rows, heads: seq<Node>, tails: seq<Node>, history: seq<Node>, k: nat,
                       target: nat) {
    && k <= |history| == |rows| == |heads| == |tails|
    && forall i | 0 <= i < k :: OpenLevel(m, rows, heads, tails, history, target, i)
  }

  ghost predicate OpenLevel(m: Memory, rows: Rows, heads: seq<Node>, tails: seq<Node>, history: seq<Node>,
                            target: nat, i: nat)
    requires i < |history| == |rows| == |heads| == |tails|
  {
    OpenAt(m, rows[i], heads[i], tails[i], history[i], target)
  }

  ghost predicate OpenAt(m: Memory, row: set<Node>, head: Node, tail: Node, n: Node, target: nat) {
    IsPred(m, row, head, tail, n, target) && target < m[m[n].next].key
  }

  lemma OpenEverywhere(m: Memory, rows: Rows, heads: seq<Node>, tails: seq<Node>, history: seq<Node>, target: nat)
    requires Ok(m, rows, heads, tails) && Preds(m, rows, heads, tails, history, target) && |history| == |rows|
    requires INIT_KEY < target < LAST_KEY && target !in Stored(m, rows)
    ensures Open(m, rows, heads, tails, history, |rows|, target)
  {
    forall i | 0 <= i < |rows|
      ensures OpenLevel(m, rows, heads, tails, history, target, i)
    {
      assert PredAt(m, rows, heads, tails, history, target, i);
      assert RowAt(m, rows, heads, tails, i);
      KeysNested(m, rows, heads, tails, i);
      PresentAfterPred(m, rows[i], heads[i], tails[i], history[i], target);
    }
  }

  lemma OpenKept(m: Memory, n: Memory, rows: Rows, heads: seq<Node>, tails: seq<Node>, history: seq<Node>, j: nat,
                 x: Node, d: Option<Node>, target: nat)
    requires RowsOk(m, rows, heads, tails) && Open(m, rows, heads, tails, history, j + 1, target)
    requires Grown(m, n, history[j], x, d, target)
    ensures Open(n, rows[j := rows[j] + {x}], heads, tails, history, j, target)
  {
    var after := rows[j := rows[j] + {x}];
    forall i | 0 <= i < j
      ensures OpenLevel(n, after, heads, tails, history, target, i)
    {
      assert OpenLevel(m, rows, heads, tails, history, target, i)
             && OpenLevel(m, rows, heads, tails, history, target, j);
      assert rows[i] !! rows[j];
    }
  }

  /** The keys of the levels from `from` down gained `target`, and the others none. */
  ghost predicate Gained(m: Memory, rows: Rows, n: Memory, after: Rows, from: nat, target: nat) {
    && |after| == |rows|
    && forall i | 0 <= i < |rows| :: GainedAt(m, rows, n, after, from, target, i)
  }

  ghost predicate GainedAt(m: Memory, rows: Rows, n: Memory, after: Rows, from: nat, target: nat, i: nat)
    requires i < |rows| == |after|
  {
    Keys(n, after[i]) == Keys(m, rows[i]) + if i >= from then {target} else {}
  }

  lemma GainedMore(m: Memory, rows: Rows, n: Memory, mid: Rows, heads: seq<Node>, tails: seq<Node>, o: Memory,
                   j: nat, base: Node, x: Node, d: Option<Node>, target: nat)
    requires Gained(m, rows, n, mid, j + 1, target) && j < |rows| && Grown(n, o, base, x, d, target)
             && INIT_KEY < target < LAST_KEY
    requires RowsOk(n, mid, heads, tails)
    ensures Gained(m, rows, o, mid[j := mid[j] + {x}], j, target)
  {
    var after := mid[j := mid[j] + {x}];
    forall i | 0 <= i < |rows|
      ensures GainedAt(m, rows, o, after, j, target, i)
    {
      assert GainedAt(m, rows, n, mid, j + 1, target, i);
      assert RowAt(n, mid, heads, tails, i);
      if i == j {
        InsertedKeys(n, o, mid[i], base, x, d, target);
      } else {
        SameKeySet(n, o, mid[i]);
      }
    }
  }

  lemma SameKeySet(m: Memory, n: Memory, row: set<Node>)
    requires SameKeys(m, n, row)
    ensures Keys(n, row) == Keys(m, row)
  {
  }

  lemma InsertedOk(m: Memory, rows: Rows, heads: seq<Node>, tails: seq<Node>, j: nat, base: Node, x: Node,
                   d: Option<Node>, target: nat)
    requires Ok(m, rows, heads, tails) && j < |rows| && OpenAt(m, rows[j], heads[j], tails[j], base, target)
    requires INIT_KEY < target && x !in m && Support(m, rows, j, d, target)
    ensures Grown(m, Inserted(m, base, x, d, target), base, x, d, target)
    ensures Ok(Inserted(m, base, x, d, target), rows[j := rows[j] + {x}], heads, tails)
  {
    var n := Inserted(m, base, x, d, target);
    InsertedGrown(m, base, x, d, target);
    InsertedRows(m, n, rows, heads, tails, j, base, x, d, target);
    InsertedLinks(m, n, rows, j, base, x, d, target);
  }

  ghost predicate Allocated(m: Memory, next: Node) {
    forall n | n in m :: n < next
  }

  /** One round of the loop that builds a tower. */
  method PlaceNode(m: Memory, ghost rows: Rows, ghost heads: seq<Node>, ghost tails: seq<Node>,
                   x: Node, j: nat, base: Node, d: Option<Node>, target: nat) returns (n: Memory)
    requires Ok(m, rows, heads, tails) && Allocated(m, x)
    requires j < |rows| && OpenAt(m, rows[j], heads[j], tails[j], base, target)
    requires INIT_KEY < target && Support(m, rows, j, d, target)
    ensures Ok(n, rows[j := rows[j] + {x}], heads, tails) && Allocated(n, x + 1)
    ensures Grown(m, n, base, x, d, target)
  {
    InsertedOk(m, rows, heads, tails, j, base, x, d, target);
    n := LinkNode(m, base, x, d, target);
  }

  /** The second look at the gaps, level by level, before the tower is built: none has closed. */
  method CheckGaps(m: Memory, ghost rows: Rows, ghost heads: seq<Node>, ghost tails: seq<Node>, history: seq<Node>,
                   h: nat, target: nat)
    returns (open: bool)
    requires 0 < h <= |rows| && Open(m, rows, heads, tails, history, |rows|, target)
    ensures open
  {
    for i := 1 to h + 1 {
      assert OpenLevel(m, rows, heads, tails, history, target, |rows| - i);
      if m[m[history[|history| - i]].next].key <= target {
        return false;
      }
    }
    return true;
  }

  lemma LastPred(m: Memory, rows: Rows, heads: seq<Node>, tails: seq<Node>, history: seq<Node>, target: nat)
    requires Ok(m, rows, heads, tails) && Preds(m, rows, heads, tails, history, target) && |history| == |rows|
    requires INIT_KEY < target <= LAST_KEY
    ensures history[|rows| - 1] in m && m[history[|rows| - 1]].next in m && target <= m[m[history[|rows| - 1]].next].key
    ensures m[m[history[|rows| - 1]].next].key <= target <==> target == LAST_KEY || target in Stored(m, rows)
  {
    var b := |rows| - 1;
    assert RowAt(m, rows, heads, tails, b) && PredAt(m, rows, heads, tails, history, target, b);
    PresentAfterPred(m, rows[b], heads[b], tails[b], history[b], target);
  }

  /** A tower of `target` has been built on the levels from `k` down, on top of which is `d`. */
  ghost predicate Built(m: Memory, rows: Rows, n: Memory, after: Rows, heads: seq<Node>, tails: seq<Node>,
                        history: seq<Node>, k: nat, d: Option<Node>, target: nat) {
    && Ok(n, after, heads, tails) && Open(n, after, heads, tails, history, k, target)
    && Gained(m, rows, n, after, k, target)
    && (0 < k <= |after| ==> Support(n, after, k - 1, d, target))
  }

  lemma BuiltHigher(m: Memory, rows: Rows, n: Memory, after: Rows, o: Memory, heads: seq<Node>, tails: seq<Node>,
                    history: seq<Node>, j: nat, x: Node, d: Option<Node>, target: nat)
    requires Built(m, rows, n, after, heads, tails, history, j + 1, d, target) && j < |after|
    requires Ok(o, after[j := after[j] + {x}], heads, tails) && Grown(n, o, history[j], x, d, target)
    requires INIT_KEY < target < LAST_KEY
    ensures Built(m, rows, o, after[j := after[j] + {x}], heads, tails, history, j, Some(x), target)
  {
    OpenKept(n, o, after, heads, tails, history, j, x, d, target);
    GainedMore(m, rows, n, after, heads, tails, o, j, history[j], x, d, target);
  }

  method BuildTower(m: Memory, ghost rows: Rows, ghost heads: seq<Node>, ghost tails: seq<Node>,
                    next: Node, history: seq<Node>, h: nat, target: nat)
    returns (n: Memory, next': Node, ghost after: Rows)
    requires Ok(m, rows, heads, tails) && Allocated(m, next)
    requires 0 < h <= |rows| && Open(m, rows, heads, tails, history, |rows|, target)
    requires INIT_KEY < target < LAST_KEY
    ensures Ok(n, after, heads, tails) && Allocated(n, next')
    ensures Gained(m, rows, n, after, |rows| - h, target)
  {
    n, next', after := m, next, rows;
    var d: Option<Node> := None;
    var j := |history|;
    while j > |history| - h
      invariant |history| - h <= j <= |history|
      invariant Built(m, rows, n, after, heads, tails, history, j, d, target) && Allocated(n, next')
    {
      j := j - 1;
      assert OpenLevel(n, after, heads, tails, history, target, j);
      var o := PlaceNode(n, after, heads, tails, next', j, history[j], d, target);
      BuiltHigher(m, rows, n, after, o, heads, tails, history, j, next', d, target);
      after := after[j := after[j] + {next'}];
      n, d, next' := o, Some(next'), next' + 1;
    }
  }

  method InsertKey(m: Memory, ghost rows: Rows, heads: seq<Node>, ghost tails: seq<Node>, next: Node, h: nat,
                   target: nat)
    returns (n: Memory, next': Node, ghost after: Rows)
    requires Ok(m, rows, heads, tails) && Allocated(m, next) && INIT_KEY < target <= LAST_KEY && 0 < h <= |rows|
    ensures Ok(n, after, heads, tails) && Allocated(n, next')
    ensures if target < LAST_KEY && target !in Stored(m, rows)
            then Gained(m, rows, n, after, |rows| - h, target)
            else n == m && after == rows
  {
    var history := SearchDown(m, rows, heads, tails, target);
    LastPred(m, rows, heads, tails, history, target);
    if m[m[history[|heads| - 1]].next].key <= target {
      return m, next, rows;
    }
    OpenEverywhere(m, rows, heads, tails, history, target);
    var open := CheckGaps(m, rows, heads, tails, history, h, target);
    n, next', after := BuildTower(m, rows, heads, tails, next, history, h, target);
  }

  // -------------------------------------------------------------------- removal

  /** One level of the climb: `target` is right after its predecessor, and `up` leads to the next level's. */
  lemma ClimbStep(m: Memory, rows: Rows, heads: seq<Node>, tails: seq<Node>, history: seq<Node>, target: nat, j: nat,
                  r: Node)
    requires Ok(m, rows, heads, tails) && Preds(m, rows, heads, tails, history, target) && |history| == |rows|
             && j < |rows|
    requires INIT_KEY < target && r in rows[j] && r in m && m[r].key == target
    ensures history[j] in m && m[history[j]].next == r
    ensures m[r].up.Some? ==> j > 0 && m[r].up.value in rows[j - 1] && m[r].up.value in m
                              && m[m[r].up.value].key == target
  {
    assert RowAt(m, rows, heads, tails, j) && PredAt(m, rows, heads, tails, history, target, j);
    PresentAfterPred(m, rows[j], heads[j], tails[j], history[j], target);
    if j > 0 {
      assert TowersAt(m, rows, j);
      assert m[r].up.Some? ==> m[m[r].up.value].down == Some(r);
    }
  }

  /**
   One round of the retry loop of `remove`.  The round changes nothing, so a
   round that asks for a retry is followed by the same round forever.
   */
  method Attempt(m: Memory, ghost rows: Rows, heads: seq<Node>, ghost tails: seq<Node>, target: nat)
    returns (history: seq<Node>, depth: nat, ghost tower: seq<Node>)
    requires Ok(m, rows, heads, tails) && INIT_KEY < target <= LAST_KEY
    ensures depth == 0 <==> target != LAST_KEY && target !in Stored(m, rows)
    ensures |history| == |rows| && Preds(m, rows, heads, tails, history, target)
    ensures depth > 0 ==> depth <= |rows| && IsTower(m, rows, tower, target, |rows| - depth)
  {
    history := SearchDown(m, rows, heads, tails, target);
    LastPred(m, rows, heads, tails, history, target);
    tower, depth := history, 0;
    var rem: Node := m[history[|heads| - 1]].next;
    if m[rem].key != target {
      return;
    }
    var j := |heads|;
    NextInRow(m, rows, heads, tails, history, target, j - 1);
    while j > 0
      invariant 0 < j <= |heads| && rem in rows[j - 1] && rem in m && m[rem].key == target
      invariant PartTower(m, rows, tower, target, j)
      invariant j < |rows| ==> tower[j] in m && m[tower[j]].up == Some(rem)
      decreases j
    {
      j := j - 1;
      ClimbStep(m, rows, heads, tails, history, target, j, rem);
      if m[history[j]].next != rem {
        return;
      }
      PartGrows(m, rows, tower, target, j, rem);
      tower := tower[j := rem];
      if m[rem].up == None {
        depth := |heads| - j;
        return;
      }
      rem := m[rem].up.value;
    }
  }

  lemma NextInRow(m: Memory, rows: Rows, heads: seq<Node>, tails: seq<Node>, history: seq<Node>, target: nat, j: nat)
    requires Ok(m, rows, heads, tails) && Preds(m, rows, heads, tails, history, target) && |history| == |rows|
             && j < |rows|
    ensures history[j] in rows[j] && history[j] in m && history[j] != tails[j] && m[history[j]].next in rows[j]
  {
    assert RowAt(m, rows, heads, tails, j) && PredAt(m, rows, heads, tails, history, target, j);
  }

  lemma PartGrows(m: Memory, rows: Rows, tower: seq<Node>, target: nat, j: nat, r: Node)
    requires PartTower(m, rows, tower, target, j + 1) && j < |rows| && r in rows[j] && r in m && m[r].key == target
    requires j + 1 < |rows| ==> tower[j + 1] in m && m[tower[j + 1]].up == Some(r)
    ensures PartTower(m, rows, tower[j := r], target, j)
  {
    var t := tower[j := r];
    forall i | j <= i < |rows|
      ensures TowerNode(m, rows, t, target, i)
    {
      if i > j { assert TowerNode(m, rows, tower, target, i); }
    }
    forall i | j < i < |rows|
      ensures UpFrom(m, t, i)
    {
      if i > j + 1 { assert UpFrom(m, tower, i); }
    }
  }

  ghost predicate LeadsTo(m: Memory, rows: Rows, tails: seq<Node>, history: seq<Node>, tower: seq<Node>, i: nat)
    requires i < |rows| == |tails| == |history| == |tower|
  {
    history[i] in rows[i] && history[i] != tails[i] && history[i] in m && m[history[i]].next == tower[i]
      && tower[i] != tails[i]
  }

  /** The tower is unlinked from level `j` down; above that, down to `from`, the predecessors still lead to it. */
  ghost predicate Cut(m: Memory, n: Memory, rows: Rows, heads: seq<Node>, tails: seq<Node>, history: seq<Node>,
                      tower: seq<Node>, from: nat, j: nat) {
    && |history| == |tower| == |rows| == |tails| && from <= j <= |rows|
    && (forall a | a in m :: a in n && n[a].(next := m[a].next) == m[a])
    && RowsOk(n, Shrunk(rows, tower, j), heads, tails)
    && (forall i | from <= i < j :: LeadsTo(n, rows, tails, history, tower, i))
  }

  lemma CutStart(m: Memory, rows: Rows, heads: seq<Node>, tails: seq<Node>, history: seq<Node>, tower: seq<Node>,
                 target: nat, from: nat)
    requires Ok(m, rows, heads, tails) && Preds(m, rows, heads, tails, history, target) && |history| == |rows|
    requires INIT_KEY < target < LAST_KEY && IsTower(m, rows, tower, target, from)
    ensures Cut(m, m, rows, heads, tails, history, tower, from, |rows|)
  {
    assert Shrunk(rows, tower, |rows|) == rows;
    forall i | from <= i < |rows|
      ensures LeadsTo(m, rows, tails, history, tower, i)
    {
      assert TowerNode(m, rows, tower, target, i) && RowAt(m, rows, heads, tails, i);
      ClimbStep(m, rows, heads, tails, history, target, i, tower[i]);
      NextInRow(m, rows, heads, tails, history, target, i);
    }
  }

  lemma CutStep(m: Memory, n: Memory, rows: Rows, heads: seq<Node>, tails: seq<Node>, history: seq<Node>,
                tower: seq<Node>, from: nat, j: nat)
    requires Cut(m, n, rows, heads, tails, history, tower, from, j + 1) && from <= j && Separate(rows)
    ensures history[j] in n && n[history[j]].next in n
    ensures Cut(m, Unlinked(n, history[j]), rows, heads, tails, history, tower, from, j)
  {
    assert LeadsTo(n, rows, tails, history, tower, j);
    ShrunkStep(rows, tower, j);
    var before := Shrunk(rows, tower, j + 1);
    assert RowAt(n, before, heads, tails, j);
    var o := Unlinked(n, history[j]);
    assert Skips(n, o, history[j]);
    UnlinkedRows(n, o, before, heads, tails, j, history[j]);
    forall i | from <= i < j
      ensures LeadsTo(o, rows, tails, history, tower, i)
    {
      assert LeadsTo(n, rows, tails, history, tower, i) && rows[i] !! rows[j];
    }
  }

  /** Every level lost `target`, if it had it. */
  ghost predicate Lost(m: Memory, rows: Rows, n: Memory, after: Rows, target: nat) {
    && |after| == |rows|
    && forall i | 0 <= i < |rows| :: LostAt(m, rows, n, after, target, i)
  }

  ghost predicate LostAt(m: Memory, rows: Rows, n: Memory, after: Rows, target: nat, i: nat)
    requires i < |rows| == |after|
  {
    Keys(n, after[i]) == Keys(m, rows[i]) - {target}
  }

  lemma CutEnd(m: Memory, n: Memory, rows: Rows, heads: seq<Node>, tails: seq<Node>, history: seq<Node>,
               tower: seq<Node>, target: nat, from: nat)
    requires Ok(m, rows, heads, tails) && IsTower(m, rows, tower, target, from)
    requires Cut(m, n, rows, heads, tails, history, tower, from, from)
    ensures Ok(n, Shrunk(rows, tower, from), heads, tails) && Lost(m, rows, n, Shrunk(rows, tower, from), target)
  {
    var after := Shrunk(rows, tower, from);
    ShrunkLinks(m, rows, tower, target, from);
    SameLinks(m, n, after);
    forall i | 0 <= i < |rows|
      ensures LostAt(m, rows, n, after, target, i)
    {
      assert RowAt(m, rows, heads, tails, i);
      if i >= from {
        assert TowerNode(m, rows, tower, target, i);
        UnlinkedKeys(m, n, rows[i], tower[i]);
      } else {
        SameKeySet(m, n, rows[i]);
        forall a | a in rows[i]
          ensures m[a].key != target
        {
          NotAbove(m, rows, heads, tails, tower, target, from, i, a);
        }
      }
    }
  }

  lemma UntieStart(m: Memory, rows: Rows, heads: seq<Node>, tails: seq<Node>, history: seq<Node>, target: nat)
    requires Ok(m, rows, heads, tails) && Preds(m, rows, heads, tails, history, target) && |history| == |rows|
    ensures Untied(m, m, rows, history, |rows|)
  {
    forall i | 0 <= i < |rows|
      ensures OnLevel(m, rows, history, i) && SameOrder(m, m, rows[i])
    {
      assert RowAt(m, rows, heads, tails, i);
      NextInRow(m, rows, heads, tails, history, target, i);
    }
  }

  /**
   `remove` once a round of the retry loop has found the key.  There are levels for
   which the list is well formed afterwards exactly if the key is not `LAST_KEY`.
   */
  method RemoveKey(m: Memory, ghost rows: Rows, heads: seq<Node>, ghost tails: seq<Node>, target: nat)
    returns (n: Memory, ghost after: Rows)
    requires Ok(m, rows, heads, tails) && INIT_KEY < target <= LAST_KEY
    requires target == LAST_KEY || target in Stored(m, rows)
    ensures (exists levels :: Ok(n, levels, heads, tails)) <==> target < LAST_KEY
    ensures target < LAST_KEY ==> Ok(n, after, heads, tails) && Lost(m, rows, n, after, target)
    ensures n.Keys == m.Keys
  {
    ghost var tower;
    var history, depth;
    history, depth, tower := Attempt(m, rows, heads, tails, target);
    ghost var from := |rows| - depth;
    if target < LAST_KEY {
      CutStart(m, rows, heads, tails, history, tower, target, from);
    }
    UntieStart(m, rows, heads, tails, history, target);
    n := m;
    var j := |heads|;
    while j > |heads| - depth
      invariant from <= j <= |heads| && Untied(m, n, rows, history, j)
      invariant target < LAST_KEY ==> Cut(m, n, rows, heads, tails, history, tower, from, j)
    {
      j := j - 1;
      UntieStep(m, n, rows, history, j);
      if target < LAST_KEY {
        CutStep(m, n, rows, heads, tails, history, tower, from, j);
      }
      var base: Node := history[j];
      var rem: Node := n[base].next;
      n := n[base := n[base].(next := n[rem].next)];
    }
    after := Shrunk(rows, tower, from);
    if target < LAST_KEY {
      CutEnd(m, n, rows, heads, tails, history, tower, target, from);
    } else {
      LastGone(m, n, rows, heads, tails, history, from);
    }
  }

  lemma LastGone(m: Memory, n: Memory, rows: Rows, heads: seq<Node>, tails: seq<Node>, history: seq<Node>, j: nat)
    requires Ok(m, rows, heads, tails) && Preds(m, rows, heads, tails, history, LAST_KEY) && |history| == |rows|
    requires Untied(m, n, rows, history, j) && j < |rows|
    ensures !exists levels :: Ok(n, levels, heads, tails)
  {
    assert PredAt(m, rows, heads, tails, history, LAST_KEY, |rows| - 1);
    forall levels
      ensures !Ok(n, levels, heads, tails)
    {
      NoLevelsLeft(m, n, rows, heads, tails, history, j, levels);
    }
  }

  /** The least stored key that is not below `target`, or `LAST_KEY` if there is none. */
  ghost predicate IsCeiling(stored: set<nat>, target: nat, k: nat) {
    && target <= k && (k in stored || k == LAST_KEY)
    && forall o | o in stored && target <= o :: k <= o
  }

  lemma NextIsCeiling(m: Memory, row: set<Node>, head: Node, tail: Node, n: Node, target: nat)
    requires RowOk(m, row, head, tail) && IsPred(m, row, head, tail, n, target)
    ensures IsCeiling(Keys(m, row), target, m[m[n].next].key)
  {
    var k := m[m[n].next].key;
    assert m[n].next in row;
    forall o | o in Keys(m, row) && target <= o
      ensures k <= o
    {
      var a :| a in row && a in m && m[a].key == o;
    }
  }

  // -------------------------------------------------------------------- a new list

  /** Level `i` holds its head and its tail, and nothing else. */
  ghost predicate Sentinels(m: Memory, rows: Rows, level: nat, i: nat) {
    && i < |rows| && i < level && rows[i] == {i, level + i} && i in m && level + i in m
    && m[i] == Rec(level + i, if i + 1 < level then Some(i + 1) else None, if i > 0 then Some(i - 1) else None,
       INIT_KEY)
    && m[level + i] == Rec(i, if i + 1 < level then Some(level + i + 1) else None,
       if i > 0 then Some(level + i - 1) else None, LAST_KEY)
  }

  lemma SentinelsOk(m: Memory, rows: Rows, level: nat, heads: seq<Node>, tails: seq<Node>)
    requires level > 0 && |rows| == level && (forall k | 0 <= k < level :: Sentinels(m, rows, level, k))
    requires heads == seq(level, i => i) && tails == seq(level, i => level + i)
    ensures Ok(m, rows, heads, tails) && Stored(m, rows) == {}
  {
    forall i | 0 <= i < level
      ensures RowAt(m, rows, heads, tails, i)
    {
      assert Sentinels(m, rows, level, i);
    }
    forall i, j | 0 <= i < j < level
      ensures rows[i] !! rows[j]
    {
      assert Sentinels(m, rows, level, i) && Sentinels(m, rows, level, j);
    }
    forall i | 0 < i < level
      ensures TowersAt(m, rows, i)
    {
      assert Sentinels(m, rows, level, i - 1) && Sentinels(m, rows, level, i);
    }
    assert Sentinels(m, rows, level, 0) && Sentinels(m, rows, level, level - 1);
  }
}
