/**
 The levels of `ywSkipList` as values: each level is a set of nodes threaded by
 `next` in key order from a head to a tail and back, and the levels are tied together by
 `down` and `up`.
 */
module SkipRows {
  import opened Basics

  type Node = nat

  const INIT_KEY: nat := 0
  const LAST_KEY: nat := 0xFFFF_FFFF

  datatype Rec = Rec(next: Node, down: Option<Node>, up: Option<Node>, key: nat)

  type Memory = map<Node, Rec>

  ghost predicate InMemory(m: Memory, row: set<Node>) {
    forall n | n in row :: n in m && m[n].key <= LAST_KEY
  }

  ghost predicate Ascending(m: Memory, row: set<Node>, tail: Node)
    requires InMemory(m, row)
  {
    forall n {:trigger m[n].next} | n in row && n != tail :: m[n].next in row && m[n].key < m[m[n].next].key
  }

  ghost predicate NoneSkipped(m: Memory, row: set<Node>, tail: Node)
    requires InMemory(m, row) && Ascending(m, row, tail)
  {
    forall a, b {:trigger m[a].next, b in row} | a in row && b in row && a != tail
      && m[a].key < m[b].key :: m[m[a].next].key <= m[b].key
  }

  ghost predicate KeysDiffer(m: Memory, row: set<Node>)
    requires InMemory(m, row)
  {
    forall a, b | a in row && b in row && m[a].key == m[b].key :: a == b
  }

  /** In `row`, `next` leads from each node to the one with the next greater key, and from the tail to the head. */
  ghost predicate RowOk(m: Memory, row: set<Node>, head: Node, tail: Node) {
    && InMemory(m, row)
    && head in row && m[head].key == INIT_KEY && tail in row && m[tail].key == LAST_KEY && m[tail].next == head
    && Ascending(m, row, tail) && NoneSkipped(m, row, tail) && KeysDiffer(m, row)
  }

  /** `down` maps the nodes of `upper` one to one into `lower`, keeping the key, and `up` is its inverse. */
  ghost predicate TowersOk(m: Memory, upper: set<Node>, lower: set<Node>) {
    && (forall n | n in upper :: n in m)
    && (forall n | n in lower :: n in m)
    && (forall n {:trigger m[n].down} | n in upper :: m[n].down.Some? && m[n].down.value in lower)
    && (forall n {:trigger m[n].down} | n in upper :: m[m[n].down.value].key == m[n].key
                                                      && m[m[n].down.value].up == Some(n))
    && (forall d {:trigger m[d].up} | d in lower && m[d].up.Some? :: m[d].up.value in upper
                                                                     && m[m[d].up.value].down == Some(d))
  }

  type Rows = seq<set<Node>>

  ghost predicate Separate(rows: Rows) {
    forall i, j | 0 <= i < j < |rows| :: rows[i] !! rows[j]
  }

  ghost predicate RowAt(m: Memory, rows: Rows, heads: seq<Node>, tails: seq<Node>, i: nat)
    requires i < |rows| == |heads| == |tails|
  {
    RowOk(m, rows[i], heads[i], tails[i])
  }

  ghost predicate RowsOk(m: Memory, rows: Rows, heads: seq<Node>, tails: seq<Node>) {
    && |heads| == |rows| && |tails| == |rows|
    && (forall i | 0 <= i < |rows| :: RowAt(m, rows, heads, tails, i))
    && Separate(rows)
  }

  ghost predicate TowersAt(m: Memory, rows: Rows, i: nat)
    requires 0 < i < |rows|
  {
    TowersOk(m, rows[i - 1], rows[i])
  }

  ghost predicate LinksOk(m: Memory, rows: Rows) {
    && (forall i | 0 < i < |rows| :: TowersAt(m, rows, i))
    && (|rows| > 0 ==> (forall n | n in rows[0] :: n in m && m[n].up == None)
                       && (forall n | n in rows[|rows| - 1] :: n in m && m[n].down == None))
  }

  ghost predicate Ok(m: Memory, rows: Rows, heads: seq<Node>, tails: seq<Node>) {
    |rows| > 0 && RowsOk(m, rows, heads, tails) && LinksOk(m, rows)
  }

  /** The keys stored in a row. */
  ghost function Keys(m: Memory, row: set<Node>): set<nat> {
    (set n | n in row && n in m :: m[n].key) - {INIT_KEY, LAST_KEY}
  }

  /** `n` is where `target` is or would be inserted after. */
  ghost predicate IsPred(m: Memory, row: set<Node>, head: Node, tail: Node, n: Node, target: nat)
  {
    n in row && n in m && m[n].next in m && n != tail && (n == head || m[n].key < target) && target <= m[m[n].next].key
  }

  lemma PredUnique(m: Memory, row: set<Node>, head: Node, tail: Node, a: Node, b: Node, target: nat)
    requires RowOk(m, row, head, tail)
    requires IsPred(m, row, head, tail, a, target) && IsPred(m, row, head, tail, b, target)
    ensures a == b
  {
  }

  /** A scan of one level from `n`. */
  ghost function Scan(m: Memory, row: set<Node>, head: Node, tail: Node, n: Node, target: nat): (r: Node)
    requires RowOk(m, row, head, tail) && target <= LAST_KEY && n in row && n != tail
             && (n == head || m[n].key < target)
    ensures IsPred(m, row, head, tail, r, target)
    decreases LAST_KEY - m[n].key
  {
    if m[m[n].next].key < target then Scan(m, row, head, tail, m[n].next, target) else n
  }

  /** The key is present exactly when it is the one right after the predecessor. */
  lemma PresentAfterPred(m: Memory, row: set<Node>, head: Node, tail: Node, n: Node, target: nat)
    requires RowOk(m, row, head, tail) && IsPred(m, row, head, tail, n, target) && INIT_KEY < target
    ensures target < LAST_KEY ==> (target in Keys(m, row) <==> m[m[n].next].key == target)
    ensures forall b | b in row && m[b].key == target :: b == m[n].next
  {
  }

  // ------------------------------------------------------------------ insertion

  /** A new node `x` on top of `d`, linked in after `base`. */
  function Inserted(m: Memory, base: Node, x: Node, d: Option<Node>, target: nat): Memory
    requires base in m && (d.Some? ==> d.value in m)
  {
    var m1 := if d.Some? then m[d.value := m[d.value].(up := Some(x))] else m;
    var m2 := m1[x := Rec(m[base].next, d, None, target)];
    m2[base := m2[base].(next := x)]
  }

  ghost predicate SameOrder(m: Memory, n: Memory, row: set<Node>) {
    forall a | a in row :: a in m && a in n && m[a].next == n[a].next && m[a].key == n[a].key
  }

  lemma SameRow(m: Memory, n: Memory, row: set<Node>, head: Node, tail: Node)
    requires RowOk(m, row, head, tail) && SameOrder(m, n, row)
    ensures RowOk(n, row, head, tail)
  {
  }

  lemma InsertedRow(m: Memory, n: Memory, row: set<Node>, head: Node, tail: Node, base: Node, x: Node,
                    d: Option<Node>, target: nat)
    requires RowOk(m, row, head, tail) && IsPred(m, row, head, tail, base, target)
    requires INIT_KEY < target < m[m[base].next].key && Grown(m, n, base, x, d, target)
    ensures RowOk(n, row + {x}, head, tail)
  {
    InsertedOrder(m, n, row, head, tail, base, x);
  }

  /** All that `n` changes: a new node, one `next` and at most one `up`. */
  ghost predicate Grown(m: Memory, n: Memory, base: Node, x: Node, d: Option<Node>, target: nat) {
    && base in m && x !in m && x in n && n[x] == Rec(m[base].next, d, None, target)
    && (forall a | a in m :: a in n && GrownAt(m[a], n[a], a == base, d == Some(a), x))
  }

  ghost predicate GrownAt(r: Rec, s: Rec, isBase: bool, isBelow: bool, x: Node) {
    && s.key == r.key && s.down == r.down
    && s.next == (if isBase then x else r.next)
    && s.up == (if isBelow then Some(x) else r.up)
  }

  lemma InsertedGrown(m: Memory, base: Node, x: Node, d: Option<Node>, target: nat)
    requires base in m && x !in m && (d.Some? ==> d.value in m)
    ensures Grown(m, Inserted(m, base, x, d, target), base, x, d, target)
  {
  }

  lemma InsertedOrder(m: Memory, n: Memory, row: set<Node>, head: Node, tail: Node, base: Node, x: Node)
    requires RowOk(m, row, head, tail) && InMemory(n, row + {x}) && Between(m, n, row, tail, base, x)
    ensures RowOk(n, row + {x}, head, tail)
  {
    InsertedNext(m, n, row, tail, base, x);
    InsertedDiffer(m, n, row, tail, base, x);
  }

  ghost predicate Between(m: Memory, n: Memory, row: set<Node>, tail: Node, base: Node, x: Node)
    requires InMemory(m, row) && InMemory(n, row + {x})
  {
    && (forall a | a in row :: n[a].key == m[a].key)
    && (forall a | a in row :: n[a].next == if a == base then x else m[a].next)
    && base in row && base != tail && x !in row && m[base].next in row
    && n[x].next == m[base].next && m[base].key < n[x].key < m[m[base].next].key
  }

  lemma InsertedDiffer(m: Memory, n: Memory, row: set<Node>, tail: Node, base: Node, x: Node)
    requires InMemory(m, row) && InMemory(n, row + {x}) && Between(m, n, row, tail, base, x)
    requires Ascending(m, row, tail) && NoneSkipped(m, row, tail) && KeysDiffer(m, row)
    ensures KeysDiffer(n, row + {x})
  {
    forall a | a in row
      ensures n[a].key != n[x].key
    {
      if m[base].key < m[a].key { assert m[m[base].next].key <= m[a].key; }
    }
  }

  lemma InsertedNext(m: Memory, n: Memory, row: set<Node>, tail: Node, base: Node, x: Node)
    requires InMemory(m, row) && InMemory(n, row + {x}) && Between(m, n, row, tail, base, x) && tail in row
    requires Ascending(m, row, tail) && NoneSkipped(m, row, tail) && KeysDiffer(m, row)
    ensures Ascending(n, row + {x}, tail) && NoneSkipped(n, row + {x}, tail)
  {
    assert Ascending(n, row + {x}, tail);
    forall a, b | a in row + {x} && b in row + {x} && a != tail && n[a].key < n[b].key
      ensures n[n[a].next].key <= n[b].key
    {
      InsertedPair(m, n, row, tail, base, x, a, b);
    }
  }

  lemma InsertedPair(m: Memory, n: Memory, row: set<Node>, tail: Node, base: Node, x: Node, a: Node, b: Node)
    requires InMemory(m, row) && InMemory(n, row + {x}) && Between(m, n, row, tail, base, x)
    requires Ascending(m, row, tail) && NoneSkipped(m, row, tail) && KeysDiffer(m, row) && Ascending(n, row + {x}, tail)
    requires a in row + {x} && b in row + {x} && a != tail && n[a].key < n[b].key
    ensures n[n[a].next].key <= n[b].key
  {
    if a == x {
      assert m[base].key < m[b].key;
    } else if b == x && a != base {
      assert m[a].key < m[base].key;
    } else if a != base {
      assert m[m[a].next].key <= m[b].key;
    }
  }

  lemma InsertedKeys(m: Memory, n: Memory, row: set<Node>, base: Node, x: Node, d: Option<Node>, target: nat)
    requires (forall a | a in row :: a in m) && Grown(m, n, base, x, d, target) && INIT_KEY < target < LAST_KEY
    ensures Keys(n, row + {x}) == Keys(m, row) + {target}
  {
    forall k | k in Keys(m, row) + {target}
      ensures k in Keys(n, row + {x})
    {
      if k in Keys(m, row) {
        var a :| a in row && a in m && m[a].key == k;
        assert a in row + {x} && n[a].key == k;
      } else {
        assert x in row + {x} && n[x].key == k;
      }
    }
  }

  /** What a new top node of a tower needs below it. */
  ghost predicate Support(m: Memory, rows: Rows, j: nat, d: Option<Node>, target: nat)
    requires j < |rows|
  {
    if j == |rows| - 1 then d == None
    else d.Some? && d.value in rows[j + 1] && d.value in m && m[d.value].key == target && m[d.value].up == None
  }

  lemma InsertedRows(m: Memory, n: Memory, rows: Rows, heads: seq<Node>, tails: seq<Node>, j: nat, base: Node,
                     x: Node, d: Option<Node>, target: nat)
    requires RowsOk(m, rows, heads, tails) && j < |rows| && IsPred(m, rows[j], heads[j], tails[j], base, target)
    requires INIT_KEY < target < m[m[base].next].key && Grown(m, n, base, x, d, target)
    ensures RowsOk(n, rows[j := rows[j] + {x}], heads, tails)
  {
    assert RowAt(m, rows, heads, tails, j);
    InsertedRow(m, n, rows[j], heads[j], tails[j], base, x, d, target);
    var new_ := rows[j := rows[j] + {x}];
    forall i | 0 <= i < |rows|
      ensures RowAt(n, new_, heads, tails, i) && x !in rows[i]
    {
      assert RowAt(m, rows, heads, tails, i);
      if i != j {
        assert rows[i] !! rows[j];
        KeptRow(m, n, rows[i], heads[i], tails[i], base, x, d, target);
      }
    }
    StillSeparate(rows, j, x);
  }

  lemma StillSeparate(rows: Rows, j: nat, x: Node)
    requires Separate(rows) && j < |rows| && forall i | 0 <= i < |rows| :: x !in rows[i]
    ensures Separate(rows[j := rows[j] + {x}])
  {
  }

  lemma KeptRow(m: Memory, n: Memory, row: set<Node>, head: Node, tail: Node, base: Node, x: Node, d: Option<Node>,
                target: nat)
    requires RowOk(m, row, head, tail) && Grown(m, n, base, x, d, target) && base !in row
    ensures RowOk(n, row, head, tail)
  {
    SameRow(m, n, row, head, tail);
  }

  lemma InsertedLinks(m: Memory, n: Memory, rows: Rows, j: nat, base: Node, x: Node, d: Option<Node>, target: nat)
    requires LinksOk(m, rows) && j < |rows| && Grown(m, n, base, x, d, target) && Support(m, rows, j, d, target)
             && Separate(rows)
    ensures LinksOk(n, rows[j := rows[j] + {x}])
  {
    var new_ := rows[j := rows[j] + {x}];
    forall i | 0 < i < |rows|
      ensures TowersAt(n, new_, i)
    {
      assert TowersAt(m, rows, i) && rows[i - 1] !! rows[i];
      if i - 1 == j {
        TowerGrows(m, n, rows[i - 1], rows[i], base, x, d.value, target);
      } else {
        assert forall a | a in rows[i] :: d != Some(a);
        TowerKeeps(m, n, rows[i - 1], rows[i], base, x, d, target);
      }
    }
    assert d.Some? ==> rows[0] !! rows[j + 1];
  }

  lemma TowerGrows(m: Memory, n: Memory, upper: set<Node>, lower: set<Node>, base: Node, x: Node, d: Node, target: nat)
    requires TowersOk(m, upper, lower) && Grown(m, n, base, x, Some(d), target)
    requires d in lower && d !in upper && m[d].up == None && m[d].key == target
    ensures TowersOk(n, upper + {x}, lower)
  {
  }

  lemma TowerKeeps(m: Memory, n: Memory, upper: set<Node>, lower: set<Node>, base: Node, x: Node, d: Option<Node>,
                   target: nat)
    requires TowersOk(m, upper, lower) && Grown(m, n, base, x, d, target) && forall a | a in lower :: d != Some(a)
    ensures TowersOk(n, upper, lower) && TowersOk(n, upper, lower + {x})
  {
  }

  // -------------------------------------------------------------------- removal

  function Unlinked(m: Memory, base: Node): Memory
    requires base in m && m[base].next in m
  {
    m[base := m[base].(next := m[m[base].next].next)]
  }

  /** All that `n` changes: `base` leads past the node after it. */
  ghost predicate Skips(m: Memory, n: Memory, base: Node) {
    && base in m && m[base].next in m
    && (forall a | a in m :: a in n && n[a] == m[a].(next := if a == base then m[m[base].next].next else m[a].next))
  }

  lemma UnlinkedRow(m: Memory, n: Memory, row: set<Node>, head: Node, tail: Node, base: Node)
    requires RowOk(m, row, head, tail) && base in row && base != tail && m[base].next != tail && Skips(m, n, base)
    ensures RowOk(n, row - {m[base].next}, head, tail)
  {
    assert SameKeys(m, n, row);
    UnlinkedAscending(m, n, row, tail, base);
    UnlinkedNoneSkipped(m, n, row, tail, base);
  }

  lemma UnlinkedNoneSkipped(m: Memory, n: Memory, row: set<Node>, tail: Node, base: Node)
    requires InMemory(m, row) && Ascending(m, row, tail) && NoneSkipped(m, row, tail) && KeysDiffer(m, row)
    requires base in row && base != tail && m[base].next != tail && Skips(m, n, base) && SameKeys(m, n, row)
    requires Ascending(n, row - {m[base].next}, tail)
    ensures NoneSkipped(n, row - {m[base].next}, tail)
  {
    var t := m[base].next;
    forall a, b | a in row - {t} && b in row - {t} && a != tail && n[a].key < n[b].key
      ensures n[n[a].next].key <= n[b].key
    {
      UnlinkedPair(m, n, row, tail, base, a, b);
    }
  }

  ghost predicate SameKeys(m: Memory, n: Memory, row: set<Node>) {
    forall a | a in row :: a in m && a in n && n[a].key == m[a].key
  }

  lemma UnlinkedAscending(m: Memory, n: Memory, row: set<Node>, tail: Node, base: Node)
    requires InMemory(m, row) && Ascending(m, row, tail) && NoneSkipped(m, row, tail) && KeysDiffer(m, row)
    requires base in row && base != tail && m[base].next != tail && Skips(m, n, base) && SameKeys(m, n, row)
    ensures Ascending(n, row - {m[base].next}, tail)
  {
    var t := m[base].next;
    forall a | a in row - {t} && a != tail
      ensures n[a].next in row - {t} && n[a].key < n[n[a].next].key
    {
      if a != base {
        OneWayIn(m, row, tail, a, base);
      }
    }
  }

  lemma OneWayIn(m: Memory, row: set<Node>, tail: Node, a: Node, b: Node)
    requires InMemory(m, row) && Ascending(m, row, tail) && NoneSkipped(m, row, tail) && KeysDiffer(m, row)
    requires a in row && b in row && a != tail && b != tail && a != b
    ensures m[a].next != m[b].next
  {
    assert m[a].key != m[b].key;
    if m[a].key < m[b].key {
      assert m[m[a].next].key <= m[b].key < m[m[b].next].key;
    } else {
      assert m[m[b].next].key <= m[a].key < m[m[a].next].key;
    }
  }

  lemma UnlinkedPair(m: Memory, n: Memory, row: set<Node>, tail: Node, base: Node, a: Node, b: Node)
    requires InMemory(m, row) && Ascending(m, row, tail) && NoneSkipped(m, row, tail) && KeysDiffer(m, row)
    requires base in row && base != tail && m[base].next != tail && Skips(m, n, base) && SameKeys(m, n, row)
    requires a in row - {m[base].next} && b in row - {m[base].next} && a != tail && n[a].key < n[b].key
    ensures n[a].next in n && n[n[a].next].key <= n[b].key
  {
    var t := m[base].next;
    assert m[m[a].next].key <= m[b].key;
    if a == base {
      assert m[t].key != m[b].key;
      assert m[m[t].next].key <= m[b].key;
    }
  }

  lemma UnlinkedKeys(m: Memory, n: Memory, row: set<Node>, t: Node)
    requires InMemory(m, row) && SameKeys(m, n, row) && t in row && KeysDiffer(m, row)
    ensures Keys(n, row - {t}) == Keys(m, row) - {m[t].key}
  {
    forall k | k in Keys(m, row) && k != m[t].key
      ensures k in Keys(n, row - {t})
    {
      var a :| a in row && a in m && m[a].key == k;
      assert a in row - {t} && n[a].key == k;
    }
  }

  /** The levels from `from` down, each without its node of the tower. */
  ghost function Shrunk(rows: Rows, tower: seq<Node>, from: nat): Rows
    requires |tower| == |rows|
  {
    seq(|rows|, i requires 0 <= i < |rows| => if i >= from then rows[i] - {tower[i]} else rows[i])
  }

  lemma ShrunkStep(rows: Rows, tower: seq<Node>, j: nat)
    requires |tower| == |rows| && j < |rows|
    ensures Shrunk(rows, tower, j) == Shrunk(rows, tower, j + 1)[j := rows[j] - {tower[j]}]
    ensures Shrunk(rows, tower, j + 1)[j] == rows[j] && Shrunk(rows, tower, |rows|) == rows
  {
  }

  lemma UnlinkedRows(m: Memory, n: Memory, rows: Rows, heads: seq<Node>, tails: seq<Node>, j: nat, base: Node)
    requires RowsOk(m, rows, heads, tails) && j < |rows|
    requires base in rows[j] && base != tails[j] && Skips(m, n, base) && m[base].next != tails[j]
    ensures RowsOk(n, rows[j := rows[j] - {m[base].next}], heads, tails)
  {
    var after := rows[j := rows[j] - {m[base].next}];
    assert RowAt(m, rows, heads, tails, j);
    UnlinkedRow(m, n, rows[j], heads[j], tails[j], base);
    forall i | 0 <= i < |rows|
      ensures RowAt(n, after, heads, tails, i) && after[i] <= rows[i]
    {
      assert RowAt(m, rows, heads, tails, i);
      if i != j {
        assert rows[i] !! rows[j];
        SkipsKeeps(m, n, rows[i], heads[i], tails[i], base);
      }
    }
    SmallerSeparate(rows, after);
  }

  lemma SkipsKeeps(m: Memory, n: Memory, row: set<Node>, head: Node, tail: Node, base: Node)
    requires RowOk(m, row, head, tail) && Skips(m, n, base) && base !in row
    ensures RowOk(n, row, head, tail)
  {
    SameRow(m, n, row, head, tail);
  }

  lemma SmallerSeparate(rows: Rows, smaller: Rows)
    requires Separate(rows) && |smaller| == |rows| && forall i | 0 <= i < |rows| :: smaller[i] <= rows[i]
    ensures Separate(smaller)
  {
  }

  ghost predicate TowerNode(m: Memory, rows: Rows, tower: seq<Node>, target: nat, i: nat)
    requires i < |tower| == |rows|
  {
    tower[i] in rows[i] && tower[i] in m && m[tower[i]].key == target
  }

  ghost predicate UpFrom(m: Memory, tower: seq<Node>, i: nat)
    requires 0 < i < |tower|
  {
    tower[i] in m && m[tower[i]].up == Some(tower[i - 1])
  }

  /** The nodes of `target` from the bottom up to level `from`. */
  ghost predicate PartTower(m: Memory, rows: Rows, tower: seq<Node>, target: nat, from: nat) {
    && |tower| == |rows|
    && (forall i | from <= i < |rows| :: TowerNode(m, rows, tower, target, i))
    && (forall i | from < i < |rows| :: UpFrom(m, tower, i))
  }

  /** The whole tower of `target`, which ends at level `from`. */
  ghost predicate IsTower(m: Memory, rows: Rows, tower: seq<Node>, target: nat, from: nat) {
    from < |rows| && PartTower(m, rows, tower, target, from) && tower[from] in m && m[tower[from]].up == None
  }

  lemma ShrunkLinks(m: Memory, rows: Rows, tower: seq<Node>, target: nat, from: nat)
    requires LinksOk(m, rows) && IsTower(m, rows, tower, target, from)
    ensures LinksOk(m, Shrunk(rows, tower, from))
  {
    var after := Shrunk(rows, tower, from);
    forall i | 0 < i < |rows|
      ensures TowersAt(m, after, i)
    {
      assert TowersAt(m, rows, i);
      if i > from {
        assert TowerNode(m, rows, tower, target, i - 1) && TowerNode(m, rows, tower, target, i) && UpFrom(m, tower, i);
        ShrunkTowers(m, rows[i - 1], rows[i], tower[i - 1], tower[i]);
      } else if i == from {
        assert TowerNode(m, rows, tower, target, i);
        assert m[tower[i]].up == None;
      }
    }
  }

  lemma ShrunkTowers(m: Memory, upper: set<Node>, lower: set<Node>, u: Node, d: Node)
    requires TowersOk(m, upper, lower) && u in upper && d in lower && m[d].up == Some(u)
    ensures TowersOk(m, upper - {u}, lower - {d})
  {
  }

  lemma SameLinks(m: Memory, n: Memory, rows: Rows)
    requires LinksOk(m, rows) && forall a | a in m :: a in n && n[a].(next := m[a].next) == m[a]
    ensures LinksOk(n, rows)
  {
    forall i | 0 < i < |rows|
      ensures TowersAt(n, rows, i)
    {
      assert TowersAt(m, rows, i);
      SameTowers(m, n, rows[i - 1], rows[i]);
    }
  }

  lemma SameTowers(m: Memory, n: Memory, upper: set<Node>, lower: set<Node>)
    requires TowersOk(m, upper, lower) && forall a | a in m :: a in n && n[a].(next := m[a].next) == m[a]
    ensures TowersOk(n, upper, lower)
  {
    assert forall a | a in m :: n[a].key == m[a].key && n[a].up == m[a].up && n[a].down == m[a].down;
  }

  /** Every key of a level is on the levels below it. */
  lemma {:induction false} Descends(m: Memory, rows: Rows, heads: seq<Node>, tails: seq<Node>, i: nat,
                                    n: Node) returns (d: Node)
    requires Ok(m, rows, heads, tails) && i < |rows| && n in rows[i]
    ensures n in m && d in rows[|rows| - 1] && d in m && m[d].key == m[n].key
    decreases |rows| - i
  {
    assert RowAt(m, rows, heads, tails, i);
    d := n;
    if i + 1 < |rows| {
      d := DownFrom(m, rows, i, n);
      d := Descends(m, rows, heads, tails, i + 1, d);
    }
  }

  lemma KeysNested(m: Memory, rows: Rows, heads: seq<Node>, tails: seq<Node>, i: nat)
    requires Ok(m, rows, heads, tails) && i < |rows|
    ensures Keys(m, rows[i]) <= Keys(m, rows[|rows| - 1])
  {
    forall k | k in Keys(m, rows[i])
      ensures k in Keys(m, rows[|rows| - 1])
    {
      var n :| n in rows[i] && n in m && m[n].key == k;
      var d := Descends(m, rows, heads, tails, i, n);
    }
  }

  /** Above its tower a key is on no level. */
  lemma {:induction false} NotAbove(m: Memory, rows: Rows, heads: seq<Node>, tails: seq<Node>, tower: seq<Node>,
                                    target: nat, from: nat, i: nat, n: Node)
    requires Ok(m, rows, heads, tails) && IsTower(m, rows, tower, target, from) && i < from && n in rows[i] && n in m
    ensures m[n].key != target
    decreases from - i
  {
    var d := DownFrom(m, rows, i, n);
    if i + 1 < from {
      NotAbove(m, rows, heads, tails, tower, target, from, i + 1, d);
    } else {
      assert RowAt(m, rows, heads, tails, from) && TowerNode(m, rows, tower, target, from);
      OneNodePerKey(m, rows[from], d, tower[from]);
    }
  }

  lemma DownFrom(m: Memory, rows: Rows, i: nat, n: Node) returns (d: Node)
    requires LinksOk(m, rows) && i + 1 < |rows| && n in rows[i] && n in m
    ensures d in rows[i + 1] && d in m && m[d].key == m[n].key && m[d].up == Some(n)
  {
    assert TowersAt(m, rows, i + 1);
    d := m[n].down.value;
  }

  lemma OneNodePerKey(m: Memory, row: set<Node>, a: Node, b: Node)
    requires InMemory(m, row) && KeysDiffer(m, row) && a in row && b in row
    ensures m[a].key == m[b].key ==> a == b
  {
  }
}
