/**
 `remove(LAST_KEY)`.  It is not turned away: it finds the tails and unlinks them,
 level by level from the bottom.
 */
module SkipLast {
  import opened Basics
  import opened SkipRows

  /** In `row`, all that `n` changes is that `base` leads past the node after it. */
  ghost predicate SkipsIn(m: Memory, n: Memory, row: set<Node>, base: Node) {
    && base in m && m[base].next in m
    && (forall a | a in row :: a in m && a in n && n[a].key == m[a].key)
    && (forall a | a in row :: n[a].next == if a == base then m[m[base].next].next else m[a].next)
  }

  lemma {:induction false} AllReached(m: Memory, n: Memory, row: set<Node>, head: Node, tail: Node, base: Node,
                                      s: set<Node>, a: Node)
    requires RowOk(m, row, head, tail) && base in row && base != tail && m[base].next == tail
    requires SkipsIn(m, n, row, base) && RowOk(n, s, head, tail) && a in row && a != tail
    ensures a in s
    decreases m[a].key
  {
    if a != head {
      var p := Scan(m, row, head, tail, head, m[a].key);
      Before(m, row, head, tail, p, a);
      AllReached(m, n, row, head, tail, base, s, p);
      assert n[p].next == a;
    }
  }

  lemma Before(m: Memory, row: set<Node>, head: Node, tail: Node, p: Node, a: Node)
    requires RowOk(m, row, head, tail) && a in row && a != tail && a != head && IsPred(m, row, head, tail, p, m[a].key)
    ensures p in row && p != tail && m[p].next == a && m[p].key < m[a].key
  {
    assert m[head].key != m[a].key;
  }

  lemma LastBase(m: Memory, row: set<Node>, head: Node, tail: Node, base: Node)
    requires RowOk(m, row, head, tail) && IsPred(m, row, head, tail, base, LAST_KEY)
    ensures m[base].next == tail
  {
  }

  /** Once the tail is unlinked, no set of nodes is a level between the head and the tail any more. */
  lemma RemoveLastBreaks(m: Memory, n: Memory, row: set<Node>, head: Node, tail: Node, base: Node, s: set<Node>)
    requires RowOk(m, row, head, tail) && IsPred(m, row, head, tail, base, LAST_KEY) && SkipsIn(m, n, row, base)
    ensures !RowOk(n, s, head, tail)
  {
    LastBase(m, row, head, tail, base);
    assert n[base].next == head;
    if RowOk(n, s, head, tail) {
      AllReached(m, n, row, head, tail, base, s, base);
    }
  }

  /** `base[i]` and the node after it are on level `i`. */
  ghost predicate OnLevel(m: Memory, rows: Rows, bases: seq<Node>, i: nat)
    requires i < |rows| == |bases|
  {
    bases[i] in rows[i] && bases[i] in m && m[bases[i]].next in rows[i] && m[bases[i]].next in m
  }

  /** The levels above `j` are as they were, and on the bottom one the base leads past its next node. */
  ghost predicate Untied(m: Memory, n: Memory, rows: Rows, bases: seq<Node>, j: nat) {
    && |bases| == |rows| > 0 && j <= |rows| && n.Keys == m.Keys
    && (forall i | 0 <= i < |rows| :: OnLevel(m, rows, bases, i))
    && (forall i | 0 <= i < j :: SameOrder(m, n, rows[i]))
    && (j < |rows| ==> SkipsIn(m, n, rows[|rows| - 1], bases[|rows| - 1]))
  }

  lemma UntieStep(m: Memory, n: Memory, rows: Rows, bases: seq<Node>, j: nat)
    requires Untied(m, n, rows, bases, j + 1) && Separate(rows)
    ensures bases[j] in n && n[bases[j]].next in n
    ensures Untied(m, Unlinked(n, bases[j]), rows, bases, j)
  {
    var b := |rows| - 1;
    assert OnLevel(m, rows, bases, j) && SameOrder(m, n, rows[j]);
    var o := Unlinked(n, bases[j]);
    forall i | 0 <= i < j
      ensures SameOrder(m, o, rows[i])
    {
      assert SameOrder(m, n, rows[i]) && rows[i] !! rows[j];
    }
    if j < b {
      assert rows[j] !! rows[b];
    }
  }

  /** After the bottom tail is unlinked, whatever happened above, no set of levels makes the list well formed. */
  lemma NoLevelsLeft(m: Memory, n: Memory, rows: Rows, heads: seq<Node>, tails: seq<Node>, bases: seq<Node>, j: nat,
                     after: Rows)
    requires Ok(m, rows, heads, tails) && Untied(m, n, rows, bases, j) && j < |rows|
    requires IsPred(m, rows[|rows| - 1], heads[|rows| - 1], tails[|rows| - 1], bases[|rows| - 1], LAST_KEY)
    ensures !Ok(n, after, heads, tails)
  {
    var b := |rows| - 1;
    assert RowAt(m, rows, heads, tails, b);
    if Ok(n, after, heads, tails) {
      assert RowAt(n, after, heads, tails, b);
      RemoveLastBreaks(m, n, rows[b], heads[b], tails[b], bases[b], after[b]);
    }
  }
}
