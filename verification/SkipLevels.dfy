/** The heights that `ywSkipList::get_new_level` hands out. */
module SkipLevels {
  const WORD: nat := 0x1_0000_0000_0000_0000

  function Pow8(i: nat): (p: nat)
    ensures p >= 1
  {
    if i == 0 then 1 else 8 * Pow8(i - 1)
  }

  /** The low `3 * i` bits of `s` are all set. */
  predicate AllSet(s: nat, i: nat) {
    s % Pow8(i) == Pow8(i) - 1
  }

  /** The greatest height whose mask is covered by `s`. */
  function NewLevel(s: nat, i: nat): (h: nat)
    ensures 1 <= h <= i + 1
  {
    if i == 0 then 1 else if AllSet(s, i) then i + 1 else NewLevel(s, i - 1)
  }

  /** The counter value seen by the `n`-th call on a new list. */
  function SeqAt(n: nat): nat {
    n % WORD
  }

  /** How many of the first `n` calls on a list of `levels` levels asked for more than `i` nodes. */
  ghost function Above(n: nat, levels: nat, i: nat): nat
    requires levels > 0
  {
    if n == 0 then 0 else Above(n - 1, levels, i) + if NewLevel(SeqAt(n), levels - 1) > i then 1 else 0
  }

  ghost function Total(n: nat, levels: nat): nat
    requires levels > 0
  {
    if n == 0 then 0 else Total(n - 1, levels) + NewLevel(SeqAt(n), levels - 1)
  }

  ghost function Quotient(a: nat, p: nat): (q: int)
    requires p > 0
    ensures q >= 0
  {
    a / p
  }

  lemma DivMod(a: nat, p: nat)
    requires p > 0
    ensures a == p * Quotient(a, p) + a % p && a % p < p
  {
  }

  lemma {:induction false} Multiples(p: nat, x: int, y: int)
    ensures x < y ==> p * x + p <= p * y
    decreases y - x
  {
    if x < y {
      assert p * y == p * (y - 1) + p;
      Multiples(p, x, y - 1);
    }
  }

  lemma ModUnique(a: nat, p: nat, q: int, r: nat)
    requires p > 0 && a == p * q + r && r < p
    ensures Quotient(a, p) == q && a % p == r
  {
    DivMod(a, p);
    Multiples(p, q, Quotient(a, p));
    Multiples(p, Quotient(a, p), q);
  }

  /** A mask that is covered covers the smaller masks. */
  lemma {:induction false} AllSetBelow(s: nat, i: nat, j: nat)
    requires AllSet(s, i) && j <= i
    ensures AllSet(s, j)
    decreases i
  {
    if j < i {
      var p := Pow8(i - 1);
      DivMod(s, 8 * p);
      var q := Quotient(s, 8 * p);
      assert 8 * p * q == p * (8 * q);
      ModUnique(s, p, 8 * q + 7, p - 1);
      AllSetBelow(s, i - 1, j);
    }
  }

  lemma {:induction false} NewLevelAbove(s: nat, top: nat, i: nat)
    requires 0 < i <= top
    ensures NewLevel(s, top) > i <==> AllSet(s, i)
  {
    if AllSet(s, top) {
      AllSetBelow(s, top, i);
    } else if top > i {
      NewLevelAbove(s, top - 1, i);
    }
  }

  lemma {:induction false} Pow8Divides(i: nat)
    requires i <= 21
    ensures exists c: nat :: WORD == Pow8(i) * c
    decreases 21 - i
  {
    if i == 21 {
      assert Pow8(7) == 0x20_0000;
      Pow8Sum(7, 7);
      Pow8Sum(14, 7);
      assert WORD == Pow8(i) * 2;
    } else {
      Pow8Divides(i + 1);
      var c: nat :| WORD == Pow8(i + 1) * c;
      assert WORD == Pow8(i) * (8 * c);
    }
  }

  lemma {:induction false} Pow8Sum(a: nat, b: nat)
    ensures Pow8(a + b) == Pow8(a) * Pow8(b)
  {
    if a > 0 {
      Pow8Sum(a - 1, b);
      assert Pow8(a + b) == 8 * (Pow8(a - 1) * Pow8(b));
    }
  }

  /** Wrapping the counter does not change its low bits. */
  lemma WrapKeepsLowBits(n: nat, i: nat)
    requires i <= 21
    ensures AllSet(SeqAt(n), i) <==> (n + 1) % Pow8(i) == 0
  {
    var p := Pow8(i);
    Pow8Divides(i);
    var c: nat :| WORD == p * c;
    DivMod(n, WORD);
    var w, q, r := Quotient(n, WORD), Quotient(SeqAt(n), p), SeqAt(n) % p;
    DivMod(SeqAt(n), p);
    Regroup(p, c, w, q);
    NextMod(n, p, c * w + q, r);
  }

  lemma Regroup(p: nat, c: nat, w: int, q: int)
    ensures (p * c) * w + p * q == p * (c * w + q)
  {
  }

  lemma NextMod(n: nat, p: nat, q: int, r: nat)
    requires p > 0 && n == p * q + r && r < p
    ensures (n + 1) % p == 0 <==> r == p - 1
    ensures Quotient(n + 1, p) == q + if r == p - 1 then 1 else 0
  {
    if r == p - 1 {
      assert n + 1 == p * (q + 1) + 0;
      ModUnique(n + 1, p, q + 1, 0);
    } else {
      ModUnique(n + 1, p, q, r + 1);
    }
  }

  /** Exactly one call in `8^i`, counting from the second, asks for more than `i` nodes. */
  lemma {:induction false} AboveExactly(n: nat, levels: nat, i: nat)
    requires 0 < i < levels <= 22
    ensures Above(n, levels, i) == Quotient(n + 1, Pow8(i))
  {
    assert Pow8(i) > 1;
    if n == 0 {
      ModUnique(1, Pow8(i), 0, 1);
    } else {
      AboveExactly(n - 1, levels, i);
      NewLevelAbove(SeqAt(n), levels - 1, i);
      WrapKeepsLowBits(n, i);
      DivMod(n, Pow8(i));
      NextMod(n, Pow8(i), Quotient(n, Pow8(i)), n % Pow8(i));
    }
  }

  /** The sum of `m / 8^i` for `i` from 1 to `k`. */
  ghost function Shares(m: nat, k: nat): nat {
    if k == 0 then 0 else Shares(m, k - 1) + Quotient(m, Pow8(k))
  }

  lemma {:induction false} SharesBound(m: nat, k: nat)
    ensures 7 * Shares(m, k) + Quotient(m, Pow8(k)) <= m
  {
    if k == 0 {
      ModUnique(m, 1, m, 0);
    } else {
      SharesBound(m, k - 1);
      EighthOf(m, Pow8(k - 1));
    }
  }

  lemma EighthOf(m: nat, p: nat)
    requires p > 0
    ensures 8 * Quotient(m, 8 * p) <= Quotient(m, p)
  {
    var q := Quotient(m, 8 * p);
    DivMod(m, 8 * p);
    DivMod(m, p);
    assert (8 * p) * q == p * (8 * q);
    Multiples(p, Quotient(m, p), 8 * q);
  }

  /** How many of the first `n` calls asked for more than each of 1 to `k` nodes, summed. */
  ghost function AboveUpTo(n: nat, levels: nat, k: nat): nat
    requires levels > 0
  {
    if k == 0 then 0 else AboveUpTo(n, levels, k - 1) + Above(n, levels, k)
  }

  ghost function Clip(h: nat, k: nat): nat {
    if h > k then k else if h == 0 then 0 else h - 1
  }

  lemma {:induction false} AboveUpToStep(n: nat, levels: nat, k: nat)
    requires n > 0 && levels > 0
    ensures AboveUpTo(n, levels, k) == AboveUpTo(n - 1, levels, k) + Clip(NewLevel(SeqAt(n), levels - 1), k)
  {
    if k > 0 {
      AboveUpToStep(n, levels, k - 1);
    }
  }

  lemma {:induction false} AboveUpToNone(levels: nat, k: nat)
    requires levels > 0
    ensures AboveUpTo(0, levels, k) == 0
  {
    if k > 0 {
      AboveUpToNone(levels, k - 1);
    }
  }

  lemma {:induction false} TotalByLevel(n: nat, levels: nat)
    requires levels > 0
    ensures Total(n, levels) == n + AboveUpTo(n, levels, levels - 1)
  {
    if n == 0 {
      AboveUpToNone(levels, levels - 1);
    } else {
      TotalByLevel(n - 1, levels);
      AboveUpToStep(n, levels, levels - 1);
    }
  }

  lemma {:induction false} AboveShares(n: nat, levels: nat, k: nat)
    requires k < levels <= 22
    ensures AboveUpTo(n, levels, k) == Shares(n + 1, k)
  {
    if k > 0 {
      AboveShares(n, levels, k - 1);
      AboveExactly(n, levels, k);
    }
  }

  /** `n` calls ask for at most `n + (n + 1) / 7` nodes in all. */
  lemma TotalBound(n: nat, levels: nat)
    requires 0 < levels <= 22
    ensures Total(n, levels) <= n + (n + 1) / 7
  {
    TotalByLevel(n, levels);
    AboveShares(n, levels, levels - 1);
    SharesBound(n + 1, levels - 1);
    DivMod(n + 1, 7);
  }
}
