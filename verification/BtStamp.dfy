/**
 `find_leaf` with the width of its numbers: the structure sequence is a 32-bit word,
 and a page keeps the value it had when the page was made.
 */
module BtStamps {
  import opened Basics
  import opened PageSearch
  import opened BtShape
  import opened BTrees

  const SEQ_WORD: nat := 0x1_0000_0000

  /** The test of a page's stamp against the sequence, both as stored. */
  predicate Passes(page: Page, smo: nat) { page.smo % SEQ_WORD < smo % SEQ_WORD }

  /** One round of the loop, for a lone thread: the sequence it reads again has not changed. */
  function Round(ps: Pages, root: Id, smo: nat, k: Key, p: Id): Id {
    if p !in ps || ps[p].leaf || ps[p].ents == [] then p
    else if Passes(ps[p], smo) then ps[p].ents[SlotOf(ps[p].ents, k)].val
    else root
  }

  /** Where the loop is after `n` rounds. */
  function After(ps: Pages, root: Id, smo: nat, k: Key, n: nat): Id {
    if n == 0 then root else Round(ps, root, smo, k, After(ps, root, smo, k, n - 1))
  }

  /** Every inner page on the way of `k` from `p` down passes the test. */
  ghost predicate AllPass(ps: Pages, ns: Infos, smo: nat, k: Key, p: Id)
    requires p in ns
    decreases ns[p].height
  {
    && p in ps
    && (ps[p].leaf || (ps[p].ents != [] && Passes(ps[p], smo)
                       && var c := ps[p].ents[SlotOf(ps[p].ents, k)].val;
                       c in ns && ns[c].height < ns[p].height && AllPass(ps, ns, smo, k, c)))
  }

  ghost predicate IsLeafAfter(ps: Pages, root: Id, smo: nat, k: Key, n: nat) {
    After(ps, root, smo, k, n) in ps && ps[After(ps, root, smo, k, n)].leaf
  }

  /** Pages that all pass lead to a leaf. */
  lemma {:induction false} ReachLeaf(ps: Pages, ns: Infos, root: Id, smo: nat, k: Key, n: nat) returns (m: nat)
    requires TreeOk(ps, ns, root)
    requires After(ps, root, smo, k, n) in ns && AllPass(ps, ns, smo, k, After(ps, root, smo, k, n))
    ensures IsLeafAfter(ps, root, smo, k, m)
    decreases ns[After(ps, root, smo, k, n)].height
  {
    var p := After(ps, root, smo, k, n);
    if ps[p].leaf {
      m := n;
    } else {
      assert After(ps, root, smo, k, n + 1) == ps[p].ents[SlotOf(ps[p].ents, k)].val;
      m := ReachLeaf(ps, ns, root, smo, k, n + 1);
    }
  }

  /** One that does not pass keeps the loop above it forever. */
  lemma {:induction false} NeverLeaf(ps: Pages, ns: Infos, root: Id, smo: nat, k: Key, n: nat)
    requires TreeOk(ps, ns, root) && !AllPass(ps, ns, smo, k, root)
    ensures var p := After(ps, root, smo, k, n); p in ns && InRange(k, ns[p]) && !AllPass(ps, ns, smo, k, p)
  {
    if n > 0 {
      NeverLeaf(ps, ns, root, smo, k, n - 1);
      var p := After(ps, root, smo, k, n - 1);
      assert PageAt(ps, ns, p);
      if !ps[p].leaf {
        Routed(ps[p], ns, ns[p], k);
      }
    }
  }

  /** Each time it fails the loop starts over from the root. */
  lemma {:induction false} BackToRoot(ps: Pages, ns: Infos, root: Id, smo: nat, k: Key, n: nat) returns (m: nat)
    requires TreeOk(ps, ns, root) && !AllPass(ps, ns, smo, k, root) && After(ps, root, smo, k, n) in ns
    ensures m > n && After(ps, root, smo, k, m) == root
    decreases ns[After(ps, root, smo, k, n)].height
  {
    NeverLeaf(ps, ns, root, smo, k, n);
    var p := After(ps, root, smo, k, n);
    assert PageAt(ps, ns, p);
    if Passes(ps[p], smo) {
      Routed(ps[p], ns, ns[p], k);
      m := BackToRoot(ps, ns, root, smo, k, n + 1);
    } else {
      m := n + 1;
    }
  }

  /** `find_leaf` returns if and only if every inner page on the key's way passes the test. */
  lemma ReturnsIff(ps: Pages, ns: Infos, root: Id, smo: nat, k: Key)
    requires TreeOk(ps, ns, root)
    ensures (exists n :: IsLeafAfter(ps, root, smo, k, n)) <==> AllPass(ps, ns, smo, k, root)
  {
    if AllPass(ps, ns, smo, k, root) {
      var n := ReachLeaf(ps, ns, root, smo, k, 0);
    } else {
      forall n
        ensures !IsLeafAfter(ps, root, smo, k, n)
      {
        NeverLeaf(ps, ns, root, smo, k, n);
      }
    }
  }

  lemma SmallWord(a: nat)
    requires a < SEQ_WORD
    ensures a % SEQ_WORD == a
  {
  }

  lemma {:induction false} StampsPass(ps: Pages, ns: Infos, smo: nat, k: Key, p: Id)
    requires p in ns && InRange(k, ns[p]) && forall q | q in ns :: PageAt(ps, ns, q)
    requires Stamped(ps, ns, smo) && smo < SEQ_WORD
    ensures AllPass(ps, ns, smo, k, p)
    decreases ns[p].height
  {
    assert PageAt(ps, ns, p);
    if !ps[p].leaf {
      Routed(ps[p], ns, ns[p], k);
      SmallWord(ps[p].smo);
      SmallWord(smo);
      StampsPass(ps, ns, smo, k, ps[p].ents[SlotOf(ps[p].ents, k)].val);
    }
  }

  /** Until the sequence wraps, every lookup returns. */
  lemma ReturnsBeforeWrap(ps: Pages, ns: Infos, root: Id, smo: nat, k: Key)
    requires TreeOk(ps, ns, root) && Stamped(ps, ns, smo) && smo < SEQ_WORD
    ensures exists n :: IsLeafAfter(ps, root, smo, k, n)
  {
    StampsPass(ps, ns, smo, k, root);
    ReturnsIff(ps, ns, root, smo, k);
  }

  /** Right after it has wrapped, no lookup returns unless the root is a leaf. */
  lemma StuckAtWrap(ps: Pages, ns: Infos, root: Id, k: Key)
    requires TreeOk(ps, ns, root)
    ensures (exists n :: IsLeafAfter(ps, root, SEQ_WORD, k, n)) <==> ps[root].leaf
  {
    assert PageAt(ps, ns, root);
    ReturnsIff(ps, ns, root, SEQ_WORD, k);
  }
}
