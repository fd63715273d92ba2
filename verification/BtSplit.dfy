/** What a split does to the whole tree and to what is stored in it. */
module BtSplit {
  import opened Basics
  import opened PageSearch
  import opened BtShape

  ghost predicate IsChild(ps: Pages, q: Id, i: nat, p: Id) {
    q in ps && !ps[q].leaf && i < |ps[q].ents| && ps[q].ents[i].val == p
  }

  /** A page hangs in one slot of one page only. */
  lemma OneParent(ps: Pages, ns: Infos, root: Id, q: Id, i: nat, q': Id, i': nat, p: Id)
    requires TreeOk(ps, ns, root) && q in ns && q' in ns && IsChild(ps, q, i, p) && IsChild(ps, q', i', p)
    ensures p in ns && q == q' && i == i'
  {
    assert PageAt(ps, ns, q) && PageAt(ps, ns, q');
    assert ChildOk(ps[q].ents, ns, ns[q], i) && ChildOk(ps[q'].ents, ns, ns[q'], i');
    var k := ps[p].ents[0].key;
    assert InRange(k, ns[p]) by {
      assert PageAt(ps, ns, p) && KeyOk(ps[p].ents, ns[p], 0);
    }
    ChildInside(ps[q], ns, ns[q], i, k);
    ChildInside(ps[q'], ns, ns[q'], i', k);
    if i < i' {
      SlotsApart(ps[q].ents, ns[q], i, i', k);
    } else if i' < i {
      SlotsApart(ps[q].ents, ns[q], i', i, k);
    }
  }

  lemma SlotsApart(es: seq<Entry>, me: Info, i: nat, j: nat, k: Key)
    requires Increasing(es) && i < j < |es| && me.height > 0 && InRange(k, SlotInfo(es, me, j))
    ensures !InRange(k, SlotInfo(es, me, i))
  {
    assert es[i + 1].key <= es[j].key;
  }

  /** The pages after `p` has been replaced by its halves. */
  function SplitPages(ps: Pages, p: Id, x: nat, l: Id, r: Id, smo: nat): Pages
    requires p in ps && x <= |ps[p].ents|
  {
    (ps - {p})[l := Page(ps[p].leaf, ps[p].ents[..x], smo)][r := Page(ps[p].leaf, ps[p].ents[x..], smo)]
  }

  ghost predicate Splittable(ps: Pages, ns: Infos, root: Id, p: Id, x: nat, l: Id, r: Id, lk: Key) {
    && TreeOk(ps, ns, root) && p in ns && p in ps && 0 < x < |ps[p].ents| && FreshPair(ns, l, r)
    && IsLeast(LeftInfo(ns[p], ps[p].ents[x].key), lk)
  }

  lemma SplitKeyInside(ps: Pages, ns: Infos, root: Id, p: Id, x: nat)
    requires TreeOk(ps, ns, root) && p in ns && p in ps && x < |ps[p].ents|
    ensures InRange(ps[p].ents[x].key, ns[p])
  {
    assert PageAt(ps, ns, p) && KeyOk(ps[p].ents, ns[p], x);
  }

  /** Children are one level down, so no page is its own child. */
  lemma ChildHeight(ps: Pages, ns: Infos, root: Id, q: Id, i: nat, p: Id)
    requires TreeOk(ps, ns, root) && q in ns && IsChild(ps, q, i, p)
    ensures p in ns && ns[p].height + 1 == ns[q].height && ns[p] == SlotInfo(ps[q].ents, ns[q], i) && p != root
  {
    assert PageAt(ps, ns, q) && ChildOk(ps[q].ents, ns, ns[q], i);
  }

  /** Every page but the parent of `p` still fits. */
  lemma SplitFits(ps: Pages, ns: Infos, root: Id, p: Id, x: nat, l: Id, r: Id, smo: nat, lk: Key, q: Id)
    requires Splittable(ps, ns, root, p, x, l, r, lk)
    requires var s := ps[p].ents[x].key; q in SplitInfos(ns, p, l, r, s)
    requires q in ns ==> forall i: nat :: !IsChild(ps, q, i, p)
    ensures var s := ps[p].ents[x].key;
            PageAt(SplitPages(ps, p, x, l, r, smo), SplitInfos(ns, p, l, r, s), q)
  {
    var s := ps[p].ents[x].key;
    var page := SplitPages(ps, p, x, l, r, smo)[q];
    assert PageAt(ps, ns, p);
    if q == l {
      LeftOk(ps[p], ns, ns[p], x, smo);
      NoSelf(ps, ns, root, p);
      OtherOk(page, ns, LeftInfo(ns[p], s), p, l, r, s);
    } else if q == r {
      RightOk(ps[p], ns, ns[p], x, smo);
      NoSelf(ps, ns, root, p);
      OtherOk(page, ns, RightInfo(ns[p], s), p, l, r, s);
    } else {
      assert PageAt(ps, ns, q);
      assert !page.leaf ==> forall i | 0 <= i < |page.ents| :: IsChild(ps, q, i, page.ents[i].val);
      OtherOk(page, ns, ns[q], p, l, r, s);
    }
  }

  lemma NoSelf(ps: Pages, ns: Infos, root: Id, p: Id)
    requires TreeOk(ps, ns, root) && p in ns && p in ps
    ensures !ps[p].leaf ==> forall i | 0 <= i < |ps[p].ents| :: ps[p].ents[i].val != p
  {
    forall i | 0 <= i < |ps[p].ents| && !ps[p].leaf
      ensures ps[p].ents[i].val != p
    {
      ChildHeight(ps, ns, root, p, i, ps[p].ents[i].val);
    }
  }

  lemma ParentFits(ps: Pages, ns: Infos, root: Id, p: Id, x: nat, l: Id, r: Id, lk: Key, q: Id, i: nat)
    requires Splittable(ps, ns, root, p, x, l, r, lk) && q in ns && IsChild(ps, q, i, p)
    ensures var s := ps[p].ents[x].key;
            PageOk(ps[q].(ents := SplitEntries(ps[q].ents, i, lk, l, s, r)), SplitInfos(ns, p, l, r, s), ns[q])
  {
    ChildHeight(ps, ns, root, q, i, p);
    SplitKeyInside(ps, ns, root, p, x);
    assert PageAt(ps, ns, q) && ChildOk(ps[q].ents, ns, ns[q], i);
    forall j | 0 <= j < |ps[q].ents| && j != i
      ensures ps[q].ents[j].val != p
    {
      if ps[q].ents[j].val == p { OneParent(ps, ns, root, q, i, q, j, p); }
    }
    ParentOk(ps[q], ns, ns[q], i, p, l, r, lk, ps[p].ents[x].key);
  }

  lemma OthersFit(ps: Pages, ns: Infos, root: Id, p: Id, x: nat, l: Id, r: Id, smo: nat, lk: Key, q: Id, i: nat, a: Id)
    requires Splittable(ps, ns, root, p, x, l, r, lk) && q in ns && IsChild(ps, q, i, p) && a != q
    requires var s := ps[p].ents[x].key; a in SplitInfos(ns, p, l, r, s)
    ensures var s := ps[p].ents[x].key;
            PageAt(SplitPages(ps, p, x, l, r, smo), SplitInfos(ns, p, l, r, s), a)
  {
    forall j: nat | a in ns
      ensures !IsChild(ps, a, j, p)
    {
      if IsChild(ps, a, j, p) { OneParent(ps, ns, root, q, i, a, j, p); }
    }
    SplitFits(ps, ns, root, p, x, l, r, smo, lk, a);
  }

  /** A split below a parent, with both halves hung into it, leaves a tree. */
  lemma SplitBelow(ps: Pages, ns: Infos, root: Id, p: Id, x: nat, l: Id, r: Id, smo: nat, lk: Key, q: Id, i: nat)
    requires Splittable(ps, ns, root, p, x, l, r, lk) && q in ns && IsChild(ps, q, i, p)
    ensures var s := ps[p].ents[x].key;
            var page := ps[q].(ents := SplitEntries(ps[q].ents, i, lk, l, s, r));
            TreeOk(SplitPages(ps, p, x, l, r, smo)[q := page], SplitInfos(ns, p, l, r, s), root)
  {
    var s := ps[p].ents[x].key;
    var page := ps[q].(ents := SplitEntries(ps[q].ents, i, lk, l, s, r));
    var split, after := SplitPages(ps, p, x, l, r, smo), SplitInfos(ns, p, l, r, s);
    ChildHeight(ps, ns, root, q, i, p);
    SplitKeyInside(ps, ns, root, p, x);
    SplitUnique(ns, p, l, r, s);
    ParentFits(ps, ns, root, p, x, l, r, lk, q, i);
    forall a | a in after
      ensures PageAt(split[q := page], after, a)
    {
      if a != q { OthersFit(ps, ns, root, p, x, l, r, smo, lk, q, i, a); }
    }
  }

  /** A split of the root, under a new root with both halves, leaves a tree one level higher. */
  lemma SplitRoot(ps: Pages, ns: Infos, root: Id, x: nat, l: Id, r: Id, n: Id, smo: nat, lk: Key)
    requires Splittable(ps, ns, root, root, x, l, r, lk) && n !in ns && n != l && n != r
    ensures var s := ps[root].ents[x].key;
            TreeOk(SplitPages(ps, root, x, l, r, smo)[n := Page(false, [Entry(lk, l), Entry(s, r)], smo)],
                   SplitInfos(ns, root, l, r, s)[n := Info(ns[root].height + 1, None, None)], n)
  {
    var s := ps[root].ents[x].key;
    var page, me := Page(false, [Entry(lk, l), Entry(s, r)], smo), Info(ns[root].height + 1, None, None);
    var split, halves := SplitPages(ps, root, x, l, r, smo), SplitInfos(ns, root, l, r, s);
    var after := halves[n := me];
    SplitKeyInside(ps, ns, root, root, x);
    SplitUnique(ns, root, l, r, s);
    UniqueTop(halves, n, me);
    NewRootOk(page, after, me);
    forall a | a in halves
      ensures PageAt(split[n := page], after, a)
    {
      RootSplitFits(ps, ns, root, x, l, r, smo, lk, a);
      MoreInfos(split[a], halves, halves[a], n, me);
    }
  }

  lemma RootSplitFits(ps: Pages, ns: Infos, root: Id, x: nat, l: Id, r: Id, smo: nat, lk: Key, a: Id)
    requires Splittable(ps, ns, root, root, x, l, r, lk)
    requires var s := ps[root].ents[x].key; a in SplitInfos(ns, root, l, r, s)
    ensures var s := ps[root].ents[x].key;
            PageAt(SplitPages(ps, root, x, l, r, smo), SplitInfos(ns, root, l, r, s), a)
  {
    forall j: nat | a in ns
      ensures !IsChild(ps, a, j, root)
    {
      if IsChild(ps, a, j, root) { ChildHeight(ps, ns, root, a, j, root); }
    }
    SplitFits(ps, ns, root, root, x, l, r, smo, lk, a);
  }

  lemma UniqueTop(ns: Infos, n: Id, me: Info)
    requires Unique(ns) && n !in ns && forall p | p in ns :: ns[p].height < me.height
    ensures Unique(ns[n := me])
  {
    var more := ns[n := me];
    forall p, q, k | p in more && q in more && more[p].height == more[q].height && InRange(k, more[p])
      && InRange(k, more[q])
      ensures p == q
    {
      if p in ns && q in ns { assert InRange(k, ns[p]) && InRange(k, ns[q]); }
    }
  }

  lemma NewRootOk(page: Page, ns: Infos, me: Info)
    requires |page.ents| == 2 && page.ents[0].key < page.ents[1].key && !page.leaf && me.height > 0
             && me.lo == me.hi == None
    requires ChildOk(page.ents, ns, me, 0) && ChildOk(page.ents, ns, me, 1)
    ensures PageOk(page, ns, me)
  {
  }

  lemma MoreInfos(page: Page, ns: Infos, me: Info, n: Id, new_: Info)
    requires PageOk(page, ns, me) && n !in ns
    ensures PageOk(page, ns[n := new_], me)
  {
    var more := ns[n := new_];
    forall i | 0 <= i < |page.ents| && !page.leaf
      ensures ChildOk(page.ents, more, me, i)
    {
      assert ChildOk(page.ents, ns, me, i);
    }
  }

  // -------------------------------------------------------------------- contents

  ghost predicate LeafIn(page: Page, m: map<Key, Id>) {
    forall e | e in page.ents :: e.key in m && m[e.key] == e.val
  }

  ghost predicate HeldAt(ps: Pages, ns: Infos, p: Id, e: Entry) {
    p in ns && p in ps && ps[p].leaf && e in ps[p].ents
  }

  ghost predicate Held(ps: Pages, ns: Infos, e: Entry) {
    exists p :: HeldAt(ps, ns, p, e)
  }

  /** The leaves hold exactly the bindings of `m`. */
  ghost predicate ContentsOk(ps: Pages, ns: Infos, m: map<Key, Id>) {
    && (forall p | p in ns && p in ps && ps[p].leaf :: LeafIn(ps[p], m))
    && (forall k | k in m :: Held(ps, ns, Entry(k, m[k])))
  }

  /** A split moves bindings between leaves and loses none. */
  lemma SplitContents(ps: Pages, ns: Infos, p: Id, x: nat, l: Id, r: Id, smo: nat, s: Key, m: map<Key, Id>)
    requires ContentsOk(ps, ns, m) && p in ns && p in ps && x <= |ps[p].ents| && FreshPair(ns, l, r)
    ensures ContentsOk(SplitPages(ps, p, x, l, r, smo), SplitInfos(ns, p, l, r, s), m)
  {
    var split, after, es := SplitPages(ps, p, x, l, r, smo), SplitInfos(ns, p, l, r, s), ps[p].ents;
    assert es == es[..x] + es[x..];
    forall k | k in m
      ensures Held(split, after, Entry(k, m[k]))
    {
      var e := Entry(k, m[k]);
      var q :| HeldAt(ps, ns, q, e);
      assert HeldAt(split, after, q, e) || HeldAt(split, after, l, e) || HeldAt(split, after, r, e);
    }
  }

  /** Inner pages hold no bindings. */
  lemma InnerContents(ps: Pages, ns: Infos, m: map<Key, Id>, q: Id, page: Page, ns': Infos)
    requires ContentsOk(ps, ns, m) && !page.leaf && (q in ps ==> !ps[q].leaf)
    requires ns'.Keys == ns.Keys || (ns'.Keys == ns.Keys + {q} && q !in ns)
    ensures ContentsOk(ps[q := page], ns', m)
  {
    forall k | k in m
      ensures Held(ps[q := page], ns', Entry(k, m[k]))
    {
      var e := Entry(k, m[k]);
      var p :| HeldAt(ps, ns, p, e);
      assert HeldAt(ps[q := page], ns', p, e);
    }
  }
}
