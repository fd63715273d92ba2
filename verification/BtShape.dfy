/**
 The pages of `ywBTree` as values.  Every live page has a key interval and a
 height; the intervals of the pages at one height do not overlap, and the entries
 of an inner page cut its interval into those of its children.
 */
module BtShape {
  import opened Basics
  import opened PageSearch

  type Id = int

  /** In a leaf `val` is the stored value, in an inner page it is a child. */
  datatype Entry = Entry(key: Key, val: Id)

  datatype Page = Page(leaf: bool, ents: seq<Entry>, smo: nat)

  /** The keys from `lo` up to but not including `hi`; `None` is no bound. */
  datatype Info = Info(height: nat, lo: Option<Key>, hi: Option<Key>)

  type Pages = map<Id, Page>
  type Infos = map<Id, Info>

  predicate InRange(k: Key, n: Info) {
    (n.lo.Some? ==> n.lo.value <= k) && (n.hi.Some? ==> k < n.hi.value)
  }

  function KeysOf(es: seq<Entry>): (ks: seq<Key>)
    ensures |ks| == |es|
  {
    seq(|es|, i requires 0 <= i < |es| => es[i].key)
  }

  ghost predicate Increasing(es: seq<Entry>) {
    forall i, j {:trigger es[i], es[j]} | 0 <= i < j < |es| :: es[i].key < es[j].key
  }

  /** The slot a search for `k` follows: the last one not above `k`, or the first. */
  function SlotOf(es: seq<Entry>, k: Key): (s: nat)
    requires es != []
    ensures s < |es|
  {
    var r := Search(KeysOf(es), k);
    if r < 0 then 0 else r
  }

  /** The interval of the child in slot `i` of a page with interval `me`. */
  ghost function SlotInfo(es: seq<Entry>, me: Info, i: nat): Info
    requires i < |es| && me.height > 0
  {
    Info(me.height - 1, if i == 0 then me.lo else Some(es[i].key), if i + 1 < |es| then Some(es[i + 1].key) else me.hi)
  }

  ghost predicate ChildOk(es: seq<Entry>, ns: Infos, me: Info, i: nat)
    requires i < |es| && me.height > 0
  {
    es[i].val in ns && ns[es[i].val] == SlotInfo(es, me, i)
  }

  ghost predicate KeyOk(es: seq<Entry>, me: Info, i: nat)
    requires i < |es|
  {
    InRange(es[i].key, me)
  }

  /** A page with these entries and interval fits into a tree with these intervals. */
  ghost predicate PageOk(page: Page, ns: Infos, me: Info) {
    && Increasing(page.ents)
    && (forall i | 0 <= i < |page.ents| :: KeyOk(page.ents, me, i))
    && (me.lo.Some? ==> page.ents != [] && page.ents[0].key == me.lo.value)
    && (page.leaf <==> me.height == 0)
    && (!page.leaf ==> page.ents != [] && forall i | 0 <= i < |page.ents| :: ChildOk(page.ents, ns, me, i))
  }

  ghost predicate PageAt(ps: Pages, ns: Infos, p: Id)
    requires p in ns
  {
    p in ps && PageOk(ps[p], ns, ns[p])
  }

  ghost predicate Unique(ns: Infos) {
    forall p, q, k {:trigger InRange(k, ns[p]), InRange(k, ns[q])} |
      p in ns && q in ns && ns[p].height == ns[q].height && InRange(k, ns[p]) && InRange(k, ns[q]) :: p == q
  }

  /** Only a tree that is a single leaf can be empty. */
  ghost predicate TreeOk(ps: Pages, ns: Infos, root: Id) {
    && root in ns && ns[root].lo == None && ns[root].hi == None
    && (forall p | p in ns :: PageAt(ps, ns, p))
    && (forall p | p in ns && p != root :: ps[p].ents != [])
    && (forall p | p in ns :: ns[p].height <= ns[root].height)
    && Unique(ns)
  }

  // --------------------------------------------------------------------- routing

  lemma SlotFloor(es: seq<Entry>, k: Key)
    requires Increasing(es)
    ensures IsFloor(KeysOf(es), k, Search(KeysOf(es), k))
  {
    SearchFloor(KeysOf(es), k);
  }

  /** A search stays inside the interval that holds its key. */
  lemma Routed(page: Page, ns: Infos, me: Info, k: Key)
    requires PageOk(page, ns, me) && !page.leaf && InRange(k, me)
    ensures var c := page.ents[SlotOf(page.ents, k)].val;
            c in ns && ns[c].height == me.height - 1 && InRange(k, ns[c])
  {
    var es := page.ents;
    SlotFloor(es, k);
    var s := SlotOf(es, k);
    assert ChildOk(es, ns, me, s);
    assert forall i | 0 <= i < |es| :: KeysOf(es)[i] == es[i].key;
  }

  lemma ChildInside(page: Page, ns: Infos, me: Info, i: nat, k: Key)
    requires PageOk(page, ns, me) && !page.leaf && i < |page.ents|
    requires ChildOk(page.ents, ns, me, i) && InRange(k, ns[page.ents[i].val])
    ensures InRange(k, me)
  {
    assert KeyOk(page.ents, me, i);
    if i + 1 < |page.ents| { assert KeyOk(page.ents, me, i + 1); }
  }

  /** The key that a descent to the leftmost leaf ends on. */
  ghost predicate IsLeast(me: Info, k: Key) {
    InRange(k, me) && (me.lo.Some? ==> k == me.lo.value)
  }

  lemma LeastOfChild(page: Page, ns: Infos, me: Info, k: Key)
    requires PageOk(page, ns, me) && !page.leaf && ChildOk(page.ents, ns, me, 0) && IsLeast(ns[page.ents[0].val], k)
    ensures IsLeast(me, k)
  {
    ChildInside(page, ns, me, 0, k);
  }

  // ------------------------------------------------------------------- splitting

  function LeftInfo(me: Info, s: Key): Info { me.(hi := Some(s)) }

  function RightInfo(me: Info, s: Key): Info { me.(lo := Some(s)) }

  /** The intervals after page `p` has become `l` and `r`, cut at `s`. */
  function SplitInfos(ns: Infos, p: Id, l: Id, r: Id, s: Key): Infos
    requires p in ns
  {
    (ns - {p})[l := LeftInfo(ns[p], s)][r := RightInfo(ns[p], s)]
  }

  ghost predicate FreshPair(ns: Infos, l: Id, r: Id) {
    l !in ns && r !in ns && l != r
  }

  lemma SplitUnique(ns: Infos, p: Id, l: Id, r: Id, s: Key)
    requires Unique(ns) && p in ns && FreshPair(ns, l, r) && InRange(s, ns[p])
    ensures Unique(SplitInfos(ns, p, l, r, s))
  {
    var after := SplitInfos(ns, p, l, r, s);
    forall a, b, k | a in after && b in after && after[a].height == after[b].height && InRange(k, after[a])
      && InRange(k, after[b])
      ensures a == b
    {
      SplitUniquePair(ns, p, l, r, s, a, b, k);
    }
  }

  lemma SplitUniquePair(ns: Infos, p: Id, l: Id, r: Id, s: Key, a: Id, b: Id, k: Key)
    requires Unique(ns) && p in ns && FreshPair(ns, l, r) && InRange(s, ns[p])
    requires var after := SplitInfos(ns, p, l, r, s);
             a in after && b in after && after[a].height == after[b].height && InRange(k, after[a])
               && InRange(k, after[b])
    ensures a == b
  {
    var a0, b0 := if a == l || a == r then p else a, if b == l || b == r then p else b;
    assert InRange(k, ns[a0]) && InRange(k, ns[b0]);
  }

  /** Both halves of a page fit their half of its interval. */
  lemma LeftOk(page: Page, ns: Infos, me: Info, x: nat, smo: nat)
    requires PageOk(page, ns, me) && 0 < x < |page.ents|
    ensures PageOk(Page(page.leaf, page.ents[..x], smo), ns, LeftInfo(me, page.ents[x].key))
  {
    var es, half, new_ := page.ents, page.ents[..x], LeftInfo(me, page.ents[x].key);
    forall i | 0 <= i < x
      ensures KeyOk(half, new_, i) && (!page.leaf ==> ChildOk(half, ns, new_, i))
    {
      assert KeyOk(es, me, i) && es[i].key < es[x].key;
      if !page.leaf {
        assert ChildOk(es, ns, me, i);
      }
    }
  }

  lemma RightOk(page: Page, ns: Infos, me: Info, x: nat, smo: nat)
    requires PageOk(page, ns, me) && 0 < x < |page.ents|
    ensures PageOk(Page(page.leaf, page.ents[x..], smo), ns, RightInfo(me, page.ents[x].key))
  {
    var es, half, new_ := page.ents, page.ents[x..], RightInfo(me, page.ents[x].key);
    forall i | 0 <= i < |half|
      ensures KeyOk(half, new_, i) && (!page.leaf ==> ChildOk(half, ns, new_, i))
    {
      assert half[i] == es[x + i] && KeyOk(es, me, x + i) && es[x].key <= es[x + i].key;
      if !page.leaf {
        assert ChildOk(es, ns, me, x + i);
        assert i + 1 < |half| ==> half[i + 1] == es[x + i + 1];
      }
    }
  }

  /** A page that does not have `p` as a child does not notice that it is split. */
  lemma OtherOk(page: Page, ns: Infos, me: Info, p: Id, l: Id, r: Id, s: Key)
    requires PageOk(page, ns, me) && p in ns && FreshPair(ns, l, r)
    requires !page.leaf ==> forall i | 0 <= i < |page.ents| :: page.ents[i].val != p
    ensures PageOk(page, SplitInfos(ns, p, l, r, s), me)
  {
    forall i | 0 <= i < |page.ents| && !page.leaf
      ensures ChildOk(page.ents, SplitInfos(ns, p, l, r, s), me, i)
    {
      assert ChildOk(page.ents, ns, me, i);
    }
  }

  /** The entries of the parent once slot `i` holds the left half and the right half follows it. */
  function SplitEntries(es: seq<Entry>, i: nat, lk: Key, l: Id, s: Key, r: Id): seq<Entry>
    requires i < |es|
  {
    es[..i] + [Entry(lk, l), Entry(s, r)] + es[i + 1..]
  }

  lemma ParentOk(page: Page, ns: Infos, me: Info, i: nat, p: Id, l: Id, r: Id, lk: Key, s: Key)
    requires PageOk(page, ns, me) && !page.leaf && i < |page.ents| && page.ents[i].val == p
    requires p in ns && FreshPair(ns, l, r) && ChildOk(page.ents, ns, me, i)
    requires forall j | 0 <= j < |page.ents| && j != i :: page.ents[j].val != p
    requires InRange(s, ns[p]) && IsLeast(LeftInfo(ns[p], s), lk)
    ensures PageOk(page.(ents := SplitEntries(page.ents, i, lk, l, s, r)), SplitInfos(ns, p, l, r, s), me)
  {
    var es, new_, after := page.ents, SplitEntries(page.ents, i, lk, l, s, r), SplitInfos(ns, p, l, r, s);
    assert i > 0 ==> lk == es[i].key;
    assert new_[i] == Entry(lk, l) && new_[i + 1] == Entry(s, r);
    SplitKeys(es, me, i, lk, l, s, r, ns[p]);
    forall j | 0 <= j < |new_|
      ensures ChildOk(new_, after, me, j)
    {
      if j < i {
        assert ChildOk(es, ns, me, j);
      } else if j > i + 1 {
        assert ChildOk(es, ns, me, j - 1);
      }
    }
  }

  lemma SplitKeys(es: seq<Entry>, me: Info, i: nat, lk: Key, l: Id, s: Key, r: Id, c: Info)
    requires Increasing(es) && (forall j | 0 <= j < |es| :: KeyOk(es, me, j)) && i < |es| && me.height > 0
    requires c == SlotInfo(es, me, i) && InRange(s, c) && IsLeast(LeftInfo(c, s), lk)
    requires me.lo.Some? ==> es[0].key == me.lo.value
    ensures var new_ := SplitEntries(es, i, lk, l, s, r);
            Increasing(new_) && (forall j | 0 <= j < |new_| :: KeyOk(new_, me, j))
              && (me.lo.Some? ==> new_[0].key == me.lo.value)
  {
    var new_ := SplitEntries(es, i, lk, l, s, r);
    forall j | 0 <= j < |new_|
      ensures KeyOk(new_, me, j)
      ensures j < i ==> new_[j] == es[j] && new_[j].key < lk
      ensures j > i + 1 ==> new_[j] == es[j - 1] && s < new_[j].key
    {
      assert KeyOk(es, me, i);
      if j < i {
        assert KeyOk(es, me, j) && es[j].key < es[i].key;
      } else if j > i + 1 {
        assert KeyOk(es, me, j - 1) && KeyOk(es, me, i + 1) && es[i + 1].key <= es[j - 1].key;
      } else if i + 1 < |es| {
        assert KeyOk(es, me, i + 1);
      }
    }
  }
}
