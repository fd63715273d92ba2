/** `ywBTree` used by one thread: insertion with splits up a stack of pages, and lookup. */
module BTrees {
  import opened Basics
  import opened PageSearch
  import opened BtShape
  import opened BtSplit

  /** `insert` puts `e` behind the last key not above it. */
  function WithEntry(es: seq<Entry>, e: Entry): (r: seq<Entry>)
    ensures |r| == |es| + 1
  {
    Inserted(es, Search(KeysOf(es), e.key) + 1, e)
  }

  function Filled(page: Page, e: Entry): Page { page.(ents := WithEntry(page.ents, e)) }

  /** The pages in use, the root and the next unused page. */
  datatype Tree = Tree(pages: Pages, root: Id, next: Id)

  ghost predicate Fits(ps: Pages, ns: Infos, cap: nat) {
    forall p | p in ns :: p in ps && |ps[p].ents| <= cap
  }

  /** Inner pages carry the number of a structure change that is over. */
  ghost predicate Stamped(ps: Pages, ns: Infos, smo: nat) {
    forall p | p in ns && p in ps && !ps[p].leaf :: ps[p].smo < smo
  }

  ghost predicate Allocated(t: Tree, ns: Infos) {
    t.pages.Keys == ns.Keys && forall p | p in ns :: p < t.next
  }

  // ---------------------------------------------------------------------- descent

  /** Below height `h` everything is as a tree should be. */
  ghost predicate SoundBelow(ps: Pages, ns: Infos, h: nat) {
    forall p | p in ns && ns[p].height < h :: PageAt(ps, ns, p) && ps[p].ents != []
  }

  /** `get_left_most_key`: the first key of the leftmost leaf under a page. */
  method LeftmostKey(ps: Pages, ghost ns: Infos, p: Id) returns (k: Key)
    requires p in ps && ps[p].ents != []
    requires !ps[p].leaf ==> var c := ps[p].ents[0].val; c in ns && SoundBelow(ps, ns, ns[c].height + 1)
    ensures if ps[p].leaf then k == ps[p].ents[0].key else IsLeast(ns[ps[p].ents[0].val], k)
  {
    var page := ps[p];
    if !page.leaf {
      ghost var me := ns[page.ents[0].val];
      ghost var at := me;
      assert PageAt(ps, ns, page.ents[0].val);
      page := ps[page.ents[0].val];
      while !page.leaf
        invariant PageOk(page, ns, at) && page.ents != [] && at.height <= me.height
        invariant at.lo == me.lo && NotAbove(at.hi, me.hi)
        decreases at.height
      {
        FirstHi(page, ns, at);
        assert PageAt(ps, ns, page.ents[0].val);
        at := ns[page.ents[0].val];
        page := ps[page.ents[0].val];
      }
      assert KeyOk(page.ents, at, 0);
    }
    k := page.ents[0].key;
  }

  ghost predicate NotAbove(a: Option<Key>, b: Option<Key>) {
    b.Some? ==> a.Some? && a.value <= b.value
  }

  lemma FirstHi(page: Page, ns: Infos, me: Info)
    requires PageOk(page, ns, me) && !page.leaf
    ensures ChildOk(page.ents, ns, me, 0) && NotAbove(ns[page.ents[0].val].hi, me.hi)
  {
    if |page.ents| > 1 { assert KeyOk(page.ents, me, 1); }
  }

  /** `find_leaf`: the check of the page's stamp never sends the descent back to the root. */
  method FindLeaf(ps: Pages, ghost ns: Infos, root: Id, smo: nat, k: Key) returns (p: Id)
    requires TreeOk(ps, ns, root) && Stamped(ps, ns, smo)
    ensures p in ns && p in ps && ps[p].leaf && InRange(k, ns[p])
  {
    p := root;
    assert PageAt(ps, ns, p);
    while !ps[p].leaf
      invariant p in ns && PageAt(ps, ns, p) && InRange(k, ns[p])
      decreases ns[p].height
    {
      Routed(ps[p], ns, ns[p], k);
      if ps[p].smo < smo {
        p := ps[p].ents[SlotOf(ps[p].ents, k)].val;
        assert PageAt(ps, ns, p);
      } else {
        p := root;
      }
    }
  }

  /** The pages above `p`, the root first. */
  ghost predicate Path(ps: Pages, ns: Infos, root: Id, stack: seq<Id>, p: Id)
    decreases stack
  {
    if stack == [] then p == root
    else
      var q := stack[|stack| - 1];
      && q in ns && p in ns && ns[q].height == ns[p].height + 1
      && HangsIn(ps, q, p)
      && Path(ps, ns, root, stack[..|stack| - 1], q)
  }

  ghost predicate HangsIn(ps: Pages, q: Id, p: Id) {
    exists i: nat :: IsChild(ps, q, i, p)
  }

  /** `traverse_with_stack`, whose stack has room. */
  method Traverse(ps: Pages, ghost ns: Infos, root: Id, k: Key) returns (stack: seq<Id>, p: Id)
    requires TreeOk(ps, ns, root)
    ensures p in ns && p in ps && ps[p].leaf && InRange(k, ns[p]) && Path(ps, ns, root, stack, p)
  {
    p, stack := root, [];
    assert PageAt(ps, ns, p);
    while !ps[p].leaf
      invariant p in ns && PageAt(ps, ns, p) && InRange(k, ns[p]) && Path(ps, ns, root, stack, p)
      decreases ns[p].height
    {
      Routed(ps[p], ns, ns[p], k);
      var c := ps[p].ents[SlotOf(ps[p].ents, k)].val;
      assert IsChild(ps, p, SlotOf(ps[p].ents, k), c);
      assert (stack + [p])[..|stack|] == stack;
      stack, p := stack + [p], c;
      assert PageAt(ps, ns, p);
    }
  }

  // --------------------------------------------------------------------- splitting

  lemma FloorMax(ks: seq<Key>, k: Key, r: int, f: int)
    requires IsFloor(ks, k, r) && -1 <= f < |ks| && (f >= 0 ==> ks[f] <= k)
    ensures f <= r
  {
  }

  lemma FloorIs(es: seq<Entry>, k: Key, r: int)
    requires Increasing(es) && IsFloor(KeysOf(es), k, r)
    ensures Search(KeysOf(es), k) == r
  {
    SlotFloor(es, k);
    FloorMax(KeysOf(es), k, r, Search(KeysOf(es), k));
    FloorMax(KeysOf(es), k, Search(KeysOf(es), k), r);
  }

  lemma InsertedBefore(es: seq<Entry>, i: nat, e: Entry, sp: nat)
    requires i <= sp < |es|
    ensures Inserted(es, i, e)[..sp + 1] == Inserted(es[..sp], i, e)
    ensures Inserted(es, i, e)[sp + 1..] == es[sp..]
  {
  }

  lemma InsertedBehind(es: seq<Entry>, i: nat, e: Entry, sp: nat)
    requires sp < i <= |es|
    ensures Inserted(es, i, e)[..sp] == es[..sp]
    ensures Inserted(es, i, e)[sp..] == Inserted(es[sp..], i - sp, e)
  {
  }

  /** Filling one half of a page is cutting the filled page. */
  lemma FilledRight(es: seq<Entry>, e: Entry, sp: nat)
    requires Increasing(es) && sp < |es| && es[sp].key < e.key
    ensures WithEntry(es, e)[..sp] == es[..sp] && WithEntry(es, e)[sp..] == WithEntry(es[sp..], e)
    ensures WithEntry(es, e)[sp] == es[sp]
  {
    var f := Search(KeysOf(es), e.key);
    SlotFloor(es, e.key);
    FloorMax(KeysOf(es), e.key, f, sp);
    DropFloor(es, e.key, f, sp);
    InsertedBehind(es, f + 1, e, sp);
  }

  lemma DropFloor(es: seq<Entry>, k: Key, f: int, sp: nat)
    requires Increasing(es) && IsFloor(KeysOf(es), k, f) && sp <= f
    ensures Search(KeysOf(es[sp..]), k) == f - sp
  {
    var half := es[sp..];
    assert forall i | 0 <= i < |half| :: KeysOf(half)[i] == KeysOf(es)[sp + i];
    FloorIs(half, k, f - sp);
  }

  lemma TakeFloor(es: seq<Entry>, k: Key, f: int, sp: nat)
    requires Increasing(es) && IsFloor(KeysOf(es), k, f) && f < sp <= |es|
    ensures Search(KeysOf(es[..sp]), k) == f
  {
    var half := es[..sp];
    assert forall i | 0 <= i < |half| :: KeysOf(half)[i] == KeysOf(es)[i];
    FloorIs(half, k, f);
  }

  lemma FilledLeft(es: seq<Entry>, e: Entry, sp: nat)
    requires Increasing(es) && 0 < sp < |es| && e.key < es[sp].key
    ensures WithEntry(es, e)[..sp + 1] == WithEntry(es[..sp], e) && WithEntry(es, e)[sp + 1..] == es[sp..]
    ensures WithEntry(es, e)[sp + 1] == es[sp]
  {
    var f := Search(KeysOf(es), e.key);
    SlotFloor(es, e.key);
    assert f < sp by {
      assert KeysOf(es)[sp] == es[sp].key;
    }
    TakeFloor(es, e.key, f, sp);
    InsertedBefore(es, f + 1, e, sp);
  }

  lemma FilledIncreasing(es: seq<Entry>, e: Entry)
    requires Increasing(WithEntry(es, e))
    ensures Increasing(es) && forall i | 0 <= i < |es| :: es[i].key != e.key
  {
    var full := WithEntry(es, e);
    var f := Search(KeysOf(es), e.key);
    forall i | 0 <= i < |es|
      ensures full[if i <= f then i else i + 1] == es[i] && es[i].key != e.key
    {
      assert full[f + 1] == e;
    }
  }

  lemma StillSound(ps: Pages, ns: Infos, root: Id, p: Id, g: Pages)
    requires TreeOk(ps, ns, root) && p in ns && forall a | a in ns && a != p :: a in g && g[a] == ps[a]
    ensures SoundBelow(g, ns, ns[p].height)
  {
    forall a | a in ns && ns[a].height < ns[p].height
      ensures PageAt(g, ns, a) && g[a].ents != []
    {
      assert PageAt(ps, ns, a);
    }
  }

  /** Where an entry of a page is once the page has been filled. */
  lemma FilledSlot(es: seq<Entry>, e: Entry, i: nat) returns (j: nat)
    requires i < |es|
    ensures i <= j < |WithEntry(es, e)| && WithEntry(es, e)[j] == es[i]
  {
    j := if i <= Search(KeysOf(es), e.key) then i else i + 1;
  }

  /** The first key right of the cut is the key of the entry there, also below an inner page. */
  lemma CutKey(ps: Pages, ns: Infos, root: Id, p: Id, e: Entry, i: nat, k: Key)
    requires p in ps && TreeOk(ps[p := Filled(ps[p], e)], ns, root) && p in ns && 0 < i < |ps[p].ents|
    ensures !ps[p].leaf ==> var c := ps[p].ents[i].val;
                            c in ns && ns[c].height + 1 == ns[p].height
                              && (IsLeast(ns[c], k) ==> k == ps[p].ents[i].key)
  {
    var w := ps[p := Filled(ps[p], e)];
    var j := FilledSlot(ps[p].ents, e, i);
    assert PageAt(w, ns, p);
    if !ps[p].leaf { assert ChildOk(w[p].ents, ns, ns[p], j); }
  }

  lemma LeftLeast(page: Page, ns: Infos, me: Info, k: Key)
    requires PageOk(page, ns, me) && page.ents != []
    requires !page.leaf ==> page.ents[0].val in ns
    requires if page.leaf then k == page.ents[0].key else IsLeast(ns[page.ents[0].val], k)
    ensures IsLeast(me, k)
  {
    if page.leaf {
      assert KeyOk(page.ents, me, 0);
    } else {
      assert ChildOk(page.ents, ns, me, 0);
      LeastOfChild(page, ns, me, k);
    }
  }

  lemma CutChoice(es: seq<Entry>, e: Entry, sp: nat) returns (x: nat)
    requires Increasing(WithEntry(es, e)) && 0 < sp < |es|
    ensures x == (if es[sp].key < e.key then sp else sp + 1) && WithEntry(es, e)[x] == es[sp]
    ensures es[sp].key < e.key ==> WithEntry(es, e)[..x] == es[..sp] && WithEntry(es, e)[x..] == WithEntry(es[sp..], e)
    ensures es[sp].key >= e.key ==> WithEntry(es, e)[..x] == WithEntry(es[..sp], e) && WithEntry(es, e)[x..] == es[sp..]
  {
    FilledIncreasing(es, e);
    if es[sp].key < e.key {
      FilledRight(es, e, sp);
      x := sp;
    } else {
      FilledLeft(es, e, sp);
      x := sp + 1;
    }
  }

  /** The key under which the right half will hang. */
  method RightKey(g: Pages, ghost ps: Pages, ghost ns: Infos, ghost root: Id, ghost p: Id, ghost e: Entry, r: Id,
                  ghost sp: nat)
    returns (rk: Key)
    requires p in ps && TreeOk(ps[p := Filled(ps[p], e)], ns, root) && p in ns && 0 < sp < |ps[p].ents|
    requires r in g && g[r].leaf == ps[p].leaf && g[r].ents == ps[p].ents[sp..]
    requires forall a | a in ns && a != p :: a in ps && a in g && g[a] == ps[a]
    ensures rk == ps[p].ents[sp].key
  {
    ghost var w := ps[p := Filled(ps[p], e)];
    StillSound(w, ns, root, p, g);
    CutKey(ps, ns, root, p, e, sp, 0);
    rk := LeftmostKey(g, ns, r);
    CutKey(ps, ns, root, p, e, sp, rk);
  }

  /** The key under which the left half will hang. */
  method LeftKey(g: Pages, ghost w: Pages, ghost ns: Infos, ghost root: Id, ghost p: Id, ghost x: nat,
                 l: Id) returns (lk: Key)
    requires TreeOk(w, ns, root) && p in ns && p in w && 0 < x < |w[p].ents|
    requires l in g && g[l].leaf == w[p].leaf && g[l].ents == w[p].ents[..x]
    requires forall a | a in ns && a != p :: a in w && a in g && g[a] == w[a]
    ensures IsLeast(LeftInfo(ns[p], w[p].ents[x].key), lk)
  {
    assert PageAt(w, ns, p);
    LeftOk(w[p], ns, ns[p], x, g[l].smo);
    StillSound(w, ns, root, p, g);
    ghost var me := LeftInfo(ns[p], w[p].ents[x].key);
    assert !g[l].leaf ==> ChildOk(g[l].ents, ns, me, 0);
    lk := LeftmostKey(g, ns, l);
    LeftLeast(g[l], ns, me, lk);
  }

  /** The part of `split_insert` before the parent: two new pages share the entries and `e`. */
  method Halve(ps: Pages, ghost ns: Infos, ghost root: Id, p: Id, e: Entry, l: Id, r: Id, smo: nat)
    returns (g: Pages, lk: Key, rk: Key, ghost x: nat)
    requires p in ps && TreeOk(ps[p := Filled(ps[p], e)], ns, root) && p in ns && |ps[p].ents| >= 2
             && FreshPair(ns, l, r)
    requires ps.Keys == ns.Keys
    ensures var w := ps[p := Filled(ps[p], e)];
            && Splittable(w, ns, root, p, x, l, r, lk) && rk == w[p].ents[x].key
            && g == SplitPages(w, p, x, l, r, smo)
    ensures |ps[p].ents| / 2 <= x <= |ps[p].ents| / 2 + 1
  {
    var page := ps[p];
    var sp := |page.ents| / 2;
    ghost var w := ps[p := Filled(page, e)];
    assert PageAt(w, ns, p);
    x := CutChoice(page.ents, e, sp);
    var left := Page(page.leaf, page.ents[..sp], smo);
    var right := Page(page.leaf, page.ents[sp..], smo);
    rk := RightKey((ps - {p})[l := left][r := right], ps, ns, root, p, e, r, sp);
    if rk < e.key {
      right := Filled(right, e);
    } else {
      left := Filled(left, e);
    }
    g := (ps - {p})[l := left][r := right];
    assert w - {p} == ps - {p};
    lk := LeftKey(g, w, ns, root, p, x, l);
  }

  /** `inplace_update` finds the slot of the page that was split. */
  lemma ParentSlot(page: Page, ns: Infos, me: Info, i: nat, k: Key)
    requires PageOk(page, ns, me) && !page.leaf && i < |page.ents| && ChildOk(page.ents, ns, me, i)
    requires InRange(k, ns[page.ents[i].val])
    ensures SlotOf(page.ents, k) == i
  {
    var es, s := page.ents, SlotOf(page.ents, k);
    ChildInside(page, ns, me, i, k);
    Routed(page, ns, me, k);
    assert ChildOk(es, ns, me, s);
    if s < i {
      SlotsApart(es, me, s, i, k);
    } else if i < s {
      SlotsApart(es, me, i, s, k);
    }
  }

  /** Updating the slot and inserting the right half next to it. */
  lemma ParentEntries(es: seq<Entry>, i: nat, lk: Key, l: Id, s: Key, r: Id)
    requires i < |es| && Increasing(SplitEntries(es, i, lk, l, s, r))
    ensures WithEntry(es[i := Entry(lk, l)], Entry(s, r)) == SplitEntries(es, i, lk, l, s, r)
  {
    var new_, es1 := SplitEntries(es, i, lk, l, s, r), es[i := Entry(lk, l)];
    InsertedNextTo(es, i, Entry(lk, l), Entry(s, r));
    WithoutFloor(new_, es1, i);
  }

  lemma InsertedNextTo(es: seq<Entry>, i: nat, a: Entry, b: Entry)
    requires i < |es|
    ensures Inserted(es[i := a], i + 1, b) == es[..i] + [a, b] + es[i + 1..]
  {
  }

  lemma WithoutFloor(new_: seq<Entry>, es: seq<Entry>, i: nat)
    requires Increasing(new_) && i < |es| && |new_| == |es| + 1 && new_ == Inserted(es, i + 1, new_[i + 1])
    ensures Search(KeysOf(es), new_[i + 1].key) == i
  {
    assert forall j | 0 <= j < |es| :: es[j] == new_[if j <= i then j else j + 1];
    FloorIs(es, new_[i + 1].key, i);
  }

  lemma {:induction false} PathKept(ps: Pages, ns: Infos, root: Id, stack: seq<Id>, p: Id, ps': Pages, ns': Infos)
    requires Path(ps, ns, root, stack, p) && p in ns && p in ns' && ns[p] == ns'[p]
    requires forall a | a in ns && ns[a].height > ns[p].height :: a in ns' && ns'[a] == ns[a] && a in ps
                                                                  && a in ps' && ps'[a] == ps[a]
    ensures Path(ps', ns', root, stack, p)
    decreases stack
  {
    if stack != [] {
      var q := stack[|stack| - 1];
      var i: nat :| IsChild(ps, q, i, p);
      assert IsChild(ps', q, i, p);
      PathKept(ps, ns, root, stack[..|stack| - 1], q, ps', ns');
    }
  }

  // ------------------------------------------------------------- the whole operation

  /** A tree within its page size, holding exactly the bindings of `m`. */
  ghost predicate Good(t: Tree, ns: Infos, cap: nat, smo: nat, m: map<Key, Id>) {
    && TreeOk(t.pages, ns, t.root) && ContentsOk(t.pages, ns, m)
    && Fits(t.pages, ns, cap) && Allocated(t, ns) && Stamped(t.pages, ns, smo)
  }

  /** A tree in which page `p` is full and would be right if it also held `e`. */
  ghost predicate Pending(t: Tree, ns: Infos, p: Id, e: Entry, cap: nat, smo: nat, m: map<Key, Id>) {
    && p in t.pages && p in ns && |t.pages[p].ents| == cap
    && TreeOk(t.pages[p := Filled(t.pages[p], e)], ns, t.root)
    && ContentsOk(t.pages[p := Filled(t.pages[p], e)], ns, m)
    && Fits(t.pages, ns, cap) && Allocated(t, ns) && Stamped(t.pages, ns, smo)
  }

  /** The state after the halves are made and before the parent knows of them. */
  ghost predicate Halved(t: Tree, ns: Infos, p: Id, e: Entry, g: Pages, x: nat, lk: Key, rk: Key, smo: nat) {
    && p in t.pages
    && var w := t.pages[p := Filled(t.pages[p], e)];
    && Splittable(w, ns, t.root, p, x, t.next, t.next + 1, lk) && rk == w[p].ents[x].key
    && g == SplitPages(w, p, x, t.next, t.next + 1, smo)
    && |t.pages[p].ents| / 2 <= x <= |t.pages[p].ents| / 2 + 1
  }

  lemma HalvesFit(t: Tree, ns: Infos, p: Id, e: Entry, g: Pages, x: nat, lk: Key, rk: Key, cap: nat, smo: nat,
                  m: map<Key, Id>)
    requires Pending(t, ns, p, e, cap, smo + 1, m) && Halved(t, ns, p, e, g, x, lk, rk, smo) && cap >= 2
    ensures var ns' := SplitInfos(ns, p, t.next, t.next + 1, rk);
            Loose(g, ns', t.next + 2, cap, smo + 1, m)
  {
    var w := t.pages[p := Filled(t.pages[p], e)];
    SplitContents(w, ns, p, x, t.next, t.next + 1, smo, rk, m);
  }

  /** The parent `q` with the left half in the slot of the split page. */
  function Relinked(page: Page, lk: Key, l: Id): Page
    requires page.ents != []
  {
    page.(ents := page.ents[SlotOf(page.ents, lk) := Entry(lk, l)])
  }

  /** With both halves in the parent the tree is whole, whether or not the parent has room. */
  lemma ParentWhole(t: Tree, ns: Infos, p: Id, e: Entry, g: Pages, x: nat, lk: Key, rk: Key, smo: nat, q: Id)
    requires Halved(t, ns, p, e, g, x, lk, rk, smo) && q in ns && q in t.pages && HangsIn(t.pages, q, p)
    ensures q != p && !t.pages[q].leaf && t.pages[q].ents != []
    ensures var l, r := t.next, t.next + 1;
            var page := Filled(Relinked(t.pages[q], lk, l), Entry(rk, r));
            TreeOk(g[q := page], SplitInfos(ns, p, l, r, rk), t.root)
  {
    var l, r := t.next, t.next + 1;
    var w := t.pages[p := Filled(t.pages[p], e)];
    var i: nat :| IsChild(t.pages, q, i, p);
    NotOwnChild(t, ns, p, e, q, i);
    var es := t.pages[q].ents;
    ChildHeight(w, ns, t.root, q, i, p);
    assert PageAt(w, ns, q) && ChildOk(es, ns, ns[q], i);
    SplitKeyInside(w, ns, t.root, p, x);
    ParentSlot(t.pages[q], ns, ns[q], i, lk);
    SplitKeys(es, ns[q], i, lk, l, rk, r, ns[p]);
    ParentEntries(es, i, lk, l, rk, r);
    SplitBelow(w, ns, t.root, p, x, l, r, smo, lk, q, i);
  }

  lemma NotOwnChild(t: Tree, ns: Infos, p: Id, e: Entry, q: Id, i: nat)
    requires p in t.pages && p in ns && q in ns && IsChild(t.pages, q, i, p)
    requires TreeOk(t.pages[p := Filled(t.pages[p], e)], ns, t.root)
    ensures q != p
  {
    var w := t.pages[p := Filled(t.pages[p], e)];
    if q == p {
      var j := FilledSlot(t.pages[p].ents, e, i);
      ChildHeight(w, ns, t.root, p, j, p);
    }
  }

  lemma HalvedKeeps(t: Tree, ns: Infos, p: Id, e: Entry, g: Pages, x: nat, lk: Key, rk: Key, smo: nat, q: Id)
    requires Halved(t, ns, p, e, g, x, lk, rk, smo) && q in ns && q != p && q in t.pages
    ensures q in g && g[q] == t.pages[q] && q in SplitInfos(ns, p, t.next, t.next + 1, rk)
  {
  }

  lemma UpdateTwice(g: Pages, q: Id, a: Page, b: Page)
    ensures g[q := a][q := b] == g[q := b]
  {
  }

  /** Everything about the halves but how they hang in the tree. */
  ghost predicate Loose(g: Pages, ns: Infos, next: Id, cap: nat, smo: nat, m: map<Key, Id>) {
    && Fits(g, ns, cap) && Stamped(g, ns, smo) && g.Keys == ns.Keys
    && (forall a | a in ns :: a < next) && ContentsOk(g, ns, m)
  }

  lemma ParentRoom(g: Pages, ns: Infos, root: Id, next: Id, cap: nat, smo: nat, m: map<Key, Id>, q: Id, page: Page)
    requires Loose(g, ns, next, cap, smo, m) && q in ns && q in g && !g[q].leaf
    requires !page.leaf && page.smo == g[q].smo && |page.ents| <= cap && TreeOk(g[q := page], ns, root)
    ensures Good(Tree(g[q := page], root, next), ns, cap, smo, m)
  {
    InnerContents(g, ns, m, q, page, ns);
  }

  lemma ParentFull(g: Pages, ns: Infos, root: Id, next: Id, cap: nat, smo: nat, m: map<Key, Id>, q: Id, page: Page,
                   e: Entry)
    requires Loose(g, ns, next, cap, smo, m) && q in ns && q in g && !g[q].leaf
    requires !page.leaf && page.smo == g[q].smo && |page.ents| == cap && TreeOk(g[q := Filled(page, e)], ns, root)
    ensures Pending(Tree(g[q := page], root, next), ns, q, e, cap, smo, m)
  {
    InnerContents(g, ns, m, q, Filled(page, e), ns);
    UpdateTwice(g, q, page, Filled(page, e));
  }

  lemma ParentPath(t: Tree, ns: Infos, p: Id, e: Entry, g: Pages, x: nat, lk: Key, rk: Key, smo: nat, q: Id,
                   page: Page, stack: seq<Id>)
    requires Halved(t, ns, p, e, g, x, lk, rk, smo) && Allocated(t, ns) && q in ns && ns[q].height == ns[p].height + 1
    requires Path(t.pages, ns, t.root, stack, q)
    ensures Path(g[q := page], SplitInfos(ns, p, t.next, t.next + 1, rk), t.root, stack, q)
  {
    PathKept(t.pages, ns, t.root, stack, q, g[q := page], SplitInfos(ns, p, t.next, t.next + 1, rk));
  }

  lemma RootGood(g: Pages, ns: Infos, n: Id, me: Info, page: Page, cap: nat, smo: nat, m: map<Key, Id>)
    requires Loose(g, ns, n, cap, smo, m) && TreeOk(g[n := page], ns[n := me], n)
    requires !page.leaf && page.smo < smo && |page.ents| <= cap
    ensures Good(Tree(g[n := page], n, n + 1), ns[n := me], cap, smo, m)
  {
    assert n !in ns && n !in g;
    InnerContents(g, ns, m, n, page, ns[n := me]);
  }

  lemma NewRoot(t: Tree, ns: Infos, e: Entry, g: Pages, x: nat, lk: Key, rk: Key, cap: nat, smo: nat, m: map<Key, Id>)
    requires Pending(t, ns, t.root, e, cap, smo + 1, m) && Halved(t, ns, t.root, e, g, x, lk, rk, smo) && cap >= 2
    ensures var l, r, n := t.next, t.next + 1, t.next + 2;
            Good(Tree(g[n := Page(false, [Entry(lk, l), Entry(rk, r)], smo)], n, n + 1),
                 SplitInfos(ns, t.root, l, r, rk)[n := Info(ns[t.root].height + 1, None, None)], cap, smo + 1, m)
  {
    var l, r, n := t.next, t.next + 1, t.next + 2;
    HalvesFit(t, ns, t.root, e, g, x, lk, rk, cap, smo, m);
    SplitRoot(t.pages[t.root := Filled(t.pages[t.root], e)], ns, t.root, x, l, r, n, smo, lk);
    RootGood(g, SplitInfos(ns, t.root, l, r, rk), n, Info(ns[t.root].height + 1, None, None),
             Page(false, [Entry(lk, l), Entry(rk, r)], smo), cap, smo + 1, m);
  }

  lemma TwoEntries(a: Entry, b: Entry)
    requires a.key < b.key
    ensures WithEntry(WithEntry([], b), a) == [a, b]
  {
    assert WithEntry([], b) == [b];
    FloorIs([b], a.key, -1);
  }

  /** The page over the two halves, filled one entry at a time. */
  method RootOver(a: Entry, b: Entry, smo: nat) returns (page: Page)
    requires a.key < b.key
    ensures page == Page(false, [a, b], smo)
  {
    TwoEntries(a, b);
    page := Filled(Filled(Page(false, [], smo), b), a);
  }

  lemma PathTop(t: Tree, ns: Infos, stack: seq<Id>, p: Id)
    requires Path(t.pages, ns, t.root, stack, p) && stack != []
    ensures var q := stack[|stack| - 1];
            q in ns && p in ns && ns[q].height == ns[p].height + 1 && HangsIn(t.pages, q, p) && q in t.pages
              && t.pages[q].ents != []
            && !t.pages[q].leaf && Path(t.pages, ns, t.root, stack[..|stack| - 1], q)
  {
    var q := stack[|stack| - 1];
    var i: nat :| IsChild(t.pages, q, i, p);
  }

  /** The parent takes the halves: at once if it has room, or by being split itself. */
  method Hang(t: Tree, ghost ns: Infos, stack: seq<Id>, ghost p: Id, ghost e: Entry, g: Pages, lk: Key, rk: Key,
              ghost x: nat,
              cap: nat, smo: nat, ghost m: map<Key, Id>)
    returns (t': Tree, ghost ns': Infos)
    requires Pending(t, ns, p, e, cap, smo + 1, m) && Path(t.pages, ns, t.root, stack, p) && cap >= 2 && stack != []
    requires Halved(t, ns, p, e, g, x, lk, rk, smo)
    ensures Good(t', ns', cap, smo + 1, m) && t.next < t'.next
    decreases |stack|, 0
  {
    var q, rest := stack[|stack| - 1], stack[..|stack| - 1];
    PathTop(t, ns, stack, p);
    HalvesFit(t, ns, p, e, g, x, lk, rk, cap, smo, m);
    ParentWhole(t, ns, p, e, g, x, lk, rk, smo, q);
    HalvedKeeps(t, ns, p, e, g, x, lk, rk, smo, q);
    var page := Relinked(g[q], lk, t.next);
    var sep := Entry(rk, t.next + 1);
    ns' := SplitInfos(ns, p, t.next, t.next + 1, rk);
    if |page.ents| < cap {
      ParentRoom(g, ns', t.root, t.next + 2, cap, smo + 1, m, q, Filled(page, sep));
      t' := Tree(g[q := Filled(page, sep)], t.root, t.next + 2);
    } else {
      ParentFull(g, ns', t.root, t.next + 2, cap, smo + 1, m, q, page, sep);
      ParentPath(t, ns, p, e, g, x, lk, rk, smo, q, page, rest);
      t', ns' := SplitInsert(Tree(g[q := page], t.root, t.next + 2), ns', rest, q, sep, cap, smo, m);
    }
  }

  /** `split_insert`: splits `p` and, for as long as they are full, the pages above it. */
  method SplitInsert(t: Tree, ghost ns: Infos, stack: seq<Id>, p: Id, e: Entry, cap: nat, smo: nat, ghost m: map<Key,
                     Id>)
    returns (t': Tree, ghost ns': Infos)
    requires Pending(t, ns, p, e, cap, smo + 1, m) && Path(t.pages, ns, t.root, stack, p) && cap >= 2
    ensures Good(t', ns', cap, smo + 1, m) && t.next < t'.next
    decreases |stack|, 1
  {
    var l, r := t.next, t.next + 1;
    var g, lk, rk;
    ghost var x;
    g, lk, rk, x := Halve(t.pages, ns, t.root, p, e, l, r, smo);
    if stack == [] {
      var page := RootOver(Entry(lk, l), Entry(rk, r), smo);
      NewRoot(t, ns, e, g, x, lk, rk, cap, smo, m);
      t' := Tree(g[t.next + 2 := page], t.next + 2, t.next + 3);
      ns' := SplitInfos(ns, p, l, r, rk)[t.next + 2 := Info(ns[p].height + 1, None, None)];
    } else {
      t', ns' := Hang(t, ns, stack, p, e, g, lk, rk, x, cap, smo, m);
    }
  }

  // ------------------------------------------------------------- insertion and lookup

  lemma FilledSorted(es: seq<Entry>, e: Entry) returns (at: nat)
    requires Increasing(es) && forall i | 0 <= i < |es| :: es[i].key != e.key
    ensures at <= |es| && WithEntry(es, e) == Inserted(es, at, e) && Increasing(Inserted(es, at, e))
    ensures forall i | 0 <= i < |es| + 1 ::
            Inserted(es, at, e)[i] == if i < at then es[i] else if i == at then e else es[i - 1]
    ensures es != [] && es[0].key < e.key ==> at > 0
  {
    at := Search(KeysOf(es), e.key) + 1;
    FloorParts(es, e.key);
    BetweenSorted(es, e, at);
  }

  lemma FloorParts(es: seq<Entry>, k: Key)
    requires Increasing(es)
    ensures var at := Search(KeysOf(es), k) + 1;
            && 0 <= at <= |es| && (es != [] && es[0].key < k ==> at > 0)
            && (forall i | 0 <= i < at :: KeysOf(es)[i] <= k) && (forall i | at <= i < |es| :: k < KeysOf(es)[i])
  {
    SlotFloor(es, k);
    assert es != [] ==> KeysOf(es)[0] == es[0].key;
  }

  lemma BetweenSorted(es: seq<Entry>, e: Entry, at: nat)
    requires Increasing(es) && at <= |es|
    requires forall i | 0 <= i < |es| :: if i < at then KeysOf(es)[i] <= e.key
             && es[i].key != e.key else e.key < KeysOf(es)[i]
    ensures Increasing(Inserted(es, at, e))
    ensures forall i | 0 <= i < |es| + 1 ::
            Inserted(es, at, e)[i] == if i < at then es[i] else if i == at then e else es[i - 1]
  {
  }

  lemma LeafFilled(page: Page, ns: Infos, me: Info, e: Entry)
    requires PageOk(page, ns, me) && page.leaf && InRange(e.key, me)
             && forall i | 0 <= i < |page.ents| :: page.ents[i].key != e.key
    ensures PageOk(Filled(page, e), ns, me)
  {
    var es, full := page.ents, WithEntry(page.ents, e);
    var at := FilledSorted(es, e);
    forall i | 0 <= i < |full|
      ensures KeyOk(full, me, i)
    {
      if i < at {
        assert KeyOk(es, me, i);
      } else if i > at {
        assert KeyOk(es, me, i - 1);
      }
    }
  }

  /** A new binding in the leaf its key belongs to. */
  lemma LeafInsert(ps: Pages, ns: Infos, root: Id, m: map<Key, Id>, p: Id, e: Entry)
    requires TreeOk(ps, ns, root) && ContentsOk(ps, ns, m) && p in ns && p in ps && ps[p].leaf
    requires InRange(e.key, ns[p]) && e.key !in m
    ensures TreeOk(ps[p := Filled(ps[p], e)], ns, root) && ContentsOk(ps[p := Filled(ps[p], e)], ns, m[e.key := e.val])
  {
    var w, m' := ps[p := Filled(ps[p], e)], m[e.key := e.val];
    assert PageAt(ps, ns, p) && LeafIn(ps[p], m);
    LeafFilled(ps[p], ns, ns[p], e);
    forall a | a in ns
      ensures PageAt(w, ns, a)
    {
      assert PageAt(ps, ns, a);
    }
    LeafContents(ps, ns, m, p, e);
  }

  lemma LeafContents(ps: Pages, ns: Infos, m: map<Key, Id>, p: Id, e: Entry)
    requires ContentsOk(ps, ns, m) && p in ns && p in ps && ps[p].leaf && e.key !in m
    ensures ContentsOk(ps[p := Filled(ps[p], e)], ns, m[e.key := e.val])
  {
    var w, m', es := ps[p := Filled(ps[p], e)], m[e.key := e.val], ps[p].ents;
    var i := Search(KeysOf(es), e.key) + 1;
    assert es == es[..i] + es[i..] && WithEntry(es, e) == es[..i] + [e] + es[i..];
    forall k | k in m'
      ensures Held(w, ns, Entry(k, m'[k]))
    {
      if k == e.key {
        assert HeldAt(w, ns, p, e);
      } else {
        var a :| HeldAt(ps, ns, a, Entry(k, m[k]));
        assert HeldAt(w, ns, a, Entry(k, m[k]));
      }
    }
    forall a | a in ns && a in w && w[a].leaf
      ensures LeafIn(w[a], m')
    {
      assert LeafIn(ps[a], m);
    }
  }

  /** The greatest key not above `k`, or the least key if all are above. */
  ghost predicate Answer(m: map<Key, Id>, k: Key, a: Key) {
    && a in m
    && if a <= k then forall o | o in m && o <= k :: o <= a else forall o | o in m :: a <= o
  }

  /** In the leaf a search ends in, the slot it follows is the answer for the whole tree. */
  lemma LeafAnswers(ps: Pages, ns: Infos, root: Id, m: map<Key, Id>, p: Id, k: Key)
    requires TreeOk(ps, ns, root) && ContentsOk(ps, ns, m) && p in ns && p in ps && ps[p].leaf
             && InRange(k, ns[p]) && ps[p].ents != []
    ensures var e := ps[p].ents[SlotOf(ps[p].ents, k)]; Answer(m, k, e.key) && m[e.key] == e.val
  {
    var es := ps[p].ents;
    var s := SlotOf(es, k);
    assert PageAt(ps, ns, p) && LeafIn(ps[p], m) && es[s] in es && KeyOk(es, ns[p], s);
    SlotFloor(es, k);
    assert forall i | 0 <= i < |es| :: KeysOf(es)[i] == es[i].key;
    forall o | o in m
      ensures es[s].key <= k && o <= k ==> o <= es[s].key
      ensures es[s].key > k ==> es[s].key <= o
    {
      if InRange(o, ns[p]) {
        var i := KeyInLeaf(ps, ns, root, m, p, o);
      }
    }
  }

  /** A stored key is in the leaf whose interval it lies in. */
  lemma KeyInLeaf(ps: Pages, ns: Infos, root: Id, m: map<Key, Id>, p: Id, o: Key) returns (i: nat)
    requires TreeOk(ps, ns, root) && ContentsOk(ps, ns, m) && p in ns && p in ps && ps[p].leaf
             && InRange(o, ns[p]) && o in m
    ensures i < |ps[p].ents| && ps[p].ents[i].key == o
  {
    var a :| HeldAt(ps, ns, a, Entry(o, m[o]));
    assert PageAt(ps, ns, a) && PageAt(ps, ns, p);
    i :| 0 <= i < |ps[a].ents| && ps[a].ents[i] == Entry(o, m[o]);
    assert KeyOk(ps[a].ents, ns[a], i);
    assert InRange(o, ns[a]) && InRange(o, ns[p]);
  }
}
