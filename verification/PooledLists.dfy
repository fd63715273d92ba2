/**
 `ywPool`: one counted list per thread and one shared list, with blocks of
 nodes moved between a thread's list and the shared one.
 */
module PooledLists {
  import opened Basics
  import opened DList

  type Lists = seq<seq<Node>>

  // ------------------------------------------------------------- specification

  ghost function Min(a: nat, b: nat): nat {
    if a < b then a else b
  }

  /** The first `n` nodes of list `from`, or all of them, put before list `to`. */
  ghost function Moved(ls: Lists, from: nat, to: nat, n: nat): Lists
    requires from < |ls| && to < |ls|
  {
    var k := Min(n, |ls[from]|);
    ls[from := ls[from][k..]][to := ls[from][..k] + ls[to]]
  }

  ghost function Pushed(ls: Lists, i: nat, x: Node): Lists
    requires i < |ls|
  {
    ls[i := [x] + ls[i]]
  }

  /** A push, where the thread gets the lock for the shared list only if `locked`. */
  ghost function AfterPush(ls: Lists, tid: nat, x: Node, locked: bool, private_: nat, threshold: nat): Lists
    requires tid < |ls| - 1
  {
    var shared := |ls| - 1;
    if private_ == 0 then Pushed(ls, shared, x)
    else if |ls[tid]| + 1 > threshold && locked then Moved(Pushed(ls, tid, x), tid, shared, private_)
    else Pushed(ls, tid, x)
  }

  ghost function Popped(ls: Lists, i: nat): (Lists, Option<Node>)
    requires i < |ls|
  {
    if ls[i] == [] then (ls, None) else (ls[i := ls[i][1..]], Some(ls[i][0]))
  }

  ghost function AfterPop(ls: Lists, tid: nat, locked: bool, private_: nat): (Lists, Option<Node>)
    requires tid < |ls| - 1
  {
    var shared := |ls| - 1;
    if private_ == 0 then Popped(ls, shared)
    else if ls[tid] == [] && locked then Popped(Moved(ls, shared, tid, private_), tid)
    else Popped(ls, tid)
  }

  /** Only lists `i` and `j` differ. */
  ghost predicate OnlyTwo(ls: Lists, ls': Lists, i: nat, j: nat) {
    |ls'| == |ls| && forall k | 0 <= k < |ls| && k != i && k != j :: ls'[k] == ls[k]
  }

  /** What a pop is for: nothing only if there was nothing to be had. */
  ghost predicate PopGives(ls: Lists, ls': Lists, tid: nat, locked: bool, private_: nat, r: Option<Node>)
    requires tid < |ls| - 1
  {
    var shared := |ls| - 1;
    && OnlyTwo(ls, ls', tid, shared)
    && (r == None <==> if private_ == 0 then ls[shared] == [] else ls[tid] == [] && (ls[shared] == [] || !locked))
    && (r == None ==> ls' == ls)
    && (r.Some? && private_ == 0 ==> ls[shared] == [r.value] + ls'[shared] && ls'[tid] == ls[tid])
    && (r.Some? && private_ > 0 && ls[tid] != [] ==> ls[tid] == [r.value] + ls'[tid] && ls'[shared] == ls[shared])
    && (r.Some? && private_ > 0 && ls[tid] == [] ==>
          && ls[shared] == [r.value] + ls'[tid] + ls'[shared]
          && |ls'[tid]| + 1 <= private_ && (|ls'[tid]| + 1 < private_ ==> ls'[shared] == []))
  }

  lemma PopGivesRight(ls: Lists, tid: nat, locked: bool, private_: nat)
    requires tid < |ls| - 1
    ensures var p := AfterPop(ls, tid, locked, private_); PopGives(ls, p.0, tid, locked, private_, p.1)
  {
    var shared, p := |ls| - 1, AfterPop(ls, tid, locked, private_);
    if private_ > 0 && ls[tid] == [] && locked {
      var k := Min(private_, |ls[shared]|);
      assert ls[shared][..k] + [] == ls[shared][..k];
      if ls[shared] == [] {
        assert p.0 == ls;
      } else {
        assert ls[shared] == ls[shared][..k] + ls[shared][k..];
        assert ls[shared][..k] == [ls[shared][0]] + ls[shared][..k][1..];
      }
    }
  }

  /** What a push does: the node comes first, and a list that got too long gives its front to the shared one. */
  ghost predicate PushPuts(ls: Lists, ls': Lists, tid: nat, x: Node, locked: bool, private_: nat, threshold: nat)
    requires tid < |ls| - 1
  {
    var shared := |ls| - 1;
    && OnlyTwo(ls, ls', tid, shared)
    && (private_ == 0 ==> ls'[shared] == [x] + ls[shared] && ls'[tid] == ls[tid])
    && (private_ > 0 && (|ls[tid]| < threshold || !locked) ==> ls'[tid] == [x] + ls[tid] && ls'[shared] == ls[shared])
    && (private_ > 0 && |ls[tid]| >= threshold && locked ==> MovesFront(ls, ls', tid, x, private_))
  }

  /** The list with `x` in front gives `private_` nodes from its front, or all it has. */
  ghost predicate MovesFront(ls: Lists, ls': Lists, tid: nat, x: Node, private_: nat)
    requires tid < |ls| - 1 && |ls'| == |ls|
  {
    var shared := |ls| - 1;
    && |ls[shared]| < |ls'[shared]|
    && var front := ls'[shared][..|ls'[shared]| - |ls[shared]|];
       && ls'[shared] == front + ls[shared] && [x] + ls[tid] == front + ls'[tid]
       && |front| <= private_ && (|front| < private_ ==> ls'[tid] == [])
  }

  lemma PushPutsRight(ls: Lists, tid: nat, x: Node, locked: bool, private_: nat, threshold: nat)
    requires tid < |ls| - 1
    ensures PushPuts(ls, AfterPush(ls, tid, x, locked, private_, threshold), tid, x, locked, private_, threshold)
  {
    if private_ > 0 && |ls[tid]| >= threshold && locked {
      var shared, ls' := |ls| - 1, AfterPush(ls, tid, x, locked, private_, threshold);
      var own := [x] + ls[tid];
      var k := Min(private_, |own|);
      assert ls'[shared] == own[..k] + ls[shared] && ls'[tid] == own[k..];
      assert own == own[..k] + own[k..];
      assert ls'[shared][..|ls'[shared]| - |ls[shared]|] == own[..k];
    }
  }

  ghost predicate Ok(m: Links, heads: seq<Node>, ls: Lists) {
    && |heads| == |ls|
    && (forall i | 0 <= i < |ls| :: Ring(m, heads[i], ls[i]))
    && Apart(heads, ls)
  }

  ghost predicate Owns(heads: seq<Node>, ls: Lists, i: nat, x: Node)
    requires |heads| == |ls|
  {
    i < |ls| && (x == heads[i] || x in ls[i])
  }

  ghost predicate Free(heads: seq<Node>, ls: Lists, x: Node)
    requires |heads| == |ls|
  {
    forall i: nat :: !Owns(heads, ls, i, x)
  }

  /** No node is in two slots, be it as a head or as an element. */
  ghost predicate Apart(heads: seq<Node>, ls: Lists)
    requires |heads| == |ls|
  {
    forall i, j, x | Owns(heads, ls, i, x) && Owns(heads, ls, j, x) :: i == j
  }

  lemma PushedOk(m: Links, n: Links, heads: seq<Node>, ls: Lists, i: nat, x: Node)
    requires Ok(m, heads, ls) && i < |ls| && Free(heads, ls, x)
    requires Ring(n, heads[i], [x] + ls[i]) && SameOff(m, n, [heads[i], x] + ls[i])
    ensures Ok(n, heads, Pushed(ls, i, x))
  {
    var new_ := Pushed(ls, i, x);
    forall j | 0 <= j < |ls| && j != i
      ensures Ring(n, heads[j], ls[j])
    {
      assert forall y | y in [heads[j]] + ls[j] :: Owns(heads, ls, j, y);
      forall y | y in [heads[j]] + ls[j]
        ensures y !in [heads[i], x] + ls[i]
      {
        assert Owns(heads, ls, j, y);
        assert !Owns(heads, ls, i, y) && !Owns(heads, ls, j, x);
      }
      SameRing(m, n, heads[j], ls[j]);
    }
    assert forall j: nat, y | Owns(heads, new_, j, y) :: Owns(heads, ls, j, y) || (j == i && y == x);
  }

  lemma PoppedOk(m: Links, n: Links, heads: seq<Node>, ls: Lists, i: nat)
    requires Ok(m, heads, ls) && i < |ls| && ls[i] != []
    requires Ring(n, heads[i], ls[i][1..]) && SameOff(m, n, [heads[i]] + ls[i])
    ensures Ok(n, heads, ls[i := ls[i][1..]])
    ensures Free(heads, ls[i := ls[i][1..]], ls[i][0])
  {
    var new_ := ls[i := ls[i][1..]];
    forall j | 0 <= j < |ls| && j != i
      ensures Ring(n, heads[j], ls[j])
    {
      assert forall y | y in [heads[j]] + ls[j] :: Owns(heads, ls, j, y);
      assert forall y | y in [heads[i]] + ls[i] :: Owns(heads, ls, i, y);
      SameRing(m, n, heads[j], ls[j]);
    }
    assert forall j: nat, y | Owns(heads, new_, j, y) :: Owns(heads, ls, j, y);
    assert ls[i] == [ls[i][0]] + ls[i][1..];
    assert Owns(heads, ls, i, ls[i][0]);
  }

  lemma MovedOk(m: Links, n: Links, heads: seq<Node>, ls: Lists, from: nat, to: nat, k: nat)
    requires Ok(m, heads, ls) && from < |ls| && to < |ls| && from != to && k <= |ls[from]|
    requires Ring(n, heads[to], ls[from][..k] + ls[to]) && Ring(n, heads[from], ls[from][k..])
    requires SameOff(m, n, [heads[to]] + ls[to] + ([heads[from]] + ls[from]))
    ensures Ok(n, heads, Moved(ls, from, to, k))
  {
    var new_ := Moved(ls, from, to, k);
    forall j | 0 <= j < |ls| && j != from && j != to
      ensures Ring(n, heads[j], ls[j])
    {
      assert forall y | y in [heads[j]] + ls[j] :: Owns(heads, ls, j, y);
      assert forall y | y in [heads[from]] + ls[from] :: Owns(heads, ls, from, y);
      assert forall y | y in [heads[to]] + ls[to] :: Owns(heads, ls, to, y);
      SameRing(m, n, heads[j], ls[j]);
    }
    MovedOwners(heads, ls, from, to, k);
  }

  lemma MovedOwners(heads: seq<Node>, ls: Lists, from: nat, to: nat, k: nat)
    requires |heads| == |ls| && Apart(heads, ls) && from < |ls| && to < |ls| && from != to && k <= |ls[from]|
             && NoDuplicates(ls[from])
    requires heads[from] !in ls[from]
    ensures Apart(heads, Moved(ls, from, to, k))
  {
    var new_ := Moved(ls, from, to, k);
    assert ls[from] == ls[from][..k] + ls[from][k..];
    DistinctConcat(ls[from][..k], ls[from][k..]);
    forall j: nat, y | Owns(heads, new_, j, y)
      ensures Owns(heads, ls, j, y) || (j == to && y in ls[from][..k] && Owns(heads, ls, from, y))
      ensures j == from ==> y !in ls[from][..k]
    {
    }
  }

  lemma BringOk(m: Links, heads: seq<Node>, ls: Lists, from: nat, to: nat, k: nat)
    requires Ok(m, heads, ls) && from < |ls| && to < |ls| && from != to && 0 < k <= |ls[from]|
    ensures heads[to] in m.next && ls[from][0] in m.prev && ls[from][k - 1] in m.next
    ensures Ok(BringLinks(m, heads[to], ls[from][0], ls[from][k - 1]), heads, Moved(ls, from, to, k))
  {
    var seg, rest := ls[from][..k], ls[from][k..];
    assert seg + rest == ls[from] && seg[0] == ls[from][0] && seg[k - 1] == ls[from][k - 1];
    SlotsDisjoint(heads, ls, to, from);
    BringRings(m, heads[to], ls[to], heads[from], seg, rest);
    BringElsewhere(m, heads[to], ls[to], heads[from], seg, rest);
    MovedOk(m, BringLinks(m, heads[to], ls[from][0], ls[from][k - 1]), heads, ls, from, to, k);
  }

  lemma SlotsDisjoint(heads: seq<Node>, ls: Lists, i: nat, j: nat)
    requires |heads| == |ls| && Apart(heads, ls) && i < |ls| && j < |ls| && i != j
    ensures Disjoint([heads[i]] + ls[i], [heads[j]] + ls[j])
  {
    forall x | x in [heads[i]] + ls[i]
      ensures x !in [heads[j]] + ls[j]
    {
      assert Owns(heads, ls, i, x);
      assert !Owns(heads, ls, j, x);
    }
  }

  lemma RingStep(m: Links, h: Node, s: seq<Node>, i: nat)
    requires Ring(m, h, s) && i <= |s|
    ensures ([h] + s)[i] in m.next && m.next[([h] + s)[i]] == (s + [h])[i]
    ensures h in m.prev && (([h] + s)[i] == m.prev[h] <==> i == |s|)
    ensures (s + [h])[i] == h <==> i == |s|
  {
    var a, b := [h] + s[..i], s[i..] + [h];
    assert [h] + (s + [h]) == a + b;
    ChainConcat(m, a, b);
    RingEnds(m, h, s);
    DistinctConcat([h], s);
    assert [h] + s == ([h] + s)[..|s|] + [([h] + s)[|s|]];
    NotBefore([h] + s);
    assert i < |s| ==> ([h] + s)[i] in ([h] + s)[..|s|];
  }

  // ---------------------------------------------------------- one slot, one pool

  class Pool {
    const privateCount: nat
    const sharingThreshold: nat
    const shared: nat
    const heads: seq<Node>
    const store: Store
    var counts: seq<nat>
    ghost var lists: Lists

    ghost predicate Valid()
      reads this, store
    {
      && privateCount <= sharingThreshold
      && |heads| == shared + 1
      && Ok(store.links, heads, lists)
      && |counts| == |lists|
      && forall i | 0 <= i < |lists| :: counts[i] == |lists[i]|
    }

    /** Every slot starts as a head linked to itself; the heads are nodes 0 to `threads`. */
    constructor (threads: nat, privateCount: nat, sharingThreshold: nat)
      requires privateCount <= sharingThreshold
      ensures Valid() && fresh(store) && shared == threads && lists == seq(threads + 1, i => [])
      ensures this.privateCount == privateCount && this.sharingThreshold == sharingThreshold
      ensures heads == seq(threads + 1, i => i)
    {
      this.privateCount, this.sharingThreshold, shared := privateCount, sharingThreshold, threads;
      var hs := seq(threads + 1, i => i);
      heads := hs;
      counts := seq(threads + 1, i => 0);
      lists := seq(threads + 1, i => []);
      var self := map h | h in hs :: h;
      var s := new Store(Links(self, self));
      store := s;
      new;
      forall i | 0 <= i <= threads
        ensures Ring(store.links, heads[i], lists[i])
      {
        assert heads[i] in hs;
        RingParts(store.links, heads[i], []);
      }
    }

    method PushSlot(i: nat, x: Node)
      requires Valid() && i < |heads| && Free(heads, lists, x)
      modifies this, store
      ensures Valid() && lists == Pushed(old(lists), i, x)
    {
      assert !Owns(heads, lists, i, x);
      store.Attach(heads[i], x, lists[i]);
      PushedOk(old(store.links), store.links, heads, lists, i, x);
      counts := counts[i := counts[i] + 1];
      lists := Pushed(lists, i, x);
    }

    method PopSlot(i: nat) returns (r: Option<Node>)
      requires Valid() && i < |heads|
      modifies this, store
      ensures Valid()
      ensures old(lists[i]) == [] ==> r == None && lists == old(lists)
      ensures old(lists[i]) != [] ==>
                r == Some(old(lists[i][0])) && lists == old(lists)[i := old(lists[i])[1..]]
                && Free(heads, lists, r.value)
    {
      r := store.Pop(heads[i], lists[i]);
      if r.Some? {
        PoppedOk(old(store.links), store.links, heads, lists, i);
        counts := counts[i := counts[i] - 1];
        lists := lists[i := lists[i][1..]];
      }
    }

    /** Walks the list as the assertion in the code does: it always finds the recorded number of nodes. */
    method Validation(i: nat) returns (n: nat)
      requires Valid() && i < |heads|
      ensures n == counts[i]
    {
      var h := heads[i];
      ghost var s := lists[i];
      RingStep(store.links, h, s, 0);
      var iter := store.links.next[h];
      n := 0;
      while iter != h
        invariant n <= |s| && iter == (s + [h])[n] && (iter == h <==> n == |s|)
        decreases |s| - n
      {
        n := n + 1;
        RingStep(store.links, h, s, n);
        iter := store.links.next[iter];
      }
    }

    /** The last of the first `n` nodes of list `i`, and how many there are. */
    method Tail(i: nat, n: nat) returns (tail: Node, k: nat)
      requires Valid() && i < |heads|
      ensures k == Min(n, |lists[i]|) && tail == ([heads[i]] + lists[i])[k]
    {
      var h := heads[i];
      ghost var s := lists[i];
      tail, k := h, 0;
      RingStep(store.links, h, s, 0);
      while k < n && tail != store.links.prev[h]
        invariant k <= n && k <= |s| && tail == ([h] + s)[k] && h in store.links.prev
        invariant tail == store.links.prev[h] <==> k == |s|
      {
        RingStep(store.links, h, s, k);
        tail := store.links.next[tail];
        k := k + 1;
        RingStep(store.links, h, s, k);
      }
    }

    /** Brings the nodes up to `tail`, of which there are `k`, from the front of one slot to another. */
    method BringSlot(to: nat, from: nat, head: Node, tail: Node, k: nat)
      requires Valid() && from < |heads| && to < |heads| && from != to && k <= |lists[from]|
      requires k > 0 ==> head == lists[from][0] && tail == lists[from][k - 1]
      modifies this, store
      ensures Valid() && lists == Moved(old(lists), from, to, k)
    {
      if k > 0 {
        BringOk(store.links, heads, lists, from, to, k);
        store.BringSegment(heads[to], head, tail);
        counts := counts[to := counts[to] + k];
        counts := counts[from := counts[from] - k];
        lists := Moved(lists, from, to, k);
      } else {
        assert lists[from][..0] + lists[to] == lists[to] && lists[from][0..] == lists[from];
      }
    }

    /** The loop of `bring` and of `move_to_shared_area`, and the splice that follows it. */
    method BringFirst(to: nat, from: nat, n: nat)
      requires Valid() && from < |heads| && to < |heads| && from != to
      modifies this, store
      ensures Valid() && lists == Moved(old(lists), from, to, n)
    {
      RingEnds(store.links, heads[from], lists[from]);
      var head := store.links.next[heads[from]];
      var tail, k := Tail(from, n);
      BringSlot(to, from, head, tail, k);
    }

    /** A thread that fails to take the lock leaves its nodes where they are. */
    method MoveToShared(tid: nat, locked: bool)
      requires Valid() && tid < shared
      modifies this, store
      ensures Valid() && lists == if locked then Moved(old(lists), tid, shared, privateCount) else old(lists)
    {
      if locked {
        BringFirst(shared, tid, privateCount);
      }
    }

    method BringFromShared(tid: nat, locked: bool) returns (ok: bool)
      requires Valid() && tid < shared
      modifies this, store
      ensures Valid() && ok == locked
      ensures lists == if locked then Moved(old(lists), shared, tid, privateCount) else old(lists)
    {
      if locked {
        BringFirst(tid, shared, privateCount);
      }
      return locked;
    }

    method Push(tid: nat, x: Node, locked: bool)
      requires Valid() && tid < shared && Free(heads, lists, x)
      modifies this, store
      ensures Valid() && lists == AfterPush(old(lists), tid, x, locked, privateCount, sharingThreshold)
      ensures |old(lists)| == shared + 1
      ensures PushPuts(old(lists), lists, tid, x, locked, privateCount, sharingThreshold)
    {
      PushPutsRight(lists, tid, x, locked, privateCount, sharingThreshold);
      if privateCount == 0 {
        PushSlot(shared, x);
      } else {
        PushSlot(tid, x);
        if counts[tid] > sharingThreshold {
          MoveToShared(tid, locked);
        }
      }
    }

    method Pop(tid: nat, locked: bool) returns (r: Option<Node>)
      requires Valid() && tid < shared
      modifies this, store
      ensures Valid() && (lists, r) == AfterPop(old(lists), tid, locked, privateCount)
      ensures |old(lists)| == shared + 1 && PopGives(old(lists), lists, tid, locked, privateCount, r)
      ensures r.Some? ==> Free(heads, lists, r.value)
    {
      PopGivesRight(lists, tid, locked, privateCount);
      if privateCount == 0 {
        r := PopSlot(shared);
      } else {
        r := PopSlot(tid);
        if r == None {
          var ok := BringFromShared(tid, locked);
          if ok {
            r := PopSlot(tid);
          }
        }
      }
    }
  }
}
