/**
 The intrusive circular doubly linked list of `ywDList`. A list is a head node
 and the nodes reachable from it; the nodes' two pointers live in one store that
 every operation updates.
 */
module DList {
  import opened Basics

  type Node = nat

  datatype Links = Links(next: map<Node, Node>, prev: map<Node, Node>)

  predicate Linked(m: Links, a: Node, b: Node) {
    a in m.next && m.next[a] == b && b in m.prev && m.prev[b] == a
  }

  /** Neighbours in `s` point at each other. */
  predicate Chain(m: Links, s: seq<Node>)
    decreases s
  {
    |s| < 2 || (Linked(m, s[0], s[1]) && Chain(m, s[1..]))
  }

  predicate Disjoint(a: seq<Node>, b: seq<Node>) {
    forall x | x in a :: x !in b
  }

  /** From the head `h` the links lead through exactly the nodes of `s` and back, both ways. */
  predicate Ring(m: Links, h: Node, s: seq<Node>) {
    h !in s && NoDuplicates(s) && Chain(m, [h] + (s + [h]))
  }

  ghost predicate SameAt(m: Links, n: Links, x: Node) {
    && (x in m.next <==> x in n.next) && (x in m.prev <==> x in n.prev)
    && (x in m.next ==> m.next[x] == n.next[x]) && (x in m.prev ==> m.prev[x] == n.prev[x])
  }

  /** The two stores hold the same pointers in the nodes of `s`. */
  ghost predicate SameOn(m: Links, n: Links, s: seq<Node>) {
    forall x | x in s :: SameAt(m, n, x)
  }

  /** The two stores differ at most in the nodes of `s`. */
  ghost predicate SameOff(m: Links, n: Links, s: seq<Node>) {
    forall x: Node | x !in s :: SameAt(m, n, x)
  }

  function WithLink(m: Links, a: Node, b: Node): Links {
    Links(m.next[a := b], m.prev[b := a])
  }

  lemma {:induction false} ChainConcat(m: Links, a: seq<Node>, b: seq<Node>)
    requires a != [] && b != []
    ensures Chain(m, a + b) <==> Chain(m, a) && Chain(m, b) && Linked(m, a[|a| - 1], b[0])
    decreases a
  {
    assert (a + b)[1..] == a[1..] + b;
    if |a| > 1 { ChainConcat(m, a[1..], b); }
  }

  lemma DistinctConcat(a: seq<Node>, b: seq<Node>)
    ensures NoDuplicates(a + b) <==> NoDuplicates(a) && NoDuplicates(b) && Disjoint(a, b)
  {
    var c := a + b;
    if NoDuplicates(c) {
      assert forall i | 0 <= i < |a| :: c[i] == a[i];
      forall i, j | 0 <= i < j < |b|
        ensures b[i] != b[j]
      {
        assert c[|a| + i] != c[|a| + j];
      }
      forall i, j | 0 <= i < |a| && 0 <= j < |b|
        ensures a[i] != b[j]
      {
        assert c[i] != c[|a| + j];
      }
    }
    if NoDuplicates(a) && NoDuplicates(b) && Disjoint(a, b) {
      forall i, j | 0 <= i < j < |c|
        ensures c[i] != c[j]
      {
        assert i < |a| ==> c[i] in a;
        assert j >= |a| ==> c[j] in b;
      }
    }
  }

  /** A link from the end of a chain, or to its start, does not disturb it. */
  lemma {:induction false} LinkKeepsChain(m: Links, a: Node, b: Node, s: seq<Node>)
    requires Chain(m, s) && s != [] && a !in s[..|s| - 1] && b !in s[1..]
    ensures Chain(WithLink(m, a, b), s)
    decreases s
  {
    if |s| > 1 {
      assert s[1..][..|s| - 2] == s[..|s| - 1][1..];
      assert s[0] == s[..|s| - 1][0] && s[1] == s[1..][0];
      LinkKeepsChain(m, a, b, s[1..]);
    }
  }

  lemma {:induction false} SameChain(m: Links, n: Links, s: seq<Node>)
    requires Chain(m, s) && SameOn(m, n, s)
    ensures Chain(n, s)
    decreases s
  {
    if |s| > 1 {
      assert s[0] in s && s[1] in s;
      SameChain(m, n, s[1..]);
    }
  }

  lemma SameRing(m: Links, n: Links, h: Node, s: seq<Node>)
    requires Ring(m, h, s) && SameOn(m, n, [h] + s)
    ensures Ring(n, h, s)
  {
    SameChain(m, n, [h] + (s + [h]));
  }

  lemma RingParts(m: Links, h: Node, s: seq<Node>)
    ensures Ring(m, h, s) <==> h !in s && NoDuplicates(s) && Linked(m, h, (s + [h])[0]) && Chain(m, s + [h])
  {
    ChainConcat(m, [h], s + [h]);
  }

  lemma RingEnds(m: Links, h: Node, s: seq<Node>)
    requires Ring(m, h, s)
    ensures h in m.next && m.next[h] == (s + [h])[0] && h in m.prev && m.prev[h] == ([h] + s)[|s|]
  {
    assert [h] + (s + [h]) == ([h] + s) + [h];
    ChainConcat(m, [h] + s, [h]);
    ChainConcat(m, [h], s + [h]);
  }

  function AttachLinks(m: Links, h: Node, target: Node): Links
    requires h in m.next
  {
    WithLink(WithLink(m, target, m.next[h]), h, target)
  }

  lemma AttachRing(m: Links, h: Node, s: seq<Node>, target: Node)
    requires Ring(m, h, s) && target != h && target !in s
    ensures h in m.next && Ring(AttachLinks(m, h, target), h, [target] + s)
  {
    RingParts(m, h, s);
    AttachChain(m, h, s, target);
    DistinctConcat([target], s);
    assert [target] + (s + [h]) == ([target] + s) + [h];
    RingParts(AttachLinks(m, h, target), h, [target] + s);
  }

  lemma AttachChain(m: Links, h: Node, s: seq<Node>, target: Node)
    requires target != h && target !in s && h !in s && NoDuplicates(s)
    requires Chain(m, s + [h]) && h in m.next && m.next[h] == (s + [h])[0]
    ensures Chain(AttachLinks(m, h, target), [target] + (s + [h])) && Linked(AttachLinks(m, h, target), h, target)
  {
    var rest := s + [h];
    var m1 := WithLink(m, target, m.next[h]);
    LinkKeepsChain(m, target, rest[0], rest);
    ChainConcat(m1, [target], rest);
    LinkKeepsChain(m1, h, target, [target] + rest);
  }

  function DetachLinks(m: Links, n: Node): Links
    requires n in m.next && n in m.prev
  {
    WithLink(m, m.prev[n], m.next[n])
  }

  lemma DetachRing(m: Links, h: Node, a: seq<Node>, n: Node, b: seq<Node>)
    requires Ring(m, h, a + ([n] + b))
    ensures n in m.next && n in m.prev && n !in a && n !in b && Ring(DetachLinks(m, n), h, a + b)
    ensures m.prev[n] == ([h] + a)[|a|] && m.next[n] == (b + [h])[0]
  {
    assert [h] + (a + ([n] + b) + [h]) == ([h] + a) + ([n] + (b + [h]));
    assert [h] + (a + b + [h]) == ([h] + a) + (b + [h]);
    DistinctConcat(a, [n] + b);
    DistinctConcat([n], b);
    DistinctConcat(a, b);
    ChainConcat(m, [h] + a, [n] + (b + [h]));
    ChainConcat(m, [n], b + [h]);
    DetachChain(m, h, a, n, b);
  }

  lemma DetachChain(m: Links, h: Node, a: seq<Node>, n: Node, b: seq<Node>)
    requires h !in a && h !in b && NoDuplicates(a) && NoDuplicates(b) && Disjoint(a, b)
    requires Chain(m, [h] + a) && Chain(m, b + [h])
    requires n in m.next && n in m.prev && m.prev[n] == ([h] + a)[|a|] && m.next[n] == (b + [h])[0]
    ensures Chain(DetachLinks(m, n), ([h] + a) + (b + [h]))
  {
    var before, after := ([h] + a)[|a|], (b + [h])[0];
    DistinctConcat([h], a);
    DistinctConcat(b, [h]);
    NotBefore([h] + a);
    LinkKeepsChain(m, before, after, [h] + a);
    LinkKeepsChain(m, before, after, b + [h]);
    ChainConcat(DetachLinks(m, n), [h] + a, b + [h]);
  }

  lemma NotBefore(s: seq<Node>)
    requires s != [] && NoDuplicates(s)
    ensures s[|s| - 1] !in s[..|s| - 1]
  {
    assert s == s[..|s| - 1] + [s[|s| - 1]];
    DistinctConcat(s[..|s| - 1], [s[|s| - 1]]);
  }

  function BringLinks(m: Links, h: Node, head: Node, tail: Node): Links
    requires h in m.next && head in m.prev && tail in m.next
  {
    WithLink(WithLink(WithLink(m, tail, m.next[h]), h, head), m.prev[head], m.next[tail])
  }

  /** Linking the last node of a chain back to the first does not disturb it. */
  lemma LinkAround(m: Links, c: seq<Node>)
    requires Chain(m, c) && NoDuplicates(c) && c != []
    ensures Chain(WithLink(m, c[|c| - 1], c[0]), c)
  {
    NotBefore(c);
    LinkKeepsChain(m, c[|c| - 1], c[0], c);
  }

  lemma BringHome(m: Links, h: Node, mine: seq<Node>, seg: seq<Node>)
    requires seg != [] && mine != [] && mine[|mine| - 1] == h
    requires Chain(m, mine) && Chain(m, seg) && h in m.next && m.next[h] == mine[0]
    requires NoDuplicates(mine) && NoDuplicates(seg) && Disjoint(seg, mine)
    requires seg[0] in m.prev && seg[|seg| - 1] in m.next
    requires m.prev[seg[0]] !in seg + mine && m.next[seg[|seg| - 1]] !in seg + mine
    ensures var n := BringLinks(m, h, seg[0], seg[|seg| - 1]); Linked(n, h, seg[0]) && Chain(n, seg + mine)
  {
    var tail := seg[|seg| - 1];
    var m1 := WithLink(m, tail, mine[0]);
    var m2 := WithLink(m1, h, seg[0]);
    NotBefore(seg);
    assert tail in seg && mine[0] in mine;
    LinkKeepsChain(m, tail, mine[0], mine);
    LinkKeepsChain(m, tail, mine[0], seg);
    ChainConcat(m1, seg, mine);
    DistinctConcat(seg, mine);
    LinkAround(m1, seg + mine);
    LinkKeepsChain(m2, m.prev[seg[0]], m.next[tail], seg + mine);
    assert h in seg + mine && seg[0] in seg + mine;
  }

  lemma BringAway(m: Links, h: Node, g: Node, head: Node, tail: Node, rest: seq<Node>)
    requires Chain(m, rest + [g]) && NoDuplicates(rest + [g]) && h in m.next && m.next[h] !in rest + [g]
    requires head in m.prev && m.prev[head] == g && tail in m.next && m.next[tail] == (rest + [g])[0]
    requires h !in rest + [g] && head !in rest + [g] && tail !in rest + [g]
    ensures var n := BringLinks(m, h, head, tail); Linked(n, g, (rest + [g])[0]) && Chain(n, rest + [g])
  {
    var back := rest + [g];
    var m1 := WithLink(m, tail, m.next[h]);
    NotBefore(back);
    LinkKeepsChain(m, tail, m.next[h], back);
    LinkKeepsChain(m1, h, head, back);
    LinkKeepsChain(WithLink(m1, h, head), g, back[0], back);
  }

  lemma BringRings(m: Links, h: Node, s: seq<Node>, g: Node, seg: seq<Node>, rest: seq<Node>)
    requires Ring(m, h, s) && Ring(m, g, seg + rest) && Disjoint([h] + s, [g] + (seg + rest)) && seg != []
    ensures h in m.next && seg[0] in m.prev && seg[|seg| - 1] in m.next
    ensures m.next[h] in s + [h] && m.prev[seg[0]] == g && m.next[seg[|seg| - 1]] in rest + [g]
    ensures Ring(BringLinks(m, h, seg[0], seg[|seg| - 1]), h, seg + s)
    ensures Ring(BringLinks(m, h, seg[0], seg[|seg| - 1]), g, rest)
  {
    var mine, back := s + [h], rest + [g];
    SegmentParts(m, h, s, g, seg, rest);
    Separate(h, s, g, seg, rest);
    var n := BringLinks(m, h, seg[0], seg[|seg| - 1]);
    BringHome(m, h, mine, seg);
    BringAway(m, h, g, seg[0], seg[|seg| - 1], rest);
    assert seg + s + [h] == seg + mine;
    RingParts(n, h, seg + s);
    RingParts(n, g, rest);
  }

  lemma BringElsewhere(m: Links, h: Node, s: seq<Node>, g: Node, seg: seq<Node>, rest: seq<Node>)
    requires Ring(m, h, s) && Ring(m, g, seg + rest) && seg != []
    ensures h in m.next && seg[0] in m.prev && seg[|seg| - 1] in m.next
    ensures SameOff(m, BringLinks(m, h, seg[0], seg[|seg| - 1]), [h] + s + ([g] + (seg + rest)))
  {
    SegmentParts(m, h, s, g, seg, rest);
    assert (s + [h])[0] in s + [h] && (rest + [g])[0] in rest + [g];
    BringOff(m, h, seg[0], seg[|seg| - 1], [h] + s + ([g] + (seg + rest)));
  }

  lemma BringOff(m: Links, h: Node, head: Node, tail: Node, t: seq<Node>)
    requires h in m.next && head in m.prev && tail in m.next
    requires h in t && head in t && tail in t && m.next[h] in t && m.prev[head] in t && m.next[tail] in t
    ensures SameOff(m, BringLinks(m, h, head, tail), t)
  {
  }

  lemma SegmentParts(m: Links, h: Node, s: seq<Node>, g: Node, seg: seq<Node>, rest: seq<Node>)
    requires Ring(m, h, s) && Ring(m, g, seg + rest) && seg != []
    ensures Chain(m, s + [h]) && Linked(m, h, (s + [h])[0])
    ensures Chain(m, seg) && Linked(m, g, seg[0])
    ensures Chain(m, rest + [g]) && Linked(m, seg[|seg| - 1], (rest + [g])[0])
  {
    assert seg + rest + [g] == seg + (rest + [g]);
    RingParts(m, h, s);
    RingParts(m, g, seg + rest);
    ChainConcat(m, seg, rest + [g]);
  }

  lemma Separate(h: Node, s: seq<Node>, g: Node, seg: seq<Node>, rest: seq<Node>)
    requires h !in s && NoDuplicates(s) && g !in seg + rest && NoDuplicates(seg + rest)
    requires Disjoint([h] + s, [g] + (seg + rest))
    ensures NoDuplicates(s + [h]) && NoDuplicates(seg) && NoDuplicates(rest + [g]) && NoDuplicates(rest)
    ensures Disjoint(seg, s + [h]) && Disjoint(seg + (s + [h]), rest + [g]) && Disjoint(rest + [g], seg + (s + [h]))
    ensures NoDuplicates(seg + s) && h !in seg + s
  {
    DistinctConcat(seg, rest);
    Pieces(h, s, g, seg, rest);
    DistinctConcat(s, [h]);
    DistinctConcat(rest, [g]);
    DistinctConcat(seg, s);
  }

  lemma Pieces(h: Node, s: seq<Node>, g: Node, seg: seq<Node>, rest: seq<Node>)
    requires g !in seg && Disjoint(seg, rest) && Disjoint([h] + s, [g] + (seg + rest))
    ensures Disjoint(seg, s) && Disjoint(seg, s + [h]) && h !in seg
    ensures Disjoint(seg + (s + [h]), rest + [g]) && Disjoint(rest + [g], seg + (s + [h]))
  {
    forall x | x in s + [h]
      ensures x !in seg && x !in rest && x != g
    {
      assert x in [h] + s;
      assert x !in [g] + (seg + rest);
    }
    assert forall x | x in s :: x in s + [h];
    assert h in s + [h];
  }

  /** Bringing an empty list leaves a head from which no list can be followed back. */
  lemma BringEmpty(m: Links, h: Node, s: seq<Node>, g: Node, t: seq<Node>)
    requires Ring(m, h, s) && Ring(m, g, []) && g != h
    ensures h in m.next && g in m.next && m.next[g] == g && g in m.prev && m.prev[g] == g && m.next[h] in s + [h]
    ensures Ring(BringLinks(m, h, g, g), g, []) && !Ring(BringLinks(m, h, g, g), h, t)
  {
    RingParts(m, h, s);
    RingParts(m, g, []);
    assert ([] + [g])[0] == g;
    var n := BringLinks(m, h, g, g);
    RingParts(n, h, t);
    RingParts(n, g, []);
  }

  class Store {
    var links: Links

    constructor (links: Links)
      ensures this.links == links
    {
      this.links := links;
    }

    method Link(a: Node, b: Node)
      modifies this
      ensures links == WithLink(old(links), a, b)
    {
      links := Links(links.next[a := b], links.prev[b := a]);
    }

    method Attach(h: Node, target: Node, ghost s: seq<Node>)
      requires Ring(links, h, s) && target != h && target !in s
      modifies this
      ensures Ring(links, h, [target] + s) && SameOff(old(links), links, [h, target] + s)
    {
      AttachRing(links, h, s, target);
      RingParts(links, h, s);
      Link(target, links.next[h]);
      Link(h, target);
    }

    method Detach(n: Node, ghost h: Node, ghost a: seq<Node>, ghost b: seq<Node>)
      requires Ring(links, h, a + ([n] + b))
      modifies this
      ensures Ring(links, h, a + b) && SameOff(old(links), links, [h] + a + b)
    {
      DetachRing(links, h, a, n, b);
      Link(links.prev[n], links.next[n]);
    }

    method Pop(h: Node, ghost s: seq<Node>) returns (r: Option<Node>)
      requires Ring(links, h, s)
      modifies this
      ensures SameOff(old(links), links, [h] + s)
      ensures s == [] ==> r == None && links == old(links)
      ensures s != [] ==> r == Some(s[0]) && Ring(links, h, s[1..])
    {
      RingParts(links, h, s);
      var first := links.next[h];
      if first == h {
        return None;
      }
      assert s == [] + ([s[0]] + s[1..]) && [] + s[1..] == s[1..];
      Detach(first, h, [], s[1..]);
      return Some(first);
    }

    method BringSegment(h: Node, head: Node, tail: Node)
      requires h in links.next && head in links.prev && tail in links.next
      modifies this
      ensures links == BringLinks(old(links), h, head, tail)
    {
      var beforeHead := links.prev[head];
      var afterTail := links.next[tail];
      Link(tail, links.next[h]);
      Link(h, head);
      Link(beforeHead, afterTail);
    }

    /** The whole list at `g` goes to the front of the list at `h`, which works exactly when there is one. */
    method Bring(h: Node, g: Node, ghost s: seq<Node>, ghost q: seq<Node>)
      requires Ring(links, h, s) && Ring(links, g, q) && Disjoint([h] + s, [g] + q)
      modifies this
      ensures SameOff(old(links), links, [h] + s + ([g] + q)) && Ring(links, g, [])
      ensures q != [] ==> Ring(links, h, q + s)
      ensures q == [] ==> forall t :: !Ring(links, h, t)
    {
      RingEnds(links, g, q);
      assert h in [h] + s && g in [g] + q;
      if q == [] {
        forall t
          ensures !Ring(BringLinks(links, h, g, g), h, t)
        {
          BringEmpty(links, h, s, g, t);
        }
        BringEmpty(links, h, s, g, []);
      } else {
        assert q + [] == q;
        BringRings(links, h, s, g, q, []);
      }
      BringSegment(h, links.next[g], links.prev[g]);
    }
  }
}
