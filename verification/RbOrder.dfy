/** Search order: sorted sequences of bindings and the finite maps they stand for. */
module RbOrder {
  import opened RbShape

  type Bindings = seq<(Key, Data)>

  ghost predicate Sorted(s: Bindings) {
    forall i, j | 0 <= i < j < |s| :: s[i].0 < s[j].0
  }

  ghost predicate AllBelow(s: Bindings, k: Key) {
    forall i | 0 <= i < |s| :: s[i].0 < k
  }

  ghost predicate AllAbove(s: Bindings, k: Key) {
    forall i | 0 <= i < |s| :: k < s[i].0
  }

  ghost function MapOf(s: Bindings): map<Key, Data> {
    if s == [] then map[] else MapOf(s[..|s| - 1])[s[|s| - 1].0 := s[|s| - 1].1]
  }

  lemma {:induction false} MapOfConcat(a: Bindings, b: Bindings)
    ensures MapOf(a + b) == MapOf(a) + MapOf(b)
  {
    if b == [] {
      assert a + b == a;
    } else {
      MapOfConcat(a, b[..|b| - 1]);
      assert (a + b)[..|a + b| - 1] == a + b[..|b| - 1];
    }
  }

  lemma {:induction false} MapOfKeys(s: Bindings, k: Key)
    ensures k in MapOf(s) <==> exists i :: 0 <= i < |s| && s[i].0 == k
  {
    if s != [] {
      MapOfKeys(s[..|s| - 1], k);
    }
  }

  /** A binding at its place in a sorted sequence. */
  lemma MapOfMiddle(a: Bindings, k: Key, d: Data, b: Bindings)
    requires AllBelow(a, k) && AllAbove(b, k)
    ensures MapOf(a + [(k, d)] + b) == MapOf(a + b)[k := d]
    ensures k !in MapOf(a + b)
  {
    MapOfConcat(a, b);
    MapOfConcat(a, [(k, d)]);
    MapOfConcat(a + [(k, d)], b);
    MapOfKeys(a, k);
    MapOfKeys(b, k);
    assert MapOf([(k, d)]) == map[k := d];
  }

  lemma SortedMiddle(a: Bindings, k: Key, d: Data, b: Bindings)
    ensures Sorted(a + [(k, d)] + b) <==> Sorted(a + b) && AllBelow(a, k) && AllAbove(b, k)
  {
    var s := a + [(k, d)] + b;
    assert s[|a|] == (k, d);
    if Sorted(s) {
      assert forall i | 0 <= i < |a| :: (a + b)[i] == s[i];
      assert forall i | |a| <= i < |a| + |b| :: (a + b)[i] == s[i + 1];
      assert forall i | 0 <= i < |a| :: a[i] == s[i];
      assert forall i | 0 <= i < |b| :: b[i] == s[|a| + 1 + i];
    } else if Sorted(a + b) && AllBelow(a, k) && AllAbove(b, k) {
      forall i, j | 0 <= i < j < |s|
        ensures s[i].0 < s[j].0
      {
        assert i < |a| ==> s[i] == (a + b)[i] && s[i] == a[i];
        assert j > |a| ==> s[j] == (a + b)[j - 1] && s[j] == b[j - |a| - 1];
        assert i > |a| ==> s[i] == (a + b)[i - 1];
        assert j < |a| ==> s[j] == (a + b)[j];
      }
    }
  }

  // ------------------------------------------------------- sorted shapes

  /** Everything around the hole lies on the proper side of `k`. */
  ghost predicate Surrounds(c: Ctx, k: Key) {
    AllBelow(Before(c), k) && AllAbove(After(c), k)
  }

  /** The bindings of a tree around one of its nodes. */
  lemma AroundNode(c: Ctx, t: Tree)
    requires t.Br?
    ensures InOrder(Fill(c, t)) == (Before(c) + InOrder(t.l)) + [(t.x.k, t.x.d)] + (InOrder(t.r) + After(c))
  {
    FillInOrder(c, t);
  }

  lemma Bounded(a: Bindings, b: Bindings, k: Key)
    ensures AllBelow(a, k) && AllBelow(b, k) ==> AllBelow(a + b, k)
    ensures AllAbove(a, k) && AllAbove(b, k) ==> AllAbove(a + b, k)
  {
  }

  /** One step of the search keeps the key between what lies left and right of the path. */
  lemma SearchStep(c: Ctx, t: Tree, k: Key)
    requires t.Br? && t.x.k != k && Surrounds(c, k) && Sorted(InOrder(Fill(c, t)))
    ensures var s := if t.x.k < k then Right else Left; Surrounds(Up(s, t.x, Kid(t, Opp(s)), c), k)
  {
    AroundNode(c, t);
    var a, b := Before(c) + InOrder(t.l), InOrder(t.r) + After(c);
    SortedMiddle(a, t.x.k, t.x.d, b);
    if t.x.k < k {
      var c' := Up(Right, t.x, t.l, c);
      assert Before(c') == a + [(t.x.k, t.x.d)] && After(c') == After(c);
      Bounded(a, [(t.x.k, t.x.d)], k);
    } else {
      var c' := Up(Left, t.x, t.r, c);
      assert After(c') == [(t.x.k, t.x.d)] + b && Before(c') == Before(c);
      Bounded([(t.x.k, t.x.d)], b, k);
    }
  }

  /** The contents of a tree seen from one of its nodes. */
  lemma MapOfNode(c: Ctx, t: Tree)
    requires t.Br? && Sorted(InOrder(Fill(c, t)))
    ensures t.x.k in MapOf(InOrder(Fill(c, t))) && MapOf(InOrder(Fill(c, t)))[t.x.k] == t.x.d
  {
    AroundNode(c, t);
    SortedMiddle(Before(c) + InOrder(t.l), t.x.k, t.x.d, InOrder(t.r) + After(c));
    MapOfMiddle(Before(c) + InOrder(t.l), t.x.k, t.x.d, InOrder(t.r) + After(c));
  }

  /** ... and from the place where a key is missing. */
  lemma MapOfGap(c: Ctx, x: Cell)
    requires Surrounds(c, x.k) && Sorted(InOrder(Fill(c, Leaf)))
    ensures x.k !in MapOf(InOrder(Fill(c, Leaf)))
    ensures Sorted(InOrder(Fill(c, Br(x, Leaf, Leaf))))
    ensures MapOf(InOrder(Fill(c, Br(x, Leaf, Leaf)))) == MapOf(InOrder(Fill(c, Leaf)))[x.k := x.d]
  {
    GapOrder(c, x);
    SortedMiddle(Before(c), x.k, x.d, After(c));
    MapOfMiddle(Before(c), x.k, x.d, After(c));
  }

  lemma GapOrder(c: Ctx, x: Cell)
    ensures InOrder(Fill(c, Leaf)) == Before(c) + After(c)
    ensures InOrder(Fill(c, Br(x, Leaf, Leaf))) == Before(c) + [(x.k, x.d)] + After(c)
  {
    FillInOrder(c, Leaf);
    FillInOrder(c, Br(x, Leaf, Leaf));
    assert Before(c) + [] == Before(c);
    assert InOrder(Br(x, Leaf, Leaf)) == [(x.k, x.d)];
  }

  // ------------------------------------------------------------------- removal

  /** Taking one binding out. */
  lemma MapOfWithout(a: Bindings, k: Key, d: Data, b: Bindings)
    requires Sorted(a + [(k, d)] + b)
    ensures Sorted(a + b) && MapOf(a + b) == MapOf(a + [(k, d)] + b) - {k}
  {
    SortedMiddle(a, k, d, b);
    MapOfMiddle(a, k, d, b);
  }

  /** Taking a binding out whose predecessor's key ends up with its data. */
  lemma MapOfPredecessor(a: Bindings, pk: Key, pd: Data, k: Key, d: Data, b: Bindings)
    requires Sorted((a + [(pk, pd)]) + [(k, d)] + b)
    ensures pk != k && Sorted(a + [(pk, d)] + b)
    ensures pk in MapOf((a + [(pk, pd)]) + [(k, d)] + b) && MapOf((a + [(pk, pd)]) + [(k, d)] + b)[pk] == pd
    ensures MapOf(a + [(pk, d)] + b) == (MapOf((a + [(pk, pd)]) + [(k, d)] + b) - {k})[pk := d]
  {
    var whole := (a + [(pk, pd)]) + [(k, d)] + b;
    MapOfWithout(a + [(pk, pd)], k, d, b);
    assert a + [(pk, pd)] + b == (a + [(pk, pd)]) + b;
    SortedMiddle(a, pk, pd, b);
    SortedMiddle(a, pk, d, b);
    MapOfMiddle(a, pk, pd, b);
    MapOfMiddle(a, pk, d, b);
    assert whole[|a|].0 == pk && whole[|a| + 1].0 == k;
    assert MapOf(whole) - {k} == MapOf(a + b)[pk := pd];
    assert pk in MapOf(whole) - {k};
  }

  lemma RemoveOne(c: Ctx, t: Tree, s: Side)
    requires t.Br? && Kid(t, Opp(s)).Leaf? && Sorted(InOrder(Fill(c, t)))
    ensures var rest := Before(c) + InOrder(Kid(t, s)) + After(c);
      Sorted(rest) && MapOf(rest) == MapOf(InOrder(Fill(c, t))) - {t.x.k}
  {
    AroundNode(c, t);
    var a, b := Before(c) + InOrder(t.l), InOrder(t.r) + After(c);
    assert a + b == Before(c) + InOrder(Kid(t, s)) + After(c) by {
      if s.Left? {
        assert InOrder(t.r) == [];
      } else {
        assert InOrder(t.l) == [];
      }
    }
    MapOfWithout(a, t.x.k, t.x.d, b);
  }

  /** What surrounds the predecessor of a node's key once that key has moved up. */
  ghost function PredecessorCtx(c: Ctx, t: Tree): Ctx
    requires t.Br? && t.l.Br?
  {
    MaxCtx(Up(Left, t.x.(k := MaxTree(t.l).x.k), t.r, c), t.l)
  }

  lemma PredecessorOrder(c: Ctx, t: Tree)
    requires t.Br? && t.l.Br?
    ensures var p := MaxTree(t.l); var c3 := PredecessorCtx(c, t);
      var a := Before(c3) + InOrder(p.l); var b := InOrder(t.r) + After(c);
      && Before(c) + InOrder(t.l) == a + [(p.x.k, p.x.d)]
      && a + After(c3) == a + [(p.x.k, t.x.d)] + b
  {
    var p, c3 := MaxTree(t.l), PredecessorCtx(c, t);
    var c1 := Up(Left, t.x.(k := p.x.k), t.r, c);
    MaxOrder(c1, t.l);
    Assoc(Before(c3), InOrder(p.l), [(p.x.k, p.x.d)]);
    Assoc(Before(c3) + InOrder(p.l), [(p.x.k, t.x.d)], InOrder(t.r) + After(c));
    Assoc([(p.x.k, t.x.d)], InOrder(t.r), After(c));
    assert InOrder(p) == InOrder(p.l) + [(p.x.k, p.x.d)] by {
      assert InOrder(p) == InOrder(p.l) + [(p.x.k, p.x.d)] + [];
    }
  }

  lemma Assoc(a: Bindings, b: Bindings, c: Bindings)
    ensures (a + b) + c == a + (b + c)
  {
  }

  /** The bindings once the predecessor's key has replaced a node's key and the predecessor is gone. */
  lemma RemovePredecessor(c: Ctx, t: Tree)
    requires t.Br? && t.l.Br? && Sorted(InOrder(Fill(c, t)))
    ensures var p := MaxTree(t.l); var c3 := PredecessorCtx(c, t);
      var rest := Before(c3) + InOrder(p.l) + After(c3); var old_ := MapOf(InOrder(Fill(c, t)));
      && Sorted(rest) && MapOf(rest).Keys == old_.Keys - {t.x.k}
      && (MapOf(rest) == old_ - {t.x.k} <==> p.x.d == t.x.d)
      && MapOf(rest) == (old_ - {t.x.k})[p.x.k := t.x.d]
  {
    AroundNode(c, t);
    PredecessorOrder(c, t);
    var p, c3 := MaxTree(t.l), PredecessorCtx(c, t);
    var a, b := Before(c3) + InOrder(p.l), InOrder(t.r) + After(c);
    MapOfPredecessor(a, p.x.k, p.x.d, t.x.k, t.x.d, b);
    Redirected(MapOf(InOrder(Fill(c, t))), t.x.k, p.x.k, t.x.d);
  }

  lemma Redirected(m: map<Key, Data>, k: Key, pk: Key, d: Data)
    requires pk in m && pk != k
    ensures (m - {k})[pk := d].Keys == m.Keys - {k}
    ensures (m - {k})[pk := d] == m - {k} <==> m[pk] == d
  {
    assert ((m - {k})[pk := d])[pk] == d && (m - {k})[pk] == m[pk];
  }

  /** The subtree whose root holds a key. */
  ghost function Lookup(t: Tree, k: Key): Tree {
    if t.Leaf? || t.x.k == k then t else Lookup(if t.x.k < k then t.r else t.l, k)
  }

  /** The predecessor's key is left with other data when a node with two children goes. */
  ghost predicate MixesData(t: Tree) {
    t.Br? && t.l.Br? && t.r.Br? && MaxTree(t.l).x.d != t.x.d
  }

  /** What a map becomes when the node `t` is removed: with two children, the predecessor's key takes over its data. */
  ghost function Without(m: map<Key, Data>, t: Tree): map<Key, Data>
    requires t.Br?
  {
    if t.l.Br? && t.r.Br? then (m - {t.x.k})[MaxTree(t.l).x.k := t.x.d] else m - {t.x.k}
  }
}
