/**
 Trees of fixed-size nodes: which node is at which level, when the keys under a
 node lie where the separators say, and the sequence of bindings in key order.
 */
module FbShape {
  import opened Basics
  import opened PageSearch
  import opened FbNode

  type Id = int
  type Nodes = map<Id, Node>

  /** Leaves are at level 1. */
  type Levels = map<Id, nat>

  ghost function LevelOf(lv: Levels, id: Id): nat { if id in lv then lv[id] else 0 }

  /** Where the interval of slot `i` ends. */
  ghost function EndOf(s: seq<Slot>, i: nat, hi: int): int
    requires i < |s|
  {
    if i + 1 < |s| then s[i + 1].key else hi
  }

  ghost predicate KeyIn(s: seq<Slot>, lo: int, hi: int, i: nat)
    requires i < |s|
  {
    lo <= s[i].key < hi
  }

  /** Under `id`, nodes are in order and every key is in [lo, hi), children between their separators. */
  ghost predicate WellFormed(ns: Nodes, lv: Levels, id: Id, lo: int, hi: int)
    decreases LevelOf(lv, id), 1
  {
    && id in ns && id in lv && lv[id] >= 1 && NodeOk(ns[id]) && Slots(ns[id]) != []
    && (forall i | 0 <= i < |Slots(ns[id])| :: KeyIn(Slots(ns[id]), lo, hi, i))
    && (lv[id] > 1 ==> forall i | 0 <= i < |Slots(ns[id])| :: KidOk(ns, lv, Slots(ns[id]), lv[id], hi, i))
  }

  ghost predicate KidOk(ns: Nodes, lv: Levels, s: seq<Slot>, h: nat, hi: int, i: nat)
    requires i < |s|
    decreases h, 0
  {
    s[i].kid in lv && lv[s[i].kid] + 1 == h && WellFormed(ns, lv, s[i].kid, s[i].key, EndOf(s, i, hi))
  }

  /** The bindings under a node, from left to right. */
  ghost function InOrder(ns: Nodes, lv: Levels, id: Id): seq<Slot>
    decreases LevelOf(lv, id), 1, 0
  {
    if id !in ns || id !in lv || |ns[id].keys| != |ns[id].kids| then []
    else if lv[id] <= 1 then Slots(ns[id])
    else Flat(ns, lv, Slots(ns[id]), lv[id])
  }

  ghost function Flat(ns: Nodes, lv: Levels, s: seq<Slot>, h: nat): seq<Slot>
    decreases h, 0, |s|
  {
    if s == [] then [] else Piece(ns, lv, s[0], h) + Flat(ns, lv, s[1..], h)
  }

  ghost function Piece(ns: Nodes, lv: Levels, s: Slot, h: nat): seq<Slot>
    decreases h, 0, 0
  {
    if LevelOf(lv, s.kid) < h then InOrder(ns, lv, s.kid) else []
  }

  lemma {:induction false} FlatConcat(ns: Nodes, lv: Levels, a: seq<Slot>, b: seq<Slot>, h: nat)
    ensures Flat(ns, lv, a + b, h) == Flat(ns, lv, a, h) + Flat(ns, lv, b, h)
    decreases |a|
  {
    if a == [] {
      assert a + b == b;
    } else {
      assert (a + b)[1..] == a[1..] + b && (a + b)[0] == a[0];
      FlatConcat(ns, lv, a[1..], b, h);
    }
  }

  ghost predicate SamePiece(ns: Nodes, lv: Levels, s: seq<Slot>, ns': Nodes, lv': Levels, s': seq<Slot>, h: nat, i: nat)
    requires i < |s| == |s'|
  {
    Piece(ns, lv, s[i], h) == Piece(ns', lv', s'[i], h)
  }

  lemma {:induction false} FlatSame(ns: Nodes, lv: Levels, s: seq<Slot>, ns': Nodes, lv': Levels, s': seq<Slot>, h: nat)
    requires |s| == |s'| && forall i | 0 <= i < |s| :: SamePiece(ns, lv, s, ns', lv', s', h, i)
    ensures Flat(ns, lv, s, h) == Flat(ns', lv', s', h)
    decreases |s|
  {
    if s != [] {
      assert SamePiece(ns, lv, s, ns', lv', s', h, 0);
      forall i | 0 <= i < |s[1..]|
        ensures SamePiece(ns, lv, s[1..], ns', lv', s'[1..], h, i)
      {
        assert SamePiece(ns, lv, s, ns', lv', s', h, i + 1);
      }
      FlatSame(ns, lv, s[1..], ns', lv', s'[1..], h);
    }
  }

  // ------------------------------------------------------------ where a search ends

  /** The last slot whose key is not above `key`, or slot 0 if there is none. */
  ghost function Pick(s: seq<Slot>, key: int): (r: nat)
    requires s != []
    ensures r < |s| && (r == 0 || s[r].key <= key) && forall j | r < j < |s| :: key < s[j].key
  {
    if |s| == 1 || s[|s| - 1].key <= key then |s| - 1 else Pick(s[..|s| - 1], key)
  }

  lemma PickIs(s: seq<Slot>, key: int, r: nat)
    requires r < |s| && (r == 0 || s[r].key <= key) && forall j | r < j < |s| :: key < s[j].key
    ensures Pick(s, key) == r
  {
  }

  /** The slot of a leaf at which a search for `key` from `id` ends, whether it holds the key or not. */
  ghost function Found(ns: Nodes, lv: Levels, id: Id, key: int): Slot
    decreases LevelOf(lv, id), 1
  {
    if id !in ns || id !in lv || |ns[id].keys| != |ns[id].kids| || Slots(ns[id]) == [] then Slot(0, 0)
    else Entered(ns, lv, Slots(ns[id]), lv[id], key)
  }

  ghost function Entered(ns: Nodes, lv: Levels, s: seq<Slot>, h: nat, key: int): Slot
    requires s != []
    decreases h, 0
  {
    var x := s[Pick(s, key)];
    if h <= 1 then x else if LevelOf(lv, x.kid) < h then Found(ns, lv, x.kid, key) else Slot(0, 0)
  }

  /** No search tells `b` from `a`. */
  ghost predicate SameFound(ns: Nodes, lv: Levels, a: Id, ns': Nodes, lv': Levels, b: Id) {
    forall key :: Found(ns', lv', b, key) == Found(ns, lv, a, key)
  }

  lemma SameFoundTrans(ns: Nodes, lv: Levels, a: Id, ns1: Nodes, lv1: Levels, b: Id, ns2: Nodes, lv2: Levels, c: Id)
    requires SameFound(ns, lv, a, ns1, lv1, b) && SameFound(ns1, lv1, b, ns2, lv2, c)
    ensures SameFound(ns, lv, a, ns2, lv2, c)
  {
    forall key
      ensures Found(ns2, lv2, c, key) == Found(ns, lv, a, key)
    {
      assert Found(ns1, lv1, b, key) == Found(ns, lv, a, key);
    }
  }

  // ------------------------------------------------------------- replacing a child

  /** What is well formed under `old_` is under `new_`, with the same bindings and the same answers. */
  ghost predicate Stands(ns: Nodes, lv: Levels, old_: Id, ns': Nodes, lv': Levels, new_: Id) {
    && old_ in lv && new_ in lv' && lv'[new_] == lv[old_]
    && (forall lo, hi | WellFormed(ns, lv, old_, lo, hi) :: WellFormed(ns', lv', new_, lo, hi))
    && InOrder(ns', lv', new_) == InOrder(ns, lv, old_) && SameFound(ns, lv, old_, ns', lv', new_)
  }

  /** The old nodes are as they were, but for slot `k` of `g`, which leads to `new_` instead of `old_`. */
  ghost predicate Redirected(ns: Nodes, lv: Levels, ns': Nodes, lv': Levels, g: Id, k: nat, old_: Id, new_: Id) {
    && (forall a | a in lv :: a in lv' && lv'[a] == lv[a])
    && (forall a | a in lv && a in ns && a != g :: a in ns' && ns'[a] == ns[a])
    && g in lv && lv[g] > 1 && g in ns && g in ns' && NodeOk(ns[g]) && k < Count(ns[g])
    && ns[g].kids[k] == old_ && ns'[g] == ns[g].(kids := ns[g].kids[k := new_])
  }

  lemma RedirectedSlots(n: Node, k: nat, new_: Id)
    requires NodeOk(n) && k < Count(n)
    ensures NodeOk(n.(kids := n.kids[k := new_]))
    ensures Slots(n.(kids := n.kids[k := new_])) == Slots(n)[k := Slot(n.keys[k], new_)]
  {
    SlotsAre(n.(kids := n.kids[k := new_]), Slots(n)[k := Slot(n.keys[k], new_)]);
  }

  /** Replacing a child by one that stands for it disturbs nothing above or beside it. */
  lemma {:induction false} Lift(ns: Nodes, lv: Levels, ns': Nodes, lv': Levels, g: Id, k: nat, old_: Id, new_: Id,
                                a: Id, lo: int, hi: int)
    requires Redirected(ns, lv, ns', lv', g, k, old_, new_) && Stands(ns, lv, old_, ns', lv', new_)
    requires WellFormed(ns, lv, a, lo, hi)
    ensures WellFormed(ns', lv', a, lo, hi) && InOrder(ns', lv', a) == InOrder(ns, lv, a)
    decreases LevelOf(lv, a)
  {
    var s := Slots(ns[a]);
    if a == g { RedirectedSlots(ns[g], k, new_); }
    var s' := Slots(ns'[a]);
    assert |s'| == |s| && forall i | 0 <= i < |s| :: s'[i].key == s[i].key;
    forall i | 0 <= i < |s|
      ensures KeyIn(s', lo, hi, i)
      ensures lv[a] > 1 ==> KidOk(ns', lv', s', lv[a], hi, i) && SamePiece(ns, lv, s, ns', lv', s', lv[a], i)
    {
      assert KeyIn(s, lo, hi, i);
      if lv[a] > 1 {
        assert KidOk(ns, lv, s, lv[a], hi, i);
        if a == g && i == k {
          assert s'[i].kid == new_ && s[i].kid == old_;
        } else {
          assert s'[i] == s[i];
          Lift(ns, lv, ns', lv', g, k, old_, new_, s[i].kid, s[i].key, EndOf(s, i, hi));
        }
      }
    }
    if lv[a] > 1 {
      FlatSame(ns, lv, s, ns', lv', s', lv[a]);
    }
  }

  lemma {:induction false} LiftFound(ns: Nodes, lv: Levels, ns': Nodes, lv': Levels, g: Id, k: nat, old_: Id,
                                     new_: Id, a: Id, lo: int, hi: int, key: int)
    requires Redirected(ns, lv, ns', lv', g, k, old_, new_) && Stands(ns, lv, old_, ns', lv', new_)
    requires WellFormed(ns, lv, a, lo, hi)
    ensures Found(ns', lv', a, key) == Found(ns, lv, a, key)
    decreases LevelOf(lv, a)
  {
    var s := Slots(ns[a]);
    if a == g { RedirectedSlots(ns[g], k, new_); }
    var s', i := Slots(ns'[a]), Pick(s, key);
    assert |s'| == |s| && forall j | 0 <= j < |s| :: s'[j].key == s[j].key;
    PickIs(s', key, i);
    if lv[a] > 1 {
      assert KidOk(ns, lv, s, lv[a], hi, i);
      if a == g && i == k {
        assert s'[i].kid == new_ && s[i].kid == old_;
        assert Found(ns', lv', new_, key) == Found(ns, lv, old_, key);
      } else {
        assert s'[i] == s[i];
        LiftFound(ns, lv, ns', lv', g, k, old_, new_, s[i].kid, s[i].key, EndOf(s, i, hi), key);
      }
    }
  }

  /** Nodes have been added, and none changed up to level `h`. */
  ghost predicate Extends(ns: Nodes, lv: Levels, ns': Nodes, lv': Levels, h: nat) {
    && (forall a | a in lv :: a in lv' && lv'[a] == lv[a])
    && (forall a | a in lv && a in ns && lv[a] <= h :: a in ns' && ns'[a] == ns[a])
  }

  lemma {:induction false} Extended(ns: Nodes, lv: Levels, ns': Nodes, lv': Levels, a: Id, lo: int, hi: int)
    requires Extends(ns, lv, ns', lv', LevelOf(lv, a)) && WellFormed(ns, lv, a, lo, hi)
    ensures WellFormed(ns', lv', a, lo, hi) && InOrder(ns', lv', a) == InOrder(ns, lv, a)
    decreases LevelOf(lv, a)
  {
    var s := Slots(ns[a]);
    if lv[a] > 1 {
      forall i | 0 <= i < |s|
        ensures KidOk(ns', lv', s, lv[a], hi, i) && SamePiece(ns, lv, s, ns', lv', s, lv[a], i)
      {
        assert KidOk(ns, lv, s, lv[a], hi, i);
        Extended(ns, lv, ns', lv', s[i].kid, s[i].key, EndOf(s, i, hi));
      }
      FlatSame(ns, lv, s, ns', lv', s, lv[a]);
    }
  }

  lemma {:induction false} ExtendedFound(ns: Nodes, lv: Levels, ns': Nodes, lv': Levels, a: Id, lo: int, hi: int,
                                         key: int)
    requires Extends(ns, lv, ns', lv', LevelOf(lv, a)) && WellFormed(ns, lv, a, lo, hi)
    ensures Found(ns', lv', a, key) == Found(ns, lv, a, key)
    decreases LevelOf(lv, a)
  {
    var s := Slots(ns[a]);
    if lv[a] > 1 {
      var i := Pick(s, key);
      assert KidOk(ns, lv, s, lv[a], hi, i);
      ExtendedFound(ns, lv, ns', lv', s[i].kid, s[i].key, EndOf(s, i, hi), key);
    }
  }

  lemma ExtendedSame(ns: Nodes, lv: Levels, ns': Nodes, lv': Levels, a: Id, lo: int, hi: int)
    requires Extends(ns, lv, ns', lv', LevelOf(lv, a)) && WellFormed(ns, lv, a, lo, hi)
    ensures SameFound(ns, lv, a, ns', lv', a)
  {
    forall key
      ensures Found(ns', lv', a, key) == Found(ns, lv, a, key)
    {
      ExtendedFound(ns, lv, ns', lv', a, lo, hi, key);
    }
  }

  // -------------------------------------------------------------------- splitting

  /** A node that holds a run of another node's slots. */
  ghost predicate PartOf(ns: Nodes, lv: Levels, f: Id, i: nat, j: nat, id: Id) {
    && f in ns && f in lv && NodeOk(ns[f]) && i < j <= Count(ns[f])
    && id in ns && id in lv && lv[id] == lv[f] && NodeOk(ns[id]) && Slots(ns[id]) == Slots(ns[f])[i..j]
  }

  lemma PartWellFormed(ns: Nodes, lv: Levels, f: Id, lo: int, hi: int, i: nat, j: nat, id: Id, lo': int, hi': int)
    requires PartOf(ns, lv, f, i, j, id) && WellFormed(ns, lv, f, lo, hi)
    requires lo' == if i == 0 then lo else ns[f].keys[i]
    requires hi' == if j < Count(ns[f]) then ns[f].keys[j] else hi
    ensures WellFormed(ns, lv, id, lo', hi')
  {
    var s, part := Slots(ns[f]), Slots(ns[id]);
    SlotsAscending(ns[f]);
    forall k | 0 <= k < |part|
      ensures KeyIn(part, lo', hi', k)
      ensures lv[f] > 1 ==> KidOk(ns, lv, part, lv[f], hi', k)
    {
      assert part[k] == s[i + k] && KeyIn(s, lo, hi, i + k);
      if lv[f] > 1 {
        assert KidOk(ns, lv, s, lv[f], hi, i + k);
      }
    }
  }

  /** `l` and `r` share what is under `f`, cut at `sep`. */
  ghost predicate Halves(ns: Nodes, lv: Levels, f: Id, l: Id, r: Id, sep: int) {
    && f in lv && l in lv && r in lv && lv[l] == lv[f] && lv[r] == lv[f]
    && (forall lo, hi | WellFormed(ns, lv, f, lo, hi) ::
          lo < sep < hi && WellFormed(ns, lv, l, lo, sep) && WellFormed(ns, lv, r, sep, hi))
    && InOrder(ns, lv, f) == InOrder(ns, lv, l) + InOrder(ns, lv, r)
    && (forall key :: Found(ns, lv, f, key) == HalfFound(ns, lv, l, r, sep, key))
  }

  ghost function HalfFound(ns: Nodes, lv: Levels, l: Id, r: Id, sep: int, key: int): Slot {
    Found(ns, lv, if key < sep then l else r, key)
  }

  lemma PickCut(s: seq<Slot>, sp: nat, key: int)
    requires Ascending(s) && 0 < sp < |s|
    ensures Pick(s, key) == if key < s[sp].key then Pick(s[..sp], key) else sp + Pick(s[sp..], key)
  {
    if key < s[sp].key {
      PickIs(s, key, Pick(s[..sp], key));
    } else {
      var r := Pick(s[sp..], key);
      assert forall j | sp + r < j < |s| :: s[j] == s[sp..][j - sp];
      PickIs(s, key, sp + r);
    }
  }

  lemma EnteredCut(ns: Nodes, lv: Levels, s: seq<Slot>, sp: nat, h: nat, key: int)
    requires Ascending(s) && 0 < sp < |s|
    ensures Entered(ns, lv, s, h, key) == Entered(ns, lv, if key < s[sp].key then s[..sp] else s[sp..], h, key)
  {
    PickCut(s, sp, key);
    SamePick(ns, lv, s, if key < s[sp].key then s[..sp] else s[sp..], h, key);
  }

  lemma SamePick(ns: Nodes, lv: Levels, s: seq<Slot>, t: seq<Slot>, h: nat, key: int)
    requires s != [] && t != [] && s[Pick(s, key)] == t[Pick(t, key)]
    ensures Entered(ns, lv, s, h, key) == Entered(ns, lv, t, h, key)
  {
  }

  lemma HalvesFound(ns: Nodes, lv: Levels, f: Id, l: Id, r: Id, sp: nat, key: int)
    requires PartOf(ns, lv, f, 0, sp, l) && sp < Count(ns[f]) && PartOf(ns, lv, f, sp, Count(ns[f]), r)
    ensures Found(ns, lv, f, key) == HalfFound(ns, lv, l, r, ns[f].keys[sp], key)
  {
    var s := Slots(ns[f]);
    SlotsAscending(ns[f]);
    assert s[0..sp] == s[..sp] && s[sp..|s|] == s[sp..];
    EnteredCut(ns, lv, s, sp, lv[f], key);
  }

  lemma SplitHalves(ns: Nodes, lv: Levels, f: Id, l: Id, r: Id, sp: nat)
    requires PartOf(ns, lv, f, 0, sp, l) && sp < Count(ns[f]) && PartOf(ns, lv, f, sp, Count(ns[f]), r)
    ensures Halves(ns, lv, f, l, r, ns[f].keys[sp])
  {
    var s := Slots(ns[f]);
    SlotsAscending(ns[f]);
    assert s == s[..sp] + s[sp..] && s[0..sp] == s[..sp] && s[sp..Count(ns[f])] == s[sp..];
    FlatConcat(ns, lv, s[..sp], s[sp..], lv[f]);
    forall key
      ensures Found(ns, lv, f, key) == HalfFound(ns, lv, l, r, ns[f].keys[sp], key)
    {
      HalvesFound(ns, lv, f, l, r, sp, key);
    }
    forall lo, hi | WellFormed(ns, lv, f, lo, hi)
      ensures lo < s[sp].key < hi && WellFormed(ns, lv, l, lo, s[sp].key) && WellFormed(ns, lv, r, s[sp].key, hi)
    {
      assert KeyIn(s, lo, hi, 0) && KeyIn(s, lo, hi, sp);
      PartWellFormed(ns, lv, f, lo, hi, 0, sp, l, lo, s[sp].key);
      PartWellFormed(ns, lv, f, lo, hi, sp, Count(ns[f]), r, s[sp].key, hi);
    }
  }

  /** The parent's slots once `i` leads to the left half and the right half has a slot of its own. */
  ghost function SplitSlots(s: seq<Slot>, i: nat, l: Id, sep: int, r: Id): seq<Slot>
    requires i < |s|
  {
    s[..i] + [Slot(s[i].key, l), Slot(sep, r)] + s[i + 1..]
  }

  lemma SplitSlotsKids(ns: Nodes, lv: Levels, s: seq<Slot>, h: nat, lo: int, hi: int, i: nat, f: Id, l: Id, r: Id,
                       sep: int)
    requires Ascending(s) && i < |s| && s[i].kid == f && Halves(ns, lv, f, l, r, sep) && h > 1
    requires forall k | 0 <= k < |s| :: KeyIn(s, lo, hi, k)
    requires forall k | 0 <= k < |s| :: KidOk(ns, lv, s, h, hi, k)
    ensures var t := SplitSlots(s, i, l, sep, r);
            forall k | 0 <= k < |t| :: KeyIn(t, lo, hi, k) && KidOk(ns, lv, t, h, hi, k)
  {
    var t := SplitSlots(s, i, l, sep, r);
    assert KidOk(ns, lv, s, h, hi, i) && KeyIn(s, lo, hi, i);
    assert WellFormed(ns, lv, f, s[i].key, EndOf(s, i, hi));
    assert i + 1 < |s| ==> KeyIn(s, lo, hi, i + 1);
    forall k | 0 <= k < |t|
      ensures KeyIn(t, lo, hi, k) && KidOk(ns, lv, t, h, hi, k)
    {
      if k < i {
        assert t[k] == s[k] && KeyIn(s, lo, hi, k) && KidOk(ns, lv, s, h, hi, k);
      } else if k > i + 1 {
        assert t[k] == s[k - 1] && KeyIn(s, lo, hi, k - 1) && KidOk(ns, lv, s, h, hi, k - 1);
      }
    }
  }

  lemma SplitSlotsFlat(ns: Nodes, lv: Levels, s: seq<Slot>, h: nat, i: nat, f: Id, l: Id, r: Id, sep: int)
    requires i < |s| && s[i].kid == f && Halves(ns, lv, f, l, r, sep) && lv[f] < h
    ensures Flat(ns, lv, SplitSlots(s, i, l, sep, r), h) == Flat(ns, lv, s, h)
  {
    var a, b, c := Slot(s[i].key, l), Slot(sep, r), s[i + 1..];
    SplitSlotsParts(s, i, l, sep, r);
    FlatConcat(ns, lv, s[..i], [s[i]] + c, h);
    FlatConcat(ns, lv, s[..i], [a] + ([b] + c), h);
    FlatOne(ns, lv, s[i], c, h);
    FlatOne(ns, lv, a, [b] + c, h);
    FlatOne(ns, lv, b, c, h);
  }

  lemma SplitSlotsParts(s: seq<Slot>, i: nat, l: Id, sep: int, r: Id)
    requires i < |s|
    ensures s == s[..i] + ([s[i]] + s[i + 1..])
    ensures SplitSlots(s, i, l, sep, r) == s[..i] + ([Slot(s[i].key, l)] + ([Slot(sep, r)] + s[i + 1..]))
  {
  }

  lemma FlatOne(ns: Nodes, lv: Levels, x: Slot, c: seq<Slot>, h: nat)
    ensures Flat(ns, lv, [x] + c, h) == Piece(ns, lv, x, h) + Flat(ns, lv, c, h)
  {
    assert ([x] + c)[1..] == c;
  }

  /** The clone of the parent with both halves in it. */
  function NewParent(n: Node, i: nat, l: Id, sep: int, r: Id): Node
    requires i < LAST_SLOT && |n.keys| == SLOT_MAX == |n.kids|
  {
    var c := ClonedInsert(n, i + 1, sep, r);
    c.(kids := c.kids[i := l])
  }

  lemma NewParentSlots(n: Node, i: nat, l: Id, sep: int, r: Id)
    requires NodeOk(n) && i < Count(n) < SLOT_MAX && n.keys[i] < sep < NIL_KEY && sep < n.keys[i + 1]
    ensures NodeOk(NewParent(n, i, l, sep, r))
            && Slots(NewParent(n, i, l, sep, r)) == SplitSlots(Slots(n), i, l, sep, r)
  {
    var c := ClonedInsert(n, i + 1, sep, r);
    InsertSlots(n, i + 1, sep, r);
    assert forall k | 0 <= k < i + 1 :: n.keys[k] < sep;
    assert forall k | i + 1 <= k < SLOT_MAX :: sep < n.keys[k];
    InsertBetween(n, i + 1, sep, r);
    RedirectedSlots(c, i, l);
    SplitSlotsAre(Slots(n), i, l, sep, r, c.keys[i]);
  }

  lemma SplitSlotsAre(s: seq<Slot>, i: nat, l: Id, sep: int, r: Id, key: int)
    requires i < |s| && key == Inserted(s, i + 1, Slot(sep, r))[i].key
    ensures Inserted(s, i + 1, Slot(sep, r))[i := Slot(key, l)] == SplitSlots(s, i, l, sep, r)
  {
  }

  lemma KidsExtended(ns: Nodes, lv: Levels, ns': Nodes, lv': Levels, s: seq<Slot>, h: nat, hi: int)
    requires Extends(ns, lv, ns', lv', h) && forall k | 0 <= k < |s| :: KidOk(ns, lv, s, h, hi, k)
    ensures forall k | 0 <= k < |s| :: KidOk(ns', lv', s, h, hi, k)
    ensures Flat(ns', lv', s, h) == Flat(ns, lv, s, h)
  {
    forall k | 0 <= k < |s|
      ensures KidOk(ns', lv', s, h, hi, k) && SamePiece(ns, lv, s, ns', lv', s, h, k)
    {
      assert KidOk(ns, lv, s, h, hi, k);
      Extended(ns, lv, ns', lv', s[k].kid, s[k].key, EndOf(s, k, hi));
    }
    FlatSame(ns, lv, s, ns', lv', s, h);
  }

  /** A node at slot `i` of which hangs what has been halved. */
  ghost predicate ParentOf(ns: Nodes, lv: Levels, p: Id, i: nat, f: Id) {
    && p in ns && p in lv && f in lv && lv[p] == lv[f] + 1 && lv[f] >= 1 && NodeOk(ns[p]) && i < Count(ns[p])
       && ns[p].kids[i] == f
  }

  lemma SeparatorFits(ns: Nodes, lv: Levels, p: Id, i: nat, f: Id, l: Id, r: Id, sep: int, lo: int, hi: int)
    requires ParentOf(ns, lv, p, i, f) && Halves(ns, lv, f, l, r, sep) && Count(ns[p]) < SLOT_MAX
    requires WellFormed(ns, lv, p, lo, hi) && hi <= NIL_KEY
    ensures ns[p].keys[i] < sep < NIL_KEY && sep < ns[p].keys[i + 1]
  {
    var s := Slots(ns[p]);
    assert KidOk(ns, lv, s, lv[p], hi, i);
    assert WellFormed(ns, lv, f, s[i].key, EndOf(s, i, hi));
    if i + 1 < |s| { assert KeyIn(s, lo, hi, i + 1); }
  }

  lemma NewParentWellFormed(ns: Nodes, lv: Levels, p: Id, i: nat, f: Id, l: Id, r: Id, sep: int, ns': Nodes,
                            lv': Levels, n: Id, lo: int, hi: int)
    requires ParentOf(ns, lv, p, i, f) && Halves(ns, lv, f, l, r, sep) && WellFormed(ns, lv, p, lo, hi)
    requires Extends(ns, lv, ns', lv', lv[p]) && n in ns' && n in lv' && lv'[n] == lv[p]
    requires NodeOk(ns'[n]) && Slots(ns'[n]) == SplitSlots(Slots(ns[p]), i, l, sep, r)
    ensures WellFormed(ns', lv', n, lo, hi) && InOrder(ns', lv', n) == InOrder(ns, lv, p)
  {
    var s, t := Slots(ns[p]), Slots(ns'[n]);
    SlotsAscending(ns[p]);
    SplitSlotsKids(ns, lv, s, lv[p], lo, hi, i, f, l, r, sep);
    SplitSlotsFlat(ns, lv, s, lv[p], i, f, l, r, sep);
    KidsExtended(ns, lv, ns', lv', t, lv[p], hi);
  }

  lemma SplitSlotsPick(s: seq<Slot>, i: nat, l: Id, sep: int, r: Id, key: int)
    requires Ascending(s) && i < |s| && s[i].key < sep && (i + 1 < |s| ==> sep < s[i + 1].key)
    ensures var m := Pick(s, key);
            Pick(SplitSlots(s, i, l, sep, r), key)
            == if m < i || (m == i && key < sep) then m else m + 1
  {
    var t, m := SplitSlots(s, i, l, sep, r), Pick(s, key);
    assert t[i] == Slot(s[i].key, l) && t[i + 1] == Slot(sep, r);
    assert forall j | 0 <= j < i :: t[j] == s[j];
    assert forall j | i + 1 < j < |t| :: t[j] == s[j - 1];
    PickIs(t, key, if m < i || (m == i && key < sep) then m else m + 1);
  }

  lemma SplitSlotsEntered(ns: Nodes, lv: Levels, s: seq<Slot>, h: nat, i: nat, l: Id, sep: int, r: Id, key: int)
    requires Ascending(s) && i < |s| && s[i].key < sep && (i + 1 < |s| ==> sep < s[i + 1].key) && h > 1
    requires LevelOf(lv, s[i].kid) == LevelOf(lv, l) == LevelOf(lv, r)
    requires Found(ns, lv, s[i].kid, key) == HalfFound(ns, lv, l, r, sep, key)
    ensures Entered(ns, lv, SplitSlots(s, i, l, sep, r), h, key) == Entered(ns, lv, s, h, key)
  {
    SplitSlotsPick(s, i, l, sep, r, key);
  }

  lemma EnteredExtended(ns: Nodes, lv: Levels, ns': Nodes, lv': Levels, s: seq<Slot>, h: nat, hi: int, key: int)
    requires Extends(ns, lv, ns', lv', h) && s != [] && forall k | 0 <= k < |s| :: KidOk(ns, lv, s, h, hi, k)
    ensures Entered(ns', lv', s, h, key) == Entered(ns, lv, s, h, key)
  {
    var m := Pick(s, key);
    assert KidOk(ns, lv, s, h, hi, m);
    ExtendedFound(ns, lv, ns', lv', s[m].kid, s[m].key, EndOf(s, m, hi), key);
  }

  lemma NewParentFound(ns: Nodes, lv: Levels, p: Id, i: nat, f: Id, l: Id, r: Id, sep: int, ns': Nodes,
                       lv': Levels, n: Id, lo: int, hi: int, key: int)
    requires ParentOf(ns, lv, p, i, f) && Halves(ns, lv, f, l, r, sep) && WellFormed(ns, lv, p, lo, hi)
    requires Extends(ns, lv, ns', lv', lv[p]) && n in ns' && n in lv' && lv'[n] == lv[p]
    requires NodeOk(ns'[n]) && Slots(ns'[n]) == SplitSlots(Slots(ns[p]), i, l, sep, r)
    ensures Found(ns', lv', n, key) == Found(ns, lv, p, key)
  {
    var s, t := Slots(ns[p]), Slots(ns'[n]);
    SlotsAscending(ns[p]);
    assert KidOk(ns, lv, s, lv[p], hi, i);
    assert WellFormed(ns, lv, f, s[i].key, EndOf(s, i, hi));
    SplitSlotsKids(ns, lv, s, lv[p], lo, hi, i, f, l, r, sep);
    SplitSlotsEntered(ns, lv, s, lv[p], i, l, sep, r, key);
    EnteredExtended(ns, lv, ns', lv', t, lv[p], hi, key);
  }

  /** The new parent stands for the old one. */
  lemma NewParentStands(ns: Nodes, lv: Levels, p: Id, i: nat, f: Id, l: Id, r: Id, sep: int, n: Id, lo: int, hi: int)
    requires ParentOf(ns, lv, p, i, f) && Halves(ns, lv, f, l, r, sep) && Count(ns[p]) < SLOT_MAX && n !in lv
             && n !in ns
    requires WellFormed(ns, lv, p, lo, hi) && hi <= NIL_KEY
    ensures i < LAST_SLOT
    ensures var node := NewParent(ns[p], i, l, sep, r);
            && NodeOk(node) && Slots(node) == SplitSlots(Slots(ns[p]), i, l, sep, r)
            && Stands(ns, lv, p, ns[n := node], lv[n := lv[p]], n)
  {
    SeparatorFits(ns, lv, p, i, f, l, r, sep, lo, hi);
    NewParentSlots(ns[p], i, l, sep, r);
    var ns', lv' := ns[n := NewParent(ns[p], i, l, sep, r)], lv[n := lv[p]];
    NewParentWellFormed(ns, lv, p, i, f, l, r, sep, ns', lv', n, lo, hi);
    forall a, b | WellFormed(ns, lv, p, a, b)
      ensures WellFormed(ns', lv', n, a, b)
    {
      NewParentWellFormed(ns, lv, p, i, f, l, r, sep, ns', lv', n, a, b);
    }
    forall key
      ensures Found(ns', lv', n, key) == Found(ns, lv, p, key)
    {
      NewParentFound(ns, lv, p, i, f, l, r, sep, ns', lv', n, lo, hi, key);
    }
  }
}
