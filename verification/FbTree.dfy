/** `fb_split_node`: a full node is cut in two up the path stack, and the path still leads to the same slot. */
module FbTrees {
  import opened Basics
  import opened PageSearch
  import opened FbNode
  import opened FbShape

  datatype Tree = Tree(nodes: Nodes, root: Id, level: nat, next: Id)

  datatype Pos = Pos(node: Id, idx: nat)

  ghost predicate Fresh(t: Tree, lv: Levels) {
    (forall a | a in lv :: a < t.next) && (forall a | a in t.nodes :: a < t.next)
  }

  ghost predicate TreeOk(t: Tree, lv: Levels) {
    && t.level >= 1 && t.root in lv && lv[t.root] == t.level && Fresh(t, lv)
    && WellFormed(t.nodes, lv, t.root, LEFT_MOST_KEY, NIL_KEY)
  }

  /** The bindings of the tree, from left to right. */
  ghost function Bindings(t: Tree, lv: Levels): seq<Slot> { InOrder(t.nodes, lv, t.root) }

  /** The slot at which a search from the root ends. */
  ghost function Answer(t: Tree, lv: Levels, key: int): Slot { Found(t.nodes, lv, t.root, key) }

  /** The same bindings, and every search, also one for an absent key, ends at the same one. */
  ghost predicate Alike(t: Tree, lv: Levels, t': Tree, lv': Levels) {
    Bindings(t', lv') == Bindings(t, lv) && SameFound(t.nodes, lv, t.root, t'.nodes, lv', t'.root)
  }

  // -------------------------------------------------------------------- the path

  ghost predicate StepAt(t: Tree, lv: Levels, pos: seq<Pos>, j: nat)
    requires j < |pos|
  {
    && pos[j].node in lv && lv[pos[j].node] + j == t.level && pos[j].node in t.nodes && NodeOk(t.nodes[pos[j].node])
    && pos[j].idx < Count(t.nodes[pos[j].node])
  }

  ghost predicate LinkAt(t: Tree, pos: seq<Pos>, j: nat)
    requires j + 1 < |pos|
  {
    && pos[j].node in t.nodes && pos[j].idx < |t.nodes[pos[j].node].kids|
    && t.nodes[pos[j].node].kids[pos[j].idx] == pos[j + 1].node
  }

  /** The stack holds a path from the root to a slot `d` levels down. */
  ghost predicate PathTo(t: Tree, lv: Levels, pos: seq<Pos>, d: nat) {
    && d < |pos| && d < t.level && pos[0].node == t.root
    && (forall j | 0 <= j <= d :: StepAt(t, lv, pos, j))
    && (forall j | 0 <= j < d :: LinkAt(t, pos, j))
  }

  lemma {:induction false} PathWellFormed(t: Tree, lv: Levels, pos: seq<Pos>, d: nat, j: nat) returns (lo: int, hi: int)
    requires TreeOk(t, lv) && PathTo(t, lv, pos, d) && j <= d
    ensures WellFormed(t.nodes, lv, pos[j].node, lo, hi) && hi <= NIL_KEY
  {
    lo, hi := LEFT_MOST_KEY, NIL_KEY;
    if j > 0 {
      lo, hi := PathWellFormed(t, lv, pos, d, j - 1);
      assert StepAt(t, lv, pos, j - 1) && LinkAt(t, pos, j - 1) && StepAt(t, lv, pos, j);
      var s, i := Slots(t.nodes[pos[j - 1].node]), pos[j - 1].idx;
      assert KidOk(t.nodes, lv, s, lv[pos[j - 1].node], hi, i);
      if i + 1 < |s| { SlotsAscending(t.nodes[pos[j - 1].node]); }
      lo, hi := s[i].key, EndOf(s, i, hi);
    }
  }

  // ------------------------------------------------------------------- the halves

  /** Where a full node is cut, and whether the slot of interest goes to the right. */
  method Cut(idx: nat) returns (sp: nat, right: bool)
    requires idx < SLOT_MAX
    ensures 0 < sp < SLOT_MAX && (right <==> idx >= sp)
    ensures sp == if idx == LAST_SLOT then LAST_SLOT else if idx == 0 then 1 else HALF
  {
    right := false;
    if idx == LAST_SLOT {
      sp, right := LAST_SLOT, true;
    } else if idx == 0 {
      sp := 1;
    } else {
      sp := HALF;
      if idx >= sp {
        right := true;
      }
    }
  }

  /** The tree with the two halves of `f` beside it. */
  function WithHalves(t: Tree, f: Id, sp: nat, junk: seq<int>): Tree
    requires f in t.nodes && sp <= SLOT_MAX == |t.nodes[f].keys| && |t.nodes[f].kids| == SLOT_MAX == |junk|
  {
    var l, r := t.next, t.next + 1;
    Tree(t.nodes[l := LeftHalf(t.nodes[f], sp, junk)][r := RightHalf(t.nodes[f], sp, junk)], t.root, t.level,
      t.next + 2)
  }

  ghost function HalfLevels(t: Tree, lv: Levels, f: Id): Levels
    requires f in lv
  {
    lv[t.next := lv[f]][t.next + 1 := lv[f]]
  }

  lemma HalvesMade(t: Tree, lv: Levels, f: Id, sp: nat, junk: seq<int>)
    requires TreeOk(t, lv) && f in lv && f in t.nodes && NodeOk(t.nodes[f]) && Count(t.nodes[f]) == SLOT_MAX
             && 0 < sp < SLOT_MAX && |junk| == SLOT_MAX
    ensures var t', lv', l, r := WithHalves(t, f, sp, junk), HalfLevels(t, lv, f), t.next, t.next + 1;
            && PartOf(t'.nodes, lv', f, 0, sp, l) && PartOf(t'.nodes, lv', f, sp, SLOT_MAX, r)
            && TreeOk(t', lv') && Alike(t, lv, t', lv')
  {
    var t', lv' := WithHalves(t, f, sp, junk), HalfLevels(t, lv, f);
    LeftSlots(t.nodes[f], sp, junk);
    RightSlots(t.nodes[f], sp, junk);
    assert Slots(t.nodes[f])[0..sp] == Slots(t.nodes[f])[..sp]
           && Slots(t.nodes[f])[sp..SLOT_MAX] == Slots(t.nodes[f])[sp..];
    Extended(t.nodes, lv, t'.nodes, lv', t.root, LEFT_MOST_KEY, NIL_KEY);
    ExtendedSame(t.nodes, lv, t'.nodes, lv', t.root, LEFT_MOST_KEY, NIL_KEY);
  }

  /** The position of the slot of interest in its half. */
  function Moved(t: Tree, idx: nat, sp: nat, right: bool): Pos
    requires right ==> idx >= sp
  {
    if right then Pos(t.next + 1, idx - sp) else Pos(t.next, idx)
  }

  // ------------------------------------------------------------------- a new root

  /** `fb_make_new_root` with the two halves of the old root. */
  function RootNode(l: Id, sep: int, r: Id, junk: seq<int>): Node
    requires |junk| == SLOT_MAX
  {
    Node([LEFT_MOST_KEY, sep] + Nils(SLOT_MAX - 2), [l, r] + junk[2..])
  }

  lemma RootSlots(l: Id, sep: int, r: Id, junk: seq<int>)
    requires |junk| == SLOT_MAX && LEFT_MOST_KEY < sep < NIL_KEY
    ensures NodeOk(RootNode(l, sep, r, junk))
            && Slots(RootNode(l, sep, r, junk)) == [Slot(LEFT_MOST_KEY, l), Slot(sep, r)]
  {
    var n := RootNode(l, sep, r, junk);
    assert forall i | 0 <= i < SLOT_MAX ::
           n.keys[i] == if i == 0 then LEFT_MOST_KEY else if i == 1 then sep else NIL_KEY;
    SlotsAre(n, [Slot(LEFT_MOST_KEY, l), Slot(sep, r)]);
  }

  function WithRoot(t: Tree, l: Id, sep: int, r: Id, junk: seq<int>): Tree
    requires |junk| == SLOT_MAX
  {
    Tree(t.nodes[t.next := RootNode(l, sep, r, junk)], t.next, t.level + 1, t.next + 1)
  }

  lemma NewRootOk(t: Tree, lv: Levels, l: Id, sep: int, r: Id, junk: seq<int>)
    requires TreeOk(t, lv) && Halves(t.nodes, lv, t.root, l, r, sep) && |junk| == SLOT_MAX
    ensures LEFT_MOST_KEY < sep < NIL_KEY
    ensures var t', lv' := WithRoot(t, l, sep, r, junk), lv[t.next := t.level + 1];
            TreeOk(t', lv') && Alike(t, lv, t', lv')
  {
    var t', lv' := WithRoot(t, l, sep, r, junk), lv[t.next := t.level + 1];
    var s := [Slot(LEFT_MOST_KEY, l), Slot(sep, r)];
    assert WellFormed(t.nodes, lv, t.root, LEFT_MOST_KEY, NIL_KEY);
    RootSlots(l, sep, r, junk);
    assert KidOk(t.nodes, lv, s, t.level + 1, NIL_KEY, 0) && KidOk(t.nodes, lv, s, t.level + 1, NIL_KEY, 1);
    KidsExtended(t.nodes, lv, t'.nodes, lv', s, t.level + 1, NIL_KEY);
    assert KeyIn(s, LEFT_MOST_KEY, NIL_KEY, 0) && KeyIn(s, LEFT_MOST_KEY, NIL_KEY, 1);
    FlatTwo(t.nodes, lv, s, t.level + 1);
    forall key
      ensures Found(t'.nodes, lv', t'.root, key) == Found(t.nodes, lv, t.root, key)
    {
      RootEntered(t.nodes, lv, l, sep, r, t.level + 1, key);
      EnteredExtended(t.nodes, lv, t'.nodes, lv', s, t.level + 1, NIL_KEY, key);
      assert Found(t.nodes, lv, t.root, key) == HalfFound(t.nodes, lv, l, r, sep, key);
    }
  }

  lemma RootEntered(ns: Nodes, lv: Levels, l: Id, sep: int, r: Id, h: nat, key: int)
    requires LEFT_MOST_KEY < sep && h > 1 && LevelOf(lv, l) < h && LevelOf(lv, r) < h
    ensures Entered(ns, lv, [Slot(LEFT_MOST_KEY, l), Slot(sep, r)], h, key) == HalfFound(ns, lv, l, r, sep, key)
  {
    PickIs([Slot(LEFT_MOST_KEY, l), Slot(sep, r)], key, if key < sep then 0 else 1);
  }

  lemma FlatTwo(ns: Nodes, lv: Levels, s: seq<Slot>, h: nat)
    requires |s| == 2
    ensures Flat(ns, lv, s, h) == Piece(ns, lv, s[0], h) + Piece(ns, lv, s[1], h)
  {
    assert s[1..][1..] == [];
    assert Flat(ns, lv, s[1..][1..], h) == [];
  }

  // ----------------------------------------------------------------- a new parent

  /** The tree with the clone of the parent `p` beside it. */
  function WithParent(t: Tree, p: Id, i: nat, l: Id, sep: int, r: Id): Tree
    requires p in t.nodes && i < LAST_SLOT && |t.nodes[p].keys| == SLOT_MAX == |t.nodes[p].kids|
  {
    t.(nodes := t.nodes[t.next := NewParent(t.nodes[p], i, l, sep, r)], next := t.next + 1)
  }

  /** A child slot overwritten in place. */
  function Overwritten(t: Tree, g: Id, k: nat, n: Id): Tree
    requires g in t.nodes && k < |t.nodes[g].kids|
  {
    t.(nodes := t.nodes[g := t.nodes[g].(kids := t.nodes[g].kids[k := n])])
  }

  /** Hanging the new parent into the grandparent keeps the tree and its bindings. */
  lemma ParentHung(t: Tree, lv: Levels, g: Id, k: nat, p: Id, node: Node)
    requires TreeOk(t, lv) && ParentOf(t.nodes, lv, g, k, p) && p in t.nodes
    requires Stands(t.nodes, lv, p, t.nodes[t.next := node], lv[t.next := lv[p]], t.next)
             && (exists lo, hi :: WellFormed(t.nodes, lv, p, lo, hi))
    ensures var t1 := Tree(t.nodes[t.next := node], t.root, t.level, t.next + 1);
            var t', lv' := Overwritten(t1, g, k, t.next), lv[t.next := lv[p]];
            TreeOk(t', lv') && Alike(t, lv, t', lv')
  {
    var n := t.next;
    var t1, lv' := Tree(t.nodes[n := node], t.root, t.level, n + 1), lv[n := lv[p]];
    var t' := Overwritten(t1, g, k, n);
    StandsBelow(t.nodes, lv, p, t1.nodes, lv', n, t'.nodes, g);
    Lift(t.nodes, lv, t'.nodes, lv', g, k, p, n, t.root, LEFT_MOST_KEY, NIL_KEY);
    forall key
      ensures Found(t'.nodes, lv', t'.root, key) == Found(t.nodes, lv, t.root, key)
    {
      LiftFound(t.nodes, lv, t'.nodes, lv', g, k, p, n, t.root, LEFT_MOST_KEY, NIL_KEY, key);
    }
  }

  /** A change above the new node does not matter to it. */
  lemma StandsBelow(ns: Nodes, lv: Levels, p: Id, ns1: Nodes, lv': Levels, n: Id, ns': Nodes, g: Id)
    requires Stands(ns, lv, p, ns1, lv', n) && g in lv' && lv'[g] > lv'[n]
             && (exists lo, hi :: WellFormed(ns, lv, p, lo, hi))
    requires forall a | a in ns1 && a != g :: a in ns' && ns'[a] == ns1[a]
    ensures Stands(ns, lv, p, ns', lv', n)
  {
    forall lo, hi | WellFormed(ns, lv, p, lo, hi)
      ensures WellFormed(ns', lv', n, lo, hi) && InOrder(ns', lv', n) == InOrder(ns1, lv', n)
    {
      Extended(ns1, lv', ns', lv', n, lo, hi);
    }
    var lo, hi :| WellFormed(ns, lv, p, lo, hi);
    ExtendedSame(ns1, lv', ns', lv', n, lo, hi);
    SameFoundTrans(ns, lv, p, ns1, lv', n, ns', lv', n);
  }

  lemma AlikeTrans(t: Tree, lv: Levels, t1: Tree, lv1: Levels, t2: Tree, lv2: Levels)
    requires Alike(t, lv, t1, lv1) && Alike(t1, lv1, t2, lv2)
    ensures Alike(t, lv, t2, lv2)
  {
    SameFoundTrans(t.nodes, lv, t.root, t1.nodes, lv1, t1.root, t2.nodes, lv2, t2.root);
  }

  // ---------------------------------------------------------------------- the split

  /** Up to level `h` the nodes are as they were. */
  ghost predicate Kept(t: Tree, lv: Levels, t': Tree, lv': Levels, h: int) {
    && t.next <= t'.next
    && (forall a | a in lv :: a in lv' && lv'[a] == lv[a])
    && (forall a | a in lv && a in t.nodes && lv[a] <= h :: a in t'.nodes && t'.nodes[a] == t.nodes[a])
  }

  /** The path after the parent at `d` has become `n`, which now holds both halves. */
  ghost function NewPath(pos: seq<Pos>, d: nat, n: Id, right: bool): seq<Pos>
    requires d < |pos|
  {
    pos[d := Pos(n, if right then pos[d].idx + 1 else pos[d].idx)]
  }

  /** What the parent at `d` is when the halves of its child are to be hung into it. */
  ghost predicate Ready(t: Tree, lv: Levels, pos: seq<Pos>, d: nat, f: Id, l: Id, sep: int, r: Id, right: bool) {
    && TreeOk(t, lv) && PathTo(t, lv, pos, d) && d + 1 < |pos|
    && ParentOf(t.nodes, lv, pos[d].node, pos[d].idx, f) && Count(t.nodes[pos[d].node]) < SLOT_MAX
    && Halves(t.nodes, lv, f, l, r, sep)
    && pos[d + 1].node == (if right then r else l) && StepAt(t, lv, pos, d + 1)
  }

  lemma ParentReady(t: Tree, lv: Levels, pos: seq<Pos>, d: nat, f: Id, l: Id, sep: int, r: Id, right: bool)
    requires Ready(t, lv, pos, d, f, l, sep, r, right)
    ensures var p, i := pos[d].node, pos[d].idx;
            && i < LAST_SLOT && var node := NewParent(t.nodes[p], i, l, sep, r);
            && NodeOk(node) && Slots(node) == SplitSlots(Slots(t.nodes[p]), i, l, sep, r)
            && Stands(t.nodes, lv, p, t.nodes[t.next := node], lv[t.next := lv[p]], t.next)
            && exists lo, hi :: WellFormed(t.nodes, lv, p, lo, hi)
  {
    var lo, hi := PathWellFormed(t, lv, pos, d, d);
    NewParentStands(t.nodes, lv, pos[d].node, pos[d].idx, f, l, r, sep, t.next, lo, hi);
  }

  /** The slot of the new parent that the path follows leads to the right half. */
  lemma ParentStep(n: Node, i: nat, l: Id, sep: int, r: Id, right: bool)
    requires NodeOk(n) && i < Count(n) < SLOT_MAX && i < LAST_SLOT
    requires var node := NewParent(n, i, l, sep, r); NodeOk(node) && Slots(node) == SplitSlots(Slots(n), i, l, sep, r)
    ensures var node, k := NewParent(n, i, l, sep, r), if right then i + 1 else i;
            k < Count(node) && node.kids[k] == if right then r else l
  {
    var node := NewParent(n, i, l, sep, r);
    assert Slots(node)[i].kid == l && Slots(node)[i + 1].kid == r;
  }

  method AttachHalves(t: Tree, ghost lv: Levels, pos: seq<Pos>, d: nat, ghost f: Id, l: Id, sep: int, r: Id,
                      right: bool)
    returns (t': Tree, ghost lv': Levels, pos': seq<Pos>)
    requires Ready(t, lv, pos, d, f, l, sep, r, right)
    ensures TreeOk(t', lv') && t'.level == t.level && Alike(t, lv, t', lv')
    ensures PathTo(t', lv', pos', d + 1) && |pos'| == |pos| && pos'[d + 1..] == pos[d + 1..]
    ensures Kept(t, lv, t', lv', t.level - d - 1)
  {
    ParentReady(t, lv, pos, d, f, l, sep, r, right);
    var p, i, n := pos[d].node, pos[d].idx, t.next;
    var node := NewParent(t.nodes[p], i, l, sep, r);
    ParentStep(t.nodes[p], i, l, sep, r, right);
    t' := WithParent(t, p, i, l, sep, r);
    lv' := lv[n := lv[p]];
    pos' := pos[d := Pos(n, if right then i + 1 else i)];
    if d > 0 {
      var g, k := pos[d - 1].node, pos[d - 1].idx;
      assert StepAt(t, lv, pos, d - 1) && LinkAt(t, pos, d - 1) && StepAt(t, lv, pos, d);
      ParentHung(t, lv, g, k, p, node);
      t' := Overwritten(t', g, k, n);
      PathHung(t, lv, pos, d, n, node, g, k, t', lv', pos', right);
    } else {
      t' := t'.(root := n);
      RootReplaced(t, lv, pos, n, node, t', lv', pos', right);
    }
  }

  lemma PathHung(t: Tree, lv: Levels, pos: seq<Pos>, d: nat, n: Id, node: Node, g: Id, k: nat, t': Tree, lv': Levels,
                 pos': seq<Pos>, right: bool)
    requires TreeOk(t, lv) && 0 < d && d + 1 < |pos| && PathTo(t, lv, pos, d) && StepAt(t, lv, pos, d + 1)
             && lv[pos[d + 1].node] >= 1 && n == t.next
    requires g == pos[d - 1].node && k == pos[d - 1].idx && NodeOk(node)
    requires g in t.nodes && k < |t.nodes[g].kids|
             && t' == Overwritten(Tree(t.nodes[n := node], t.root, t.level, n + 1), g, k, n)
    requires pos[d].node in lv && lv' == lv[n := lv[pos[d].node]] && pos' == NewPath(pos, d, n, right)
    requires pos'[d].idx < Count(node) && node.kids[pos'[d].idx] == pos[d + 1].node
    ensures PathTo(t', lv', pos', d + 1) && Kept(t, lv, t', lv', t.level - d - 1)
  {
    assert StepAt(t, lv, pos, d - 1) && StepAt(t, lv, pos, d);
    RedirectedSlots(t.nodes[g], k, n);
    forall j | 0 <= j <= d + 1
      ensures StepAt(t', lv', pos', j)
    {
      assert StepAt(t, lv, pos, j);
    }
    forall j | 0 <= j < d + 1
      ensures LinkAt(t', pos', j)
    {
      if j < d {
        assert LinkAt(t, pos, j) && StepAt(t, lv, pos, j);
      }
    }
  }

  lemma RootReplaced(t: Tree, lv: Levels, pos: seq<Pos>, n: Id, node: Node, t': Tree, lv': Levels, pos': seq<Pos>,
                     right: bool)
    requires TreeOk(t, lv) && 1 < |pos| && PathTo(t, lv, pos, 0) && StepAt(t, lv, pos, 1) && lv[pos[1].node] >= 1
             && n == t.next && NodeOk(node)
    requires t' == Tree(t.nodes[n := node], n, t.level, n + 1) && lv' == lv[n := t.level]
             && pos' == NewPath(pos, 0, n, right)
    requires Stands(t.nodes, lv, t.root, t'.nodes, lv', n)
    requires pos'[0].idx < Count(node) && node.kids[pos'[0].idx] == pos[1].node
    ensures TreeOk(t', lv') && Alike(t, lv, t', lv')
    ensures PathTo(t', lv', pos', 1) && Kept(t, lv, t', lv', t.level - 1)
  {
    assert StepAt(t, lv, pos, 0);
    assert StepAt(t', lv', pos', 0) && StepAt(t', lv', pos', 1) && LinkAt(t', pos', 0);
  }

  ghost predicate HasRoom(t: Tree, p: Pos) {
    p.node in t.nodes && Count(t.nodes[p.node]) < SLOT_MAX
  }

  /** Everything a split promises its caller. */
  ghost predicate SplitDone(t: Tree, lv: Levels, pos: seq<Pos>, d: nat, t': Tree, lv': Levels, pos': seq<Pos>,
                            d': nat) {
    && PathTo(t, lv, pos, d) && TreeOk(t', lv') && PathTo(t', lv', pos', d')
    && d <= d' <= d + 1 && |pos'| == |pos| + (d' - d) && t'.level == t.level + (d' - d)
    && pos'[d' + 1..] == pos[d + 1..]
    && Alike(t, lv, t', lv')
    && SameSlot(t, pos[d], t', pos'[d'])
    && HasRoom(t', pos'[d'])
    && Kept(t, lv, t', lv', t.level - d)
  }

  /** The two positions hold the same key and the same child. */
  ghost predicate SameSlot(t: Tree, p: Pos, t': Tree, p': Pos) {
    && p.node in t.nodes && p'.node in t'.nodes
    && p.idx < |t.nodes[p.node].keys| && p.idx < |t.nodes[p.node].kids|
    && p'.idx < |t'.nodes[p'.node].keys| && p'.idx < |t'.nodes[p'.node].kids|
    && t'.nodes[p'.node].keys[p'.idx] == t.nodes[p.node].keys[p.idx]
    && t'.nodes[p'.node].kids[p'.idx] == t.nodes[p.node].kids[p.idx]
  }

  /** After the halves are made, the moved position names the same slot. */
  lemma MovedSlot(t: Tree, lv: Levels, p: Pos, sp: nat, right: bool, junk: seq<int>)
    requires p.node in t.nodes && NodeOk(t.nodes[p.node]) && p.idx < SLOT_MAX == Count(t.nodes[p.node])
             && 0 < sp < SLOT_MAX && (right <==> p.idx >= sp)
    requires |junk| == SLOT_MAX && p.node != t.next && p.node != t.next + 1
    ensures var t', q := WithHalves(t, p.node, sp, junk), Moved(t, p.idx, sp, right);
            && SameSlot(t, p, t', q) && NodeOk(t'.nodes[q.node]) && q.idx < Count(t'.nodes[q.node]) < SLOT_MAX
  {
    LeftSlots(t.nodes[p.node], sp, junk);
    RightSlots(t.nodes[p.node], sp, junk);
  }

  predicate FullAt(t: Tree, p: Pos) {
    p.node in t.nodes && |t.nodes[p.node].keys| == SLOT_MAX == |t.nodes[p.node].kids| && Full(t.nodes[p.node])
  }

  /** The halves of `f` exist and the stack points into one of them, but the tree still leads to `f`. */
  ghost predicate Cutting(t: Tree, lv: Levels, pos: seq<Pos>, d: nat, f: Id, l: Id, sp: nat, r: Id, right: bool) {
    && TreeOk(t, lv) && d < |pos| && f in lv && lv[f] >= 1 && lv[f] + d == t.level
    && f in t.nodes && NodeOk(t.nodes[f]) && Count(t.nodes[f]) == SLOT_MAX && 0 < sp < SLOT_MAX
    && PartOf(t.nodes, lv, f, 0, sp, l) && PartOf(t.nodes, lv, f, sp, SLOT_MAX, r)
    && pos[d].node == (if right then r else l) && StepAt(t, lv, pos, d)
    && (if d == 0 then f == t.root else PathTo(t, lv, pos, d - 1) && LeadsTo(t, pos[d - 1], f))
  }

  ghost predicate LeadsTo(t: Tree, p: Pos, f: Id) {
    p.node in t.nodes && p.idx < |t.nodes[p.node].kids| && t.nodes[p.node].kids[p.idx] == f
  }

  /** The tree again leads to where the stack points. */
  ghost predicate Joined(t: Tree, lv: Levels, pos: seq<Pos>, d: nat, t': Tree, lv': Levels, pos': seq<Pos>, d': nat) {
    && d < |pos| && TreeOk(t', lv') && PathTo(t', lv', pos', d')
    && d <= d' <= d + 1 && |pos'| == |pos| + (d' - d) && t'.level == t.level + (d' - d)
    && pos'[d'..] == pos[d..] && Alike(t, lv, t', lv') && Kept(t, lv, t', lv', t.level - d)
  }

  method SplitRoot(t: Tree, ghost lv: Levels, pos: seq<Pos>, ghost f: Id, l: Id, ghost sp: nat, sep: int, r: Id,
                   right: bool, junk: seq<int>)
    returns (t': Tree, ghost lv': Levels, pos': seq<Pos>)
    requires Cutting(t, lv, pos, 0, f, l, sp, r, right) && sep == t.nodes[f].keys[sp] && |junk| == SLOT_MAX
    ensures Joined(t, lv, pos, 0, t', lv', pos', 1)
  {
    SplitHalves(t.nodes, lv, f, l, r, sp);
    NewRootOk(t, lv, l, sep, r, junk);
    t' := WithRoot(t, l, sep, r, junk);
    lv' := lv[t.next := t.level + 1];
    pos' := [Pos(t.next, if right then 1 else 0)] + pos;
    RootPath(t, lv, pos, l, sep, r, right, junk, pos');
  }

  lemma RootPath(t: Tree, lv: Levels, pos: seq<Pos>, l: Id, sep: int, r: Id, right: bool, junk: seq<int>,
                 pos': seq<Pos>)
    requires Fresh(t, lv) && t.level >= 1 && |junk| == SLOT_MAX && LEFT_MOST_KEY < sep < NIL_KEY && |pos| > 0
    requires StepAt(t, lv, pos, 0) && pos[0].node == (if right then r else l)
    requires pos' == [Pos(t.next, if right then 1 else 0)] + pos
    ensures PathTo(WithRoot(t, l, sep, r, junk), lv[t.next := t.level + 1], pos', 1)
    ensures Kept(t, lv, WithRoot(t, l, sep, r, junk), lv[t.next := t.level + 1], t.level)
  {
    RootSlots(l, sep, r, junk);
    var t', lv' := WithRoot(t, l, sep, r, junk), lv[t.next := t.level + 1];
    assert StepAt(t', lv', pos', 0) && StepAt(t', lv', pos', 1) && LinkAt(t', pos', 0);
  }

  /** The cut survives a split of the parent, which only adds nodes at the levels of the halves. */
  lemma CutKept(t: Tree, lv: Levels, pos: seq<Pos>, d: nat, f: Id, l: Id, sp: nat, r: Id, right: bool,
                t': Tree, lv': Levels, pos': seq<Pos>, d': nat)
    requires Cutting(t, lv, pos, d, f, l, sp, r, right) && d > 0 && SplitDone(t, lv, pos, d - 1, t', lv', pos', d')
    ensures Ready(t', lv', pos', d', f, l, t.nodes[f].keys[sp], r, right) && pos'[d' + 1..] == pos[d..]
  {
    assert pos'[d' + 1] == pos'[d' + 1..][0] == pos[d..][0];
    assert StepAt(t', lv', pos', d');
    SplitHalves(t'.nodes, lv', f, l, r, sp);
  }

  method SplitBelow(t: Tree, ghost lv: Levels, pos: seq<Pos>, d: nat, ghost f: Id, l: Id, ghost sp: nat, sep: int,
                    r: Id, right: bool, junk: seq<int>)
    returns (t': Tree, ghost lv': Levels, pos': seq<Pos>, d': nat)
    requires Cutting(t, lv, pos, d, f, l, sp, r, right) && d > 0 && sep == t.nodes[f].keys[sp] && |junk| == SLOT_MAX
    ensures Joined(t, lv, pos, d, t', lv', pos', d')
    decreases d, 0
  {
    var t2, pos2, d2 := t, pos, d - 1;
    ghost var lv2 := lv;
    if FullAt(t, pos[d - 1]) {
      t2, lv2, pos2, d2 := SplitNode(t, lv, pos, d - 1, junk);
      CutKept(t, lv, pos, d, f, l, sp, r, right, t2, lv2, pos2, d2);
    } else {
      RoomReady(t, lv, pos, d, f, l, sp, r, right);
    }
    t', lv', pos' := AttachHalves(t2, lv2, pos2, d2, f, l, sep, r, right);
    AlikeTrans(t, lv, t2, lv2, t', lv');
    d' := d2 + 1;
  }

  lemma RoomReady(t: Tree, lv: Levels, pos: seq<Pos>, d: nat, f: Id, l: Id, sp: nat, r: Id, right: bool)
    requires Cutting(t, lv, pos, d, f, l, sp, r, right) && d > 0 && !FullAt(t, pos[d - 1])
    ensures Ready(t, lv, pos, d - 1, f, l, t.nodes[f].keys[sp], r, right)
  {
    assert StepAt(t, lv, pos, d - 1);
    FullCount(t.nodes[pos[d - 1].node]);
    SplitHalves(t.nodes, lv, f, l, r, sp);
  }

  /** `t1`, `lv1` and `pos1` are the state once the halves of the node at `d` are made. */
  ghost predicate CutFrom(t: Tree, lv: Levels, pos: seq<Pos>, d: nat, sp: nat, right: bool, junk: seq<int>, t1: Tree,
                          lv1: Levels, pos1: seq<Pos>) {
    && d < |pos| && FullAt(t, pos[d]) && pos[d].node in lv && |junk| == SLOT_MAX
    && pos[d].idx < SLOT_MAX && 0 < sp < SLOT_MAX && (right <==> pos[d].idx >= sp)
    && t1 == WithHalves(t, pos[d].node, sp, junk) && lv1 == HalfLevels(t, lv, pos[d].node)
    && pos1 == pos[d := Moved(t, pos[d].idx, sp, right)]
  }

  lemma CutMade(t: Tree, lv: Levels, pos: seq<Pos>, d: nat, sp: nat, right: bool, junk: seq<int>, t1: Tree,
                lv1: Levels, pos1: seq<Pos>)
    requires TreeOk(t, lv) && PathTo(t, lv, pos, d) && CutFrom(t, lv, pos, d, sp, right, junk, t1, lv1, pos1)
    ensures Cutting(t1, lv1, pos1, d, pos[d].node, t.next, sp, t.next + 1, right)
            && Alike(t, lv, t1, lv1)
  {
    assert StepAt(t, lv, pos, d);
    FullCount(t.nodes[pos[d].node]);
    HalvesMade(t, lv, pos[d].node, sp, junk);
    MovedSlot(t, lv, pos[d], sp, right, junk);
    PathCut(t, lv, pos, d, sp, right, junk);
  }

  lemma CutSlot(t: Tree, lv: Levels, pos: seq<Pos>, d: nat, sp: nat, right: bool, junk: seq<int>, t1: Tree,
                lv1: Levels, pos1: seq<Pos>)
    requires Fresh(t, lv) && d < |pos| && StepAt(t, lv, pos, d)
             && CutFrom(t, lv, pos, d, sp, right, junk, t1, lv1, pos1)
    ensures SameSlot(t, pos[d], t1, pos1[d]) && Count(t1.nodes[pos1[d].node]) < SLOT_MAX
    ensures Kept(t, lv, t1, lv1, t.level) && t1.level == t.level && t1.nodes[pos[d].node] == t.nodes[pos[d].node]
  {
    FullCount(t.nodes[pos[d].node]);
    MovedSlot(t, lv, pos[d], sp, right, junk);
  }

  lemma PathCut(t: Tree, lv: Levels, pos: seq<Pos>, d: nat, sp: nat, right: bool, junk: seq<int>)
    requires TreeOk(t, lv) && PathTo(t, lv, pos, d) && FullAt(t, pos[d]) && |junk| == SLOT_MAX
    requires pos[d].node in lv && sp <= SLOT_MAX && (right ==> pos[d].idx >= sp)
    ensures var f := pos[d].node;
            var t1, lv1, pos1 := WithHalves(t, f, sp, junk), HalfLevels(t, lv, f), pos[d := Moved(t, pos[d].idx, sp,
              right)];
            if d == 0 then f == t1.root else PathTo(t1, lv1, pos1, d - 1) && LeadsTo(t1, pos1[d - 1], f)
  {
    var f := pos[d].node;
    var t1, lv1, pos1 := WithHalves(t, f, sp, junk), HalfLevels(t, lv, f), pos[d := Moved(t, pos[d].idx, sp, right)];
    if d > 0 {
      forall j | 0 <= j < d
        ensures StepAt(t1, lv1, pos1, j)
      {
        assert StepAt(t, lv, pos, j);
      }
      forall j | 0 <= j < d - 1
        ensures LinkAt(t1, pos1, j)
      {
        assert LinkAt(t, pos, j) && StepAt(t, lv, pos, j);
      }
      assert LinkAt(t, pos, d - 1) && StepAt(t, lv, pos, d - 1);
    }
  }

  method SplitNode(t: Tree, ghost lv: Levels, pos: seq<Pos>, d: nat, junk: seq<int>)
    returns (t': Tree, ghost lv': Levels, pos': seq<Pos>, d': nat)
    requires TreeOk(t, lv) && PathTo(t, lv, pos, d) && FullAt(t, pos[d]) && |junk| == SLOT_MAX
    ensures SplitDone(t, lv, pos, d, t', lv', pos', d')
    decreases d, 1
  {
    assert StepAt(t, lv, pos, d);
    var f, idx := pos[d].node, pos[d].idx;
    var sp, right := Cut(idx);
    var t1 := WithHalves(t, f, sp, junk);
    ghost var lv1 := HalfLevels(t, lv, f);
    var pos1 := pos[d := Moved(t, idx, sp, right)];
    CutMade(t, lv, pos, d, sp, right, junk, t1, lv1, pos1);
    CutSlot(t, lv, pos, d, sp, right, junk, t1, lv1, pos1);
    if d == 0 {
      t', lv', pos' := SplitRoot(t1, lv1, pos1, f, t.next, sp, t.nodes[f].keys[sp], t.next + 1, right, junk);
      d' := 1;
    } else {
      t', lv', pos', d' := SplitBelow(t1, lv1, pos1, d, f, t.next, sp, t.nodes[f].keys[sp], t.next + 1, right, junk);
    }
    Finish(t, lv, pos, t1, lv1, pos1, d, t', lv', pos', d');
  }

  lemma Finish(t: Tree, lv: Levels, pos: seq<Pos>, t1: Tree, lv1: Levels, pos1: seq<Pos>, d: nat, t': Tree,
               lv': Levels, pos': seq<Pos>, d': nat)
    requires PathTo(t, lv, pos, d) && |pos1| == |pos| && pos1[d + 1..] == pos[d + 1..] && t1.level == t.level
    requires Joined(t1, lv1, pos1, d, t', lv', pos', d') && Alike(t, lv, t1, lv1)
             && Kept(t, lv, t1, lv1, t.level)
    requires StepAt(t1, lv1, pos1, d) && SameSlot(t, pos[d], t1, pos1[d]) && Count(t1.nodes[pos1[d].node]) < SLOT_MAX
    ensures SplitDone(t, lv, pos, d, t', lv', pos', d')
  {
    AlikeTrans(t, lv, t1, lv1, t', lv');
    assert pos'[d'] == pos'[d'..][0] == pos1[d..][0];
    assert pos'[d' + 1..] == pos'[d'..][1..] == pos1[d..][1..];
  }

  // ------------------------------------------------------------ traversal and lookup

  lemma SlotUsed(n: Node, key: int, idx: nat)
    requires NodeOk(n) && Count(n) > 0 && key < NIL_KEY && IsSlot(n.keys, key, idx)
    ensures idx < Count(n)
  {
    if Count(n) < SLOT_MAX { assert n.keys[Count(n)] == NIL_KEY; }
  }

  /** `fb_search_in_node` picks among the used slots. */
  lemma SearchPicks(n: Node, key: int, idx: nat)
    requires NodeOk(n) && Slots(n) != [] && key < NIL_KEY && IsSlot(n.keys, key, idx)
    ensures idx < Count(n) && Pick(Slots(n), key) == idx
  {
    SlotUsed(n, key, idx);
    PickIs(Slots(n), key, idx);
  }

  lemma {:induction false} FlatMember(ns: Nodes, lv: Levels, s: seq<Slot>, h: nat, b: Slot) returns (i: nat)
    requires b in Flat(ns, lv, s, h)
    ensures i < |s| && b in Piece(ns, lv, s[i], h)
    decreases |s|
  {
    if b in Piece(ns, lv, s[0], h) {
      i := 0;
    } else {
      i := FlatMember(ns, lv, s[1..], h, b);
      i := i + 1;
    }
  }

  /** A binding's key lies in the interval of every node above it. */
  lemma {:induction false} BindingInside(ns: Nodes, lv: Levels, id: Id, lo: int, hi: int, b: Slot)
    requires WellFormed(ns, lv, id, lo, hi) && b in InOrder(ns, lv, id)
    ensures lo <= b.key < hi
    decreases LevelOf(lv, id)
  {
    var s := Slots(ns[id]);
    if lv[id] > 1 {
      var i := FlatMember(ns, lv, s, lv[id], b);
      assert KidOk(ns, lv, s, lv[id], hi, i) && KeyIn(s, lo, hi, i);
      BindingInside(ns, lv, s[i].kid, s[i].key, EndOf(s, i, hi), b);
      if i + 1 < |s| { assert KeyIn(s, lo, hi, i + 1); }
    } else {
      var i :| 0 <= i < |s| && s[i] == b;
      assert KeyIn(s, lo, hi, i);
    }
  }

  lemma PickInterval(s: seq<Slot>, key: int, i: nat, hi: int)
    requires Ascending(s) && i < |s| && s[i].key <= key < EndOf(s, i, hi)
    ensures Pick(s, key) == i
  {
    assert i + 1 < |s| ==> key < s[i + 1].key;
    PickIs(s, key, i);
  }

  /** A search for a key that is present ends at its binding. */
  lemma {:induction false} FoundPresent(ns: Nodes, lv: Levels, id: Id, lo: int, hi: int, b: Slot)
    requires WellFormed(ns, lv, id, lo, hi) && b in InOrder(ns, lv, id)
    ensures Found(ns, lv, id, b.key) == b
    decreases LevelOf(lv, id)
  {
    var s := Slots(ns[id]);
    SlotsAscending(ns[id]);
    if lv[id] > 1 {
      var i := FlatMember(ns, lv, s, lv[id], b);
      assert KidOk(ns, lv, s, lv[id], hi, i);
      BindingInside(ns, lv, s[i].kid, s[i].key, EndOf(s, i, hi), b);
      PickInterval(s, b.key, i, hi);
      FoundPresent(ns, lv, s[i].kid, s[i].key, EndOf(s, i, hi), b);
    } else {
      var i :| 0 <= i < |s| && s[i] == b;
      PickIs(s, b.key, i);
    }
  }

  /** `fb_find` follows the search, and takes what it ends at without a look at its key. */
  method Find(t: Tree, ghost lv: Levels, key: int) returns (v: Id)
    requires TreeOk(t, lv) && LEFT_MOST_KEY <= key < NIL_KEY
    ensures v == Answer(t, lv, key).kid
    ensures forall b | b in Bindings(t, lv) && b.key == key :: v == b.kid
  {
    v := t.root;
    var i := t.level;
    ghost var lo, hi := LEFT_MOST_KEY, NIL_KEY;
    while i > 0
      invariant i >= 0
      invariant i > 0 ==> v in lv && lv[v] == i && WellFormed(t.nodes, lv, v, lo, hi)
      invariant i > 0 ==> Found(t.nodes, lv, v, key) == Answer(t, lv, key)
      invariant i == 0 ==> v == Answer(t, lv, key).kid
    {
      var idx := SearchInNode(t.nodes[v], key);
      SearchPicks(t.nodes[v], key, idx);
      ghost var s := Slots(t.nodes[v]);
      assert i > 1 ==> KidOk(t.nodes, lv, s, i, hi, idx);
      lo, hi := s[idx].key, EndOf(s, idx, hi);
      v := t.nodes[v].kids[idx];
      i := i - 1;
    }
    forall b | b in Bindings(t, lv) && b.key == key
      ensures v == b.kid
    {
      FoundPresent(t.nodes, lv, t.root, LEFT_MOST_KEY, NIL_KEY, b);
    }
  }

  ghost predicate SearchedAt(t: Tree, pos: seq<Pos>, key: int, j: nat)
    requires j < |pos|
  {
    pos[j].node in t.nodes && IsSlot(t.nodes[pos[j].node].keys, key, pos[j].idx)
  }

  /** `fb_traverse`: a path to a leaf, each node searched for the key. */
  method Traverse(t: Tree, ghost lv: Levels, key: int) returns (pos: seq<Pos>)
    requires TreeOk(t, lv) && LEFT_MOST_KEY <= key < NIL_KEY
    ensures |pos| == t.level && PathTo(t, lv, pos, t.level - 1)
    ensures forall j | 0 <= j < t.level :: SearchedAt(t, pos, key, j)
  {
    pos := [];
    var id := t.root;
    ghost var lo, hi := LEFT_MOST_KEY, NIL_KEY;
    for i := 0 to t.level
      invariant |pos| == i && (i > 0 ==> pos[0].node == t.root)
      invariant i < t.level ==> id in lv && lv[id] + i == t.level && WellFormed(t.nodes, lv, id, lo, hi)
      invariant i == 0 ==> id == t.root
      invariant forall j | 0 <= j < i :: StepAt(t, lv, pos, j) && SearchedAt(t, pos, key, j)
      invariant forall j | 0 <= j < i - 1 :: LinkAt(t, pos, j)
      invariant i > 0 ==> LeadsTo(t, pos[i - 1], id)
    {
      var idx := SearchInNode(t.nodes[id], key);
      SlotUsed(t.nodes[id], key, idx);
      ghost var before, s := pos, Slots(t.nodes[id]);
      pos := pos + [Pos(id, idx)];
      PathPush(t, lv, before, pos, key);
      if i + 1 < t.level {
        assert KidOk(t.nodes, lv, s, lv[id], hi, idx);
        lo, hi := s[idx].key, EndOf(s, idx, hi);
      }
      id := t.nodes[id].kids[idx];
    }
  }

  lemma PathPush(t: Tree, lv: Levels, before: seq<Pos>, pos: seq<Pos>, key: int)
    requires |pos| == |before| + 1 && before == pos[..|before|]
    requires forall j | 0 <= j < |before| :: StepAt(t, lv, before, j) && SearchedAt(t, before, key, j)
    requires forall j | 0 <= j < |before| - 1 :: LinkAt(t, before, j)
    ensures forall j | 0 <= j < |before| :: StepAt(t, lv, pos, j) && SearchedAt(t, pos, key, j)
    ensures forall j | 0 <= j < |before| - 1 :: LinkAt(t, pos, j)
  {
    forall j | 0 <= j < |before|
      ensures StepAt(t, lv, pos, j) && SearchedAt(t, pos, key, j)
    {
      assert StepAt(t, lv, before, j) && SearchedAt(t, before, key, j);
    }
    forall j | 0 <= j < |before| - 1
      ensures LinkAt(t, pos, j)
    {
      assert LinkAt(t, before, j);
    }
  }
}
