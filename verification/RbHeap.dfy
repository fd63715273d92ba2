/** How a store of nodes stands for a shape, and what pointer surgery does to the shape. */
module RbHeap {
  import opened RbShape

  ghost function Ids(t: Tree): set<Node> {
    match t
    case Leaf => {}
    case Br(x, l, r) => {x.id} + Ids(l) + Ids(r)
  }

  ghost function CtxIds(c: Ctx): set<Node> {
    match c
    case Top => {}
    case Up(s, x, sib, up) => {x.id} + Ids(sib) + CtxIds(up)
  }

  /** No object occurs twice. */
  ghost predicate Separate(t: Tree) {
    t.Br? ==> Separate(t.l) && Separate(t.r) && t.x.id !in Ids(t.l) && t.x.id !in Ids(t.r) && Ids(t.l) !! Ids(t.r)
  }

  ghost predicate CtxSeparate(c: Ctx) {
    c.Up? ==>
      && Separate(c.sib) && CtxSeparate(c.up)
      && c.x.id !in Ids(c.sib) && c.x.id !in CtxIds(c.up) && Ids(c.sib) !! CtxIds(c.up)
  }

  ghost predicate CellAt(m: Store, x: Cell, parent: Node) {
    x.id in m && var f := m[x.id]; f.color == x.c && f.key == x.k && f.data == x.d && f.parent == parent
  }

  /** Below pointer `n` lies the tree `t`; the sentinel's own fields are not looked at. */
  ghost predicate TreeAt(m: Store, t: Tree, n: Node, parent: Node) {
    match t
    case Leaf => n == nil
    case Br(x, l, r) =>
      && n == x.id && CellAt(m, x, parent)
      && TreeAt(m, l, m[n].left, n) && TreeAt(m, r, m[n].right, n)
  }

  ghost function ParentOf(c: Ctx): Node {
    if c.Up? then c.x.id else nil
  }

  /** Around pointer `n`, up to `root`, lies the context `c`. */
  ghost predicate CtxAt(m: Store, c: Ctx, n: Node, root: Node) {
    match c
    case Top => n == root
    case Up(s, x, sib, up) =>
      && CellAt(m, x, ParentOf(up))
      && m[x.id].Kid(s) == n
      && TreeAt(m, sib, m[x.id].Kid(Opp(s)), x.id)
      && CtxAt(m, up, x.id, root)
  }

  ghost predicate Apart(c: Ctx, t: Tree) {
    Separate(t) && CtxSeparate(c) && Ids(t) !! CtxIds(c) && nil !in Ids(t) && nil !in CtxIds(c)
  }

  /** Pointer `n` into the tree at `root` has `t` below it and `c` around it. */
  ghost predicate Zip(m: Store, c: Ctx, t: Tree, n: Node, root: Node) {
    Apart(c, t) && TreeAt(m, t, n, ParentOf(c)) && CtxAt(m, c, n, root)
  }

  lemma IdsMake(s: Side, x: Cell, a: Tree, b: Tree)
    ensures Ids(Make(s, x, a, b)) == {x.id} + Ids(a) + Ids(b)
    ensures Separate(Make(s, x, a, b)) <==>
      Separate(a) && Separate(b) && x.id !in Ids(a) && x.id !in Ids(b) && Ids(a) !! Ids(b)
  {
  }

  lemma TreeAtMake(m: Store, s: Side, x: Cell, a: Tree, b: Tree, n: Node, parent: Node)
    ensures TreeAt(m, Make(s, x, a, b), n, parent) <==>
      && n == x.id && CellAt(m, x, parent)
      && TreeAt(m, a, m[n].Kid(s), n) && TreeAt(m, b, m[n].Kid(Opp(s)), n)
  {
  }

  // ------------------------------------------------------------------- walking

  lemma ZipUp(m: Store, s: Side, x: Cell, sib: Tree, up: Ctx, t: Tree, n: Node, root: Node)
    ensures Zip(m, Up(s, x, sib, up), t, n, root) ==> Zip(m, up, Make(s, x, t, sib), x.id, root)
  {
  }

  lemma ZipDown(m: Store, s: Side, x: Cell, sib: Tree, up: Ctx, t: Tree, root: Node)
    requires Zip(m, up, Make(s, x, t, sib), x.id, root)
    ensures Zip(m, Up(s, x, sib, up), t, m[x.id].Kid(s), root)
  {
  }

  /** From a subtree to its sibling. */
  lemma ZipAcross(m: Store, s: Side, x: Cell, sib: Tree, up: Ctx, t: Tree, n: Node, root: Node)
    requires Zip(m, Up(s, x, sib, up), t, n, root)
    ensures Zip(m, Up(Opp(s), x, t, up), sib, m[x.id].Kid(Opp(s)), root)
  {
    ZipUp(m, s, x, sib, up, t, n, root);
    ZipDown(m, Opp(s), x, t, up, sib, root);
  }

  /** A pointer into the tree stands for the whole tree. */
  lemma {:induction false} ZipWhole(m: Store, c: Ctx, t: Tree, n: Node, root: Node)
    requires Zip(m, c, t, n, root)
    ensures Zip(m, Top, Fill(c, t), root, root)
    ensures Ids(Fill(c, t)) == Ids(t) + CtxIds(c)
  {
    match c
    case Top =>
    case Up(s, x, sib, up) =>
      ZipUp(m, s, x, sib, up, t, n, root);
      ZipWhole(m, up, Make(s, x, t, sib), x.id, root);
  }

  lemma {:induction false} RootInCtx(m: Store, c: Ctx, n: Node, root: Node)
    requires CtxAt(m, c, n, root)
    ensures if c.Top? then root == n else root in CtxIds(c)
  {
    if c.Up? {
      RootInCtx(m, c.up, c.x.id, root);
    }
  }

  // ------------------------------------------------------------------- framing

  ghost predicate SameOn(m: Store, m': Store, S: set<Node>) {
    forall o | o in S && o in m :: o in m' && m'[o] == m[o]
  }

  lemma {:induction false} TreeSame(m: Store, m': Store, t: Tree, n: Node, parent: Node)
    requires TreeAt(m, t, n, parent) && SameOn(m, m', Ids(t))
    ensures TreeAt(m', t, n, parent)
  {
    if t.Br? {
      TreeSame(m, m', t.l, m[n].left, n);
      TreeSame(m, m', t.r, m[n].right, n);
    }
  }

  lemma {:induction false} CtxSame(m: Store, m': Store, c: Ctx, n: Node, root: Node)
    requires CtxAt(m, c, n, root) && SameOn(m, m', CtxIds(c))
    ensures CtxAt(m', c, n, root)
  {
    if c.Up? {
      TreeSame(m, m', c.sib, m[c.x.id].Kid(Opp(c.s)), c.x.id);
      CtxSame(m, m', c.up, c.x.id, root);
    }
  }

  /** A subtree may get a new parent. */
  lemma Reparent(m: Store, m': Store, t: Tree, n: Node, parent: Node, parent': Node)
    requires TreeAt(m, t, n, parent) && Separate(t)
    requires t.Br? ==> SameOn(m, m', Ids(t) - {n}) && n in m' && m'[n] == m[n].(parent := parent')
    ensures TreeAt(m', t, n, parent')
  {
    if t.Br? {
      TreeSame(m, m', t.l, m[n].left, n);
      TreeSame(m, m', t.r, m[n].right, n);
    }
  }

  // ------------------------------------------------------------------- colours

  lemma Painted(m: Store, c: Ctx, t: Tree, n: Node, root: Node, col: Color)
    requires Zip(m, c, t, n, root) && t.Br?
    ensures n in m && Zip(m[n := m[n].(color := col)], c, Paint(t, col), n, root)
  {
    var m' := m[n := m[n].(color := col)];
    TreeSame(m, m', t.l, m[n].left, n);
    TreeSame(m, m', t.r, m[n].right, n);
    CtxSame(m, m', c, n, root);
  }

  /** What the code reads around a pointer. */
  lemma Around(m: Store, c: Ctx, t: Tree, n: Node, root: Node)
    requires Zip(m, c, t, n, root)
    ensures t.Br? ==> n == t.x.id && n != nil && CellAt(m, t.x, ParentOf(c))
    ensures t.Leaf? ==> n == nil
    ensures c.Top? ==> root == n
    ensures c.Up? && n != nil ==> root != n && CellAt(m, c.x, ParentOf(c.up)) && m[c.x.id].Kid(c.s) == n
                                  && m[c.x.id].Kid(Opp(c.s)) != n
  {
    RootInCtx(m, c, n, root);
  }

  // ------------------------------------------------------------------ rotation

  /** `replace_child`: `n` becomes the child that `c` describes. */
  ghost function ReplaceIn(m: Store, c: Ctx, n: Node): Store
    requires n in m && (c.Up? ==> c.x.id in m)
  {
    var m1 := if c.Up? then m[c.x.id := m[c.x.id].SetKid(c.s, n)] else m;
    m1[n := m1[n].(parent := ParentOf(c), color := if c.Top? then Black else m1[n].color)]
  }

  lemma Replaced(m: Store, c: Ctx, n: Node, root: Node, n': Node)
    requires CtxAt(m, c, n, root) && CtxSeparate(c) && n' !in CtxIds(c) && n' in m
    ensures CtxAt(ReplaceIn(m, c, n'), c, n', if c.Top? then n' else root)
  {
    if c.Up? {
      var m' := ReplaceIn(m, c, n');
      TreeSame(m, m', c.sib, m[c.x.id].Kid(Opp(c.s)), c.x.id);
      CtxSame(m, m', c.up, c.x.id, root);
    }
  }

  /** What a pointer to x(a, y(b, e)) says about the store. */
  ghost predicate Rotatable(m: Store, side: Side, c: Ctx, x: Cell, a: Tree, y: Cell, b: Tree, e: Tree, root: Node) {
    && x.id !in {y.id} + Ids(a) + Ids(b) + Ids(e) && y.id !in Ids(a) + Ids(b) + Ids(e)
    && Ids(a) !! Ids(b) && Ids(a) !! Ids(e) && Ids(b) !! Ids(e)
    && CtxIds(c) !! {x.id, y.id} + Ids(a) + Ids(b) + Ids(e)
    && nil !in CtxIds(c) + {x.id, y.id} + Ids(a) + Ids(b) + Ids(e)
    && Separate(a) && Separate(b) && Separate(e) && CtxSeparate(c)
    && CellAt(m, x, ParentOf(c)) && CellAt(m, y, x.id)
    && m[x.id].Kid(Opp(side)) == y.id
    && TreeAt(m, a, m[x.id].Kid(side), x.id)
    && TreeAt(m, b, m[y.id].Kid(side), y.id)
    && TreeAt(m, e, m[y.id].Kid(Opp(side)), y.id)
    && CtxAt(m, c, x.id, root)
  }

  lemma Unfold(m: Store, side: Side, c: Ctx, x: Cell, a: Tree, y: Cell, b: Tree, e: Tree, n: Node, root: Node)
    requires Zip(m, c, Make(side, x, a, Make(side, y, b, e)), n, root)
    ensures n == x.id && Rotatable(m, side, c, x, a, y, b, e, root)
  {
    IdsMake(side, x, a, Make(side, y, b, e));
    IdsMake(side, y, b, e);
    TreeAtMake(m, side, x, a, Make(side, y, b, e), n, ParentOf(c));
    TreeAtMake(m, side, y, b, e, m[n].Kid(Opp(side)), n);
  }

  lemma RotatedApart(m: Store, side: Side, c: Ctx, x: Cell, a: Tree, y: Cell, b: Tree, e: Tree, root: Node)
    requires Rotatable(m, side, c, x, a, y, b, e, root)
    ensures Apart(c, Make(side, Placed(c, y), Make(side, x, a, b), e))
  {
    IdsMake(side, x, a, b);
    IdsMake(side, Placed(c, y), Make(side, x, a, b), e);
  }

  lemma RotatedAt(m': Store, side: Side, c: Ctx, x: Cell, a: Tree, y: Cell, b: Tree, e: Tree)
    requires CellAt(m', x, y.id) && CellAt(m', Placed(c, y), ParentOf(c))
    requires TreeAt(m', a, m'[x.id].Kid(side), x.id) && TreeAt(m', b, m'[x.id].Kid(Opp(side)), x.id)
    requires m'[y.id].Kid(side) == x.id && TreeAt(m', e, m'[y.id].Kid(Opp(side)), y.id)
    ensures TreeAt(m', Make(side, Placed(c, y), Make(side, x, a, b), e), y.id, ParentOf(c))
  {
    TreeAtMake(m', side, x, a, b, x.id, y.id);
    TreeAtMake(m', side, Placed(c, y), Make(side, x, a, b), e, y.id, ParentOf(c));
  }

  ghost predicate RotateOk(m: Store, c: Ctx, side: Side, node: Node) {
    && node in m && m[node].Kid(Opp(side)) in m && m[m[node].Kid(Opp(side))].Kid(side) in m
    && m[node].Kid(Opp(side)) != node
    && (c.Up? ==> c.x.id in m && c.x.id != m[node].Kid(Opp(side)))
  }

  /** The pointer writes of `rotate`. */
  ghost function RotateIn(m: Store, c: Ctx, side: Side, node: Node): Store
    requires RotateOk(m, c, side, node)
  {
    var child := m[node].Kid(Opp(side));
    var grandson := m[child].Kid(side);
    var m1 := m[child := m[child].SetKid(side, node)];
    var m2 := ReplaceIn(m1, c, child);
    var m3 := m2[node := m2[node].(parent := child).SetKid(Opp(side), grandson)];
    if grandson != nil then m3[grandson := m3[grandson].(parent := node)] else m3
  }

  /** What each node's fields are after the writes. */
  lemma RotateFields(m: Store, side: Side, c: Ctx, x: Cell, a: Tree, y: Cell, b: Tree, e: Tree, root: Node)
    requires Rotatable(m, side, c, x, a, y, b, e, root) && nil in m
    ensures var m' := RotateIn(m, c, side, x.id);
      && m'.Keys == m.Keys && m'[nil] == m[nil]
      && m'[x.id] == m[x.id].(parent := y.id).SetKid(Opp(side), m[y.id].Kid(side))
      && m'[y.id] == m[y.id].(parent := ParentOf(c), color := Placed(c, y).c).SetKid(side, x.id)
      && (b.Br? ==> m'[b.x.id] == m[b.x.id].(parent := x.id))
  {
  }

  /** Which nodes the writes do not touch. */
  lemma RotateFrame(m: Store, side: Side, c: Ctx, x: Cell, a: Tree, y: Cell, b: Tree, e: Tree, root: Node)
    requires Rotatable(m, side, c, x, a, y, b, e, root) && nil in m
    ensures var m' := RotateIn(m, c, side, x.id);
      && SameOn(m, m', Ids(a)) && SameOn(m, m', Ids(e)) && (b.Br? ==> SameOn(m, m', Ids(b) - {b.x.id}))
      && SameOn(ReplaceIn(m, c, y.id), m', CtxIds(c))
  {
  }

  /** A rotation turns x(a, y(b, e)) into y(x(a, b), e), on either side. */
  lemma Rotated(m: Store, side: Side, c: Ctx, x: Cell, a: Tree, y: Cell, b: Tree, e: Tree, root: Node)
    requires Rotatable(m, side, c, x, a, y, b, e, root) && nil in m
    ensures RotateIn(m, c, side, x.id).Keys == m.Keys && RotateIn(m, c, side, x.id)[nil] == m[nil]
    ensures Zip(RotateIn(m, c, side, x.id), c, Make(side, Placed(c, y), Make(side, x, a, b), e),
                y.id, if c.Top? then y.id else root)
  {
    var m' := RotateIn(m, c, side, x.id);
    RotateFields(m, side, c, x, a, y, b, e, root);
    RotateFrame(m, side, c, x, a, y, b, e, root);
    Replaced(m, c, x.id, root, y.id);
    CtxSame(ReplaceIn(m, c, y.id), m', c, y.id, if c.Top? then y.id else root);
    TreeSame(m, m', a, m[x.id].Kid(side), x.id);
    TreeSame(m, m', e, m[y.id].Kid(Opp(side)), y.id);
    Reparent(m, m', b, m[y.id].Kid(side), y.id, x.id);
    RotatedApart(m, side, c, x, a, y, b, e, root);
    RotatedAt(m', side, c, x, a, y, b, e);
  }

  /** What the code reads to find the hole of a context. */
  ghost predicate Hole(m: Store, c: Ctx, n: Node, root: Node) {
    && (c.Top? <==> root == n)
    && (c.Up? ==> c.x.id in m && c.x.id != n && m[c.x.id].Kid(c.s) == n && m[c.x.id].Kid(Opp(c.s)) != n)
  }

  lemma HoleAt(m: Store, c: Ctx, n: Node, root: Node)
    requires CtxAt(m, c, n, root) && n !in CtxIds(c) && n != nil
    ensures Hole(m, c, n, root)
  {
    RootInCtx(m, c, n, root);
  }

  lemma Single(m: Store, x: Cell)
    requires x.id != nil && x.id in m && m[x.id] == Rec(x.c, nil, nil, nil, x.k, x.d)
    ensures Zip(m, Top, Br(x, Leaf, Leaf), x.id, x.id)
  {
    assert TreeAt(m, Leaf, nil, x.id);
  }

  /** A new node takes the place of a missing child. */
  lemma Linked(m: Store, c: Ctx, root: Node, x: Cell)
    requires Zip(m, c, Leaf, nil, root) && c.Up? && x.id != nil && x.id !in CtxIds(c)
    requires x.id in m && m[x.id] == Rec(x.c, ParentOf(c), nil, nil, x.k, x.d)
    ensures Zip(m[c.x.id := m[c.x.id].SetKid(c.s, x.id)], c, Br(x, Leaf, Leaf), x.id, root)
  {
    Replaced(m, c, nil, root, x.id);
    assert m[c.x.id := m[c.x.id].SetKid(c.s, x.id)] == ReplaceIn(m, c, x.id);
  }

  lemma BalancedRotationIds(c: Ctx, t: Tree, s: Side)
    requires t.Br? && Kid(t, s).Br?
    ensures Ids(BalancedRotation(c, t, s)) == Ids(t)
  {
  }

  lemma TakeOverIds(c: Ctx, sib: Tree)
    requires c.Up? && sib.Br? && Ids(sib) == Ids(c.sib)
    ensures CtxIds(TakeOver(c, sib)) == CtxIds(c)
  {
    assert Ids(Paint(Kid(sib, Opp(c.s)), Black)) == Ids(Kid(sib, Opp(c.s)));
  }

  lemma LiftSiblingIds(c: Ctx)
    requires c.Up? && c.sib.Br?
    ensures CtxIds(LiftSibling(c)) == CtxIds(c)
  {
  }

  lemma {:induction false} MaxZip(m: Store, c: Ctx, t: Tree, n: Node, root: Node)
    requires Zip(m, c, t, n, root) && t.Br?
    ensures Zip(m, MaxCtx(c, t), MaxTree(t), MaxTree(t).x.id, root)
    decreases t
  {
    if t.r.Br? {
      ZipDown(m, Right, t.x, t.l, c, t.r, root);
      MaxZip(m, Up(Right, t.x, t.l, c), t.r, m[n].right, root);
    }
  }

  /** A node may get another key. */
  lemma Rekeyed(m: Store, c: Ctx, t: Tree, n: Node, root: Node, k: Key)
    requires Zip(m, c, t, n, root) && t.Br?
    ensures n in m && Zip(m[n := m[n].(key := k)], c, Br(t.x.(k := k), t.l, t.r), n, root)
  {
    var m' := m[n := m[n].(key := k)];
    TreeSame(m, m', t.l, m[n].left, n);
    TreeSame(m, m', t.r, m[n].right, n);
    CtxSame(m, m', c, n, root);
  }

  /** `replace_child` puts the only child of a node in the node's place. */
  lemma Unlinked(m: Store, c: Ctx, t: Tree, n: Node, root: Node, s: Side)
    requires Zip(m, c, t, n, root) && t.Br? && Kid(t, Opp(s)).Leaf? && nil in m
    ensures n in m && m[n].Kid(s) in m && (c.Up? ==> c.x.id in m)
    ensures var kid := m[n].Kid(s); var kid' := if c.Top? then Paint(Kid(t, s), Black) else Kid(t, s);
      Zip(ReplaceIn(m, c, kid) - {n}, c, kid', kid, if c.Top? then kid else root)
  {
    var kid, k := m[n].Kid(s), Kid(t, s);
    MakeKids(t, s);
    TreeAtMake(m, s, t.x, k, Leaf, n, ParentOf(c));
    IdsMake(s, t.x, k, Leaf);
    var m' := ReplaceIn(m, c, kid);
    var m2 := m' - {n};
    Replaced(m, c, n, root, kid);
    CtxSame(m', m2, c, kid, if c.Top? then kid else root);
    if k.Br? {
      TreeSame(m, m2, k.l, m[kid].left, kid);
      TreeSame(m, m2, k.r, m[kid].right, kid);
    }
  }
}
