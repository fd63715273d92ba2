/** The red-black tree of src/ywrbtree.cc, over its node pool. */
module RedBlackTree {
  import opened RbShape
  import opened RbHeap
  import opened RbOrder

  class RbTree {
    var mem: Store
    var root: Node
    ghost var shape: Tree

    /** A red-black search tree, with no node in the pool that is not in the tree. */
    ghost predicate Valid()
      reads this
    {
      && At(Top, shape, root)
      && RedBlack(shape) && Sorted(InOrder(shape))
      && mem.Keys == Ids(shape) + {nil}
    }

    ghost function Contents(): map<Key, Data>
      reads this
    {
      MapOf(InOrder(shape))
    }

    /** `rb_create_tree`. */
    constructor ()
      ensures Valid() && Contents() == map[]
    {
      mem := map[nil := Rec(Black, nil, nil, nil, 0, NULL)];
      root := nil;
      shape := Leaf;
    }

    /** The sentinel is black, childless and keyed 0; its parent may be anything. */
    ghost predicate NilOk()
      reads this
    {
      nil in mem && var f := mem[nil]; f.color == Black && f.left == nil && f.right == nil && f.key == 0
                                       && f.data == NULL
    }

    /** Pointer `n` has `t` below it and `c` around it. */
    ghost predicate At(c: Ctx, t: Tree, n: Node)
      reads this
    {
      NilOk() && Zip(mem, c, t, n, root)
    }

    function Parent(n: Node): Node
      requires n in mem
      reads this
    {
      mem[n].parent
    }

    function GetSide(n: Node): Side
      requires n in mem && Parent(n) in mem
      reads this
    {
      if mem[Parent(n)].right == n then Right else Left
    }

    method ReplaceChild(org: Node, new_: Node, ghost c: Ctx)
      requires Hole(mem, c, org, root) && (c.Up? ==> c.x.id != new_)
      requires org in mem && new_ in mem && Parent(org) == ParentOf(c)
      modifies this
      ensures mem == ReplaceIn(old(mem), c, new_)
      ensures root == if c.Top? then new_ else old(root)
    {
      if root == org {
        root := new_;
        mem := mem[new_ := mem[new_].(color := Black)];
        mem := mem[new_ := mem[new_].(parent := nil)];
      } else {
        var parent := Parent(org);
        mem := mem[parent := mem[parent].SetKid(GetSide(org), new_)];
        mem := mem[new_ := mem[new_].(parent := parent)];
      }
    }

    method RotateLinks(node: Node, side: Side, ghost c: Ctx)
      requires RotateOk(mem, c, side, node) && Hole(mem, c, node, root) && Parent(node) == ParentOf(c)
      modifies this
      ensures mem == RotateIn(old(mem), c, side, node)
      ensures root == if c.Top? then old(mem[node].Kid(Opp(side))) else old(root)
    {
      var child := mem[node].Kid(Opp(side));
      var grandson := mem[child].Kid(side);
      mem := mem[child := mem[child].SetKid(side, node)];
      ReplaceChild(node, child, c);
      mem := mem[node := mem[node].(parent := child)];
      mem := mem[node := mem[node].SetKid(Opp(side), grandson)];
      if grandson != nil {
        mem := mem[grandson := mem[grandson].(parent := node)];
      }
    }

    /** `node` goes down on side `side` and its other child comes up. */
    method Rotate(node: Node, side: Side, ghost c: Ctx, ghost x: Cell, ghost a: Tree, ghost y: Cell, ghost b: Tree,
                  ghost e: Tree)
      requires At(c, Make(side, x, a, Make(side, y, b, e)), node)
      modifies this
      ensures At(c, Make(side, Placed(c, y), Make(side, x, a, b), e), y.id)
      ensures mem.Keys == old(mem.Keys)
    {
      Unfold(mem, side, c, x, a, y, b, e, node, root);
      Rotated(mem, side, c, x, a, y, b, e, root);
      HoleAt(mem, c, node, root);
      RotateLinks(node, side, c);
    }

    // ------------------------------------------------------------- walking

    lemma GoUp(c: Ctx, t: Tree, n: Node)
      requires At(c, t, n) && c.Up?
      ensures At(c.up, Make(c.s, c.x, t, c.sib), c.x.id)
    {
      ZipUp(mem, c.s, c.x, c.sib, c.up, t, n, root);
    }

    lemma GoDown(c: Ctx, t: Tree, n: Node, s: Side)
      requires At(c, t, n) && t.Br?
      ensures n in mem && At(Up(s, t.x, Kid(t, Opp(s)), c), Kid(t, s), mem[n].Kid(s))
    {
      MakeKids(t, s);
      ZipDown(mem, s, t.x, Kid(t, Opp(s)), c, Kid(t, s), root);
    }

    lemma GoAcross(c: Ctx, t: Tree, n: Node)
      requires At(c, t, n) && c.Up?
      ensures c.x.id in mem && At(Up(Opp(c.s), c.x, t, c.up), c.sib, mem[c.x.id].Kid(Opp(c.s)))
    {
      ZipAcross(mem, c.s, c.x, c.sib, c.up, t, n, root);
    }

    /** Reading a colour through a pointer. */
    lemma Reads(c: Ctx, t: Tree, n: Node)
      requires At(c, t, n)
      ensures n in mem && (mem[n].color.Red? <==> IsRed(t)) && (n == nil <==> t.Leaf?)
      ensures t.Br? ==> n == t.x.id && Parent(n) == ParentOf(c) && mem[n].color == t.x.c && mem[n].key == t.x.k
                        && mem[n].data == t.x.d
      ensures c.Up? ==> c.x.id in mem && mem[c.x.id].color == c.x.c
      ensures t.Br? ==> (root == n <==> c.Top?) && (c.Up? ==> GetSide(n) == c.s)
    {
      Around(mem, c, t, n, root);
    }

    method SetColor(n: Node, col: Color, ghost c: Ctx, ghost t: Tree)
      requires At(c, t, n) && t.Br?
      modifies this
      ensures At(c, Paint(t, col), n)
      ensures mem.Keys == old(mem.Keys)
    {
      Painted(mem, c, t, n, root, col);
      mem := mem[n := mem[n].(color := col)];
    }

    method BalancedRotate(node: Node, side: Side, ghost c: Ctx, ghost t: Tree)
      requires At(c, t, node) && t.Br? && IsRed(Kid(t, side))
      modifies this
      ensures At(c, BalancedRotation(c, t, side), Kid(t, side).x.id)
      ensures mem.Keys == old(mem.Keys)
    {
      Reads(c, t, node);
      GoDown(c, t, node, side);
      ghost var down, y := Up(side, t.x, Kid(t, Opp(side)), c), Kid(t, side);
      SetColor(mem[node].Kid(side), mem[node].color, down, y);
      GoUp(down, Paint(y, t.x.c), y.x.id);
      ghost var t1 := Make(side, t.x, Paint(y, t.x.c), Kid(t, Opp(side)));
      SetColor(node, Red, c, t1);
      ghost var y1 := y.x.(c := t.x.c);
      assert Paint(t1, Red) == Make(Opp(side), t.x.(c := Red), Kid(t, Opp(side)), Make(Opp(side), y1, Kid(y,
             Opp(side)), Kid(y, side)));
      Rotate(node, Opp(side), c, t.x.(c := Red), Kid(t, Opp(side)), y1, Kid(y, Opp(side)), Kid(y, side));
    }

    // ----------------------------------------------------------- insertion

    /** Removes the red-red edge an inserted or repainted node may have made. */
    method Recover(node: Node, ghost c: Ctx, ghost t: Tree) returns (ghost t': Tree)
      requires At(c, t, node) && RedIntruder(c, t)
      modifies this
      ensures At(Top, t', root) && RedBlack(t')
      ensures InOrder(t') == InOrder(Fill(c, t))
      ensures Ids(t') == Ids(Fill(c, t)) && mem.Keys == old(mem.Keys)
      decreases c
    {
      Reads(c, t, node);
      ZipWhole(mem, c, t, node, root);
      if root == node {
        SetColor(node, Black, c, t);
        t' := Paint(t, Black);
        return;
      }
      if mem[Parent(node)].color == Black {
        FillRedBlack(c, t);
        t' := Fill(c, t);
        return;
      }
      t' := RecoverRedParent(node, c, t);
    }

    method RecoverRedParent(node: Node, ghost c: Ctx, ghost t: Tree) returns (ghost t': Tree)
      requires At(c, t, node) && RedIntruder(c, t) && RedParent(c)
      modifies this
      ensures At(Top, t', root) && RedBlack(t')
      ensures InOrder(t') == InOrder(Fill(c, t))
      ensures Ids(t') == Ids(Fill(c, t)) && mem.Keys == old(mem.Keys)
      decreases c, 0
    {
      ZipWhole(mem, c, t, node, root);
      var uncle := Uncle(node, c, t);
      if mem[uncle].color == Red {
        var grand := Recolor(node, uncle, c, t);
        RecoloredIntrudes(c, t);
        ZipWhole(mem, c.up.up, Recolored(c, t), grand, root);
        t' := Recover(grand, c.up.up, Recolored(c, t));
      } else {
        ghost var c1, t1 := c, t;
        var n := node;
        Reads(c, t, node);
        GoUp(c, t, node);
        Reads(c.up, Make(c.s, c.x, t, c.sib), c.x.id);
        if GetSide(node) != GetSide(Parent(node)) {
          n, c1, t1 := TurnOutside(node, c, t);
        }
        t' := RotateGrand(n, c1, t1);
      }
    }

    method Uncle(node: Node, ghost c: Ctx, ghost t: Tree) returns (u: Node)
      requires At(c, t, node) && t.Br? && c.Up? && c.up.Up?
      ensures u in mem && (mem[u].color.Red? <==> IsRed(c.up.sib))
      ensures c.up.x.id in mem && u == mem[c.up.x.id].Kid(Opp(c.up.s))
    {
      Reads(c, t, node);
      GoUp(c, t, node);
      ghost var p := Make(c.s, c.x, t, c.sib);
      var parent := Parent(node);
      Reads(c.up, p, parent);
      GoAcross(c.up, p, parent);
      u := mem[Parent(parent)].Kid(Opp(GetSide(parent)));
      Reads(Up(Opp(c.up.s), c.up.x, p, c.up.up), c.up.sib, u);
    }

    /** Case 3. */
    method Recolor(node: Node, uncle: Node, ghost c: Ctx, ghost t: Tree) returns (grand: Node)
      requires At(c, t, node) && t.Br? && RedParent(c) && IsRed(c.up.sib)
      requires c.up.x.id in mem && uncle == mem[c.up.x.id].Kid(Opp(c.up.s))
      modifies this
      ensures At(c.up.up, Recolored(c, t), grand)
      ensures mem.Keys == old(mem.Keys)
    {
      Reads(c, t, node);
      GoUp(c, t, node);
      ghost var p := Make(c.s, c.x, t, c.sib);
      var parent := Parent(node);
      SetColor(parent, Black, c.up, p);
      ghost var p' := Paint(p, Black);
      Reads(c.up, p', parent);
      grand := Parent(parent);
      GoAcross(c.up, p', parent);
      ghost var across := Up(Opp(c.up.s), c.up.x, p', c.up.up);
      SetColor(mem[grand].Kid(Opp(GetSide(parent))), Black, across, c.up.sib);
      GoUp(across, Paint(c.up.sib, Black), c.up.sib.x.id);
      SetColor(grand, Red, c.up.up, Make(Opp(c.up.s), c.up.x, Paint(c.up.sib, Black), p'));
    }

    /** Case 4. */
    method TurnOutside(node: Node, ghost c: Ctx, ghost t: Tree) returns (n: Node, ghost c': Ctx, ghost t': Tree)
      requires At(c, t, node) && RedIntruder(c, t) && RedParent(c) && c.s != c.up.s
      modifies this
      ensures At(c', t', n) && RedIntruder(c', t') && RedParent(c') && c'.up == c.up && c'.s == c.up.s
      ensures InOrder(Fill(c', t')) == InOrder(Fill(c, t))
      ensures Ids(Fill(c', t')) == Ids(Fill(c, t)) && mem.Keys == old(mem.Keys)
    {
      Reads(c, t, node);
      ZipWhole(mem, c, t, node, root);
      GoUp(c, t, node);
      var parent := Parent(node);
      ghost var p := Make(c.s, c.x, t, c.sib);
      Reads(c.up, p, parent);
      var s := GetSide(parent);
      MakeKids(t, s);
      Rotate(parent, s, c.up, c.x, c.sib, t.x, Kid(t, s), Kid(t, c.s));
      Reads(c.up, Outside(c, t), node);
      GoDown(c.up, Outside(c, t), node, s);
      n := mem[node].Kid(GetSide(node));
      c', t' := Up(s, t.x, Kid(t, c.s), c.up), Make(s, c.x, c.sib, Kid(t, s));
      OutsideIntrudes(c, t);
      ZipWhole(mem, c', t', n, root);
    }

    /** Case 5. */
    method RotateGrand(node: Node, ghost c: Ctx, ghost t: Tree) returns (ghost t': Tree)
      requires At(c, t, node) && RedIntruder(c, t) && RedParent(c) && c.s == c.up.s && !IsRed(c.up.sib)
      modifies this
      ensures At(Top, t', root) && RedBlack(t')
      ensures InOrder(t') == InOrder(Fill(c, t))
      ensures Ids(t') == Ids(Fill(c, t)) && mem.Keys == old(mem.Keys)
    {
      Reads(c, t, node);
      ZipWhole(mem, c, t, node, root);
      GoUp(c, t, node);
      var parent := Parent(node);
      ghost var p := Make(c.s, c.x, t, c.sib);
      Reads(c.up, p, parent);
      GoUp(c.up, p, parent);
      ghost var g := Make(c.up.s, c.up.x, p, c.up.sib);
      BalancedRotate(Parent(parent), GetSide(node), c.up.up, g);
      RotatedFits(c, t);
      t' := Fill(c.up.up, BalancedRotation(c.up.up, g, c.s));
      ZipWhole(mem, c.up.up, BalancedRotation(c.up.up, g, c.s), c.x.id, root);
    }

    /**
     `__traverse`: the pointer it returns is the child field of `parent` on side
     `side`, or the root field when there is no parent.
     */
    method Traverse(key: Key) returns (cur: Node, parent: Node, side: Side, ghost c: Ctx, ghost t: Tree)
      requires At(Top, shape, root) && Sorted(InOrder(shape))
      ensures At(c, t, cur) && Fill(c, t) == shape
      ensures t.Br? ==> t.x.k == key && t == Lookup(shape, key)
      ensures t.Leaf? ==> Surrounds(c, key)
      ensures parent == ParentOf(c) && (c.Up? ==> side == c.s)
    {
      cur, parent, side := root, nil, Left;
      c, t := Top, shape;
      Reads(c, t, cur);
      while key != mem[cur].key
        invariant At(c, t, cur) && Fill(c, t) == shape && Surrounds(c, key) && Lookup(t, key) == Lookup(shape, key)
        invariant cur in mem && (cur == nil <==> t.Leaf?) && (t.Br? ==> mem[cur].key == t.x.k)
        invariant parent == ParentOf(c) && (c.Up? ==> side == c.s)
        decreases t
      {
        if cur == nil {
          break;
        }
        SearchStep(c, t, key);
        side := if mem[cur].key < key then Right else Left;
        parent := cur;
        GoDown(c, t, cur, side);
        MakeKids(t, side);
        cur := mem[cur].Kid(side);
        c, t := Up(side, t.x, Kid(t, Opp(side)), c), Kid(t, side);
        Reads(c, t, cur);
      }
    }

    method Find(key: Key) returns (d: Data)
      requires Valid()
      ensures d == if key in Contents() then Contents()[key] else NULL
    {
      var cur := root;
      ghost var c, t := Top, shape;
      Reads(c, t, cur);
      while key != mem[cur].key
        invariant At(c, t, cur) && Fill(c, t) == shape && Surrounds(c, key)
        invariant cur in mem && (cur == nil <==> t.Leaf?)
        invariant t.Br? ==> mem[cur].key == t.x.k && mem[cur].data == t.x.d
        decreases t
      {
        if cur == nil {
          break;
        }
        SearchStep(c, t, key);
        var side := if mem[cur].key < key then Right else Left;
        GoDown(c, t, cur, side);
        MakeKids(t, side);
        cur := mem[cur].Kid(side);
        c, t := Up(side, t.x, Kid(t, Opp(side)), c), Kid(t, side);
        Reads(c, t, cur);
      }
      if t.Br? {
        MapOfNode(c, t);
      } else {
        MapOfGap(c, Cell(nil, Black, key, NULL));
      }
      d := mem[cur].data;
    }

    /** Links a new red leaf into the hole the search found. */
    method LinkLeaf(node: Node, key: Key, data: Data, parent: Node, side: Side, ghost c: Ctx)
      requires At(c, Leaf, nil) && c.Up? && parent == c.x.id && side == c.s
      requires node != nil && node !in CtxIds(c) && node in mem && mem[node] == Rec(Red, nil, nil, nil, key, data)
      modifies this`mem
      ensures At(c, Br(Cell(node, Red, key, data), Leaf, Leaf), node) && mem.Keys == old(mem.Keys)
    {
      ghost var m := mem;
      Reads(c, Leaf, nil);
      mem := mem[node := mem[node].(parent := parent)];
      CtxSame(m, mem, c, nil, root);
      Linked(mem, c, root, Cell(node, Red, key, data));
      mem := mem[parent := mem[parent].SetKid(side, node)];
    }

    /** The part of `rb_insert` after the search found a missing child. */
    method LinkAndRecover(node: Node, key: Key, data: Data, parent: Node, side: Side, ghost c: Ctx)
      requires At(c, Leaf, nil) && Fill(c, Leaf) == shape && c.Up? && parent == c.x.id && side == c.s
      requires RedBlack(shape) && Sorted(InOrder(shape)) && Surrounds(c, key)
      requires node != nil && node !in CtxIds(c) && mem.Keys == Ids(shape) + {nil, node}
      requires mem[node] == Rec(Red, nil, nil, nil, key, data)
      modifies this
      ensures Valid()
      ensures key !in old(Contents()) && Contents() == old(Contents())[key := data]
    {
      ghost var x := Cell(node, Red, key, data);
      ZipWhole(mem, c, Leaf, nil, root);
      LinkLeaf(node, key, data, parent, side, c);
      LeafIntrudes(c, x);
      MapOfGap(c, x);
      RecoverWhole(node, c, Br(x, Leaf, Leaf));
    }

    /** `recover` at a node whose tree is otherwise in order. */
    method RecoverWhole(node: Node, ghost c: Ctx, ghost t: Tree)
      requires At(c, t, node) && RedIntruder(c, t) && Sorted(InOrder(Fill(c, t)))
      requires mem.Keys == Ids(t) + CtxIds(c) + {nil}
      modifies this
      ensures Valid() && Contents() == MapOf(InOrder(Fill(c, t)))
    {
      ZipWhole(mem, c, t, node, root);
      shape := Recover(node, c, t);
    }

    method Insert(key: Key, data: Data, addr: Alloc) returns (ok: bool)
      requires Valid()
      requires addr.Got? ==> addr.n !in mem
      modifies this
      ensures Valid()
      ensures ok <==> addr.Got? && key !in old(Contents())
      ensures ok ==> Contents() == old(Contents())[key := data]
      ensures !ok ==> mem == old(mem) && root == old(root) && shape == old(shape)
    {
      if addr.Failed? {
        return false;
      }
      var node := addr.n;
      ghost var m := mem;
      mem := mem[node := Rec(Red, nil, nil, nil, key, data)];
      TreeSame(m, mem, shape, root, nil);
      if root != nil {
        ok := InsertBelow(node, key, data, m);
      } else {
        InsertFirst(node, key, data);
        ok := true;
      }
    }

    /** `rb_insert` into a tree that has a root; `m` is the pool before the new node. */
    method InsertBelow(node: Node, key: Key, data: Data, ghost m: Store) returns (ok: bool)
      requires At(Top, shape, root) && RedBlack(shape) && Sorted(InOrder(shape)) && root != nil
      requires node !in m && mem == m[node := Rec(Red, nil, nil, nil, key, data)] && m.Keys == Ids(shape) + {nil}
      modifies this
      ensures ok <==> key !in old(Contents())
      ensures ok ==> Valid() && Contents() == old(Contents())[key := data]
      ensures !ok ==> mem == m && root == old(root) && shape == old(shape)
    {
      var cur, parent, side, c, t := Traverse(key);
      ZipWhole(mem, c, t, cur, root);
      Reads(c, t, cur);
      if cur != nil {
        MapOfNode(c, t);
        mem := mem - {node};
        assert mem == m;
        return false;
      }
      LinkAndRecover(node, key, data, parent, side, c);
      return true;
    }

    /** `rb_insert` into an empty tree: the node becomes a black root. */
    method InsertFirst(node: Node, key: Key, data: Data)
      requires At(Top, shape, root) && root == nil && node != nil
      requires node in mem && mem[node] == Rec(Red, nil, nil, nil, key, data)
      requires mem.Keys == Ids(shape) + {nil, node}
      modifies this
      ensures Valid() && old(shape) == Leaf && Contents() == map[key := data]
    {
      Reads(Top, shape, root);
      root := node;
      mem := mem[node := mem[node].(color := Black)];
      Single(mem, Cell(node, Black, key, data));
      shape := Br(Cell(node, Black, key, data), Leaf, Leaf);
      MakeColors(Left, Cell(node, Black, key, data), Leaf, Leaf);
      assert InOrder(shape) == [(key, data)] && MapOf([(key, data)]) == map[key := data];
    }

    // ------------------------------------------------------------- removal

    method PaintSibling(s: Node, col: Color, ghost c: Ctx, ghost t: Tree, ghost n: Node)
      requires At(c, t, n) && t.Br? && c.Up? && c.sib.Br? && c.x.id in mem && s == mem[c.x.id].Kid(Opp(c.s))
      modifies this
      ensures At(c.(sib := Paint(c.sib, col)), t, n)
      ensures mem.Keys == old(mem.Keys)
    {
      GoAcross(c, t, n);
      ghost var across := Up(Opp(c.s), c.x, t, c.up);
      SetColor(s, col, across, c.sib);
      GoAcross(across, Paint(c.sib, col), s);
      Reads(c.(sib := Paint(c.sib, col)), t, mem[c.x.id].Kid(c.s));
      Reads(across, Paint(c.sib, col), s);
    }

    method PaintParent(parent: Node, col: Color, ghost c: Ctx, ghost t: Tree, ghost n: Node)
      requires At(c, t, n) && t.Br? && c.Up? && parent == c.x.id
      modifies this
      ensures At(c.(x := c.x.(c := col)), t, n)
      ensures mem.Keys == old(mem.Keys)
    {
      GoUp(c, t, n);
      ghost var p := Make(c.s, c.x, t, c.sib);
      SetColor(parent, col, c.up, p);
      GoDown(c.up, Paint(p, col), parent, c.s);
      Reads(c.(x := c.x.(c := col)), t, mem[parent].Kid(c.s));
    }

    /** The sibling of a node, and what the rebalancing code reads of it. */
    method Sibling(node: Node, ghost c: Ctx, ghost t: Tree) returns (s: Node)
      requires At(c, t, node) && t.Br? && c.Up? && c.sib.Br?
      ensures c.x.id in mem && s == mem[c.x.id].Kid(Opp(c.s)) && s == c.sib.x.id
      ensures s in mem && mem[s].color == c.sib.x.c && Parent(s) == c.x.id && mem[c.x.id].color == c.x.c
      ensures mem[s].left in mem && (mem[mem[s].left].color.Red? <==> IsRed(c.sib.l))
      ensures mem[s].right in mem && (mem[mem[s].right].color.Red? <==> IsRed(c.sib.r))
    {
      Reads(c, t, node);
      GoAcross(c, t, node);
      s := mem[Parent(node)].Kid(Opp(GetSide(node)));
      ghost var across := Up(Opp(c.s), c.x, t, c.up);
      Reads(across, c.sib, s);
      GoDown(across, c.sib, s, Left);
      Reads(Up(Left, c.sib.x, c.sib.r, across), c.sib.l, mem[s].left);
      GoDown(across, c.sib, s, Right);
      Reads(Up(Right, c.sib.x, c.sib.l, across), c.sib.r, mem[s].right);
    }

    /** Prepares the removal of a black node: the paths outside it do with one black less. */
    method RecoverBlackCount(node: Node, ghost n: nat, ghost c: Ctx, ghost t: Tree) returns (ghost c': Ctx)
      requires At(c, t, node) && t.Br? && t.x.c.Black? && Deficient(c, n)
      modifies this
      ensures At(c', t, node) && Settled(c', c, n)
      ensures CtxIds(c') == CtxIds(c) && mem.Keys == old(mem.Keys)
      decreases BlackDepth(c), if c.Up? && IsRed(c.sib) then 1 else 0
    {
      Reads(c, t, node);
      var side := GetSide(node);
      if Parent(node) == nil {
        c' := c;
        return;
      }
      SiblingFacts(c, n);
      var s := Sibling(node, c, t);
      var kidsBlack := mem[mem[s].left].color == Black && mem[mem[s].right].color == Black;
      if mem[Parent(s)].color == Black && mem[s].color == Black && kidsBlack {
        c' := PassUp(node, s, n, c, t);
        return;
      }
      if mem[Parent(s)].color == Red && kidsBlack {
        c' := SwapWithRedParent(node, s, n, c, t);
        return;
      }
      if mem[s].color == Red {
        LiftRedSibling(node, side, c, t);
        LiftSiblingDeficient(c, n);
        LiftSiblingIds(c);
        c' := RecoverBlackCount(node, n, LiftSibling(c), t);
        return;
      }
      c' := BringBlack(node, s, side, n, c, t);
    }

    method PassUp(node: Node, s: Node, ghost n: nat, ghost c: Ctx, ghost t: Tree) returns (ghost c': Ctx)
      requires At(c, t, node) && t.Br? && t.x.c.Black? && Deficient(c, n) && c.Up? && c.x.c.Black?
      requires !IsRed(c.sib) && c.sib.Br? && !IsRed(c.sib.l) && !IsRed(c.sib.r)
      requires c.x.id in mem && s == mem[c.x.id].Kid(Opp(c.s))
      modifies this
      ensures At(c', t, node) && Settled(c', c, n)
      ensures CtxIds(c') == CtxIds(c) && mem.Keys == old(mem.Keys)
      decreases BlackDepth(c), 0, 0
    {
      ghost var c1 := c.(sib := Paint(c.sib, Red));
      PaintSibling(s, Red, c, t, node);
      Reads(c1, t, node);
      GoUp(c1, t, node);
      ghost var p := Make(c.s, c.x, t, c1.sib);
      SiblingFacts(c, n);
      ghost var up' := RecoverBlackCount(Parent(node), n + 1, c.up, p);
      GoDown(up', p, c.x.id, c.s);
      c' := Up(c.s, c.x, c1.sib, up');
      Reads(c', t, mem[c.x.id].Kid(c.s));
      BlackParentSettled(c, n, up');
    }

    method SwapWithRedParent(node: Node, s: Node, ghost n: nat, ghost c: Ctx, ghost t: Tree) returns (ghost c': Ctx)
      requires At(c, t, node) && t.Br? && Deficient(c, n) && c.Up? && c.x.c.Red?
      requires c.sib.Br? && !IsRed(c.sib.l) && !IsRed(c.sib.r)
      requires c.x.id in mem && s == mem[c.x.id].Kid(Opp(c.s))
      modifies this
      ensures At(c', t, node) && Settled(c', c, n)
      ensures CtxIds(c') == CtxIds(c) && mem.Keys == old(mem.Keys)
    {
      ghost var c1 := c.(sib := Paint(c.sib, Red));
      PaintSibling(s, Red, c, t, node);
      Reads(c1, t, node);
      PaintParent(Parent(node), Black, c1, t, node);
      c' := Up(c.s, c.x.(c := Black), c1.sib, c.up);
      RedParentSettled(c, n);
    }

    method LiftRedSibling(node: Node, side: Side, ghost c: Ctx, ghost t: Tree)
      requires At(c, t, node) && t.Br? && c.Up? && IsRed(c.sib) && side == c.s
      modifies this
      ensures At(LiftSibling(c), t, node)
      ensures mem.Keys == old(mem.Keys)
    {
      Reads(c, t, node);
      GoUp(c, t, node);
      ghost var p := Make(c.s, c.x, t, c.sib);
      BalancedRotate(Parent(node), Opp(side), c.up, p);
      ghost var q := BalancedRotation(c.up, p, Opp(side));
      GoDown(c.up, q, c.sib.x.id, side);
      ghost var c1 := Up(side, q.x, Kid(q, Opp(side)), c.up);
      GoDown(c1, Kid(q, side), c.x.id, side);
      Reads(c1, Kid(q, side), mem[c.sib.x.id].Kid(side));
      Reads(LiftSibling(c), t, mem[c.x.id].Kid(side));
    }

    method BringBlack(node: Node, sibling: Node, side: Side, ghost n: nat, ghost c: Ctx,
                      ghost t: Tree) returns (ghost c': Ctx)
      requires At(c, t, node) && t.Br? && Deficient(c, n) && c.Up? && side == c.s
      requires c.sib.Br? && !IsRed(c.sib) && (IsRed(c.sib.l) || IsRed(c.sib.r))
      requires c.x.id in mem && sibling == mem[c.x.id].Kid(Opp(c.s)) && sibling in mem && mem[sibling].Kid(side) in mem
      requires mem[mem[sibling].Kid(side)].color.Red? <==> IsRed(Kid(c.sib, side))
      modifies this
      ensures At(c', t, node) && Settled(c', c, n)
      ensures CtxIds(c') == CtxIds(c) && mem.Keys == old(mem.Keys)
    {
      var s := sibling;
      ghost var sib := c.sib;
      if mem[mem[s].Kid(side)].color == Red {
        s := TurnOuter(node, s, side, n, c, t);
        sib := BalancedRotation(Up(Opp(c.s), c.x, t, c.up), c.sib, c.s);
        BalancedRotationIds(Up(Opp(c.s), c.x, t, c.up), c.sib, c.s);
      } else {
        AlreadyOuter(c, n);
      }
      RotateSiblingUp(node, s, side, c.(sib := sib), t);
      TakeOverSettled(c, n, sib);
      c' := TakeOver(c, sib);
      TakeOverIds(c, sib);
    }

    method TurnOuter(node: Node, sibling: Node, side: Side, ghost n: nat, ghost c: Ctx, ghost t: Tree) returns (s: Node)
      requires At(c, t, node) && t.Br? && Deficient(c, n) && c.Up? && side == c.s
      requires c.sib.Br? && !IsRed(c.sib) && IsRed(Kid(c.sib, side))
      requires c.x.id in mem && sibling == mem[c.x.id].Kid(Opp(c.s))
      modifies this
      ensures var sib := BalancedRotation(Up(Opp(c.s), c.x, t, c.up), c.sib, c.s);
        && At(c.(sib := sib), t, node) && OuterRed(c.s, sib, n) && InOrder(sib) == InOrder(c.sib)
      ensures c.x.id in mem && s == mem[c.x.id].Kid(Opp(c.s))
      ensures mem.Keys == old(mem.Keys)
    {
      Reads(c, t, node);
      GoAcross(c, t, node);
      ghost var across := Up(Opp(c.s), c.x, t, c.up);
      BalancedRotate(sibling, side, across, c.sib);
      ghost var sib := BalancedRotation(across, c.sib, c.s);
      InnerToOuter(c, across, n);
      GoAcross(across, sib, Kid(c.sib, side).x.id);
      Reads(c.(sib := sib), t, mem[c.x.id].Kid(c.s));
      s := Sibling(node, c.(sib := sib), t);
    }

    /** The last four statements of the rebalancing. */
    method RotateSiblingUp(node: Node, s: Node, side: Side, ghost c: Ctx, ghost t: Tree)
      requires At(c, t, node) && t.Br? && c.Up? && side == c.s && c.sib.Br? && Kid(c.sib, Opp(side)).Br?
      requires c.x.id in mem && s == mem[c.x.id].Kid(Opp(c.s))
      modifies this
      ensures At(TakeOver(c, c.sib), t, node)
      ensures mem.Keys == old(mem.Keys)
    {
      Reads(c, t, node);
      var parent := Parent(node);
      PaintSibling(s, mem[parent].color, c, t, node);
      ghost var sib1 := Paint(c.sib, c.x.c);
      Reads(c.(sib := sib1), t, node);
      PaintParent(parent, Black, c.(sib := sib1), t, node);
      ghost var c1 := Up(c.s, c.x.(c := Black), sib1, c.up);
      Reads(c1, t, node);
      PaintOuterNephew(node, s, side, c1, t);
      ghost var far := Paint(Kid(c.sib, Opp(side)), Black);
      ghost var sib2 := Make(side, sib1.x, Kid(c.sib, side), far);
      GoUp(c1.(sib := sib2), t, node);
      Rotate(parent, side, c.up, c1.x, t, sib1.x, Kid(c.sib, side), far);
      ghost var y := Placed(c.up, sib1.x);
      ghost var q := Make(side, y, Make(side, c1.x, t, Kid(c.sib, side)), far);
      GoDown(c.up, q, y.id, side);
      ghost var c2 := Up(side, y, far, c.up);
      Reads(c2, Kid(q, side), mem[y.id].Kid(side));
      GoDown(c2, Kid(q, side), parent, side);
      Reads(TakeOver(c, c.sib), t, mem[parent].Kid(side));
    }

    method PaintOuterNephew(node: Node, s: Node, side: Side, ghost c: Ctx, ghost t: Tree)
      requires At(c, t, node) && t.Br? && c.Up? && side == c.s && c.sib.Br? && Kid(c.sib, Opp(side)).Br?
      requires c.x.id in mem && s == mem[c.x.id].Kid(Opp(c.s))
      modifies this
      ensures At(c.(sib := Make(side, c.sib.x, Kid(c.sib, side), Paint(Kid(c.sib, Opp(side)), Black))), t, node)
      ensures mem.Keys == old(mem.Keys)
    {
      Reads(c, t, node);
      GoAcross(c, t, node);
      ghost var across := Up(Opp(c.s), c.x, t, c.up);
      GoDown(across, c.sib, s, Opp(side));
      ghost var down, far := Up(Opp(side), c.sib.x, Kid(c.sib, side), across), Kid(c.sib, Opp(side));
      SetColor(mem[s].Kid(Opp(side)), Black, down, far);
      GoUp(down, Paint(far, Black), far.x.id);
      ghost var sib := Make(Opp(side), c.sib.x, Paint(far, Black), Kid(c.sib, side));
      GoAcross(across, sib, c.sib.x.id);
      Reads(c.(sib := sib), t, mem[c.x.id].Kid(c.s));
    }

    /** The end of `rb_remove`: rebalance, splice out and free a node with at most one child. */
    method SpliceOut(target: Node, child: Node, ghost s: Side, ghost c: Ctx, ghost t: Tree) returns (ghost t': Tree)
      requires At(c, t, target) && t.Br? && Fits(c, t) && Kid(t, Opp(s)).Leaf?
      requires target in mem && child == mem[target].Kid(s)
      requires mem.Keys == Ids(t) + CtxIds(c) + {nil}
      modifies this
      ensures At(Top, t', root) && RedBlack(t')
      ensures InOrder(t') == Before(c) + InOrder(Kid(t, s)) + After(c)
      ensures mem.Keys == Ids(t') + {nil}
    {
      Reads(c, t, target);
      GoDown(c, t, target, s);
      Reads(Up(s, t.x, Leaf, c), Kid(t, s), child);
      ghost var c' := c;
      if mem[target].color == Black {
        c' := RecoverBlackCount(target, Blacks(t), c, t);
      }
      OnlyChildFits(c, c', t, s);
      GoDown(c', t, target, s);
      Reads(Up(s, t.x, Leaf, c'), Kid(t, s), mem[target].Kid(s));
      t' := Detach(target, child, s, c', t);
      FillInOrder(c', if c'.Top? then Paint(Kid(t, s), Black) else Kid(t, s));
    }

    method Detach(target: Node, child: Node, ghost s: Side, ghost c: Ctx, ghost t: Tree) returns (ghost t': Tree)
      requires At(c, t, target) && t.Br? && Kid(t, Opp(s)).Leaf?
      requires target in mem && child == mem[target].Kid(s)
      requires mem.Keys == Ids(t) + CtxIds(c) + {nil}
      modifies this
      ensures t' == Fill(c, if c.Top? then Paint(Kid(t, s), Black) else Kid(t, s))
      ensures At(Top, t', root) && mem.Keys == Ids(t') + {nil}
    {
      Unlinked(mem, c, t, target, root, s);
      Reads(c, t, target);
      HoleAt(mem, c, target, root);
      GoDown(c, t, target, s);
      ghost var kid := if c.Top? then Paint(Kid(t, s), Black) else Kid(t, s);
      ReplaceChild(target, child, c);
      mem := mem - {target};
      ZipWhole(mem, c, kid, child, root);
      t' := Fill(c, kid);
    }

    method GetMaximum(node: Node, ghost c: Ctx, ghost t: Tree) returns (n: Node)
      requires At(c, t, node) && t.Br?
      ensures n == MaxTree(t).x.id
    {
      n := node;
      ghost var c', t' := c, t;
      Reads(c', t', n);
      GoDown(c', t', n, Right);
      Reads(Up(Right, t'.x, t'.l, c'), t'.r, mem[n].right);
      while mem[n].right != nil
        invariant At(c', t', n) && t'.Br? && MaxTree(t') == MaxTree(t)
        invariant n in mem && n == t'.x.id && (mem[n].right == nil <==> t'.r.Leaf?)
        decreases t'
      {
        GoDown(c', t', n, Right);
        n := mem[n].right;
        c', t' := Up(Right, t'.x, t'.l, c'), t'.r;
        Reads(c', t', n);
        GoDown(c', t', n, Right);
        Reads(Up(Right, t'.x, t'.l, c'), t'.r, mem[n].right);
      }
    }

    /** `rb_remove` of a node with two children: only the key of the predecessor moves up. */
    method RemoveByPredecessor(target: Node, ghost c: Ctx, ghost t: Tree) returns (ghost t': Tree)
      requires At(c, t, target) && t.Br? && t.l.Br? && Fits(c, t) && Sorted(InOrder(Fill(c, t)))
      requires mem.Keys == Ids(t) + CtxIds(c) + {nil}
      modifies this
      ensures At(Top, t', root) && RedBlack(t') && Sorted(InOrder(t')) && mem.Keys == Ids(t') + {nil}
      ensures MapOf(InOrder(t')).Keys == MapOf(InOrder(Fill(c, t))).Keys - {t.x.k}
      ensures MapOf(InOrder(t')) == MapOf(InOrder(Fill(c, t))) - {t.x.k} <==> MaxTree(t.l).x.d == t.x.d
      ensures MapOf(InOrder(t')) == (MapOf(InOrder(Fill(c, t))) - {t.x.k})[MaxTree(t.l).x.k := t.x.d]
    {
      Reads(c, t, target);
      GoDown(c, t, target, Left);
      var child := GetMaximum(mem[target].left, Up(Left, t.x, t.r, c), t.l);
      MaxZip(mem, Up(Left, t.x, t.r, c), t.l, mem[target].left, root);
      Reads(MaxCtx(Up(Left, t.x, t.r, c), t.l), MaxTree(t.l), child);
      ghost var k, k' := t.x.k, mem[child].key;
      ghost var t1 := Br(t.x.(k := k'), t.l, t.r);
      Rekeyed(mem, c, t, target, root, k');
      mem := mem[target := mem[target].(key := mem[child].key)];
      t' := SpliceMaximum(target, child, c, t1);
      RemovePredecessor(c, t);
    }

    method SpliceMaximum(target: Node, child: Node, ghost c: Ctx, ghost t: Tree) returns (ghost t': Tree)
      requires At(c, t, target) && t.Br? && t.l.Br? && Fits(c, t) && child == MaxTree(t.l).x.id
      requires mem.Keys == Ids(t) + CtxIds(c) + {nil}
      modifies this
      ensures At(Top, t', root) && RedBlack(t') && mem.Keys == Ids(t') + {nil}
      ensures var c3 := MaxCtx(Up(Left, t.x, t.r, c),
              t.l); InOrder(t') == Before(c3) + InOrder(MaxTree(t.l).l) + After(c3)
    {
      Reads(c, t, target);
      GoDown(c, t, target, Left);
      ghost var c1 := Up(Left, t.x, t.r, c);
      MaxZip(mem, c1, t.l, mem[target].left, root);
      MaxOrder(c1, t.l);
      ghost var c3, t3 := MaxCtx(c1, t.l), MaxTree(t.l);
      FillRedBlack(c, t);
      FillRedBlack(c3, t3);
      ZipWhole(mem, c, t, target, root);
      ZipWhole(mem, c3, t3, child, root);
      Reads(c3, t3, child);
      t' := SpliceOut(child, mem[child].left, Left, c3, t3);
    }

    method Remove(key: Key) returns (ok: bool)
      requires Valid()
      modifies this
      ensures Valid()
      ensures ok <==> key in old(Contents())
      ensures ok ==> Contents().Keys == old(Contents()).Keys - {key}
      ensures ok ==> (Contents() == old(Contents()) - {key} <==> !MixesData(Lookup(old(shape), key)))
      ensures ok ==> Lookup(old(shape), key).Br? && Contents() == Without(old(Contents()), Lookup(old(shape), key))
      ensures !ok ==> mem == old(mem) && root == old(root) && shape == old(shape)
    {
      if root == nil {
        Reads(Top, shape, root);
        return false;
      }
      var target, _, _, c, t := Traverse(key);
      Reads(c, t, target);
      if mem[target].key != key || target == nil {
        MapOfGap(c, Cell(nil, Black, key, NULL));
        return false;
      }
      MapOfNode(c, t);
      RemoveFound(target, c, t);
      return true;
    }

    method RemoveFound(target: Node, ghost c: Ctx, ghost t: Tree)
      requires Valid() && At(c, t, target) && t.Br? && Fill(c, t) == shape
      modifies this
      ensures Valid()
      ensures Contents().Keys == old(Contents()).Keys - {t.x.k}
      ensures Contents() == old(Contents()) - {t.x.k} <==> !MixesData(t)
      ensures Contents() == Without(old(Contents()), t)
    {
      Reads(c, t, target);
      FillRedBlack(c, t);
      ZipWhole(mem, c, t, target, root);
      GoDown(c, t, target, Left);
      Reads(Up(Left, t.x, t.r, c), t.l, mem[target].left);
      GoDown(c, t, target, Right);
      Reads(Up(Right, t.x, t.l, c), t.r, mem[target].right);
      if mem[target].left != nil && mem[target].right != nil {
        shape := RemoveByPredecessor(target, c, t);
      } else {
        var child := if mem[target].left != nil then mem[target].left else mem[target].right;
        ghost var s := if t.l.Br? then Left else Right;
        shape := SpliceOut(target, child, s, c, t);
        RemoveOne(c, t, s);
      }
    }
  }
}
