/**
 Shapes of red-black trees: what a node pool stands for.

 A node of the program is a record with a colour, a key, a data word and three
 pointers.  `Tree` records which node sits where; `Ctx` is a tree with one
 subtree taken out, read from the hole upward, which is how the rebalancing
 code walks the parent pointers.
 */
module RbShape {
  datatype Color = Red | Black
  datatype Side = Left | Right

  type Key = int
  type Data = int
  const NULL: Data := 0

  function Opp(s: Side): (r: Side)
    ensures r != s
  {
    if s.Left? then Right else Left
  }

  // ------------------------------------------------------------------- memory

  /** The address of a node; `nil` is the address of the sentinel every tree shares. */
  type Node = nat
  const nil: Node := 0

  datatype Rec = Rec(color: Color, parent: Node, left: Node, right: Node, key: Key, data: Data) {
    function Kid(s: Side): Node { if s.Left? then left else right }

    function SetKid(s: Side, n: Node): Rec { if s.Left? then this.(left := n) else this.(right := n) }
  }

  /** What the pool's allocator answers. */
  datatype Alloc = Failed | Got(n: Node)

  /** The node pool: the fields of every allocated node, and of the sentinel. */
  type Store = map<Node, Rec>

  // ------------------------------------------------------------------- shapes

  datatype Cell = Cell(id: Node, c: Color, k: Key, d: Data)
  datatype Tree = Leaf | Br(x: Cell, l: Tree, r: Tree)
  datatype Ctx = Top | Up(s: Side, x: Cell, sib: Tree, up: Ctx)

  ghost function Kid(t: Tree, s: Side): Tree
    requires t.Br?
  {
    if s.Left? then t.l else t.r
  }

  /** The tree with root `x`, `a` on side `s` and `b` on the other side. */
  ghost function Make(s: Side, x: Cell, a: Tree, b: Tree): Tree {
    if s.Left? then Br(x, a, b) else Br(x, b, a)
  }

  lemma MakeKids(t: Tree, s: Side)
    requires t.Br?
    ensures t == Make(s, t.x, Kid(t, s), Kid(t, Opp(s))) == Make(Opp(s), t.x, Kid(t, Opp(s)), Kid(t, s))
  {
  }

  ghost function Fill(c: Ctx, t: Tree): Tree {
    match c
    case Top => t
    case Up(s, x, sib, up) => Fill(up, Make(s, x, t, sib))
  }

  ghost function Paint(t: Tree, c: Color): Tree {
    match t
    case Leaf => Leaf
    case Br(x, l, r) => Br(x.(c := c), l, r)
  }

  // ------------------------------------------------------------ search order

  ghost function InOrder(t: Tree): seq<(Key, Data)> {
    match t
    case Leaf => []
    case Br(x, l, r) => InOrder(l) + [(x.k, x.d)] + InOrder(r)
  }

  /** What precedes and follows the hole of a context in search order. */
  ghost function Before(c: Ctx): seq<(Key, Data)> {
    match c
    case Top => []
    case Up(s, x, sib, up) => if s.Left? then Before(up) else Before(up) + InOrder(sib) + [(x.k, x.d)]
  }

  ghost function After(c: Ctx): seq<(Key, Data)> {
    match c
    case Top => []
    case Up(s, x, sib, up) => if s.Right? then After(up) else [(x.k, x.d)] + InOrder(sib) + After(up)
  }

  lemma Regroup(a: seq<(Key, Data)>, b: seq<(Key, Data)>, c: seq<(Key, Data)>, d: seq<(Key, Data)>, e: seq<(Key, Data)>)
    ensures a + b + (c + d + e) == a + (b + c + d) + e == (a + b + c) + d + e
  {
  }

  lemma PaintOrder(t: Tree, c: Color)
    ensures InOrder(Paint(t, c)) == InOrder(t)
  {
  }

  lemma {:induction false} FillInOrder(c: Ctx, t: Tree)
    ensures InOrder(Fill(c, t)) == Before(c) + InOrder(t) + After(c)
  {
    match c
    case Top =>
    case Up(s, x, sib, up) => FillInOrder(up, Make(s, x, t, sib));
  }

  // ------------------------------------------------------------------- colours

  ghost predicate IsRed(t: Tree) { t.Br? && t.x.c.Red? }

  ghost function One(c: Color): nat { if c.Black? then 1 else 0 }

  /** Black nodes on the way down, the sentinel included. */
  ghost function Blacks(t: Tree): nat {
    match t
    case Leaf => 1
    case Br(x, l, r) => Blacks(l) + One(x.c)
  }

  ghost predicate Balanced(t: Tree) {
    t.Br? ==> Balanced(t.l) && Balanced(t.r) && Blacks(t.l) == Blacks(t.r)
  }

  ghost predicate NoRedRed(t: Tree) {
    t.Br? ==> NoRedRed(t.l) && NoRedRed(t.r) && (t.x.c.Red? ==> !IsRed(t.l) && !IsRed(t.r))
  }

  ghost predicate RedBlack(t: Tree) {
    Balanced(t) && NoRedRed(t) && !IsRed(t)
  }

  lemma MakeColors(s: Side, x: Cell, a: Tree, b: Tree)
    ensures Balanced(Make(s, x, a, b)) <==> Balanced(a) && Balanced(b) && Blacks(a) == Blacks(b)
    ensures Blacks(a) == Blacks(b) ==> Blacks(Make(s, x, a, b)) == Blacks(a) + One(x.c)
    ensures NoRedRed(Make(s, x, a, b)) <==> NoRedRed(a) && NoRedRed(b) && (x.c.Red? ==> !IsRed(a) && !IsRed(b))
  {
  }

  /** The context wants a subtree with `n` blacks in its hole. */
  ghost predicate Wants(c: Ctx, n: nat) {
    c.Up? ==> Balanced(c.sib) && Blacks(c.sib) == n && Wants(c.up, n + One(c.x.c))
  }

  /** A red subtree may go into the hole: its parent is black, and there is one. */
  ghost predicate TakesRed(c: Ctx) { c.Up? && c.x.c.Black? }

  ghost predicate CtxNoRedRed(c: Ctx) {
    c.Up? ==> NoRedRed(c.sib) && CtxNoRedRed(c.up) && (c.x.c.Red? ==> !IsRed(c.sib) && TakesRed(c.up))
  }

  ghost predicate Fits(c: Ctx, t: Tree) {
    && Balanced(t) && NoRedRed(t) && Wants(c, Blacks(t)) && CtxNoRedRed(c)
    && (IsRed(t) ==> TakesRed(c))
  }

  /** A filled context is a red-black tree exactly when hole and context fit. */
  lemma {:induction false} FillRedBlack(c: Ctx, t: Tree)
    ensures RedBlack(Fill(c, t)) <==> Fits(c, t)
  {
    match c
    case Top =>
    case Up(s, x, sib, up) => FillRedBlack(up, Make(s, x, t, sib));
  }

  // ------------------------------------------------------------------ rotation

  /** The root of a tree is painted black; elsewhere a node keeps its colour. */
  ghost function Placed(c: Ctx, x: Cell): Cell {
    if c.Top? then x.(c := Black) else x
  }

  /** `balanced_rotate`: the red child on side `s` takes its parent's place and colour. */
  ghost function BalancedRotation(c: Ctx, t: Tree, s: Side): Tree
    requires t.Br? && Kid(t, s).Br?
  {
    var y := Kid(t, s);
    Make(Opp(s), Placed(c, y.x.(c := t.x.c)), Make(Opp(s), t.x.(c := Red), Kid(t, Opp(s)), Kid(y, Opp(s))), Kid(y, s))
  }

  lemma BalancedRotationInOrder(c: Ctx, t: Tree, s: Side)
    requires t.Br? && Kid(t, s).Br?
    ensures InOrder(BalancedRotation(c, t, s)) == InOrder(t)
  {
  }

  lemma FillSameOrder(c: Ctx, t: Tree, t': Tree)
    requires InOrder(t) == InOrder(t')
    ensures InOrder(Fill(c, t)) == InOrder(Fill(c, t'))
  {
    FillInOrder(c, t);
    FillInOrder(c, t');
  }

  // ----------------------------------------------------- shapes of `recover`

  /** A red subtree that fits except that its parent may be red or missing. */
  ghost predicate RedIntruder(c: Ctx, t: Tree) {
    IsRed(t) && Balanced(t) && NoRedRed(t) && Wants(c, Blacks(t)) && CtxNoRedRed(c)
  }

  /** A red leaf in a hole of a red-black tree. */
  lemma LeafIntrudes(c: Ctx, x: Cell)
    requires RedBlack(Fill(c, Leaf)) && x.c == Red && c.Up?
    ensures RedIntruder(c, Br(x, Leaf, Leaf))
  {
    FillRedBlack(c, Leaf);
    MakeColors(Left, x, Leaf, Leaf);
  }

  /** What a red intruder with a red parent has around it. */
  lemma IntruderFacts(c: Ctx, t: Tree)
    requires RedIntruder(c, t) && RedParent(c)
    ensures var n := Blacks(t);
      && Balanced(c.sib) && NoRedRed(c.sib) && !IsRed(c.sib) && Blacks(c.sib) == n
      && Balanced(c.up.sib) && NoRedRed(c.up.sib) && Blacks(c.up.sib) == n
      && Wants(c.up.up, n + 1) && CtxNoRedRed(c.up.up)
  {
    assert Wants(c.up, Blacks(t));
    assert CtxNoRedRed(c.up);
  }

  /** Parent red: there is a black grandparent. */
  ghost predicate RedParent(c: Ctx) { c.Up? && c.x.c.Red? && c.up.Up? && c.up.x.c.Black? }

  /** Case 3: parent and uncle become black, the grandparent red. */
  ghost function Recolored(c: Ctx, t: Tree): Tree
    requires RedParent(c)
  {
    Make(c.up.s, c.up.x.(c := Red), Make(c.s, c.x.(c := Black), t, c.sib), Paint(c.up.sib, Black))
  }

  lemma RecoloredIntrudes(c: Ctx, t: Tree)
    requires RedIntruder(c, t) && RedParent(c) && IsRed(c.up.sib)
    ensures RedIntruder(c.up.up, Recolored(c, t))
    ensures InOrder(Fill(c.up.up, Recolored(c, t))) == InOrder(Fill(c, t))
  {
    IntruderFacts(c, t);
    var p, u := Make(c.s, c.x.(c := Black), t, c.sib), c.up.sib;
    MakeColors(c.s, c.x.(c := Black), t, c.sib);
    MakeColors(c.up.s, c.up.x.(c := Red), p, Paint(u, Black));
    FillSameOrder(c.up.up, Recolored(c, t), Make(c.up.s, c.up.x, Make(c.s, c.x, t, c.sib), c.up.sib));
  }

  /** Case 4: a rotation at the parent takes an inner grandchild outside. */
  ghost function Outside(c: Ctx, t: Tree): Tree
    requires c.Up? && t.Br?
  {
    var s := Opp(c.s);
    Make(s, t.x, Make(s, c.x, c.sib, Kid(t, s)), Kid(t, c.s))
  }

  lemma OutsideOrder(c: Ctx, t: Tree)
    requires c.Up? && t.Br?
    ensures InOrder(Outside(c, t)) == InOrder(Make(c.s, c.x, t, c.sib))
  {
    var x, y := [(c.x.k, c.x.d)], [(t.x.k, t.x.d)];
    if c.s.Left? {
      Regroup(InOrder(t.l), y, InOrder(t.r), x, InOrder(c.sib));
    } else {
      Regroup(InOrder(c.sib), x, InOrder(t.l), y, InOrder(t.r));
    }
  }

  lemma OutsideColors(c: Ctx, t: Tree)
    requires RedIntruder(c, t) && RedParent(c) && c.s != c.up.s
    ensures var c' := Up(Opp(c.s), t.x, Kid(t, c.s), c.up); var t' := Make(Opp(c.s), c.x, c.sib, Kid(t, Opp(c.s)));
      RedIntruder(c', t') && RedParent(c')
  {
    IntruderFacts(c, t);
    MakeKids(t, c.s);
    MakeColors(c.s, t.x, Kid(t, c.s), Kid(t, Opp(c.s)));
    MakeColors(Opp(c.s), c.x, c.sib, Kid(t, Opp(c.s)));
  }

  lemma OutsideIntrudes(c: Ctx, t: Tree)
    requires RedIntruder(c, t) && RedParent(c) && c.s != c.up.s
    ensures var c' := Up(Opp(c.s), t.x, Kid(t, c.s), c.up); var t' := Make(Opp(c.s), c.x, c.sib, Kid(t, Opp(c.s)));
      && RedIntruder(c', t') && RedParent(c')
      && InOrder(Fill(c', t')) == InOrder(Fill(c, t))
  {
    OutsideColors(c, t);
    OutsideOrder(c, t);
    FillSameOrder(c.up, Outside(c, t), Make(c.s, c.x, t, c.sib));
  }

  /** Case 5: the grandparent rotates; nothing is red under red any more. */
  lemma RotatedFits(c: Ctx, t: Tree)
    requires RedIntruder(c, t) && RedParent(c) && c.s == c.up.s && !IsRed(c.up.sib)
    ensures var g := Make(c.up.s, c.up.x, Make(c.s, c.x, t, c.sib), c.up.sib);
      && Kid(g, c.s).Br?
      && RedBlack(Fill(c.up.up, BalancedRotation(c.up.up, g, c.s)))
      && InOrder(Fill(c.up.up, BalancedRotation(c.up.up, g, c.s))) == InOrder(Fill(c, t))
  {
    IntruderFacts(c, t);
    var g := Make(c.up.s, c.up.x, Make(c.s, c.x, t, c.sib), c.up.sib);
    var g' := BalancedRotation(c.up.up, g, c.s);
    var s, x, y := Opp(c.s), c.up.x.(c := Red), Placed(c.up.up, c.x.(c := Black));
    MakeColors(s, x, c.up.sib, c.sib);
    MakeColors(s, y, Make(s, x, c.up.sib, c.sib), t);
    BalancedRotationInOrder(c.up.up, g, c.s);
    FillSameOrder(c.up.up, g, g');
    FillRedBlack(c.up.up, g');
  }

  // ------------------------- shapes of `recovery_black_count_balance`

  /** `c` surrounds a black node and wants `n` blacks in its hole. */
  ghost predicate Deficient(c: Ctx, n: nat) {
    n >= 2 && Wants(c, n) && CtxNoRedRed(c)
  }

  /** The context is content with one black less, and the node's parent, if any, is black. */
  ghost predicate Settled(c': Ctx, c: Ctx, n: nat)
    requires n >= 1
  {
    && Wants(c', n - 1) && CtxNoRedRed(c')
    && (c'.Top? <==> c.Top?) && (c'.Up? ==> c'.x.c.Black?)
    && Before(c') == Before(c) && After(c') == After(c)
  }

  lemma SiblingFacts(c: Ctx, n: nat)
    requires Deficient(c, n) && c.Up?
    ensures c.sib.Br? && Balanced(c.sib) && NoRedRed(c.sib) && Blacks(c.sib) == n
    ensures Balanced(c.sib.l) && Balanced(c.sib.r) && NoRedRed(c.sib.l) && NoRedRed(c.sib.r)
    ensures Blacks(c.sib.l) == Blacks(c.sib.r) == n - One(c.sib.x.c)
    ensures IsRed(c.sib) ==> c.x.c.Black? && !IsRed(c.sib.l) && !IsRed(c.sib.r)
    ensures c.x.c.Red? ==> c.up.Up? && !IsRed(c.sib)
    ensures Wants(c.up, n + One(c.x.c)) && CtxNoRedRed(c.up)
  {
  }

  /** Nothing red around: the sibling turns red and the parent is next. */
  lemma BlackParentSettled(c: Ctx, n: nat, up': Ctx)
    requires Deficient(c, n) && c.Up? && c.x.c.Black?
    requires !IsRed(c.sib) && c.sib.Br? && !IsRed(c.sib.l) && !IsRed(c.sib.r)
    requires Settled(up', c.up, n + 1)
    ensures Settled(Up(c.s, c.x, Paint(c.sib, Red), up'), c, n)
  {
    SiblingFacts(c, n);
  }

  /** A red parent gives its red to the sibling. */
  lemma RedParentSettled(c: Ctx, n: nat)
    requires Deficient(c, n) && c.Up? && c.x.c.Red?
    requires c.sib.Br? && !IsRed(c.sib.l) && !IsRed(c.sib.r)
    ensures Settled(Up(c.s, c.x.(c := Black), Paint(c.sib, Red), c.up), c, n)
  {
    SiblingFacts(c, n);
  }

  /** A red sibling is rotated up. */
  ghost function LiftSibling(c: Ctx): Ctx
    requires c.Up? && c.sib.Br?
  {
    Up(c.s, c.x.(c := Red), Kid(c.sib, c.s), Up(c.s, Placed(c.up, c.sib.x.(c := c.x.c)), Kid(c.sib, Opp(c.s)), c.up))
  }

  lemma LiftSiblingDeficient(c: Ctx, n: nat)
    requires Deficient(c, n) && c.Up? && IsRed(c.sib)
    ensures Deficient(LiftSibling(c), n)
    ensures !IsRed(LiftSibling(c).sib) && BlackDepth(LiftSibling(c)) == BlackDepth(c)
    ensures Before(LiftSibling(c)) == Before(c) && After(LiftSibling(c)) == After(c)
  {
    SiblingFacts(c, n);
  }

  /** The sibling, black with a red outer child, is what the last rotation needs. */
  ghost predicate OuterRed(s: Side, sib: Tree, n: nat) {
    && sib.Br? && sib.x.c.Black? && Balanced(sib) && Blacks(sib) == n
    && NoRedRed(Kid(sib, s)) && IsRed(Kid(sib, Opp(s))) && NoRedRed(Paint(Kid(sib, Opp(s)), Black))
  }

  /** Such a sibling comes about by rotating a red inner child over it. */
  lemma InnerToOuter(c: Ctx, c0: Ctx, n: nat)
    requires Deficient(c, n) && c.Up? && !IsRed(c.sib) && c.sib.Br? && IsRed(Kid(c.sib, c.s)) && c0.Up?
    ensures OuterRed(c.s, BalancedRotation(c0, c.sib, c.s), n)
    ensures InOrder(BalancedRotation(c0, c.sib, c.s)) == InOrder(c.sib)
  {
    SiblingFacts(c, n);
    BalancedRotationInOrder(c0, c.sib, c.s);
    var s, y := Opp(c.s), Kid(c.sib, c.s);
    MakeColors(s, c.sib.x.(c := Red), Kid(c.sib, s), Kid(y, s));
    MakeColors(s, c.sib.x.(c := Black), Kid(c.sib, s), Kid(y, s));
    MakeColors(s, y.x.(c := c.sib.x.c), Make(s, c.sib.x.(c := Red), Kid(c.sib, s), Kid(y, s)), Kid(y, c.s));
  }

  lemma AlreadyOuter(c: Ctx, n: nat)
    requires Deficient(c, n) && c.Up? && !IsRed(c.sib) && c.sib.Br? && IsRed(Kid(c.sib, Opp(c.s)))
    ensures OuterRed(c.s, c.sib, n)
  {
    SiblingFacts(c, n);
  }

  /** The last rotation: the sibling takes the parent's place and colour. */
  ghost function TakeOver(c: Ctx, sib: Tree): Ctx
    requires c.Up? && sib.Br?
  {
    Up(c.s, c.x.(c := Black), Kid(sib, c.s), Up(c.s, Placed(c.up, sib.x.(c := c.x.c)), Paint(Kid(sib, Opp(c.s)),
      Black), c.up))
  }

  lemma TakeOverOrder(c: Ctx, sib: Tree)
    requires c.Up? && sib.Br? && InOrder(sib) == InOrder(c.sib)
    ensures Before(TakeOver(c, sib)) == Before(c) && After(TakeOver(c, sib)) == After(c)
  {
    var x, y, far := [(c.x.k, c.x.d)], [(sib.x.k, sib.x.d)], Kid(sib, Opp(c.s));
    PaintOrder(far, Black);
    if c.s.Left? {
      Regroup(x, InOrder(sib.l), y, InOrder(far), After(c.up));
    } else {
      Regroup(Before(c.up), InOrder(far), y, InOrder(sib.r), x);
    }
  }

  lemma OuterFacts(s: Side, sib: Tree, n: nat)
    requires OuterRed(s, sib, n)
    ensures n >= 1 && Balanced(Kid(sib, s)) && Blacks(Kid(sib, s)) == n - 1
    ensures Balanced(Paint(Kid(sib, Opp(s)), Black)) && Blacks(Paint(Kid(sib, Opp(s)), Black)) == n
  {
    assert Balanced(Kid(sib, Opp(s)));
  }

  lemma TakeOverSettled(c: Ctx, n: nat, sib: Tree)
    requires Deficient(c, n) && c.Up? && OuterRed(c.s, sib, n) && InOrder(sib) == InOrder(c.sib)
    ensures Settled(TakeOver(c, sib), c, n)
  {
    SiblingFacts(c, n);
    TakeOverOrder(c, sib);
    OuterFacts(c.s, sib, n);
    var far := Kid(sib, Opp(c.s));
    var up' := Up(c.s, Placed(c.up, sib.x.(c := c.x.c)), Paint(far, Black), c.up);
    assert Wants(up', n) && CtxNoRedRed(up');
  }

  /** Black ancestors; what the rebalancing recursion runs out of. */
  ghost function BlackDepth(c: Ctx): nat {
    if c.Top? then 0 else One(c.x.c) + BlackDepth(c.up)
  }

  // --------------------------------------------------- the in-order predecessor

  /** The rightmost node of a tree, as a subtree, and what is around it. */
  ghost function MaxTree(t: Tree): (r: Tree)
    requires t.Br?
    ensures r.Br? && r.r.Leaf?
  {
    if t.r.Leaf? then t else MaxTree(t.r)
  }

  ghost function MaxCtx(c: Ctx, t: Tree): Ctx
    requires t.Br?
    decreases t
  {
    if t.r.Leaf? then c else MaxCtx(Up(Right, t.x, t.l, c), t.r)
  }

  lemma {:induction false} MaxOrder(c: Ctx, t: Tree)
    requires t.Br?
    ensures Before(MaxCtx(c, t)) + InOrder(MaxTree(t)) == Before(c) + InOrder(t)
    ensures After(MaxCtx(c, t)) == After(c)
    ensures Fill(MaxCtx(c, t), MaxTree(t)) == Fill(c, t)
    ensures c.Up? ==> MaxCtx(c, t).Up?
    decreases t
  {
    if t.r.Br? {
      MaxOrder(Up(Right, t.x, t.l, c), t.r);
    }
  }

  /** The only child of a node fits where the node was, once the blacks around it are settled. */
  lemma OnlyChildFits(c: Ctx, c': Ctx, t: Tree, s: Side)
    requires Fits(c, t) && t.Br? && Kid(t, Opp(s)).Leaf?
    requires if t.x.c.Black? then Settled(c', c, Blacks(t)) else c' == c
    ensures var kid := Kid(t, s); RedBlack(Fill(c', if c'.Top? then Paint(kid, Black) else kid))
  {
    var kid := Kid(t, s);
    MakeKids(t, s);
    MakeColors(s, t.x, kid, Leaf);
    FillRedBlack(c', if c'.Top? then Paint(kid, Black) else kid);
  }
}
