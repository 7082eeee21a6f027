/** The red-black tree with parent pointers and one shared nil sentinel. */
module RbTree {
  import opened Common
  import opened RbShape

  /** A snapshot of the links and the colour of a node. */
  datatype Cell = Cell(parent: RbNode?, left: RbNode?, right: RbNode?, color: Color)

  type Memory = map<RbNode, Cell>

  /** The fields of a node. Only nodes of the set are looked at, so the value does not depend on others. */
  ghost function CellIn(nodes: set<RbNode>, n: RbNode): Cell
    reads nodes
  {
    if n in nodes then Cell(n.parent, n.left, n.right, n.color) else Cell(n, n, n, Black)
  }

  ghost function Snapshot(nodes: set<RbNode>): Memory
    reads nodes
  {
    map n | n in nodes :: CellIn(nodes, n)
  }

  ghost function Root(t: Tree, nil: RbNode): RbNode {
    if t.Nil? then nil else t.n
  }

  ghost function ParentOf(ctx: Ctx, nil: RbNode): RbNode {
    if ctx.Top? then nil else ctx.n
  }

  /** The memory represents t below parent p: links, colours and parent pointers agree. */
  ghost predicate Holds(m: Memory, t: Tree, p: RbNode, nil: RbNode) {
    match t
    case Nil => true
    case Node(l, n, c, r) =>
      && n != nil && n in m && m[n] == Cell(p, Root(l, nil), Root(r, nil), c)
      && Holds(m, l, n, nil) && Holds(m, r, n, nil)
  }

  /** The memory represents ctx around a subtree whose root pointer is x. */
  ghost predicate HoldsCtx(m: Memory, ctx: Ctx, x: RbNode, root: RbNode, nil: RbNode) {
    match ctx
    case Top => root == x
    case Hole(up, side, n, c, sib) =>
      && n != nil && n in m
      && m[n] == Cell(ParentOf(up, nil), if side == L then x else Root(sib, nil),
                      if side == L then Root(sib, nil) else x, c)
      && Holds(m, sib, n, nil) && HoldsCtx(m, up, n, root, nil)
  }

  /** The memory represents the subtree t inside the tree ctx around it. */
  ghost predicate Focus(m: Memory, root: RbNode, nil: RbNode, ctx: Ctx, t: Tree) {
    && Separate(ctx, t)
    && nil !in Nodes(t) && nil !in CtxNodes(ctx)
    && nil in m && m[nil].color == Black
    && Holds(m, t, ParentOf(ctx, nil), nil)
    && HoldsCtx(m, ctx, Root(t, nil), root, nil)
  }

  ghost function Relink(cell: Cell, side: Side, x: RbNode): Cell {
    if side == L then cell.(left := x) else cell.(right := x)
  }

  lemma {:induction false} HoldsFrame(m: Memory, m': Memory, t: Tree, p: RbNode, nil: RbNode)
    requires Holds(m, t, p, nil) && forall n :: n in Nodes(t) && n in m ==> n in m' && m'[n] == m[n]
    ensures Holds(m', t, p, nil)
  {
    match t
    case Nil =>
    case Node(l, n, c, r) =>
      HoldsFrame(m, m', l, n, nil);
      HoldsFrame(m, m', r, n, nil);
  }

  lemma {:induction false} HoldsCtxFrame(m: Memory, m': Memory, ctx: Ctx, x: RbNode, root: RbNode, nil: RbNode)
    requires HoldsCtx(m, ctx, x, root, nil) && forall n :: n in CtxNodes(ctx) && n in m ==> n in m' && m'[n] == m[n]
    ensures HoldsCtx(m', ctx, x, root, nil)
  {
    match ctx
    case Top =>
    case Hole(up, _, n, _, sib) =>
      HoldsFrame(m, m', sib, n, nil);
      HoldsCtxFrame(m, m', up, n, root, nil);
  }

  /** Only the root of t gets a new parent. */
  lemma {:induction false} HoldsReparent(m: Memory, m': Memory, t: Tree, p: RbNode, p': RbNode, nil: RbNode)
    requires Distinct(t) && Holds(m, t, p, nil)
    requires t.Node? ==> t.n in m' && m'[t.n] == m[t.n].(parent := p')
    requires forall n :: n in Nodes(t) && n in m && n != Root(t, nil) ==> n in m' && m'[n] == m[n]
    ensures Holds(m', t, p', nil)
  {
    match t
    case Nil =>
    case Node(l, n, c, r) =>
      HoldsFrame(m, m', l, n, nil);
      HoldsFrame(m, m', r, n, nil);
  }

  /** Only the link from the hole's parent, or the root pointer, changes. */
  lemma {:induction false} HoldsCtxRelink(m: Memory, m': Memory, ctx: Ctx, x: RbNode, x': RbNode, root: RbNode,
                                          root': RbNode, nil: RbNode)
    requires CtxDistinct(ctx) && HoldsCtx(m, ctx, x, root, nil)
    requires root' == if ctx.Top? then x' else root
    requires ctx.Hole? ==> ctx.n in m' && m'[ctx.n] == Relink(m[ctx.n], ctx.side, x')
    requires forall n :: n in CtxNodes(ctx) && n in m && (ctx.Top? || n != ctx.n) ==> n in m' && m'[n] == m[n]
    ensures HoldsCtx(m', ctx, x', root', nil)
  {
    match ctx
    case Top =>
    case Hole(up, _, n, _, sib) =>
      HoldsFrame(m, m', sib, n, nil);
      HoldsCtxFrame(m, m', up, n, root, nil);
  }

  /** A rotation: y, the child of x on the side away from a, takes the place of x. Only
      the cells of x, y, the middle subtree's root and the hole's parent change. */
  lemma {:induction false} Rotated(m: Memory, m': Memory, root: RbNode, root': RbNode, nil: RbNode, ctx: Ctx,
                                   side: Side,
                                   a: Tree, x: RbNode, cx: Color, b: Tree, y: RbNode, cy: Color, c: Tree)
    requires Focus(m, root, nil, ctx, Join(side, a, x, cx, Join(side, b, y, cy, c)))
    requires m.Keys == m'.Keys && x in m && y in m && (b.Node? ==> b.n in m) && (ctx.Hole? ==> ctx.n in m)
    requires m'[x] == Relink(Relink(m[x], Other(side), Root(b, nil)), side, Root(a, nil)).(parent := y)
    requires m'[y] == Relink(m[y], side, x).(parent := ParentOf(ctx, nil))
    requires b.Node? ==> m'[b.n] == m[b.n].(parent := x)
    requires ctx.Hole? ==> m'[ctx.n] == Relink(m[ctx.n], ctx.side, y)
    requires root' == if ctx.Top? then y else root
    requires forall n :: n in m && n != x && n != y && n != Root(b, nil) && n != ParentOf(ctx, nil) ==> m'[n] == m[n]
    requires m'[nil] == m[nil]
    ensures Focus(m', root', nil, ctx, Join(side, Join(side, a, x, cx, b), y, cy, c))
  {
    hide Nodes, CtxNodes, Distinct, CtxDistinct, Separate, HoldsCtx;
    SeparateRotated(ctx, side, a, x, cx, b, y, cy, c);
    RotationFacts(m, root, nil, ctx, side, a, x, cx, b, y, cy, c);
    assert Holds(m, Join(side, b, y, cy, c), x, nil);
    assert Holds(m, a, x, nil) && Holds(m, b, y, nil) && Holds(m, c, y, nil);
    RotatedFlat(m, m', root, root', nil, ctx, side, a, x, cx, b, y, cy, c);
  }

  lemma {:induction false} RotatedFlat(m: Memory, m': Memory, root: RbNode, root': RbNode, nil: RbNode, ctx: Ctx,
                                       side: Side,
                                       a: Tree, x: RbNode, cx: Color, b: Tree, y: RbNode, cy: Color, c: Tree)
    requires Holds(m, a, x, nil) && Holds(m, b, y, nil) && Holds(m, c, y, nil) && HoldsCtx(m, ctx, x, root, nil)
    requires Distinct(b) && CtxDistinct(ctx) && x != nil && y != nil
    requires x !in Nodes(a) && x !in Nodes(b) && x !in Nodes(c) && x !in CtxNodes(ctx)
    requires y !in Nodes(a) && y !in Nodes(b) && y !in Nodes(c) && y !in CtxNodes(ctx)
    requires Nodes(a) !! Nodes(b) !! Nodes(c) !! CtxNodes(ctx)
    requires (b.Node? ==> b.n in Nodes(b)) && (ctx.Hole? ==> ctx.n in CtxNodes(ctx))
    requires nil !in Nodes(a) && nil !in Nodes(b) && nil !in Nodes(c) && nil !in CtxNodes(ctx)
    requires m.Keys == m'.Keys && x in m && y in m && (b.Node? ==> b.n in m) && (ctx.Hole? ==> ctx.n in m)
    requires m'[x] == Relink(Relink(Cell(y, nil, nil, cx), side, Root(a, nil)), Other(side), Root(b, nil))
    requires m'[y] == Relink(Relink(Cell(ParentOf(ctx, nil), nil, nil, cy), side, x), Other(side), Root(c, nil))
    requires b.Node? ==> m'[b.n] == m[b.n].(parent := x)
    requires ctx.Hole? ==> m'[ctx.n] == Relink(m[ctx.n], ctx.side, y)
    requires root' == if ctx.Top? then y else root
    requires forall n :: n in m && n != x && n != y && n != Root(b, nil) && n != ParentOf(ctx, nil) ==> m'[n] == m[n]
    ensures Holds(m', Join(side, Join(side, a, x, cx, b), y, cy, c), ParentOf(ctx, nil), nil)
    ensures HoldsCtx(m', ctx, y, root', nil)
  {
    hide Nodes, CtxNodes, Distinct, CtxDistinct, Holds, HoldsCtx;
    RotatedHolds(m, m', nil, ParentOf(ctx, nil), side, a, x, cx, b, y, cy, c);
    HoldsCtxRelink(m, m', ctx, x, y, root, root', nil);
  }

  lemma {:induction false} RotatedHolds(m: Memory, m': Memory, nil: RbNode, p: RbNode, side: Side,
                                        a: Tree, x: RbNode, cx: Color, b: Tree, y: RbNode, cy: Color, c: Tree)
    requires Holds(m, a, x, nil) && Holds(m, b, y, nil) && Holds(m, c, y, nil) && Distinct(b) && x != nil && y != nil
    requires x in m' && y in m'
    requires m'[x] == Relink(Relink(Cell(y, nil, nil, cx), side, Root(a, nil)), Other(side), Root(b, nil))
    requires m'[y] == Relink(Relink(Cell(p, nil, nil, cy), side, x), Other(side), Root(c, nil))
    requires b.Node? ==> b.n in m && b.n in m' && m'[b.n] == m[b.n].(parent := x)
    requires forall n :: n in m && (n in Nodes(a) || n in Nodes(c)) ==> n in m' && m'[n] == m[n]
    requires forall n :: n in m && n in Nodes(b) && n != Root(b, nil) ==> n in m' && m'[n] == m[n]
    ensures Holds(m', Join(side, Join(side, a, x, cx, b), y, cy, c), p, nil)
  {
    HoldsFrame(m, m', a, x, nil);
    HoldsFrame(m, m', c, y, nil);
    HoldsReparent(m, m', b, y, x, nil);
    assert Holds(m', Join(side, a, x, cx, b), y, nil);
  }

  lemma {:induction false} SeparateRotated(ctx: Ctx, side: Side, a: Tree, x: RbNode, cx: Color, b: Tree, y: RbNode,
                                           cy: Color, c: Tree)
    requires Separate(ctx, Join(side, a, x, cx, Join(side, b, y, cy, c)))
    ensures Separate(ctx, Join(side, Join(side, a, x, cx, b), y, cy, c))
    ensures x != y && x !in Nodes(a) && x !in Nodes(b) && x !in Nodes(c) && x !in CtxNodes(ctx)
    ensures y !in Nodes(a) && y !in Nodes(b) && y !in Nodes(c) && y !in CtxNodes(ctx)
    ensures Nodes(a) !! Nodes(b) !! Nodes(c) !! CtxNodes(ctx)
    ensures Distinct(b) && (b.Node? ==> b.n in Nodes(b)) && (ctx.Hole? ==> ctx.n in CtxNodes(ctx))
    ensures Nodes(Join(side, Join(side, a, x, cx, b), y, cy, c)) == Nodes(Join(side, a, x, cx, Join(side, b, y, cy, c)))
    ensures Nodes(a) + Nodes(b) + Nodes(c) <= Nodes(Join(side, a, x, cx, Join(side, b, y, cy, c))) && CtxDistinct(ctx)
  {
    var inner, inner' := Join(side, b, y, cy, c), Join(side, a, x, cx, b);
    DistinctJoin(side, b, y, cy, c);
    DistinctJoin(side, a, x, cx, inner);
    DistinctJoin(side, a, x, cx, b);
    DistinctJoin(side, inner', y, cy, c);
    assert (b.Node? ==> b.n in Nodes(b)) && (ctx.Hole? ==> ctx.n in CtxNodes(ctx));
    hide Nodes, CtxNodes, Distinct, CtxDistinct;
  }

  lemma {:induction false} DistinctJoin(side: Side, t: Tree, n: RbNode, c: Color, sib: Tree)
    ensures Distinct(Join(side, t, n, c, sib)) <==>
            Distinct(t) && Distinct(sib) && n !in Nodes(t) && n !in Nodes(sib) && Nodes(t) !! Nodes(sib)
    ensures Nodes(Join(side, t, n, c, sib)) == Nodes(t) + {n} + Nodes(sib)
  {
  }

  /** The cells a rotation reads and writes. */
  lemma {:induction false} RotationFacts(m: Memory, root: RbNode, nil: RbNode, ctx: Ctx, side: Side,
                                         a: Tree, x: RbNode, cx: Color, b: Tree, y: RbNode, cy: Color, c: Tree)
    requires Focus(m, root, nil, ctx, Join(side, a, x, cx, Join(side, b, y, cy, c)))
    ensures nil in m && x in m && y in m && x != nil && y != nil && x != y
    ensures m[x] == Cell(ParentOf(ctx, nil), if side == L then Root(a, nil) else y,
                         if side == L then y else Root(a, nil), cx)
    ensures m[y] == Cell(x, if side == L then Root(b, nil) else Root(c, nil),
                         if side == L then Root(c, nil) else Root(b, nil), cy)
    ensures Root(b, nil) in m && Root(b, nil) != x && Root(b, nil) != y && (b.Node? ==> b.n != nil)
    ensures if ctx.Top? then root == x
            else
              && ctx.n in m && ctx.n != nil && ctx.n != x && ctx.n != y && ctx.n != Root(b, nil)
              && m[ctx.n].left != m[ctx.n].right &&
                 (if ctx.side == L then m[ctx.n].left else m[ctx.n].right) == x
  {
    SeparateRotated(ctx, side, a, x, cx, b, y, cy, c);
    assert Holds(m, Join(side, b, y, cy, c), x, nil);
    assert Holds(m, b, y, nil);
  }

  // ---------------------------------------------------------------------------
  // Moving the focus and painting
  // ---------------------------------------------------------------------------

  lemma {:induction false} Zip(m: Memory, root: RbNode, nil: RbNode, up: Ctx, side: Side, n: RbNode, c: Color,
                               sib: Tree, t: Tree)
    ensures Focus(m, root, nil, Hole(up, side, n, c, sib), t) <==> Focus(m, root, nil, up, Join(side, t, n, c, sib))
  {
  }

  lemma {:induction false} ZipAll(m: Memory, root: RbNode, nil: RbNode, ctx: Ctx, t: Tree)
    requires Focus(m, root, nil, ctx, t)
    ensures Focus(m, root, nil, Top, Plug(ctx, t))
    ensures ctx.Hole? ==> root in CtxNodes(ctx)
  {
    if ctx.Hole? {
      Zip(m, root, nil, ctx.up, ctx.side, ctx.n, ctx.c, ctx.sib, t);
      ZipAll(m, root, nil, ctx.up, Join(ctx.side, t, ctx.n, ctx.c, ctx.sib));
    }
  }

  lemma {:induction false} PaintRoot(m: Memory, root: RbNode, nil: RbNode, ctx: Ctx, t: Tree, c: Color)
    requires Focus(m, root, nil, ctx, t) && t.Node?
    ensures t.n in m && Focus(m[t.n := m[t.n].(color := c)], root, nil, ctx, Paint(t, c))
  {
    var m' := m[t.n := m[t.n].(color := c)];
    HoldsFrame(m, m', t.l, t.n, nil);
    HoldsFrame(m, m', t.r, t.n, nil);
    HoldsCtxFrame(m, m', ctx, t.n, root, nil);
  }

  /** What the memory holds at the focus. */
  lemma {:induction false} Cells(m: Memory, root: RbNode, nil: RbNode, ctx: Ctx, t: Tree)
    requires Focus(m, root, nil, ctx, t)
    ensures nil in m && m[nil].color == Black && Root(t, nil) in m && m[Root(t, nil)].color == ColorOf(t)
    ensures t.Node? ==> t.n != nil && m[t.n] == Cell(ParentOf(ctx, nil), Root(t.l, nil), Root(t.r, nil), t.c)
    ensures t.Node? ==> (t.l.Node? ==> t.l.n != nil) && (t.r.Node? ==> t.r.n != nil)
    ensures ctx.Top? ==> root == Root(t, nil)
    ensures ParentOf(ctx, nil) in m && m[ParentOf(ctx, nil)].color == ParentColor(ctx)
    ensures ctx.Hole? ==> ctx.n != nil && ctx.n != Root(t, nil) && root != Root(t, nil) && Root(ctx.sib, nil) in m
    ensures ctx.Hole? && (t.Node? || ctx.sib.Node?) ==> (ctx.side == L <==> m[ctx.n].left == Root(t, nil))
    ensures ctx.Hole? ==>
              m[ctx.n] == Relink(Relink(Cell(ParentOf(ctx.up, nil), nil, nil, ctx.c), ctx.side, Root(t, nil)),
                                 Other(ctx.side), Root(ctx.sib, nil))
  {
    ZipAll(m, root, nil, ctx, t);
    assert t.Node? ==> Holds(m, t.l, t.n, nil) && Holds(m, t.r, t.n, nil);
  }

  // ---------------------------------------------------------------------------
  // Insertion
  // ---------------------------------------------------------------------------

  /** The new leaf z has been linked into the empty hole. */
  lemma {:induction false} LinkLeaf(m: Memory, m': Memory, root: RbNode, root': RbNode, nil: RbNode, ctx: Ctx,
                                    z: RbNode)
    requires Focus(m, root, nil, ctx, Nil) && z !in m && (ctx.Hole? ==> ctx.n in m)
    requires m'.Keys == m.Keys + {z} && m'[z] == Cell(ParentOf(ctx, nil), nil, nil, Red)
    requires root' == if ctx.Top? then z else root
    requires ctx.Hole? ==> m'[ctx.n] == Relink(m[ctx.n], ctx.side, z)
    requires forall n :: n in m && (ctx.Top? || n != ctx.n) ==> m'[n] == m[n]
    ensures Focus(m', root', nil, ctx, Node(Nil, z, Red, Nil))
  {
    CtxInMemory(m, ctx, nil, root, nil);
    assert nil in m && z != nil;
    HoldsCtxRelink(m, m', ctx, nil, z, root, root', nil);
  }

  lemma {:induction false} CtxInMemory(m: Memory, ctx: Ctx, x: RbNode, root: RbNode, nil: RbNode)
    requires HoldsCtx(m, ctx, x, root, nil)
    ensures CtxNodes(ctx) <= m.Keys
  {
    if ctx.Hole? {
      InMemory(m, ctx.sib, ctx.n, nil);
      CtxInMemory(m, ctx.up, ctx.n, root, nil);
    }
  }

  lemma {:induction false} InMemory(m: Memory, t: Tree, p: RbNode, nil: RbNode)
    requires Holds(m, t, p, nil)
    ensures Nodes(t) <= m.Keys
  {
    if t.Node? {
      InMemory(m, t.l, t.n, nil);
      InMemory(m, t.r, t.n, nil);
    }
  }

  /** The heap side of RecolourInsert. */
  lemma {:induction false} PaintUncle(m: Memory, root: RbNode, nil: RbNode, up: Ctx, side: Side, g: RbNode, cg: Color,
                                      u: Tree,
                                      side': Side, p: RbNode, s: Tree, t: Tree)
    requires Focus(m, root, nil, Hole(Hole(up, side, g, cg, u), side', p, Red, s), t) && u.Node?
    ensures p in m && u.n in m && g in m && p != g && u.n != p && u.n != g
    ensures var m' := m[p := m[p].(color := Black)][u.n := m[u.n].(color := Black)][g := m[g].(color := Red)];
            Focus(m', root, nil, up, Join(side, Join(side', t, p, Black, s), g, Red, Paint(u, Black)))
  {
    var gp := Hole(up, side, g, cg, u);
    Zip(m, root, nil, gp, side', p, Red, s, t);
    var pt := Join(side', t, p, Red, s);
    PaintRoot(m, root, nil, gp, pt, Black);
    var m1 := m[p := m[p].(color := Black)];
    var pt' := Join(side', t, p, Black, s);
    Zip(m1, root, nil, up, side, g, cg, u, pt');
    Zip(m1, root, nil, up, Other(side), g, cg, pt', u);
    PaintRoot(m1, root, nil, Hole(up, Other(side), g, cg, pt'), u, Black);
    var m2 := m1[u.n := m1[u.n].(color := Black)];
    Zip(m2, root, nil, up, Other(side), g, cg, pt', Paint(u, Black));
    PaintRoot(m2, root, nil, up, Join(side, pt', g, cg, Paint(u, Black)), Red);
  }

  /** The heap side of the recolouring before the last rotation of an insertion. */
  lemma {:induction false} PaintOuter(m: Memory, root: RbNode, nil: RbNode, up: Ctx, side: Side, g: RbNode, cg: Color,
                                      u: Tree,
                                      p: RbNode, s: Tree, t: Tree)
    requires Focus(m, root, nil, Hole(Hole(up, side, g, cg, u), side, p, Red, s), t)
    ensures p in m && g in m && p != g
    ensures var m' := m[p := m[p].(color := Black)][g := m[g].(color := Red)];
            Focus(m', root, nil, up, Join(side, Join(side, t, p, Black, s), g, Red, u))
  {
    var gp := Hole(up, side, g, cg, u);
    Zip(m, root, nil, gp, side, p, Red, s, t);
    PaintRoot(m, root, nil, gp, Join(side, t, p, Red, s), Black);
    var m1 := m[p := m[p].(color := Black)];
    Zip(m1, root, nil, up, side, g, cg, u, Join(side, t, p, Black, s));
    PaintRoot(m1, root, nil, up, Join(side, Join(side, t, p, Black, s), g, cg, u), Red);
  }

  /** What the memory holds at the focus, its parent p and its grandparent g. */
  lemma {:induction false} Grand(m: Memory, root: RbNode, nil: RbNode, up: Ctx, side: Side, g: RbNode, cg: Color,
                                 u: Tree,
                                 side': Side, p: RbNode, cp: Color, s: Tree, t: Tree)
    requires Focus(m, root, nil, Hole(Hole(up, side, g, cg, u), side', p, cp, s), t) && t.Node?
    ensures p in m && g in m && t.n in m && p != nil && g != nil && nil in m && t.n != nil
    ensures m[t.n].parent == p && m[p].parent == g && m[p].color == cp && m[t.n].color == t.c
    ensures m[g].parent == ParentOf(up, nil)
    ensures (side == L <==> m[g].left == p) && (side' == L <==> m[p].left == t.n) && (side' == R <==> m[p].right == t.n)
    ensures Root(u, nil) in m && m[Root(u, nil)].color == ColorOf(u) && (u.Node? ==> u.n != nil)
    ensures (if side == L then m[g].right else m[g].left) == Root(u, nil)
    ensures ParentOf(up, nil) in m && m[ParentOf(up, nil)].color == ParentColor(up)
  {
    var gp := Hole(up, side, g, cg, u);
    var pt := Join(side', t, p, cp, s);
    Cells(m, root, nil, Hole(gp, side', p, cp, s), t);
    Zip(m, root, nil, gp, side', p, cp, s, t);
    Cells(m, root, nil, gp, pt);
    Zip(m, root, nil, up, side, g, cg, u, pt);
    Cells(m, root, nil, up, Join(side, pt, g, cg, u));
    Zip(m, root, nil, up, Other(side), g, cg, pt, u);
    Cells(m, root, nil, Hole(up, Other(side), g, cg, pt), u);
  }

  /** The end of an insertion: the root becomes black, and the tree is in order. */
  lemma {:induction false} InsertDone(m: Memory, root: RbNode, nil: RbNode, ctx: Ctx, t: Tree, h: nat)
    requires Focus(m, root, nil, ctx, t) && RedAt(ctx, t, h) && ParentColor(ctx) == Black
    ensures root in m && root != nil
    ensures var whole := Paint(Plug(ctx, t), Black);
            && Focus(m[root := m[root].(color := Black)], root, nil, Top, whole) && RedBlack(whole)
            && InOrder(whole) == Around(ctx, t)
  {
    FinishInsert(ctx, t, h);
    ZipAll(m, root, nil, ctx, t);
    Cells(m, root, nil, Top, Plug(ctx, t));
    PaintRoot(m, root, nil, Top, Plug(ctx, t), Black);
  }

  // ---------------------------------------------------------------------------
  // Deletion: painting around the focus
  // ---------------------------------------------------------------------------

  lemma {:induction false} PaintParent(m: Memory, root: RbNode, nil: RbNode, up: Ctx, side: Side, p: RbNode, cp: Color,
                                       w: Tree, t: Tree, c: Color)
    requires Focus(m, root, nil, Hole(up, side, p, cp, w), t)
    ensures p in m && Focus(m[p := m[p].(color := c)], root, nil, Hole(up, side, p, c, w), t)
  {
    Zip(m, root, nil, up, side, p, cp, w, t);
    PaintRoot(m, root, nil, up, Join(side, t, p, cp, w), c);
    Zip(m[p := m[p].(color := c)], root, nil, up, side, p, c, w, t);
  }

  /** The focus moves from a subtree to its sibling. */
  lemma {:induction false} ToSibling(m: Memory, root: RbNode, nil: RbNode, up: Ctx, side: Side, p: RbNode, cp: Color,
                                     w: Tree, t: Tree)
    ensures Focus(m, root, nil, Hole(up, side, p, cp, w), t) <==>
              Focus(m, root, nil, Hole(up, Other(side), p, cp, t), w)
  {
    Zip(m, root, nil, up, side, p, cp, w, t);
    Zip(m, root, nil, up, Other(side), p, cp, t, w);
  }

  lemma {:induction false} PaintSibling(m: Memory, root: RbNode, nil: RbNode, up: Ctx, side: Side, p: RbNode, cp: Color,
                                        w: Tree, t: Tree, c: Color)
    requires Focus(m, root, nil, Hole(up, side, p, cp, w), t) && w.Node?
    ensures w.n in m && Focus(m[w.n := m[w.n].(color := c)], root, nil, Hole(up, side, p, cp, Paint(w, c)), t)
  {
    ToSibling(m, root, nil, up, side, p, cp, w, t);
    PaintRoot(m, root, nil, Hole(up, Other(side), p, cp, t), w, c);
    ToSibling(m[w.n := m[w.n].(color := c)], root, nil, up, side, p, cp, Paint(w, c), t);
  }

  lemma {:induction false} PaintNephew(m: Memory, root: RbNode, nil: RbNode, up: Ctx, side: Side, p: RbNode, cp: Color,
                                       side': Side, v: Tree, w: RbNode, cw: Color, o: Tree, t: Tree, c: Color)
    requires Focus(m, root, nil, Hole(up, side, p, cp, Join(side', v, w, cw, o)), t) && v.Node?
    ensures v.n in m
    ensures Focus(m[v.n := m[v.n].(color := c)], root, nil, Hole(up, side, p, cp, Join(side', Paint(v, c), w, cw, o)),
                  t)
  {
    var m' := if v.n in m then m[v.n := m[v.n].(color := c)] else m;
    ToSibling(m, root, nil, up, side, p, cp, Join(side', v, w, cw, o), t);
    var ctx := Hole(up, Other(side), p, cp, t);
    Zip(m, root, nil, ctx, side', w, cw, o, v);
    PaintRoot(m, root, nil, Hole(ctx, side', w, cw, o), v, c);
    Zip(m', root, nil, ctx, side', w, cw, o, Paint(v, c));
    ToSibling(m', root, nil, up, side, p, cp, Join(side', Paint(v, c), w, cw, o), t);
  }

  /** The recolouring of case 4: the sibling takes the parent's colour, the parent and the
      far nephew v become black. */
  lemma {:induction false} PaintFar(m: Memory, root: RbNode, nil: RbNode, up: Ctx, side: Side, p: RbNode, cp: Color,
                                    near: Tree, w: RbNode, cw: Color, v: Tree, t: Tree)
    requires Focus(m, root, nil, Hole(up, side, p, cp, Join(side, near, w, cw, v)), t) && v.Node?
    requires p in m && w in m && v.n in m && p != w && v.n != p && v.n != w
    ensures Focus(m[w := m[w].(color := cp)][p := m[p].(color := Black)][v.n := m[v.n].(color := Black)], root, nil,
                  up, Join(side, t, p, Black, Join(side, near, w, cp, Paint(v, Black))))
  {
    PaintSibling(m, root, nil, up, side, p, cp, Join(side, near, w, cw, v), t, cp);
    var m1 := m[w := m[w].(color := cp)];
    PaintParent(m1, root, nil, up, side, p, cp, Join(side, near, w, cp, v), t, Black);
    var m2 := m1[p := m1[p].(color := Black)];
    PaintNephew(m2, root, nil, up, side, p, Black, Other(side), v, w, cp, near, t, Black);
    var m3 := m2[v.n := m2[v.n].(color := Black)];
    Zip(m3, root, nil, up, side, p, Black, Join(side, near, w, cp, Paint(v, Black)), t);
  }

  /** What the memory holds at the focus t, its parent p, its sibling w and the nephews. */
  lemma {:induction false} Family(m: Memory, root: RbNode, nil: RbNode, up: Ctx, side: Side, p: RbNode, cp: Color,
                                  w: Tree, t: Tree)
    requires Focus(m, root, nil, Hole(up, side, p, cp, w), t) && w.Node?
    ensures nil in m && p in m && w.n in m && p != nil && w.n != nil && p != w.n && m[p].color == cp
    ensures (if side == L then m[p].left else m[p].right) ==
        Root(t, nil) != (if side == L then m[p].right else m[p].left) == w.n
    ensures m[w.n] == Cell(p, Root(w.l, nil), Root(w.r, nil), w.c)
    ensures Root(w.l, nil) in m && Root(w.r, nil) in m && Root(t, nil) in m
    ensures m[Root(w.l, nil)].color == ColorOf(w.l) && m[Root(w.r, nil)].color == ColorOf(w.r)
    ensures Root(w.l, nil) != p && Root(w.r, nil) != p && Root(w.l, nil) != w.n && Root(w.r, nil) != w.n
    ensures (w.l.Node? ==> w.l.n != nil && w.l.n != Root(w.r, nil)) && (w.r.Node? ==> w.r.n != nil)
    ensures root != Root(t, nil) && Root(t, nil) != p
  {
    Cells(m, root, nil, Hole(up, side, p, cp, w), t);
    ToSibling(m, root, nil, up, side, p, cp, w, t);
    var ctx := Hole(up, Other(side), p, cp, t);
    Cells(m, root, nil, ctx, w);
    Zip(m, root, nil, ctx, L, w.n, w.c, w.r, w.l);
    Cells(m, root, nil, Hole(ctx, L, w.n, w.c, w.r), w.l);
    Zip(m, root, nil, ctx, R, w.n, w.c, w.l, w.r);
    Cells(m, root, nil, Hole(ctx, R, w.n, w.c, w.l), w.r);
  }

  // ---------------------------------------------------------------------------
  // Deletion: relinking
  // ---------------------------------------------------------------------------

  /** The memory after v has taken the place of the subtree in the hole of ctx. */
  ghost function Transplanted(m: Memory, ctx: Ctx, v: RbNode, nil: RbNode): Memory
    requires v in m && (ctx.Hole? ==> ctx.n in m)
  {
    var m' := if ctx.Hole? then m[ctx.n := Relink(m[ctx.n], ctx.side, v)] else m;
    m'[v := m'[v].(parent := ParentOf(ctx, nil))]
  }

  /** Transplanting the only child of n over n removes n. */
  lemma {:induction false} SpliceOut(m: Memory, root: RbNode, nil: RbNode, ctx: Ctx, side: Side, t: Tree, n: RbNode,
                                     c: Color)
    requires Focus(m, root, nil, ctx, Join(side, t, n, c, Nil))
    ensures Root(t, nil) in m && (ctx.Hole? ==> ctx.n in m)
    ensures Focus(Transplanted(m, ctx, Root(t, nil), nil), if ctx.Top? then Root(t, nil) else root, nil, ctx, t)
    ensures n !in Nodes(t) && n !in CtxNodes(ctx) && n != nil
  {
    Cells(m, root, nil, ctx, Join(side, t, n, c, Nil));
    Zip(m, root, nil, ctx, side, n, c, Nil, t);
    Cells(m, root, nil, Hole(ctx, side, n, c, Nil), t);
    var v := Root(t, nil);
    var m' := Transplanted(m, ctx, v, nil);
    HoldsReparent(m, m', t, n, ParentOf(ctx, nil), nil);
    HoldsCtxRelink(m, m', ctx, n, v, root, if ctx.Top? then v else root, nil);
  }

  /** The detached node y takes over the place, the children and the colour of z. */
  lemma {:induction false} TakeOver(m: Memory, m': Memory, root: RbNode, root': RbNode, nil: RbNode, ctx: Ctx,
                                    l: Tree, z: RbNode, c: Color, r: Tree, y: RbNode)
    requires Focus(m, root, nil, ctx, Node(l, z, c, r))
    requires y != nil && y != z && y !in Nodes(l) && y !in Nodes(r) && y !in CtxNodes(ctx)
    requires m.Keys == m'.Keys && y in m && (ctx.Hole? ==> ctx.n in m) && Root(l, nil) in m && Root(r, nil) in m
    requires m'[y] == Cell(ParentOf(ctx, nil), Root(l, nil), Root(r, nil), c)
    requires l.Node? ==> m'[l.n] == m[l.n].(parent := y)
    requires r.Node? ==> m'[r.n] == m[r.n].(parent := y)
    requires ctx.Hole? ==> m'[ctx.n] == Relink(m[ctx.n], ctx.side, y)
    requires root' == if ctx.Top? then y else root
    requires m'[nil].color == Black
    requires forall n ::
               n in m && n != y && n != nil && n != Root(l, nil) && n != Root(r, nil) && n != ParentOf(ctx, nil) ==>
                 n == z || m'[n] == m[n]
    ensures Focus(m', root', nil, ctx, Node(l, y, c, r))
  {
    TakeOverSeparate(ctx, l, z, c, r, y);
    HoldsReparent(m, m', l, z, y, nil);
    HoldsReparent(m, m', r, z, y, nil);
    HoldsCtxRelink(m, m', ctx, z, y, root, root', nil);
  }

  lemma {:induction false} TakeOverSeparate(ctx: Ctx, l: Tree, z: RbNode, c: Color, r: Tree, y: RbNode)
    requires Separate(ctx, Node(l, z, c, r))
    requires y !in Nodes(l) && y !in Nodes(r) && y !in CtxNodes(ctx)
    ensures Separate(ctx, Node(l, y, c, r))
    ensures Nodes(l) !! Nodes(r) !! CtxNodes(ctx) && z !in Nodes(l) && z !in Nodes(r) && z !in CtxNodes(ctx)
    ensures Distinct(l) && Distinct(r) && (l.Node? ==> l.n in Nodes(l)) && (r.Node? ==> r.n in Nodes(r))
    ensures ctx.Hole? ==> ctx.n in CtxNodes(ctx)
  {
  }

  lemma {:induction false} ZipAppend(m: Memory, root: RbNode, nil: RbNode, inner: Ctx, outer: Ctx, t: Tree)
    ensures Focus(m, root, nil, Append(inner, outer), t) <==> Focus(m, root, nil, outer, Plug(inner, t))
  {
    if inner.Hole? {
      Zip(m, root, nil, Append(inner.up, outer), inner.side, inner.n, inner.c, inner.sib, t);
      ZipAppend(m, root, nil, inner.up, outer, Join(inner.side, t, inner.n, inner.c, inner.sib));
    }
  }

  /** The place of a node of the tree. */
  lemma {:induction false} Locate(m: Memory, root: RbNode, nil: RbNode, ctx: Ctx, t: Tree, h: nat, z: RbNode)
    returns (ctx': Ctx, t': Tree, h': nat)
    requires Focus(m, root, nil, ctx, t) && Proper(ctx, t, h) && z in Nodes(t)
    ensures Focus(m, root, nil, ctx', t') && Proper(ctx', t', h') && t'.Node? && t'.n == z
    ensures Around(ctx', t') == Around(ctx, t)
    decreases t
  {
    if t.n == z {
      ctx', t', h' := ctx, t, h;
    } else {
      var side := if z in Nodes(t.l) then L else R;
      var child, sib := if side == L then t.l else t.r, if side == L then t.r else t.l;
      Zip(m, root, nil, ctx, side, t.n, t.c, sib, child);
      Descend(ctx, side, child, t.n, t.c, sib, h);
      ZipInOrder(ctx, side, t.n, t.c, sib, child);
      ctx', t', h' := Locate(m, root, nil, Hole(ctx, side, t.n, t.c, sib), child, if t.c == Red then h else h - 1, z);
    }
  }

  /** What the memory holds at z, its successor y and the subtrees involved, before y is
      taken out of the right subtree of z. */
  lemma {:induction false} SuccessorFacts(m: Memory, root: RbNode, nil: RbNode, ctx: Ctx, l: Tree, z: RbNode, c: Color,
                                          r: Tree,
                                          inner: Ctx, low: Tree)
    requires Focus(m, root, nil, ctx, Node(l, z, c, r)) && l.Node? && r.Node?
    requires low.Node? && low.l == Nil && Plug(inner, low) == r
    ensures var y, path := low.n, Append(inner, Hole(ctx, R, z, c, l));
            && Separate(path, low) && path.Hole?
            && nil in m && z in m && y in m && l.n in m && r.n in m && Root(low.r, nil) in m && path.n in m
            && path.n != nil
            && y != nil && z != nil && l.n != nil && r.n != nil
            && m[z] == Cell(ParentOf(ctx, nil), l.n, r.n, c) && m[l.n].parent == z && m[r.n].parent == z
            && m[y] == Cell(path.n, nil, Root(low.r, nil), low.c)
            && (path.side == L <==> m[path.n].left == y)
            && (path.n == if inner.Top? then z else inner.n)
            && (ctx.Hole? ==> ctx.n in m && ctx.n != nil && (ctx.side == L <==> m[ctx.n].left == z))
  {
    var outer := Hole(ctx, R, z, c, l);
    Cells(m, root, nil, ctx, Node(l, z, c, r));
    Zip(m, root, nil, ctx, R, z, c, l, r);
    Cells(m, root, nil, outer, r);
    Zip(m, root, nil, ctx, L, z, c, r, l);
    Cells(m, root, nil, Hole(ctx, L, z, c, r), l);
    ZipAppend(m, root, nil, inner, outer, low);
    Cells(m, root, nil, Append(inner, outer), low);
    Zip(m, root, nil, Append(inner, outer), R, low.n, low.c, Nil, low.r);
    Cells(m, root, nil, Hole(Append(inner, outer), R, low.n, low.c, Nil), low.r);
  }

  /** The tree after y has been taken out of the right subtree of z. */
  lemma {:induction false} WithoutSuccessor(m: Memory, root: RbNode, nil: RbNode, ctx: Ctx, l: Tree, z: RbNode,
                                            c: Color, r: Tree,
                                            inner: Ctx, low: Tree)
    requires Focus(m, root, nil, ctx, Node(l, z, c, r)) && low.Node? && low.l == Nil && Plug(inner, low) == r
    ensures var path := Append(inner, Hole(ctx, R, z, c, l));
            && path.Hole? && path.n in m && Root(low.r, nil) in m
            && Focus(Transplanted(m, path, Root(low.r, nil), nil), root, nil, ctx, Node(l, z, c, Plug(inner, low.r)))
  {
    var outer := Hole(ctx, R, z, c, l);
    var path := Append(inner, outer);
    Zip(m, root, nil, ctx, R, z, c, l, r);
    ZipAppend(m, root, nil, inner, outer, low);
    SpliceOut(m, root, nil, path, R, low.r, low.n, low.c);
    var m' := Transplanted(m, path, Root(low.r, nil), nil);
    ZipAppend(m', root, nil, inner, outer, low.r);
    Zip(m', root, nil, ctx, R, z, c, l, Plug(inner, low.r));
  }

  /** The memory after the first half of deleting the root z of t by its successor y. */
  ghost predicate Loosened(m: Memory, m': Memory, nil: RbNode, ctx: Ctx, t: Tree, inner: Ctx, low: Tree)
    requires t.Node? && low.Node?
  {
    var z, y, x, path := t.n, low.n, Root(low.r, nil), Append(inner, Hole(ctx, R, t.n, t.c, t.l));
    && x in m && y in m && path.Hole? && path.n in m && z in m
    && if inner.Top? then m' == m[x := m[x].(parent := y)]
       else
         var m1 := Transplanted(m, path, x, nil);
         && t.r.Node? && t.r.n in m && t.r.n != y
         && m' == m1[y := m1[y].(right := t.r.n)][t.r.n := m1[t.r.n].(parent := y)]
  }

  lemma {:induction false} LoosenedCells(m: Memory, m': Memory, root: RbNode, nil: RbNode, ctx: Ctx, t: Tree,
                                         inner: Ctx, low: Tree)
    requires Focus(m, root, nil, ctx, t) && t.Node? && t.l.Node? && t.r.Node?
    requires low.Node? && low.l == Nil && Plug(inner, low) == t.r && Loosened(m, m', nil, ctx, t, inner, low)
    ensures m'.Keys == m.Keys && t.n in m && low.n in m && t.l.n in m && t.l.n != nil && t.l.n != low.n
    ensures m'[t.n].parent == ParentOf(ctx, nil) && m'[t.n].left == t.l.n && m'[t.n].color == t.c
    ensures ctx.Hole? ==> ctx.n in m && ctx.n != nil && (ctx.side == L <==> m'[ctx.n].left == t.n)
    ensures t.n != low.n && ParentOf(ctx, nil) != t.n && ParentOf(ctx, nil) != low.n
  {
    SuccessorFacts(m, root, nil, ctx, t.l, t.n, t.c, t.r, inner, low);
    SuccessorApart(ctx, t.l, t.n, t.c, inner, low.n, low.c, low.r);
    hide Focus, Holds, HoldsCtx, Separate, Nodes, CtxNodes, Distinct, CtxDistinct, Plug, Append;
  }

  /** The second half, from the loosened memory, leaves y in the place of z. */
  lemma {:induction false} SuccessorMoved(m: Memory, m2: Memory, m': Memory, root: RbNode, root': RbNode, nil: RbNode,
                                          ctx: Ctx, t: Tree, inner: Ctx, low: Tree)
    requires Focus(m, root, nil, ctx, t) && t.Node? && t.l.Node? && t.r.Node?
    requires low.Node? && low.l == Nil && Plug(inner, low) == t.r && Loosened(m, m2, nil, ctx, t, inner, low)
    requires m2.Keys == m.Keys && low.n in m && t.l.n in m && (ctx.Hole? ==> ctx.n in m)
    requires var m3 := Transplanted(m2, ctx, low.n, nil);
             m' == m3[low.n := m3[low.n].(left := t.l.n, color := t.c)][t.l.n := m3[t.l.n].(parent := low.n)]
    requires root' == if ctx.Top? then low.n else root
    ensures var ctx' := Append(inner, Hole(ctx, R, low.n, t.c, t.l));
            && Focus(m', root', nil, ctx', low.r) && Root(low.r, nil) in m'
            && m'[Root(low.r, nil)].parent == ParentOf(ctx', nil)
  {
    var y, x := low.n, Root(low.r, nil);
    var path := Append(inner, Hole(ctx, R, t.n, t.c, t.l));
    SuccessorFacts(m, root, nil, ctx, t.l, t.n, t.c, t.r, inner, low);
    SuccessorApart(ctx, t.l, t.n, t.c, inner, y, low.c, low.r);
    WithoutSuccessor(m, root, nil, ctx, t.l, t.n, t.c, t.r, inner, low);
    var m1 := Transplanted(m, path, x, nil);
    var r' := Plug(inner, low.r);
    assert inner.Top? ==> r' == low.r;
    TakeOver(m1, m', root, root', nil, ctx, t.l, t.n, t.c, r', y);
    Zip(m', root', nil, ctx, R, y, t.c, t.l, r');
    ZipAppend(m', root', nil, inner, Hole(ctx, R, y, t.c, t.l), low.r);
  }

  /** The place of a node of the whole tree. */
  lemma {:induction false} Find(m: Memory, root: RbNode, nil: RbNode, shape: Tree, z: RbNode)
    returns (ctx: Ctx, t: Tree, h: nat)
    requires Focus(m, root, nil, Top, shape) && RedBlack(shape) && z in Elements(InOrder(shape))
    ensures Focus(m, root, nil, ctx, t) && Proper(ctx, t, h) && t.Node? && t.n == z
    ensures Separate(ctx, t) && Around(ctx, t) == InOrder(shape)
  {
    NodesInOrder(shape);
    h :| RB(shape, h);
    ctx, t, h := Locate(m, root, nil, Top, shape, h, z);
  }

  /** Deletion of a node with at most one child, in the memory and in the invariants. */
  lemma {:induction false} RemoveOne(m: Memory, root: RbNode, nil: RbNode, ctx: Ctx, side: Side, t: Tree, z: RbNode,
                                     c: Color, h: nat)
    returns (k: nat)
    requires Focus(m, root, nil, ctx, Join(side, t, z, c, Nil)) && Proper(ctx, Join(side, t, z, c, Nil), h)
    ensures Root(t, nil) in m && (ctx.Hole? ==> ctx.n in m)
    ensures var m' := Transplanted(m, ctx, Root(t, nil), nil);
            && Focus(m', if ctx.Top? then Root(t, nil) else root, nil, ctx, t)
            && m'[Root(t, nil)].parent == ParentOf(ctx, nil)
    ensures if c == Red then RedBlack(Plug(ctx, t)) else Short(ctx, t, k)
    ensures Around(ctx, t) == AroundWithout(ctx, if side == L then t else Nil, if side == L then Nil else t)
  {
    SpliceOut(m, root, nil, ctx, side, t, z, c);
    RemoveRB(ctx, side, t, z, c, h);
    k := if c == Red then h else h - 1;
  }

  /** The memory may forget a node that is not part of the tree. */
  lemma {:induction false} Forget(m: Memory, root: RbNode, nil: RbNode, shape: Tree, z: RbNode)
    requires Focus(m, root, nil, Top, shape) && z !in Elements(InOrder(shape)) && z != nil
    ensures Focus(m - {z}, root, nil, Top, shape)
  {
    NodesInOrder(shape);
    HoldsFrame(m, m - {z}, shape, nil, nil);
  }

  lemma {:induction false} Adopted(m: Memory, y: RbNode, l: RbNode, c: Color)
    requires y in m && l in m && y != l
    ensures var m1 := m[y := m[y].(left := l)];
            var m2 := m1[l := m1[l].(parent := y)];
            m2[y := m2[y].(color := c)] == m[y := m[y].(left := l, color := c)][l := m[l].(parent := y)]
  {
  }

  class RedBlackTree {
    var root: RbNode
    const nil: RbNode
    ghost var nodes: set<RbNode>  // the sentinel and every node of the tree
    ghost var shape: Tree

    /** The nodes of the tree in symmetric order. */
    ghost function Contents(): seq<RbNode>
      reads this
    {
      InOrder(shape)
    }

    /** Parent links, child links and colours agree with a red-black search tree, and the
        sentinel is black. */
    ghost predicate Valid()
      reads this, nodes
    {
      && Focus(Snapshot(nodes), root, nil, Top, shape)
      && nodes == Elements(Contents()) + {nil}
      && RedBlack(shape)
      && Sorted(Contents())
    }

    constructor RbTreeInit()
      ensures Valid() && Contents() == [] && fresh(nodes)
    {
      var node := new RbNode(0);
      nil := node;
      root := node;
      shape := Nil;
      nodes := {node};
      new;
      nil.parent, nil.left, nil.right := nil, nil, nil;
      nil.color := Black;
      assert RB(shape, 0);
    }

    /** One colour assignment, and what it does to the snapshot. */
    method SetColor(n: RbNode, c: Color)
      requires n in nodes
      modifies n`color
      ensures n.color == c
      ensures Snapshot(nodes) == old(Snapshot(nodes))[n := old(Snapshot(nodes))[n].(color := c)]
    {
      n.color := c;
    }

    /** One parent assignment. */
    method SetParent(n: RbNode, p: RbNode)
      requires n in nodes
      modifies n`parent
      ensures n.parent == p
      ensures Snapshot(nodes) == old(Snapshot(nodes))[n := old(Snapshot(nodes))[n].(parent := p)]
    {
      n.parent := p;
    }

    /** One left-child assignment. */
    method SetLeft(n: RbNode, c: RbNode)
      requires n in nodes
      modifies n`left
      ensures n.left == c
      ensures Snapshot(nodes) == old(Snapshot(nodes))[n := old(Snapshot(nodes))[n].(left := c)]
    {
      n.left := c;
    }

    /** The links a rotation changes, and that the others stay: the tree is rotated. */
    lemma {:induction false} Turned(m: Memory, r: RbNode, ctx: Ctx, side: Side, a: Tree, x: RbNode, cx: Color, b: Tree,
                                    y: RbNode, cy: Color, c: Tree)
      requires Focus(m, r, nil, ctx, Join(side, a, x, cx, Join(side, b, y, cy, c))) && m.Keys == nodes
      requires x in nodes && y in nodes && nil in nodes && CellIn(nodes, nil) == m[nil]
      requires x.parent == y && y.parent == ParentOf(ctx, nil) && x.color == cx && y.color == cy
      requires if side == L
               then x.left == Root(a, nil) && x.right == Root(b, nil) && y.left == x && y.right == Root(c, nil)
               else x.right == Root(a, nil) && x.left == Root(b, nil) && y.right == x && y.left == Root(c, nil)
      requires b.Node? ==> b.n in nodes && CellIn(nodes, b.n) == m[b.n].(parent := x)
      requires ctx.Hole? ==> ctx.n in nodes && CellIn(nodes, ctx.n) == Relink(m[ctx.n], ctx.side, y)
      requires root == if ctx.Top? then y else r
      requires forall n :: n in nodes && n != x && n != y && n != Root(b, nil) && n != ParentOf(ctx, nil) ==>
                 CellIn(nodes, n) == m[n]
      ensures Focus(Snapshot(nodes), root, nil, ctx, Join(side, Join(side, a, x, cx, b), y, cy, c))
    {
      hide Focus, Separate, Nodes, CtxNodes, Holds, HoldsCtx, Distinct, CtxDistinct;
      RotationFacts(m, r, nil, ctx, side, a, x, cx, b, y, cy, c);
      Rotated(m, Snapshot(nodes), r, root, nil, ctx, side, a, x, cx, b, y, cy, c);
    }

    method RbLeftRotate(x: RbNode, ghost ctx: Ctx, ghost a: Tree, ghost cx: Color, ghost b: Tree,
                        ghost w: RbNode, ghost cw: Color, ghost c: Tree)
      requires Focus(Snapshot(nodes), root, nil, ctx, Node(a, x, cx, Node(b, w, cw, c)))
      modifies this`root, nodes
      ensures Focus(Snapshot(nodes), root, nil, ctx, Node(Node(a, x, cx, b), w, cw, c))
      ensures unchanged(nil)
    {
      hide Focus, Separate, Nodes, CtxNodes, Holds, HoldsCtx, Distinct, CtxDistinct;
      ghost var m, r := Snapshot(nodes), root;
      RotationFacts(m, r, nil, ctx, L, a, x, cx, b, w, cw, c);
      var y := x.right;
      x.right := y.left;
      if y.left != nil {
        y.left.parent := x;
      }
      y.parent := x.parent;
      if x.parent == nil {
        root := y;
      } else if x == x.parent.left {
        x.parent.left := y;
      } else {
        x.parent.right := y;
      }
      y.left := x;
      x.parent := y;
      Turned(m, r, ctx, L, a, x, cx, b, w, cw, c);
    }

    method RbRightRotate(y: RbNode, ghost ctx: Ctx, ghost a: Tree, ghost w: RbNode, ghost cw: Color, ghost b: Tree,
                         ghost cy: Color, ghost c: Tree)
      requires Focus(Snapshot(nodes), root, nil, ctx, Node(Node(a, w, cw, b), y, cy, c))
      modifies this`root, nodes
      ensures Focus(Snapshot(nodes), root, nil, ctx, Node(a, w, cw, Node(b, y, cy, c)))
      ensures unchanged(nil)
    {
      hide Focus, Separate, Nodes, CtxNodes, Holds, HoldsCtx, Distinct, CtxDistinct;
      ghost var m, r := Snapshot(nodes), root;
      RotationFacts(m, r, nil, ctx, R, c, y, cy, b, w, cw, a);
      var x := y.left;
      y.left := x.right;
      if x.right != nil {
        x.right.parent := y;
      }
      x.parent := y.parent;
      if y.parent == nil {
        root := x;
      } else if y == y.parent.left {
        y.parent.left := x;
      } else {
        y.parent.right := x;
      }
      x.right := y;
      y.parent := x;
      Turned(m, r, ctx, R, c, y, cy, b, w, cw, a);
    }

    /** Branch "the uncle y is red" of the insertion fixup, the same on both sides. */
    method RecolourUncle(z: RbNode, y: RbNode, ghost up: Ctx, ghost side: Side, ghost g: RbNode, ghost cg: Color,
                         ghost u: Tree,
                         ghost side': Side, ghost p: RbNode, ghost s: Tree, ghost t: Tree)
      requires Focus(Snapshot(nodes), root, nil, Hole(Hole(up, side, g, cg, u), side', p, Red, s), t)
      requires t.Node? && t.n == z && u.Node? && u.n == y
      modifies nodes
      ensures Focus(Snapshot(nodes), root, nil, up, Join(side, Join(side', t, p, Black, s), g, Red, Paint(u, Black)))
      ensures unchanged(nil) && z.parent == old(z.parent) == p && p.parent == g && g in nodes
    {
      hide Focus, Holds, HoldsCtx, Separate, Nodes, CtxNodes, Distinct, CtxDistinct;
      ghost var m := Snapshot(nodes);
      Grand(m, root, nil, up, side, g, cg, u, side', p, Red, s, t);
      PaintUncle(m, root, nil, up, side, g, cg, u, side', p, s, t);
      SetColor(z.parent, Black);
      SetColor(y, Black);
      SetColor(z.parent.parent, Red);
    }

    /** Branch "the uncle is black" of the insertion fixup below a left child. */
    method RotateUnderLeft(node: RbNode, ghost up: Ctx, ghost g: RbNode, ghost cg: Color, ghost u: Tree,
                           ghost side': Side, ghost p0: RbNode, ghost s0: Tree, ghost t0: Tree, ghost h: nat)
      returns (z: RbNode, ghost ctx: Ctx, ghost t: Tree)
      requires Focus(Snapshot(nodes), root, nil, Hole(Hole(up, L, g, cg, u), side', p0, Red, s0), t0)
      requires RedAt(Hole(Hole(up, L, g, cg, u), side', p0, Red, s0), t0, h) && ColorOf(u) == Black
      requires t0.Node? && t0.n == node && t0.c == Red
      modifies this`root, nodes
      ensures Focus(Snapshot(nodes), root, nil, ctx, t) && RedAt(ctx, t, h) && ParentColor(ctx) == Black
      ensures Around(ctx, t) == Around(Hole(Hole(up, L, g, cg, u), side', p0, Red, s0), t0)
      ensures t.Node? && t.n == z && unchanged(nil)
    {
      hide Focus, Holds, HoldsCtx, Separate, Nodes, CtxNodes, Distinct, CtxDistinct;
      hide RedAt, RB, CtxRB, Around, Before, After, InOrder, Plug;
      z, t := node, t0;
      ghost var gp, p, s := Hole(up, L, g, cg, u), p0, s0;
      Grand(Snapshot(nodes), root, nil, up, L, g, cg, u, side', p, Red, s, t);
      if z == z.parent.right {
        z := z.parent;
        Zip(Snapshot(nodes), root, nil, gp, R, p, Red, s, t);
        InnerInsert(up, L, g, cg, u, p, s, t.l, t.n, t.r, h);
        RbLeftRotate(z, gp, s, Red, t.l, t.n, Red, t.r);
        p, s, t := t.n, t.r, Node(s, p, Red, t.l);
        Zip(Snapshot(nodes), root, nil, gp, L, p, Red, s, t);
        Grand(Snapshot(nodes), root, nil, up, L, g, cg, u, L, p, Red, s, t);
      }
      ghost var m := Snapshot(nodes);
      PaintOuter(m, root, nil, up, L, g, cg, u, p, s, t);
      OuterInsert(up, L, g, cg, u, p, s, t, h);
      SetColor(z.parent, Black);
      SetColor(z.parent.parent, Red);
      RbRightRotate(z.parent.parent, up, t, p, Black, s, Red, u);
      ctx := Hole(up, L, p, Black, Node(s, g, Red, u));
      Zip(Snapshot(nodes), root, nil, up, L, p, Black, Node(s, g, Red, u), t);
    }

    /** The mirror image, below a right child. */
    method RotateUnderRight(node: RbNode, ghost up: Ctx, ghost g: RbNode, ghost cg: Color, ghost u: Tree,
                            ghost side': Side, ghost p0: RbNode, ghost s0: Tree, ghost t0: Tree, ghost h: nat)
      returns (z: RbNode, ghost ctx: Ctx, ghost t: Tree)
      requires Focus(Snapshot(nodes), root, nil, Hole(Hole(up, R, g, cg, u), side', p0, Red, s0), t0)
      requires RedAt(Hole(Hole(up, R, g, cg, u), side', p0, Red, s0), t0, h) && ColorOf(u) == Black
      requires t0.Node? && t0.n == node && t0.c == Red
      modifies this`root, nodes
      ensures Focus(Snapshot(nodes), root, nil, ctx, t) && RedAt(ctx, t, h) && ParentColor(ctx) == Black
      ensures Around(ctx, t) == Around(Hole(Hole(up, R, g, cg, u), side', p0, Red, s0), t0)
      ensures t.Node? && t.n == z && unchanged(nil)
    {
      hide Focus, Holds, HoldsCtx, Separate, Nodes, CtxNodes, Distinct, CtxDistinct;
      hide RedAt, RB, CtxRB, Around, Before, After, InOrder, Plug;
      z, t := node, t0;
      ghost var gp, p, s := Hole(up, R, g, cg, u), p0, s0;
      Grand(Snapshot(nodes), root, nil, up, R, g, cg, u, side', p, Red, s, t);
      if z == z.parent.left {
        z := z.parent;
        Zip(Snapshot(nodes), root, nil, gp, L, p, Red, s, t);
        InnerInsert(up, R, g, cg, u, p, s, t.r, t.n, t.l, h);
        RbRightRotate(z, gp, t.l, t.n, Red, t.r, Red, s);
        p, s, t := t.n, t.l, Node(t.r, p, Red, s);
        Zip(Snapshot(nodes), root, nil, gp, R, p, Red, s, t);
        Grand(Snapshot(nodes), root, nil, up, R, g, cg, u, R, p, Red, s, t);
      }
      ghost var m := Snapshot(nodes);
      PaintOuter(m, root, nil, up, R, g, cg, u, p, s, t);
      OuterInsert(up, R, g, cg, u, p, s, t, h);
      SetColor(z.parent, Black);
      SetColor(z.parent.parent, Red);
      RbLeftRotate(z.parent.parent, up, u, Red, s, p, Black, t);
      ctx := Hole(up, R, p, Black, Node(u, g, Red, s));
      Zip(Snapshot(nodes), root, nil, up, R, p, Black, Node(u, g, Red, s), t);
    }

    method RbInsertFixup(node: RbNode, ghost ctx0: Ctx, ghost t0: Tree, ghost h0: nat) returns (ghost whole: Tree)
      requires Focus(Snapshot(nodes), root, nil, ctx0, t0) && RedAt(ctx0, t0, h0) && t0.n == node
      modifies this`root, nodes
      ensures Focus(Snapshot(nodes), root, nil, Top, whole) && RedBlack(whole)
      ensures InOrder(whole) == Around(ctx0, t0)
      ensures unchanged(nil)
    {
      hide Focus, Holds, HoldsCtx, Separate, Nodes, CtxNodes, Distinct, CtxDistinct;
      hide RedAt, RB, CtxRB, RedBlack, Around, Before, After, InOrder, Plug;
      var z := node;
      ghost var ctx, t, h := ctx0, t0, h0;
      Cells(Snapshot(nodes), root, nil, ctx, t);
      RedParent(ctx, t, h);
      while z.parent.color == Red
        invariant Focus(Snapshot(nodes), root, nil, ctx, t) && RedAt(ctx, t, h)
        invariant t.Node? && t.n == z && t.c == Red
        invariant (ParentColor(ctx) == Red ==> ctx.Hole? && ctx.c == Red && ctx.up.Hole?)
        invariant Around(ctx, t) == Around(ctx0, t0)
        invariant z in nodes && ParentOf(ctx, nil) in nodes
        invariant z.parent == ParentOf(ctx, nil) && z.parent.color == ParentColor(ctx)
        invariant unchanged(nil)
        decreases if ParentColor(ctx) == Red then Depth(ctx) + 1 else 0
      {
        ghost var gp, side', p, s := ctx.up, ctx.side, ctx.n, ctx.sib;
        ghost var up, side, g, cg, u := gp.up, gp.side, gp.n, gp.c, gp.sib;
        Grand(Snapshot(nodes), root, nil, up, side, g, cg, u, side', p, Red, s, t);
        assert Depth(gp) == Depth(up) + 1;
        if z.parent == z.parent.parent.left {
          var y := z.parent.parent.right;
          if y.color == Red {
            RecolourInsert(up, side, g, cg, u, side', p, s, t, h);
            RecolourUncle(z, y, up, side, g, cg, u, side', p, s, t);
            z := z.parent.parent;
            ctx, t, h := up, Join(side, Join(side', t, p, Black, s), g, Red, Paint(u, Black)), h + 1;
          } else {
            z, ctx, t := RotateUnderLeft(z, up, g, cg, u, side', p, s, t, h);
          }
        } else {
          var y := z.parent.parent.left;
          if y.color == Red {
            RecolourInsert(up, side, g, cg, u, side', p, s, t, h);
            RecolourUncle(z, y, up, side, g, cg, u, side', p, s, t);
            z := z.parent.parent;
            ctx, t, h := up, Join(side, Join(side', t, p, Black, s), g, Red, Paint(u, Black)), h + 1;
          } else {
            z, ctx, t := RotateUnderRight(z, up, g, cg, u, side', p, s, t, h);
          }
        }
        Cells(Snapshot(nodes), root, nil, ctx, t);
        RedParent(ctx, t, h);
      }
      ghost var m := Snapshot(nodes);
      InsertDone(m, root, nil, ctx, t, h);
      SetColor(root, Black);
      whole := Paint(Plug(ctx, t), Black);
    }

    /** The descent of an insertion: the parent of the empty place where z belongs, behind
        the nodes with the same key. */
    method FindPlace(z: RbNode) returns (y: RbNode, ghost ctx: Ctx, ghost h: nat)
      requires Valid()
      ensures Focus(Snapshot(nodes), root, nil, ctx, Nil) && Proper(ctx, Nil, h) && y == ParentOf(ctx, nil)
      ensures y in nodes
      ensures Around(ctx, Nil) == Contents() && AllAtMost(Before(ctx), z.key) && AllAbove(After(ctx), z.key)
      ensures ctx.Hole? ==> y != nil && (ctx.side == L <==> z.key < y.key)
    {
      ghost var m := Snapshot(nodes);
      ghost var t := shape;
      h := Start(shape, z.key);
      ctx := Top;
      Cells(m, root, nil, ctx, t);
      hide Focus, Holds, HoldsCtx, Separate, Nodes, CtxNodes, Distinct, CtxDistinct;
      hide RB, CtxRB, RedBlack, Proper, Sorted, AllAtMost, AllAbove, Around, Before, After, InOrder;
      y := nil;
      var x := root;
      while x != nil
        invariant Focus(m, root, nil, ctx, t) && Proper(ctx, t, h)
        invariant x == Root(t, nil) && y == ParentOf(ctx, nil) && x in nodes && y in nodes && (t.Node? ==> t.n != nil)
        invariant Around(ctx, t) == Contents() && AllAtMost(Before(ctx), z.key) && AllAbove(After(ctx), z.key)
        invariant ctx.Hole? ==> y != nil && (ctx.side == L <==> z.key < y.key)
        decreases t
      {
        Cells(m, root, nil, ctx, t);
        y := x;
        ghost var side := if z.key < x.key then L else R;
        ghost var child, sib := if side == L then t.l else t.r, if side == L then t.r else t.l;
        DescendKeys(ctx, side, child, t.n, t.c, sib, z.key);
        Descend(ctx, side, child, t.n, t.c, sib, h);
        Zip(m, root, nil, ctx, side, t.n, t.c, sib, child);
        if z.key < x.key {
          x := x.left;
        } else {
          x := x.right;
        }
        h := if t.c == Red then h else h - 1;
        ctx, t := Hole(ctx, side, t.n, t.c, sib), child;
        Cells(m, root, nil, ctx, t);
      }
      Cells(m, root, nil, ctx, t);
    }

    /** Hanging the new node z as a red leaf below y. */
    method LinkNew(z: RbNode, y: RbNode, ghost ctx: Ctx)
      requires z !in nodes && nil in nodes && y in nodes && y == ParentOf(ctx, nil)
      requires ctx.Hole? ==> y != nil && (ctx.side == L <==> z.key < y.key)
      modifies this`root, this`nodes, nodes, z
      ensures nodes == old(nodes) + {z} && unchanged(nil)
      ensures root == if ctx.Top? then z else old(root)
      ensures ctx.Hole? ==>
                Snapshot(nodes) == old(Snapshot(nodes))[z := Cell(y, nil, nil, Red)][y :=
                    old(Relink(Snapshot(nodes)[y], ctx.side, z))]
      ensures ctx.Top? ==> Snapshot(nodes) == old(Snapshot(nodes))[z := Cell(y, nil, nil, Red)]
    {
      z.parent := y;
      if y == nil {
        root := z;
      } else if z.key < y.key {
        y.left := z;
      } else {
        y.right := z;
      }
      z.left := nil;
      z.right := nil;
      z.color := Red;
      nodes := nodes + {z};
    }

    /** The new node is then the focus, a red leaf in the place found for it. */
    method LinkRed(z: RbNode, y: RbNode, ghost ctx: Ctx)
      requires Focus(Snapshot(nodes), root, nil, ctx, Nil) && z !in nodes && y in nodes && y == ParentOf(ctx, nil)
      requires ctx.Hole? ==> y != nil && (ctx.side == L <==> z.key < y.key)
      modifies this`root, this`nodes, nodes, z
      ensures nodes == old(nodes) + {z} && unchanged(nil)
      ensures Focus(Snapshot(nodes), root, nil, ctx, Node(Nil, z, Red, Nil))
    {
      hide Focus, Holds, HoldsCtx, Separate, Nodes, CtxNodes, Distinct, CtxDistinct;
      ghost var m, r := Snapshot(nodes), root;
      Cells(m, r, nil, ctx, Nil);
      LinkNew(z, y, ctx);
      LinkLeaf(m, Snapshot(nodes), r, root, nil, ctx, z);
    }

    method RbTreeInsert(z: RbNode)
      requires Valid() && z !in nodes
      modifies this, nodes, z
      ensures Valid() && nodes == old(nodes) + {z} && unchanged(nil)
      ensures Contents() == Inserted(old(Contents()), z)
    {
      hide Focus, Holds, HoldsCtx, Separate, Nodes, CtxNodes, Distinct, CtxDistinct;
      hide RB, CtxRB, RedAt, RedBlack, Proper, Sorted, AllAtMost, AllAbove, Inserted, Around, Before, After, InOrder,
           Elements;
      ghost var ctx, h;
      var y;
      y, ctx, h := FindPlace(z);
      LeafAt(ctx, z, h);
      LinkRed(z, y, ctx);
      shape := RbInsertFixup(z, ctx, Node(Nil, z, Red, Nil), h);
    }

    /** Case 1 of the deletion fixup for a left child x: its sibling w is red. */
    method RedSiblingLeft(x: RbNode, w: RbNode, ghost up: Ctx, ghost p: RbNode, ghost cp: Color, ghost wt: Tree,
                          ghost t: Tree)
      returns (w': RbNode)
      requires Focus(Snapshot(nodes), root, nil, Hole(up, L, p, cp, wt), t) && wt.Node? && wt.n == w && wt.l.Node?
      requires x == Root(t, nil) && x.parent == p
      modifies this`root, nodes
      ensures Focus(Snapshot(nodes), root, nil, Hole(Hole(up, L, w, Black, wt.r), L, p, Red, wt.l), t)
      ensures w' == wt.l.n && x.parent == p && unchanged(nil)
    {
      hide Focus, Holds, HoldsCtx, Separate, Nodes, CtxNodes, Distinct, CtxDistinct;
      ghost var m := Snapshot(nodes);
      Family(m, root, nil, up, L, p, cp, wt, t);
      PaintSibling(m, root, nil, up, L, p, cp, wt, t, Black);
      SetColor(w, Black);
      ghost var m1 := Snapshot(nodes);
      PaintParent(m1, root, nil, up, L, p, cp, Paint(wt, Black), t, Red);
      SetColor(x.parent, Red);
      Zip(Snapshot(nodes), root, nil, up, L, p, Red, Paint(wt, Black), t);
      RbLeftRotate(x.parent, up, t, Red, wt.l, w, Black, wt.r);
      Zip(Snapshot(nodes), root, nil, up, L, w, Black, wt.r, Node(t, p, Red, wt.l));
      Zip(Snapshot(nodes), root, nil, Hole(up, L, w, Black, wt.r), L, p, Red, wt.l, t);
      Cells(Snapshot(nodes), root, nil, Hole(Hole(up, L, w, Black, wt.r), L, p, Red, wt.l), t);
      w' := x.parent.right;
    }

    /** Case 3 for a left child x: only the near nephew, w.left, is red. */
    method NearNephewLeft(x: RbNode, w: RbNode, ghost up: Ctx, ghost p: RbNode, ghost cp: Color, ghost wt: Tree,
                          ghost t: Tree)
      returns (w': RbNode)
      requires Focus(Snapshot(nodes), root, nil, Hole(up, L, p, cp, wt), t) && wt.Node? && wt.n == w && wt.l.Node?
      requires x == Root(t, nil) && x.parent == p
      modifies this`root, nodes
      ensures Focus(Snapshot(nodes), root, nil,
                    Hole(up, L, p, cp, Node(wt.l.l, wt.l.n, Black, Node(wt.l.r, w, Red, wt.r))), t)
      ensures w' == wt.l.n && x.parent == p && unchanged(nil)
    {
      hide Focus, Holds, HoldsCtx, Separate, Nodes, CtxNodes, Distinct, CtxDistinct;
      ghost var m, n := Snapshot(nodes), wt.l.n;
      ghost var v := Paint(wt.l, Black);
      Family(m, root, nil, up, L, p, cp, wt, t);
      PaintNephew(m, root, nil, up, L, p, cp, L, wt.l, w, wt.c, wt.r, t, Black);
      SetColor(w.left, Black);
      ghost var m1 := Snapshot(nodes);
      PaintSibling(m1, root, nil, up, L, p, cp, Node(v, w, wt.c, wt.r), t, Red);
      SetColor(w, Red);
      ghost var ctx := Hole(up, R, p, cp, t);
      ToSibling(Snapshot(nodes), root, nil, up, L, p, cp, Node(v, w, Red, wt.r), t);
      RbRightRotate(w, ctx, wt.l.l, n, Black, wt.l.r, Red, wt.r);
      ghost var wt' := Node(wt.l.l, n, Black, Node(wt.l.r, w, Red, wt.r));
      ToSibling(Snapshot(nodes), root, nil, up, L, p, cp, wt', t);
      Family(Snapshot(nodes), root, nil, up, L, p, cp, wt', t);
      Cells(Snapshot(nodes), root, nil, Hole(up, L, p, cp, wt'), t);
      w' := x.parent.right;
    }

    /** Case 4 for a left child x: the far nephew, w.right, is red. */
    method FarNephewLeft(x: RbNode, w: RbNode, ghost up: Ctx, ghost p: RbNode, ghost cp: Color, ghost wt: Tree,
                         ghost t: Tree)
      requires Focus(Snapshot(nodes), root, nil, Hole(up, L, p, cp, wt), t) && wt.Node? && wt.n == w && wt.r.Node?
      requires x == Root(t, nil) && x.parent == p
      modifies this`root, nodes
      ensures Focus(Snapshot(nodes), root, nil, up, Node(Node(t, p, Black, wt.l), w, cp, Paint(wt.r, Black)))
      ensures unchanged(nil)
    {
      hide Focus, Holds, HoldsCtx, Separate, Nodes, CtxNodes, Distinct, CtxDistinct;
      ghost var m, n := Snapshot(nodes), wt.r.n;
      ghost var v := Paint(wt.r, Black);
      Family(m, root, nil, up, L, p, cp, wt, t);
      PaintFar(m, root, nil, up, L, p, cp, wt.l, w, wt.c, wt.r, t);
      SetColor(w, x.parent.color);
      SetColor(x.parent, Black);
      SetColor(w.right, Black);
      RbLeftRotate(x.parent, up, t, Black, wt.l, w, cp, v);
    }

    /** Case 1 of the deletion fixup for a right child x: its sibling w is red. */
    method RedSiblingRight(x: RbNode, w: RbNode, ghost up: Ctx, ghost p: RbNode, ghost cp: Color, ghost wt: Tree,
                           ghost t: Tree)
      returns (w': RbNode)
      requires Focus(Snapshot(nodes), root, nil, Hole(up, R, p, cp, wt), t) && wt.Node? && wt.n == w && wt.r.Node?
      requires x == Root(t, nil) && x.parent == p
      modifies this`root, nodes
      ensures Focus(Snapshot(nodes), root, nil, Hole(Hole(up, R, w, Black, wt.l), R, p, Red, wt.r), t)
      ensures w' == wt.r.n && x.parent == p && unchanged(nil)
    {
      hide Focus, Holds, HoldsCtx, Separate, Nodes, CtxNodes, Distinct, CtxDistinct;
      ghost var m := Snapshot(nodes);
      Family(m, root, nil, up, R, p, cp, wt, t);
      PaintSibling(m, root, nil, up, R, p, cp, wt, t, Black);
      SetColor(w, Black);
      ghost var m1 := Snapshot(nodes);
      PaintParent(m1, root, nil, up, R, p, cp, Paint(wt, Black), t, Red);
      SetColor(x.parent, Red);
      Zip(Snapshot(nodes), root, nil, up, R, p, Red, Paint(wt, Black), t);
      RbRightRotate(x.parent, up, wt.l, w, Black, wt.r, Red, t);
      Zip(Snapshot(nodes), root, nil, up, R, w, Black, wt.l, Node(wt.r, p, Red, t));
      Zip(Snapshot(nodes), root, nil, Hole(up, R, w, Black, wt.l), R, p, Red, wt.r, t);
      Cells(Snapshot(nodes), root, nil, Hole(Hole(up, R, w, Black, wt.l), R, p, Red, wt.r), t);
      w' := x.parent.left;
    }

    /** Case 3 for a right child x: only the near nephew, w.right, is red. */
    method NearNephewRight(x: RbNode, w: RbNode, ghost up: Ctx, ghost p: RbNode, ghost cp: Color, ghost wt: Tree,
                           ghost t: Tree)
      returns (w': RbNode)
      requires Focus(Snapshot(nodes), root, nil, Hole(up, R, p, cp, wt), t) && wt.Node? && wt.n == w && wt.r.Node?
      requires x == Root(t, nil) && x.parent == p
      modifies this`root, nodes
      ensures Focus(Snapshot(nodes), root, nil,
                    Hole(up, R, p, cp, Node(Node(wt.l, w, Red, wt.r.l), wt.r.n, Black, wt.r.r)), t)
      ensures w' == wt.r.n && x.parent == p && unchanged(nil)
    {
      hide Focus, Holds, HoldsCtx, Separate, Nodes, CtxNodes, Distinct, CtxDistinct;
      ghost var m, n := Snapshot(nodes), wt.r.n;
      ghost var v := Paint(wt.r, Black);
      Family(m, root, nil, up, R, p, cp, wt, t);
      PaintNephew(m, root, nil, up, R, p, cp, R, wt.r, w, wt.c, wt.l, t, Black);
      SetColor(w.right, Black);
      ghost var m1 := Snapshot(nodes);
      PaintSibling(m1, root, nil, up, R, p, cp, Node(wt.l, w, wt.c, v), t, Red);
      SetColor(w, Red);
      ghost var ctx := Hole(up, L, p, cp, t);
      ToSibling(Snapshot(nodes), root, nil, up, R, p, cp, Node(wt.l, w, Red, v), t);
      RbLeftRotate(w, ctx, wt.l, Red, wt.r.l, n, Black, wt.r.r);
      ghost var wt' := Node(Node(wt.l, w, Red, wt.r.l), n, Black, wt.r.r);
      ToSibling(Snapshot(nodes), root, nil, up, R, p, cp, wt', t);
      Family(Snapshot(nodes), root, nil, up, R, p, cp, wt', t);
      Cells(Snapshot(nodes), root, nil, Hole(up, R, p, cp, wt'), t);
      w' := x.parent.left;
    }

    /** Case 4 for a right child x: the far nephew, w.left, is red. */
    method FarNephewRight(x: RbNode, w: RbNode, ghost up: Ctx, ghost p: RbNode, ghost cp: Color, ghost wt: Tree,
                          ghost t: Tree)
      requires Focus(Snapshot(nodes), root, nil, Hole(up, R, p, cp, wt), t) && wt.Node? && wt.n == w && wt.l.Node?
      requires x == Root(t, nil) && x.parent == p
      modifies this`root, nodes
      ensures Focus(Snapshot(nodes), root, nil, up, Node(Paint(wt.l, Black), w, cp, Node(wt.r, p, Black, t)))
      ensures unchanged(nil)
    {
      hide Focus, Holds, HoldsCtx, Separate, Nodes, CtxNodes, Distinct, CtxDistinct;
      ghost var m, n := Snapshot(nodes), wt.l.n;
      ghost var v := Paint(wt.l, Black);
      Family(m, root, nil, up, R, p, cp, wt, t);
      PaintFar(m, root, nil, up, R, p, cp, wt.r, w, wt.c, wt.l, t);
      SetColor(w, x.parent.color);
      SetColor(x.parent, Black);
      SetColor(w.left, Black);
      RbRightRotate(x.parent, up, v, w, cp, wt.r, Black, t);
    }

    /** Cases 3 and 4 for a left child x: a nephew is red, and the shortage ends here. */
    method EndShortLeft(x: RbNode, w0: RbNode, ghost up: Ctx, ghost p: RbNode, ghost cp: Color, ghost wt0: Tree,
                        ghost t0: Tree, ghost h0: nat)
      returns (ghost ctx: Ctx, ghost t: Tree, ghost h: nat)
      requires Focus(Snapshot(nodes), root, nil, Hole(up, L, p, cp, wt0), t0) && Short(Hole(up, L, p, cp, wt0), t0, h0)
      requires x == Root(t0, nil) && x.parent == p && ColorOf(t0) == Black
      requires wt0.Node? && wt0.n == w0 && wt0.c == Black && (ColorOf(wt0.l) == Red || ColorOf(wt0.r) == Red)
      modifies this`root, nodes
      ensures Focus(Snapshot(nodes), root, nil, ctx, t) && Short(ctx, t, h) && ctx == Top && t.Node?
      ensures Around(ctx, t) == Around(Hole(up, L, p, cp, wt0), t0) && unchanged(nil)
      ensures root == t.n
    {
      hide Focus, Holds, HoldsCtx, Separate, Nodes, CtxNodes, Distinct, CtxDistinct;
      hide RB, CtxRB, Short, SemiRB, RedBlack, Around, Before, After, InOrder, Plug;
      var w := w0;
      ghost var wt := wt0;
      Family(Snapshot(nodes), root, nil, up, L, p, cp, wt, t0);
      if w.right.color == Black {
        ghost var v := wt.l;
        NearNephew(up, L, p, cp, v.l, v.n, v.r, w, wt.r, t0, h0);
        var w' := NearNephewLeft(x, w, up, p, cp, wt, t0);
        wt := Node(v.l, v.n, Black, Node(v.r, w, Red, wt.r));
        w := w';
      }
      ghost var res := Node(Node(t0, p, Black, wt.l), w, cp, Paint(wt.r, Black));
      h := FarNephew(up, L, p, cp, wt.l, w, wt.r, t0, h0);
      FarNephewLeft(x, w, up, p, cp, wt, t0);
      ZipAll(Snapshot(nodes), root, nil, up, res);
      ctx, t := Top, Plug(up, res);
      Cells(Snapshot(nodes), root, nil, ctx, t);
    }

    /** One round of the deletion fixup for a left child. */
    method FixShortLeft(node: RbNode, ghost up0: Ctx, ghost p: RbNode, ghost cp0: Color, ghost w0: Tree, ghost t0: Tree,
                        ghost h0: nat)
      returns (x: RbNode, ghost ctx: Ctx, ghost t: Tree, ghost h: nat)
      requires Focus(Snapshot(nodes), root, nil, Hole(up0, L, p, cp0, w0), t0)
      requires Short(Hole(up0, L, p, cp0, w0), t0, h0)
      requires node == Root(t0, nil) && node.parent == p && ColorOf(t0) == Black
      modifies this`root, nodes
      ensures Focus(Snapshot(nodes), root, nil, ctx, t) && Short(ctx, t, h) && x == Root(t, nil)
      ensures Around(ctx, t) == Around(Hole(up0, L, p, cp0, w0), t0)
      ensures ColorOf(t) == Red || Depth(ctx) <= Depth(up0)
      ensures t.Node? && unchanged(nil)
    {
      hide Focus, Holds, HoldsCtx, Separate, Nodes, CtxNodes, Distinct, CtxDistinct;
      hide RB, CtxRB, Short, SemiRB, RedBlack, Around, Before, After, InOrder, Plug;
      x := node;
      ghost var up, cp, wt := up0, cp0, w0;
      SiblingIsNode(up, L, p, cp, wt, t0, h0);
      Family(Snapshot(nodes), root, nil, up, L, p, cp, wt, t0);
      var w := x.parent.right;
      if w.color == Red {
        RedSibling(up, L, p, cp, wt.l, w, wt.r, t0, h0);
        var w' := RedSiblingLeft(x, w, up, p, cp, wt, t0);
        up, cp, wt := Hole(up, L, w, Black, wt.r), Red, wt.l;
        w := w';
        Family(Snapshot(nodes), root, nil, up, L, p, cp, wt, t0);
      }
      if w.left.color == Black && w.right.color == Black {
        BlackNephews(up, L, p, cp, wt, t0, h0);
        ghost var m := Snapshot(nodes);
        PaintSibling(m, root, nil, up, L, p, cp, wt, t0, Red);
        SetColor(w, Red);
        x := x.parent;
        Zip(Snapshot(nodes), root, nil, up, L, p, cp, Paint(wt, Red), t0);
        ctx, t, h := up, Node(t0, p, cp, Paint(wt, Red)), if cp == Black then h0 + 1 else h0;
      } else {
        ctx, t, h := EndShortLeft(x, w, up, p, cp, wt, t0, h0);
        x := root;
      }
    }

    /** Cases 3 and 4 for a right child x: a nephew is red, and the shortage ends here. */
    method EndShortRight(x: RbNode, w0: RbNode, ghost up: Ctx, ghost p: RbNode, ghost cp: Color, ghost wt0: Tree,
                         ghost t0: Tree, ghost h0: nat)
      returns (ghost ctx: Ctx, ghost t: Tree, ghost h: nat)
      requires Focus(Snapshot(nodes), root, nil, Hole(up, R, p, cp, wt0), t0) && Short(Hole(up, R, p, cp, wt0), t0, h0)
      requires x == Root(t0, nil) && x.parent == p && ColorOf(t0) == Black
      requires wt0.Node? && wt0.n == w0 && wt0.c == Black && (ColorOf(wt0.l) == Red || ColorOf(wt0.r) == Red)
      modifies this`root, nodes
      ensures Focus(Snapshot(nodes), root, nil, ctx, t) && Short(ctx, t, h) && ctx == Top && t.Node?
      ensures Around(ctx, t) == Around(Hole(up, R, p, cp, wt0), t0) && unchanged(nil)
      ensures root == t.n
    {
      hide Focus, Holds, HoldsCtx, Separate, Nodes, CtxNodes, Distinct, CtxDistinct;
      hide RB, CtxRB, Short, SemiRB, RedBlack, Around, Before, After, InOrder, Plug;
      var w := w0;
      ghost var wt := wt0;
      Family(Snapshot(nodes), root, nil, up, R, p, cp, wt, t0);
      if w.left.color == Black {
        ghost var v := wt.r;
        NearNephew(up, R, p, cp, v.r, v.n, v.l, w, wt.l, t0, h0);
        var w' := NearNephewRight(x, w, up, p, cp, wt, t0);
        wt := Node(Node(wt.l, w, Red, v.l), v.n, Black, v.r);
        w := w';
      }
      ghost var res := Node(Paint(wt.l, Black), w, cp, Node(wt.r, p, Black, t0));
      h := FarNephew(up, R, p, cp, wt.r, w, wt.l, t0, h0);
      FarNephewRight(x, w, up, p, cp, wt, t0);
      ZipAll(Snapshot(nodes), root, nil, up, res);
      ctx, t := Top, Plug(up, res);
      Cells(Snapshot(nodes), root, nil, ctx, t);
    }

    /** One round of the deletion fixup for a right child. */
    method FixShortRight(node: RbNode, ghost up0: Ctx, ghost p: RbNode, ghost cp0: Color, ghost w0: Tree,
                         ghost t0: Tree, ghost h0: nat)
      returns (x: RbNode, ghost ctx: Ctx, ghost t: Tree, ghost h: nat)
      requires Focus(Snapshot(nodes), root, nil, Hole(up0, R, p, cp0, w0), t0)
      requires Short(Hole(up0, R, p, cp0, w0), t0, h0)
      requires node == Root(t0, nil) && node.parent == p && ColorOf(t0) == Black
      modifies this`root, nodes
      ensures Focus(Snapshot(nodes), root, nil, ctx, t) && Short(ctx, t, h) && x == Root(t, nil)
      ensures Around(ctx, t) == Around(Hole(up0, R, p, cp0, w0), t0)
      ensures ColorOf(t) == Red || Depth(ctx) <= Depth(up0)
      ensures t.Node? && unchanged(nil)
    {
      hide Focus, Holds, HoldsCtx, Separate, Nodes, CtxNodes, Distinct, CtxDistinct;
      hide RB, CtxRB, Short, SemiRB, RedBlack, Around, Before, After, InOrder, Plug;
      x := node;
      ghost var up, cp, wt := up0, cp0, w0;
      SiblingIsNode(up, R, p, cp, wt, t0, h0);
      Family(Snapshot(nodes), root, nil, up, R, p, cp, wt, t0);
      var w := x.parent.left;
      if w.color == Red {
        RedSibling(up, R, p, cp, wt.r, w, wt.l, t0, h0);
        var w' := RedSiblingRight(x, w, up, p, cp, wt, t0);
        up, cp, wt := Hole(up, R, w, Black, wt.l), Red, wt.r;
        w := w';
        Family(Snapshot(nodes), root, nil, up, R, p, cp, wt, t0);
      }
      if w.right.color == Black && w.left.color == Black {
        BlackNephews(up, R, p, cp, wt, t0, h0);
        ghost var m := Snapshot(nodes);
        PaintSibling(m, root, nil, up, R, p, cp, wt, t0, Red);
        SetColor(w, Red);
        x := x.parent;
        Zip(Snapshot(nodes), root, nil, up, R, p, cp, Paint(wt, Red), t0);
        ctx, t, h := up, Node(Paint(wt, Red), p, cp, t0), if cp == Black then h0 + 1 else h0;
      } else {
        ctx, t, h := EndShortRight(x, w, up, p, cp, wt, t0, h0);
        x := root;
      }
    }

    method RbDeleteFixup(node: RbNode, ghost ctx0: Ctx, ghost t0: Tree, ghost h0: nat) returns (ghost whole: Tree)
      requires Focus(Snapshot(nodes), root, nil, ctx0, t0) && Short(ctx0, t0, h0)
      requires node == Root(t0, nil) && node.parent == ParentOf(ctx0, nil)
      modifies this`root, nodes
      ensures Focus(Snapshot(nodes), root, nil, Top, whole) && RedBlack(whole)
      ensures InOrder(whole) == Around(ctx0, t0)
    {
      hide Focus, Holds, HoldsCtx, Separate, Nodes, CtxNodes, Distinct, CtxDistinct;
      hide RB, CtxRB, Short, SemiRB, RedBlack, Around, Before, After, InOrder, Plug;
      var x := node;
      ghost var ctx, t, h := ctx0, t0, h0;
      Cells(Snapshot(nodes), root, nil, ctx, t);
      while x != root && x.color == Black
        invariant Focus(Snapshot(nodes), root, nil, ctx, t) && Short(ctx, t, h)
        invariant x == Root(t, nil) && x in nodes && x.parent == ParentOf(ctx, nil) && x.color == ColorOf(t)
        invariant ctx.Top? <==> x == root
        invariant Around(ctx, t) == Around(ctx0, t0)
        decreases if ColorOf(t) == Red then 0 else Depth(ctx) + 1
      {
        ghost var up, p, cp, w := ctx.up, ctx.n, ctx.c, ctx.sib;
        SiblingIsNode(up, ctx.side, p, cp, w, t, h);
        Family(Snapshot(nodes), root, nil, up, ctx.side, p, cp, w, t);
        if x == x.parent.left {
          x, ctx, t, h := FixShortLeft(x, up, p, cp, w, t, h);
        } else {
          x, ctx, t, h := FixShortRight(x, up, p, cp, w, t, h);
        }
        Cells(Snapshot(nodes), root, nil, ctx, t);
      }
      FinishDelete(ctx, t, h);
      ghost var m := Snapshot(nodes);
      if t.Node? {
        PaintRoot(m, root, nil, ctx, t, Black);
      }
      SetColor(x, Black);
      assert t.Nil? ==> Snapshot(nodes) == m;
      ZipAll(Snapshot(nodes), root, nil, ctx, Paint(t, Black));
      whole := Plug(ctx, Paint(t, Black));
    }

    method RbTransplant(u: RbNode, v: RbNode, ghost ctx: Ctx)
      requires u in nodes && v in nodes && u.parent == ParentOf(ctx, nil)
      requires ctx.Hole? ==> ctx.n in nodes && ctx.n != nil && (ctx.side == L <==> ctx.n.left == u)
      modifies this`root, nodes
      ensures Snapshot(nodes) == old(Transplanted(Snapshot(nodes), ctx, v, nil))
      ensures root == if ctx.Top? then v else old(root)
    {
      if u.parent == nil {
        root := v;
      } else if u == u.parent.left {
        u.parent.left := v;
      } else {
        u.parent.right := v;
      }
      v.parent := u.parent;
    }

    /** The first node of a non-empty subtree. */
    method RbTreeMin(subtree: RbNode, ghost ctx: Ctx, ghost t: Tree)
        returns (y: RbNode, ghost inner: Ctx, ghost low: Tree)
      requires Focus(Snapshot(nodes), root, nil, ctx, t) && t.Node? && t.n == subtree
      ensures y == InOrder(t)[0] && y in nodes
      ensures Plug(inner, low) == t && low.Node? && low.n == y && low.l == Nil && Before(inner) == []
    {
      y, inner, low := subtree, Top, t;
      Cells(Snapshot(nodes), root, nil, ctx, t);
      while y.left != nil
        invariant y in nodes && low.Node? && low.n == y && Focus(Snapshot(nodes), root, nil, Append(inner, ctx), low)
        invariant y.left == Root(low.l, nil) && (low.l.Node? ==> low.l.n != nil)
        invariant Plug(inner, low) == t && Before(inner) == []
        decreases low
      {
        Zip(Snapshot(nodes), root, nil, Append(inner, ctx), L, low.n, low.c, low.r, low.l);
        inner, low := Hole(inner, L, low.n, low.c, low.r), low.l;
        Cells(Snapshot(nodes), root, nil, Append(inner, ctx), low);
        y := y.left;
      }
      PlugInOrder(inner, low);
      assert InOrder(low)[0] == y;
    }

    /** Exact search: the result is null just when no node has the key, and the number of
        nodes visited is at most the height. */
    method RbTreeSearch(key: int) returns (found: RbNode?, ghost steps: nat)
      requires Valid()
      ensures found != null ==> found in Contents() && found.key == key
      ensures found == null ==> forall i :: 0 <= i < |Contents()| ==> Contents()[i].key != key
      ensures steps <= Height(shape)
    {
      ghost var m := Snapshot(nodes);
      ghost var ctx, t := Top, shape;
      assert Around(ctx, t) == Contents();
      hide Focus, Holds, HoldsCtx, Separate, Nodes, CtxNodes, Distinct, CtxDistinct, RedBlack, Sorted, Around, InOrder,
           Height;
      var cur := root;
      steps := 0;
      Cells(m, root, nil, ctx, t);
      while cur != nil
        invariant Focus(m, root, nil, ctx, t) && cur == Root(t, nil) && cur in nodes && (t.Node? ==> t.n != nil)
        invariant Around(ctx, t) == Contents() && AllBelow(Before(ctx), key) && AllAbove(After(ctx), key)
        invariant steps + Height(t) <= Height(shape)
        decreases t
      {
        Cells(m, root, nil, ctx, t);
        SearchEnds(ctx, t, key);
        ghost var side := if key < cur.key then L else R;
        ghost var child, sib := if side == L then t.l else t.r, if side == L then t.r else t.l;
        Zip(m, root, nil, ctx, side, t.n, t.c, sib, child);
        steps := steps + 1;
        if key == cur.key {
          return cur, steps;
        }
        SearchKeys(ctx, side, child, t.n, t.c, sib, key);
        HeightChild(side, child, t.n, t.c, sib);
        if key < cur.key {
          cur := cur.left;
        } else {
          cur := cur.right;
        }
        ctx, t := Hole(ctx, side, t.n, t.c, sib), child;
        Cells(m, root, nil, ctx, t);
      }
      Cells(m, root, nil, ctx, t);
      SearchEnds(ctx, t, key);
      return null, steps;
    }

    /** Node y gets the right subtree r. */
    method AdoptRight(y: RbNode, r: RbNode)
      requires y in nodes && r in nodes && y != r
      modifies y`right, r`parent
      ensures var m := old(Snapshot(nodes));
              Snapshot(nodes) == m[y := m[y].(right := r)][r := m[r].(parent := y)]
    {
      y.right := r;
      SetParent(y.right, y);
    }

    /** The first half of deleting a node z with two children: its successor y is cut loose
        from below, and z's right subtree is hung under y. */
    method DetachSuccessor(z: RbNode, y: RbNode, ghost ctx: Ctx, ghost t: Tree, ghost inner: Ctx, ghost low: Tree)
      returns (x: RbNode)
      requires Focus(Snapshot(nodes), root, nil, ctx, t) && t.Node? && t.n == z && t.l.Node? && t.r.Node?
      requires low.Node? && low.n == y && low.l == Nil && Plug(inner, low) == t.r
      modifies this`root, nodes
      ensures x == Root(low.r, nil) && root == old(root)
      ensures Loosened(old(Snapshot(nodes)), Snapshot(nodes), nil, ctx, t, inner, low)
    {
      hide Focus, Holds, HoldsCtx, Separate, Nodes, CtxNodes, Distinct, CtxDistinct, Plug, Append;
      ghost var m, path := Snapshot(nodes), Append(inner, Hole(ctx, R, z, t.c, t.l));
      SuccessorFacts(m, root, nil, ctx, t.l, z, t.c, t.r, inner, low);
      SuccessorApart(ctx, t.l, z, t.c, inner, y, low.c, low.r);
      x := y.right;
      if y.parent == z {
        SetParent(x, y);
      } else {
        RbTransplant(y, y.right, path);
        AdoptRight(y, z.right);
      }
    }

    /** Node y gets the left subtree l and the colour c. */
    method AdoptLeft(y: RbNode, l: RbNode, c: Color)
      requires y in nodes && l in nodes && y != l
      modifies y`left, l`parent, y`color
      ensures var m := old(Snapshot(nodes));
              Snapshot(nodes) == m[y := m[y].(left := l, color := c)][l := m[l].(parent := y)]
    {
      ghost var m := Snapshot(nodes);
      SetLeft(y, l);
      SetParent(y.left, y);
      SetColor(y, c);
      Adopted(m, y, l, c);
    }

    /** The second half: y takes the place, the left subtree and the colour of z. */
    method SeatSuccessor(z: RbNode, y: RbNode, ghost ctx: Ctx, ghost l: RbNode, ghost c: Color)
      requires z in nodes && y in nodes && z.parent == ParentOf(ctx, nil) && z.left == l && l in nodes && z.color == c
      requires z != y && l != y && ParentOf(ctx, nil) != z && ParentOf(ctx, nil) != y
      requires ctx.Hole? ==> ctx.n in nodes && ctx.n != nil && (ctx.side == L <==> ctx.n.left == z)
      modifies this`root, nodes
      ensures Snapshot(nodes) ==
              var m := old(Transplanted(Snapshot(nodes), ctx, y, nil));
              m[y := m[y].(left := l, color := c)][l := m[l].(parent := y)]
      ensures root == if ctx.Top? then y else old(root)
    {
      RbTransplant(z, y, ctx);
      ghost var m := Snapshot(nodes);
      assert m[z].left == l && m[z].color == c;
      hide Transplanted, Relink;
      AdoptLeft(y, z.left, z.color);
    }

    /** Deletion of a node z with two children: its successor y takes its place. Returns the
        node that may now be one black short and the colour that y had. */
    method ReplaceBySuccessor(z: RbNode, ghost ctx: Ctx, ghost t: Tree, ghost h: nat)
      returns (x: RbNode, c: Color, ghost ctx': Ctx, ghost t': Tree, ghost k: nat)
      requires Focus(Snapshot(nodes), root, nil, ctx, t) && Proper(ctx, t, h)
      requires t.Node? && t.n == z && t.l.Node? && t.r.Node?
      modifies this`root, nodes
      ensures Focus(Snapshot(nodes), root, nil, ctx', t') && Around(ctx', t') == AroundWithout(ctx, t.l, t.r)
      ensures x == Root(t', nil) && x in nodes && x.parent == ParentOf(ctx', nil)
      ensures if c == Red then RedBlack(Plug(ctx', t')) else Short(ctx', t', k)
    {
      hide Focus, Holds, HoldsCtx, Separate, Nodes, CtxNodes, Distinct, CtxDistinct, Loosened, Transplanted;
      hide RB, CtxRB, Short, SemiRB, RedBlack, Proper, Around, AroundWithout, Before, After, InOrder, Plug, Append;
      ghost var m, r := Snapshot(nodes), root;
      ghost var outer := Hole(ctx, R, z, t.c, t.l);
      Zip(m, root, nil, ctx, R, z, t.c, t.l, t.r);
      Cells(m, root, nil, ctx, t);
      Cells(m, root, nil, outer, t.r);
      ghost var inner, low;
      var y;
      y, inner, low := RbTreeMin(z.right, outer, t.r);
      SuccessorFacts(m, root, nil, ctx, t.l, z, t.c, t.r, inner, low);
      c := y.color;
      x := DetachSuccessor(z, y, ctx, t, inner, low);
      ghost var m2 := Snapshot(nodes);
      LoosenedCells(m, m2, r, nil, ctx, t, inner, low);
      SeatSuccessor(z, y, ctx, t.l.n, t.c);
      SuccessorMoved(m, m2, Snapshot(nodes), r, root, nil, ctx, t, inner, low);
      ctx', t' := Append(inner, Hole(ctx, R, y, t.c, t.l)), low.r;
      SuccessorInOrder(ctx, t.l, z, t.c, inner, y, low.c, low.r);
      k := SuccessorRB(ctx, t.l, z, t.c, inner, y, low.c, low.r, h);
    }

    /** Taking z out of the tree: the part of the deletion before the fixup. Returns the node
        that may now be one black short and the colour that was taken out. */
    method Detach(z: RbNode, ghost ctx: Ctx, ghost t: Tree, ghost h: nat)
      returns (x: RbNode, c: Color, ghost ctx': Ctx, ghost t': Tree, ghost k: nat)
      requires Focus(Snapshot(nodes), root, nil, ctx, t) && Proper(ctx, t, h) && t.Node? && t.n == z
      modifies this`root, nodes
      ensures Focus(Snapshot(nodes), root, nil, ctx', t') && Around(ctx', t') == AroundWithout(ctx, t.l, t.r)
      ensures x == Root(t', nil) && x in nodes && x.parent == ParentOf(ctx', nil)
      ensures if c == Red then RedBlack(Plug(ctx', t')) else Short(ctx', t', k)
    {
      hide Focus, Holds, HoldsCtx, Separate, Nodes, CtxNodes, Distinct, CtxDistinct, Transplanted;
      hide RB, CtxRB, Short, SemiRB, RedBlack, Proper, Around, AroundWithout, Before, After, InOrder, Plug;
      ghost var m := Snapshot(nodes);
      Cells(m, root, nil, ctx, t);
      if z.left == nil {
        x, c := z.right, z.color;
        ctx', t' := ctx, t.r;
        assert t == Join(R, t.r, z, t.c, Nil);
        k := RemoveOne(m, root, nil, ctx, R, t.r, z, t.c, h);
        RbTransplant(z, z.right, ctx);
      } else if z.right == nil {
        x, c := z.left, z.color;
        ctx', t' := ctx, t.l;
        assert t == Join(L, t.l, z, t.c, Nil);
        k := RemoveOne(m, root, nil, ctx, L, t.l, z, t.c, h);
        RbTransplant(z, z.left, ctx);
      } else {
        x, c, ctx', t', k := ReplaceBySuccessor(z, ctx, t, h);
      }
    }

    method RbTreeDelete(z: RbNode)
      requires Valid() && z in nodes && z != nil
      modifies this, nodes
      ensures Valid() && nodes == old(nodes) - {z}
      ensures Contents() == Unlink(old(Contents()), z)
    {
      hide Focus, Holds, HoldsCtx, Separate, Nodes, CtxNodes, Distinct, CtxDistinct;
      hide RB, CtxRB, Short, SemiRB, RedBlack, Proper, Sorted, Around, AroundWithout, Before, After, InOrder, Plug,
           Elements, Unlink;
      ghost var ctx, t, h := Find(Snapshot(nodes), root, nil, shape, z);
      WithoutRoot(ctx, t.l, z, t.c, t.r);
      var x, c;
      ghost var ctx', t', k;
      x, c, ctx', t', k := Detach(z, ctx, t, h);
      if c == Black {
        shape := RbDeleteFixup(x, ctx', t', k);
      } else {
        ZipAll(Snapshot(nodes), root, nil, ctx', t');
        PlugInOrder(ctx', t');
        shape := Plug(ctx', t');
      }
      Forget(Snapshot(nodes), root, nil, shape, z);
      ghost var m := Snapshot(nodes);
      nodes := nodes - {z};
      assert Snapshot(nodes) == m - {z};
    }
  }
}
