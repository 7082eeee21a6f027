/**
 The mathematical side of the red-black tree: trees of nodes, trees with a hole, and
 the red-black invariants with the one step of each fixup loop that restores them.
 The heap side is in module RbTree.
 */
module RbShape {
  import opened Common

  datatype Color = Red | Black

  /** A node of the tree. The key stands for what `compare` looks at: compare(a, b) is
      negative, zero or positive as a.key is below, equal to or above b.key. */
  class RbNode {
    const key: int
    var parent: RbNode?
    var left: RbNode?
    var right: RbNode?
    var color: Color

    constructor (key: int)
      ensures this.key == key && parent == left == right == null && color == Red
    {
      this.key := key;
      parent, left, right := null, null, null;
      color := Red;
    }
  }

  datatype Tree = Nil | Node(l: Tree, n: RbNode, c: Color, r: Tree)

  datatype Side = L | R

  /** A tree with a hole: the path from the hole up to the root. In `Hole` the hole is
      the child of n on the given side, and sib is the other child. */
  datatype Ctx = Top | Hole(up: Ctx, side: Side, n: RbNode, c: Color, sib: Tree)

  function Join(side: Side, t: Tree, n: RbNode, c: Color, sib: Tree): Tree {
    if side == L then Node(t, n, c, sib) else Node(sib, n, c, t)
  }

  function Plug(ctx: Ctx, t: Tree): (whole: Tree)
    ensures t.Node? || ctx.Hole? ==> whole.Node?
  {
    match ctx
    case Top => t
    case Hole(up, side, n, c, sib) => Plug(up, Join(side, t, n, c, sib))
  }

  function InOrder(t: Tree): seq<RbNode> {
    match t
    case Nil => []
    case Node(l, n, _, r) => InOrder(l) + [n] + InOrder(r)
  }

  /** The nodes that come before and after the hole in symmetric order. */
  function Before(ctx: Ctx): seq<RbNode> {
    match ctx
    case Top => []
    case Hole(up, L, _, _, _) => Before(up)
    case Hole(up, R, n, _, sib) => Before(up) + InOrder(sib) + [n]
  }

  function After(ctx: Ctx): seq<RbNode> {
    match ctx
    case Top => []
    case Hole(up, L, n, _, sib) => [n] + InOrder(sib) + After(up)
    case Hole(up, R, _, _, _) => After(up)
  }

  /** The whole tree in symmetric order. */
  function Around(ctx: Ctx, t: Tree): seq<RbNode> {
    Before(ctx) + InOrder(t) + After(ctx)
  }

  lemma {:induction false} ZipInOrder(up: Ctx, side: Side, n: RbNode, c: Color, sib: Tree, t: Tree)
    ensures Around(up, Join(side, t, n, c, sib)) == Around(Hole(up, side, n, c, sib), t)
  {
  }

  lemma {:induction false} PlugInOrder(ctx: Ctx, t: Tree)
    ensures InOrder(Plug(ctx, t)) == Around(ctx, t)
  {
    if ctx.Hole? {
      ZipInOrder(ctx.up, ctx.side, ctx.n, ctx.c, ctx.sib, t);
      PlugInOrder(ctx.up, Join(ctx.side, t, ctx.n, ctx.c, ctx.sib));
    }
  }

  lemma {:induction false} TwoRoots(a: seq<RbNode>, x: RbNode, b: seq<RbNode>, y: RbNode, c: seq<RbNode>)
    ensures a + [x] + (b + [y] + c) == (a + [x] + b) + [y] + c
  {
  }

  lemma {:induction false} RotateInOrder(side: Side, a: Tree, x: RbNode, cx: Color, b: Tree, y: RbNode, cy: Color,
                                         c: Tree)
    ensures InOrder(Join(side, a, x, cx, Join(side, b, y, cy, c))) ==
        InOrder(Join(side, Join(side, a, x, cx, b), y, cy, c))
  {
    if side == L {
      TwoRoots(InOrder(a), x, InOrder(b), y, InOrder(c));
    } else {
      TwoRoots(InOrder(c), y, InOrder(b), x, InOrder(a));
    }
  }

  // ---------------------------------------------------------------------------
  // Which nodes occur, and that none occurs twice
  // ---------------------------------------------------------------------------

  ghost function Nodes(t: Tree): set<RbNode> {
    match t
    case Nil => {}
    case Node(l, n, _, r) => Nodes(l) + {n} + Nodes(r)
  }

  ghost function CtxNodes(ctx: Ctx): set<RbNode> {
    match ctx
    case Top => {}
    case Hole(up, _, n, _, sib) => CtxNodes(up) + {n} + Nodes(sib)
  }

  ghost predicate Distinct(t: Tree) {
    match t
    case Nil => true
    case Node(l, n, _, r) =>
      Distinct(l) && Distinct(r) && n !in Nodes(l) && n !in Nodes(r) && Nodes(l) !! Nodes(r)
  }

  ghost function Elements(s: seq<RbNode>): set<RbNode> {
    set n | n in s
  }

  lemma {:induction false} ElementsSum(u: seq<RbNode>, v: seq<RbNode>)
    ensures Elements(u + v) == Elements(u) + Elements(v)
  {
  }

  lemma {:induction false} NodesInOrder(t: Tree)
    ensures Elements(InOrder(t)) == Nodes(t)
  {
    if t.Node? {
      NodesInOrder(t.l);
      NodesInOrder(t.r);
      ElementsSum(InOrder(t.l), [t.n]);
      ElementsSum(InOrder(t.l) + [t.n], InOrder(t.r));
      assert Elements([t.n]) == {t.n};
    }
  }

  ghost predicate CtxDistinct(ctx: Ctx) {
    match ctx
    case Top => true
    case Hole(up, _, n, _, sib) =>
      CtxDistinct(up) && Distinct(sib) && n !in Nodes(sib) && n !in CtxNodes(up) && Nodes(sib) !! CtxNodes(up)
  }

  ghost predicate Separate(ctx: Ctx, t: Tree) {
    CtxDistinct(ctx) && Distinct(t) && Nodes(t) !! CtxNodes(ctx)
  }

  // ---------------------------------------------------------------------------
  // The red-black invariants
  // ---------------------------------------------------------------------------

  function ColorOf(t: Tree): Color {
    if t.Nil? then Black else t.c
  }

  function ParentColor(ctx: Ctx): Color {
    if ctx.Top? then Black else ctx.c
  }

  /** Every path has h black nodes and no red node has a red child. */
  ghost predicate RB(t: Tree, h: nat) {
    match t
    case Nil => h == 0
    case Node(l, _, Red, r) => RB(l, h) && RB(r, h) && ColorOf(l) == ColorOf(r) == Black
    case Node(l, _, Black, r) => h > 0 && RB(l, h - 1) && RB(r, h - 1)
  }

  /** The tree around the hole meets the invariants if the hole has black height h;
      nothing is said about the colour in the hole. */
  ghost predicate CtxRB(ctx: Ctx, h: nat) {
    match ctx
    case Top => true
    case Hole(up, _, _, Red, sib) =>
      RB(sib, h) && ColorOf(sib) == Black && up.Hole? && up.c == Black && CtxRB(up, h)
    case Hole(up, _, _, Black, sib) => RB(sib, h) && CtxRB(up, h + 1)
  }

  ghost predicate RedBlack(t: Tree) {
    ColorOf(t) == Black && exists h: nat :: RB(t, h)
  }

  lemma {:induction false} PlugRB(ctx: Ctx, t: Tree, h: nat)
    requires CtxRB(ctx, h) && RB(t, h)
    requires ctx.Top? || ctx.c == Red ==> ColorOf(t) == Black
    ensures RedBlack(Plug(ctx, t))
  {
    match ctx
    case Top =>
    case Hole(up, side, n, c, sib) =>
      PlugRB(up, Join(side, t, n, c, sib), if c == Red then h else h + 1);
  }

  function Depth(ctx: Ctx): nat {
    if ctx.Top? then 0 else 1 + Depth(ctx.up)
  }

  function Height(t: Tree): nat {
    match t
    case Nil => 0
    case Node(l, _, _, r) => 1 + if Height(l) > Height(r) then Height(l) else Height(r)
  }

  function Other(side: Side): Side {
    if side == L then R else L
  }

  function Paint(t: Tree, c: Color): Tree {
    if t.Nil? then Nil else t.(c := c)
  }

  lemma {:induction false} RootIsBlack(ctx: Ctx, t: Tree, h: nat)
    requires CtxRB(ctx, h) && ctx.Hole?
    ensures ColorOf(Plug(ctx, t)) == Black
  {
    if ctx.up.Hole? {
      RootIsBlack(ctx.up, Join(ctx.side, t, ctx.n, ctx.c, ctx.sib), if ctx.c == Red then h else h + 1);
    }
  }

  // ---------------------------------------------------------------------------
  // Insertion
  // ---------------------------------------------------------------------------

  /** A red-black tree seen from the hole. */
  ghost predicate Proper(ctx: Ctx, t: Tree, h: nat) {
    && CtxRB(ctx, h) && RB(t, h)
    && (ctx.Top? || ctx.c == Red ==> ColorOf(t) == Black)
  }

  lemma {:induction false} Start(t: Tree, key: int) returns (h: nat)
    requires RedBlack(t)
    ensures Proper(Top, t, h) && Around(Top, t) == InOrder(t)
    ensures AllAtMost(Before(Top), key) && AllAbove(After(Top), key)
  {
    h :| RB(t, h);
  }

  lemma {:induction false} Descend(ctx: Ctx, side: Side, t: Tree, n: RbNode, c: Color, sib: Tree, h: nat)
    requires Proper(ctx, Join(side, t, n, c, sib), h)
    ensures (c == Black ==> h > 0) && Proper(Hole(ctx, side, n, c, sib), t, if c == Red then h else h - 1)
  {
  }

  /** Sorted by key; equal keys may repeat. */
  ghost predicate Sorted(s: seq<RbNode>) {
    forall i, j :: 0 <= i < j < |s| ==> s[i].key <= s[j].key
  }

  ghost predicate AllAtMost(s: seq<RbNode>, key: int) {
    forall i :: 0 <= i < |s| ==> s[i].key <= key
  }

  ghost predicate AllBelow(s: seq<RbNode>, key: int) {
    forall i :: 0 <= i < |s| ==> s[i].key < key
  }

  ghost predicate AllAbove(s: seq<RbNode>, key: int) {
    forall i :: 0 <= i < |s| ==> s[i].key > key
  }

  /** z inserted into a sorted sequence, behind the nodes with the same key. */
  ghost function Inserted(s: seq<RbNode>, z: RbNode): seq<RbNode> {
    if s == [] || z.key < s[0].key then [z] + s else [s[0]] + Inserted(s[1..], z)
  }

  lemma {:induction false} InsertedBetween(before: seq<RbNode>, after: seq<RbNode>, z: RbNode)
    requires AllAtMost(before, z.key) && AllAbove(after, z.key)
    ensures Inserted(before + after, z) == before + [z] + after
  {
    if before == [] {
      assert before + after == after;
    } else {
      assert (before + after)[1..] == before[1..] + after;
      InsertedBetween(before[1..], after, z);
    }
  }

  lemma {:induction false} SortedBetween(before: seq<RbNode>, after: seq<RbNode>, z: RbNode)
    requires Sorted(before + after) && AllAtMost(before, z.key) && AllAbove(after, z.key)
    ensures Sorted(before + [z] + after)
  {
    var s, s' := before + after, before + [z] + after;
    forall i, j | 0 <= i < j < |s'|
      ensures s'[i].key <= s'[j].key
    {
      assert i < |before| ==> s'[i] == s[i];
      assert i > |before| ==> s'[i] == s[i - 1];
      assert j < |before| ==> s'[j] == s[j];
      assert j > |before| ==> s'[j] == s[j - 1];
      assert j > |before| ==> s'[j] == after[j - |before| - 1];
    }
  }

  lemma {:induction false} SortedParts(b: seq<RbNode>, u: seq<RbNode>, n: RbNode, v: seq<RbNode>, a: seq<RbNode>)
    requires Sorted(b + (u + [n] + v) + a)
    ensures AllAtMost(u, n.key) && forall i :: 0 <= i < |v| ==> n.key <= v[i].key
  {
    var whole := b + (u + [n] + v) + a;
    var k := |b| + |u|;
    assert whole[k] == n;
    assert forall i :: 0 <= i < |u| ==> u[i] == whole[|b| + i];
    assert forall i :: 0 <= i < |v| ==> v[i] == whole[k + 1 + i];
  }

  /** In a sorted tree the sibling's keys lie on the far side of the parent's key. */
  lemma {:induction false} SiblingKeys(ctx: Ctx, side: Side, t: Tree, n: RbNode, c: Color, sib: Tree)
    requires Sorted(Around(ctx, Join(side, t, n, c, sib)))
    ensures if side == L then forall i :: 0 <= i < |InOrder(sib)| ==> n.key <= InOrder(sib)[i].key
            else AllAtMost(InOrder(sib), n.key)
  {
    hide Sorted, Before, After;
    if side == L {
      SortedParts(Before(ctx), InOrder(t), n, InOrder(sib), After(ctx));
    } else {
      SortedParts(Before(ctx), InOrder(sib), n, InOrder(t), After(ctx));
    }
  }

  lemma {:induction false} AboveAfter(n: RbNode, v: seq<RbNode>, a: seq<RbNode>, key: int)
    requires key < n.key && AllAbove(a, key) && forall i :: 0 <= i < |v| ==> n.key <= v[i].key
    ensures AllAbove([n] + v + a, key)
  {
  }

  /** Going left or right at n narrows the place where key belongs. */
  lemma {:induction false} DescendKeys(ctx: Ctx, side: Side, t: Tree, n: RbNode, c: Color, sib: Tree, key: int)
    requires Sorted(Around(ctx, Join(side, t, n, c, sib))) && AllAtMost(Before(ctx), key) && AllAbove(After(ctx), key)
    requires side == L <==> key < n.key
    ensures AllAtMost(Before(Hole(ctx, side, n, c, sib)), key) && AllAbove(After(Hole(ctx, side, n, c, sib)), key)
    ensures Around(Hole(ctx, side, n, c, sib), t) == Around(ctx, Join(side, t, n, c, sib))
  {
    ZipInOrder(ctx, side, n, c, sib, t);
    SiblingKeys(ctx, side, t, n, c, sib);
    hide Sorted, InOrder, Around;
    if side == L {
      AboveAfter(n, InOrder(sib), After(ctx), key);
    }
  }

  /** The same for a search: a node with the key can only be in the subtree chosen. */
  lemma {:induction false} SearchKeys(ctx: Ctx, side: Side, t: Tree, n: RbNode, c: Color, sib: Tree, key: int)
    requires Sorted(Around(ctx, Join(side, t, n, c, sib))) && AllBelow(Before(ctx), key) && AllAbove(After(ctx), key)
    requires if side == L then key < n.key else key > n.key
    ensures AllBelow(Before(Hole(ctx, side, n, c, sib)), key) && AllAbove(After(Hole(ctx, side, n, c, sib)), key)
    ensures Around(Hole(ctx, side, n, c, sib), t) == Around(ctx, Join(side, t, n, c, sib))
  {
    ZipInOrder(ctx, side, n, c, sib, t);
    SiblingKeys(ctx, side, t, n, c, sib);
    hide Sorted, InOrder, Around;
    if side == L {
      AboveAfter(n, InOrder(sib), After(ctx), key);
    }
  }

  lemma {:induction false} HeightChild(side: Side, t: Tree, n: RbNode, c: Color, sib: Tree)
    ensures Height(t) < Height(Join(side, t, n, c, sib))
  {
  }

  /** At an empty place no node has the key; at n the key is found in the tree. */
  lemma {:induction false} SearchEnds(ctx: Ctx, t: Tree, key: int)
    requires AllBelow(Before(ctx), key) && AllAbove(After(ctx), key)
    ensures t.Nil? ==> forall i :: 0 <= i < |Around(ctx, t)| ==> Around(ctx, t)[i].key != key
    ensures t.Node? ==> t.n in Around(ctx, t) && Height(t) >= 1
  {
    if t.Node? {
      assert Around(ctx, t)[|Before(ctx)| + |InOrder(t.l)|] == t.n;
    }
  }

  /** Everything but the colour of t against its parent is in order, and t is red. */
  ghost predicate RedAt(ctx: Ctx, t: Tree, h: nat) {
    t.Node? && t.c == Red && RB(t, h) && CtxRB(ctx, h)
  }

  lemma {:induction false} LeafAt(ctx: Ctx, z: RbNode, h: nat)
    requires Proper(ctx, Nil, h) && Sorted(Around(ctx, Nil))
    requires AllAtMost(Before(ctx), z.key) && AllAbove(After(ctx), z.key)
    ensures RedAt(ctx, Node(Nil, z, Red, Nil), h)
    ensures Around(ctx, Node(Nil, z, Red, Nil)) == Inserted(Around(ctx, Nil), z)
    ensures Sorted(Around(ctx, Node(Nil, z, Red, Nil)))
    ensures Elements(Around(ctx, Node(Nil, z, Red, Nil))) == Elements(Around(ctx, Nil)) + {z}
  {
    assert Around(ctx, Nil) == Before(ctx) + After(ctx);
    assert Around(ctx, Node(Nil, z, Red, Nil)) == Before(ctx) + [z] + After(ctx);
    InsertedBetween(Before(ctx), After(ctx), z);
    SortedBetween(Before(ctx), After(ctx), z);
  }

  /** A red parent has a black parent in turn. */
  lemma {:induction false} RedParent(ctx: Ctx, t: Tree, h: nat)
    requires RedAt(ctx, t, h)
    ensures t.Node? && t.c == Red
    ensures ParentColor(ctx) == Red ==> ctx.Hole? && ctx.c == Red && ctx.up.Hole?
  {
  }

  /** Uncle u is red: recolouring moves the conflict two levels up. */
  lemma {:induction false} RecolourInsert(up: Ctx, side: Side, g: RbNode, cg: Color, u: Tree, side': Side, p: RbNode,
                                          s: Tree, t: Tree, h: nat)
    requires RedAt(Hole(Hole(up, side, g, cg, u), side', p, Red, s), t, h) && ColorOf(u) == Red
    ensures var t' := Join(side, Join(side', t, p, Black, s), g, Red, Paint(u, Black));
            RedAt(up, t', h + 1) && Around(up, t') == Around(Hole(Hole(up, side, g, cg, u), side', p, Red, s), t)
  {
    var gp := Hole(up, side, g, cg, u);
    ZipInOrder(gp, side', p, Red, s, t);
    ZipInOrder(up, side, g, cg, u, Join(side', t, p, Red, s));
    assert InOrder(Join(side', t, p, Red, s)) == InOrder(Join(side', t, p, Black, s));
    assert InOrder(Paint(u, Black)) == InOrder(u);
    assert CtxRB(Hole(up, side, g, cg, u), h);
    assert RB(Join(side', t, p, Black, s), h + 1) && RB(Paint(u, Black), h + 1);
  }

  /** Uncle u is black and t an inner grandchild: a rotation below makes it an outer one. */
  lemma {:induction false} InnerInsert(up: Ctx, side: Side, g: RbNode, cg: Color, u: Tree, p: RbNode, s: Tree,
                                       a: Tree, z: RbNode, b: Tree, h: nat)
    requires RedAt(Hole(Hole(up, side, g, cg, u), Other(side), p, Red, s), Join(side, a, z, Red, b), h)
    ensures RedAt(Hole(Hole(up, side, g, cg, u), side, z, Red, b), Join(side, s, p, Red, a), h)
    ensures Around(Hole(Hole(up, side, g, cg, u), side, z, Red, b), Join(side, s, p, Red, a)) ==
            Around(Hole(Hole(up, side, g, cg, u), Other(side), p, Red, s), Join(side, a, z, Red, b))
  {
    var gp := Hole(up, side, g, cg, u);
    ZipInOrder(gp, side, z, Red, b, Join(side, s, p, Red, a));
    ZipInOrder(gp, Other(side), p, Red, s, Join(side, a, z, Red, b));
    RotateInOrder(side, s, p, Red, a, z, Red, b);
  }

  /** Uncle u is black and t an outer grandchild: recolouring and one rotation finish. */
  lemma {:induction false} OuterInsert(up: Ctx, side: Side, g: RbNode, cg: Color, u: Tree, p: RbNode, s: Tree, t: Tree,
                                       h: nat)
    requires RedAt(Hole(Hole(up, side, g, cg, u), side, p, Red, s), t, h) && ColorOf(u) == Black
    ensures var ctx' := Hole(up, side, p, Black, Join(side, s, g, Red, u));
            RedAt(ctx', t, h) && Around(ctx', t) == Around(Hole(Hole(up, side, g, cg, u), side, p, Red, s), t)
  {
    ZipInOrder(up, side, p, Black, Join(side, s, g, Red, u), t);
    ZipInOrder(up, side, g, cg, u, Join(side, t, p, Red, s));
    ZipInOrder(Hole(up, side, g, cg, u), side, p, Red, s, t);
    RotateInOrder(side, t, p, Red, s, g, Red, u);
    assert CtxRB(Hole(up, side, g, cg, u), h);
    assert RB(Join(side, s, g, Red, u), h);
  }

  lemma {:induction false} FinishInsert(ctx: Ctx, t: Tree, h: nat)
    requires RedAt(ctx, t, h) && ParentColor(ctx) == Black
    ensures RedBlack(Paint(Plug(ctx, t), Black))
    ensures ctx.Hole? ==> Paint(Plug(ctx, t), Black) == Plug(ctx, t)
    ensures InOrder(Paint(Plug(ctx, t), Black)) == Around(ctx, t)
  {
    PlugInOrder(ctx, t);
    if ctx.Top? {
      assert RB(Paint(t, Black), h + 1);
    } else {
      RootIsBlack(ctx, t, h);
      PlugRB(ctx, t, h);
    }
  }

  // ---------------------------------------------------------------------------
  // Deletion
  // ---------------------------------------------------------------------------

  /** As RB, except that a red root may have red children. */
  ghost predicate SemiRB(t: Tree, h: nat) {
    if t.Node? && t.c == Red then RB(t.l, h) && RB(t.r, h) else RB(t, h)
  }

  /** The subtree in the hole is one black node short. */
  ghost predicate Short(ctx: Ctx, t: Tree, h: nat) {
    SemiRB(t, h) && CtxRB(ctx, h + 1)
  }

  lemma {:induction false} FinishDelete(ctx: Ctx, t: Tree, h: nat)
    requires Short(ctx, t, h) && (ctx.Top? || ColorOf(t) == Red)
    ensures RedBlack(Plug(ctx, Paint(t, Black))) && InOrder(Plug(ctx, Paint(t, Black))) == Around(ctx, t)
  {
    PlugInOrder(ctx, Paint(t, Black));
    if ColorOf(t) == Red {
      PlugRB(ctx, Paint(t, Black), h + 1);
    } else {
      assert RB(Paint(t, Black), h);
    }
  }

  /** The sibling of a short subtree has an inner node. */
  lemma {:induction false} SiblingIsNode(up: Ctx, side: Side, p: RbNode, cp: Color, w: Tree, t: Tree, h: nat)
    requires Short(Hole(up, side, p, cp, w), t, h)
    ensures w.Node? && (w.c == Red ==> cp == Black)
  {
  }

  /** Case 1, a red sibling: recolouring and a rotation give the subtree a black sibling. */
  lemma {:induction false} RedSibling(up: Ctx, side: Side, p: RbNode, cp: Color, near: Tree, w: RbNode, far: Tree,
                                      t: Tree, h: nat)
    requires Short(Hole(up, side, p, cp, Join(side, near, w, Red, far)), t, h)
    ensures Short(Hole(Hole(up, side, w, Black, far), side, p, Red, near), t, h) && near.Node? && near.c == Black
    ensures Around(Hole(Hole(up, side, w, Black, far), side, p, Red, near), t) ==
            Around(Hole(up, side, p, cp, Join(side, near, w, Red, far)), t)
  {
    assert RB(Join(side, near, w, Red, far), h + 1);
    ZipInOrder(up, side, p, cp, Join(side, near, w, Red, far), t);
    ZipInOrder(Hole(up, side, w, Black, far), side, p, Red, near, t);
    ZipInOrder(up, side, w, Black, far, Join(side, t, p, Red, near));
    RotateInOrder(side, t, p, Red, near, w, Red, far);
  }

  /** Case 2, a black sibling without red children: the shortage moves to the parent. */
  lemma {:induction false} BlackNephews(up: Ctx, side: Side, p: RbNode, cp: Color, w: Tree, t: Tree, h: nat)
    requires Short(Hole(up, side, p, cp, w), t, h) && ColorOf(t) == Black
    requires w.Node? && w.c == Black && ColorOf(w.l) == ColorOf(w.r) == Black
    ensures Short(up, Join(side, t, p, cp, Paint(w, Red)), if cp == Black then h + 1 else h)
    ensures Around(up, Join(side, t, p, cp, Paint(w, Red))) == Around(Hole(up, side, p, cp, w), t)
  {
    assert RB(Paint(w, Red), h);
    ZipInOrder(up, side, p, cp, w, t);
    assert InOrder(Paint(w, Red)) == InOrder(w);
  }

  /** Case 3, a red near nephew only: a rotation at the sibling makes it the far one. */
  lemma {:induction false} NearNephew(up: Ctx, side: Side, p: RbNode, cp: Color, a: Tree, n: RbNode, b: Tree, w: RbNode,
                                      far: Tree, t: Tree, h: nat)
    requires Short(Hole(up, side, p, cp, Join(side, Join(side, a, n, Red, b), w, Black, far)), t, h)
    requires ColorOf(far) == Black
    ensures Short(Hole(up, side, p, cp, Join(side, a, n, Black, Join(side, b, w, Red, far))), t, h)
    ensures Around(Hole(up, side, p, cp, Join(side, a, n, Black, Join(side, b, w, Red, far))), t) ==
            Around(Hole(up, side, p, cp, Join(side, Join(side, a, n, Red, b), w, Black, far)), t)
  {
    assert RB(Join(side, a, n, Red, b), h);
    assert RB(Join(side, b, w, Red, far), h);
    assert RB(Join(side, a, n, Black, Join(side, b, w, Red, far)), h + 1);
    RotateInOrder(side, a, n, Red, b, w, Black, far);
    assert InOrder(Join(side, a, n, Black, Join(side, b, w, Red, far))) ==
        InOrder(Join(side, Join(side, a, n, Red, b), w, Black, far));
  }

  /** Case 4, a red far nephew: recolouring and one rotation end the shortage. */
  lemma {:induction false} FarNephew(up: Ctx, side: Side, p: RbNode, cp: Color, near: Tree, w: RbNode, far: Tree,
                                     t: Tree, h: nat)
    returns (k: nat)
    requires Short(Hole(up, side, p, cp, Join(side, near, w, Black, far)), t, h) && ColorOf(t) == Black
    requires ColorOf(far) == Red
    ensures var whole := Plug(up, Join(side, Join(side, t, p, Black, near), w, cp, Paint(far, Black)));
            Short(Top, whole, k) && ColorOf(whole) == Black &&
            Around(Top, whole) == Around(Hole(up, side, p, cp, Join(side, near, w, Black, far)), t)
  {
    var res := Join(side, Join(side, t, p, Black, near), w, cp, Paint(far, Black));
    assert RB(Join(side, near, w, Black, far), h + 1);
    assert RB(far, h) && RB(Paint(far, Black), h + 1);
    assert RB(Join(side, t, p, Black, near), h + 1);
    PlugRB(up, res, if cp == Red then h + 1 else h + 2);
    k :| RB(Plug(up, res), k);
    FarInOrder(up, side, p, cp, near, w, far, t);
    PlugInOrder(up, res);
  }

  lemma {:induction false} FarInOrder(up: Ctx, side: Side, p: RbNode, cp: Color, near: Tree, w: RbNode, far: Tree,
                                      t: Tree)
    ensures Around(up, Join(side, Join(side, t, p, Black, near), w, cp, Paint(far, Black))) ==
            Around(Hole(up, side, p, cp, Join(side, near, w, Black, far)), t)
  {
    ZipInOrder(up, side, p, cp, Join(side, near, w, Black, far), t);
    RotateInOrder(side, t, p, cp, near, w, cp, Paint(far, Black));
    assert InOrder(Paint(far, Black)) == InOrder(far);
    assert InOrder(Join(side, near, w, Black, far)) == InOrder(Join(side, near, w, cp, Paint(far, Black)));
    assert InOrder(Join(side, t, p, Black, near)) == InOrder(Join(side, t, p, cp, near));
  }

  // ---------------------------------------------------------------------------
  // Taking a node out
  // ---------------------------------------------------------------------------

  /** The hole of inner put into the hole of outer. */
  function Append(inner: Ctx, outer: Ctx): Ctx {
    if inner.Top? then outer else inner.(up := Append(inner.up, outer))
  }

  lemma {:induction false} SortedWithout(before: seq<RbNode>, z: RbNode, after: seq<RbNode>)
    requires Sorted(before + [z] + after)
    ensures Sorted(before + after)
  {
    var s, s' := before + [z] + after, before + after;
    forall i, j | 0 <= i < j < |s'|
      ensures s'[i].key <= s'[j].key
    {
      assert s'[i] == if i < |before| then s[i] else s[i + 1];
      assert s'[j] == if j < |before| then s[j] else s[j + 1];
    }
  }

  lemma {:induction false} AroundElements(ctx: Ctx, t: Tree)
    ensures Elements(Before(ctx)) + Elements(After(ctx)) == CtxNodes(ctx) && Elements(InOrder(t)) == Nodes(t)
  {
    NodesInOrder(t);
    if ctx.Hole? {
      AroundElements(ctx.up, ctx.sib);
      ElementsSum(Before(ctx.up), InOrder(ctx.sib));
      ElementsSum(Before(ctx.up) + InOrder(ctx.sib), [ctx.n]);
      ElementsSum([ctx.n], InOrder(ctx.sib));
      ElementsSum([ctx.n] + InOrder(ctx.sib), After(ctx.up));
      assert Elements([ctx.n]) == {ctx.n};
      assert Elements(Before(ctx)) + Elements(After(ctx)) ==
             Elements(Before(ctx.up)) + Elements(InOrder(ctx.sib)) + {ctx.n} + Elements(After(ctx.up));
    }
  }

  /** Removing node n, which has only the child t, from the place seen from the hole. */
  lemma {:induction false} RemoveRB(ctx: Ctx, side: Side, t: Tree, n: RbNode, c: Color, h: nat)
    requires Proper(ctx, Join(side, t, n, c, Nil), h)
    ensures if c == Red then RedBlack(Plug(ctx, t)) else h > 0 && Short(ctx, t, h - 1)
  {
    var whole := Join(side, t, n, c, Nil);
    assert RB(whole.l, if c == Red then h else h - 1) && RB(whole.r, if c == Red then h else h - 1);
    if c == Red {
      PlugRB(ctx, t, h);
    }
  }

  /** Which node sits on the path does not matter to the red-black invariants. */
  lemma {:induction false} ReplaceRB(inner: Ctx, ctx: Ctx, side: Side, z: RbNode, y: RbNode, c: Color, sib: Tree,
                                     h: nat)
    requires CtxRB(Append(inner, Hole(ctx, side, z, c, sib)), h)
    ensures CtxRB(Append(inner, Hole(ctx, side, y, c, sib)), h)
  {
    if inner.Hole? {
      ReplaceRB(inner.up, ctx, side, z, y, c, sib, if inner.c == Red then h else h + 1);
    }
  }

  lemma {:induction false} DescendInner(inner: Ctx, outer: Ctx, t: Tree, h: nat) returns (k: nat)
    requires Proper(outer, Plug(inner, t), h)
    ensures Proper(Append(inner, outer), t, k)
  {
    if inner.Top? {
      k := h;
    } else {
      k := DescendInner(inner.up, outer, Join(inner.side, t, inner.n, inner.c, inner.sib), h);
      Descend(Append(inner.up, outer), inner.side, t, inner.n, inner.c, inner.sib, k);
      k := if inner.c == Red then k else k - 1;
    }
  }

  lemma {:induction false} AroundAppend(inner: Ctx, outer: Ctx, t: Tree)
    ensures Around(Append(inner, outer), t) == Around(outer, Plug(inner, t))
  {
    if inner.Hole? {
      ZipInOrder(Append(inner.up, outer), inner.side, inner.n, inner.c, inner.sib, t);
      AroundAppend(inner.up, outer, Join(inner.side, t, inner.n, inner.c, inner.sib));
    }
  }

  /** The whole tree without the root of the subtree Node(l, z, c, r) in the hole. */
  ghost function AroundWithout(ctx: Ctx, l: Tree, r: Tree): seq<RbNode> {
    (Before(ctx) + InOrder(l)) + (InOrder(r) + After(ctx))
  }

  lemma {:induction false} WithoutRoot(ctx: Ctx, l: Tree, z: RbNode, c: Color, r: Tree)
    requires Separate(ctx, Node(l, z, c, r)) && Sorted(Around(ctx, Node(l, z, c, r)))
    ensures AroundWithout(ctx, l, r) == Unlink(Around(ctx, Node(l, z, c, r)), z)
    ensures Sorted(AroundWithout(ctx, l, r))
    ensures Elements(AroundWithout(ctx, l, r)) == Elements(Around(ctx, Node(l, z, c, r))) - {z}
  {
    var u, v := Before(ctx) + InOrder(l), InOrder(r) + After(ctx);
    assert Around(ctx, Node(l, z, c, r)) == u + [z] + v;
    AroundElements(ctx, l);
    AroundElements(ctx, r);
    ElementsSum(Before(ctx), InOrder(l));
    ElementsSum(InOrder(r), After(ctx));
    assert z !in Elements(u) && z !in Elements(v);
    hide InOrder, Before, After, Around, Sorted, Unlink, Elements, Nodes, CtxNodes, Distinct, CtxDistinct;
    SeqWithout(u, z, v);
  }

  lemma {:induction false} SeqWithout(u: seq<RbNode>, z: RbNode, v: seq<RbNode>)
    requires z !in Elements(u) && z !in Elements(v) && Sorted(u + [z] + v)
    ensures u + v == Unlink(u + [z] + v, z) && Sorted(u + v) && Elements(u + v) == Elements(u + [z] + v) - {z}
  {
    UnlinkBetween(u, z, v);
    SortedWithout(u, z, v);
    ElementsSum(u, v);
    ElementsSum(u + [z], v);
    ElementsSum(u, [z]);
    assert Elements([z]) == {z};
  }

  /** The first node y of the right subtree takes the place of z. */
  lemma {:induction false} SuccessorInOrder(ctx: Ctx, l: Tree, z: RbNode, c: Color, inner: Ctx, y: RbNode, cy: Color,
                                            yr: Tree)
    requires Before(inner) == []
    ensures Around(Append(inner, Hole(ctx, R, y, c, l)), yr) == AroundWithout(ctx, l, Plug(inner, Node(Nil, y, cy, yr)))
  {
    var low, r' := Node(Nil, y, cy, yr), Plug(inner, yr);
    PlugInOrder(inner, low);
    PlugInOrder(inner, yr);
    assert InOrder(low) == [y] + InOrder(yr);
    AroundAppend(inner, Hole(ctx, R, y, c, l), yr);
    hide InOrder, Plug, Append;
    assert Before(Hole(ctx, R, y, c, l)) == (Before(ctx) + InOrder(l)) + [y];
    assert After(Hole(ctx, R, y, c, l)) == After(ctx);
    hide Before, After;
    Regroup(Before(ctx) + InOrder(l), y, InOrder(yr), After(inner), After(ctx));
  }

  lemma {:induction false} Regroup(u: seq<RbNode>, y: RbNode, v: seq<RbNode>, w: seq<RbNode>, a: seq<RbNode>)
    ensures u + [y] + ([] + v + w) + a == u + (([] + ([y] + v) + w) + a)
  {
  }

  /** Replacing z on the path by the node y taken out below keeps the invariants, up to
      the shortage that taking out a black y leaves. */
  lemma {:induction false} SuccessorRB(ctx: Ctx, l: Tree, z: RbNode, c: Color, inner: Ctx, y: RbNode, cy: Color,
                                       yr: Tree, h: nat)
    returns (k: nat)
    requires Proper(ctx, Node(l, z, c, Plug(inner, Node(Nil, y, cy, yr))), h)
    ensures var ctx' := Append(inner, Hole(ctx, R, y, c, l));
            if cy == Red then RedBlack(Plug(ctx', yr)) else Short(ctx', yr, k)
  {
    var low := Node(Nil, y, cy, yr);
    Descend(ctx, R, Plug(inner, low), z, c, l, h);
    k := DescendInner(inner, Hole(ctx, R, z, c, l), low, if c == Red then h else h - 1);
    ReplaceRB(inner, ctx, R, z, y, c, l, k);
    RemoveRB(Append(inner, Hole(ctx, R, y, c, l)), R, yr, y, cy, k);
    k := if cy == Red then k else k - 1;
  }

  lemma {:induction false} AppendNodes(inner: Ctx, outer: Ctx)
    ensures CtxNodes(Append(inner, outer)) == CtxNodes(inner) + CtxNodes(outer)
    ensures CtxDistinct(Append(inner, outer)) ==>
              CtxDistinct(inner) && CtxDistinct(outer) && CtxNodes(inner) !! CtxNodes(outer)
  {
    if inner.Hole? {
      AppendNodes(inner.up, outer);
    }
  }

  lemma {:induction false} PlugNodes(ctx: Ctx, t: Tree)
    ensures Nodes(Plug(ctx, t)) == CtxNodes(ctx) + Nodes(t)
  {
    if ctx.Hole? {
      PlugNodes(ctx.up, Join(ctx.side, t, ctx.n, ctx.c, ctx.sib));
    }
  }

  lemma {:induction false} PlugTop(ctx: Ctx, t: Tree, t': Tree)
    requires ctx.Hole?
    ensures Plug(ctx, t).n == Plug(ctx, t').n && Plug(ctx, t).n in CtxNodes(ctx)
  {
    if ctx.up.Hole? {
      PlugTop(ctx.up, Join(ctx.side, t, ctx.n, ctx.c, ctx.sib), Join(ctx.side, t', ctx.n, ctx.c, ctx.sib));
    }
  }

  /** The nodes that play a part when the successor y replaces z are different ones. */
  lemma {:induction false} SuccessorApart(ctx: Ctx, l: Tree, z: RbNode, c: Color, inner: Ctx, y: RbNode, cy: Color,
                                          yr: Tree)
    requires l.Node? && Separate(Append(inner, Hole(ctx, R, z, c, l)), Node(Nil, y, cy, yr))
    ensures var r, r' := Plug(inner, Node(Nil, y, cy, yr)), Plug(inner, yr);
            && (inner.Top? ==> r.n == y)
            && (inner.Hole? ==> r'.Node? && r'.n == r.n && r.n != y && inner.n != z && inner.n != y && inner.n != l.n)
            && y !in Nodes(l) && y !in Nodes(r') && y !in CtxNodes(ctx) && y != z
            && l.n != y && l.n != z && l.n != r.n && z != r.n
            && (ctx.Hole? ==>
                  && ctx.n != y && ctx.n != z && ctx.n != l.n && ctx.n != r.n
                  && (inner.Hole? ==> inner.n != ctx.n))
            && (yr.Node? ==>
                  && yr.n != y && yr.n != z && yr.n != l.n && yr.n != r.n
                  && (ctx.Hole? ==> yr.n != ctx.n) && (inner.Hole? ==> inner.n != yr.n))
  {
    var low, outer := Node(Nil, y, cy, yr), Hole(ctx, R, z, c, l);
    AppendNodes(inner, outer);
    PlugNodes(inner, yr);
    assert l.n in Nodes(l) && (ctx.Hole? ==> ctx.n in CtxNodes(ctx)) && (yr.Node? ==> yr.n in Nodes(yr));
    assert CtxNodes(outer) == CtxNodes(ctx) + {z} + Nodes(l);
    assert Nodes(low) == {y} + Nodes(yr);
    if inner.Hole? {
      PlugTop(inner, low, yr);
      assert inner.n in CtxNodes(inner);
    }
  }

  // ---------------------------------------------------------------------------
  // Height
  // ---------------------------------------------------------------------------

  /** A tree of black height h has at least 2^h - 1 nodes, and a path of at most 2h nodes
      below a black root. */
  lemma {:induction false} BlackHeight(t: Tree, h: nat)
    requires RB(t, h)
    ensures Height(t) <= if ColorOf(t) == Red then 2 * h + 1 else 2 * h
    ensures Pow2(h) <= |InOrder(t)| + 1
  {
    if t.Node? {
      BlackHeight(t.l, if t.c == Red then h else h - 1);
      BlackHeight(t.r, if t.c == Red then h else h - 1);
    }
  }

  /** Height at most 2 log2(n + 1), stated without logarithms. */
  lemma {:induction false} HeightBound(t: Tree)
    requires RedBlack(t)
    ensures Pow2((Height(t) + 1) / 2) <= |InOrder(t)| + 1
  {
    var h: nat :| RB(t, h);
    BlackHeight(t, h);
    Pow2Monotone((Height(t) + 1) / 2, h);
  }
}
