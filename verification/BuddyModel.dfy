/**
 The state of the buddy allocator seen as an ownership map: every frame is reserved or
 belongs to one aligned block that is free, used, or in transit inside an operation.
 */
module BuddyModel {
  import opened Common
  import opened BuddyBlocks

  datatype Kind = Free | Used | Limbo

  datatype Owner = Reserved | Block(kind: Kind, head: nat, order: nat)

  type Own = seq<Owner>

  predicate IsBlock(own: Own, kind: Kind, h: nat, k: nat) {
    h < |own| && own[h] == Block(kind, h, k)
  }

  predicate IsFree(own: Own, f: nat) {
    f < |own| && own[f].Block? && own[f].kind == Free
  }

  /** The whole block of the owner o lies in the map and is aligned. */
  ghost predicate BlockOk(own: Own, max: nat, h: nat, k: nat, o: Owner) {
    k <= max && Aligned(h, k) && h + Pow2(k) <= |own| && forall g: nat :: InBlock(g, h, k) ==> own[g] == o
  }

  /** The blocks partition the unreserved frames. */
  ghost predicate Consistent(own: Own, max: nat) {
    forall f :: 0 <= f < |own| && own[f].Block? ==>
      InBlock(f, own[f].head, own[f].order) && BlockOk(own, max, own[f].head, own[f].order, own[f])
  }

  /** No two free buddies of one order below the maximum. */
  ghost predicate Coalesced(own: Own, max: nat) {
    forall h: nat, k: nat :: k < max && IsBlock(own, Free, h, k) ==> !IsBlock(own, Free, FlipBit(h, k), k)
  }

  function Fill(own: Own, h: nat, k: nat, o: Owner): (own': Own)
    requires h + Pow2(k) <= |own|
    ensures |own'| == |own| && forall f :: 0 <= f < |own| ==> own'[f] == if InBlock(f, h, k) then o else own[f]
  {
    seq(|own|, f requires 0 <= f < |own| => if InBlock(f, h, k) then o else own[f])
  }

  // ---------------------------------------------------------------------------
  // The moves an operation is made of
  // ---------------------------------------------------------------------------

  lemma {:induction false} BlockFrames(own: Own, max: nat, kind: Kind, h: nat, k: nat)
    requires Consistent(own, max) && IsBlock(own, kind, h, k)
    ensures BlockOk(own, max, h, k, Block(kind, h, k))
  {
  }

  /** A block changes its kind. */
  function Retag(own: Own, h: nat, k: nat, kind: Kind): Own
    requires h + Pow2(k) <= |own|
  {
    Fill(own, h, k, Block(kind, h, k))
  }

  /** A block of order k + 1 in transit becomes two of order k. */
  function Split(own: Own, h: nat, k: nat): Own
    requires h + Pow2(k + 1) <= |own|
  {
    Fill(Fill(own, h, k, Block(Limbo, h, k)), h + Pow2(k), k, Block(Limbo, h + Pow2(k), k))
  }

  /** Two buddies of order k in transit become one block. */
  function Unite(own: Own, h: nat, k: nat): Own
    requires h + Pow2(k + 1) <= |own|
  {
    Fill(own, h, k + 1, Block(Limbo, h, k + 1))
  }

  lemma {:induction false} RetagConsistent(own: Own, max: nat, h: nat, k: nat, kind: Kind, kind': Kind)
    requires Consistent(own, max) && IsBlock(own, kind, h, k)
    ensures h + Pow2(k) <= |own| && Consistent(Retag(own, h, k, kind'), max)
    ensures IsBlock(Retag(own, h, k, kind'), kind', h, k)
  {
    BlockFrames(own, max, kind, h, k);
    var own' := Retag(own, h, k, kind');
    forall f | 0 <= f < |own'| && own'[f].Block?
      ensures InBlock(f, own'[f].head, own'[f].order) && BlockOk(own', max, own'[f].head, own'[f].order, own'[f])
    {
      if !InBlock(f, h, k) {
        assert own'[f] == own[f];
        forall g: nat | InBlock(g, own[f].head, own[f].order)
          ensures own'[g] == own[f]
        {
          assert own[g] == own[f];
        }
      }
    }
  }

  lemma {:induction false} SplitConsistent(own: Own, max: nat, h: nat, k: nat)
    requires Consistent(own, max) && IsBlock(own, Limbo, h, k + 1)
    ensures h + Pow2(k + 1) <= |own| && Consistent(Split(own, h, k), max)
    ensures IsBlock(Split(own, h, k), Limbo, h, k) && IsBlock(Split(own, h, k), Limbo, h + Pow2(k), k)
  {
    hide Aligned;
    BlockFrames(own, max, Limbo, h, k + 1);
    Halves(h, k);
    var own' := Split(own, h, k);
    forall f | 0 <= f < |own'| && own'[f].Block?
      ensures InBlock(f, own'[f].head, own'[f].order) && BlockOk(own', max, own'[f].head, own'[f].order, own'[f])
    {
      if !InBlock(f, h, k + 1) {
        assert own'[f] == own[f];
        forall g: nat | InBlock(g, own[f].head, own[f].order)
          ensures own'[g] == own[f]
        {
          assert own[g] == own[f];
        }
      }
    }
  }

  lemma {:induction false} UniteConsistent(own: Own, max: nat, h: nat, k: nat)
    requires Consistent(own, max) && k < max && IsBlock(own, Limbo, h, k) && IsBlock(own, Limbo, FlipBit(h, k), k)
    ensures var low := if FlipBit(h, k) < h then FlipBit(h, k) else h;
            && low + Pow2(k + 1) <= |own| && Consistent(Unite(own, low, k), max)
            && IsBlock(Unite(own, low, k), Limbo, low, k + 1)
  {
    BlockFrames(own, max, Limbo, h, k);
    BlockFrames(own, max, Limbo, FlipBit(h, k), k);
    Buddy(h, k);
    var low := if FlipBit(h, k) < h then FlipBit(h, k) else h;
    var own' := Unite(own, low, k);
    forall f | 0 <= f < |own'| && own'[f].Block?
      ensures InBlock(f, own'[f].head, own'[f].order) && BlockOk(own', max, own'[f].head, own'[f].order, own'[f])
    {
      if !InBlock(f, low, k + 1) {
        assert own'[f] == own[f];
        forall g: nat | InBlock(g, own[f].head, own[f].order)
          ensures own'[g] == own[f]
        {
          assert own[g] == own[f];
        }
      }
    }
  }

  /** Splitting a block in transit and freeing the upper half keeps the map coalesced. */
  lemma {:induction false} SplitCoalesced(own: Own, max: nat, h: nat, k: nat)
    requires Consistent(own, max) && Coalesced(own, max) && IsBlock(own, Limbo, h, k + 1)
    ensures h + Pow2(k + 1) <= |own| && Coalesced(Split(own, h, k), max)
    ensures var r := h + Pow2(k); FlipBit(r, k) == h && !IsBlock(Split(own, h, k), Free, h, k)
    ensures forall g: nat, j: nat :: IsBlock(Split(own, h, k), Free, g, j) <==> IsBlock(own, Free, g, j)
  {
    BlockFrames(own, max, Limbo, h, k + 1);
    Halves(h, k);
  }

  lemma {:induction false} UniteCoalesced(own: Own, max: nat, h: nat, k: nat)
    requires Consistent(own, max) && Coalesced(own, max) && k < max && IsBlock(own, Limbo, h, k)
    requires IsBlock(own, Limbo, FlipBit(h, k), k)
    ensures var low := if FlipBit(h, k) < h then FlipBit(h, k) else h;
            && low + Pow2(k + 1) <= |own| && Coalesced(Unite(own, low, k), max)
            && forall g: nat, j: nat :: IsBlock(Unite(own, low, k), Free, g, j) <==> IsBlock(own, Free, g, j)
  {
    BlockFrames(own, max, Limbo, h, k);
    BlockFrames(own, max, Limbo, FlipBit(h, k), k);
    Buddy(h, k);
  }

  /** From own0 to own, the block in transit at h shrank from order high to order low and the
      frames given up became free. */
  ghost predicate Shrunk(own0: Own, own: Own, h: nat, high: nat, low: nat) {
    |own| == |own0| && forall f :: 0 <= f < |own| ==>
      if InBlock(f, h, low) then own[f] == Block(Limbo, h, low)
      else if InBlock(f, h, high) then IsFree(own, f)
      else own[f] == own0[f]
  }

  lemma {:induction false} ShrinkStep(own0: Own, own: Own, max: nat, h: nat, high: nat, k: nat)
    requires Consistent(own, max) && IsBlock(own, Limbo, h, k + 1) && Shrunk(own0, own, h, high, k + 1) && k < high
    ensures h + Pow2(k + 1) <= |own|
    ensures Shrunk(own0, Retag(Split(own, h, k), h + Pow2(k), k, Free), h, high, k)
    ensures IsBlock(Retag(Split(own, h, k), h + Pow2(k), k, Free), Limbo, h, k)
  {
    BlockFrames(own, max, Limbo, h, k + 1);
    Pow2Monotone(k + 1, high);
  }

  /** From own0 to own, the block in transit at (h0, k0) grew to (h, k) by swallowing free frames. */
  ghost predicate Grown(own0: Own, own: Own, h0: nat, k0: nat, h: nat, k: nat) {
    && |own| == |own0| && h <= h0 && h0 + Pow2(k0) <= h + Pow2(k)
    && forall f :: 0 <= f < |own| ==>
         if InBlock(f, h, k) then own[f] == Block(Limbo, h, k) && (InBlock(f, h0, k0) || IsFree(own0, f))
         else own[f] == own0[f]
  }

  lemma {:induction false} GrowStep(own0: Own, own: Own, max: nat, h0: nat, k0: nat, h: nat, k: nat)
    requires Consistent(own, max) && k < max && IsBlock(own, Limbo, h, k) && IsBlock(own, Free, FlipBit(h, k), k)
    requires Grown(own0, own, h0, k0, h, k)
    ensures FlipBit(h, k) + Pow2(k) <= |own|
    ensures var own1 := Retag(own, FlipBit(h, k), k, Limbo); var low := if FlipBit(h, k) < h then FlipBit(h, k) else h;
            low + Pow2(k + 1) <= |own1| && Grown(own0, Unite(own1, low, k), h0, k0, low, k + 1)
  {
    BlockFrames(own, max, Limbo, h, k);
    BlockFrames(own, max, Free, FlipBit(h, k), k);
    Buddy(h, k);
  }

  /** `idle` and `busy` differ only in the block (h, k), which is free in one and one block of
      the given kind in the other; how the other free frames are grouped into blocks may differ. */
  ghost predicate Differ(idle: Own, busy: Own, kind: Kind, h: nat, k: nat) {
    && |idle| == |busy| && IsBlock(busy, kind, h, k) && h + Pow2(k) <= |busy|
    && forall f :: 0 <= f < |idle| ==>
         if InBlock(f, h, k) then IsFree(idle, f) && busy[f] == Block(kind, h, k)
         else (IsFree(idle, f) <==> IsFree(busy, f)) && (IsFree(idle, f) || idle[f] == busy[f])
  }

  lemma {:induction false} DifferBlock(idle: Own, busy: Own, kind: Kind, h: nat, k: nat)
    requires Differ(idle, busy, kind, h, k)
    ensures |idle| == |busy| && IsBlock(busy, kind, h, k)
  {
  }

  /** Taking a free block and shrinking it. */
  lemma {:induction false} ShrunkDiffers(own0: Own, own: Own, max: nat, h: nat, high: nat, k: nat)
    requires Consistent(own0, max) && IsBlock(own0, Free, h, high) && k <= high
    requires h + Pow2(high) <= |own0| && Shrunk(Retag(own0, h, high, Limbo), own, h, high, k)
    ensures Differ(own0, own, Limbo, h, k)
  {
    BlockFrames(own0, max, Free, h, high);
    Pow2Monotone(k, high);
  }

  /** Returning a block in transit after it has grown. */
  lemma {:induction false} GrownDiffers(busy: Own, own: Own, max: nat, h0: nat, k0: nat, h: nat, k: nat)
    requires Consistent(busy, max) && IsBlock(busy, Used, h0, k0) && h0 + Pow2(k0) <= |busy|
    requires Consistent(own, max) && IsBlock(own, Limbo, h, k) && h + Pow2(k) <= |own|
    requires Grown(Retag(busy, h0, k0, Limbo), own, h0, k0, h, k)
    ensures Differ(Retag(own, h, k, Free), busy, Used, h0, k0)
  {
    BlockFrames(busy, max, Used, h0, k0);
    BlockFrames(own, max, Limbo, h, k);
    var idle := Retag(own, h, k, Free);
    forall f | 0 <= f < |idle|
      ensures if InBlock(f, h0, k0) then IsFree(idle, f) && busy[f] == Block(Used, h0, k0)
              else (IsFree(idle, f) <==> IsFree(busy, f)) && (IsFree(idle, f) || idle[f] == busy[f])
    {
      assert InBlock(f, h0, k0) ==> InBlock(f, h, k);
    }
  }

  /** Freeing is the inverse of allocating, down to the shape of the free blocks. */
  lemma {:induction false} FreeUndoesAlloc(a: Own, b: Own, c: Own, max: nat, h: nat, k: nat)
    requires Consistent(a, max) && Coalesced(a, max) && Consistent(c, max) && Coalesced(c, max)
    requires Differ(a, b, Used, h, k) && Differ(c, b, Used, h, k)
    ensures a == c
  {
    forall f | 0 <= f < |a|
      ensures a[f] == c[f]
    {
      assert IsFree(a, f) <==> IsFree(c, f);
      if IsFree(a, f) {
        FreeBlocksUnique(a, c, max, a[f].head, a[f].order);
        BlockFrames(c, max, Free, a[f].head, a[f].order);
      }
    }
  }

  // ---------------------------------------------------------------------------
  // What maximal coalescing buys
  // ---------------------------------------------------------------------------

  ghost predicate FreeRun(own: Own, h: nat, k: nat) {
    Aligned(h, k) && h + Pow2(k) <= |own| && forall f: nat :: InBlock(f, h, k) ==> IsFree(own, f)
  }

  ghost predicate Covers(own: Own, g: nat, j: nat, h: nat, k: nat) {
    j >= k && IsBlock(own, Free, g, j) && g <= h && h + Pow2(k) <= g + Pow2(j)
  }

  lemma {:induction false} NotBothHalves(own: Own, max: nat, h: nat, k: nat)
    requires Coalesced(own, max) && k < max && Aligned(h, k + 1)
    ensures !(IsBlock(own, Free, h, k) && IsBlock(own, Free, h + Pow2(k), k))
  {
    Halves(h, k);
  }

  /** The block around the lower half reaches beyond it. */
  lemma {:induction false} LowerHalfGrows(own: Own, max: nat, h: nat, k: nat, g1: nat, j1: nat, g2: nat, j2: nat)
    requires Coalesced(own, max) && k < max && Aligned(h, k + 1)
    requires Covers(own, g1, j1, h, k) && BlockOk(own, max, g1, j1, own[g1])
    requires Covers(own, g2, j2, h + Pow2(k), k) && BlockOk(own, max, g2, j2, own[g2])
    ensures j1 > k
  {
    NotBothHalves(own, max, h, k);
    Halves(h, k);
    hide Coalesced, Aligned;
    if j2 > k {
      Nested(h, k + 1, g2, j2, h + Pow2(k));
      assert own[h] == own[g2];
    }
  }

  lemma {:induction false} HalfRuns(own: Own, h: nat, k: nat)
    requires k > 0 && FreeRun(own, h, k)
    ensures FreeRun(own, h, k - 1) && FreeRun(own, h + Pow2(k - 1), k - 1)
  {
    Halves(h, k - 1);
    hide Aligned;
  }

  /** The block around the lower half of a run is around the run. */
  lemma {:induction false} BothHalves(own: Own, max: nat, h: nat, k: nat, g1: nat, j1: nat, g2: nat, j2: nat)
    requires Consistent(own, max) && Coalesced(own, max) && 0 < k <= max && FreeRun(own, h, k)
    requires Covers(own, g1, j1, h, k - 1) && Covers(own, g2, j2, h + Pow2(k - 1), k - 1)
    ensures Covers(own, g1, j1, h, k)
  {
    BlockFrames(own, max, Free, g1, j1);
    BlockFrames(own, max, Free, g2, j2);
    LowerHalfGrows(own, max, h, k - 1, g1, j1, g2, j2);
    hide Consistent, Coalesced;
    Nested(h, k, g1, j1, h);
  }

  /** Every aligned run of free frames lies inside a single free block. */
  lemma {:induction false} RunInBlock(own: Own, max: nat, h: nat, k: nat) returns (g: nat, j: nat)
    requires Consistent(own, max) && Coalesced(own, max) && k <= max && FreeRun(own, h, k)
    ensures j <= max && Covers(own, g, j, h, k)
    decreases k
  {
    if k == 0 {
      assert InBlock(h, h, 0);
      g, j := own[h].head, own[h].order;
    } else {
      hide Consistent, Coalesced, FreeRun, Covers;
      HalfRuns(own, h, k);
      g, j := RunInBlock(own, max, h, k - 1);
      var g2, j2 := RunInBlock(own, max, h + Pow2(k - 1), k - 1);
      BothHalves(own, max, h, k, g, j, g2, j2);
    }
  }

  /** The free blocks are determined by the free frames. */
  lemma {:induction false} FreeBlocksUnique(a: Own, b: Own, max: nat, h: nat, k: nat)
    requires |a| == |b| && Consistent(a, max) && Coalesced(a, max) && Consistent(b, max) && Coalesced(b, max)
    requires forall f :: 0 <= f < |a| ==> (IsFree(a, f) <==> IsFree(b, f))
    requires IsBlock(a, Free, h, k)
    ensures IsBlock(b, Free, h, k)
  {
    BlockFrames(a, max, Free, h, k);
    assert FreeRun(b, h, k);
    var g, j := RunInBlock(b, max, h, k);
    BlockFrames(b, max, Free, g, j);
    assert FreeRun(a, g, j);
    var g', j' := RunInBlock(a, max, g, j);
    BlockFrames(a, max, Free, g', j');
    Pow2Monotone(k, j);
    Pow2Monotone(j, j');
    assert a[h] == Block(Free, g', j');
  }

  /** When no block is in use, the map is the one fixed by the reserved frames: two idle
      allocators over the same reserved frames are in the same state. */
  lemma {:induction false} IdleStateUnique(a: Own, b: Own, max: nat)
    requires |a| == |b| && Consistent(a, max) && Coalesced(a, max) && Consistent(b, max) && Coalesced(b, max)
    requires forall f :: 0 <= f < |a| ==> (a[f].Reserved? <==> b[f].Reserved?)
    requires forall f :: 0 <= f < |a| ==> (IsFree(a, f) || a[f].Reserved?) && (IsFree(b, f) || b[f].Reserved?)
    ensures a == b
  {
    forall f | 0 <= f < |a|
      ensures a[f] == b[f]
    {
      if IsFree(a, f) {
        FreeBlocksUnique(a, b, max, a[f].head, a[f].order);
        BlockFrames(b, max, Free, a[f].head, a[f].order);
      }
    }
  }

  /** The map right after initialisation: the kernel's frames are reserved, all others free, and
      the free blocks are maximally merged. */
  ghost predicate Initial(own: Own, kernelPages: nat, max: nat) {
    && Consistent(own, max) && Coalesced(own, max)
    && forall f :: 0 <= f < |own| ==> if f < kernelPages then own[f] == Reserved else IsFree(own, f)
  }

  /** There is only one such map. */
  lemma {:induction false} InitialUnique(own: Own, kernelPages: nat, max: nat)
    requires Initial(own, kernelPages, max)
    ensures forall o: Own :: |o| == |own| && Initial(o, kernelPages, max) ==> o == own
  {
    forall o: Own | |o| == |own| && Initial(o, kernelPages, max)
      ensures o == own
    {
      IdleStateUnique(o, own, max);
    }
  }

  predicate UsedHead(own: Own, h: nat) {
    h < |own| && own[h].Block? && own[h].kind == Used && own[h].head == h
  }

  /** Freeing a block takes its head, and no other, out of the used heads. */
  lemma {:induction false} OneHeadLess(idle: Own, busy: Own, max: nat, h: nat, k: nat)
    requires Consistent(busy, max) && Differ(idle, busy, Used, h, k)
    ensures forall g: nat :: UsedHead(idle, g) <==> UsedHead(busy, g) && g != h
  {
    BlockFrames(busy, max, Used, h, k);
    assert InBlock(h, h, k);
  }

  /** Without used heads nothing is in use. */
  lemma {:induction false} NothingUsed(own: Own, kernelPages: nat, max: nat)
    requires Consistent(own, max) && Coalesced(own, max) && forall h: nat :: !UsedHead(own, h)
    requires forall f :: 0 <= f < |own| && own[f].Block? ==> own[f].kind != Limbo
    requires forall f :: 0 <= f < |own| ==> (own[f].Reserved? <==> f < kernelPages)
    ensures Initial(own, kernelPages, max)
  {
    forall f | 0 <= f < |own|
      ensures if f < kernelPages then own[f] == Reserved else IsFree(own, f)
    {
      if own[f].Block? && own[f].kind == Used {
        var h, k := own[f].head, own[f].order;
        assert BlockOk(own, max, h, k, own[f]) && InBlock(h, h, k);
        assert UsedHead(own, h);
      }
    }
  }

  // ---------------------------------------------------------------------------
  // Counting free frames
  // ---------------------------------------------------------------------------

  ghost function Range(a: nat, n: nat): set<nat> {
    if n == 0 then {} else Range(a, n - 1) + {a + n - 1}
  }

  lemma {:induction false} RangeSize(a: nat, n: nat)
    ensures |Range(a, n)| == n && forall f: nat :: f in Range(a, n) <==> a <= f < a + n
  {
    if n > 0 {
      RangeSize(a, n - 1);
    }
  }

  ghost function FreeFrames(own: Own): set<nat> {
    set f: nat | f < |own| && IsFree(own, f)
  }

  /** The free frames in blocks of order below k. */
  ghost function FreeBelow(own: Own, k: nat): set<nat> {
    set f: nat | f < |own| && IsFree(own, f) && own[f].order < k
  }

  ghost function FramesOf(own: Own, heads: seq<nat>, k: nat): set<nat> {
    set f: nat | f < |own| && IsFree(own, f) && own[f].order == k && own[f].head in heads
  }

  ghost function FramesAt(own: Own, h: nat, k: nat): set<nat> {
    set f: nat | f < |own| && own[f] == Block(Free, h, k)
  }

  lemma {:induction false} FramesAtSize(own: Own, max: nat, h: nat, k: nat)
    requires Consistent(own, max) && IsBlock(own, Free, h, k)
    ensures |FramesAt(own, h, k)| == Pow2(k)
  {
    BlockFrames(own, max, Free, h, k);
    RangeSize(h, Pow2(k));
    assert forall f: nat :: f in FramesAt(own, h, k) ==> InBlock(f, h, k);
    assert FramesAt(own, h, k) == Range(h, Pow2(k));
  }

  lemma {:induction false} FramesOfCons(own: Own, h: nat, rest: seq<nat>, k: nat)
    requires h !in rest
    ensures |FramesOf(own, [h] + rest, k)| == |FramesOf(own, rest, k)| + |FramesAt(own, h, k)|
  {
    assert FramesOf(own, [h] + rest, k) == FramesOf(own, rest, k) + FramesAt(own, h, k);
    assert FramesOf(own, rest, k) !! FramesAt(own, h, k);
  }

  /** Distinct heads of order k stand for |heads| * 2^k frames. */
  lemma {:induction false} FramesOfSize(own: Own, max: nat, heads: seq<nat>, k: nat)
    requires Consistent(own, max)
    requires forall i :: 0 <= i < |heads| ==> IsBlock(own, Free, heads[i], k)
    requires forall i, j :: 0 <= i < j < |heads| ==> heads[i] != heads[j]
    ensures |FramesOf(own, heads, k)| == |heads| * Pow2(k)
  {
    if heads != [] {
      var h, rest := heads[0], heads[1..];
      FramesOfSize(own, max, rest, k);
      FramesAtSize(own, max, h, k);
      hide *;
      assert heads == [h] + rest;
      FramesOfCons(own, h, rest, k);
      calc {
        |heads| * Pow2(k);
        (|rest| + 1) * Pow2(k);
        |rest| * Pow2(k) + Pow2(k);
      }
    } else {
      assert FramesOf(own, heads, k) == {};
    }
  }

  /** Allocation takes exactly 2^k frames out of the free ones; freeing returns them. */
  lemma {:induction false} FramesConserved(idle: Own, busy: Own, h: nat, k: nat)
    requires Differ(idle, busy, Used, h, k)
    ensures |FreeFrames(idle)| == |FreeFrames(busy)| + Pow2(k)
    ensures forall f :: 0 <= f < |idle| ==> (idle[f].Reserved? <==> busy[f].Reserved?)
  {
    RangeSize(h, Pow2(k));
    assert FreeFrames(idle) == FreeFrames(busy) + Range(h, Pow2(k));
    assert FreeFrames(busy) !! Range(h, Pow2(k));
  }
}
