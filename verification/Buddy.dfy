/** The buddy physical page allocator. */
module Buddy {
  import opened Common
  import opened BuddyBlocks
  import opened BuddyModel

  const PHYS_MEM_START: nat := 0x4000_0000
  const DMA_ZONE_PAGES: nat := 4096
  const DMA_ZONE_SIZE: nat := 0x100_0000

  /** The flag words the allocator writes: 0, PG_RESERVED, PG_BUDDY | PG_HEAD and
      PG_ALLOCATED | PG_HEAD. */
  datatype Flags = NoFlags | ReservedFlag | BuddyHead | AllocatedHead

  datatype Page = Page(order: nat, flags: Flags, refCount: nat)

  datatype Error = OK | BadOrder | NoMemory | OutOfRange | Unaligned | NotAllocated | DoubleFree

  /** What the metadata of frame f must say. */
  ghost predicate PageOk(page: Page, own: Own, f: nat)
    requires f < |own|
  {
    match own[f]
    case Reserved => page.flags == ReservedFlag && page.order == 0
    case Block(Free, h, k) => page.flags == (if f == h then BuddyHead else NoFlags)
        && page.order == (if f == h then k else 0)
    case Block(Used, h, k) => page.flags == (if f == h then AllocatedHead else NoFlags)
        && page.order == (if f == h then k else 0)
    case Block(Limbo, h, k) => page.flags == NoFlags && page.order == 0
  }

  ghost predicate PagesOk(mem: seq<Page>, own: Own) {
    |mem| == |own| && forall f :: 0 <= f < |own| ==> PageOk(mem[f], own, f)
  }

  /** The list of order k holds the heads of the free blocks of order k, once each. */
  ghost predicate ListOk(list: seq<nat>, own: Own, k: nat) {
    && (forall h: nat :: h in list <==> IsBlock(own, Free, h, k))
    && (forall i, j :: 0 <= i < j < |list| ==> list[i] != list[j])
  }

  ghost predicate ListsOk(area: seq<seq<nat>>, nrFree: seq<nat>, own: Own, max: nat) {
    && |area| == |nrFree| == max + 1
    && forall k :: 0 <= k <= max ==> ListOk(area[k], own, k) && nrFree[k] == |area[k]|
  }

  /** The metadata, the free lists and the ownership map agree; a block may be in transit. */
  ghost predicate Agree(mem: seq<Page>, area: seq<seq<nat>>, nrFree: seq<nat>, own: Own, max: nat) {
    && Consistent(own, max) && Coalesced(own, max)
    && PagesOk(mem, own)
    && ListsOk(area, nrFree, own, max)
  }

  lemma {:induction false} UnlinkList(list: seq<nat>, pfn: nat)
    requires forall i, j :: 0 <= i < j < |list| ==> list[i] != list[j]
    requires pfn in list
    ensures var list' := Unlink(list, pfn);
            && |list'| == |list| - 1 && (forall h: nat :: h in list' <==> h in list && h != pfn)
            && (forall i, j :: 0 <= i < j < |list'| ==> list'[i] != list'[j])
  {
    var rest := list[1..];
    assert list == [list[0]] + rest;
    assert forall i :: 0 <= i < |rest| ==> rest[i] == list[i + 1];
    if list[0] != pfn {
      UnlinkList(rest, pfn);
      assert list[0] !in rest;
      var list' := Unlink(rest, pfn);
      assert Unlink(list, pfn) == [list[0]] + list';
      assert forall i :: 0 <= i < |list'| ==> list'[i] in list';
    } else {
      assert list[0] !in rest;
    }
  }

  /** Retagging a block changes which blocks exist only at its head. */
  lemma {:induction false} RetagBlocks(own: Own, max: nat, h: nat, k: nat, kind: Kind, kind': Kind)
    requires Consistent(own, max) && IsBlock(own, kind, h, k)
    ensures h + Pow2(k) <= |own|
    ensures forall g: nat, j: nat :: IsBlock(Retag(own, h, k, kind'), Free, g, j) <==>
              if g == h then j == k && kind' == Free else IsBlock(own, Free, g, j)
  {
    BlockFrames(own, max, kind, h, k);
  }

  lemma {:induction false} RetagPages(mem: seq<Page>, own: Own, max: nat, h: nat, k: nat, kind: Kind, kind': Kind,
                                      page: Page)
    requires Consistent(own, max) && IsBlock(own, kind, h, k) && PagesOk(mem, own)
    requires kind' == Limbo ==> page.flags == NoFlags && page.order == 0
    requires kind' == Free ==> page.flags == BuddyHead && page.order == k
    requires kind' == Used ==> page.flags == AllocatedHead && page.order == k
    ensures h + Pow2(k) <= |own| && PagesOk(mem[h := page], Retag(own, h, k, kind'))
  {
    BlockFrames(own, max, kind, h, k);
    var own', mem' := Retag(own, h, k, kind'), mem[h := page];
    forall f | 0 <= f < |own|
      ensures PageOk(mem'[f], own', f)
    {
      assert PageOk(mem[f], own, f);
    }
  }

  lemma {:induction false} AddFreeAgrees(mem: seq<Page>, area: seq<seq<nat>>, nrFree: seq<nat>, own: Own, max: nat,
                                         h: nat, k: nat, page: Page)
    requires Agree(mem, area, nrFree, own, max) && k <= max && IsBlock(own, Limbo, h, k)
    requires k < max ==> !IsBlock(own, Free, FlipBit(h, k), k)
    requires page.flags == BuddyHead && page.order == k
    ensures h + Pow2(k) <= |own|
    ensures Agree(mem[h := page], area[k := area[k] + [h]], nrFree[k := nrFree[k] + 1], Retag(own, h, k, Free), max)
  {
    RetagConsistent(own, max, h, k, Limbo, Free);
    RetagBlocks(own, max, h, k, Limbo, Free);
    RetagPages(mem, own, max, h, k, Limbo, Free, page);
    BlockFrames(own, max, Limbo, h, k);
    Buddy(h, k);
    var own' := Retag(own, h, k, Free);
    var area' := area[k := area[k] + [h]];
    hide Retag, Fill;
    forall g: nat, j: nat | j < max && IsBlock(own', Free, g, j)
      ensures !IsBlock(own', Free, FlipBit(g, j), j)
    {
      if g != h {
        assert IsBlock(own, Free, g, j);
        BlockFrames(own, max, Free, g, j);
        Buddy(g, j);
      }
    }
    forall j | 0 <= j <= max
      ensures ListOk(area'[j], own', j)
    {
      assert ListOk(area[j], own, j);
      assert h !in area[k];
      assert forall i :: 0 <= i < |area[k]| ==> area[k][i] in area[k];
    }
  }

  lemma {:induction false} RemoveFreeAgrees(mem: seq<Page>, area: seq<seq<nat>>, nrFree: seq<nat>, own: Own, max: nat,
                                            h: nat, k: nat, page: Page)
    requires Agree(mem, area, nrFree, own, max) && k <= max && IsBlock(own, Free, h, k)
    requires page.flags == NoFlags && page.order == 0
    ensures h + Pow2(k) <= |own| && nrFree[k] > 0
    ensures Agree(mem[h := page], area[k := Unlink(area[k], h)], nrFree[k := nrFree[k] - 1], Retag(own, h, k, Limbo),
                  max)
  {
    RetagConsistent(own, max, h, k, Free, Limbo);
    RetagBlocks(own, max, h, k, Free, Limbo);
    RetagPages(mem, own, max, h, k, Free, Limbo, page);
    assert ListOk(area[k], own, k) && h in area[k];
    UnlinkList(area[k], h);
    var own' := Retag(own, h, k, Limbo);
    var area' := area[k := Unlink(area[k], h)];
    hide Retag, Fill, Unlink;
    forall j | 0 <= j <= max
      ensures ListOk(area'[j], own', j)
    {
      assert ListOk(area[j], own, j);
    }
  }

  /** Splits and unions in transit leave metadata and lists as they are. */
  lemma {:induction false} SplitAgrees(mem: seq<Page>, area: seq<seq<nat>>, nrFree: seq<nat>, own: Own, max: nat,
                                       h: nat, k: nat)
    requires Agree(mem, area, nrFree, own, max) && IsBlock(own, Limbo, h, k + 1)
    ensures h + Pow2(k + 1) <= |own| && Agree(mem, area, nrFree, Split(own, h, k), max)
  {
    SplitConsistent(own, max, h, k);
    SplitCoalesced(own, max, h, k);
    BlockFrames(own, max, Limbo, h, k + 1);
    RelabelAgrees(mem, area, nrFree, own, Split(own, h, k), max);
  }

  lemma {:induction false} UniteAgrees(mem: seq<Page>, area: seq<seq<nat>>, nrFree: seq<nat>, own: Own, max: nat,
                                       h: nat, k: nat)
    requires Agree(mem, area, nrFree, own, max) && k < max && IsBlock(own, Limbo, h, k)
    requires IsBlock(own, Limbo, FlipBit(h, k), k)
    ensures var low := if FlipBit(h, k) < h then FlipBit(h, k) else h;
            low + Pow2(k + 1) <= |own| && Agree(mem, area, nrFree, Unite(own, low, k), max)
  {
    UniteConsistent(own, max, h, k);
    UniteCoalesced(own, max, h, k);
    BlockFrames(own, max, Limbo, h, k);
    BlockFrames(own, max, Limbo, FlipBit(h, k), k);
    Buddy(h, k);
    var low := if FlipBit(h, k) < h then FlipBit(h, k) else h;
    RelabelAgrees(mem, area, nrFree, own, Unite(own, low, k), max);
  }

  lemma {:induction false} RelabelAgrees(mem: seq<Page>, area: seq<seq<nat>>, nrFree: seq<nat>, own: Own, own': Own,
                                         max: nat)
    requires Agree(mem, area, nrFree, own, max) && Consistent(own', max) && Coalesced(own', max) && |own'| == |own|
    requires forall f :: 0 <= f < |own| && own'[f] != own[f] ==>
               own[f].Block? && own'[f].Block? && own[f].kind == own'[f].kind == Limbo
    requires forall g: nat, j: nat :: IsBlock(own', Free, g, j) <==> IsBlock(own, Free, g, j)
    ensures Agree(mem, area, nrFree, own', max)
  {
    hide Consistent, Coalesced;
    forall f | 0 <= f < |own|
      ensures PageOk(mem[f], own', f)
    {
      assert PageOk(mem[f], own, f);
    }
    forall j | 0 <= j <= max
      ensures ListOk(area[j], own', j)
    {
      assert ListOk(area[j], own, j);
    }
  }

  lemma {:induction false} Unfold(mem: seq<Page>, area: seq<seq<nat>>, nrFree: seq<nat>, own: Own, max: nat)
    requires Agree(mem, area, nrFree, own, max)
    ensures Consistent(own, max) && Coalesced(own, max) && |mem| == |own| && |area| == |nrFree| == max + 1
  {
  }

  lemma {:induction false} ListHead(list: seq<nat>, own: Own, k: nat)
    requires ListOk(list, own, k) && list != []
    ensures IsBlock(own, Free, list[0], k)
  {
    assert list[0] in list;
  }

  lemma {:induction false} BlockInside(idle: Own, busy: Own, h: nat, k: nat)
    requires Differ(idle, busy, Limbo, h, k)
    ensures h < |idle|
  {
  }

  /** With all lists from `order` up empty there is no aligned run of that order. */
  lemma {:induction false} NoRun(mem: seq<Page>, area: seq<seq<nat>>, nrFree: seq<nat>, own: Own, max: nat, order: nat)
    requires Agree(mem, area, nrFree, own, max) && order <= max
    requires forall k :: order <= k <= max ==> area[k] == []
    ensures forall h: nat :: !FreeRun(own, h, order)
  {
    forall g: nat, j: nat | order <= j <= max
      ensures !IsBlock(own, Free, g, j)
    {
      assert ListOk(area[j], own, j);
      assert g !in area[j];
    }
    forall h: nat
      ensures !FreeRun(own, h, order)
    {
      if FreeRun(own, h, order) {
        var g, j := RunInBlock(own, max, h, order);
      }
    }
  }

  /** What the merge loop reads off the metadata of a frame. */
  lemma {:induction false} BuddyFlag(mem: seq<Page>, area: seq<seq<nat>>, nrFree: seq<nat>, own: Own, max: nat, h: nat)
    requires Agree(mem, area, nrFree, own, max) && h < |own|
    ensures |mem| == |own|
    ensures forall k: nat :: IsBlock(own, Free, h, k) <==> mem[h].flags == BuddyHead && mem[h].order == k
    ensures forall k: nat :: IsBlock(own, Used, h, k) <==> mem[h].flags == AllocatedHead && mem[h].order == k
    ensures mem[h].flags == BuddyHead <==> IsFree(own, h) && own[h].head == h
    ensures mem[h].flags == AllocatedHead <==> own[h].Block? && own[h].kind == Used && own[h].head == h
  {
    assert PageOk(mem[h], own, h);
  }

  /** Entering and leaving use changes no free block. */
  lemma {:induction false} UseAgrees(mem: seq<Page>, area: seq<seq<nat>>, nrFree: seq<nat>, own: Own, max: nat, h: nat,
                                     k: nat, kind: Kind, kind': Kind, page: Page)
    requires Agree(mem, area, nrFree, own, max) && IsBlock(own, kind, h, k)
    requires (kind == Limbo && kind' == Used) || (kind == Used && kind' == Limbo)
    requires kind' == Limbo ==> page.flags == NoFlags && page.order == 0
    requires kind' == Used ==> page.flags == AllocatedHead && page.order == k
    ensures h + Pow2(k) <= |own| && Agree(mem[h := page], area, nrFree, Retag(own, h, k, kind'), max)
    ensures IsBlock(Retag(own, h, k, kind'), kind', h, k) && k <= max && |Retag(own, h, k, kind')| == |own|
  {
    RetagConsistent(own, max, h, k, kind, kind');
    RetagBlocks(own, max, h, k, kind, kind');
    RetagPages(mem, own, max, h, k, kind, kind', page);
    BlockFrames(own, max, kind, h, k);
    var own' := Retag(own, h, k, kind');
    hide Retag, Fill;
    forall g: nat, j: nat | j < max && IsBlock(own', Free, g, j)
      ensures !IsBlock(own', Free, FlipBit(g, j), j)
    {
      assert IsBlock(own, Free, g, j);
    }
    forall j | 0 <= j <= max
      ensures ListOk(area[j], own', j)
    {
      assert ListOk(area[j], own, j);
    }
  }

  /** The number of a physical address's frame, in the unsigned arithmetic of the machine. */
  function PaToPfn(pa: nat): nat {
    ((pa - PHYS_MEM_START) % 0x1_0000_0000_0000_0000) / PAGE_SIZE
  }

  function PfnToPa(pfn: nat): nat {
    PHYS_MEM_START + pfn * PAGE_SIZE
  }

  lemma {:induction false} PfnRoundTrip(pfn: nat)
    requires PfnToPa(pfn) < 0x1_0000_0000_0000_0000
    ensures PaToPfn(PfnToPa(pfn)) == pfn && PfnToPa(pfn) % PAGE_SIZE == 0 && PfnToPa(pfn) > 0
    ensures PfnToPa(pfn) == 0x4000_0000 + pfn * 0x1000
  {
    assert (PfnToPa(pfn) - PHYS_MEM_START) == pfn * PAGE_SIZE;
  }

  lemma {:induction false} PfnInRange(pfn: nat, total: nat)
    requires pfn < total && PfnToPa(total) <= 0x1_0000_0000_0000_0000
    ensures PfnToPa(pfn) < 0x1_0000_0000_0000_0000
  {
  }

  lemma {:induction false} TwoBlocks(own: Own, max: nat, h: nat, k: nat)
    requires Consistent(own, max) && IsBlock(own, Limbo, h, k) && IsBlock(own, Free, FlipBit(h, k), k)
    ensures var b := FlipBit(h, k); b + Pow2(k) <= |own| && b != h
    ensures var b := FlipBit(h, k);
            IsBlock(Retag(own, b, k, Limbo), Limbo, h, k) && IsBlock(Retag(own, b, k, Limbo), Limbo, b, k)
  {
    BlockFrames(own, max, Limbo, h, k);
    BlockFrames(own, max, Free, FlipBit(h, k), k);
    Buddy(h, k);
  }

  /** A block in transit becomes used, and was an aligned run of free frames before. */
  lemma {:induction false} Handed(idle: Own, own: Own, max: nat, h: nat, k: nat)
    requires Consistent(own, max) && Differ(idle, own, Limbo, h, k)
    ensures IsBlock(own, Limbo, h, k) && h + Pow2(k) <= |own| && FreeRun(idle, h, k)
    ensures Differ(idle, Retag(own, h, k, Used), Used, h, k)
    ensures (forall f :: 0 <= f < |idle| && idle[f].Block? ==> idle[f].kind != Limbo) ==>
              var own' := Retag(own, h, k, Used); forall f :: 0 <= f < |own'| && own'[f].Block? ==>
                own'[f].kind != Limbo
    ensures var own' := Retag(own, h, k, Used); forall f :: 0 <= f < |idle| ==>
              (idle[f].Reserved? <==> own'[f].Reserved?)
  {
    BlockFrames(own, max, Limbo, h, k);
  }

  /** A used block leaves use, grows, and becomes free. */
  lemma {:induction false} Returned(busy: Own, own: Own, max: nat, h0: nat, k0: nat, h: nat, k: nat)
    requires Consistent(busy, max) && IsBlock(busy, Used, h0, k0) && h0 + Pow2(k0) <= |busy|
    requires Consistent(own, max) && IsBlock(own, Limbo, h, k) && h + Pow2(k) <= |own|
    requires Grown(Retag(busy, h0, k0, Limbo), own, h0, k0, h, k)
    ensures var own' := Retag(own, h, k, Free);
            && Differ(own', busy, Used, h0, k0)
            && (forall f :: 0 <= f < |own'| ==> (busy[f].Reserved? <==> own'[f].Reserved?))
            && ((forall f :: 0 <= f < |busy| && busy[f].Block? ==> busy[f].kind != Limbo) ==>
                  forall f :: 0 <= f < |own'| && own'[f].Block? ==> own'[f].kind != Limbo)
  {
    GrownDiffers(busy, own, max, h0, k0, h, k);
    BlockFrames(busy, max, Used, h0, k0);
    BlockFrames(own, max, Limbo, h, k);
  }

  lemma {:induction false} SameMeta(mem: seq<Page>, area: seq<seq<nat>>, nrFree: seq<nat>, own: Own, max: nat, h: nat,
                                    page: Page)
    requires Agree(mem, area, nrFree, own, max) && h < |own|
    requires |mem| == |own| ==> page.flags == mem[h].flags && page.order == mem[h].order
    ensures |mem| == |own| && Agree(mem[h := page], area, nrFree, own, max)
  {
    var mem' := mem[h := page];
    forall f | 0 <= f < |own|
      ensures PageOk(mem'[f], own, f)
    {
      assert PageOk(mem[f], own, f);
    }
  }

  /** Reserved frames become one block in transit once their metadata is cleared. */
  lemma {:induction false} CarveAgrees(mem: seq<Page>, mem': seq<Page>, area: seq<seq<nat>>, nrFree: seq<nat>, own: Own,
                                       max: nat, h: nat, k: nat)
    requires Agree(mem, area, nrFree, own, max) && k <= max && Aligned(h, k) && h + Pow2(k) <= |own|
    requires forall f: nat :: InBlock(f, h, k) ==> own[f] == Reserved
    requires |mem'| == |mem|
    requires forall f :: 0 <= f < |mem| ==>
               if InBlock(f, h, k) then mem'[f].flags == NoFlags && mem'[f].order == 0 else mem'[f] == mem[f]
    ensures Agree(mem', area, nrFree, Retag(own, h, k, Limbo), max) && IsBlock(Retag(own, h, k, Limbo), Limbo, h, k)
  {
    var own' := Retag(own, h, k, Limbo);
    forall f | 0 <= f < |own'| && own'[f].Block?
      ensures InBlock(f, own'[f].head, own'[f].order) && BlockOk(own', max, own'[f].head, own'[f].order, own'[f])
    {
      if !InBlock(f, h, k) {
        assert own'[f] == own[f] && BlockOk(own, max, own[f].head, own[f].order, own[f]);
        forall g: nat | InBlock(g, own[f].head, own[f].order)
          ensures own'[g] == own[f]
        {
          assert own[g] == own[f];
        }
      }
    }
    hide Fill, Retag, Consistent;
    assert forall g: nat, j: nat :: IsBlock(own', Free, g, j) <==> IsBlock(own, Free, g, j);
    forall f | 0 <= f < |own|
      ensures PageOk(mem'[f], own', f)
    {
      assert PageOk(mem[f], own, f);
    }
    forall j | 0 <= j <= max
      ensures ListOk(area[j], own', j)
    {
      assert ListOk(area[j], own, j);
    }
  }

  /** Every free block is as large as alignment and the end of memory allow. */
  ghost predicate Greedy(own: Own, max: nat) {
    forall h: nat, k: nat :: k < max && IsBlock(own, Free, h, k) ==> !(Aligned(h, k + 1) && h + Pow2(k + 1) <= |own|)
  }

  /** The greedy carve-up creates no free buddies. */
  lemma {:induction false} CarveStep(own0: Own, max: nat, h: nat, k: nat)
    requires Consistent(own0, max) && Greedy(own0, max) && k <= max && Aligned(h, k) && h + Pow2(k) <= |own0|
    requires forall f :: h <= f < |own0| ==> own0[f] == Reserved
    requires k < max ==> !(Aligned(h, k + 1) && h + Pow2(k + 1) <= |own0|)
    ensures k < max ==> !IsBlock(Retag(own0, h, k, Limbo), Free, FlipBit(h, k), k)
    ensures var own := Retag(own0, h, k, Limbo); |own| == |own0| && Greedy(Retag(own, h, k, Free), max)
    ensures var own := Retag(Retag(own0, h, k, Limbo), h, k, Free);
            && |own| == |own0|
            && forall f :: 0 <= f < |own| ==> own[f] == if InBlock(f, h, k) then Block(Free, h, k) else own0[f]
  {
    if k < max && IsBlock(own0, Free, FlipBit(h, k), k) {
      Buddy(h, k);
      BlockFrames(own0, max, Free, FlipBit(h, k), k);
    }
    var own := Retag(own0, h, k, Limbo);
    var own' := Retag(own, h, k, Free);
    forall g: nat, j: nat | j < max && IsBlock(own', Free, g, j)
      ensures !(Aligned(g, j + 1) && g + Pow2(j + 1) <= |own'|)
    {
      if InBlock(g, h, k) {
        assert own'[g] == Block(Free, h, k);
      } else {
        assert IsBlock(own0, Free, g, j);
      }
    }
  }

  lemma {:induction false} FreshAgrees(mem: seq<Page>, area: seq<seq<nat>>, nrFree: seq<nat>, own: Own, max: nat)
    requires |mem| == |own|
    requires (forall f :: 0 <= f < |own| ==> own[f] == Reserved && mem[f].flags == ReservedFlag && mem[f].order == 0)
    requires |area| == |nrFree| == max + 1 && forall k :: 0 <= k <= max ==> area[k] == [] && nrFree[k] == 0
    ensures Agree(mem, area, nrFree, own, max) && Greedy(own, max)
  {
    forall f | 0 <= f < |own|
      ensures PageOk(mem[f], own, f)
    {
    }
    forall k | 0 <= k <= max
      ensures ListOk(area[k], own, k)
    {
    }
  }

  lemma {:induction false} Carved(own: Own, kernelPages: nat)
    requires forall f :: 0 <= f < |own| ==> if f < kernelPages then own[f] == Reserved else IsFree(own, f)
    ensures forall f :: 0 <= f < |own| && own[f].Block? ==> own[f].kind != Limbo
    ensures forall f :: 0 <= f < |own| ==> (own[f].Reserved? <==> f < kernelPages)
  {
  }

  lemma {:induction false} CountStep(mem: seq<Page>, area: seq<seq<nat>>, nrFree: seq<nat>, own: Own, max: nat, k: nat)
    requires Agree(mem, area, nrFree, own, max) && k <= max
    ensures |FreeBelow(own, k + 1)| == |FreeBelow(own, k)| + nrFree[k] * Pow2(k)
  {
    assert ListOk(area[k], own, k);
    FramesOfSize(own, max, area[k], k);
    hide Pow2;
    forall f: nat | f < |own| && IsFree(own, f) && own[f].order == k
      ensures own[f].head in area[k]
    {
      assert BlockOk(own, max, own[f].head, own[f].order, own[f]);
      assert InBlock(own[f].head, own[f].head, k);
    }
    assert FreeBelow(own, k + 1) == FreeBelow(own, k) + FramesOf(own, area[k], k);
    assert FreeBelow(own, k) !! FramesOf(own, area[k], k);
  }

  /** The metadata of a used head holds its order. */
  lemma {:induction false} HeadOrder(mem: seq<Page>, area: seq<seq<nat>>, nrFree: seq<nat>, own: Own, max: nat, h: nat)
    requires Agree(mem, area, nrFree, own, max) && UsedHead(own, h)
    ensures |mem| == |own| && IsBlock(own, Used, h, mem[h].order)
  {
    assert PageOk(mem[h], own, h);
  }

  /** The address of a used block passes every test of the free operation. */
  lemma {:induction false} Freeable(own: Own, max: nat, kernelPages: nat, h: nat, k: nat)
    requires Consistent(own, max) && IsBlock(own, Used, h, k) && PfnToPa(|own|) <= 0x1_0000_0000_0000_0000
    requires forall f :: 0 <= f < |own| ==> (own[f].Reserved? <==> f < kernelPages)
    ensures k <= max && Aligned(h, k) && PfnToPa(kernelPages) <= PfnToPa(h) < PfnToPa(|own|)
    ensures PfnToPa(h) % PAGE_SIZE == 0 && PaToPfn(PfnToPa(h)) == h
  {
    BlockFrames(own, max, Used, h, k);
    PfnInRange(h, |own|);
    PfnRoundTrip(h);
  }

  lemma {:induction false} RestHeads(heads: seq<nat>, i: nat, h: nat)
    requires i < |heads| && heads[i] == h && forall i, j :: 0 <= i < j < |heads| ==> heads[i] != heads[j]
    ensures forall g: nat :: g in heads[i + 1..] <==> g in heads[i..] && g != h
  {
    assert heads[i..] == [h] + heads[i + 1..];
  }

  /** Frame f is in the DMA zone: the 16 MB behind the kernel, as far as there is memory; the last frame
      is not taken for one of them. */
  predicate InDmaZone(total: nat, kernelPages: nat, f: nat) {
    PfnToPa(f) < PfnToPa(kernelPages) + DMA_ZONE_SIZE && PfnToPa(f + 1) < PfnToPa(total)
  }

  lemma {:induction false} ZoneEnd(total: nat, kernelPages: nat, f: nat)
    requires 0 < total
    ensures InDmaZone(total, kernelPages, f) <==>
              f < if kernelPages + DMA_ZONE_PAGES >= total then total - 1 else kernelPages + DMA_ZONE_PAGES
  {
  }

  /** Every block that has come into use begins below the end. */
  ghost predicate HeadsBelow(own0: Own, own: Own, end: nat) {
    forall h: nat :: UsedHead(own, h) && !UsedHead(own0, h) ==> h < end
  }

  lemma {:induction false} SameHeads(own: Own, end: nat)
    ensures HeadsBelow(own, own, end)
  {
  }

  lemma {:induction false} NewHead(own0: Own, own: Own, h: nat, k: nat, end: nat)
    requires Differ(own0, own, Used, h, k)
    ensures h < end ==> HeadsBelow(own0, own, end)
  {
  }

  class BuddyAllocator {
    const total: nat
    const kernelPages: nat
    const maxOrder: nat
    const dmaEnd: nat
    const mem: array<Page>
    const area: array<seq<nat>>
    const nrFree: array<nat>
    var lastError: Error
    ghost var own: Own

    /** buddy_init: reserves everything, then frees the frames above the kernel in the largest
        aligned blocks that fit. */
    constructor (total: nat, kernelPages: nat, maxOrder: nat)
      requires 0 < total && kernelPages <= total && PfnToPa(total) <= 0x1_0000_0000_0000_0000
      ensures this.total == total && this.kernelPages == kernelPages && this.maxOrder == maxOrder
      ensures fresh(mem) && fresh(area) && fresh(nrFree)
      ensures Valid() && lastError == OK
      ensures Initial(own, kernelPages, maxOrder)
      ensures Refs() == seq(total, _ => 0)
      ensures forall f: nat :: f < dmaEnd <==> InDmaZone(total, kernelPages, f)
    {
      this.total, this.kernelPages, this.maxOrder := total, kernelPages, maxOrder;
      dmaEnd := if kernelPages + DMA_ZONE_PAGES >= total then total - 1 else kernelPages + DMA_ZONE_PAGES;
      lastError := OK;
      mem := new Page[total](_ => Page(0, NoFlags, 0));
      area := new seq<nat>[maxOrder + 1](_ => []);
      nrFree := new nat[maxOrder + 1](_ => 0);
      own := seq(total, _ => Reserved);
      new;
      for i := 0 to total
        invariant forall f :: 0 <= f < total ==> mem[f] == Page(0, if f < i then ReservedFlag else NoFlags, 0)
        invariant forall k :: 0 <= k <= maxOrder ==> area[k] == [] && nrFree[k] == 0
        invariant own == seq(total, _ => Reserved) && lastError == OK
      {
        mem[i] := mem[i].(flags := ReservedFlag, order := 0);
      }
      FreshAgrees(mem[..], area[..], nrFree[..], own, maxOrder);
      hide Agree, Greedy, IsFree;
      CarveUp();
      Unfold(mem[..], area[..], nrFree[..], own, maxOrder);
      Carved(own, kernelPages);
      forall f: nat
        ensures f < dmaEnd <==> InDmaZone(total, kernelPages, f)
      {
        ZoneEnd(total, kernelPages, f);
      }
    }

    /** The loop of buddy_init that frees the frames above the kernel. */
    method CarveUp()
      requires Inv() && Greedy(own, maxOrder) && kernelPages <= total
      requires forall f :: 0 <= f < |own| ==> own[f] == Reserved
      modifies mem, area, nrFree, this`own
      ensures Inv() && Refs() == old(Refs())
      ensures forall f :: 0 <= f < |own| ==> if f < kernelPages then own[f] == Reserved else IsFree(own, f)
    {
      hide Agree, Greedy, Retag, Aligned, Pow2;
      var pfn, remain := kernelPages, total - kernelPages;
      while remain > 0
        invariant pfn + remain == total && Inv() && Greedy(own, maxOrder) && Refs() == old(Refs())
        invariant forall f :: 0 <= f < |own| ==> if kernelPages <= f < pfn then IsFree(own, f) else own[f] == Reserved
      {
        Unfold(mem[..], area[..], nrFree[..], own, maxOrder);
        var order := LargestOrder(pfn, remain);
        CarveStep(own, maxOrder, pfn, order);
        ClearPages(pfn, order);
        AddToFreeArea(pfn, order);
        pfn := pfn + Pow2(order);
        remain := remain - Pow2(order);
      }
    }

    /** The largest order whose block is aligned at pfn and fits into the remaining frames. */
    method LargestOrder(pfn: nat, remain: nat) returns (order: nat)
      requires remain > 0
      ensures order <= maxOrder && Pow2(order) <= remain && Aligned(pfn, order)
      ensures order < maxOrder ==> !(Pow2(order + 1) <= remain && Aligned(pfn, order + 1))
    {
      order := maxOrder;
      while !(Pow2(order) <= remain && Aligned(pfn, order)) && order > 0
        invariant order <= maxOrder
        invariant order < maxOrder ==> !(Pow2(order + 1) <= remain && Aligned(pfn, order + 1))
      {
        order := order - 1;
      }
    }

    /** The reserved frames of an aligned block lose their flags and become a block in transit. */
    method ClearPages(pfn: nat, order: nat)
      requires Inv() && order <= maxOrder && Aligned(pfn, order) && pfn + Pow2(order) <= total
      requires forall f: nat :: InBlock(f, pfn, order) ==> own[f] == Reserved
      modifies mem, this`own
      ensures |old(own)| == total && own == Retag(old(own), pfn, order, Limbo)
      ensures Inv() && Refs() == old(Refs()) && IsBlock(own, Limbo, pfn, order)
    {
      Unfold(mem[..], area[..], nrFree[..], own, maxOrder);
      hide Agree, Retag;
      for i := 0 to Pow2(order)
        invariant own == old(own)
        invariant forall f :: 0 <= f < total ==>
          mem[f] == if pfn <= f < pfn + i then old(mem[f]).(flags := NoFlags, order := 0) else old(mem[f])
      {
        mem[pfn + i] := mem[pfn + i].(flags := NoFlags, order := 0);
      }
      CarveAgrees(old(mem[..]), mem[..], area[..], nrFree[..], own, maxOrder, pfn, order);
      own := Retag(own, pfn, order, Limbo);
    }

    ghost predicate Inv()
      reads this, mem, area, nrFree
    {
      && mem.Length == total == |own| && PfnToPa(total) <= 0x1_0000_0000_0000_0000
      && Agree(mem[..], area[..], nrFree[..], own, maxOrder)
    }

    /** Between operations no block is in transit, and exactly the kernel's frames are reserved. */
    ghost predicate Valid()
      reads this, mem, area, nrFree
    {
      && Inv()
      && (forall f :: 0 <= f < |own| && own[f].Block? ==> own[f].kind != Limbo)
      && (forall f :: 0 <= f < |own| ==> (own[f].Reserved? <==> f < kernelPages))
    }

    /** The reference counts. */
    ghost function Refs(): seq<nat>
      reads mem
    {
      seq(mem.Length, f requires 0 <= f < mem.Length reads mem => mem[f].refCount)
    }

    method AddToFreeArea(pfn: nat, order: nat)
      requires Inv() && order <= maxOrder && IsBlock(own, Limbo, pfn, order)
      requires order < maxOrder ==> !IsBlock(own, Free, FlipBit(pfn, order), order)
      modifies mem, area, nrFree, this`own
      ensures pfn + Pow2(order) <= |old(own)| && own == Retag(old(own), pfn, order, Free)
      ensures Inv() && Refs() == old(Refs())
    {
      AddFreeAgrees(mem[..], area[..], nrFree[..], own, maxOrder, pfn, order,
                    mem[pfn].(flags := BuddyHead, order := order));
      hide Agree, Retag;
      mem[pfn] := mem[pfn].(flags := BuddyHead, order := order);
      area[order] := area[order] + [pfn];
      nrFree[order] := nrFree[order] + 1;
      own := Retag(own, pfn, order, Free);
    }

    method RemoveFromFreeArea(pfn: nat, order: nat)
      requires Inv() && order <= maxOrder && IsBlock(own, Free, pfn, order)
      modifies mem, area, nrFree, this`own
      ensures pfn + Pow2(order) <= |old(own)| && own == Retag(old(own), pfn, order, Limbo)
      ensures Inv() && Refs() == old(Refs())
    {
      RemoveFreeAgrees(mem[..], area[..], nrFree[..], own, maxOrder, pfn, order,
                       mem[pfn].(flags := NoFlags, order := 0));
      hide Agree, Retag;
      area[order] := Unlink(area[order], pfn);
      nrFree[order] := nrFree[order] - 1;
      mem[pfn] := mem[pfn].(flags := NoFlags, order := 0);
      own := Retag(own, pfn, order, Limbo);
    }

    /** Splits the block in transit down to order low, freeing the upper halves. */
    method ExpandBlock(pfn: nat, high0: nat, low: nat) returns (r: nat)
      requires Inv() && low <= high0 <= maxOrder && IsBlock(own, Limbo, pfn, high0)
      modifies mem, area, nrFree, this`own
      ensures r == pfn && Inv() && Refs() == old(Refs()) && IsBlock(own, Limbo, pfn, low)
      ensures Shrunk(old(own), own, pfn, high0, low)
    {
      BlockFrames(own, maxOrder, Limbo, pfn, high0);
      hide Agree, Retag, Split;
      var high := high0;
      while high > low
        invariant low <= high <= high0 && Inv() && Refs() == old(Refs()) && IsBlock(own, Limbo, pfn, high)
        invariant Shrunk(old(own), own, pfn, high0, high)
      {
        var newOrder := high - 1;
        var rightPfn := pfn + Pow2(newOrder);
        Unfold(mem[..], area[..], nrFree[..], own, maxOrder);
        ShrinkStep(old(own), own, maxOrder, pfn, high0, newOrder);
        SplitConsistent(own, maxOrder, pfn, newOrder);
        SplitCoalesced(own, maxOrder, pfn, newOrder);
        SplitAgrees(mem[..], area[..], nrFree[..], own, maxOrder, pfn, newOrder);
        own := Split(own, pfn, newOrder);
        assert FlipBit(rightPfn, newOrder) == pfn && !IsBlock(own, Free, pfn, newOrder);
        hide IsBlock;
        AddToFreeArea(rightPfn, newOrder);
        high := newOrder;
      }
      r := pfn;
    }

    /** Nothing can be taken from a list: it is empty, or its first block begins behind the DMA zone, which
        is asked for. */
    predicate Skipped(list: seq<nat>, dmaOnly: bool) {
      list == [] || (dmaOnly && list[0] >= dmaEnd)
    }

    /** The first list, from the one of the order on, that something can be taken from. */
    predicate FirstListed(lists: seq<seq<nat>>, order: nat, k: int, dmaOnly: bool) {
      order <= k < |lists| && !Skipped(lists[k], dmaOnly) && forall j :: order <= j < k ==> Skipped(lists[j], dmaOnly)
    }

    /** Takes the first free block that is large enough; `total` means there is none. */
    method BuddyAllocPfn(order: nat, dmaOnly: bool) returns (pfn: nat)
      requires Inv() && order <= maxOrder
      modifies mem, area, nrFree, this`own
      ensures Inv() && Refs() == old(Refs()) && pfn <= total
      ensures pfn == total ==> own == old(own)
      ensures pfn == total && !dmaOnly ==> forall h: nat :: !FreeRun(own, h, order)
      ensures pfn == total <==> forall k :: order <= k <= maxOrder ==> Skipped(old(area[..])[k], dmaOnly)
      ensures pfn < total ==> exists k :: FirstListed(old(area[..]), order, k, dmaOnly) && pfn == old(area[..])[k][0]
      ensures pfn < total && dmaOnly ==> pfn < dmaEnd
      ensures pfn < total ==> Differ(old(own), own, Limbo, pfn, order)
    {
      hide Retag, Differ, Shrunk;
      ghost var lists := area[..];
      var cur := order;
      while cur <= maxOrder
        invariant order <= cur <= maxOrder + 1 && Inv() && own == old(own) && Refs() == old(Refs())
        invariant area[..] == lists && forall k :: order <= k < cur ==> Skipped(lists[k], dmaOnly)
      {
        Unfold(mem[..], area[..], nrFree[..], own, maxOrder);
        if area[cur] != [] && !(dmaOnly && area[cur][0] >= dmaEnd) {
          pfn := area[cur][0];
          assert FirstListed(lists, order, cur, dmaOnly) && pfn == lists[cur][0];
          ListHead(area[cur], own, cur);
          hide Agree;
          RemoveFromFreeArea(pfn, cur);
          RetagConsistent(old(own), maxOrder, pfn, cur, Free, Limbo);
          pfn := ExpandBlock(pfn, cur, order);
          ShrunkDiffers(old(own), own, maxOrder, pfn, cur, order);
          BlockInside(old(own), own, pfn, order);
          return;
        }
        cur := cur + 1;
      }
      if !dmaOnly {
        assert forall k :: order <= k <= maxOrder ==> Skipped(lists[k], false);
        NoRun(mem[..], area[..], nrFree[..], own, maxOrder, order);
      }
      return total;
    }

    /** Swallows free buddies of the block in transit as long as there are any. */
    method BuddyMergePfn(pfn0: nat, order0: nat) returns (pfn: nat, order: nat)
      requires Inv() && order0 <= maxOrder && IsBlock(own, Limbo, pfn0, order0)
      modifies mem, area, nrFree, this`own
      ensures Inv() && Refs() == old(Refs()) && order <= maxOrder && IsBlock(own, Limbo, pfn, order)
      ensures order < maxOrder ==> !IsBlock(own, Free, FlipBit(pfn, order), order)
      ensures Grown(old(own), own, pfn0, order0, pfn, order)
    {
      pfn, order := pfn0, order0;
      Unfold(mem[..], area[..], nrFree[..], own, maxOrder);
      BlockFrames(own, maxOrder, Limbo, pfn, order);
      hide Agree, Retag, Unite;
      while order < maxOrder
        invariant order0 <= order <= maxOrder && Inv() && Refs() == old(Refs()) && IsBlock(own, Limbo, pfn, order)
        invariant Grown(old(own), own, pfn0, order0, pfn, order)
      {
        var bpfn := FlipBit(pfn, order);
        if bpfn >= total {
          break;
        }
        BuddyFlag(mem[..], area[..], nrFree[..], own, maxOrder, bpfn);
        if mem[bpfn].flags != BuddyHead {
          break;
        }
        if mem[bpfn].order != order {
          break;
        }
        Unfold(mem[..], area[..], nrFree[..], own, maxOrder);
        GrowStep(old(own), own, maxOrder, pfn0, order0, pfn, order);
        TwoBlocks(own, maxOrder, pfn, order);
        RemoveFromFreeArea(bpfn, order);
        UniteAgrees(mem[..], area[..], nrFree[..], own, maxOrder, pfn, order);
        if bpfn < pfn {
          pfn := bpfn;
        }
        own := Unite(own, pfn, order);
        order := order + 1;
      }
    }

    /** Fails on a bad order, or when no block is found; otherwise hands out an aligned run of
        2^order free frames. Every other frame keeps its owner, though free frames may be regrouped. */
    method AllocPhysPages(order: nat, dma: bool) returns (pa: nat)
      requires Valid()
      modifies this, mem, area, nrFree
      ensures Valid()
      ensures order > maxOrder <==> lastError == BadOrder
      ensures pa == 0 <==> lastError != OK
      ensures pa == 0 ==> own == old(own) && Refs() == old(Refs())
      ensures pa == 0 && order <= maxOrder ==> lastError == NoMemory
      ensures order <= maxOrder && !dma ==> (pa == 0 <==> forall h: nat :: !FreeRun(old(own), h, order))
      ensures area.Length == maxOrder + 1
      ensures order <= maxOrder ==>
                (pa == 0 <==> forall k :: order <= k <= maxOrder ==> Skipped(old(area[..])[k], dma))
      ensures dma ==> (pa != 0 ==> PaToPfn(pa) < dmaEnd) && HeadsBelow(old(own), own, dmaEnd)
      ensures pa != 0 ==> var pfn := PaToPfn(pa);
                && pfn < total && pa == PfnToPa(pfn) == 0x4000_0000 + pfn * 0x1000 && FreeRun(old(own), pfn, order)
                && Differ(old(own), own, Used, pfn, order)
                && Refs() == old(Refs())[pfn := 1]
    {
      hide Agree, Differ, Retag, PaToPfn, PfnToPa, FreeRun, HeadsBelow;
      SameHeads(own, dmaEnd);
      Unfold(mem[..], area[..], nrFree[..], own, maxOrder);
      if order > maxOrder {
        lastError := BadOrder;
        return 0;
      }
      var pfn := BuddyAllocPfn(order, dma);
      if pfn >= total {
        lastError := NoMemory;
        return 0;
      }
      Unfold(mem[..], area[..], nrFree[..], own, maxOrder);
      Handed(old(own), own, maxOrder, pfn, order);
      UseAgrees(mem[..], area[..], nrFree[..], own, maxOrder, pfn, order, Limbo, Used,
                mem[pfn].(flags := AllocatedHead, order := order, refCount := 1));
      mem[pfn] := mem[pfn].(flags := AllocatedHead, order := order, refCount := 1);
      own := Retag(own, pfn, order, Used);
      lastError := OK;
      NewHead(old(own), own, pfn, order, dmaEnd);
      PfnInRange(pfn, total);
      PfnRoundTrip(pfn);
      return PfnToPa(pfn);
    }

    /** What is wrong with freeing the address pa as a block of the given order. */
    ghost function FreeError(pa: nat, order: nat): Error
      requires Inv()
      reads this, mem, area, nrFree
    {
      var pfn := PaToPfn(pa);
      if order > maxOrder then BadOrder
      else if !(PfnToPa(kernelPages) <= pa < PfnToPa(total)) then OutOfRange
      else if pa % PAGE_SIZE != 0 || !Aligned(pfn, order) then Unaligned
      else if pfn >= total then OutOfRange
      else if IsFree(own, pfn) && own[pfn].head == pfn then DoubleFree
      else if own[pfn].Reserved? || own[pfn].kind != Used || own[pfn].head != pfn then NotAllocated
      else if own[pfn].order != order then BadOrder
      else OK
    }

    /** Takes back exactly the head of a used block of that order; anything else is an error that
        changes nothing. The free blocks end up maximally merged. */
    method FreePhysPages(pa: nat, order: nat)
      requires Valid()
      modifies this, mem, area, nrFree
      ensures Valid() && Refs() == old(Refs())
      ensures lastError == old(FreeError(pa, order))
      ensures lastError != OK ==> own == old(own)
      ensures lastError == OK ==>
                IsBlock(old(own), Used, PaToPfn(pa), order) && Differ(own, old(own), Used, PaToPfn(pa), order)
    {
      hide Agree, Differ, Retag, PaToPfn, PfnToPa, Grown;
      if order > maxOrder {
        lastError := BadOrder;
        return;
      }
      if !(PfnToPa(kernelPages) <= pa < PfnToPa(total)) {
        lastError := OutOfRange;
        return;
      }
      if pa % PAGE_SIZE != 0 {
        lastError := Unaligned;
        return;
      }
      var pfn := PaToPfn(pa);
      if !Aligned(pfn, order) {
        lastError := Unaligned;
        return;
      }
      if pfn >= total {
        lastError := OutOfRange;
        return;
      }
      BuddyFlag(mem[..], area[..], nrFree[..], own, maxOrder, pfn);
      if mem[pfn].flags != AllocatedHead {
        lastError := if mem[pfn].flags == BuddyHead then DoubleFree else NotAllocated;
        return;
      }
      assert IsBlock(own, Used, pfn, mem[pfn].order);
      if mem[pfn].order != order {
        lastError := BadOrder;
        return;
      }
      Unfold(mem[..], area[..], nrFree[..], own, maxOrder);
      UseAgrees(mem[..], area[..], nrFree[..], own, maxOrder, pfn, order, Used, Limbo,
                mem[pfn].(flags := NoFlags, order := 0));
      mem[pfn] := mem[pfn].(flags := NoFlags, order := 0);
      own := Retag(own, pfn, order, Limbo);
      var merged, order' := BuddyMergePfn(pfn, order);
      Unfold(mem[..], area[..], nrFree[..], own, maxOrder);
      BlockFrames(own, maxOrder, Limbo, merged, order');
      Returned(old(own), own, maxOrder, pfn, order, merged, order');
      AddToFreeArea(merged, order');
      lastError := OK;
    }

    /** Freeing what was just allocated restores every block. */
    method AllocThenFree(order: nat, dma: bool) returns (pa: nat)
      requires Valid()
      modifies this, mem, area, nrFree
      ensures Valid() && own == old(own) && (pa != 0 ==> lastError == OK)
    {
      hide Agree, Differ, PaToPfn, PfnToPa, FreeRun;
      Unfold(mem[..], area[..], nrFree[..], own, maxOrder);
      pa := AllocPhysPages(order, dma);
      if pa != 0 {
        ghost var busy, pfn := own, PaToPfn(pa);
        Unfold(mem[..], area[..], nrFree[..], own, maxOrder);
        DifferBlock(old(own), own, Used, pfn, order);
        Freeable(own, maxOrder, kernelPages, pfn, order);
        FreePhysPages(pa, order);
        Unfold(mem[..], area[..], nrFree[..], own, maxOrder);
        FreeUndoesAlloc(old(own), busy, own, maxOrder, pfn, order);
      }
    }

    /** Frees the given blocks one by one. When the heads are those of all live blocks, in any
        order, this restores the blocks that initialisation made. */
    method FreeAll(heads: seq<nat>)
      requires Valid() && (forall i, j :: 0 <= i < j < |heads| ==> heads[i] != heads[j])
      requires forall h: nat :: h in heads <==> UsedHead(own, h)
      modifies this, mem, area, nrFree
      ensures Valid() && Refs() == old(Refs()) && Initial(own, kernelPages, maxOrder)
      ensures forall o: Own :: |o| == total && Initial(o, kernelPages, maxOrder) ==> o == own
    {
      hide Agree, Differ, PaToPfn, PfnToPa, UsedHead, Initial;
      for i := 0 to |heads|
        invariant Valid() && Refs() == old(Refs())
        invariant forall h: nat :: h in heads[i..] <==> UsedHead(own, h)
      {
        ghost var busy := own;
        var pfn := heads[i];
        assert UsedHead(own, pfn) by { assert heads[i..][0] == pfn; }
        HeadOrder(mem[..], area[..], nrFree[..], own, maxOrder, pfn);
        var order := mem[pfn].order;
        Unfold(mem[..], area[..], nrFree[..], own, maxOrder);
        PfnInRange(pfn, total);
        PfnRoundTrip(pfn);
        Freeable(own, maxOrder, kernelPages, pfn, order);
        FreePhysPages(PfnToPa(pfn), order);
        OneHeadLess(own, busy, maxOrder, pfn, order);
        RestHeads(heads, i, pfn);
      }
      Unfold(mem[..], area[..], nrFree[..], own, maxOrder);
      NothingUsed(own, kernelPages, maxOrder);
      InitialUnique(own, kernelPages, maxOrder);
    }

    method GetPage(pa: nat)
      requires Valid()
      modifies mem
      ensures Valid() && own == old(own)
      ensures var pfn := PaToPfn(pa);
              Refs() == if pfn >= total then old(Refs()) else old(Refs())[pfn := old(Refs())[pfn] + 1]
    {
      hide Agree, PaToPfn;
      var pfn := PaToPfn(pa);
      if pfn >= total {
        return;
      }
      SameMeta(mem[..], area[..], nrFree[..], own, maxOrder, pfn, mem[pfn].(refCount := mem[pfn].refCount + 1));
      mem[pfn] := mem[pfn].(refCount := mem[pfn].refCount + 1);
    }

    /** Drops one reference; the last one frees the frame, if it is the head of a used single frame. */
    method PutPage(pa: nat)
      requires Valid()
      modifies this, mem, area, nrFree
      ensures Valid()
      ensures var pfn := PaToPfn(pa);
              if pfn >= total || old(Refs())[pfn] == 0 then Refs() == old(Refs()) && own == old(own)
              else
                && Refs() == old(Refs())[pfn := old(Refs())[pfn] - 1]
                && if old(Refs())[pfn] == 1 && old(FreeError(pa, 0)) == OK
                   then IsBlock(old(own), Used, pfn, 0) && Differ(own, old(own), Used, pfn, 0)
                   else own == old(own)
    {
      hide Agree, PaToPfn, Differ;
      var pfn := PaToPfn(pa);
      if pfn >= total {
        return;
      }
      if mem[pfn].refCount == 0 {
        return;
      }
      SameMeta(mem[..], area[..], nrFree[..], own, maxOrder, pfn, mem[pfn].(refCount := mem[pfn].refCount - 1));
      mem[pfn] := mem[pfn].(refCount := mem[pfn].refCount - 1);
      if mem[pfn].refCount == 0 {
        FreePhysPages(pa, 0);
      }
    }

    /** The statistic summed over the lists is the number of free frames. */
    method BuddyNrFreePagesTotal() returns (sum: nat)
      requires Valid()
      ensures sum == |FreeFrames(own)|
    {
      sum := 0;
      assert FreeBelow(own, 0) == {};
      for order := 0 to maxOrder + 1
        invariant sum == |FreeBelow(own, order)|
      {
        CountStep(mem[..], area[..], nrFree[..], own, maxOrder, order);
        sum := sum + nrFree[order] * Pow2(order);
      }
      Unfold(mem[..], area[..], nrFree[..], own, maxOrder);
      assert FreeBelow(own, maxOrder + 1) == FreeFrames(own);
    }
  }

  /** With two frames, the block of both begins in the DMA zone and ends behind it, and is handed out. */
  method BlockCrossesZone() returns (b: BuddyAllocator, pa: nat)
    ensures fresh(b) && b.Valid() && pa != 0 && PaToPfn(pa) < b.dmaEnd < PaToPfn(pa) + Pow2(1)
    ensures IsBlock(b.own, Used, PaToPfn(pa), 1)
  {
    hide Agree, PaToPfn, Differ, FreeRun, HeadsBelow, Initial;
    b := new BuddyAllocator(2, 0, 1);
    ghost var own0 := b.own;
    assert InDmaZone(2, 0, 0) && !InDmaZone(2, 0, 1);
    BothFrames(own0);
    Unfold(b.mem[..], b.area[..], b.nrFree[..], b.own, 1);
    OnList(b.mem[..], b.area[..], b.nrFree[..], own0);
    pa := b.AllocPhysPages(1, true);
    Unfold(b.mem[..], b.area[..], b.nrFree[..], b.own, 1);
    DifferBlock(own0, b.own, Used, PaToPfn(pa), 1);
  }

  lemma {:induction false} BothFrames(own: Own)
    requires |own| == 2 && Initial(own, 0, 1)
    ensures IsBlock(own, Free, 0, 1)
  {
    assert Aligned(0, 1);
    assert FreeRun(own, 0, 1);
    var g, j := RunInBlock(own, 1, 0, 1);
  }

  lemma {:induction false} OnList(mem: seq<Page>, area: seq<seq<nat>>, nrFree: seq<nat>, own: Own)
    requires Agree(mem, area, nrFree, own, 1) && IsBlock(own, Free, 0, 1) && |own| == 2
    ensures |area| == 2 && area[1] != [] && area[1][0] == 0
  {
    assert ListOk(area[1], own, 1);
    assert 0 in area[1] && area[1][0] in area[1];
    assert IsBlock(own, Free, area[1][0], 1);
    BlockFrames(own, 1, Free, area[1][0], 1);
  }
}
