/** The allocator of kernel virtual address ranges. */
module Vmap {
  import opened Common
  import opened VmapModel

  class VmapManager {
    const lo: nat
    const hi: nat
    var freeList: seq<VmapArea>
    var busyList: seq<VmapArea>
    /** The red-black tree: its areas, each with the key it was inserted under. */
    var tree: map<VmapArea, Key>
    ghost var areas: set<VmapArea>
    ghost var layout: seq<VmapArea>

    ghost function View(): Spans
      reads this, areas
    {
      SpansOf(areas)
    }

    /** Some areas may be in hand, between the lists. */
    ghost predicate Inv(hand: set<VmapArea>)
      reads this, areas
    {
      Consistent(View(), layout, freeList, busyList, tree, hand, lo, hi)
    }

    ghost predicate Valid()
      reads this, areas
    {
      Inv({})
    }

    /** The free ranges. */
    ghost function Free(): set<Span>
      reads this, areas
    {
      FreeSpans(View(), tree)
    }

    /** The ranges handed out. */
    ghost function Busy(): set<Span>
      reads this, areas
    {
      BusySpans(View(), busyList)
    }

    /** In every state the free and the busy ranges tile the whole range; the free list is in the order
        of the addresses, it holds the areas of the tree, and each is in the tree under its own key. */
    lemma {:induction false} Tiled()
      requires Valid()
      ensures Tiles(Free() + Busy(), lo, hi) && Free() !! Busy()
      ensures Elements(freeList) == tree.Keys
      ensures forall i, j :: 0 <= i < j < |freeList| ==> freeList[i].end <= freeList[j].start
      ensures forall a :: a in tree ==> a in areas && tree[a] == KeyOf(Span(a.start, a.end))
    {
      AllTiled(View(), layout, freeList, busyList, tree, lo, hi);
      ListFacts(View(), layout, freeList, busyList, tree, {}, lo, hi);
    }

    /** va_manager_init: one free area, the whole range. */
    constructor (lo: nat, hi: nat)
      requires 0 < lo < hi && lo % VA_ALIGN_DEFAULT == 0 && hi % VA_ALIGN_DEFAULT == 0
      ensures this.lo == lo && this.hi == hi && Valid() && fresh(areas)
      ensures Free() == {Span(lo, hi)} && Busy() == {} && busyList == []
    {
      this.lo, this.hi := lo, hi;
      var init := new VmapArea(lo, hi);
      freeList, busyList, tree := [init], [], map[init := Key(hi - lo, lo)];
      areas, layout := {init}, [init];
      new;
      OneArea(View(), init, tree, lo, hi);
    }

    /** rb_tree_insert, into a tree that does not hold the area. */
    method TreeInsert(a: VmapArea)
      requires a !in tree
      modifies this`tree
      ensures tree == old(tree)[a := KeyOf(Span(a.start, a.end))]
    {
      tree := tree[a := KeyOf(Span(a.start, a.end))];
    }

    /** rb_tree_search: an area inserted under the key, or null. */
    method TreeSearch(key: Key) returns (a: VmapArea?)
      ensures a == null ==> forall x :: x in tree ==> tree[x] != key
      ensures a != null ==> a in tree && tree[a] == key
    {
      if x: VmapArea :| x in tree && tree[x] == key {
        return x;
      }
      return null;
    }

    /** va_insert_free: into the list in front of the first area with a higher start, and into the
        tree. */
    method VaInsertFree(a: VmapArea, ghost hand: set<VmapArea>)
      requires Inv(hand) && a in hand && a in areas
      modifies this`freeList, this`tree
      ensures Inv(hand - {a}) && Free() == old(Free()) + {Span(a.start, a.end)} && Busy() == old(Busy())
    {
      hide Chained, Listed, KeyOf, FreeSpans, BusySpans;
      InTreeHand(View(), layout, freeList, busyList, tree, hand, lo, hi);
      var i := 0;
      while i < |freeList| && freeList[i].start <= a.start
        invariant i <= |freeList| && forall j :: 0 <= j < i ==> freeList[j].start <= a.start
      {
        i := i + 1;
      }
      FreePut(View(), layout, freeList, busyList, tree, hand, lo, hi, a, i);
      FreeSpansMore(View(), tree, a, KeyOf(Span(a.start, a.end)));
      freeList := freeList[..i] + [a] + freeList[i..];
      TreeInsert(a);
    }

    /** va_remove_free. */
    method VaRemoveFree(a: VmapArea, ghost hand: set<VmapArea>)
      requires Inv(hand) && a in tree && a in areas
      modifies this`freeList, this`tree
      ensures Inv(hand + {a}) && Free() == old(Free()) - {Span(a.start, a.end)} && Busy() == old(Busy())
    {
      hide Chained, Listed, KeyOf, FreeSpans, BusySpans;
      FreeTaken(View(), layout, freeList, busyList, tree, hand, lo, hi, a);
      FreeSpansLess(View(), layout, lo, hi, tree, a);
      tree := tree - {a};
      freeList := Unlink(freeList, a);
    }

    /** The loop over the free list: the smallest area that is large enough, the first of several. */
    method ScanFree(size: nat) returns (best: VmapArea?, ghost k: nat)
      ensures best == null ==> forall j :: 0 <= j < |freeList| ==> freeList[j].start + size > freeList[j].end
      ensures best != null ==> k < |freeList| && freeList[k] == best && best.start + size <= best.end
      ensures best != null ==> forall j :: 0 <= j < |freeList| && freeList[j].start + size <= freeList[j].end ==>
                best.end - best.start < freeList[j].end - freeList[j].start
                || (best.end - best.start == freeList[j].end - freeList[j].start && k <= j)
    {
      best, k := null, 0;
      for i := 0 to |freeList|
        invariant best == null ==> forall j :: 0 <= j < i ==> freeList[j].start + size > freeList[j].end
        invariant best != null ==> k < i && freeList[k] == best && best.start + size <= best.end
        invariant best != null ==> forall j :: 0 <= j < i && freeList[j].start + size <= freeList[j].end ==>
                    best.end - best.start < freeList[j].end - freeList[j].start
                    || (best.end - best.start == freeList[j].end - freeList[j].start && k <= j)
      {
        var va := freeList[i];
        if va.start + size <= va.end {
          if best == null || va.end - va.start < best.end - best.start {
            best, k := va, i;
          }
        }
      }
    }

    /** va_find_best_fit: the exact search of the tree never finds anything, because no area starts
        at address 0; the loop over the list then finds the smallest area that is large enough, the
        lowest of several. */
    method VaFindBestFit(size: nat) returns (best: VmapArea?)
      requires Valid()
      ensures best == null ==> NoneFits(Free(), size)
      ensures best != null ==> best in tree && best in areas && BestFit(Free(), size, Span(best.start, best.end))
    {
      hide Consistent, FreeSpans, Ordered;
      ListFacts(View(), layout, freeList, busyList, tree, {}, lo, hi);
      best := TreeSearch(Key(size, 0));
      if best != null {
        return;
      }
      ghost var k;
      best, k := ScanFree(size);
      if best == null {
        NoneInList(View(), freeList, tree, size);
      } else {
        BestInList(View(), freeList, tree, size, k, hi);
      }
    }

    /** An area in hand ends at mid, and another takes what lies behind. If nothing lies before mid, the
        first is no longer one of the areas that make up the range. */
    method Shorten(va: VmapArea, mid: nat, ghost remain: VmapArea)
      requires Inv({va}) && va in areas && va.start <= mid < va.end && mid % VA_ALIGN_DEFAULT == 0
      requires remain !in areas && remain.start == mid && remain.end == va.end
      modifies this`areas, this`layout, va`end
      ensures va.end == mid && areas == (if va.start < mid then old(areas) else old(areas) - {va}) + {remain}
      ensures Inv((if va.start < mid then {va} else {}) + {remain})
      ensures Free() == old(Free()) && Busy() == old(Busy())
    {
      hide Chained, Listed, Keyed, KeyOf, FreeSpans, BusySpans;
      InTreeHand(View(), layout, freeList, busyList, tree, {va}, lo, hi);
      ghost var m: Spans := View();
      NotListed(freeList, busyList, tree, m, {va}, va, remain);
      va.end := mid;
      if va.start < mid {
        layout := AreaSplit(m, layout, freeList, busyList, tree, {va}, lo, hi, va, remain, mid);
        areas := areas + {remain};
        assert View() == m[va := Span(va.start, mid)][remain := Span(mid, remain.end)];
      } else {
        layout := AreaReplaced(m, layout, freeList, busyList, tree, {va}, lo, hi, va, remain);
        areas := areas - {va} + {remain};
        assert View() == (m - {va})[remain := m[va]];
        assert {va} - {va} + {remain} == {} + {remain};
      }
      SpansSame(m, View(), tree, busyList);
    }

    /** Cuts what lies behind mid off an area in hand and makes it a free area. If nothing lies before mid
        the area in hand is left empty, and no longer one of the areas that make up the range. */
    method SplitOff(va: VmapArea, mid: nat)
      requires Inv({va}) && va in areas && va.start <= mid < va.end && mid % VA_ALIGN_DEFAULT == 0
      modifies this`freeList, this`tree, this`areas, this`layout, va`end
      ensures va.start == old(va.start) && va.end == mid && fresh(areas - old(areas))
      ensures Inv(if va.start < mid then {va} else {}) && (va in areas <==> va.start < mid)
      ensures Free() == old(Free()) + {Span(mid, old(va.end))} && Busy() == old(Busy())
    {
      hide Consistent, FreeSpans, BusySpans;
      var remain := new VmapArea(mid, va.end);
      Shorten(va, mid, remain);
      ghost var kept: set<VmapArea> := if va.start < mid then {va} else {};
      assert kept + {remain} - {remain} == kept;
      VaInsertFree(remain, kept + {remain});
    }

    /** va_alloc with page alignment; `memory` says whether there is memory for another area. For sizes
        whose rounding does not wrap around it fails exactly if the size is zero or no free range is large
        enough; otherwise the best-fitting range is taken, and what is left of it is free again if it is
        more than a page. A larger size is taken for zero: then it fails only if nothing is free, and the
        smallest free range, if it is more than a page and there is memory for another area, stays free
        while an empty area at its start becomes busy. */
    method VaAlloc(size: nat, flags: nat, memory: bool) returns (addr: nat, ghost area: Span, ghost given: Span)
      requires Valid() && size < TWO64
      modifies this, areas
      ensures fresh(areas - old(areas)) && (given.lo < given.hi || addr == 0 ==> Valid())
      ensures addr == 0 <==> size == 0 || NoneFits(old(Free()), MachineRounded(size))
      ensures addr == 0 ==> Free() == old(Free()) && Busy() == old(Busy())
      ensures addr != 0 ==>
                && BestFit(old(Free()), MachineRounded(size), area) && addr == area.lo == given.lo
                && (var split := memory && area.lo + MachineRounded(size) + VA_ALIGN_DEFAULT < area.hi;
                    given.hi == if split then area.lo + MachineRounded(size) else area.hi)
                && Free() == old(Free()) - {area} + (if given.hi < area.hi then {Span(given.hi, area.hi)} else {})
                && if given.lo < given.hi then Busy() == old(Busy()) + {given}
                   else EmptyBusy(old(busyList), addr) && Busy() == old(Busy())
      ensures size + VA_ALIGN_DEFAULT <= TWO64 ==> Valid() && MachineRounded(size) == Rounded(size)
    {
      hide Chained, Listed, Keyed, KeyOf, FreeSpans, BusySpans, BestFit, NoneFits, Rounded, MachineRounded;
      addr, area, given := 0, Span(0, 0), Span(0, 0);
      RoundsUpExactly(size);
      if size == 0 {
        return;
      }
      var rounded := MachineRounded(size);
      var va := VaFindBestFit(rounded);
      if va == null {
        return;
      }
      AreaBounds(View(), layout, freeList, busyList, tree, {}, lo, hi, va);
      FitIsFit(Free(), rounded, Span(va.start, va.end));
      area := Span(va.start, va.end);
      VaRemoveFree(va, {});
      // The start is a page address, so nothing is cut off in front.
      var alignedStart := Rounded(va.start);
      assert alignedStart == va.start by { RoundedPage(va.start); }
      assert {} + {va} == {va};
      if va.end - va.start > rounded + VA_ALIGN_DEFAULT && memory {
        SumOfPages(va.start, rounded);
        SplitOff(va, va.start + rounded);
      }
      given := Span(va.start, va.end);
      NowBusy(va, flags);
      addr := va.start;
    }

    /** The busy list is as it was but for an area in front that is empty. */
    ghost predicate EmptyBusy(busy: seq<VmapArea>, addr: nat)
      reads this, busyList
    {
      busyList != [] && busyList[1..] == busy && busyList[0].start == busyList[0].end == addr
    }

    /** An area in hand goes to the front of the busy list. */
    method NowBusy(va: VmapArea, flags: nat)
      requires if va in areas then Inv({va}) else Valid()
      modifies this`busyList, va`flags
      ensures busyList == [va] + old(busyList) && Free() == old(Free())
      ensures va in areas ==> Valid() && Busy() == old(Busy()) + {Span(va.start, va.end)}
      ensures va !in areas ==> Busy() == old(Busy())
    {
      hide Chained, Listed, Keyed, FreeSpans, BusySpans;
      va.flags := flags;
      assert View() == old(View());
      BusySpansMore(View(), busyList, va);
      if va in areas {
        BusyPut(View(), layout, freeList, busyList, tree, {va}, lo, hi, va);
        assert {va} - {va} == {};
      }
      busyList := [va] + busyList;
    }

    /** va_find_by_addr: the busy area that starts at addr. */
    method VaFindByAddr(addr: nat) returns (va: VmapArea?)
      ensures va == null ==> forall j :: 0 <= j < |busyList| ==> busyList[j].start != addr
      ensures va != null ==> va in busyList && va.start == addr
    {
      for i := 0 to |busyList|
        invariant forall j :: 0 <= j < i ==> busyList[j].start != addr
      {
        if busyList[i].start == addr {
          return busyList[i];
        }
      }
      return null;
    }

    /** va_find_prev_free: the last free area before addr. If a free area ends at addr, it is that
        one. */
    method VaFindPrevFree(addr: nat) returns (prev: VmapArea?)
      requires forall i :: 0 <= i < |freeList| ==> freeList[i].start < freeList[i].end
      requires forall i, j :: 0 <= i < j < |freeList| ==> freeList[i].end <= freeList[j].start
      ensures prev != null ==> prev in freeList && prev.end <= addr
      ensures forall j :: 0 <= j < |freeList| && freeList[j].end == addr ==> prev == freeList[j]
    {
      prev := null;
      var i := 0;
      while i < |freeList| && freeList[i].end <= addr
        invariant i <= |freeList| && forall j :: 0 <= j < i ==> freeList[j].end <= addr
        invariant if i == 0 then prev == null else prev == freeList[i - 1]
      {
        prev := freeList[i];
        i := i + 1;
      }
    }

    /** va_find_next_free: the first free area that starts beyond addr. */
    method VaFindNextFree(addr: nat) returns (next: VmapArea?)
      ensures next == null <==> forall j :: 0 <= j < |freeList| ==> freeList[j].start <= addr
      ensures next != null ==> next in freeList && next.start > addr
    {
      for i := 0 to |freeList|
        invariant forall j :: 0 <= j < i ==> freeList[j].start <= addr
      {
        if freeList[i].start > addr {
          return freeList[i];
        }
      }
      return null;
    }

    /** A free area that ends where an area in hand starts takes it in, and is in hand in its place. */
    method MergeInto(prev: VmapArea, va: VmapArea)
      requires Inv({va}) && va in areas && prev in areas && prev in tree && prev.end == va.start
      modifies this`freeList, this`tree, this`areas, this`layout, prev`end
      ensures Inv({prev}) && prev in areas && prev.start == old(prev.start) && prev.end == va.end == old(va.end)
      ensures areas <= old(areas)
      ensures Free() == old(Free()) - {old(Span(prev.start, prev.end))} && Busy() == old(Busy())
    {
      hide Chained, Listed, Keyed, KeyOf, FreeSpans, BusySpans;
      VaRemoveFree(prev, {va});
      InTreeHand(View(), layout, freeList, busyList, tree, {va} + {prev}, lo, hi);
      ghost var m := View();
      ghost var l := AreasMerged(m, layout, freeList, busyList, tree, {va} + {prev}, lo, hi, prev, va);
      prev.end := va.end;
      areas, layout := areas - {va}, l;
      assert View() == m[prev := Span(prev.start, va.end)] - {va};
      NotListed2(busyList, tree, m, {va} + {prev}, va, prev);
      SpansSame(m, View(), tree, busyList);
      assert {va} + {prev} - {va} == {prev};
    }

    /** A busy area is taken off its list. */
    method TakeBusy(va: VmapArea)
      requires Valid() && va in busyList && va in areas
      modifies this`busyList
      ensures Inv({va}) && Free() == old(Free()) && Busy() == old(Busy()) - {Span(va.start, va.end)}
    {
      hide Chained, Keyed, FreeSpans, BusySpans, Unlink, Sub, Distinct, Elements;
      BusyTaken(View(), layout, freeList, busyList, tree, {}, lo, hi, va);
      BusySpansLess(View(), layout, lo, hi, busyList, va);
      assert {} + {va} == {va};
      busyList := Unlink(busyList, va);
    }

    /** The step of va_free that joins an area taken off the busy list to the free range before it. */
    method JoinPrev(va: VmapArea) returns (toInsert: VmapArea)
      requires Inv({va}) && va in areas
      modifies this`freeList, this`tree, this`areas, this`layout, areas
      ensures Inv({toInsert}) && toInsert in areas && areas <= old(areas) && Busy() == old(Busy())
      ensures Free() + {Span(toInsert.start, toInsert.end)} == Joined(old(Free()), old(Span(va.start, va.end)))
    {
      hide Consistent, KeyOf, FreeSpans, BusySpans, Joined;
      ListFacts(View(), layout, freeList, busyList, tree, {va}, lo, hi);
      FromList(View(), freeList, tree);
      FreeEnds(View(), layout, freeList, busyList, tree, {va}, lo, hi);
      toInsert := va;
      var prev := VaFindPrevFree(toInsert.start);
      if prev != null && prev.end == toInsert.start {
        JoinedAt(Free(), Span(va.start, va.end), Span(prev.start, prev.end));
        MergeInto(prev, toInsert);
        toInsert := prev;
      } else {
        JoinedNone(Free(), Span(va.start, va.end));
      }
    }

    /** va_free. An address no busy range starts at is ignored; otherwise the range is free again,
        joined to the free range before it, but never to the one behind it. */
    method VaFree(addr: nat)
      requires Valid()
      modifies this, areas
      ensures Valid() && areas <= old(areas)
      ensures (forall b :: b in old(Busy()) ==> b.lo != addr) ==> Free() == old(Free()) && Busy() == old(Busy())
      ensures forall b ::
                b in old(Busy()) && b.lo == addr ==> Busy() == old(Busy()) - {b} && Free() == Joined(old(Free()), b)
      ensures forall b :: b in old(Busy()) && b.lo == addr ==>
                (NoneTouch(Free()) <==> NoneTouch(old(Free())) && forall s :: s in old(Free()) ==> s.lo != b.hi)
    {
      hide Consistent, FreeSpans, BusySpans, Joined, NoneTouch, Tiles;
      Tiled();
      forall b | b in Busy()
        ensures NoneTouch(Joined(Free(), b)) <==> NoneTouch(Free()) && forall s :: s in Free() ==> s.lo != b.hi
      {
        TouchExactly(Free(), Busy(), b, lo, hi);
      }
      BusyFacts(View(), layout, freeList, busyList, tree, {}, lo, hi);
      if addr == 0 {
        return;
      }
      var va := VaFindByAddr(addr);
      if va == null {
        return;
      }
      TakeBusy(va);
      var toInsert := JoinPrev(va);
      var next := VaFindNextFree(toInsert.end);
      // A free range that starts where this one ends is never found: the search wants a higher start.
      assert !(next != null && toInsert.end == next.start);
      assert {toInsert} - {toInsert} == {};
      VaInsertFree(toInsert, {toInsert});
    }
  }

  lemma {:induction false} WholeFits(lo: nat, hi: nat, size: nat)
    requires lo + size <= hi
    ensures !NoneFits({Span(lo, hi)}, size)
  {
    assert Span(lo, hi) in {Span(lo, hi)};
  }

  lemma {:induction false} OnlyFit(lo: nat, hi: nat, size: nat, s: Span)
    requires BestFit({Span(lo, hi)}, size, s)
    ensures s == Span(lo, hi)
  {
  }

  /** Taking one page of a fresh range. */
  method TakeOnePage(lo: nat, hi: nat) returns (m: VmapManager, addr: nat)
    requires 0 < lo && lo + 2 * VA_ALIGN_DEFAULT < hi <= 0x8000_0000_0000_0000 && lo % VA_ALIGN_DEFAULT == 0
    requires hi % VA_ALIGN_DEFAULT == 0
    ensures fresh(m) && fresh(m.areas) && m.Valid() && addr == lo
    ensures m.Busy() == {Span(lo, lo + VA_ALIGN_DEFAULT)} && m.Free() == {Span(lo + VA_ALIGN_DEFAULT, hi)}
  {
    hide Consistent, FreeSpans, BusySpans, Rounded, BestFit, NoneFits;
    m := new VmapManager(lo, hi);
    RoundedPage(VA_ALIGN_DEFAULT);
    WholeFits(lo, hi, VA_ALIGN_DEFAULT);
    ghost var area, given;
    addr, area, given := m.VaAlloc(VA_ALIGN_DEFAULT, 0, true);
    OnlyFit(lo, hi, VA_ALIGN_DEFAULT, area);
  }

  /** A request for almost the whole address space succeeds and hands out nothing. */
  method HandsOutNothing(lo: nat, hi: nat) returns (m: VmapManager, addr: nat)
    requires 0 < lo && lo + VA_ALIGN_DEFAULT < hi && lo % VA_ALIGN_DEFAULT == 0 && hi % VA_ALIGN_DEFAULT == 0
    ensures fresh(m) && addr == lo && m.EmptyBusy([], lo) && m.Free() == {Span(lo, hi)} && m.Busy() == {}
  {
    hide Consistent, FreeSpans, BusySpans, Rounded, MachineRounded, BestFit, NoneFits;
    m := new VmapManager(lo, hi);
    RoundsUpExactly(TWO64 - 1);
    WholeFits(lo, hi, 0);
    ghost var area, given;
    addr, area, given := m.VaAlloc(TWO64 - 1, 0, true);
    OnlyFit(lo, hi, 0, area);
    assert given == Span(lo, lo);
  }

  /** Neither of two ranges fits. */
  lemma {:induction false} NeitherFits(s: Span, t: Span, size: nat)
    requires s.lo + size > s.hi && t.lo + size > t.hi
    ensures NoneFits({s, t}, size)
  {
  }

  /** Ranges are not joined to what lies behind them: after one page has been taken and given back,
      nothing is in use, and yet a range as long as the whole cannot be had. */
  method OnePageFragments(lo: nat, hi: nat) returns (m: VmapManager, addr: nat)
    requires 0 < lo && lo + 2 * VA_ALIGN_DEFAULT < hi <= 0x8000_0000_0000_0000 && lo % VA_ALIGN_DEFAULT == 0
    requires hi % VA_ALIGN_DEFAULT == 0
    ensures fresh(m) && m.Valid() && m.Busy() == {} && addr == 0
    ensures m.Free() == {Span(lo, lo + VA_ALIGN_DEFAULT), Span(lo + VA_ALIGN_DEFAULT, hi)}
  {
    hide Consistent, FreeSpans, BusySpans, Rounded, BestFit, Joined, NoneFits;
    m, addr := TakeOnePage(lo, hi);
    ghost var given := Span(lo, lo + VA_ALIGN_DEFAULT);
    JoinedNone({Span(lo + VA_ALIGN_DEFAULT, hi)}, given);
    assert given in m.Busy();
    m.VaFree(addr);
    assert m.Busy() == {} && m.Free() == {given, Span(lo + VA_ALIGN_DEFAULT, hi)};
    NeitherFits(given, Span(lo + VA_ALIGN_DEFAULT, hi), Rounded(hi - lo));
    ghost var area, given';
    addr, area, given' := m.VaAlloc(hi - lo, 0, true);
  }
}
