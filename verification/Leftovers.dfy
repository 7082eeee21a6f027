/** Inputs on which operations leave something behind: a page without an owner, a mapping without an area. */
module Leftovers {
  import opened Common
  import opened PageTableModel
  import opened PageTableSteps
  import opened PageTableTrees
  import opened PageTables
  import opened ForkIsolation
  import opened ForkedProcess
  import opened MmStruct

  /** A page with an owner but no mapping is not free. */
  lemma {:induction false} HeldNotFree(mem: Memory, free: set<nat>, refs: map<nat, nat>, at: Tables, flat: Leaves,
                                       held: multiset<nat>, pa: nat)
    requires Good(mem, free, refs, at, flat, held) && held[pa] > 0
    ensures pa !in free
  {
    hide Tree, PhysBits;
  }

  lemma {:induction false} NoMapper(k: Pos, page: nat, prot: Prot, pa: nat)
    requires pa != page
    ensures Count(map[k := Present(page, prot)], pa) == 0
  {
    assert Mappers(map[k := Present(page, prot)], pa) == {};
  }

  /** A process reads from the page it has mapped, and the access faults: the page is replaced by a zeroed
      one, and is from then on neither mapped nor free. */
  method ReadFaultLeaks() returns (m: PageTableManager, ghost k: Pos, ghost pa: nat)
    ensures fresh(m) && m.Inv() && k == LeafOf(m.ttbr0, 0) && k in m.flat && m.flat[k].Present? && m.flat[k].pa != pa
    ensures pa in m.refs && pa !in m.free && Count(m.flat, pa) == 0 && m.held[pa] > 0
  {
    hide Good, PhysBits, Walk, Path, UserPages, Zeros, UseKept, RootsKept, EnoughForPage, Seen, Count, TablesBelow,
         BytesAt, HeldAfterFault, Finds;
    m, k, pa := OnePageProcess();
    ghost var root, held := m.ttbr0, m.held;
    NoFreeFrame(m.mem, m.free, m.refs, m.at, m.flat, m.held, root, 0);
    MappedPage(m.mem, m.free, m.refs, m.at, m.flat, m.held, k);
    assert m.flat[k].pa == pa;
    Overwritten(held, m.refs, m.flat, k);
    var r;
    ghost var page;
    r, page := m.PageFaultHandler(0, [], true, true, true, false, false, seq(PAGE_SIZE, _ => 0));
    HeldNotFree(m.mem, m.free, m.refs, m.at, m.flat, m.held, pa);
    assert m.flat == map[k := Present(page, PAGE_USER_RW)];
    NoMapper(k, page, PAGE_USER_RW, pa);
  }

  lemma {:induction false} Overwritten(held: multiset<nat>, refs: map<nat, nat>, flat: Leaves, k: Pos)
    requires k in flat && flat[k].Present? && flat[k].pa in refs
    ensures forall refs': map<nat, nat> :: refs'.Keys == refs.Keys ==>
              HeldAfterFault(held, refs', flat, k)[flat[k].pa] > 0
  {
  }

  ghost function Missing(at: Tables, root: nat, addr: nat, n: nat): nat {
    |TablesFor(root, addr, n) - at.Keys|
  }

  /** No more than three tables are missing for each page. */
  lemma {:induction false} ThreePerPage(at: Tables, root: nat, addr: nat, n: nat)
    ensures Missing(at, root, addr, n) <= 3 * n
  {
    hide Missing;
    if n == 0 {
      NoneMissing(at, root, addr);
    } else {
      ThreePerPage(at, root, addr, n - 1);
      NextThree(at, root, addr, n - 1);
    }
  }

  lemma {:induction false} NoneMissing(at: Tables, root: nat, addr: nat)
    ensures Missing(at, root, addr, 0) == 0
  {
    assert TablesFor(root, addr, 0) - at.Keys == {};
  }

  lemma {:induction false} NextThree(at: Tables, root: nat, addr: nat, n: nat)
    ensures Missing(at, root, addr, n + 1) <= Missing(at, root, addr, n) + 3
  {
    OneMoreTable(root, addr, n);
    ThreeTables(root, PageAddr(addr, n));
    hide TablesFor, Path, PageAddr;
    SumAtMost(TablesFor(root, addr, n), Path(root, PageAddr(addr, n)), at.Keys);
  }

  lemma {:induction false} ThreeTables(root: nat, va: nat)
    ensures |Path(root, va)| <= 3
  {
    hide Walk;
  }

  lemma {:induction false} SumAtMost<T>(a: set<T>, b: set<T>, c: set<T>)
    ensures |(a + b) - c| <= |a - c| + |b|
  {
    assert (a + b) - c == (a - c) + (b - c - (a - c));
    Smaller(b - c - (a - c), b);
  }

  const PAGES_AT: nat := 0x1000

  lemma {:induction false} TwoPages(root: nat)
    ensures OneHalf(PAGES_AT, 2) && OneHalf(PAGES_AT, 1) && IsUserAddr(PAGES_AT) && Canonical(PAGES_AT)
    ensures PageUp(8192) == 8192 && PageUp(4096) == 4096 && PagesCut(PAGES_AT, 4096, PAGES_AT + 8192) == 1
    ensures Walk(root, PAGES_AT + 4096, 4) in Places(root, PAGES_AT, 2)
    ensures Canonical(PAGES_AT + 4096) && IsUserAddr(PAGES_AT + 4096)
    ensures InOneHalf(MmStruct.Vma(PAGES_AT, PAGES_AT + 8192, WithAnon(0)))
  {
    assert PageAddr(PAGES_AT, 1) == PAGES_AT + 4096;
  }

  lemma {:induction false} NoAreas()
    ensures Sound(map[]) && Unused(map[], PAGES_AT, PAGES_AT + 8192)
  {
  }

  lemma {:induction false} OnlyArea(a: MmStruct.Vma)
    requires a.start < a.end
    ensures forall r :: Holds(map[a.start := a], a.start, r) ==> r == Some(a)
    ensures map[a.start := a] - {a.start} == map[]
  {
    forall r | Holds(map[a.start := a], a.start, r)
      ensures r == Some(a)
    {
      assert a.start in map[a.start := a];
    }
  }

  /** A process with no page yet. */
  method BareProcess() returns (m: PageTableManager)
    ensures fresh(m) && m.Inv() && m.ttbr0 != 0 && Pos(m.ttbr0, []) in m.at && m.flat == map[] && |m.free| == 15
    ensures |m.refs.Keys| == 16
  {
    hide Good, PhysBits, EmptyRoot, DataKept;
    m := Boot();
    ghost var frames := m.free;
    m.ttbr0 := m.CreateUserPgd();
    OneFrameLess(frames, m.ttbr0);
  }

  /** A process maps two pages and unmaps the first: there is no area any more, and the second page is still
      mapped. */
  method PartUnmapped() returns (m: PageTableManager, a: AddressSpace)
    ensures fresh(m) && fresh(a) && m.Inv() && a.vmas == map[] && m.ttbr0 != 0 && Pos(m.ttbr0, []) in m.at
    ensures var k := Walk(m.ttbr0, PAGES_AT + 4096, 4);
            m.flat.Keys == {k} && m.flat[k].Present? && m.flat[k].pa in m.refs
    ensures 0 < |m.free| && |m.refs.Keys| == 16
  {
    hide Good, PhysBits, Walk, Places, OneHalf, MappedMore, EnoughForRange, Canonical, IsUserAddr, PageUp, RootsKept,
         Missing, Sound, Unused, Holds, LowestRoom, MappedIn, InOneHalf, WithAnon, PagesCut, FirstMissing, HeldOver,
         Taken;
    m := BareProcess();
    a := new AddressSpace();
    ghost var root, at0, flat0, free0 := m.ttbr0, m.at, m.flat, m.free;
    TwoPages(root);
    NoAreas();
    ThreePerPage(m.at, root, PAGES_AT, 2);
    RoomForTwo(m.at, m.free, root);
    var r;
    ghost var start, done;
    r, start, done := a.DoMmap(m, PAGES_AT, 8192, 0);
    SomeLeft(at0, free0, m.at, m.free, root);
    TwoMapped(flat0, m.mem, m.free, m.refs, m.flat, root);
    RootStays(at0, m.at, root);
    OnlyArea(MmStruct.Vma(PAGES_AT, PAGES_AT + 8192, WithAnon(0)));
    ghost var area, flat1, at1, free1 := None, m.flat, m.at, m.free;
    r, area := a.DoMunmap(m, PAGES_AT, 4096);
    RootStays(at1, m.at, root);
    Smaller(free1, m.free);
  }

  lemma {:induction false} TwoMapped(flat0: Leaves, mem: Memory, free: set<nat>, refs: map<nat, nat>, flat: Leaves,
                                     root: nat)
    requires flat0 == map[] && MappedMore(flat0, mem, free, refs, flat, root, PAGES_AT, 2)
    ensures var k := Walk(root, PAGES_AT + 4096, 4);
            && (flat - Places(root, PAGES_AT, 1)).Keys == {k}
            && k in flat && flat[k].Present? && flat[k].pa in refs
  {
    TwoPages(root);
    hide Walk, Zeros, Canonical, IsUserAddr, OneHalf, InOneHalf;
    NewPlace(root, PAGES_AT, 1, 1);
    assert Zeroed(mem, free, refs, flat, Walk(root, PAGES_AT + 4096, 4));
    assert PageAddr(PAGES_AT, 1) == PAGES_AT + 4096;
    assert Places(root, PAGES_AT, 2) == Places(root, PAGES_AT, 1) + {Walk(root, PAGES_AT + 4096, 4)};
  }

  lemma {:induction false} SomeLeft(at0: Tables, free0: set<nat>, at: Tables, free: set<nat>, root: nat)
    requires Taken(at0, free0, at, free, root, PAGES_AT, 2) && |free0| == 15 && Missing(at0, root, PAGES_AT, 2) <= 6
    ensures |free| > 0
  {
    hide TablesFor;
  }

  const MORE_AT: nat := 0x2000

  lemma {:induction false} ManyPages(root: nat)
    ensures OneHalf(MORE_AT, 20) && IsUserAddr(MORE_AT) && MORE_AT == PAGES_AT + 4096 && PageUp(20 * 4096) == 20 * 4096
    ensures Unused(map[], MORE_AT, MORE_AT + 20 * 4096)
  {
  }

  /** With one free frame and the tables of the first page, one page can be mapped; twenty need more frames
      than there are. */
  lemma {:induction false} OneOfTwenty(mem: Memory, free: set<nat>, refs: map<nat, nat>, at: Tables, flat: Leaves,
                                       held: multiset<nat>, root: nat)
    requires Good(mem, free, refs, at, flat, held) && Walk(root, MORE_AT, 4) in flat && 0 < |free| && |refs.Keys| == 16
    ensures EnoughForRange(free, at, root, MORE_AT, 1) && !EnoughForRange(free, at, root, MORE_AT, 20)
  {
    hide Good, Shape, Walk, Path, EnoughForRange;
    GoodShape(mem, free, refs, at, flat, held);
    LeafTables(at, flat, root, MORE_AT);
    FreeManaged(mem, free, refs, at, flat, held);
    Smaller(free, refs.Keys);
    TablesThere(free, at, root);
    FramesMissing(free, at, root);
  }

  lemma {:induction false} TablesThere(free: set<nat>, at: Tables, root: nat)
    requires Path(root, MORE_AT) <= at.Keys && |free| > 0
    ensures EnoughForRange(free, at, root, MORE_AT, 1)
  {
    hide Path, TablesFor;
    assert PageAddr(MORE_AT, 0) == MORE_AT;
    NoTables(root);
    OneMoreTable(root, MORE_AT, 0);
    assert TablesFor(root, MORE_AT, 1) - at.Keys == {};
  }

  lemma {:induction false} NoTables(root: nat)
    ensures TablesFor(root, MORE_AT, 0) == {}
  {
  }

  lemma {:induction false} FramesMissing(free: set<nat>, at: Tables, root: nat)
    requires |free| <= 16
    ensures !EnoughForRange(free, at, root, MORE_AT, 20)
  {
    hide TablesFor;
  }

  lemma {:induction false} FreeManaged(mem: Memory, free: set<nat>, refs: map<nat, nat>, at: Tables, flat: Leaves,
                                       held: multiset<nat>)
    requires Good(mem, free, refs, at, flat, held)
    ensures free <= refs.Keys
  {
    hide Tree, PhysBits;
  }

  /** What the first page of a range loses. */
  lemma {:induction false} FirstLost(held: multiset<nat>, refs: map<nat, nat>, flat: Leaves, root: nat, addr: nat,
                                     n: nat)
    requires var k := Walk(root, addr, 4); n > 0 && flat.Keys == {k} && flat[k].Present? && flat[k].pa in refs
    ensures HeldOver(held, refs, flat, root, addr, n)[flat[Walk(root, addr, 4)].pa] > 0
    ensures flat - Places(root, addr, n) == map[]
    decreases n
  {
    hide Walk;
    assert PageAddr(addr, 0) == addr;
    if n == 1 {
      assert Places(root, addr, 1) == {Walk(root, addr, 4)};
      assert HeldOver(held, refs, flat, root, addr, 0) == held;
    } else {
      FirstLost(held, refs, flat, root, addr, n - 1);
    }
  }

  /** A mapping over the page that was left behind runs out of memory: the page loses its entry although the
      call fails, and keeps its reference although nothing maps it. */
  method LeftPageLost() returns (m: PageTableManager, r: nat, ghost pa: nat)
    ensures m.Inv() && r == 0 && m.flat == map[] && pa in m.refs && pa !in m.free && m.held[pa] > 0
  {
    hide Good, PhysBits, Walk, Places, OneHalf, MappedMore, EnoughForRange, Canonical, IsUserAddr, PageUp, RootsKept,
         Sound, Unused, LowestRoom, WithAnon, HeldOver, Taken;
    var a;
    m, a := PartUnmapped();
    ghost var root := m.ttbr0;
    ghost var held, refs, flat := m.held, m.refs, m.flat;
    ManyPages(root);
    NoAreas();
    pa := flat[Walk(root, MORE_AT, 4)].pa;
    OneOfTwenty(m.mem, m.free, m.refs, m.at, m.flat, m.held, root);
    ghost var start, done;
    r, start, done := a.DoMmap(m, MORE_AT, 20 * 4096, 0);
    FirstLost(held, refs, flat, root, MORE_AT, done);
    HeldNotFree(m.mem, m.free, m.refs, m.at, m.flat, m.held, pa);
  }

  lemma {:induction false} RoomForTwo(at: Tables, free: set<nat>, root: nat)
    requires |free| >= 8 && Missing(at, root, PAGES_AT, 2) <= 6
    ensures EnoughForRange(free, at, root, PAGES_AT, 2)
  {
    hide TablesFor;
  }
}
