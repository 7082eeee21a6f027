/** The memory areas of an address space, and the calls that map, unmap and grow them. */
module MmStruct {
  import opened Common
  import opened PageTableModel
  import opened PageTableSteps
  import opened PageTableTrees
  import opened PageTables

  const MMAP_BASE: nat := 0xffff_0000_1000_0000
  const VM_ANONYMOUS: nat := 8

  /** PAGE_USER_RW as the Rust code has it: with bit 11, nG, which the constant of the C code lacks. */
  const USER_RW: Prot := Prot(true, false, 0x60_0000_0000_0F03)

  datatype Vma = Vma(start: nat, end: nat, flags: nat)

  type Vmas = map<nat, Vma>

  /** The areas are not empty, are keyed by their starts, and do not overlap. */
  ghost predicate Sound(v: Vmas) {
    && (forall k :: k in v ==> v[k].start == k < v[k].end)
    && (forall j, k :: j in v && k in v && j < k ==> v[j].end <= k)
  }

  predicate Overlaps(a: Vma, lo: nat, hi: nat) {
    a.start < hi && lo < a.end
  }

  /** No area has an address in the range. */
  ghost predicate Unused(v: Vmas, lo: nat, hi: nat) {
    forall k :: k in v ==> !Overlaps(v[k], lo, hi)
  }

  /** range(..bound).next_back(): the last area that starts below the bound. */
  ghost predicate IsLast(keys: set<nat>, bound: nat, r: Option<nat>) {
    match r
    case None => forall k :: k in keys ==> k >= bound
    case Some(k) => k in keys && k < bound && forall j :: j in keys && j < bound ==> j <= k
  }

  method RangeBack(v: Vmas, bound: nat) returns (r: Option<nat>)
    ensures IsLast(v.Keys, bound, r)
  {
    var keys := v.Keys;
    r := None;
    while keys != {}
      invariant keys <= v.Keys && IsLast(v.Keys - keys, bound, r)
      decreases |keys|
    {
      var k :| k in keys;
      assert v.Keys - (keys - {k}) == (v.Keys - keys) + {k};
      keys := keys - {k};
      if k < bound && (r == None || r.value < k) {
        r := Some(k);
      }
    }
    assert v.Keys - keys == v.Keys;
  }

  /** To see whether a range is in use it is enough to look at the last area that starts below its
      end. */
  lemma {:induction false} LastDecides(v: Vmas, lo: nat, hi: nat, r: Option<nat>)
    requires Sound(v) && IsLast(v.Keys, hi, r) && lo < hi
    ensures r == None || v[r.value].end <= lo <==> Unused(v, lo, hi)
  {
    if r.Some? {
      assert v[r.value].start < hi;
      assert v[r.value].end > lo ==> Overlaps(v[r.value], lo, hi);
      forall k | k in v && v[r.value].end <= lo
        ensures !Overlaps(v[k], lo, hi)
      {
      }
    }
  }

  /** A new area in an unused range. */
  lemma {:induction false} Inserted(v: Vmas, a: Vma)
    requires Sound(v) && a.start < a.end && Unused(v, a.start, a.end)
    ensures a.start !in v && Sound(v[a.start := a])
  {
    forall k | k in v
      ensures k != a.start && (k < a.start ==> v[k].end <= a.start) && (k > a.start ==> a.end <= k)
    {
      assert !Overlaps(v[k], a.start, a.end);
    }
  }

  lemma {:induction false} Removed(v: Vmas, k: nat)
    requires Sound(v)
    ensures Sound(v - {k})
  {
  }

  lemma {:induction false} TakenBack(v: Vmas, k: nat, a: Vma)
    requires k !in v
    ensures v[k := a] - {k} == v
  {
  }

  /** What a scan over all areas finds at an address. */
  ghost predicate Holds(v: Vmas, addr: nat, r: Option<Vma>) {
    match r
    case None => forall k :: k in v ==> !(v[k].start <= addr < v[k].end)
    case Some(a) => a.start in v && v[a.start] == a && a.start <= addr < a.end && forall k ::
      k in v && v[k].start <= addr < v[k].end ==> v[k] == a
  }

  /** (n + 4095) & !4095, where the sum does not wrap. */
  function PageUp(n: nat): (r: nat)
    ensures n <= r < n + PAGE_SIZE && r % PAGE_SIZE == 0
  {
    (n + PAGE_SIZE - 1) / PAGE_SIZE * PAGE_SIZE
  }

  lemma {:induction false} PageUpLeast(n: nat, x: nat)
    requires x % PAGE_SIZE == 0 && n <= x
    ensures PageUp(n) <= x
  {
  }

  function Min(a: nat, b: nat): nat {
    if a < b then a else b
  }

  /** The number of pages do_munmap unmaps of an area that ends at `end`. */
  function PagesCut(addr: nat, len: nat, end: nat): nat
    requires addr <= end
  {
    PageUp(Min(PageUp(len), end - addr)) / PAGE_SIZE
  }

  /** They are the pages that begin before the end of the range asked for and in the area. */
  lemma {:induction false} CutExactly(addr: nat, len: nat, end: nat, i: nat)
    requires addr <= end
    ensures i < PagesCut(addr, len, end) <==> i * PAGE_SIZE < len && PageAddr(addr, i) < end
  {
    PagesIn(len, i);
    PagesIn(Min(PageUp(len), end - addr), i);
  }

  /** A page begins before the end of a size exactly if it does before the size rounded up. */
  lemma {:induction false} PagesIn(n: nat, i: nat)
    ensures i * PAGE_SIZE < n <==> i < PageUp(n) / PAGE_SIZE
    ensures i * PAGE_SIZE < n <==> i * PAGE_SIZE < PageUp(n)
  {
    var q := PageUp(n) / PAGE_SIZE;
    assert PageUp(n) == q * PAGE_SIZE;
  }

  function WithAnon(flags: nat): nat {
    if flags / VM_ANONYMOUS % 2 == 1 then flags else flags + VM_ANONYMOUS
  }

  /** Bit 3 is set, and every other bit is as it was. */
  lemma {:induction false} AnonSet(flags: nat)
    ensures WithAnon(flags) / 8 % 2 == 1 && WithAnon(flags) % 8 == flags % 8 && WithAnon(flags) / 16 == flags / 16
  {
    var q, r := flags / 8, flags % 8;
    assert (flags + VM_ANONYMOUS) / 8 == q + 1 && (flags + VM_ANONYMOUS) % 8 == r;
    assert flags / 16 == q / 2 && (flags + VM_ANONYMOUS) / 16 == (q + 1) / 2;
  }

  // ---------------------------------------------------------------------------
  // The pages of a range
  // ---------------------------------------------------------------------------

  /** The leaves of the first n pages from addr on. */
  ghost function Places(root: nat, addr: nat, n: nat): set<Pos> {
    if n == 0 then {} else Places(root, addr, n - 1) + {Walk(root, PageAddr(addr, n - 1), 4)}
  }

  /** All addresses of n pages are canonical and in the same half. */
  ghost predicate OneHalf(addr: nat, n: nat) {
    forall i :: 0 <= i < n ==> Canonical(PageAddr(addr, i)) && IsUserAddr(PageAddr(addr, i)) == IsUserAddr(addr)
  }

  function PageAddr(addr: nat, i: nat): nat {
    addr + i * PAGE_SIZE
  }

  /** Different pages have different leaves. */
  lemma {:induction false} NewPlace(root: nat, addr: nat, n: nat, i: nat)
    requires OneHalf(addr, n + 1) && i <= n
    ensures Walk(root, PageAddr(addr, n), 4) !in Places(root, addr, i)
  {
    hide Walk, Canonical, IsUserAddr;
    if i > 0 {
      NewPlace(root, addr, n, i - 1);
      assert Canonical(PageAddr(addr, i - 1)) && Canonical(PageAddr(addr, n));
      SameEntry(root, PageAddr(addr, i - 1), PageAddr(addr, n));
      OtherPage(addr, i - 1, n);
    }
  }

  lemma {:induction false} OtherPage(addr: nat, i: nat, j: nat)
    requires i < j
    ensures PageAddr(addr, i) / PAGE_SIZE != PageAddr(addr, j) / PAGE_SIZE
  {
    assert PageAddr(addr, i) / PAGE_SIZE == addr / PAGE_SIZE + i;
    assert PageAddr(addr, j) / PAGE_SIZE == addr / PAGE_SIZE + j;
  }

  /** The leaves of a range are those of the addresses on its pages. */
  lemma {:induction false} PlacesExactly(root: nat, addr: nat, n: nat, x: nat)
    requires OneHalf(addr, n) && n > 0 && Canonical(x) && IsUserAddr(x) == IsUserAddr(addr)
    ensures Walk(root, x, 4) in Places(root, addr, n) <==> addr / PAGE_SIZE <= x / PAGE_SIZE < addr / PAGE_SIZE + n
  {
    hide Walk, Canonical, IsUserAddr;
    var last := PageAddr(addr, n - 1);
    assert Canonical(last) && IsUserAddr(last) == IsUserAddr(addr);
    SameEntry(root, x, last);
    assert last / PAGE_SIZE == addr / PAGE_SIZE + (n - 1);
    if n > 1 {
      HalfLess(addr, n, n - 1);
      PlacesExactly(root, addr, n - 1, x);
    }
  }

  /** An area lies in one half of the address space. */
  ghost predicate InOneHalf(a: Vma)
    requires a.start < a.end
  {
    Canonical(a.start) && Canonical(a.end - 1) && IsUserAddr(a.start) == IsUserAddr(a.end - 1)
  }

  /** An address between lo and hi is mapped. */
  ghost predicate MappedIn(flat: Leaves, root: nat, lo: nat, hi: nat) {
    exists x: nat :: lo <= x < hi && Walk(root, x, 4) in flat
  }

  /** Something of an area stays mapped after n of its pages from addr on have been unmapped exactly if
      something was mapped in front of those pages or behind them. */
  lemma {:induction false} LeftBehind(flat: Leaves, root: nat, a: Vma, addr: nat, n: nat)
    requires OneHalf(addr, n) && n > 0 && addr % PAGE_SIZE == 0
    requires a.start <= addr < a.end && InOneHalf(a)
    ensures MappedIn(flat - Places(root, addr, n), root, a.start, a.end) <==>
              MappedIn(flat, root, a.start, addr) || MappedIn(flat, root, addr + n * PAGE_SIZE, a.end)
  {
    forall x: nat | a.start <= x < a.end
      ensures Walk(root, x, 4) in Places(root, addr, n) <==> addr <= x < addr + n * PAGE_SIZE
    {
      assert Canonical(x) && IsUserAddr(x) == IsUserAddr(addr);
      PlacesExactly(root, addr, n, x);
    }
    hide Walk, Places, Canonical, IsUserAddr;
    if x: nat :| addr + n * PAGE_SIZE <= x < a.end && Walk(root, x, 4) in flat {
      assert Walk(root, x, 4) in flat - Places(root, addr, n);
    }
    if x: nat :| a.start <= x < addr && Walk(root, x, 4) in flat {
      assert Walk(root, x, 4) in flat - Places(root, addr, n);
    }
  }

  /** From (flat0) exactly the first n pages have been mapped, each to a zeroed page of its own, whatever
      was mapped there before. */
  ghost predicate MappedMore(flat0: Leaves, mem: Memory, free: set<nat>, refs: map<nat, nat>, flat: Leaves, root: nat,
                             addr: nat, n: nat) {
    && flat.Keys == flat0.Keys + Places(root, addr, n)
    && (forall k :: k in flat0 && k !in Places(root, addr, n) ==> flat[k] == flat0[k])
    && (forall k :: k in Places(root, addr, n) ==> Zeroed(mem, free, refs, flat, k))
  }

  ghost predicate Zeroed(mem: Memory, free: set<nat>, refs: map<nat, nat>, flat: Leaves, k: Pos) {
    && k in flat && flat[k].Present? && flat[k].prot == USER_RW && flat[k].pa in refs && flat[k].pa !in free
    && flat[k].pa in mem && mem[flat[k].pa] == Data(Zeros())
  }

  /** One page more, in a frame that was free. */
  lemma {:induction false} OneMoreMapped(flat0: Leaves, mem: Memory, free: set<nat>, refs: map<nat, nat>, flat: Leaves,
                                         root: nat, addr: nat, n: nat, pa: nat,
      mem': Memory, free': set<nat>, refs': map<nat, nat>, held': multiset<nat>)
    requires MappedMore(flat0, mem, free, refs, flat, root, addr, n) && free' <= free - {pa} && refs'.Keys == refs.Keys
    requires pa in free && pa in refs && OneHalf(addr, n + 1)
    requires var k := Walk(root, PageAddr(addr, n), 4);
             UseKept(mem, mem', free, flat[k := Present(pa, USER_RW)], held')
    requires pa in mem' && mem'[pa] == Data(Zeros())
    ensures var k := Walk(root, PageAddr(addr, n), 4);
            MappedMore(flat0, mem', free', refs', flat[k := Present(pa, USER_RW)], root, addr, n + 1)
  {
    hide Walk, Zeros, Count, Canonical, IsUserAddr;
    NewPlace(root, addr, n, n);
    var k := Walk(root, PageAddr(addr, n), 4);
    var flat' := flat[k := Present(pa, USER_RW)];
    assert Places(root, addr, n + 1) == Places(root, addr, n) + {k};
    forall x | x in Places(root, addr, n)
      ensures Zeroed(mem', free', refs', flat', x)
    {
      assert Zeroed(mem, free, refs, flat, x) && x != k;
      MappedOnce(flat', x);
    }
  }

  lemma {:induction false} MappedOnce(flat: Leaves, k: Pos)
    requires k in flat && flat[k].Present?
    ensures Count(flat, flat[k].pa) > 0
  {
    assert k in Mappers(flat, flat[k].pa);
  }

  /** The references held after n pages from addr on have been mapped: whatever pages were mapped there
      lose their entries but not their references. */
  ghost function HeldOver(held: multiset<nat>, refs: map<nat, nat>, flat: Leaves, root: nat, addr: nat, n: nat)
    : multiset<nat> {
    if n == 0 then held
    else HeldAfterFault(HeldOver(held, refs, flat, root, addr, n - 1), refs, flat, Walk(root, PageAddr(addr, n - 1), 4))
  }

  /** Mapping n pages and unmapping them again leaves the translations as they were exactly if none of the
      pages was mapped, and every reference with its owner exactly if no managed page was mapped. */
  lemma {:induction false} UndoneExactly(held: multiset<nat>, refs: map<nat, nat>, flat: Leaves, root: nat, addr: nat,
                                         n: nat)
    ensures flat - Places(root, addr, n) == flat <==> Places(root, addr, n) !! flat.Keys
    ensures held <= HeldOver(held, refs, flat, root, addr, n)
    ensures HeldOver(held, refs, flat, root, addr, n) == held <==>
              forall k :: k in Places(root, addr, n) && k in flat && flat[k].Present? ==> flat[k].pa !in refs
  {
    hide Walk, PageAddr;
    if n > 0 {
      UndoneExactly(held, refs, flat, root, addr, n - 1);
      assert Places(root, addr, n) == Places(root, addr, n - 1) + {Walk(root, PageAddr(addr, n - 1), 4)};
    }
  }

  lemma {:induction false} HeldNext(was: Was, refs: map<nat, nat>, flat: Leaves, root: nat, addr: nat, i: nat)
    requires var k := Walk(root, PageAddr(addr, i), 4);
             (k in flat <==> k in was.flat) && (k in flat ==> flat[k] == was.flat[k])
    requires refs.Keys == was.refs.Keys
    ensures var k := Walk(root, PageAddr(addr, i), 4);
            HeldAfterFault(HeldOver(was.held, was.refs, was.flat, root, addr, i), refs, flat, k) ==
              HeldOver(was.held, was.refs, was.flat, root, addr, i + 1)
  {
    hide Walk, PageAddr;
  }

  /** The lowest page address from MMAP_BASE on with an unused range behind it. */
  ghost predicate LowestRoom(v: Vmas, len: nat, addr: nat) {
    && addr >= MMAP_BASE && addr % PAGE_SIZE == 0 && Unused(v, addr, addr + len)
    && forall x :: MMAP_BASE <= x < addr && x % PAGE_SIZE == 0 ==> !Unused(v, x, x + len)
  }

  lemma {:induction false} AtBase(v: Vmas, len: nat, addr: nat)
    requires LowestRoom(v, len, addr)
    ensures addr > 0
  {
    hide Unused;
  }

  /** There are tables for the range. */
  ghost predicate Ready(m: PageTableManager, addr: nat, n: nat)
    reads m
  {
    OneHalf(addr, n) && m.RootOf(addr) != 0 && Pos(m.RootOf(addr), []) in m.at
  }

  /** The places of the tables a mapping of the first n pages from addr on needs. */
  ghost function TablesFor(root: nat, addr: nat, n: nat): set<Pos> {
    if n == 0 then {} else TablesFor(root, addr, n - 1) + Path(root, PageAddr(addr, n - 1))
  }

  /** There are as many free frames as pages to map and tables missing for them. */
  ghost predicate EnoughForRange(free: set<nat>, at: Tables, root: nat, addr: nat, n: nat) {
    |free| >= n + |TablesFor(root, addr, n) - at.Keys|
  }

  /** What mapping i pages has taken. */
  ghost predicate Taken(at0: Tables, free0: set<nat>, at: Tables, free: set<nat>, root: nat, addr: nat, i: nat) {
    && at.Keys == at0.Keys + TablesFor(root, addr, i)
    && |free| + i + |TablesFor(root, addr, i) - at0.Keys| == |free0|
  }

  lemma {:induction false} MoreTables(at0: set<Pos>, at: set<Pos>, tables: set<Pos>, path: set<Pos>)
    requires at == at0 + tables
    ensures at + path == at0 + (tables + path)
    ensures |(tables + path) - at0| == |tables - at0| + |path - at|
  {
    assert (tables + path) - at0 == (tables - at0) + (path - at);
    assert (tables - at0) !! (path - at);
  }

  /** The next page can be mapped exactly if the frames are enough for one page more. */
  lemma {:induction false} NextPage(at0: Tables, free0: set<nat>, at: Tables, free: set<nat>, root: nat, addr: nat,
                                    i: nat)
    requires Taken(at0, free0, at, free, root, addr, i)
    ensures EnoughForPage(free, at, root, PageAddr(addr, i)) <==> EnoughForRange(free0, at0, root, addr, i + 1)
  {
    hide Path;
    MoreTables(at0.Keys, at.Keys, TablesFor(root, addr, i), Path(root, PageAddr(addr, i)));
    hide PageAddr;
  }

  lemma {:induction false} PageTaken(at0: Tables, free0: set<nat>, at: Tables, free: set<nat>, at': Tables,
                                     free': set<nat>, flat': Leaves, page: nat, root: nat, addr: nat, i: nat)
    requires Taken(at0, free0, at, free, root, addr, i) && page in free && Shape(at', flat')
    requires Grown(at, free - {page}, at', free', Path(root, PageAddr(addr, i)))
    requires Walk(root, PageAddr(addr, i), 4) in flat'
    ensures Taken(at0, free0, at', free', root, addr, i + 1)
  {
    hide Shape, Walk, PageAddr, Path, TablesFor;
    var path := Path(root, PageAddr(addr, i));
    MoreTables(at0.Keys, at.Keys, TablesFor(root, addr, i), path);
    LeafTables(at', flat', root, PageAddr(addr, i));
    PathAdded(at, free - {page}, at', free', path);
    OneMoreTable(root, addr, i);
  }

  lemma {:induction false} OneMoreTable(root: nat, addr: nat, i: nat)
    ensures TablesFor(root, addr, i + 1) == TablesFor(root, addr, i) + Path(root, PageAddr(addr, i))
  {
    hide Path;
  }

  lemma {:induction false} PathAdded(at: Tables, free: set<nat>, at': Tables, free': set<nat>, path: set<Pos>)
    requires Grown(at, free, at', free', path) && path <= at'.Keys
    ensures at'.Keys == at.Keys + path && |free'| + |path - at.Keys| == |free|
  {
    hide Spent;
    assert Added(at, at') == path - at.Keys;
  }

  /** The tables on the way to a leaf are there. */
  lemma {:induction false} LeafTables(at: Tables, flat: Leaves, root: nat, va: nat)
    requires Shape(at, flat) && Walk(root, va, 4) in flat
    ensures Path(root, va) <= at.Keys
  {
    ChildParent(Walk(root, va, 3), Index(va, 3));
    WalkPresent(at, flat, root, va);
  }

  lemma {:induction false} OnePageFewer(free: set<nat>, at: Tables, root: nat, addr: nat, i: nat)
    requires EnoughForRange(free, at, root, addr, i + 1)
    ensures EnoughForRange(free, at, root, addr, i)
  {
    OneMoreTable(root, addr, i);
    hide TablesFor, Path, PageAddr;
    Smaller(TablesFor(root, addr, i) - at.Keys, TablesFor(root, addr, i + 1) - at.Keys);
  }

  lemma {:induction false} FewerPages(free: set<nat>, at: Tables, root: nat, addr: nat, i: nat, n: nat)
    requires i <= n && EnoughForRange(free, at, root, addr, n)
    ensures EnoughForRange(free, at, root, addr, i)
    decreases n - i
  {
    hide EnoughForRange;
    if i < n {
      FewerPages(free, at, root, addr, i + 1, n);
      OnePageFewer(free, at, root, addr, i);
    }
  }

  lemma {:induction false} NothingTaken(at: Tables, free: set<nat>, root: nat, addr: nat)
    ensures Taken(at, free, at, free, root, addr, 0) && EnoughForRange(free, at, root, addr, 0)
  {
    assert TablesFor(root, addr, 0) - at.Keys == {};
  }

  /** Unmaps one page and drops its reference. */
  method UnmapPage(m: PageTableManager, va: nat)
    requires m.Inv() && m.RootOf(va) != 0 && Pos(m.RootOf(va), []) in m.at
    modifies m`mem, m`free, m`refs, m`at, m`flat, m`held
    ensures m.Inv() && RootsKept(old(m.at), m.at) && m.refs.Keys == old(m.refs.Keys) && m.held == old(m.held)
    ensures m.flat == old(m.flat) - {Walk(m.RootOf(va), va, 4)} && old(m.free) <= m.free
  {
    hide UnmapsUnder, Good, PhysBits, Index, IsUserAddr, Walk, DataKept, Path, PruneInv, Pruned, Hold, RootsKept,
         Dropped;
    ghost var k := Walk(m.RootOf(va), va, 4);
    FoundPage(m.mem, m.free, m.refs, m.at, m.flat, m.held, k);
    RootsSame(m.at);
    var pa := m.Arm64GetPhysFromVa(va);
    HoldAndDrop(m.held, m.refs, pa);
    NothingHeld(m.held, m.refs, pa);
    AbsentLeaf(m.flat, k);
    m.Arm64UnmapOnePage(va);
    assert m.flat == old(m.flat) - {k} && old(m.free) <= m.free by {
      ReleasedMore(old(m.at), old(m.free), m.at, m.free, Path(m.RootOf(va), va));
    }
    if pa != 0 {
      m.PutPage(pa);
    }
  }

  lemma {:induction false} ReleasedMore(at0: Tables, free0: set<nat>, at: Tables, free: set<nat>, wanted: set<Pos>)
    ensures PruneInv(at0, free0, at, free, wanted) ==> free0 <= free
  {
  }

  lemma {:induction false} NothingHeld(held: multiset<nat>, refs: map<nat, nat>, pa: nat)
    ensures pa !in refs ==> Hold(held, refs, pa) == held
  {
  }

  lemma {:induction false} PageHalf(addr: nat, n: nat, i: nat)
    requires OneHalf(addr, n) && i < n
    ensures Canonical(PageAddr(addr, i)) && IsUserAddr(PageAddr(addr, i)) == IsUserAddr(addr)
  {
    hide Canonical, IsUserAddr;
  }

  lemma {:induction false} HalfLess(addr: nat, n: nat, i: nat)
    requires OneHalf(addr, n) && i <= n
    ensures OneHalf(addr, i)
  {
    hide Canonical, IsUserAddr;
  }

  /** The i-th page of a range is in its half, and its entry is still what it was before. */
  lemma {:induction false} PageOf(was: Was, mem: Memory, free: set<nat>, refs: map<nat, nat>, flat: Leaves, root: nat,
                                  addr: nat, n: nat, i: nat)
    requires OneHalf(addr, n) && i < n && MappedMore(was.flat, mem, free, refs, flat, root, addr, i)
    ensures var k := Walk(root, PageAddr(addr, i), 4);
            (k in flat <==> k in was.flat) && (k in flat ==> flat[k] == was.flat[k])
    ensures IsUserAddr(PageAddr(addr, i)) == IsUserAddr(addr) && OneHalf(addr, i) && OneHalf(addr, i + 1)
  {
    hide Walk, Canonical, IsUserAddr, Zeroed;
    PageHalf(addr, n, i);
    HalfLess(addr, n, i + 1);
    HalfLess(addr, n, i);
    NewPlace(root, addr, i, i);
  }

  lemma {:induction false} NoneOver(was: Was, root: nat, addr: nat)
    ensures HeldOver(was.held, was.refs, was.flat, root, addr, 0) == was.held
  {
  }

  /** The frames are enough for this many pages, and not for one more. */
  ghost predicate FirstMissing(free: set<nat>, at: Tables, root: nat, addr: nat, n: nat) {
    EnoughForRange(free, at, root, addr, n) && !EnoughForRange(free, at, root, addr, n + 1)
  }

  /** Removing the last page of a range and then the others. */
  lemma {:induction false} OneLess(flat: Leaves, root: nat, addr: nat, n: nat)
    requires n > 0
    ensures (flat - {Walk(root, PageAddr(addr, n - 1), 4)}) - Places(root, addr, n - 1) == flat - Places(root, addr, n)
  {
    hide Walk, PageAddr;
  }

  lemma {:induction false} GrownLess(at0: Tables, free0: set<nat>, at: Tables, free: set<nat>, wanted: set<Pos>)
    requires Grown(at0, free0, at, free, wanted)
    ensures free <= free0
  {
  }

  /** Without the pages of the range, everything is as it was. */
  lemma {:induction false} OthersKept(flat0: Leaves, mem: Memory, free: set<nat>, refs: map<nat, nat>, flat: Leaves,
                                      root: nat, addr: nat, n: nat)
    requires MappedMore(flat0, mem, free, refs, flat, root, addr, n)
    ensures flat - Places(root, addr, n) == flat0 - Places(root, addr, n)
  {
    hide Places, Zeroed;
  }

  lemma {:induction false} NoneMapped(mem: Memory, free: set<nat>, refs: map<nat, nat>, flat: Leaves, root: nat,
                                      addr: nat)
    ensures MappedMore(flat, mem, free, refs, flat, root, addr, 0)
  {
    assert Places(root, addr, 0) == {};
  }

  /** There are frames for the pages of the range and for the tables missing for them. */
  ghost predicate RangeFits(free: set<nat>, at: Tables, m: PageTableManager, addr: nat, len: nat)
    reads m
  {
    EnoughForRange(free, at, m.RootOf(addr), addr, PageUp(len) / PAGE_SIZE)
  }

  lemma {:induction false} RoomUnused(v: Vmas, len: nat, a: nat)
    requires LowestRoom(v, len, a)
    ensures Unused(v, a, a + len)
  {
    hide Unused;
  }

  /** The state before a range is mapped. */
  datatype Was = Was(at: Tables, flat: Leaves, free: set<nat>, refs: map<nat, nat>, held: multiset<nat>)

  ghost predicate MappedSoFar(m: PageTableManager, was: Was, addr: nat, i: nat)
    reads m
  {
    && MappedMore(was.flat, m.mem, m.free, m.refs, m.flat, m.RootOf(addr), addr, i)
    && Taken(was.at, was.free, m.at, m.free, m.RootOf(addr), addr, i) && m.refs.Keys == was.refs.Keys
    && m.held == HeldOver(was.held, was.refs, was.flat, m.RootOf(addr), addr, i)
  }

  class AddressSpace {
    var vmas: Vmas
    var brk: nat

    constructor ()
      ensures vmas == map[] && brk == 0
    {
      vmas, brk := map[], 0;
    }

    /** vma_find looks at the last area that starts at or below the address, and finds what a scan over
        all areas would find. */
    method VmaFind(addr: nat) returns (r: Option<Vma>)
      requires Sound(vmas)
      ensures Holds(vmas, addr, r)
    {
      var last := RangeBack(vmas, addr + 1);
      if last == None || addr >= vmas[last.value].end {
        return None;
      }
      return Some(vmas[last.value]);
    }

    /** vma_create refuses exactly an empty range and one that is in use. */
    method VmaCreate(start: nat, end: nat, flags: nat) returns (ok: bool)
      requires Sound(vmas)
      modifies this`vmas
      ensures Sound(vmas) && (ok <==> start < end && Unused(old(vmas), start, end))
      ensures vmas == if ok then old(vmas)[start := Vma(start, end, flags)] else old(vmas)
    {
      if start >= end {
        return false;
      }
      var last := RangeBack(vmas, end);
      LastDecides(vmas, start, end, last);
      if last.Some? && vmas[last.value].end > start {
        return false;
      }
      Inserted(vmas, Vma(start, end, flags));
      vmas := vmas[start := Vma(start, end, flags)];
      return true;
    }

    method VmaRemove(start: nat) returns (r: Option<Vma>)
      requires Sound(vmas)
      modifies this`vmas
      ensures Sound(vmas) && vmas == old(vmas) - {start}
      ensures r == if start in old(vmas) then Some(old(vmas)[start]) else None
    {
      Removed(vmas, start);
      r := if start in vmas then Some(vmas[start]) else None;
      vmas := vmas - {start};
    }

    /** The inner loop of find_free_area: the lowest area in the way. */
    method FirstConflict(addr: nat, len: nat) returns (r: Option<nat>)
      ensures match r
              case None => Unused(vmas, addr, addr + len)
              case Some(k) => k in vmas && Overlaps(vmas[k], addr, addr + len) && forall j ::
                j in vmas && Overlaps(vmas[j], addr, addr + len) ==> k <= j
    {
      var keys := vmas.Keys;
      r := None;
      while keys != {}
        invariant keys <= vmas.Keys
        invariant r == None ==> forall j :: j in vmas && j !in keys ==> !Overlaps(vmas[j], addr, addr + len)
        invariant r.Some? ==> r.value in vmas && Overlaps(vmas[r.value], addr, addr + len)
                              && forall j ::
                                   j in vmas && j !in keys && Overlaps(vmas[j], addr, addr + len) ==> r.value <= j
        decreases |keys|
      {
        var k :| k in keys;
        keys := keys - {k};
        if Overlaps(vmas[k], addr, addr + len) && (r == None || k < r.value) {
          r := Some(k);
        }
      }
    }

    /** find_free_area: the lowest page address from MMAP_BASE on with an unused range behind it. */
    method FindFreeArea(len: nat) returns (addr: nat)
      requires Sound(vmas) && len > 0
      ensures LowestRoom(vmas, len, addr)
      ensures addr == MMAP_BASE || exists k :: k in vmas && addr == PageUp(vmas[k].end)
    {
      addr := MMAP_BASE;
      while true
        invariant addr >= MMAP_BASE && addr % PAGE_SIZE == 0
        invariant forall x :: MMAP_BASE <= x < addr && x % PAGE_SIZE == 0 ==> !Unused(vmas, x, x + len)
        invariant addr == MMAP_BASE || exists k :: k in vmas && addr == PageUp(vmas[k].end)
        decreases |Beyond(vmas, addr)|
      {
        var conflict := FirstConflict(addr, len);
        if conflict == None {
          return;
        }
        ghost var a := vmas[conflict.value];
        SkipsNothing(vmas, addr, len, conflict.value);
        FewerBeyond(vmas, addr, conflict.value);
        addr := PageUp(vmas[conflict.value].end);
      }
    }

    /** One page of the range: a zeroed frame, mapped. */
    method MapNext(m: PageTableManager, cur: nat, ghost was: Was, ghost addr: nat, ghost n: nat, ghost i: nat)
      returns (ok: bool)
      requires m.Inv() && MappedSoFar(m, was, addr, i) && i < n && cur == PageAddr(addr, i) && OneHalf(addr, n)
      requires m.RootOf(addr) != 0 && Pos(m.RootOf(addr), []) in m.at
      modifies m`mem, m`free, m`refs, m`at, m`flat, m`held
      ensures m.Inv() && m.refs.Keys == old(m.refs.Keys)
      ensures Pos(m.RootOf(addr), []) in m.at && RootsKept(old(m.at), m.at)
      ensures ok <==> EnoughForRange(was.free, was.at, m.RootOf(addr), addr, i + 1)
      ensures if ok then MappedSoFar(m, was, addr, i + 1) else m.flat == old(m.flat) && m.held == old(m.held)
    {
      hide Good, PhysBits, Walk, Places, Canonical, IsUserAddr, UseKept, Grown, Path, RootsKept, EnoughForPage, Zeroed,
           Zeros, HeldAfterFault, HeldOver, MappedMore, EnoughForRange, Taken, Shape;
      ghost var root := m.RootOf(addr);
      PageOf(was, m.mem, m.free, m.refs, m.flat, root, addr, n, i);
      NextPage(was.at, was.free, m.at, m.free, root, addr, i);
      ghost var page;
      ok, page := m.DemandPage(cur, USER_RW);
      RootStays(old(m.at), m.at, root);
      if ok {
        HeldNext(was, m.refs, old(m.flat), root, addr, i);
        GrownLess(old(m.at), old(m.free) - {page}, m.at, m.free, Path(root, cur));
        OneMoreMapped(was.flat, old(m.mem), old(m.free), old(m.refs), old(m.flat), root, addr, i, page, m.mem, m.free,
                      m.refs, m.held);
        GoodShape(m.mem, m.free, m.refs, m.at, m.flat, m.held);
        PageTaken(was.at, was.free, old(m.at), old(m.free), m.at, m.free, m.flat, page, root, addr, i);
      }
    }

    /** The loop of do_mmap over the pages of the range. A failure unmaps what was mapped; what was mapped
        there before is then gone, too. */
    method MapRange(m: PageTableManager, addr: nat, n: nat) returns (ok: bool, ghost done: nat)
      requires m.Inv() && Ready(m, addr, n)
      modifies m`mem, m`free, m`refs, m`at, m`flat, m`held
      ensures m.Inv() && m.refs.Keys == old(m.refs.Keys) && RootsKept(old(m.at), m.at)
      ensures ok <==> EnoughForRange(old(m.free), old(m.at), m.RootOf(addr), addr, n)
      ensures if ok then done == n else done < n && FirstMissing(old(m.free), old(m.at), m.RootOf(addr), addr, done)
      ensures m.held == HeldOver(old(m.held), old(m.refs), old(m.flat), m.RootOf(addr), addr, done)
      ensures ok ==> Taken(old(m.at), old(m.free), m.at, m.free, m.RootOf(addr), addr, n)
      ensures if ok then MappedMore(old(m.flat), m.mem, m.free, m.refs, m.flat, m.RootOf(addr), addr, n)
              else m.flat == old(m.flat) - Places(m.RootOf(addr), addr, done)
    {
      hide Good, PhysBits, Walk, Places, Canonical, IsUserAddr, RootsKept, MappedMore, EnoughForRange, Taken, HeldOver;
      ghost var root, was := m.RootOf(addr), Was(m.at, m.flat, m.free, m.refs, m.held);
      RootsSame(m.at);
      NothingTaken(m.at, m.free, root, addr);
      NoneMapped(m.mem, m.free, m.refs, m.flat, root, addr);
      NoneOver(was, root, addr);
      var cur := addr;
      done := 0;
      while cur < addr + n * PAGE_SIZE
        invariant done <= n && cur == PageAddr(addr, done) && m.Inv()
        invariant m.refs.Keys == old(m.refs.Keys) && Pos(root, []) in m.at && RootsKept(old(m.at), m.at)
        invariant MappedSoFar(m, was, addr, done) && EnoughForRange(was.free, was.at, root, addr, done)
        decreases n - done
      {
        OthersKept(was.flat, m.mem, m.free, m.refs, m.flat, root, addr, done);
        ghost var at1 := m.at;
        ok := MapNext(m, cur, was, addr, n, done);
        RootsTrans(old(m.at), at1, m.at);
        if !ok {
          ghost var at2 := m.at;
          HalfLess(addr, n, done);
          Rollback(m, addr, cur, done);
          RootsTrans(old(m.at), at2, m.at);
          if EnoughForRange(was.free, was.at, root, addr, n) {
            FewerPages(was.free, was.at, root, addr, done + 1, n);
          }
          return;
        }
        cur := cur + PAGE_SIZE;
        done := done + 1;
      }
      ok := true;
    }

    /** Unmaps the pages of a range from its end back to its start. */
    method Rollback(m: PageTableManager, addr: nat, end: nat, ghost n: nat)
      requires m.Inv() && end == PageAddr(addr, n) && OneHalf(addr, n) && m.RootOf(addr) != 0
      requires Pos(m.RootOf(addr), []) in m.at
      modifies m`mem, m`free, m`refs, m`at, m`flat, m`held
      ensures m.Inv() && m.held == old(m.held) && m.refs.Keys == old(m.refs.Keys) && RootsKept(old(m.at), m.at)
      ensures m.flat == old(m.flat) - Places(m.RootOf(addr), addr, n)
    {
      hide Good, Walk, Places, Canonical, IsUserAddr, RootsKept;
      ghost var root := m.RootOf(addr);
      RootsSame(m.at);
      var cur := end;
      ghost var i: nat := n;
      while cur > addr
        invariant i <= n && cur == PageAddr(addr, i) && m.Inv() && m.held == old(m.held)
        invariant m.refs.Keys == old(m.refs.Keys) && RootsKept(old(m.at), m.at)
        invariant m.flat - Places(root, addr, i) == old(m.flat) - Places(root, addr, n)
        decreases i
      {
        PageHalf(addr, n, i - 1);
        RootStays(old(m.at), m.at, root);
        OneLess(m.flat, root, addr, i);
        cur := cur - PAGE_SIZE;
        i := i - 1;
        ghost var at1 := m.at;
        UnmapPage(m, cur);
        RootsTrans(old(m.at), at1, m.at);
      }
      NothingGone(m.flat, root, addr);
    }

    /** do_mmap. It fails if the range is in use or if memory runs out on the way; the areas are then as
        before, and the translations without those of the pages that could be mapped. Otherwise the range
        is an area, with a zeroed writable page behind every page address. Pages mapped in the range
        before lose their entries, but not their references. */
    method DoMmap(m: PageTableManager, addr: nat, len: nat, flags: nat)
        returns (r: nat, ghost start: nat, ghost done: nat)
      requires Sound(vmas) && m.Inv()
      requires addr != 0 ==> Ready(m, addr, PageUp(len) / PAGE_SIZE)
      requires addr == 0 ==> forall a: nat :: LowestRoom(vmas, PageUp(len), a) ==> Ready(m, a, PageUp(len) / PAGE_SIZE)
      modifies this`vmas, m`mem, m`free, m`refs, m`at, m`flat, m`held
      ensures Sound(vmas) && m.Inv() && m.refs.Keys == old(m.refs.Keys) && RootsKept(old(m.at), m.at)
      ensures len == 0 ==> r == 0 && done == 0
      ensures len > 0 ==> if addr != 0 then start == addr else LowestRoom(old(vmas), PageUp(len), start)
      ensures len > 0 ==>
                (r != 0 <==> Unused(old(vmas), start, start + PageUp(len))
                             && RangeFits(old(m.free), old(m.at), m, start, len))
      ensures done > 0 || r != 0 ==> Unused(old(vmas), start, start + PageUp(len))
      ensures r == 0 && len > 0 && Unused(old(vmas), start, start + PageUp(len)) ==>
                FirstMissing(old(m.free), old(m.at), m.RootOf(start), start, done)
      ensures m.held == HeldOver(old(m.held), old(m.refs), old(m.flat), m.RootOf(start), start, done)
      ensures r == 0 ==> vmas == old(vmas) && m.flat == old(m.flat) - Places(m.RootOf(start), start, done)
      ensures r != 0 ==>
                && len > 0 && r == start && done == PageUp(len) / PAGE_SIZE
                && vmas == old(vmas)[r := Vma(r, r + PageUp(len), WithAnon(flags))]
                && MappedMore(old(m.flat), m.mem, m.free, m.refs, m.flat, m.RootOf(r), r, done)
                && Taken(old(m.at), old(m.free), m.at, m.free, m.RootOf(r), r, done)
    {
      hide Taken, Good, Sound, Unused, LowestRoom, MappedMore, WithAnon, Ready, PageUp, Places, IsUserAddr, RootsKept,
           EnoughForRange, FirstMissing, HeldOver;
      RootsSame(m.at);
      start, done := addr, 0;
      NothingGone(m.flat, m.RootOf(start), start);
      NoneOver(Was(m.at, m.flat, m.free, m.refs, m.held), m.RootOf(start), start);
      if len == 0 {
        r := 0;
        return;
      }
      var size := PageUp(len);
      var from := addr;
      if addr == 0 {
        from := FindFreeArea(size);
        AtBase(vmas, size, from);
        RoomUnused(vmas, size, from);
      }
      start := from;
      NothingGone(m.flat, m.RootOf(start), start);
      NoneOver(Was(m.at, m.flat, m.free, m.refs, m.held), m.RootOf(start), start);
      var last := RangeBack(vmas, from + size);
      LastDecides(vmas, from, from + size, last);
      if last.Some? && vmas[last.value].end > from {
        r := 0;
        return;
      }
      Inserted(vmas, Vma(from, from + size, WithAnon(flags)));
      vmas := vmas[from := Vma(from, from + size, WithAnon(flags))];
      var ok;
      ok, done := MapRange(m, from, size / PAGE_SIZE);
      if !ok {
        TakenBack(old(vmas), from, Vma(from, from + size, WithAnon(flags)));
        vmas := vmas - {from};
        r := 0;
        return;
      }
      r := from;
    }

    /** Unmaps the pages from addr on whose addresses are below the end. */
    method UnmapRange(m: PageTableManager, addr: nat, end: nat)
      requires m.Inv() && addr <= end && OneHalf(addr, PageUp(end - addr) / PAGE_SIZE) && m.RootOf(addr) != 0
      requires Pos(m.RootOf(addr), []) in m.at
      modifies m`mem, m`free, m`refs, m`at, m`flat, m`held
      ensures m.Inv() && m.held == old(m.held) && m.refs.Keys == old(m.refs.Keys) && RootsKept(old(m.at), m.at)
      ensures m.flat == old(m.flat) - Places(m.RootOf(addr), addr, PageUp(end - addr) / PAGE_SIZE)
      ensures old(m.free) <= m.free
    {
      hide Good, Walk, Places, Canonical, IsUserAddr, RootsKept, PageUp;
      ghost var root, n := m.RootOf(addr), PageUp(end - addr) / PAGE_SIZE;
      RootsSame(m.at);
      NothingGone(m.flat, root, addr);
      var cur := addr;
      ghost var i: nat := 0;
      while cur < end
        invariant i <= n && cur == PageAddr(addr, i) && m.Inv() && m.held == old(m.held)
        invariant m.refs.Keys == old(m.refs.Keys)
        invariant RootsKept(old(m.at), m.at) && m.flat == old(m.flat) - Places(root, addr, i) && old(m.free) <= m.free
        decreases n - i
      {
        PageHalf(addr, n, i);
        RootStays(old(m.at), m.at, root);
        ghost var at1 := m.at;
        UnmapPage(m, cur);
        RootsTrans(old(m.at), at1, m.at);
        NextGone(old(m.flat), root, addr, i);
        cur := cur + PAGE_SIZE;
        i := i + 1;
      }
    }

    /** do_munmap. It drops the whole area that holds addr, but unmaps only the pages of the range
        within it: something of the area stays mapped exactly if something was mapped in front of the
        range or behind it. */
    method DoMunmap(m: PageTableManager, addr: nat, len: nat) returns (r: int, ghost area: Option<Vma>)
      requires Sound(vmas) && m.Inv() && OneHalf(addr, PageUp(len) / PAGE_SIZE) && m.RootOf(addr) != 0
      requires Pos(m.RootOf(addr), []) in m.at
      modifies this`vmas, m`mem, m`free, m`refs, m`at, m`flat, m`held
      ensures Sound(vmas) && m.Inv() && m.held == old(m.held) && m.refs.Keys == old(m.refs.Keys)
      ensures RootsKept(old(m.at), m.at)
      ensures Holds(old(vmas), addr, area) && r == if len == 0 || area == None then -1 else 0
      ensures r == -1 ==> vmas == old(vmas) && m.flat == old(m.flat)
      ensures old(m.free) <= m.free
      ensures r == 0 ==>
                && vmas == old(vmas) - {area.value.start}
                && m.flat == old(m.flat) - Places(m.RootOf(addr), addr, PagesCut(addr, len, area.value.end))
      ensures r == 0 && addr % PAGE_SIZE == 0 && InOneHalf(area.value) ==>
                var root, a, cut := m.RootOf(addr), area.value, addr + PagesCut(addr, len, area.value.end) * PAGE_SIZE;
                MappedIn(m.flat, root, a.start, a.end) <==>
                  MappedIn(old(m.flat), root, a.start, addr) || MappedIn(old(m.flat), root, cut, a.end)
    {
      hide Good, Walk, Places, IsUserAddr, Canonical, OneHalf, RootsKept, PageUp, Sound, MappedIn, InOneHalf;
      RootsSame(m.at);
      var size := PageUp(len);
      var last := VmaFind(addr);
      area := last;
      if len == 0 || last == None {
        return -1, area;
      }
      var vmaEnd := last.value.end;
      Removed(vmas, last.value.start);
      vmas := vmas - {last.value.start};
      PagesWithin(addr, size, vmaEnd);
      HalfLess(addr, size / PAGE_SIZE, PagesCut(addr, len, vmaEnd));
      if addr % PAGE_SIZE == 0 && InOneHalf(last.value) {
        LeftBehind(m.flat, m.RootOf(addr), last.value, addr, PagesCut(addr, len, vmaEnd));
      }
      UnmapRange(m, addr, addr + Min(size, vmaEnd - addr));
      return 0, area;
    }

    /** do_brk. Growing makes an area of what is added, unless some of it is in use. Shrinking unmaps
        the pages given up, but removes only an area that starts at the old break: the area that was
        added when it grew stays. */
    method DoBrk(m: PageTableManager, newBrk: nat) returns (r: nat)
      requires Sound(vmas) && m.Inv()
      requires var n := PageUp(newBrk);
               n < brk ==> OneHalf(n, PageUp(brk - n) / PAGE_SIZE) && m.RootOf(n) != 0 && Pos(m.RootOf(n), []) in m.at
      modifies this, m`mem, m`free, m`refs, m`at, m`flat, m`held
      ensures Sound(vmas) && m.Inv() && m.held == old(m.held) && m.refs.Keys == old(m.refs.Keys)
      ensures RootsKept(old(m.at), m.at) && r == brk
      ensures var n := PageUp(newBrk);
              if n > old(brk) then
                && m.flat == old(m.flat)
                && if Unused(old(vmas), old(brk), n) then brk == n
                    && vmas == old(vmas)[old(brk) := Vma(old(brk), n, HEAP_FLAGS)]
                   else brk == old(brk) && vmas == old(vmas)
              else
                && brk == n && vmas == (if n == old(brk) then old(vmas) else old(vmas) - {old(brk)})
                && m.flat == old(m.flat) - Places(m.RootOf(n), n, PageUp(old(brk) - n) / PAGE_SIZE)
    {
      hide Good, Walk, Places, IsUserAddr, Canonical, OneHalf, PageUp, Sound, Unused, RootsKept;
      RootsSame(m.at);
      var n := PageUp(newBrk);
      NothingGone(m.flat, m.RootOf(n), n);
      if n == brk {
        NoPages();
        return brk;
      }
      if n > brk {
        var last := RangeBack(vmas, n);
        LastDecides(vmas, brk, n, last);
        if last.Some? && vmas[last.value].end > brk {
          return brk;
        }
        Inserted(vmas, Vma(brk, n, HEAP_FLAGS));
        vmas := vmas[brk := Vma(brk, n, HEAP_FLAGS)];
      } else {
        Removed(vmas, brk);
        vmas := vmas - {brk};
        UnmapRange(m, n, brk);
      }
      brk := n;
      return brk;
    }
  }

  const HEAP_FLAGS: nat := 11

  lemma {:induction false} NoPages()
    ensures PageUp(0) == 0
  {
  }

  /** After the break has grown and shrunk again, it grows once more exactly if the new end does not reach
      the area that was added first, and the rest is unused: that area is still there. So a break lowered
      no further than it was can never grow again. */
  method GrowShrinkGrow(a: AddressSpace, m: PageTableManager, high: nat, low: nat, again: nat) returns (r: nat)
    requires Sound(a.vmas) && m.Inv() && a.brk < PageUp(high) && PageUp(low) < PageUp(high)
    requires PageUp(low) < PageUp(again) && Unused(a.vmas, a.brk, PageUp(high))
    requires var n := PageUp(low);
             OneHalf(n, PageUp(PageUp(high) - n) / PAGE_SIZE) && m.RootOf(n) != 0 && Pos(m.RootOf(n), []) in m.at
    modifies a, m`mem, m`free, m`refs, m`at, m`flat, m`held
    ensures Sound(a.vmas) && m.Inv() && r == a.brk
    ensures r == if PageUp(again) <= old(a.brk) && Unused(old(a.vmas) - {PageUp(high)}, PageUp(low), PageUp(again))
                 then PageUp(again) else PageUp(low)
    ensures old(a.brk) <= PageUp(low) ==> r == PageUp(low)
  {
    hide Good, Walk, Places, IsUserAddr, Canonical, OneHalf, PageUp, Sound, RootsKept, Unused;
    var first := a.brk;
    ghost var root, at0, v0 := m.RootOf(PageUp(low)), m.at, a.vmas;
    r := a.DoBrk(m, high);
    RootStays(at0, m.at, root);
    r := a.DoBrk(m, low);
    StillInTheWay(v0, first, PageUp(high), PageUp(low), PageUp(again));
    r := a.DoBrk(m, again);
  }

  lemma {:induction false} StillInTheWay(v: Vmas, first: nat, high: nat, low: nat, again: nat)
    requires Sound(v) && first < high && low < high && low < again && Unused(v, first, high)
    ensures var v' := v[first := Vma(first, high, HEAP_FLAGS)] - {high};
            Unused(v', low, again) <==> again <= first && Unused(v - {high}, low, again)
  {
    var a := Vma(first, high, HEAP_FLAGS);
    var v' := v[first := a] - {high};
    Inserted(v, a);
    assert first in v' && v'[first] == a;
    assert Overlaps(a, low, again) <==> first < again;
    forall k | k in v - {high}
      ensures k in v' && v'[k] == v[k]
    {
    }
    assert forall k :: k in v' ==> k == first || k in v - {high};
  }

  lemma {:induction false} PagesWithin(addr: nat, size: nat, end: nat)
    requires addr <= end && size % PAGE_SIZE == 0
    ensures PageUp(Min(size, end - addr)) / PAGE_SIZE <= size / PAGE_SIZE
  {
    PageUpLeast(Min(size, end - addr), size);
  }

  lemma {:induction false} NothingGone(flat: Leaves, root: nat, addr: nat)
    ensures flat - Places(root, addr, 0) == flat
  {
    assert Places(root, addr, 0) == {};
  }

  lemma {:induction false} NextGone(flat: Leaves, root: nat, addr: nat, i: nat)
    ensures (flat - Places(root, addr, i)) - {Walk(root, PageAddr(addr, i), 4)} == flat - Places(root, addr, i + 1)
  {
    hide Walk;
    assert Places(root, addr, i + 1) == Places(root, addr, i) + {Walk(root, PageAddr(addr, i), 4)};
  }

  /** The areas that end beyond an address. */
  ghost function Beyond(v: Vmas, addr: nat): set<nat> {
    set k | k in v && v[k].end > addr
  }

  lemma {:induction false} FewerBeyond(v: Vmas, addr: nat, k: nat)
    requires k in v && v[k].end > addr
    ensures |Beyond(v, PageUp(v[k].end))| < |Beyond(v, addr)|
  {
    hide PageUp;
    Smaller(Beyond(v, PageUp(v[k].end)), Beyond(v, addr));
    assert k in Beyond(v, addr) && k !in Beyond(v, PageUp(v[k].end));
  }

  /** No page address is skipped at which there is room: all of them run into the same area. */
  lemma {:induction false} SkipsNothing(v: Vmas, addr: nat, len: nat, k: nat)
    requires k in v && Overlaps(v[k], addr, addr + len)
    ensures forall x :: addr <= x < PageUp(v[k].end) && x % PAGE_SIZE == 0 ==> !Unused(v, x, x + len)
  {
    forall x | addr <= x < PageUp(v[k].end) && x % PAGE_SIZE == 0
      ensures !Unused(v, x, x + len)
    {
      if x >= v[k].end {
        PageUpLeast(v[k].end, x);
      }
      assert Overlaps(v[k], x, x + len);
    }
  }
}
