/**
 A fork from end to end: what the child sees right after the copy, what runs of its stores do, and
 what a store of the parent does.
 */
module ForkedProcess {
  import opened Common
  import opened PageTableModel
  import opened PageTableSteps
  import opened PageTableTrees
  import opened PageTables
  import opened ForkIsolation

  // ---------------------------------------------------------------------------
  // What the child sees right after the copy
  // ---------------------------------------------------------------------------

  /** The same contents at the same places of another address space. */
  ghost function Mirrored(seen: map<Pos, Page>, src: nat, dst: nat): map<Pos, Page> {
    map k | k in Mirrors(seen.Keys, dst) && Mirror(k, src) in seen :: seen[Mirror(k, src)]
  }

  /** One view is part of another. */
  ghost predicate PartOf(small: map<Pos, Page>, large: map<Pos, Page>) {
    forall k :: k in small ==> k in large && small[k] == large[k]
  }

  lemma {:induction false} MirroredAt(seen: map<Pos, Page>, src: nat, dst: nat, k: Pos)
    requires forall x :: x in seen ==> x.root == src
    ensures k in Mirrored(seen, src, dst) <==> k.root == dst && Mirror(k, src) in seen
    ensures k in Mirrored(seen, src, dst) ==> Mirrored(seen, src, dst)[k] == seen[Mirror(k, src)]
  {
    if k.root == dst && Mirror(k, src) in seen {
      assert Mirror(Mirror(k, src), dst) == k;
    }
  }

  /** The page behind a leaf of the child is the one behind the parent's, with its contents. */
  lemma {:induction false} SharedPage(mem0: Memory, free0: set<nat>, refs: map<nat, nat>, at0: Tables, flat0: Leaves,
                                      held: multiset<nat>, mem: Memory,
        at1: Tables, at: Tables, flat: Leaves, free: set<nat>, src: nat, dst: nat, k: Pos)
    requires Good(mem0, free0, refs, at0, flat0, held) && Forked(at1, flat0, at, flat, free, src, dst)
    requires DataKept(mem0, mem, free0)
    requires k in flat && k.root == dst
    ensures Mirror(k, src) in flat0 && flat0[Mirror(k, src)].Present? && flat[k].Present?
    ensures flat[k].pa == flat0[Mirror(k, src)].pa
    ensures flat[k].pa in refs ==> CopyOf(mem, flat[k].pa) == CopyOf(mem0, flat[k].pa)
  {
    hide Good, PhysBits, Count;
    MappedPage(mem0, free0, refs, at0, flat0, held, Mirror(k, src));
  }

  /** Right after the copy the child sees a part of what the parent saw: all of it, if every leaf was
      copied. */
  lemma {:induction false} ForkSeen(mem0: Memory, free0: set<nat>, refs: map<nat, nat>, at0: Tables, flat0: Leaves,
                                    held: multiset<nat>, mem: Memory,
        at1: Tables, at: Tables, flat: Leaves, free: set<nat>, src: nat, dst: nat)
    requires Good(mem0, free0, refs, at0, flat0, held) && Forked(at1, flat0, at, flat, free, src, dst)
    requires DataKept(mem0, mem, free0)
    ensures PartOf(Seen(mem, flat, refs.Keys, dst), Mirrored(Seen(mem0, flat0, refs.Keys, src), src, dst))
    ensures (forall k :: k in flat0 && k.root == src ==> Mirror(k, dst) in flat) ==>
              Seen(mem, flat, refs.Keys, dst) == Mirrored(Seen(mem0, flat0, refs.Keys, src), src, dst)
  {
    hide Good, Forked, DataKept, CopyOf, Mirrored;
    var child, parent := Seen(mem, flat, refs.Keys, dst), Seen(mem0, flat0, refs.Keys, src);
    forall k: Pos
      ensures k in child ==> k in Mirrored(parent, src, dst) && child[k] == Mirrored(parent, src, dst)[k]
      ensures k in Mirrored(parent, src, dst) && k in flat ==> k in child
      ensures k in Mirrored(parent, src, dst) ==>
                k.root == dst && Mirror(k, src) in flat0 && Mirror(Mirror(k, src), dst) == k
    {
      MirroredAt(parent, src, dst, k);
      if k in flat && k.root == dst {
        SharedPage(mem0, free0, refs, at0, flat0, held, mem, at1, at, flat, free, src, dst, k);
      }
    }
  }

  /** The same of what user mode can load: the child can load wherever its parent could. */
  lemma {:induction false} ForkLoads(mem0: Memory, free0: set<nat>, refs: map<nat, nat>, at0: Tables, flat0: Leaves,
                                     held: multiset<nat>, mem: Memory,
        at1: Tables, at: Tables, flat: Leaves, free: set<nat>, src: nat, dst: nat)
    requires Good(mem0, free0, refs, at0, flat0, held) && Forked(at1, flat0, at, flat, free, src, dst)
    requires DataKept(mem0, mem, free0) && AccessCopied(flat0, flat, src, dst)
    ensures PartOf(Loaded(mem, flat, refs.Keys, dst), Mirrored(Loaded(mem0, flat0, refs.Keys, src), src, dst))
    ensures (forall k :: k in flat0 && k.root == src ==> Mirror(k, dst) in flat) ==>
              Loaded(mem, flat, refs.Keys, dst) == Mirrored(Loaded(mem0, flat0, refs.Keys, src), src, dst)
  {
    hide Good, Forked, DataKept, CopyOf, Mirrored;
    var child, parent := Loaded(mem, flat, refs.Keys, dst), Loaded(mem0, flat0, refs.Keys, src);
    forall k: Pos
      ensures k in child ==> k in Mirrored(parent, src, dst) && child[k] == Mirrored(parent, src, dst)[k]
      ensures k in Mirrored(parent, src, dst) && k in flat ==> k in child
      ensures k in Mirrored(parent, src, dst) ==>
                k.root == dst && Mirror(k, src) in flat0 && Mirror(Mirror(k, src), dst) == k
    {
      MirroredAt(parent, src, dst, k);
      if k in flat && k.root == dst {
        SharedPage(mem0, free0, refs, at0, flat0, held, mem, at1, at, flat, free, src, dst, k);
      }
    }
  }

  /** The copy changes nothing for any other address space. */
  lemma {:induction false} ForkOthers(mem0: Memory, free0: set<nat>, refs: map<nat, nat>, at0: Tables, flat0: Leaves,
                                      held: multiset<nat>, mem: Memory,
        at1: Tables, at: Tables, flat: Leaves, free: set<nat>, src: nat, dst: nat)
    requires Good(mem0, free0, refs, at0, flat0, held) && Forked(at1, flat0, at, flat, free, src, dst)
    requires DataKept(mem0, mem, free0)
    ensures OthersUntouched(mem0, flat0, mem, flat, refs.Keys, dst)
  {
    hide Good, DataKept, CopyOf, CowPte;
    forall k | k in flat0 && k.root != dst
      ensures k in flat && flat[k] == flat0[k]
      ensures (flat[k].Present? && flat[k].pa in refs ==> CopyOf(mem, flat[k].pa) == CopyOf(mem0, flat[k].pa))
    {
      OldPage(mem0, free0, refs, at0, flat0, held, mem, k);
    }
  }

  lemma {:induction false} OldPage(mem0: Memory, free0: set<nat>, refs: map<nat, nat>, at0: Tables, flat0: Leaves,
                                   held: multiset<nat>, mem: Memory, k: Pos)
    requires Good(mem0, free0, refs, at0, flat0, held) && DataKept(mem0, mem, free0) && k in flat0
    ensures flat0[k].Present? && (flat0[k].pa in refs ==> CopyOf(mem, flat0[k].pa) == CopyOf(mem0, flat0[k].pa))
  {
    hide Good, PhysBits, Count;
    MappedPage(mem0, free0, refs, at0, flat0, held, k);
  }

  /** While no leaf changes, nobody sees a difference. */
  lemma {:induction false} KeptOthers(mem0: Memory, free0: set<nat>, refs: map<nat, nat>, at0: Tables, flat0: Leaves,
                                      held: multiset<nat>, mem: Memory, root: nat)
    requires Good(mem0, free0, refs, at0, flat0, held) && DataKept(mem0, mem, free0)
    ensures OthersUntouched(mem0, flat0, mem, flat0, refs.Keys, root)
  {
    hide Good, DataKept, CopyOf;
    forall k | k in flat0
      ensures flat0[k].Present? && (flat0[k].pa in refs ==> CopyOf(mem, flat0[k].pa) == CopyOf(mem0, flat0[k].pa))
    {
      OldPage(mem0, free0, refs, at0, flat0, held, mem, k);
    }
  }

  /** A new root is no table below an old one. */
  lemma {:induction false} NewRootTables(at: Tables, root: nat, src: nat)
    requires Pos(root, []) !in at
    ensures TablesBelow(at[Pos(root, []) := root], src) == TablesBelow(at, src)
  {
  }

  lemma {:induction false} RootsStay(at0: Tables, at1: Tables, flat0: Leaves, at: Tables, flat: Leaves, free: set<nat>,
                                     src: nat, dst: nat)
    requires at1 == at0[Pos(dst, []) := dst] && Forked(at1, flat0, at, flat, free, src, dst)
    ensures RootsKept(at0, at)
  {
  }

  lemma {:induction false} OneFrameLess(free: set<nat>, f: nat)
    requires f in free
    ensures |free - {f}| == |free| - 1
  {
  }

  // ---------------------------------------------------------------------------
  // Fork, then run
  // ---------------------------------------------------------------------------

  /** Makes a root, copies the running address space into it, and switches to it; 0 if there is no
      frame for the root. The child sees and can load what the parent did, if there are as many frames
      as tables to copy, and a part of it otherwise; it can write to nothing without a fault. */
  method Fork(m: PageTableManager) returns (child: nat)
    requires m.Inv() && m.ttbr0 != 0 && Pos(m.ttbr0, []) in m.at && UserPages(m.flat, m.refs.Keys, m.ttbr0)
    modifies m
    ensures m.refs.Keys == old(m.refs.Keys)
    ensures child == 0 <==> old(m.free) == {}
    ensures child == 0 ==>
              && m.Inv() && m.flat == old(m.flat) && m.ttbr0 == old(m.ttbr0)
              && OthersUntouched(old(m.mem), old(m.flat), m.mem, m.flat, m.refs.Keys, child)
    ensures child != 0 ==>
              && Running(m) && m.ttbr0 == child && child != old(m.ttbr0) && RootsKept(old(m.at), m.at)
              && (forall k :: k in m.flat && k.root == child ==> !UserStores(m.flat[k]))
              && AccessCopied(old(m.flat), m.flat, old(m.ttbr0), child)
              && OthersUntouched(old(m.mem), old(m.flat), m.mem, m.flat, m.refs.Keys, child)
              && PartOf(SeenBy(m, child), Mirrored(old(SeenBy(m, m.ttbr0)), old(m.ttbr0), child))
              && PartOf(LoadedBy(m, child), Mirrored(old(LoadedBy(m, m.ttbr0)), old(m.ttbr0), child))
              && (|old(m.free)| > |TablesBelow(old(m.at), old(m.ttbr0))| ==>
                    && SeenBy(m, child) == Mirrored(old(SeenBy(m, m.ttbr0)), old(m.ttbr0), child)
                    && LoadedBy(m, child) == Mirrored(old(LoadedBy(m, m.ttbr0)), old(m.ttbr0), child))
  {
    hide Good, PhysBits, DataKept, EmptyRoot, Forked, AllTables, TablesBelow, Paid, Private, UserPages, OthersUntouched,
         PartOf, Mirrored, Seen, Loaded, UserStores, AccessCopied;
    ghost var mem0, free0, refs0, at0, flat0, held0, src := m.mem, m.free, m.refs, m.at, m.flat, m.held, m.ttbr0;
    child := m.CreateUserPgd();
    if child == 0 {
      KeptOthers(mem0, free0, refs0, at0, flat0, held0, m.mem, child);
      return;
    }
    ghost var mem1, free1, at1 := m.mem, m.free, m.at;
    OneFrameLess(free0, child);
    NewRootTables(at0, child, src);
    m.CopyUserPageTable(m.ttbr0, child);
    ghost var at2, flat2, free2 := m.at, m.flat, m.free;
    DataKeptTrans(mem0, mem1, m.mem, free0, free1);
    ForkSeen(mem0, free0, refs0, at0, flat0, held0, m.mem, at1, at2, flat2, free2, src, child);
    ForkLoads(mem0, free0, refs0, at0, flat0, held0, m.mem, at1, at2, flat2, free2, src, child);
    ForkOthers(mem0, free0, refs0, at0, flat0, held0, m.mem, at1, at2, flat2, free2, src, child);
    ChildPrivate(at1, flat0, at2, flat2, free2, m.refs.Keys, src, child);
    CopyRoot(at1, flat0, at2, flat2, free2, src, child);
    RootsStay(at0, at1, flat0, at2, flat2, free2, src, child);
    m.ttbr0 := child;
  }

  /** A fork and then any run of stores of the child. The child sees what it saw after the copy,
      overlaid with its own stores; what every other address space, the parent among them, maps and
      sees is what it was before the fork. */
  method ForkAndRun(m: PageTableManager, stores: seq<Store>)
      returns (child: nat, done: nat, ghost start: map<Pos, Page>)
    requires m.Inv() && m.ttbr0 != 0 && Pos(m.ttbr0, []) in m.at && UserPages(m.flat, m.refs.Keys, m.ttbr0)
    requires forall i :: 0 <= i < |stores| ==> IsUserAddr(stores[i].va)
    modifies m
    ensures child == 0 <==> old(m.free) == {}
    ensures done <= |stores| && OthersUntouched(old(m.mem), old(m.flat), m.mem, m.flat, m.refs.Keys, child)
    ensures child != 0 ==>
              && m.ttbr0 == child && child != old(m.ttbr0)
              && PartOf(start, Mirrored(old(SeenBy(m, m.ttbr0)), old(m.ttbr0), child))
              && (|old(m.free)| > |TablesBelow(old(m.at), old(m.ttbr0))| ==>
                    start == Mirrored(old(SeenBy(m, m.ttbr0)), old(m.ttbr0), child))
              && var seen := Overlaid(start, child, stores[..done]);
                 || SeenBy(m, child) == seen
                 || (done < |stores| && SeenBy(m, child) == ZeroFilled(seen, LeafOf(child, stores[done].va)))
  {
    hide Good, PhysBits, TablesBelow, Running, UserPages, OthersUntouched, PartOf, Mirrored, Seen, Loaded, UserStores,
         AccessCopied, Overlaid, ZeroFilled, LeafOf;
    child := Fork(m);
    start, done := SeenBy(m, child), 0;
    if child == 0 {
      return;
    }
    ghost var mem1, flat1 := m.mem, m.flat;
    done := RunStores(m, stores);
    OthersTrans(old(m.mem), old(m.flat), mem1, flat1, m.mem, m.flat, m.refs.Keys, child);
  }

  // ---------------------------------------------------------------------------
  // Stores of the parent
  // ---------------------------------------------------------------------------

  /** A store that needs no fault. It succeeds exactly if the entry is writable, and then the view of
      any address space changes at a place exactly if the entry there maps the page stored to and the
      byte differs: nothing keeps the pages of a forked child apart from its parent's stores. */
  method DirectStore(m: PageTableManager, va: nat, byte: nat) returns (stored: bool)
    requires m.Inv() && Pos(m.ttbr0, []) in m.at && UserPages(m.flat, m.refs.Keys, m.ttbr0) && IsUserAddr(va)
    modifies m`mem
    ensures m.Inv()
    ensures var k := LeafOf(m.ttbr0, va);
            && (stored <==> k in m.flat && UserStores(m.flat[k]))
            && (!stored ==> m.mem == old(m.mem))
            && (stored ==>
                  && (forall r: nat, k': Pos :: k' in SeenBy(m, r) <==> k' in old(SeenBy(m, r)))
                  && (forall r: nat, k': Pos :: k' in SeenBy(m, r) ==>
                        (SeenBy(m, r)[k'] != old(SeenBy(m, r))[k'] <==>
                           Hit(old(m.mem), m.flat, k', m.flat[k].pa, va % PAGE_SIZE, byte)))
                  && (forall r: nat, k': Pos :: k' in SeenBy(m, r) && m.flat[k'].pa == m.flat[k].pa ==>
                        SeenBy(m, r)[k'] == Poked(old(SeenBy(m, r))[k'], va % PAGE_SIZE, byte)))
  {
    hide Good, PhysBits, UserPages, IsUserAddr, Hit, Seen, Walk, Poked, CopyOf;
    LeafManaged(m.flat, m.refs.Keys, LeafOf(m.ttbr0, va), m.ttbr0);
    var entry := HardwareWalk(m, va);
    if !UserStores(entry) {
      return false;
    }
    PokePage(m, entry.pa, va % PAGE_SIZE, byte, LeafOf(m.ttbr0, va));
    return true;
  }

  /** The first n pages of memory above address zero. */
  function FirstPages(n: nat): (frames: set<nat>)
    ensures |frames| == n && forall f :: f in frames ==> 0 < f <= n * PAGE_SIZE && f % PAGE_SIZE == 0
  {
    if n == 0 then {} else
    var rest := FirstPages(n - 1);
    assert n * PAGE_SIZE !in rest;
    rest + {n * PAGE_SIZE}
  }

  lemma {:induction false} SmallPage(f: nat)
    requires f % PAGE_SIZE == 0 && f < 0x1_0000_0000_0000
    ensures PhysBits(f) == f
  {
  }

  /** Mapping one address into a fresh root takes three tables at most. */
  lemma {:induction false} FewTables(at0: Tables, free0: set<nat>, at: Tables, free: set<nat>, root: nat, va: nat)
    requires Grown(at0, free0, at, free, Path(root, va)) && at0 == map[Pos(root, []) := root]
    ensures |free| + 3 >= |free0| && |TablesBelow(at, root)| <= 3
  {
    hide Walk, Spent;
    Smaller(Added(at0, at), Path(root, va));
    Smaller(TablesBelow(at, root), Added(at0, at));
  }

  lemma {:induction false} RoomForPage(at: Tables, free: set<nat>, root: nat, va: nat)
    requires |free| > 3
    ensures EnoughForPage(free, at, root, va)
  {
    hide Walk;
    Smaller(Path(root, va) - at.Keys, Path(root, va));
  }

  /** One leaf, mapped to a zeroed page, and what is seen of it. */
  lemma {:induction false} OneLeafSeen(mem: Memory, flat: Leaves, frames: set<nat>, k: Pos, pa: nat)
    requires flat == map[k := Present(pa, PAGE_USER_RW)] && pa in frames && pa in mem
    ensures UserPages(flat, frames, k.root) && Seen(mem, flat, frames, k.root) == map[k := mem[pa]]
  {
  }

  /** What the copy left of the parent's leaf, and made of the child's. */
  lemma {:induction false} LeafOnBothSides(mem0: Memory, flat0: Leaves, mem: Memory, flat: Leaves, frames: set<nat>,
                                           k: Pos, child: nat, page: Page)
    requires OthersUntouched(mem0, flat0, mem, flat, frames, child) && child != k.root
    requires UserPages(flat0, frames, k.root)
    requires k in flat0 && Seen(mem0, flat0, frames, k.root) == map[k := page]
    requires Seen(mem, flat, frames, child) == Mirrored(Seen(mem0, flat0, frames, k.root), k.root, child)
    ensures UserPages(flat, frames, k.root) && k in flat && flat[k] == flat0[k] && Mirror(k, child) in flat
    ensures var seen := Seen(mem, flat, frames, child); Mirror(k, child) in seen && seen[Mirror(k, child)] == page
  {
    hide CopyOf, Mirrored, Mirrors;
    assert Untouched(mem0, flat0, mem, flat, frames, k.root);
    forall x | x in flat && x.root == k.root
      ensures x in flat0 && flat[x] == flat0[x]
    {
      assert x in Translations(flat, k.root);
    }
    assert k in Translations(flat0, k.root);
    assert Mirror(Mirror(k, child), k.root) == k;
    MirroredAt(Seen(mem0, flat0, frames, k.root), k.root, child, Mirror(k, child));
  }

  lemma {:induction false} LeafCopied(flat0: Leaves, flat: Leaves, k: Pos, child: nat, pa: nat)
    requires AccessCopied(flat0, flat, k.root, child) && Mirror(k, child) in flat
    requires k in flat0 && flat0[k] == Present(pa, PAGE_USER_RW)
    ensures flat[Mirror(k, child)] == Present(pa, Prot(true, true, PAGE_USER_RW.attrs))
  {
    assert Pos(k.root, Mirror(k, child).path) == k;
  }

  /** An empty machine of 16 pages. */
  method Boot() returns (m: PageTableManager)
    ensures fresh(m) && m.Inv() && |m.free| == 16 && m.at == map[] && m.flat == map[] && m.held == multiset{}
    ensures m.refs.Keys == m.free
  {
    hide PhysBits, Good;
    forall f | f in FirstPages(16)
      ensures PhysBits(f) == f
    {
      SmallPage(f);
    }
    m := new PageTableManager(FirstPages(16));
  }

  /** A process whose first store, to address 0, has brought in its only page. */
  method OnePageProcess() returns (m: PageTableManager, ghost k: Pos, ghost pa: nat)
    ensures fresh(m) && m.Inv() && m.ttbr0 != 0 && Pos(m.ttbr0, []) in m.at && |m.free| > |TablesBelow(m.at, m.ttbr0)|
    ensures k == LeafOf(m.ttbr0, 0) && m.flat == map[k := Present(pa, PAGE_USER_RW)] && pa in m.refs
    ensures UserPages(m.flat, m.refs.Keys, m.ttbr0) && SeenBy(m, m.ttbr0) == map[k := Data(Zeros())]
  {
    hide Good, PhysBits, Walk, Path, Grown, Zeros, CopyOf, EmptyRoot, UseKept, DataKept, TablesBelow, EnoughForPage,
         RootsKept, HeldAfterFault;
    m := Boot();
    ghost var frames := m.free;
    var parent := m.CreateUserPgd();
    OneFrameLess(frames, parent);
    m.ttbr0 := parent;
    ghost var at1, free1 := m.at, m.free;
    RoomForPage(at1, free1, parent, 0);
    var r;
    r, pa := m.ProcessFault(0, true, true, false, true, seq(PAGE_SIZE, _ => 0));
    k := LeafOf(parent, 0);
    RootStays(at1, m.at, parent);
    FewTables(at1, free1 - {pa}, m.at, m.free, parent, 0);
    OneFrameLess(free1, pa);
    OneLeafSeen(m.mem, m.flat, m.refs.Keys, k, pa);
  }

  /** A process with one writable page at address 0 has forked, and is running again: the page is in
      both address spaces, and the parent may write to it. */
  method ForkedState() returns (m: PageTableManager, child: nat, ghost k: Pos, ghost pa: nat)
    ensures fresh(m) && m.Inv() && m.ttbr0 != child && Pos(m.ttbr0, []) in m.at
    ensures UserPages(m.flat, m.refs.Keys, m.ttbr0)
    ensures k == LeafOf(m.ttbr0, 0) && k in m.flat && m.flat[k] == Present(pa, PAGE_USER_RW)
    ensures Mirror(k, child) in m.flat && pa in m.refs
    ensures m.flat[Mirror(k, child)] == Present(pa, Prot(true, true, PAGE_USER_RW.attrs))
    ensures Mirror(k, child) in SeenBy(m, child) && SeenBy(m, child)[Mirror(k, child)] == Data(Zeros())
  {
    hide RootsKept, Good, PhysBits, Walk, Private, UserPages, PartOf, Mirrored, OthersUntouched, Zeros, CopyOf,
         TablesBelow, Seen, Loaded, AccessCopied;
    m, k, pa := OnePageProcess();
    var parent := m.ttbr0;
    ghost var mem1, at1, flat1 := m.mem, m.at, m.flat;
    child := Fork(m);
    RootStays(at1, m.at, parent);
    LeafOnBothSides(mem1, flat1, m.mem, m.flat, m.refs.Keys, k, child, Data(Zeros()));
    LeafCopied(flat1, m.flat, k, child, pa);
    m.ttbr0 := parent;
  }

  lemma {:induction false} FirstByte()
    ensures IsUserAddr(0) && |Zeros()| == PAGE_SIZE && Zeros()[0 := 1] != Zeros()
    ensures Poked(Data(Zeros()), 0 % PAGE_SIZE, 1) == Data(Zeros()[0 := 1])
  {
    assert Zeros()[0 := 1][0] != Zeros()[0];
  }

  lemma {:induction false} MirrorWalk(root: nat, root': nat, va: nat)
    ensures Mirror(Walk(root, va, 4), root') == Walk(root', va, 4)
  {
    WalkPath(root, va);
    WalkPath(root', va);
    hide Walk;
  }

  /** In that state a store of the parent shows in the child. */
  method ParentStoreShows() returns (m: PageTableManager, child: nat, ghost k: Pos)
    ensures fresh(m) && m.Inv() && child != m.ttbr0 && k == LeafOf(child, 0)
    ensures k in SeenBy(m, child) && SeenBy(m, child)[k] == Data(Zeros()[0 := 1]) != Data(Zeros())
  {
    hide Good, PhysBits, Walk, UserPages, IsUserAddr, Zeros, Hit, Poked, Seen;
    ghost var leaf, pa;
    m, child, leaf, pa := ForkedState();
    FirstByte();
    MirrorWalk(m.ttbr0, child, 0);
    var stored := DirectStore(m, 0, 1);
    k := Mirror(leaf, child);
  }
}
