/**
 The page-table code of the memory manager: mapping, unmapping and looking up one page, page
 references, the page fault handler, fork copy and teardown. Addresses are physical page
 addresses; the buddy allocator appears as the set of its free single frames.
 */
module PageTables {
  import opened Common
  import opened PageTableModel
  import opened PageTableSteps
  import opened PageTableTrees

  datatype Fault = Resolved | NoMm | NoVma | Segv | OutOfMemory

  const VMALLOC_START: nat := 0xffff_0000_0000_0000
  const VMALLOC_SIZE: nat := 0x10_0000_0000

  /** The address lies in the vmalloc range and in a range that was handed out. */
  predicate VmallocFault(addr: nat, busy: seq<(nat, nat)>) {
    && VMALLOC_START <= addr < VMALLOC_START + VMALLOC_SIZE
    && exists i :: 0 <= i < |busy| && busy[i].0 <= addr < busy[i].1
  }

  /** What a resolved fault leaves at the leaf k: a zeroed kernel page, a writable copy, or a zeroed page. */
  ghost predicate FaultResolved(mem: Memory, refs: map<nat, nat>, flat: Leaves, held: multiset<nat>, mem': Memory,
                                refs': map<nat, nat>, flat': Leaves, held': multiset<nat>, page: nat, k: Pos,
                                kernel: bool, vmExec: bool, isWrite: bool, device: seq<nat>)
    requires page in mem' && |device| == PAGE_SIZE
  {
    if kernel then
      && flat' == flat[k := Present(page, PAGE_KERNEL_RW)] && mem'[page] == Data(Zeros())
      && held' == HeldAfterFault(held, refs', flat, k)
    else if isWrite && Finds(flat, k) then
      && flat' == flat[k := Present(page, PAGE_USER_RW)] && held' == held
      && mem'[page] == Data(BytesAt(mem, refs, flat[k].pa, device))
    else
      && flat' == flat[k := Present(page, if vmExec then PAGE_USER_RX else PAGE_USER_RW)]
      && mem'[page] == Data(Zeros()) && held' == HeldAfterFault(held, refs', flat, k)
  }

  /** What user mode may do with the page of an entry. It may run it if bit 54, UXN, is clear. */
  predicate UserLoads(pte: Pte) {
    pte.Present? && pte.prot.el0
  }

  predicate UserStores(pte: Pte) {
    pte.Present? && pte.prot.el0 && !pte.prot.readOnly
  }

  predicate UserRuns(pte: Pte) {
    pte.Present? && pte.prot.el0 && pte.prot.attrs / 0x40_0000_0000_0000 % 2 == 0
  }

  /** After a fault the process can load from the page, unless it is one of the kernel's; it can store
      to it unless the area is executable and no copy was made; and it cannot run it, whatever the area. */
  lemma {:induction false} RightsAfterFault(mem: Memory, refs: map<nat, nat>, flat: Leaves, held: multiset<nat>,
                                            mem': Memory, refs': map<nat, nat>, flat': Leaves, held': multiset<nat>,
                                            page: nat, k: Pos, kernel: bool, vmExec: bool, isWrite: bool,
                                            device: seq<nat>)
    requires page in mem' && |device| == PAGE_SIZE
    requires FaultResolved(mem, refs, flat, held, mem', refs', flat', held', page, k, kernel, vmExec, isWrite, device)
    ensures k in flat' && flat'[k].Present? && flat'[k].pa == page && !UserRuns(flat'[k])
    ensures UserLoads(flat'[k]) <==> !kernel
    ensures UserStores(flat'[k]) <==> !kernel && (vmExec ==> isWrite && Finds(flat, k))
  {
    hide HeldAfterFault, Zeros, BytesAt;
    assert 0x60_0000_0000_0703 / 0x40_0000_0000_0000 % 2 == 1;
  }

  class PageTableManager {
    var mem: Memory
    var free: set<nat>
    var refs: map<nat, nat>
    var ttbr0: nat
    var ttbr1: nat
    ghost var at: Tables
    ghost var flat: Leaves
    ghost var held: multiset<nat>

    ghost predicate Inv()
      reads this
    {
      Good(mem, free, refs, at, flat, held)
    }

    /** The state before any table exists: all frames are free. */
    constructor (frames: set<nat>)
      requires forall f :: f in frames ==> f > 0 && PhysBits(f) == f
      ensures Inv() && free == frames == refs.Keys && at == map[] && flat == map[] && held == multiset{}
      ensures ttbr0 == ttbr1 == 0
    {
      mem := map f | f in frames :: Data([]);
      free := frames;
      refs := map f | f in frames :: 0;
      ttbr0, ttbr1 := 0, 0;
      at, flat, held := map[], map[], multiset{};
      new;
      hide PhysBits;
      assert forall f :: Mappers(flat, f) == {};
      assert refs.Keys == frames;
    }

    /** create_user_pgd: a zeroed table of its own for a new address space; 0 when no frame is free. */
    method CreateUserPgd() returns (pgd: nat)
      requires Inv()
      modifies this`mem, this`free, this`refs, this`at, this`held
      ensures Inv() && held == old(held) && refs.Keys == old(refs).Keys && DataKept(old(mem), mem, old(free))
      ensures pgd == 0 <==> old(free) == {}
      ensures pgd == 0 ==> at == old(at) && free == old(free)
      ensures pgd != 0 ==> pgd in old(free) && free == old(free) - {pgd} && pgd in refs
      ensures pgd != 0 ==> Pos(pgd, []) !in old(at) && at == old(at)[Pos(pgd, []) := pgd] && EmptyRoot(at, flat, pgd)
    {
      hide Good, PhysBits, DataKept, Count, EmptyRoot, ZeroTable;
      pgd := AllocPhysPages();
      if pgd == 0 {
        return;
      }
      RootLinked(mem, free, refs, at, flat, held, pgd);
      ZeroTableKept(old(mem), mem, old(free), pgd);
      PutBack(old(held), pgd);
      mem, at, held := mem[pgd := ZeroTable()], at[Pos(pgd, []) := pgd], held - multiset{pgd};
    }

    /** alloc_phys_pages(0, GFP_KERNEL) as its callers see it: some free frame, or 0. What the
        frame contains is not promised. */
    method AllocPhysPages() returns (pa: nat)
      requires Inv()
      modifies this`free, this`refs, this`held, this`mem
      ensures Inv() && DataKept(old(mem), mem, old(free)) && refs.Keys == old(refs).Keys
      ensures pa == 0 <==> old(free) == {}
      ensures pa == 0 ==> free == old(free) && held == old(held) && refs == old(refs)
      ensures pa != 0 ==>
                && pa in old(free) && free == old(free) - {pa} && refs == old(refs)[pa := 1]
                && held == old(held) + multiset{pa}
      ensures pa != 0 ==> pa !in at.Values && pa in refs && held[pa] == 1 && PhysBits(pa) == pa && Count(flat, pa) == 0
      ensures pa != 0 ==> pa in mem && mem[pa].Data? && |mem[pa].bytes| == PAGE_SIZE
    {
      hide Tree, Accounts, PhysBits, Count;
      if free == {} {
        return 0;
      }
      pa :| pa in free;
      TakeFrame(free, refs, at, flat, held, pa);
      var bytes := seq(PAGE_SIZE, _ => 0);
      TakePage(mem, free, refs, at, flat, held, pa, bytes);
      mem := mem[pa := Data(bytes)];
      free := free - {pa};
      refs := refs[pa := 1];
      held := held + multiset{pa};
      assert refs.Keys == old(refs).Keys;
    }

    /** Checks an entry of a table and creates the table below it if it is absent; 0 when no
        frame is left. */
    method NextTable(ghost p: Pos, table: nat, i: nat) returns (next: nat)
      requires Inv() && p in at && at[p] == table && |p.path| <= 2 && i < PTRS_PER_PTE
      modifies this`mem, this`free, this`refs, this`at, this`held
      ensures Inv() && DataKept(old(mem), mem, old(free)) && held == old(held) && refs.Keys == old(refs).Keys
      ensures next == 0 <==> Child(p, i) !in old(at) && old(free) == {}
      ensures next != 0 ==> Child(p, i) in at && at[Child(p, i)] == next
      ensures next == 0 ==> at == old(at) && free == {}
      ensures Grown(old(at), old(free), at, free, {Child(p, i)})
    {
      hide Accounts, Frames, PhysBits, Count, Child, DataKept, Grown, Index;
      EntryAt(mem, at, flat, p, i);
      Disjoint(free, refs, at, flat, held);
      GrownNot(at, free, {Child(p, i)});
      hide Tree;
      if mem[table].entries[i] != Absent {
        TablePhys(mem, free, refs, at, Child(p, i));
        NothingLost(mem, free);
        return PhysBits(mem[table].entries[i].pa);
      }
      next := CreateTable(p, table, i);
    }

    /** Takes a frame for a new table and links it in; 0 when none is free. */
    method CreateTable(ghost p: Pos, table: nat, i: nat) returns (next: nat)
      requires Inv() && p in at && at[p] == table && |p.path| <= 2 && i < PTRS_PER_PTE && Child(p, i) !in at
      modifies this`mem, this`free, this`refs, this`at, this`held
      ensures Inv() && DataKept(old(mem), mem, old(free)) && held == old(held) && refs.Keys == old(refs).Keys
      ensures next == 0 <==> old(free) == {}
      ensures next != 0 ==> Child(p, i) in at && at[Child(p, i)] == next
      ensures next == 0 ==> at == old(at) && free == {}
      ensures Grown(old(at), old(free), at, free, {Child(p, i)})
    {
      hide Tree, Accounts, Frames, PhysBits, Count, Child, DataKept, Grown, Index;
      Disjoint(free, refs, at, flat, held);
      GrownNot(at, free, {Child(p, i)});
      next := AllocPhysPages();
      if next == 0 {
        return;
      }
      ghost var mem1 := mem;
      LinkTableAt(p, table, i, next);
      DataKeptLater(old(mem), mem1, mem, old(free), next);
      GrownOne(old(at), old(free), Child(p, i), next);
      PutBack(old(held), next);
    }

    /** The frame just allocated is cleared and entered into the table above it. */
    method LinkTableAt(ghost p: Pos, table: nat, i: nat, next: nat)
      requires Inv() && p in at && at[p] == table && |p.path| <= 2 && i < PTRS_PER_PTE && Child(p, i) !in at
      requires next in refs && next !in free && next !in at.Values && refs[next] == 1 && held[next] == 1
      modifies this`mem, this`at, this`held
      ensures Inv() && at == old(at)[Child(p, i) := next] && held == old(held) - multiset{next}
      ensures DataKept(old(mem), mem, {next})
    {
      hide Good, Child, ZeroTable, DataKept, SetEntry, PhysBits, Index;
      TableLinked(mem, free, refs, at, flat, held, p, i, next);
      mem := mem[next := ZeroTable()];
      mem, at, held := SetEntry(mem, table, i, Present(next, TABLE_PROT)), at[Child(p, i) := next],
          held - multiset{next};
    }

    /** A leaf entry is written over whatever was there. */
    method SetLeaf(ghost p: Pos, table: nat, i: nat, pte: Pte)
      requires Inv() && p in at && at[p] == table && |p.path| == 3 && i < PTRS_PER_PTE && pte.Present?
      requires PhysBits(pte.pa) == pte.pa
      requires pte.pa !in at.Values && (pte.pa in refs ==> held[pte.pa] > 0)
      modifies this`mem, this`flat, this`held
      ensures Inv() && flat == old(flat)[Child(p, i) := pte]
      ensures held == HeldAfterWrite(old(held), refs, old(flat), Child(p, i), pte)
      ensures DataKept(old(mem), mem, {})
    {
      hide Good, Child, SetEntry, HeldAfterWrite, DataKept, PhysBits, Index;
      LeafWritten(mem, free, refs, at, flat, held, p, i, pte);
      mem, flat, held := SetEntry(mem, table, i, pte), flat[Child(p, i) := pte],
          HeldAfterWrite(held, refs, flat, Child(p, i), pte);
    }

    /** The root register the hardware uses for va. */
    function RootOf(va: nat): nat
      reads this`ttbr0, this`ttbr1
    {
      if IsUserAddr(va) then ttbr0 else ttbr1
    }

    /** The part of map_one_page that finds or creates the tables on the way to va. */
    method CreateWalk(l0: nat, va: nat) returns (l3: nat)
      requires Inv() && Pos(l0, []) in at && at[Pos(l0, [])] == l0
      modifies this`mem, this`free, this`refs, this`at, this`held
      ensures Inv() && DataKept(old(mem), mem, old(free)) && held == old(held) && refs.Keys == old(refs).Keys
      ensures Grown(old(at), old(free), at, free, Path(l0, va))
      ensures l3 != 0 <==> |old(free)| >= |Path(l0, va) - old(at).Keys|
      ensures l3 != 0 ==> Walk(l0, va, 3) in at && at[Walk(l0, va, 3)] == l3
    {
      hide Accounts, Frames, Child, Tree, DataKept, Grown, Index;
      PathTables(l0, va);
      hide Walk, Path;
      var l1 := NextTable(Pos(l0, []), l0, Index(va, 0));
      GrownWiden(old(at), old(free), at, free, Walk(l0, va, 1), Path(l0, va));
      if l1 == 0 {
        TooFew(old(at), old(free), at, free, Path(l0, va), Walk(l0, va, 1));
        return 0;
      }
      ghost var mem1, at1, free1 := mem, at, free;
      var l2 := NextTable(Walk(l0, va, 1), l1, Index(va, 1));
      GrownTrans(old(at), old(free), at1, free1, at, free, Walk(l0, va, 2), Path(l0, va));
      DataKeptTrans(old(mem), mem1, mem, old(free), free1);
      if l2 == 0 {
        TooFew(old(at), old(free), at, free, Path(l0, va), Walk(l0, va, 2));
        return 0;
      }
      ghost var mem2, at2, free2 := mem, at, free;
      l3 := NextTable(Walk(l0, va, 2), l2, Index(va, 2));
      GrownTrans(old(at), old(free), at2, free2, at, free, Walk(l0, va, 3), Path(l0, va));
      DataKeptTrans(old(mem), mem2, mem, old(free), free2);
      if l3 == 0 {
        TooFew(old(at), old(free), at, free, Path(l0, va), Walk(l0, va, 3));
        return 0;
      }
      assert Walk(l0, va, 1) in at.Keys && Walk(l0, va, 2) in at.Keys;
      Enough(old(at), old(free), at, free, Path(l0, va));
    }

    /** Maps va to pa, creating the tables on the way. It succeeds exactly when there are as many
        free frames as missing tables, and then changes one translation; a failure changes none.
        A reference to pa passes from the caller into the entry; one to an overwritten page is
        left without an owner. */
    method Arm64MapOnePage(va: nat, pa: nat, prot: Prot) returns (ok: bool)
      requires Inv() && (RootOf(va) == 0 || Pos(RootOf(va), []) in at)
      requires PhysBits(pa) !in at.Values && PhysBits(pa) !in free && (PhysBits(pa) in refs ==> held[PhysBits(pa)] > 0)
      modifies this`mem, this`free, this`refs, this`at, this`flat, this`held
      ensures Inv() && DataKept(old(mem), mem, old(free)) && refs.Keys == old(refs).Keys
      ensures ok <==> RootOf(va) != 0 && EnoughFrames(old(free), old(at), RootOf(va), va)
      ensures Grown(old(at), old(free), at, free, Path(RootOf(va), va)) && RootsKept(old(at), at)
      ensures !ok ==> flat == old(flat) && held == old(held)
      ensures ok ==> var k, pte := Walk(RootOf(va), va, 4), Present(PhysBits(pa), prot);
                && Walk(RootOf(va), va, 3) in at && flat == old(flat)[k := pte]
                && (k in old(flat) ==> old(flat)[k].Present?)
                && held == HeldAfterWrite(old(held), refs, old(flat), k, pte)
      ensures var root := if va < 0x8000_0000_0000 then ttbr0 else ttbr1;
              if ok then MapsUnder(old(at), old(flat), at, flat, root, va, Present(PhysBits(pa), prot))
              else TriesUnder(old(at), old(flat), at, flat, root)
    {
      hide TablesOnly, LeavesOnly, Accounts, Frames, Child, HeldAfterWrite, Tree, PhysBits, DataKept, Grown, Index,
           IsUserAddr, Path;
      NothingLost(mem, free);
      Disjoint(free, refs, at, flat, held);
      GrownNot(at, free, Path(RootOf(va), va));
      UserHalf(va);
      NoneOnly(at, flat, RootOf(va));
      var l0 := RootOf(va);
      if l0 == 0 {
        return false;
      }
      RootTable(mem, at, flat, l0);
      PathTables(l0, va);
      hide Walk;
      var l3 := CreateWalk(l0, va);
      GrownRoots(old(at), old(free), at, free, Path(l0, va));
      GrownOnly(old(at), old(free), at, free, l0, va);
      LeafOnly(flat, Walk(l0, va, 4), Present(PhysBits(pa), prot));
      if l3 == 0 {
        return false;
      }
      GrownValues(old(at), old(free), at, free, Path(l0, va), PhysBits(pa));
      LeafIn(mem, at, flat, Walk(l0, va, 4));
      PhysBitsIdempotent(pa);
      ghost var mem1, free1 := mem, free;
      SetLeaf(Walk(l0, va, 3), l3, Index(va, 3), Present(PhysBits(pa), prot));
      DataKeptTrans(old(mem), mem1, mem, old(free), {});
      return true;
    }

    /** Follows the entries for va down to its level-3 table; 0 where the walk ends early. */
    method FindTables(l0: nat, va: nat) returns (l1: nat, l2: nat, l3: nat)
      requires Inv() && Pos(l0, []) in at && at[Pos(l0, [])] == l0
      ensures l3 != 0 <==> Walk(l0, va, 3) in at
      ensures l3 != 0 ==> Walk(l0, va, 1) in at && Walk(l0, va, 2) in at
      ensures l3 != 0 ==> at[Walk(l0, va, 1)] == l1 && at[Walk(l0, va, 2)] == l2 && at[Walk(l0, va, 3)] == l3
    {
      hide Accounts, Frames, Child, Tree, Index, Parent;
      l1, l2, l3 := 0, 0, 0;
      PathTables(l0, va);
      hide Walk;
      l1 := NextPresent(Pos(l0, []), l0, Index(va, 0));
      ParentPresent(mem, at, flat, Walk(l0, va, 1), Index(va, 1));
      ParentPresent(mem, at, flat, Walk(l0, va, 2), Index(va, 2));
      if l1 == 0 {
        return;
      }
      l2 := NextPresent(Walk(l0, va, 1), l1, Index(va, 1));
      if l2 == 0 {
        return;
      }
      l3 := NextPresent(Walk(l0, va, 2), l2, Index(va, 2));
    }

    /** The table an upper entry points to; 0 if the entry is absent. */
    method NextPresent(ghost p: Pos, table: nat, i: nat) returns (next: nat)
      requires Inv() && p in at && at[p] == table && |p.path| <= 2 && i < PTRS_PER_PTE
      ensures next == if Child(p, i) in at then at[Child(p, i)] else 0
      ensures Child(p, i) in at ==> at[Child(p, i)] > 0
    {
      hide Accounts, Frames, Child, PhysBits;
      EntryAt(mem, at, flat, p, i);
      if mem[table].entries[i] == Absent {
        return 0;
      }
      TablePhys(mem, free, refs, at, Child(p, i));
      return PhysBits(mem[table].entries[i].pa);
    }

    /** The physical page va is mapped to, or 0. */
    method Arm64GetPhysFromVa(va: nat) returns (pa: nat)
      requires Inv() && (RootOf(va) == 0 || Pos(RootOf(va), []) in at)
      ensures pa == if RootOf(va) != 0 && Walk(RootOf(va), va, 4) in flat then flat[Walk(RootOf(va), va, 4)].pa else 0
      ensures va < 0x8000_0000_0000 && ttbr0 != 0 ==>
                pa == if Walk(ttbr0, va, 4) in flat then flat[Walk(ttbr0, va, 4)].pa else 0
      ensures va >= 0x8000_0000_0000 && ttbr1 != 0 ==>
                pa == if Walk(ttbr1, va, 4) in flat then flat[Walk(ttbr1, va, 4)].pa else 0
    {
      hide Accounts, Frames, Child, Tree, PhysBits, Index, IsUserAddr;
      UserHalf(va);
      var l0 := RootOf(va);
      if l0 == 0 {
        return 0;
      }
      RootTable(mem, at, flat, l0);
      PathTables(l0, va);
      var l1, l2, l3 := FindTables(l0, va);
      LeafParent(mem, at, flat, Walk(l0, va, 3), Index(va, 3));
      hide Walk;
      if l3 == 0 {
        return 0;
      }
      LeafIn(mem, at, flat, Walk(l0, va, 4));
      EntryAt(mem, at, flat, Walk(l0, va, 3), Index(va, 3));
      if mem[l3].entries[Index(va, 3)] == Absent {
        return 0;
      }
      return PhysBits(mem[l3].entries[Index(va, 3)].pa);
    }

    /** pte_table_empty: every word is zero. */
    method PteTableEmpty(table: nat) returns (empty: bool)
      requires table in mem && mem[table].Table? && |mem[table].entries| == PTRS_PER_PTE
      ensures empty <==> forall i :: 0 <= i < PTRS_PER_PTE ==> mem[table].entries[i] == Absent
    {
      for i := 0 to PTRS_PER_PTE
        invariant forall j :: 0 <= j < i ==> mem[table].entries[j] == Absent
      {
        if mem[table].entries[i] != Absent {
          return false;
        }
      }
      return true;
    }

    /** Clears a leaf entry that is present; its reference passes to the caller. */
    method DropLeaf(ghost p: Pos, table: nat, i: nat)
      requires Inv() && p in at && at[p] == table && |p.path| == 3 && i < PTRS_PER_PTE && Child(p, i) in flat
      requires flat[Child(p, i)].Present?
      modifies this`mem, this`flat, this`held
      ensures Inv() && flat == old(flat) - {Child(p, i)} && held == Hold(old(held), refs, old(flat)[Child(p, i)].pa)
      ensures DataKept(old(mem), mem, {})
    {
      hide Good, Child, SetEntry, Hold, DataKept, PhysBits, Index;
      LeafCleared(mem, free, refs, at, flat, held, p, i);
      mem, flat, held := SetEntry(mem, table, i, Absent), flat - {Child(p, i)}, Hold(held, refs, flat[Child(p, i)].pa);
    }

    /** Frees a table below p if nothing is left in it. */
    method ReclaimTable(ghost p: Pos, upper: nat, i: nat, table: nat) returns (gone: bool)
      requires Inv() && p in at && at[p] == upper && i < PTRS_PER_PTE && Child(p, i) in at && at[Child(p, i)] == table
      modifies this`mem, this`free, this`at
      ensures Inv() && DataKept(old(mem), mem, {}) && table !in old(free)
      ensures gone <==> Childless(old(at), flat, Child(p, i))
      ensures at == if gone then old(at) - {Child(p, i)} else old(at)
      ensures free == if gone then old(free) + {table} else old(free)
    {
      hide Accounts, Frames, Child, DataKept, PhysBits, Index, Childless, Count;
      EmptyTable(mem, at, flat, Child(p, i));
      TableManaged(free, refs, at, flat, held, p, i);
      NothingLost(mem, {});
      hide Tree;
      gone := PteTableEmpty(table);
      if gone {
        UnlinkTableAt(p, upper, i, table);
      }
    }

    /** An empty table leaves its parent and goes back to the allocator. */
    method UnlinkTableAt(ghost p: Pos, upper: nat, i: nat, table: nat)
      requires Inv() && p in at && at[p] == upper && i < PTRS_PER_PTE && Child(p, i) in at && at[Child(p, i)] == table
      requires Childless(at, flat, Child(p, i))
      modifies this`mem, this`free, this`at
      ensures Inv() && at == old(at) - {Child(p, i)} && free == old(free) + {table}
      ensures DataKept(old(mem), mem, {})
    {
      hide Good, Child, SetEntry, DataKept, PhysBits, Index, Childless;
      TableUnlinked(mem, free, refs, at, flat, held, p, i);
      mem, free, at := SetEntry(mem, upper, i, Absent), free + {table}, at - {Child(p, i)};
    }

    /** The part of unmap_one_page that frees the tables that became empty, from below. */
    method FreeEmptyTables(l0: nat, va: nat, l1: nat, l2: nat, l3: nat)
      requires Inv() && Pos(l0, []) in at && at[Pos(l0, [])] == l0
      requires Walk(l0, va, 1) in at && Walk(l0, va, 2) in at && Walk(l0, va, 3) in at
      requires at[Walk(l0, va, 1)] == l1 && at[Walk(l0, va, 2)] == l2 && at[Walk(l0, va, 3)] == l3
      modifies this`mem, this`free, this`at
      ensures Inv() && DataKept(old(mem), mem, {})
      ensures at == Pruned(old(at), flat, l0, va) && PruneInv(old(at), old(free), at, free, Path(l0, va))
    {
      hide Accounts, Frames, Child, Tree, PhysBits, Index, DataKept, Childless, PruneInv, Path;
      PathTables(l0, va);
      PruneStart(at, free, Path(l0, va), Walk(l0, va, 1), Walk(l0, va, 2), Walk(l0, va, 3));
      hide Walk;
      var gone := ReclaimTable(Walk(l0, va, 2), l2, Index(va, 2), l3);
      if gone {
        PruneMore(old(at), old(free), old(at), old(free), Path(l0, va), Walk(l0, va, 3));
        ghost var mem1, at1, free1 := mem, at, free;
        gone := ReclaimTable(Walk(l0, va, 1), l1, Index(va, 1), l2);
        DataKeptTrans(old(mem), mem1, mem, {}, {});
        if gone {
          PruneMore(old(at), old(free), at1, free1, Path(l0, va), Walk(l0, va, 2));
          ghost var mem2, at2, free2 := mem, at, free;
          gone := ReclaimTable(Pos(l0, []), l0, Index(va, 0), l1);
          DataKeptTrans(old(mem), mem2, mem, {}, {});
          if gone {
            PruneMore(old(at), old(free), at2, free2, Path(l0, va), Walk(l0, va, 1));
          }
        }
      }
    }

    /** Unmaps va. Its reference passes to the caller, and exactly those tables on its path that
        become empty go back to the allocator. */
    method Arm64UnmapOnePage(va: nat)
      requires Inv() && (RootOf(va) == 0 || Pos(RootOf(va), []) in at)
      modifies this`mem, this`free, this`at, this`flat, this`held
      ensures Inv() && DataKept(old(mem), mem, {}) && RootsKept(old(at), at)
      ensures var k := Walk(RootOf(va), va, 4);
              if RootOf(va) == 0 || k !in old(flat) then
                mem == old(mem) && free == old(free) && at == old(at) && flat == old(flat) && held == old(held)
              else
                && old(flat)[k].Present? && flat == old(flat) - {k} && held == Hold(old(held), refs, old(flat)[k].pa)
                && at == Pruned(old(at), flat, RootOf(va), va)
                && PruneInv(old(at), old(free), at, free, Path(RootOf(va), va))
      ensures UnmapsUnder(old(at), old(flat), at, flat, if va < 0x8000_0000_0000 then ttbr0 else ttbr1, va)
    {
      hide TablesOnly, LeavesOnly, Accounts, Frames, Child, Tree, PhysBits, Index, IsUserAddr, DataKept, Hold,
           Childless, Pruned, PruneInv, Path;
      NothingLost(mem, {});
      UserHalf(va);
      NoneOnly(at, flat, RootOf(va));
      AbsentLeaf(flat, Walk(RootOf(va), va, 4));
      var l0 := RootOf(va);
      if l0 == 0 {
        return;
      }
      RootTable(mem, at, flat, l0);
      PathTables(l0, va);
      var l1, l2, l3 := FindTables(l0, va);
      LeafParent(mem, at, flat, Walk(l0, va, 3), Index(va, 3));
      hide Walk;
      if l3 == 0 {
        return;
      }
      LeafIn(mem, at, flat, Walk(l0, va, 4));
      EntryAt(mem, at, flat, Walk(l0, va, 3), Index(va, 3));
      if mem[l3].entries[Index(va, 3)] == Absent {
        return;
      }
      DropLeaf(Walk(l0, va, 3), l3, Index(va, 3));
      ghost var mem1 := mem;
      FreeEmptyTables(l0, va, l1, l2, l3);
      PrunedRoots(old(at), flat, l0, va);
      PrunedOnly(old(at), flat, l0, va);
      LeafOnly(old(flat), Walk(l0, va, 4), Absent);
      DataKeptTrans(old(mem), mem1, mem, {}, {});
    }

    /** One reference more; addresses that are not managed are ignored. */
    method GetPage(pa: nat)
      modifies this`refs
      ensures refs == Got(old(refs), pa)
    {
      if pa !in refs {
        return;
      }
      refs := refs[pa := refs[pa] + 1];
    }

    /** Drops a reference the caller holds. The page goes back to the allocator exactly when no
        entry maps it and nobody holds it any more. */
    method PutPage(pa: nat)
      requires Inv() && (pa in refs ==> held[pa] > 0)
      modifies this`refs, this`held, this`free
      ensures Inv() && held == old(held) - multiset{pa} && refs.Keys == old(refs).Keys
      ensures free == old(free) + Dropped(flat, held, refs, pa)
      ensures pa !in old(free)
    {
      hide Tree, Accounts, Frames, PhysBits, LastPage;
      PutPageTearing(pa, {});
    }

    /** put_page, while the tables in `dying` are being torn down. */
    method PutPageTearing(pa: nat, ghost dying: set<Pos>)
      requires Tearing(mem, free, refs, at, flat, held, dying) && (pa in refs ==> held[pa] > 0)
      modifies this`refs, this`held, this`free
      ensures Tearing(mem, free, refs, at, flat, held, dying) && held == old(held) - multiset{pa}
      ensures refs.Keys == old(refs).Keys
      ensures free == old(free) + Dropped(flat, held, refs, pa)
      ensures pa !in old(free)
    {
      hide Tearing, PhysBits, Count;
      Unmanaged(mem, free, refs, at, flat, held, dying, pa);
      if pa !in refs {
        return;
      }
      PutWhileTearing(mem, free, refs, at, flat, held, dying, pa);
      if refs[pa] == 0 {
        return;
      }
      if refs[pa] == 1 {
        free := free + {pa};
      }
      refs, held := refs[pa := refs[pa] - 1], held - multiset{pa};
    }

    /** free_phys_pages for a page that was allocated but never mapped. */
    method FreePhysPages(pa: nat)
      requires Inv() && pa in refs && held[pa] == 1 && Count(flat, pa) == 0
      modifies this`held, this`free
      ensures Inv() && held == old(held) - multiset{pa} && free == old(free) + {pa}
    {
      hide Good, PhysBits, Count;
      PageReturned(mem, free, refs, at, flat, held, pa);
      free, held := free + {pa}, held - multiset{pa};
    }

    /** The byte loop of the copy-on-write branch. */
    method CopyPage(from: nat, to: nat, device: seq<nat>)
      requires Inv() && |BytesAt(mem, refs, from, device)| == PAGE_SIZE && from != to
      requires to in refs && held[to] > 0
      modifies this`mem
      ensures Inv() && mem == old(mem)[to := Data(BytesAt(old(mem), refs, from, device))]
    {
      hide Good, PhysBits;
      NotFree(mem, free, refs, at, flat, held, to);
      ghost var source, target := BytesAt(mem, refs, from, device), mem[to].bytes;
      for i := 0 to PAGE_SIZE
        invariant Inv() && mem.Keys == old(mem).Keys && forall f :: f in mem && f != to ==> mem[f] == old(mem)[f]
        invariant to in mem && mem[to].Data? && |mem[to].bytes| == PAGE_SIZE
        invariant forall j :: 0 <= j < i ==> mem[to].bytes[j] == source[j]
      {
        var byte := BytesAt(mem, refs, from, device)[i];
        PageWritten(mem, free, refs, at, flat, held, to, mem[to].bytes[i := byte]);
        mem := mem[to := Data(mem[to].bytes[i := byte])];
      }
      assert mem[to].bytes == source;
      assert mem == old(mem)[to := Data(source)];
    }

    /** The byte loop that clears a page for demand allocation. */
    method ZeroPage(to: nat)
      requires Inv() && to in refs && held[to] > 0
      modifies this`mem
      ensures Inv() && mem == old(mem)[to := Data(Zeros())]
    {
      hide Good, PhysBits;
      NotFree(mem, free, refs, at, flat, held, to);
      for i := 0 to PAGE_SIZE
        invariant Inv() && mem.Keys == old(mem).Keys && forall f :: f in mem && f != to ==> mem[f] == old(mem)[f]
        invariant to in mem && mem[to].Data? && |mem[to].bytes| == PAGE_SIZE
        invariant forall j :: 0 <= j < i ==> mem[to].bytes[j] == 0
      {
        PageWritten(mem, free, refs, at, flat, held, to, mem[to].bytes[i := 0]);
        mem := mem[to := Data(mem[to].bytes[i := 0])];
      }
      assert mem[to].bytes == Zeros();
      assert mem == old(mem)[to := Data(Zeros())];
    }

    /** Unmapping a page and dropping the entry's reference. */
    method UnmapAndPut(va: nat, pa: nat)
      requires Inv() && RootOf(va) != 0 && Pos(RootOf(va), []) in at
      requires Walk(RootOf(va), va, 4) in flat && flat[Walk(RootOf(va), va, 4)].Present?
      requires flat[Walk(RootOf(va), va, 4)].pa == pa
      modifies this`mem, this`free, this`refs, this`at, this`flat, this`held
      ensures Inv() && RootsKept(old(at), at) && DataKept(old(mem), mem, {}) && refs.Keys == old(refs).Keys
      ensures held == old(held)
      ensures flat == old(flat) - {Walk(RootOf(va), va, 4)}
      ensures at == Pruned(old(at), flat, RootOf(va), va)
      ensures free == old(free) + Released(old(at), at) + Dropped(flat, held, refs, pa)
      ensures EnoughFrames(free, at, RootOf(va), va)
    {
      hide UnmapsUnder, Good, PhysBits, Index, IsUserAddr, Walk, DataKept, Path, PruneInv, Pruned, Hold, RootsKept,
           Released, Dropped, EnoughFrames;
      ghost var root, k := RootOf(va), Walk(RootOf(va), va, 4);
      FoundPage(mem, free, refs, at, flat, held, k);
      Arm64UnmapOnePage(va);
      assert flat == old(flat) - {k} && at == Pruned(old(at), flat, root, va);
      ghost var free1 := free;
      HoldAndDrop(old(held), refs, pa);
      PutPage(pa);
      EnoughAgain(old(at), old(free), at, free1, root, va, Dropped(flat, held, refs, pa));
    }

    /** Puts a page the caller holds in the place of the one mapped at va. Mapping it cannot fail,
        because unmapping has just freed as many tables as mapping needs. */
    method ReplacePage(va: nat, oldPa: nat, newPa: nat)
      requires Inv() && RootOf(va) != 0 && Pos(RootOf(va), []) in at
      requires Walk(RootOf(va), va, 4) in flat && flat[Walk(RootOf(va), va, 4)].Present?
      requires flat[Walk(RootOf(va), va, 4)].pa == oldPa
      requires newPa in refs && held[newPa] > 0 && PhysBits(newPa) == newPa && newPa in mem && mem[newPa].Data?
      modifies this`mem, this`free, this`refs, this`at, this`flat, this`held
      ensures Inv() && RootsKept(old(at), at) && refs.Keys == old(refs).Keys && held == old(held) - multiset{newPa}
      ensures flat == old(flat)[Walk(RootOf(va), va, 4) := Present(newPa, PAGE_USER_RW)]
      ensures newPa in mem && mem[newPa] == old(mem)[newPa]
      ensures UseKept(old(mem), mem, {newPa}, flat, held)
    {
      hide Good, PhysBits, Index, IsUserAddr, Walk, DataKept, UseKept, EnoughFrames, Pruned, HeldAfterWrite, Grown,
           RootsKept, Released, Dropped, MapsUnder, TriesUnder;
      ghost var k := Walk(RootOf(va), va, 4);
      UnmapAndPut(va, oldPa);
      NotFree(mem, free, refs, at, flat, held, newPa);
      RootStays(old(at), at, RootOf(va));
      ghost var mem1, at1, free1, refs1 := mem, at, free, refs;
      var ok := Arm64MapOnePage(va, newPa, PAGE_USER_RW);
      // Unmapping has just freed the frames that mapping needs, so there is nothing to give back.
      assert ok;
      RootsTrans(old(at), at1, at);
      Replaced(old(mem), mem1, mem, free1, refs1, at1, old(flat), old(held), k, Present(newPa, PAGE_USER_RW), refs,
               flat, held);
    }

    /** The write-to-a-present-page branch of the fault handler: a private, writable copy takes
        the place of the page. It fails only if no frame is free. Of a page that is not managed the
        loop reads what the device returns. */
    method CopyOnWrite(va: nat, oldPa: nat, device: seq<nat>) returns (ok: bool, ghost page: nat)
      requires Inv() && RootOf(va) != 0 && Pos(RootOf(va), []) in at
      requires Walk(RootOf(va), va, 4) in flat && flat[Walk(RootOf(va), va, 4)].Present?
      requires flat[Walk(RootOf(va), va, 4)].pa == oldPa
      requires |device| == PAGE_SIZE
      modifies this`mem, this`free, this`refs, this`at, this`flat, this`held
      ensures Inv() && RootsKept(old(at), at) && refs.Keys == old(refs).Keys && held == old(held)
      ensures ok <==> old(free) != {}
      ensures !ok ==> flat == old(flat) && free == old(free)
      ensures ok ==>
                && page in old(free) && page in refs
                && flat == old(flat)[Walk(RootOf(va), va, 4) := Present(page, PAGE_USER_RW)]
      ensures ok ==> page in mem && mem[page] == Data(BytesAt(old(mem), old(refs), oldPa, device))
      ensures UseKept(old(mem), mem, old(free), flat, held)
    {
      hide Good, PhysBits, Index, IsUserAddr, Walk, DataKept, UseKept, Count, RootsKept;
      ghost var k := Walk(RootOf(va), va, 4);
      MappedPage(mem, free, refs, at, flat, held, k);
      RootsSame(at);
      var newPa := AllocPhysPages();
      KeptIsUsed(old(mem), mem, old(free), flat, held);
      if newPa == 0 {
        return false, 0;
      }
      page := newPa;
      ghost var mem1 := mem;
      MappedPage(mem, free, refs, at, flat, held, k);
      SameBytes(old(mem), mem, old(free), old(refs), refs, oldPa, device);
      CopyPage(oldPa, newPa, device);
      ghost var mem2 := mem;
      CopyKept(old(mem), mem1, mem2, old(free), mem[newPa], newPa);
      MappedPage(mem, free, refs, at, flat, held, k);
      ReplacePage(va, oldPa, newPa);
      PutBack(old(held), newPa);
      UsedTrans(old(mem), mem2, mem, old(free), newPa, flat, held);
      return true, newPa;
    }

    /** The branch of the fault handler that maps a fresh, zeroed page. When a page is present it is
        overwritten, and its reference belongs to nobody afterwards. */
    method DemandPage(va: nat, prot: Prot) returns (ok: bool, ghost page: nat)
      requires Inv() && RootOf(va) != 0 && Pos(RootOf(va), []) in at
      modifies this`mem, this`free, this`refs, this`at, this`flat, this`held
      ensures Inv() && RootsKept(old(at), at) && refs.Keys == old(refs).Keys
      ensures ok <==> EnoughForPage(old(free), old(at), RootOf(va), va)
      ensures !ok ==> flat == old(flat) && held == old(held) && !EnoughForPage(free, at, RootOf(va), va)
      ensures ok ==>
                page in old(free) && page in refs && flat == old(flat)[Walk(RootOf(va), va, 4) := Present(page, prot)]
      ensures ok ==>
                && page in mem && mem[page] == Data(Zeros())
                && held == HeldAfterFault(old(held), refs, old(flat), Walk(RootOf(va), va, 4))
      ensures ok ==> Grown(old(at), old(free) - {page}, at, free, Path(RootOf(va), va))
      ensures UseKept(old(mem), mem, old(free), flat, held)
      ensures var root := if va < 0x8000_0000_0000 then ttbr0 else ttbr1;
              if ok then MapsUnder(old(at), old(flat), at, flat, root, va, Present(page, prot))
              else TriesUnder(old(at), old(flat), at, flat, root)
    {
      hide TablesOnly, LeavesOnly, Good, PhysBits, Index, IsUserAddr, Walk, DataKept, UseKept, EnoughFrames, Grown,
           RootsKept, HeldAfterFault, HeldAfterWrite, Zeros, Count, EnoughForPage, Path;
      RootsSame(at);
      NoneOnly(at, flat, ttbr0);
      NoneOnly(at, flat, ttbr1);
      OneForPage(free, at, RootOf(va), va);
      var pa := AllocPhysPages();
      KeptIsUsed(old(mem), mem, old(free), flat, held);
      if pa == 0 {
        return false, 0;
      }
      page := pa;
      ghost var mem1 := mem;
      ZeroPage(pa);
      ZeroKept(old(mem), mem1, mem, old(free), pa);
      NotFree(mem, free, refs, at, flat, held, pa);
      ghost var mem2, at2, free2, held2 := mem, at, free, held;
      ok := Arm64MapOnePage(va, pa, prot);
      SmallerFree(old(mem), mem2, mem, old(free), free2, pa, flat, held);
      if !ok {
        StillTooFew(at2, free2, at, free, RootOf(va), va, pa);
        FreePhysPages(pa);
        PutBack(old(held), pa);
        KeptIsUsed(old(mem), mem, old(free), flat, held);
        return;
      }
      KeptPage(mem2, mem, free2, pa);
      FaultHeld(old(held), refs, old(flat), Walk(RootOf(va), va, 4), Present(pa, prot));
    }

    /** What page_fault_handler does for a process, with what the memory map says about the address. A
        read fault on a mapped managed page leaves the reference of that page without an owner, and no
        other fault does. */
    method ProcessFault(addr: nat, found: bool, vmWrite: bool, vmExec: bool, isWrite: bool, device: seq<nat>)
      returns (r: Fault, ghost page: nat)
      requires Inv() && RootOf(addr) != 0 && Pos(RootOf(addr), []) in at
      requires |device| == PAGE_SIZE
      modifies this`mem, this`free, this`refs, this`at, this`flat, this`held
      ensures Inv() && RootsKept(old(at), at) && refs.Keys == old(refs).Keys
      ensures r != NoMm && (r == NoVma <==> !found)
      ensures r == Segv <==> found && isWrite && !vmWrite
      ensures r == OutOfMemory <==>
              (found && !(isWrite && !vmWrite)
               && if isWrite && Finds(old(flat), Walk(RootOf(addr), addr, 4)) then old(free) == {}
                  else !EnoughForPage(old(free), old(at), RootOf(addr), addr))
      ensures r != Resolved ==> flat == old(flat) && held == old(held)
      ensures held != old(held) <==>
                r == Resolved && LosesOwner(old(flat), old(refs), Walk(RootOf(addr), addr, 4), isWrite)
      ensures var k := Walk(RootOf(addr), addr, 4);
              r == Resolved ==>
                && page in old(free) && page in refs && page in mem
                && if isWrite && Finds(old(flat), k) then
                     && flat == old(flat)[k := Present(page, PAGE_USER_RW)] && held == old(held)
                     && mem[page] == Data(BytesAt(old(mem), old(refs), old(flat)[k].pa, device))
                   else
                     && flat == old(flat)[k := Present(page, if vmExec then PAGE_USER_RX else PAGE_USER_RW)]
                     && held == HeldAfterFault(old(held), refs, old(flat), k)
                     && mem[page] == Data(Zeros())
                     && Grown(old(at), old(free) - {page}, at, free, Path(RootOf(addr), addr))
      ensures UseKept(old(mem), mem, old(free), flat, held)
    {
      hide Good, PhysBits, Index, IsUserAddr, Walk, Path, Grown, UseKept, RootsKept, HeldAfterFault, Zeros, Count,
           EnoughForPage, LosesOwner;
      NothingUsedLost(mem, free, flat, held);
      RootsSame(at);
      page := 0;
      if !found {
        return NoVma, 0;
      }
      SameWalk(RootOf(addr), addr);
      SameEnough(free, at, RootOf(addr), addr);
      HeldLost(held, refs, flat, Walk(RootOf(addr), addr, 4), isWrite);
      var pageAddr := addr / PAGE_SIZE * PAGE_SIZE;
      var oldPa := Arm64GetPhysFromVa(addr);
      FoundPage(mem, free, refs, at, flat, held, Walk(RootOf(addr), addr, 4));
      if oldPa != 0 && isWrite {
        if !vmWrite {
          return Segv, 0;
        }
        var ok;
        ok, page := CopyOnWrite(pageAddr, oldPa, device);
        return if ok then Resolved else OutOfMemory, page;
      }
      if isWrite && !vmWrite {
        return Segv, 0;
      }
      var prot := PAGE_USER_RW;
      if vmExec {
        prot := PAGE_USER_RX;
      }
      var ok;
      ok, page := DemandPage(pageAddr, prot);
      return if ok then Resolved else OutOfMemory, page;
    }

    /** vmalloc_handle_page_fault, with the ranges on the busy list: a zeroed page for an address in one of
        them. */
    method VmallocHandlePageFault(addr: nat, busy: seq<(nat, nat)>) returns (ok: bool, ghost page: nat)
      requires Inv() && RootOf(addr) != 0 && Pos(RootOf(addr), []) in at
      modifies this`mem, this`free, this`refs, this`at, this`flat, this`held
      ensures Inv() && RootsKept(old(at), at) && refs.Keys == old(refs).Keys
      ensures ok <==> VmallocFault(addr, busy) && EnoughForPage(old(free), old(at), RootOf(addr), addr)
      ensures !VmallocFault(addr, busy) ==> free == old(free) && at == old(at) && mem == old(mem) && refs == old(refs)
      ensures !ok ==> flat == old(flat) && held == old(held)
      ensures !ok && VmallocFault(addr, busy) ==> !EnoughForPage(free, at, RootOf(addr), addr)
      ensures ok ==>
                && page in old(free) && page in refs && page in mem && mem[page] == Data(Zeros())
                && flat == old(flat)[Walk(RootOf(addr), addr, 4) := Present(page, PAGE_KERNEL_RW)]
                && held == HeldAfterFault(old(held), refs, old(flat), Walk(RootOf(addr), addr, 4))
      ensures UseKept(old(mem), mem, old(free), flat, held)
      ensures if ok then MapsUnder(old(at), old(flat), at, flat, ttbr1, addr, Present(page, PAGE_KERNEL_RW))
              else TriesUnder(old(at), old(flat), at, flat, ttbr1)
    {
      hide TablesOnly, LeavesOnly, Good, PhysBits, Index, IsUserAddr, Walk, Path, Grown, UseKept, RootsKept,
           HeldAfterFault, Zeros, Count, EnoughForPage;
      NothingUsedLost(mem, free, flat, held);
      RootsSame(at);
      UserHalf(addr);
      NoneOnly(at, flat, ttbr1);
      page := 0;
      if addr < VMALLOC_START || addr >= VMALLOC_START + VMALLOC_SIZE {
        return false, 0;
      }
      for i := 0 to |busy|
        invariant forall j :: 0 <= j < i ==> !(busy[j].0 <= addr < busy[j].1)
        invariant Inv() && flat == old(flat) && held == old(held) && free == old(free) && at == old(at)
        invariant mem == old(mem) && refs == old(refs)
      {
        if busy[i].0 <= addr < busy[i].1 {
          SameWalk(RootOf(addr), addr);
          SameEnough(free, at, RootOf(addr), addr);
          ok, page := DemandPage(addr / PAGE_SIZE * PAGE_SIZE, PAGE_KERNEL_RW);
          SameEnough(free, at, RootOf(addr), addr);
          return;
        }
      }
      return false, 0;
    }

    /** page_fault_handler: an address handed out by the vmap allocator gets a kernel page; any other, or
        one there is no memory for, is the process's affair, if there is one. What could not be had for
        the kernel cannot be had for the process either. */
    method PageFaultHandler(addr: nat, busy: seq<(nat, nat)>, hasMm: bool, found: bool, vmWrite: bool, vmExec: bool,
                            isWrite: bool, device: seq<nat>) returns (r: Fault, ghost page: nat)
      requires Inv() && RootOf(addr) != 0 && Pos(RootOf(addr), []) in at && |device| == PAGE_SIZE
      modifies this`mem, this`free, this`refs, this`at, this`flat, this`held
      ensures Inv() && RootsKept(old(at), at) && refs.Keys == old(refs).Keys
      ensures var k, kernel, enough := Walk(RootOf(addr), addr, 4), VmallocFault(addr, busy),
                                       EnoughForPage(old(free), old(at), RootOf(addr), addr);
              && (r == NoMm <==> !hasMm && !(kernel && enough))
              && (r == NoVma <==> hasMm && !found && !(kernel && enough))
              && (r == Segv <==> hasMm && found && isWrite && !vmWrite && !(kernel && enough))
              && (r == OutOfMemory <==>
                    && hasMm && found && !(isWrite && !vmWrite) && !(kernel && enough)
                    && if isWrite && Finds(old(flat), k) then old(free) == {} || kernel else !enough)
      ensures r != Resolved ==> flat == old(flat) && held == old(held)
      ensures r == Resolved ==>
                && page in old(free) && page in refs && page in mem
                && FaultResolved(old(mem), old(refs), old(flat), old(held), mem, refs, flat, held, page,
                                 Walk(RootOf(addr), addr, 4), VmallocFault(addr, busy), vmExec, isWrite, device)
      ensures UseKept(old(mem), mem, old(free), flat, held)
    {
      hide Good, PhysBits, Index, IsUserAddr, Walk, Path, Grown, UseKept, RootsKept, HeldAfterFault, Zeros, Count,
           EnoughForPage, LosesOwner, VmallocFault;
      var ok;
      ok, page := VmallocHandlePageFault(addr, busy);
      if ok {
        return Resolved, page;
      }
      if !hasMm {
        return NoMm, 0;
      }
      ghost var mem1, at1, free1, refs1, flat1, held1 := mem, at, free, refs, flat, held;
      NoFreeFrame(mem, free, refs, at, flat, held, RootOf(addr), addr);
      RootStays(old(at), at, RootOf(addr));
      r, page := ProcessFault(addr, found, vmWrite, vmExec, isWrite, device);
      RootsTrans(old(at), at1, at);
      if VmallocFault(addr, busy) {
        KeptTwice(old(mem), mem1, mem, old(free), free1, refs1, at1, flat1, held1);
      }
    }

    /** One mapped page of a tree being torn down. */
    method DropMappedPage(ghost k: Pos, pa: nat, ghost dying: set<Pos>)
      requires Tearing(mem, free, refs, at, flat, held, dying) && k in flat && k.path != [] && Parent(k) in dying
      requires flat[k].Present? && flat[k].pa == pa
      modifies this`free, this`refs, this`flat, this`held
      ensures Tearing(mem, free, refs, at, flat, held, dying) && flat == old(flat) - {k} && held == old(held)
      ensures refs.Keys == old(refs).Keys
    {
      hide Tearing, PhysBits, Count, Hold, LastPage, Parent;
      DropLeafEntry(mem, free, refs, at, flat, held, dying, k);
      HoldOrNot(mem, free, refs, at, flat, held, dying, pa);
      flat, held := flat - {k}, Hold(held, refs, pa);
      PutPageTearing(pa, dying);
    }

    /** One level of the nested loops of free_page_table_tree: frees everything that hangs off the
        table and then the table. */
    method FreeLevel(ghost p: Pos, table: nat, level: nat, ghost dying: set<Pos>)
      requires Tearing(mem, free, refs, at, flat, held, dying) && p in at && at[p] == table && table in refs
      requires |p.path| == level <= 3 && (forall d :: d in dying ==> |d.path| < level)
      requires (level > 0 ==> Parent(p) in dying)
      modifies this`free, this`refs, this`at, this`flat, this`held
      ensures Tearing(mem, free, refs, at, flat, held, dying) && held == old(held) && refs.Keys == old(refs).Keys
      ensures at == WithoutTree(old(at), p) && flat == WithoutTree(old(flat), p)
      decreases 3 - level
    {
      hide Tearing, PhysBits, Count, Without, WithoutTree, Child, Parent, Under, Below, Childless;
      TearingStart(mem, free, refs, at, flat, held, dying, p);
      for i := 0 to PTRS_PER_PTE
        invariant Tearing(mem, free, refs, at, flat, held, dying + {p}) && held == old(held)
        invariant refs.Keys == old(refs).Keys
        invariant at == Without(old(at), p, i) && flat == Without(old(flat), p, i)
      {
        TearingNext(mem, old(at), old(flat), at, flat, p, i);
        if mem[table].entries[i] != Absent {
          if level < 3 {
            ChildManaged(mem, free, refs, at, flat, held, dying + {p}, p, i);
            FreeLevel(Child(p, i), PhysBits(mem[table].entries[i].pa), level + 1, dying + {p});
          } else {
            DropMappedPage(Child(p, i), PhysBits(mem[table].entries[i].pa), dying + {p});
          }
        }
      }
      TearingDone(old(at), old(flat), p);
      DropTable(mem, free, refs, at, flat, held, dying, p);
      free, at := free + {table}, at - {p};
    }

    /** Frees a whole tree: its mappings, its tables and its root; every mapped page loses one
        reference for each of the mappings. */
    method FreePageTableTree(pgd: nat)
      requires Inv() && Pos(pgd, []) in at && pgd in refs
      modifies this`free, this`refs, this`at, this`flat, this`held
      ensures Inv() && held == old(held) && refs.Keys == old(refs).Keys
      ensures at == WithoutTree(old(at), Pos(pgd, [])) && flat == WithoutTree(old(flat), Pos(pgd, []))
    {
      hide Tree, Accounts, Frames, PhysBits, WithoutTree;
      RootTable(mem, at, flat, pgd);
      FreeLevel(Pos(pgd, []), pgd, 0, {});
    }

    /** One level of the nested loops of copy_user_page_table: copies what hangs off the table src
        into the table dst. */
    method CopyLevel(ghost p: Pos, src: nat, ghost q: Pos, dst: nat, level: nat)
      requires Inv() && p in at && at[p] == src && q in at && at[q] == dst
      requires p.path == q.path && p.root != q.root && |p.path| == level <= 3 && Fresh(at, flat, q)
      modifies this`mem, this`free, this`refs, this`at, this`flat, this`held
      ensures Inv() && held == old(held) && refs.Keys == old(refs).Keys && DataKept(old(mem), mem, old(free))
      ensures free <= old(free)
      ensures Copied(old(at), old(flat), at, flat, free, p, q, PTRS_PER_PTE) && Paid(old(at), old(free), at, free)
      decreases 3 - level, 1
    {
      hide Good, PhysBits, Count, Child, Shape, Fresh, Copied, DataKept, Paid;
      CopyStart(at, flat, free, p, q);
      PaidNothing(at, free);
      NothingLost(mem, free);
      GoodShape(mem, free, refs, at, flat, held);
      for i := 0 to PTRS_PER_PTE
        invariant Inv() && held == old(held) && refs.Keys == old(refs).Keys && DataKept(old(mem), mem, old(free))
        invariant free <= old(free)
        invariant Copied(old(at), old(flat), at, flat, free, p, q, i) && Paid(old(at), old(free), at, free)
      {
        CopyNext(mem, free, refs, at, flat, held, old(at), old(flat), p, q, i);
        ghost var mem1, at1, free1 := mem, at, free;
        if mem[src].entries[i] == Absent {
          CopySkip(old(at), old(flat), at, flat, free, p, q, i);
        } else if level < 3 {
          CopyTableEntry(p, q, dst, i, PhysBits(mem[src].entries[i].pa), level, old(at), old(flat));
          DataKeptTrans(old(mem), mem1, mem, old(free), free1);
          PaidTrans(old(at), old(free), at1, free1, at, free);
        } else {
          CopyLeafEntry(p, q, dst, i, mem[src].entries[i], old(at), old(flat));
          DataKeptTrans(old(mem), mem1, mem, old(free), {});
        }
      }
    }

    /** A table of the parent: gets a table in the copy, if there is a frame for it, and is copied. */
    method CopyTableEntry(ghost p: Pos, ghost q: Pos, dst: nat, i: nat, child: nat, level: nat, ghost at0: Tables,
                          ghost flat0: Leaves)
      requires Inv() && q in at && at[q] == dst && i < PTRS_PER_PTE && |p.path| == level < 3 && p.path == q.path
      requires p.root != q.root
      requires Shape(at0, flat0) && Copied(at0, flat0, at, flat, free, p, q, i)
      requires Child(p, i) in at0 && Child(p, i) in at && at[Child(p, i)] == child && Child(p, i) !in flat0
      requires Child(q, i) !in at
      modifies this`mem, this`free, this`refs, this`at, this`flat, this`held
      ensures Inv() && held == old(held) && refs.Keys == old(refs).Keys && DataKept(old(mem), mem, old(free))
      ensures free <= old(free)
      ensures Copied(at0, flat0, at, flat, free, p, q, i + 1) && Paid(old(at), old(free), at, free)
      decreases 3 - level, 0
    {
      hide Good, PhysBits, Count, Shape, Fresh, Copied, DataKept, Grown, WithChild, Under, Paid;
      GoodShape(mem, free, refs, at, flat, held);
      ChildDef(p, i);
      ChildDef(q, i);
      NoTable(at, flat, Child(q, i));
      hide Child;
      var next := NextTable(q, dst, i);
      GrownPaid(old(at), old(free), at, free, {Child(q, i)});
      if next == 0 {
        CopySkip(at0, flat0, at, flat, free, p, q, i);
        return;
      }
      ghost var mem1, at1, free1 := mem, at, free;
      GrownChild(old(at), old(free), at, free, flat, Child(q, i));
      CopyLevel(Child(p, i), child, Child(q, i), next, level + 1);
      DataKeptTrans(old(mem), mem1, mem, old(free), free1);
      PaidTrans(old(at), old(free), at1, free1, at, free);
      CopySubtree(at0, flat0, old(at), old(flat), old(free), at1, at, flat, free, p, q, i);
    }

    /** A mapped page of the parent: mapped in the copy too, read-only if it was writable, with one
        reference more. */
    method CopyLeafEntry(ghost p: Pos, ghost q: Pos, dst: nat, i: nat, entry: Pte, ghost at0: Tables,
                         ghost flat0: Leaves)
      requires Inv() && q in at && at[q] == dst && i < PTRS_PER_PTE && |q.path| == 3 && p.path == q.path
      requires Shape(at0, flat0) && Copied(at0, flat0, at, flat, free, p, q, i)
      requires entry.Present? && Child(p, i) in flat && flat[Child(p, i)] == entry && Child(p, i) in flat0
      requires flat0[Child(p, i)] == entry && Child(q, i) !in flat
      modifies this`mem, this`refs, this`flat, this`held
      ensures Inv() && held == old(held) && refs.Keys == old(refs).Keys && DataKept(old(mem), mem, {})
      ensures Copied(at0, flat0, at, flat, free, p, q, i + 1)
    {
      hide Good, PhysBits, Count, Shape, Copied, DataKept, Child, SetEntry, Got;
      var pte := entry;
      if pte.prot.el0 && !pte.prot.readOnly {
        pte := Present(pte.pa, pte.prot.(readOnly := true));
      }
      MappedPage(mem, free, refs, at, flat, held, Child(p, i));
      EntryCopied(mem, free, refs, at, flat, held, q, i, pte);
      mem, flat := SetEntry(mem, dst, i, pte), flat[Child(q, i) := pte];
      GetPage(PhysBits(entry.pa));
      CopyLeaf(at0, flat0, at, old(flat), free, p, q, i, pte);
    }

    /** copy_user_page_table into a fresh root: the copy maps the same pages with the same access, but
        without write access from user mode, except for subtrees whose tables could not be had; it has
        all tables, and then all leaves, exactly when there are as many free frames as tables to copy.
        Nothing else changes. */
    method CopyUserPageTable(srcPgd: nat, dstPgd: nat)
      requires Inv() && Pos(srcPgd, []) in at && Pos(dstPgd, []) in at && srcPgd != dstPgd
      requires EmptyRoot(at, flat, dstPgd)
      modifies this`mem, this`free, this`refs, this`at, this`flat, this`held
      ensures Inv() && held == old(held) && refs.Keys == old(refs).Keys && DataKept(old(mem), mem, old(free))
      ensures free <= old(free)
      ensures Forked(old(at), old(flat), at, flat, free, srcPgd, dstPgd) && Paid(old(at), old(free), at, free)
      ensures AccessCopied(old(flat), flat, srcPgd, dstPgd)
      ensures AllTables(old(at), at, srcPgd, dstPgd) <==> |old(free)| >= |TablesBelow(old(at), srcPgd)|
      ensures |old(free)| >= |TablesBelow(old(at), srcPgd)| ==>
                forall k :: k in old(flat) && k.root == srcPgd ==> Mirror(k, dstPgd) in flat
    {
      hide Good, PhysBits, Count, Shape, Fresh, Copied, DataKept, Forked, EmptyRoot, Under, Paid, AllTables,
           TablesBelow, AccessCopied;
      ghost var free0, refs0 := free, refs;
      GoodShape(mem, free, refs, at, flat, held);
      RootTable2(at, flat, srcPgd);
      RootTable2(at, flat, dstPgd);
      NothingUnder(at, flat, dstPgd);
      CopyLevel(Pos(srcPgd, []), srcPgd, Pos(dstPgd, []), dstPgd, 0);
      WholeTree(old(at), old(flat), at, flat, free, srcPgd, dstPgd);
      ForkedAccess(old(mem), free0, refs0, old(at), old(flat), old(held), old(at), at, flat, free, srcPgd, dstPgd);
      CompleteWhen(old(at), old(flat), old(free), at, flat, free, srcPgd, dstPgd);
      if AllTables(old(at), at, srcPgd, dstPgd) {
        AllLeaves(old(at), old(flat), at, flat, free, srcPgd, dstPgd);
      }
    }

    /** Copying a table and freeing the copy leaves every mapping, every table and every reference
        count as it was; the free frames are the ones from before and the root of the copy. */
    method ForkThenExit(srcPgd: nat, dstPgd: nat)
      requires Inv() && Pos(srcPgd, []) in at && Pos(dstPgd, []) in at && srcPgd != dstPgd
      requires EmptyRoot(at, flat, dstPgd) && dstPgd in refs
      modifies this`mem, this`free, this`refs, this`at, this`flat, this`held
      ensures Inv() && flat == old(flat) && at == old(at) - {Pos(dstPgd, [])} && held == old(held)
      ensures free == old(free) + {dstPgd}
      ensures refs.Keys == old(refs).Keys
      ensures forall f :: f in refs && f !in free && f !in at.Values ==> refs[f] == old(refs)[f]
    {
      hide Good, PhysBits, Count, Shape, DataKept, Forked, EmptyRoot, WithoutTree, OneTableLess, AccessCopied;
      ghost var free0, refs0 := free, refs;
      GoodShape(mem, free, refs, at, flat, held);
      RootTable2(at, flat, dstPgd);
      assert Good(old(mem), free0, refs0, old(at), old(flat), held);
      CopyUserPageTable(srcPgd, dstPgd);
      CopyRoot(old(at), old(flat), at, flat, free, srcPgd, dstPgd);
      CopyGone(old(at), old(flat), at, flat, free, srcPgd, dstPgd);
      FreePageTableTree(dstPgd);
      RootLess(old(at), flat, Pos(dstPgd, []));
      AccountsRestored(old(mem), free0, refs0, mem, free, refs, old(at), at, flat, held, dstPgd);
    }
  }
}
