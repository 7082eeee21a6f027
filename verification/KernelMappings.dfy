/**
 Kernel addresses beside a running process: whatever the kernel maps, unmaps and faults in behind
 the register of its half of the addresses leaves every other address space alone.
 */
module KernelMappings {
  import opened Common
  import opened PageTableModel
  import opened PageTableSteps
  import opened PageTables
  import opened ForkIsolation

  /** A fresh page is mapped, as vmalloc does page by page; a page is unmapped, as vfree and iounmap do;
      or an address is touched while the given ranges are handed out. */
  datatype KernelOp = MapFresh(va: nat, prot: Prot) | Unmap(va: nat) | Touch(va: nat, busy: seq<(nat, nat)>)

  predicate KernelAddr(va: nat) {
    0xFFFF_0000_0000_0000 <= va < 0x1_0000_0000_0000_0000
  }

  /** What is new in the leaves maps pages that were free. */
  ghost predicate FromFree(flat: Leaves, flat': Leaves, free: set<nat>) {
    forall k :: k in flat' ==> (k in flat && flat'[k] == flat[k]) || (flat'[k].Present? && flat'[k].pa in free)
  }

  lemma {:induction false} FromFreeOne(flat: Leaves, free: set<nat>, k: Pos, pte: Pte)
    ensures FromFree(flat, flat, free) && FromFree(flat, flat - {k}, free)
    ensures pte.Present? && pte.pa in free ==> FromFree(flat, flat[k := pte], free)
  {
  }

  /** The pages other address spaces map keep their contents. */
  lemma {:induction false} OthersKept(mem: Memory, free: set<nat>, refs: map<nat, nat>, at: Tables, flat: Leaves,
                                      held: multiset<nat>, mem': Memory, flat': Leaves, held': multiset<nat>,
                                      root: nat)
    requires Good(mem, free, refs, at, flat, held) && UseKept(mem, mem', free, flat', held')
    requires LeavesOnly(flat, flat', root)
    ensures OthersUntouched(mem, flat, mem', flat', refs.Keys, root)
  {
    hide Good, UseKept, CopyOf;
    forall k | k in flat && k.root != root && flat[k].Present? && flat[k].pa in refs
      ensures CopyOf(mem', flat[k].pa) == CopyOf(mem, flat[k].pa)
    {
      FaultKeeps(mem, free, refs, at, flat, held, mem', flat', held', k);
    }
  }

  /** What a process may write to stays its own. */
  lemma {:induction false} StaysPrivate(mem: Memory, free: set<nat>, refs: map<nat, nat>, at: Tables, flat: Leaves,
                                        held: multiset<nat>, flat': Leaves, process: nat, root: nat)
    requires Good(mem, free, refs, at, flat, held) && FromFree(flat, flat', free) && LeavesOnly(flat, flat', root)
    requires root != process && Private(flat, process) && UserPages(flat, refs.Keys, process)
    ensures Private(flat', process) && UserPages(flat', refs.Keys, process)
  {
    hide Good, UserStores;
    forall k | k in flat
      ensures flat[k].Present? && flat[k].pa !in free
    {
      MappedPage(mem, free, refs, at, flat, held, k);
    }
  }

  /** A fresh page for a kernel address. The caller does not look at what mapping it returns. */
  method KernelMap(m: PageTableManager, va: nat, prot: Prot)
    requires m.Inv() && m.ttbr1 != 0 && Pos(m.ttbr1, []) in m.at && KernelAddr(va)
    modifies m`mem, m`free, m`refs, m`at, m`flat, m`held
    ensures m.Inv() && RootsKept(old(m.at), m.at) && m.refs.Keys == old(m.refs).Keys
    ensures TablesOnly(old(m.at), m.at, m.ttbr1) && LeavesOnly(old(m.flat), m.flat, m.ttbr1)
    ensures FromFree(old(m.flat), m.flat, old(m.free))
    ensures UseKept(old(m.mem), m.mem, old(m.free), m.flat, m.held)
  {
    hide Good, PhysBits, IsUserAddr, Walk, UseKept, DataKept, Count, TablesOnly, LeavesOnly, RootsKept, FromFree, Grown,
         EnoughFrames, HeldAfterWrite, Path;
    UserHalf(va);
    RootsSame(m.at);
    NoneOnly(m.at, m.flat, m.ttbr1);
    ghost var mem0, free0 := m.mem, m.free;
    ghost var k := Walk(m.ttbr1, va, 4);
    var pa := m.AllocPhysPages();
    FromFreeOne(m.flat, free0, k, Present(pa, prot));
    KeptIsUsed(mem0, m.mem, free0, m.flat, m.held);
    if pa != 0 {
      ghost var mem1, free1 := m.mem, m.free;
      var _ := m.Arm64MapOnePage(va, pa, prot);
      SmallerFree(mem0, mem1, m.mem, free0, free1, pa, m.flat, m.held);
    }
  }

  /** One operation of the kernel changes no table, no translation and no byte of another address
      space, and a process running beside it goes on running. */
  method KernelStep(m: PageTableManager, op: KernelOp)
    requires m.Inv() && m.ttbr1 != 0 && Pos(m.ttbr1, []) in m.at && KernelAddr(op.va)
    modifies m`mem, m`free, m`refs, m`at, m`flat, m`held
    ensures m.Inv() && RootsKept(old(m.at), m.at) && m.refs.Keys == old(m.refs).Keys
    ensures TablesOnly(old(m.at), m.at, m.ttbr1)
    ensures OthersUntouched(old(m.mem), old(m.flat), m.mem, m.flat, m.refs.Keys, m.ttbr1)
    ensures old(Running(m)) && m.ttbr0 != m.ttbr1 ==> Running(m)
  {
    hide Good, PhysBits, IsUserAddr, Walk, UseKept, DataKept, Count, TablesOnly, LeavesOnly, OthersUntouched, RootsKept,
         FromFree, Private, UserPages, PruneInv, Pruned, Hold, Path, HeldAfterFault, EnoughForPage, VmallocFault;
    UserHalf(op.va);
    ghost var mem0, free0, refs0, at0, flat0, held0 := m.mem, m.free, m.refs, m.at, m.flat, m.held;
    ghost var k := Walk(m.ttbr1, op.va, 4);
    FromFreeOne(flat0, free0, k, Absent);
    NoneOnly(at0, flat0, m.ttbr1);
    if op.MapFresh? {
      KernelMap(m, op.va, op.prot);
    } else if op.Unmap? {
      m.Arm64UnmapOnePage(op.va);
      KeptMore(mem0, m.mem, free0, m.flat, m.held);
    } else {
      ghost var page;
      var ok;
      ok, page := m.VmallocHandlePageFault(op.va, op.busy);
      FromFreeOne(flat0, free0, k, Present(page, PAGE_KERNEL_RW));
    }
    OthersKept(mem0, free0, refs0, at0, flat0, held0, m.mem, m.flat, m.held, m.ttbr1);
    if old(Running(m)) && m.ttbr0 != m.ttbr1 {
      RootStays(at0, m.at, m.ttbr0);
      StaysPrivate(mem0, free0, refs0, at0, flat0, held0, m.flat, m.ttbr0, m.ttbr1);
    }
  }

  lemma {:induction false} KeptMore(mem: Memory, mem': Memory, free: set<nat>, flat: Leaves, held: multiset<nat>)
    requires DataKept(mem, mem', {})
    ensures UseKept(mem, mem', free, flat, held)
  {
    hide Count;
  }

  // ---------------------------------------------------------------------------
  // Stores of a process and operations of the kernel, in any order
  // ---------------------------------------------------------------------------

  datatype Event = User(s: Store) | Kernel(op: KernelOp)

  function StoresOf(events: seq<Event>): seq<Store> {
    if events == [] then [] else
    var rest, last := StoresOf(events[..|events| - 1]), events[|events| - 1];
    if last.User? then rest + [last.s] else rest
  }

  /** Every address space but two is as it was. */
  ghost predicate ThirdUntouched(mem: Memory, flat: Leaves, mem': Memory, flat': Leaves, frames: set<nat>, root: nat,
                                 root': nat) {
    forall r: nat :: r != root && r != root' ==> Untouched(mem, flat, mem', flat', frames, r)
  }

  lemma {:induction false} ThirdTrans(mem: Memory, flat: Leaves, mem1: Memory, flat1: Leaves, mem2: Memory,
                                      flat2: Leaves, frames: set<nat>, root: nat, root': nat)
    requires ThirdUntouched(mem, flat, mem1, flat1, frames, root, root')
    requires OthersUntouched(mem1, flat1, mem2, flat2, frames, root)
             || OthersUntouched(mem1, flat1, mem2, flat2, frames, root')
    ensures ThirdUntouched(mem, flat, mem2, flat2, frames, root, root')
  {
    hide Translations, Seen;
    forall r: nat | r != root && r != root'
      ensures Untouched(mem, flat, mem2, flat2, frames, r)
    {
      assert Untouched(mem, flat, mem1, flat1, frames, r) && Untouched(mem1, flat1, mem2, flat2, frames, r);
    }
  }

  lemma {:induction false} OneUntouched(mem: Memory, flat: Leaves, mem': Memory, flat': Leaves, frames: set<nat>,
                                        root: nat, r: nat)
    requires OthersUntouched(mem, flat, mem', flat', frames, root) && r != root
    ensures Seen(mem', flat', frames, r) == Seen(mem, flat, frames, r)
    ensures Translations(flat', r) == Translations(flat, r)
  {
    hide Translations, Seen;
    assert Untouched(mem, flat, mem', flat', frames, r);
  }

  /** Any run of stores of a process and operations of the kernel. The process sees its old contents
      overlaid with its own stores, whatever the kernel does between them. */
  method RunBeside(m: PageTableManager, events: seq<Event>) returns (done: nat)
    requires Running(m) && m.ttbr1 != 0 && Pos(m.ttbr1, []) in m.at && m.ttbr0 != m.ttbr1
    requires forall i :: 0 <= i < |events| ==>
               if events[i].User? then IsUserAddr(events[i].s.va) else KernelAddr(events[i].op.va)
    modifies m`mem, m`free, m`refs, m`at, m`flat, m`held
    ensures Running(m) && m.refs.Keys == old(m.refs.Keys) && done <= |events|
    ensures done < |events| ==> events[done].User?
    ensures ThirdUntouched(old(m.mem), old(m.flat), m.mem, m.flat, m.refs.Keys, m.ttbr0, m.ttbr1)
    ensures var seen := Overlaid(old(SeenBy(m, m.ttbr0)), m.ttbr0, StoresOf(events[..done]));
            SeenBy(m, m.ttbr0) == seen
            || (done < |events| && SeenBy(m, m.ttbr0) == ZeroFilled(seen, LeafOf(m.ttbr0, events[done].s.va)))
  {
    hide Running, OthersUntouched, ThirdUntouched, Stored, ZeroFilled, LeafOf, Seen, Untouched, Good, IsUserAddr,
         TablesOnly, RootsKept;
    ghost var seen := SeenBy(m, m.ttbr0);
    done := 0;
    ThirdSame(m.mem, m.flat, m.refs.Keys, m.ttbr0, m.ttbr1);
    assert events[..0] == [];
    while done < |events|
      invariant Running(m) && m.refs.Keys == old(m.refs.Keys) && done <= |events| && Pos(m.ttbr1, []) in m.at
      invariant ThirdUntouched(old(m.mem), old(m.flat), m.mem, m.flat, m.refs.Keys, m.ttbr0, m.ttbr1)
      invariant SeenBy(m, m.ttbr0) == Overlaid(seen, m.ttbr0, StoresOf(events[..done]))
    {
      ghost var mem1, at1, flat1 := m.mem, m.at, m.flat;
      assert events[..done + 1][..done] == events[..done];
      if events[done].User? {
        var ok := StoreByte(m, events[done].s);
        ThirdTrans(old(m.mem), old(m.flat), mem1, flat1, m.mem, m.flat, m.refs.Keys, m.ttbr0, m.ttbr1);
        if !ok {
          return;
        }
        OneStore(seen, m.ttbr0, StoresOf(events[..done]), events[done].s);
      } else {
        RunningInv(m);
        KernelStep(m, events[done].op);
        ThirdTrans(old(m.mem), old(m.flat), mem1, flat1, m.mem, m.flat, m.refs.Keys, m.ttbr0, m.ttbr1);
        OneUntouched(mem1, flat1, m.mem, m.flat, m.refs.Keys, m.ttbr1, m.ttbr0);
      }
      RootStays(at1, m.at, m.ttbr1);
      done := done + 1;
    }
  }

  lemma {:induction false} RunningInv(m: PageTableManager)
    requires Running(m)
    ensures m.Inv()
  {
  }

  lemma {:induction false} OneStore(seen: map<Pos, Page>, root: nat, stores: seq<Store>, s: Store)
    ensures Overlaid(seen, root, stores + [s]) == Stored(Overlaid(seen, root, stores), root, s)
  {
    hide Stored;
    assert (stores + [s])[..|stores|] == stores;
  }

  lemma {:induction false} ThirdSame(mem: Memory, flat: Leaves, frames: set<nat>, root: nat, root': nat)
    ensures ThirdUntouched(mem, flat, mem, flat, frames, root, root')
  {
    hide CopyOf;
  }
}
