/**
 What processes see of memory after a fork: stores of the child go through the fault handler
 and never reach the parent, while stores of the parent reach every page still shared.
 */
module ForkIsolation {
  import opened Common
  import opened PageTableModel
  import opened PageTableSteps
  import opened PageTableTrees
  import opened PageTables

  /** No page the address space can write to is mapped anywhere else. */
  ghost predicate Private(flat: Leaves, root: nat) {
    forall k, k' ::
      k in flat && k' in flat && k.root == root && UserStores(flat[k]) && k' != k && flat[k'].Present? ==>
        flat[k'].pa != flat[k].pa
  }

  /** The address space maps managed pages only. */
  ghost predicate UserPages(flat: Leaves, frames: set<nat>, root: nat) {
    forall k :: k in flat && k.root == root ==> flat[k].Present? && flat[k].pa in frames
  }

  ghost function Translations(flat: Leaves, root: nat): Leaves {
    map k | k in flat && k.root == root :: flat[k]
  }

  /** The contents of the managed pages an address space maps. */
  ghost function Seen(mem: Memory, flat: Leaves, frames: set<nat>, root: nat): map<Pos, Page> {
    map k | k in flat && k.root == root && flat[k].Present? && flat[k].pa in frames :: CopyOf(mem, flat[k].pa)
  }

  /** The contents of those that user mode can load from. */
  ghost function Loaded(mem: Memory, flat: Leaves, frames: set<nat>, root: nat): map<Pos, Page> {
    map k | k in flat && k.root == root && UserLoads(flat[k]) && flat[k].pa in frames :: CopyOf(mem, flat[k].pa)
  }

  /** Another address space is as it was. */
  ghost predicate Untouched(mem: Memory, flat: Leaves, mem': Memory, flat': Leaves, frames: set<nat>, root: nat) {
    && Translations(flat', root) == Translations(flat, root)
    && Seen(mem', flat', frames, root) == Seen(mem, flat, frames, root)
  }

  /** One leaf changes to a page nothing mapped before; every other page in use is kept. */
  ghost predicate Remaps(mem: Memory, flat: Leaves, mem': Memory, flat': Leaves, frames: set<nat>, k: Pos) {
    && k in flat' && flat' == flat[k := flat'[k]] && flat'[k].Present? && flat'[k].pa in frames
    && (forall k' :: k' in flat && k' != k && flat[k'].Present? ==> flat[k'].pa != flat'[k].pa)
    && (forall k' :: k' in flat && k' != k && flat[k'].Present? && flat[k'].pa in frames ==>
        CopyOf(mem', flat[k'].pa) == CopyOf(mem, flat[k'].pa))
  }

  lemma {:induction false} Counted(flat: Leaves, k: Pos)
    requires k in flat && flat[k].Present?
    ensures Count(flat, flat[k].pa) > 0
  {
    assert k in Mappers(flat, flat[k].pa);
  }

  lemma {:induction false} FaultKeeps(mem: Memory, free: set<nat>, refs: map<nat, nat>, at: Tables, flat: Leaves,
                                      held: multiset<nat>, mem': Memory, flat': Leaves,
        held': multiset<nat>, k: Pos)
    requires Good(mem, free, refs, at, flat, held) && UseKept(mem, mem', free, flat', held')
    requires k in flat && k in flat' && flat[k].Present? && flat'[k] == flat[k]
    ensures flat[k].pa !in free && (flat[k].pa in refs ==> CopyOf(mem', flat[k].pa) == CopyOf(mem, flat[k].pa))
  {
    MappedPage(mem, free, refs, at, flat, held, k);
    Counted(flat', k);
    hide Good, Count;
  }

  /** What the fault handler did, seen as a change of one leaf. */
  lemma {:induction false} FaultRemaps(mem: Memory, free: set<nat>, refs: map<nat, nat>, at: Tables, flat: Leaves,
                                       held: multiset<nat>, mem': Memory, flat': Leaves,
        held': multiset<nat>, k: Pos, pte: Pte)
    requires Good(mem, free, refs, at, flat, held) && UseKept(mem, mem', free, flat', held')
    requires pte.Present? && pte.pa in free && pte.pa in refs && flat' == flat[k := pte]
    ensures Remaps(mem, flat, mem', flat', refs.Keys, k)
  {
    hide Good, UseKept, CopyOf;
    forall k' | k' in flat && k' != k && flat[k'].Present?
      ensures flat[k'].pa != pte.pa
      ensures flat[k'].pa in refs ==> CopyOf(mem', flat[k'].pa) == CopyOf(mem, flat[k'].pa)
    {
      FaultKeeps(mem, free, refs, at, flat, held, mem', flat', held', k');
    }
  }

  lemma {:induction false} RemapUntouched(mem: Memory, flat: Leaves, mem': Memory, flat': Leaves, frames: set<nat>,
                                          k: Pos, root: nat)
    requires Remaps(mem, flat, mem', flat', frames, k) && root != k.root
    ensures Untouched(mem, flat, mem', flat', frames, root)
  {
    hide CopyOf;
  }

  lemma {:induction false} RemapSeen(mem: Memory, flat: Leaves, mem': Memory, flat': Leaves, frames: set<nat>, k: Pos)
    requires Remaps(mem, flat, mem', flat', frames, k)
    ensures Seen(mem', flat', frames, k.root) == Seen(mem, flat, frames, k.root)[k := CopyOf(mem', flat'[k].pa)]
  {
    hide CopyOf;
  }

  lemma {:induction false} RemapPrivate(mem: Memory, flat: Leaves, mem': Memory, flat': Leaves, frames: set<nat>,
                                        k: Pos)
    requires Remaps(mem, flat, mem', flat', frames, k) && Private(flat, k.root) && UserPages(flat, frames, k.root)
    ensures Private(flat', k.root) && UserPages(flat', frames, k.root)
  {
    hide CopyOf;
  }

  /** A write to a page only one leaf maps changes what that leaf sees and nothing else. */
  lemma {:induction false} WriteSeen(mem: Memory, flat: Leaves, frames: set<nat>, k: Pos, page: Page, root: nat)
    requires k in flat && flat[k].Present? && flat[k].pa in frames && UserStores(flat[k]) && Private(flat, k.root)
    ensures var mem' := mem[flat[k].pa := page];
            && (root != k.root ==> Untouched(mem, flat, mem', flat, frames, root))
            && Seen(mem', flat, frames, k.root) == Seen(mem, flat, frames, k.root)[k := page]
  {
    var mem' := mem[flat[k].pa := page];
    forall k' | k' in flat && flat[k'].Present? && flat[k'].pa in frames
      ensures CopyOf(mem', flat[k'].pa) == if k' == k then page else CopyOf(mem, flat[k'].pa)
    {
    }
    hide CopyOf, UserStores, Private;
  }

  // ---------------------------------------------------------------------------
  // Stores
  // ---------------------------------------------------------------------------

  /** What the memory map allows at an address. */
  datatype Vma = Vma(found: bool, write: bool, exec: bool)

  /** A one-byte store. */
  datatype Store = Store(va: nat, byte: nat, vma: Vma)

  function LeafOf(root: nat, va: nat): Pos {
    Walk(root, va, 4)
  }

  /** The page after a byte is written into it. */
  function Poked(page: Page, offset: nat, byte: nat): Page {
    if page.Data? && offset < |page.bytes| then Data(page.bytes[offset := byte]) else page
  }

  /** The page a store finds: the one mapped there, or a zeroed one. */
  ghost function PageAt(seen: map<Pos, Page>, k: Pos): Page {
    if k in seen then seen[k] else Data(Zeros())
  }

  /** What an address space sees once the page is there. */
  ghost function ZeroFilled(seen: map<Pos, Page>, k: Pos): map<Pos, Page> {
    seen[k := PageAt(seen, k)]
  }

  /** What an address space sees after a store. */
  ghost function Stored(seen: map<Pos, Page>, root: nat, s: Store): map<Pos, Page> {
    var k := LeafOf(root, s.va);
    seen[k := Poked(PageAt(seen, k), s.va % PAGE_SIZE, s.byte)]
  }

  /** What an address space sees after a run of stores. */
  ghost function Overlaid(seen: map<Pos, Page>, root: nat, stores: seq<Store>): map<Pos, Page> {
    if stores == [] then seen else Stored(Overlaid(seen, root, stores[..|stores| - 1]), root, stores[|stores| - 1])
  }

  /** The state in which user code of the address space runs. */
  ghost predicate Running(m: PageTableManager)
    reads m
  {
    && m.Inv() && m.ttbr0 != 0 && Pos(m.ttbr0, []) in m.at
    && Private(m.flat, m.ttbr0) && UserPages(m.flat, m.refs.Keys, m.ttbr0)
  }

  ghost function SeenBy(m: PageTableManager, root: nat): map<Pos, Page>
    reads m
  {
    Seen(m.mem, m.flat, m.refs.Keys, root)
  }

  ghost function LoadedBy(m: PageTableManager, root: nat): map<Pos, Page>
    reads m
  {
    Loaded(m.mem, m.flat, m.refs.Keys, root)
  }

  /** The entry the hardware finds for va. */
  method HardwareWalk(m: PageTableManager, va: nat) returns (entry: Pte)
    requires m.Inv() && Pos(m.ttbr0, []) in m.at && IsUserAddr(va)
    ensures entry == if LeafOf(m.ttbr0, va) in m.flat then m.flat[LeafOf(m.ttbr0, va)] else Absent
  {
    hide Private, UserPages, PhysBits, Index, IsUserAddr, Child, Accounts, Frames, Tree;
    var l0 := m.ttbr0;
    RootTable(m.mem, m.at, m.flat, l0);
    PathTables(l0, va);
    var l1, l2, l3 := m.FindTables(l0, va);
    LeafParent(m.mem, m.at, m.flat, Walk(l0, va, 3), Index(va, 3));
    if l3 == 0 {
      return Absent;
    }
    EntryAt(m.mem, m.at, m.flat, Walk(l0, va, 3), Index(va, 3));
    return m.mem[l3].entries[Index(va, 3)];
  }

  ghost predicate OthersUntouched(mem: Memory, flat: Leaves, mem': Memory, flat': Leaves, frames: set<nat>, root: nat) {
    forall r: nat :: r != root ==> Untouched(mem, flat, mem', flat', frames, r)
  }

  lemma {:induction false} OthersSame(mem: Memory, flat: Leaves, frames: set<nat>, root: nat)
    ensures OthersUntouched(mem, flat, mem, flat, frames, root)
  {
    hide CopyOf;
  }

  lemma {:induction false} OthersTrans(mem: Memory, flat: Leaves, mem1: Memory, flat1: Leaves, mem2: Memory,
                                       flat2: Leaves, frames: set<nat>, root: nat)
    requires OthersUntouched(mem, flat, mem1, flat1, frames, root)
    requires OthersUntouched(mem1, flat1, mem2, flat2, frames, root)
    ensures OthersUntouched(mem, flat, mem2, flat2, frames, root)
  {
    hide Translations, Seen;
    forall r: nat | r != root
      ensures Untouched(mem, flat, mem2, flat2, frames, r)
    {
      assert Untouched(mem, flat, mem1, flat1, frames, r) && Untouched(mem1, flat1, mem2, flat2, frames, r);
    }
  }

  lemma {:induction false} RemapOthers(mem: Memory, flat: Leaves, mem': Memory, flat': Leaves, frames: set<nat>, k: Pos)
    requires Remaps(mem, flat, mem', flat', frames, k)
    ensures OthersUntouched(mem, flat, mem', flat', frames, k.root)
  {
    hide Remaps, Untouched;
    forall r: nat | r != k.root
      ensures Untouched(mem, flat, mem', flat', frames, r)
    {
      RemapUntouched(mem, flat, mem', flat', frames, k, r);
    }
  }

  lemma {:induction false} WriteOthers(mem: Memory, flat: Leaves, frames: set<nat>, k: Pos, page: Page)
    requires k in flat && flat[k].Present? && flat[k].pa in frames && UserStores(flat[k]) && Private(flat, k.root)
    ensures OthersUntouched(mem, flat, mem[flat[k].pa := page], flat, frames, k.root)
  {
    hide UserStores, Private, Untouched;
    var mem' := mem[flat[k].pa := page];
    forall r: nat | r != k.root
      ensures Untouched(mem, flat, mem', flat, frames, r)
    {
      WriteSeen(mem, flat, frames, k, page, r);
    }
  }

  /** A failed fault may have used frames, but nobody sees a difference. */
  lemma {:induction false} FaultFailed(mem: Memory, free: set<nat>, refs: map<nat, nat>, at: Tables, flat: Leaves,
                                       held: multiset<nat>, mem': Memory, held': multiset<nat>, root: nat)
    requires Good(mem, free, refs, at, flat, held) && UseKept(mem, mem', free, flat, held')
    ensures OthersUntouched(mem, flat, mem', flat, refs.Keys, root)
    ensures Seen(mem', flat, refs.Keys, root) == Seen(mem, flat, refs.Keys, root)
  {
    hide Good, UseKept, CopyOf;
    forall k | k in flat && flat[k].Present? && flat[k].pa in refs
      ensures CopyOf(mem', flat[k].pa) == CopyOf(mem, flat[k].pa)
    {
      FaultKeeps(mem, free, refs, at, flat, held, mem', flat, held', k);
    }
  }

  /** The contents of a present page are what is seen of it. */
  lemma {:induction false} PageSeen(mem: Memory, flat: Leaves, frames: set<nat>, k: Pos)
    requires UserPages(flat, frames, k.root)
    ensures k in flat ==> PageAt(Seen(mem, flat, frames, k.root), k) == CopyOf(mem, flat[k].pa)
    ensures k !in flat ==> PageAt(Seen(mem, flat, frames, k.root), k) == Data(Zeros())
  {
    hide CopyOf, Zeros;
  }

  /** A user leaf is found by the walk, and its bytes are in memory. */
  lemma {:induction false} UserLeaf(mem: Memory, free: set<nat>, refs: map<nat, nat>, at: Tables, flat: Leaves,
                                    held: multiset<nat>, k: Pos)
    requires Good(mem, free, refs, at, flat, held) && (k in flat ==> flat[k].Present? && flat[k].pa in refs)
    ensures k in flat <==> Finds(flat, k)
    ensures k in flat ==>
              forall device: seq<nat> :: Data(BytesAt(mem, refs, flat[k].pa, device)) == CopyOf(mem, flat[k].pa)
  {
    hide Good, PhysBits, Count;
    FoundPage(mem, free, refs, at, flat, held, k);
    if k in flat {
      MappedPage(mem, free, refs, at, flat, held, k);
    }
  }

  lemma {:induction false} CopyOfIn(mem: Memory, f: nat)
    ensures f in mem ==> CopyOf(mem, f) == mem[f]
  {
  }

  /** A write fault of user code. */
  method WriteFault(m: PageTableManager, s: Store) returns (ok: bool)
    requires Running(m) && IsUserAddr(s.va)
    modifies m`mem, m`free, m`refs, m`at, m`flat, m`held
    ensures Running(m) && m.refs.Keys == old(m.refs.Keys) && RootsKept(old(m.at), m.at)
    ensures OthersUntouched(old(m.mem), old(m.flat), m.mem, m.flat, m.refs.Keys, m.ttbr0)
    ensures !ok ==> m.flat == old(m.flat) && SeenBy(m, m.ttbr0) == old(SeenBy(m, m.ttbr0))
    ensures var k := LeafOf(m.ttbr0, s.va);
            ok ==> k in m.flat && (k in old(m.flat) ==> UserStores(m.flat[k]))
                   && SeenBy(m, m.ttbr0) == ZeroFilled(old(SeenBy(m, m.ttbr0)), k)
  {
    hide Private, UserPages, PhysBits, Index, IsUserAddr, Good, UseKept, RootsKept, Walk, HeldAfterFault, EnoughForPage,
         OthersUntouched, PageAt, Zeros, CopyOf, Seen, Finds, BytesAt, Grown, Path;
    ghost var root, k := m.ttbr0, LeafOf(m.ttbr0, s.va);
    ghost var mem, free, refs, at, flat, held := m.mem, m.free, m.refs, m.at, m.flat, m.held;
    LeafManaged(flat, refs.Keys, k, root);
    PageSeen(mem, flat, refs.Keys, k);
    UserLeaf(mem, free, refs, at, flat, held, k);
    var r, page := m.ProcessFault(s.va, s.vma.found, s.vma.write, s.vma.exec, true, seq(PAGE_SIZE, _ => 0));
    RootStays(at, m.at, root);
    if r != Resolved {
      FaultFailed(mem, free, refs, at, flat, held, m.mem, m.held, root);
      return false;
    }
    FaultRemaps(mem, free, refs, at, flat, held, m.mem, m.flat, m.held, k, m.flat[k]);
    RemapOthers(mem, flat, m.mem, m.flat, refs.Keys, k);
    RemapSeen(mem, flat, m.mem, m.flat, refs.Keys, k);
    RemapPrivate(mem, flat, m.mem, m.flat, refs.Keys, k);
    CopyOfIn(m.mem, page);
    return true;
  }

  lemma {:induction false} LeafManaged(flat: Leaves, frames: set<nat>, k: Pos, root: nat)
    requires UserPages(flat, frames, root) && k.root == root
    ensures k in flat ==> flat[k].Present? && flat[k].pa in frames
  {
  }

  lemma {:induction false} SeenTwice(seen: map<Pos, Page>, k: Pos, page: Page)
    ensures ZeroFilled(ZeroFilled(seen, k), k) == ZeroFilled(seen, k)
    ensures PageAt(ZeroFilled(seen, k), k) == PageAt(seen, k)
    ensures ZeroFilled(seen, k)[k := page] == seen[k := page]
  {
    hide Zeros;
  }

  /** The leaf maps the page, and the byte there changes. */
  ghost predicate Hit(mem: Memory, flat: Leaves, k: Pos, pa: nat, offset: nat, byte: nat) {
    k in flat && flat[k].Present? && flat[k].pa == pa && Poked(CopyOf(mem, pa), offset, byte) != CopyOf(mem, pa)
  }

  /** The store itself, of an address space that may write to the page at k: what any address space
      sees at any place changes exactly if the entry there maps the same page and the byte differs. */
  method PokePage(m: PageTableManager, pa: nat, offset: nat, byte: nat, ghost k: Pos)
    requires m.Inv() && k in m.flat && m.flat[k].Present? && m.flat[k].pa == pa && pa in m.refs && UserStores(m.flat[k])
    requires offset < PAGE_SIZE
    modifies m`mem
    ensures m.Inv() && pa in m.mem && m.mem == old(m.mem)[pa := Poked(CopyOf(old(m.mem), pa), offset, byte)]
    ensures forall r: nat, k': Pos :: k' in SeenBy(m, r) <==> k' in old(SeenBy(m, r))
    ensures forall r: nat, k': Pos :: k' in SeenBy(m, r) ==>
              (SeenBy(m, r)[k'] != old(SeenBy(m, r))[k'] <==> Hit(old(m.mem), m.flat, k', pa, offset, byte))
    ensures forall r: nat, k': Pos :: k' in SeenBy(m, r) && m.flat[k'].pa == pa ==>
              SeenBy(m, r)[k'] == Poked(old(SeenBy(m, r))[k'], offset, byte)
  {
    hide PhysBits, Good;
    MappedPage(m.mem, m.free, m.refs, m.at, m.flat, m.held, k);
    var bytes := m.mem[pa].bytes[offset := byte];
    PageWritten(m.mem, m.free, m.refs, m.at, m.flat, m.held, pa, bytes);
    m.mem := m.mem[pa := Data(bytes)];
  }

  /** The store itself, to a page it may write. */
  method Poke(m: PageTableManager, pa: nat, s: Store, ghost k: Pos)
    requires Running(m) && k in m.flat && k.root == m.ttbr0 && m.flat[k].Present? && m.flat[k].pa == pa
    requires UserStores(m.flat[k])
    modifies m`mem
    ensures Running(m) && OthersUntouched(old(m.mem), m.flat, m.mem, m.flat, m.refs.Keys, m.ttbr0)
    ensures var seen := old(SeenBy(m, m.ttbr0));
            SeenBy(m, m.ttbr0) == seen[k := Poked(PageAt(seen, k), s.va % PAGE_SIZE, s.byte)]
  {
    hide Private, UserPages, PhysBits, Good, OthersUntouched, PageAt, Seen, CopyOf, Poked, Hit;
    LeafManaged(m.flat, m.refs.Keys, k, m.ttbr0);
    MappedPage(m.mem, m.free, m.refs, m.at, m.flat, m.held, k);
    PageSeen(m.mem, m.flat, m.refs.Keys, k);
    WriteOthers(m.mem, m.flat, m.refs.Keys, k, Poked(CopyOf(m.mem, pa), s.va % PAGE_SIZE, s.byte));
    WriteSeen(m.mem, m.flat, m.refs.Keys, k, Poked(CopyOf(m.mem, pa), s.va % PAGE_SIZE, s.byte), m.ttbr0);
    PokePage(m, pa, s.va % PAGE_SIZE, s.byte, k);
  }

  /** A store of user code to a user address: faults until the page is writable, then writes. It
      changes what this address space sees exactly as a store should, and nothing any other
      address space maps or sees. */
  method StoreByte(m: PageTableManager, s: Store) returns (ok: bool)
    requires Running(m) && IsUserAddr(s.va)
    modifies m`mem, m`free, m`refs, m`at, m`flat, m`held
    ensures Running(m) && m.refs.Keys == old(m.refs.Keys) && RootsKept(old(m.at), m.at)
    ensures OthersUntouched(old(m.mem), old(m.flat), m.mem, m.flat, m.refs.Keys, m.ttbr0)
    ensures ok ==> SeenBy(m, m.ttbr0) == Stored(old(SeenBy(m, m.ttbr0)), m.ttbr0, s)
    ensures !ok ==> SeenBy(m, m.ttbr0) == old(SeenBy(m, m.ttbr0))
                    || SeenBy(m, m.ttbr0) == ZeroFilled(old(SeenBy(m, m.ttbr0)), LeafOf(m.ttbr0, s.va))
  {
    hide Private, UserPages, PhysBits, Index, IsUserAddr, Good, Walk, OthersUntouched, PageAt, Seen, Poked, Zeros,
         CopyOf, ZeroFilled, RootsKept;
    ghost var root, k := m.ttbr0, LeafOf(m.ttbr0, s.va);
    ghost var seen := SeenBy(m, root);
    OthersSame(m.mem, m.flat, m.refs.Keys, root);
    RootsSame(m.at);
    var entry := HardwareWalk(m, s.va);
    while !UserStores(entry)
      invariant Running(m) && m.refs.Keys == old(m.refs.Keys) && entry == if k in m.flat then m.flat[k] else Absent
      invariant OthersUntouched(old(m.mem), old(m.flat), m.mem, m.flat, m.refs.Keys, root)
      invariant RootsKept(old(m.at), m.at)
      invariant SeenBy(m, root) == seen || SeenBy(m, root) == ZeroFilled(seen, k)
      decreases if UserStores(entry) then 0 else if k in m.flat then 1 else 2
    {
      ghost var mem1, at1, flat1 := m.mem, m.at, m.flat;
      SeenTwice(seen, k, Data([]));
      LeafManaged(m.flat, m.refs.Keys, k, root);
      ok := WriteFault(m, s);
      RootsTrans(old(m.at), at1, m.at);
      OthersTrans(old(m.mem), old(m.flat), mem1, flat1, m.mem, m.flat, m.refs.Keys, root);
      if !ok {
        return;
      }
      entry := HardwareWalk(m, s.va);
    }
    LeafManaged(m.flat, m.refs.Keys, k, root);
    SeenTwice(seen, k, Poked(PageAt(seen, k), s.va % PAGE_SIZE, s.byte));
    ghost var mem1, flat1 := m.mem, m.flat;
    Poke(m, entry.pa, s, k);
    OthersTrans(old(m.mem), old(m.flat), mem1, flat1, m.mem, m.flat, m.refs.Keys, root);
    ok := true;
  }

  /** Any run of stores of one address space, each of which succeeds or ends the run. The address
      space sees its old contents overlaid with the stores; no other one sees or maps anything new. */
  method RunStores(m: PageTableManager, stores: seq<Store>) returns (done: nat)
    requires Running(m) && forall i :: 0 <= i < |stores| ==> IsUserAddr(stores[i].va)
    modifies m`mem, m`free, m`refs, m`at, m`flat, m`held
    ensures Running(m) && m.refs.Keys == old(m.refs.Keys) && done <= |stores|
    ensures OthersUntouched(old(m.mem), old(m.flat), m.mem, m.flat, m.refs.Keys, m.ttbr0)
    ensures var seen := Overlaid(old(SeenBy(m, m.ttbr0)), m.ttbr0, stores[..done]);
            SeenBy(m, m.ttbr0) == seen
            || (done < |stores| && SeenBy(m, m.ttbr0) == ZeroFilled(seen, LeafOf(m.ttbr0, stores[done].va)))
  {
    hide Running, OthersUntouched, Stored, ZeroFilled, LeafOf, Seen, RootsKept;
    OthersSame(m.mem, m.flat, m.refs.Keys, m.ttbr0);
    done := 0;
    assert stores[..0] == [];
    while done < |stores|
      invariant Running(m) && m.refs.Keys == old(m.refs.Keys) && done <= |stores|
      invariant OthersUntouched(old(m.mem), old(m.flat), m.mem, m.flat, m.refs.Keys, m.ttbr0)
      invariant SeenBy(m, m.ttbr0) == Overlaid(old(SeenBy(m, m.ttbr0)), m.ttbr0, stores[..done])
    {
      ghost var mem1, flat1 := m.mem, m.flat;
      var ok := StoreByte(m, stores[done]);
      OthersTrans(old(m.mem), old(m.flat), mem1, flat1, m.mem, m.flat, m.refs.Keys, m.ttbr0);
      if !ok {
        return;
      }
      assert stores[..done + 1][..done] == stores[..done];
      done := done + 1;
    }
  }

  /** A child fresh from a fork may run: nothing it can write to is shared. */
  lemma {:induction false} ChildPrivate(at0: Tables, flat0: Leaves, at: Tables, flat: Leaves, free: set<nat>,
                                        frames: set<nat>, src: nat, dst: nat)
    requires Forked(at0, flat0, at, flat, free, src, dst) && UserPages(flat0, frames, src)
    ensures Private(flat, dst) && UserPages(flat, frames, dst)
    ensures forall k :: k in flat && k.root == dst ==> !UserStores(flat[k])
  {
    forall k | k in flat && k.root == dst
      ensures flat[k].Present? && flat[k].pa in frames && !UserStores(flat[k])
    {
      assert Mirror(k, src) in flat0 && Mirror(k, src).root == src;
    }
  }
}
