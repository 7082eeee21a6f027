/**
 Addresses and their walks through the tables, and what each step of the page-table code does
 to memory, the tables and the page accounts.
 */
module PageTableSteps {
  import opened Common
  import opened PageTableModel

  const PAGE_USER_RW: Prot := Prot(true, false, 0x60_0000_0000_0703)
  const PAGE_KERNEL_RW: Prot := Prot(false, false, 0x60_0000_0000_0703)
  const PAGE_USER_RX: Prot := Prot(true, true, 0x60_0000_0000_0703)

  /** L0_INDEX to L3_INDEX. */
  function Index(va: nat, level: nat): (i: nat)
    requires level < 4
    ensures i < PTRS_PER_PTE
  {
    if level == 0 then va / 0x80_0000_0000 % 512
    else if level == 1 then va / 0x4000_0000 % 512
    else if level == 2 then va / 0x20_0000 % 512
    else va / 0x1000 % 512
  }

  /** The table (or, at level 4, the leaf entry) the walk for va meets. */
  function Walk(root: nat, va: nat, level: nat): (p: Pos)
    requires level <= 4
    ensures |p.path| == level && p.root == root
  {
    if level == 0 then Pos(root, []) else Child(Walk(root, va, level - 1), Index(va, level - 1))
  }

  function IsUserAddr(va: nat): bool {
    va / 0x8000_0000_0000 == 0
  }

  /** A user address below 2^47, or a kernel address with the top 16 bits set. */
  predicate Canonical(va: nat) {
    va < 0x8000_0000_0000 || 0xFFFF_0000_0000_0000 <= va < 0x1_0000_0000_0000_0000
  }

  /** The indices are the address bits 47 to 39, 38 to 30, 29 to 21 and 20 to 12. */
  lemma {:induction false} IndexBits(va: nat)
    ensures va % 0x1_0000_0000_0000 ==
              Index(va, 0) * 0x80_0000_0000 + Index(va, 1) * 0x4000_0000 + Index(va, 2) * 0x20_0000
              + Index(va, 3) * 0x1000 + va % 0x1000
  {
    ModuloSplit(va, 0x80_0000_0000, 512);
    ModuloSplit(va, 0x4000_0000, 512);
    ModuloSplit(va, 0x20_0000, 512);
    ModuloSplit(va, 0x1000, 512);
  }

  lemma {:induction false} UserHalf(va: nat)
    ensures IsUserAddr(va) <==> va < 0x8000_0000_0000
  {
  }

  /** No table of another root is added, removed or moved. */
  ghost predicate TablesOnly(at: Tables, at': Tables, root: nat) {
    forall p: Pos :: p.root != root ==> (p in at' <==> p in at) && (p in at ==> at'[p] == at[p])
  }

  /** No translation of another root changes. */
  ghost predicate LeavesOnly(flat: Leaves, flat': Leaves, root: nat) {
    forall k: Pos :: k.root != root ==> (k in flat' <==> k in flat) && (k in flat ==> flat'[k] == flat[k])
  }

  /** Of all tables and translations only those of the root change, and of the leaves only the one for va:
      it maps the page. */
  ghost predicate MapsUnder(at: Tables, flat: Leaves, at': Tables, flat': Leaves, root: nat, va: nat, pte: Pte) {
    TablesOnly(at, at', root) && LeavesOnly(flat, flat', root) && flat' == flat[Walk(root, va, 4) := pte]
  }

  /** The same, and it maps nothing. */
  ghost predicate UnmapsUnder(at: Tables, flat: Leaves, at': Tables, flat': Leaves, root: nat, va: nat) {
    && TablesOnly(at, at', root) && LeavesOnly(flat, flat', root)
    && flat' == if root == 0 then flat else flat - {Walk(root, va, 4)}
  }

  /** The same, and no leaf at all changes. */
  ghost predicate TriesUnder(at: Tables, flat: Leaves, at': Tables, flat': Leaves, root: nat) {
    TablesOnly(at, at', root) && flat' == flat
  }

  lemma {:induction false} NoneOnly(at: Tables, flat: Leaves, root: nat)
    ensures TablesOnly(at, at, root) && LeavesOnly(flat, flat, root)
  {
  }

  lemma {:induction false} GrownOnly(at0: Tables, free0: set<nat>, at: Tables, free: set<nat>, root: nat, va: nat)
    requires Grown(at0, free0, at, free, Path(root, va))
    ensures TablesOnly(at0, at, root)
  {
    assert forall p :: p in Path(root, va) ==> p.root == root;
    hide Path;
    forall p: Pos | p.root != root
      ensures (p in at <==> p in at0) && (p in at0 ==> at[p] == at0[p])
    {
      assert p in at && p !in at0 ==> p in Added(at0, at);
    }
  }

  lemma {:induction false} PrunedOnly(at: Tables, flat: Leaves, root: nat, va: nat)
    ensures TablesOnly(at, Pruned(at, flat, root, va), root)
  {
    hide Walk, Childless;
  }

  lemma {:induction false} AbsentLeaf(flat: Leaves, k: Pos)
    ensures k !in flat ==> flat - {k} == flat
  {
  }

  lemma {:induction false} LeafOnly(flat: Leaves, k: Pos, pte: Pte)
    ensures LeavesOnly(flat, flat[k := pte], k.root) && LeavesOnly(flat, flat - {k}, k.root)
  {
  }

  /** Two canonical addresses of one half share a leaf entry exactly when they are on one page. */
  lemma {:induction false} SameEntry(root: nat, va: nat, va': nat)
    requires Canonical(va) && Canonical(va') && IsUserAddr(va) == IsUserAddr(va')
    ensures Walk(root, va, 4) == Walk(root, va', 4) <==> va / PAGE_SIZE == va' / PAGE_SIZE
  {
    WalkPath(root, va);
    WalkPath(root, va');
    Digits(va);
    Digits(va');
    LowBits(va, va');
    hide Walk, Index;
    SameDigits(va, va');
  }

  lemma {:induction false} LowBits(va: nat, va': nat)
    requires Canonical(va) && Canonical(va') && IsUserAddr(va) == IsUserAddr(va')
    ensures va / PAGE_SIZE % 0x10_0000_0000 == va' / PAGE_SIZE % 0x10_0000_0000 <==> va / PAGE_SIZE == va' / PAGE_SIZE
  {
    var n, n' := va / PAGE_SIZE, va' / PAGE_SIZE;
    if IsUserAddr(va) {
      assert n < 0x10_0000_0000 && n' < 0x10_0000_0000;
    } else {
      assert 0xF_FFF0_0000_0000 <= n < 0x10_0000_0000_0000 && 0xF_FFF0_0000_0000 <= n' < 0x10_0000_0000_0000;
    }
  }

  /** The four indices as one number of base 512. */
  function Number(va: nat): nat {
    ((Index(va, 0) * 512 + Index(va, 1)) * 512 + Index(va, 2)) * 512 + Index(va, 3)
  }

  lemma {:induction false} SameDigits(va: nat, va': nat)
    ensures Number(va) == Number(va') <==>
              && Index(va, 0) == Index(va', 0) && Index(va, 1) == Index(va', 1) && Index(va, 2) == Index(va', 2)
              && Index(va, 3) == Index(va', 3)
  {
    hide Index;
  }

  lemma {:induction false} WalkPath(root: nat, va: nat)
    ensures Walk(root, va, 4) == Pos(root, [Index(va, 0), Index(va, 1), Index(va, 2), Index(va, 3)])
  {
    var p := Walk(root, va, 0);
    assert Walk(root, va, 1).path == [Index(va, 0)];
    assert Walk(root, va, 2).path == [Index(va, 0), Index(va, 1)];
    assert Walk(root, va, 3).path == [Index(va, 0), Index(va, 1), Index(va, 2)];
  }

  /** The last digit of a number, and the rest. */
  lemma {:induction false} LastOfFour(n: nat)
    ensures n % 0x10_0000_0000 == n / 512 % (0x10_0000_0000 / 512) * 512 + n % 512
  {
    var q, r := n / 0x10_0000_0000, n % 0x10_0000_0000;
    assert n == q * 0x10_0000_0000 + r;
    assert n / 512 == q * (0x10_0000_0000 / 512) + r / 512;
    assert n / 512 % (0x10_0000_0000 / 512) == r / 512;
    assert n % 512 == r % 512;
  }

  lemma {:induction false} LastOfThree(n: nat)
    ensures n % 0x800_0000 == n / 512 % (0x800_0000 / 512) * 512 + n % 512
  {
    var q, r := n / 0x800_0000, n % 0x800_0000;
    assert n == q * 0x800_0000 + r;
    assert n / 512 == q * (0x800_0000 / 512) + r / 512;
    assert n / 512 % (0x800_0000 / 512) == r / 512;
    assert n % 512 == r % 512;
  }

  lemma {:induction false} LastOfTwo(n: nat)
    ensures n % 0x4_0000 == n / 512 % (0x4_0000 / 512) * 512 + n % 512
  {
    var q, r := n / 0x4_0000, n % 0x4_0000;
    assert n == q * 0x4_0000 + r;
    assert n / 512 == q * (0x4_0000 / 512) + r / 512;
    assert n / 512 % (0x4_0000 / 512) == r / 512;
    assert n % 512 == r % 512;
  }

  /** The four indices are the digits of the low 36 bits of the page number. */
  lemma {:induction false} Digits(va: nat)
    ensures va / PAGE_SIZE % 0x10_0000_0000 == Number(va)
  {
    var n := va / PAGE_SIZE;
    assert va / 0x20_0000 == n / 512;
    assert va / 0x4000_0000 == n / 512 / 512;
    assert va / 0x80_0000_0000 == n / 512 / 512 / 512;
    LastOfFour(n);
    LastOfThree(n / 512);
    LastOfTwo(n / 512 / 512);
  }

  /** Frames in use that hold data keep it. */
  ghost predicate DataKept(mem: Memory, mem': Memory, free: set<nat>) {
    forall f :: f in mem && mem[f].Data? && f !in free ==> f in mem' && mem'[f] == mem[f]
  }

  /** The places of the tables below the root a mapping of va needs. */
  ghost function Path(root: nat, va: nat): set<Pos> {
    {Walk(root, va, 1), Walk(root, va, 2), Walk(root, va, 3)}
  }

  /** There are as many free frames as tables missing for va. */
  ghost predicate EnoughFrames(free: set<nat>, at: Tables, root: nat, va: nat) {
    |free| >= |Path(root, va) - at.Keys|
  }

  /** There is a free frame beyond those the tables missing for va need. */
  ghost predicate EnoughForPage(free: set<nat>, at: Tables, root: nat, va: nat) {
    |free| > |Path(root, va) - at.Keys|
  }

  lemma {:induction false} OneForPage(free: set<nat>, at: Tables, root: nat, va: nat)
    ensures EnoughForPage(free, at, root, va) ==> free != {}
    ensures forall f :: f in free ==> (EnoughForPage(free, at, root, va) <==> EnoughFrames(free - {f}, at, root, va))
  {
    hide Path, Walk;
    forall f | f in free
      ensures |free - {f}| == |free| - 1
    {
    }
  }

  /** A page no entry maps and nobody holds. */
  ghost function LastPage(flat: Leaves, held: multiset<nat>, pa: nat): set<nat> {
    if Count(flat, pa) + held[pa] == 0 then {pa} else {}
  }

  /** The frames that dropping a reference to pa frees: pa, if it is a managed page and this was the
      last reference. */
  ghost function Dropped(flat: Leaves, held: multiset<nat>, refs: map<nat, nat>, pa: nat): set<nat> {
    if pa in refs then LastPage(flat, held, pa) else {}
  }

  ghost function Added(at0: Tables, at: Tables): set<Pos> {
    at.Keys - at0.Keys
  }

  ghost predicate Extends(at0: Tables, at: Tables, wanted: set<Pos>) {
    at0.Keys <= at.Keys && (forall p :: p in at0 ==> at[p] == at0[p]) && Added(at0, at) <= wanted
  }

  /** The frames gone from the free ones now hold tables. */
  ghost predicate Spent(free0: set<nat>, at: Tables, free: set<nat>) {
    free <= free0 && forall f :: f in free0 ==> (f in free <==> f !in at.Values)
  }

  /** Some of the tables wanted have been added, each in a frame that was free. */
  ghost predicate Grown(at0: Tables, free0: set<nat>, at: Tables, free: set<nat>, wanted: set<Pos>) {
    && Extends(at0, at, wanted)
    && Spent(free0, at, free)
    && |free| + |Added(at0, at)| == |free0|
    && at.Values <= at0.Values + free0
  }

  lemma {:induction false} GrownNot(at: Tables, free: set<nat>, wanted: set<Pos>)
    requires forall p :: p in at ==> at[p] !in free
    ensures Grown(at, free, at, free, wanted)
  {
    assert Added(at, at) == {};
  }

  lemma {:induction false} AddedOne(at: Tables, q: Pos, f: nat)
    requires q !in at
    ensures Extends(at, at[q := f], {q}) && |Added(at, at[q := f])| == 1
  {
    assert Added(at, at[q := f]) == {q};
  }

  lemma {:induction false} GrownOne(at: Tables, free: set<nat>, q: Pos, f: nat)
    requires forall p :: p in at ==> at[p] !in free
    requires q !in at && f in free
    ensures Grown(at, free, at[q := f], free - {f}, {q})
  {
    ValuesSet(at, q, f);
    AddedOne(at, q, f);
    assert forall g :: g in at.Values ==> g !in free;
    SpentOne(at.Values, at[q := f], free, f);
    hide Added, Extends, Spent;
  }

  lemma {:induction false} SpentOne(values: set<nat>, at: Tables, free: set<nat>, f: nat)
    requires at.Values == values + {f} && f in free && forall g :: g in values ==> g !in free
    ensures Spent(free, at, free - {f}) && at.Values <= values + free && |free - {f}| + 1 == |free|
  {
  }

  lemma {:induction false} ValuesMonotone(at: Tables, at': Tables)
    requires at.Keys <= at'.Keys && forall p :: p in at ==> at'[p] == at[p]
    ensures at.Values <= at'.Values
  {
    forall f | f in at.Values
      ensures f in at'.Values
    {
      var p :| p in at && at[p] == f;
      assert p in at' && at'[p] == f;
    }
  }

  lemma {:induction false} AddedTrans(at0: Tables, at1: Tables, at2: Tables)
    requires at0.Keys <= at1.Keys <= at2.Keys
    ensures |Added(at0, at2)| == |Added(at0, at1)| + |Added(at1, at2)|
    ensures Added(at0, at2) == Added(at0, at1) + Added(at1, at2)
  {
    assert Added(at0, at2) == Added(at0, at1) + Added(at1, at2);
    assert Added(at0, at1) !! Added(at1, at2);
  }

  lemma {:induction false} ExtendsTrans(at0: Tables, at1: Tables, at2: Tables, q: Pos, wanted: set<Pos>)
    requires Extends(at0, at1, wanted) && Extends(at1, at2, {q}) && q in wanted
    ensures Extends(at0, at2, wanted) && at1.Keys <= at2.Keys && at1.Values <= at2.Values
    ensures |Added(at0, at2)| == |Added(at0, at1)| + |Added(at1, at2)|
  {
    ValuesMonotone(at1, at2);
    AddedTrans(at0, at1, at2);
    hide Added;
  }

  lemma {:induction false} SpentTrans(free0: set<nat>, at1: Tables, free1: set<nat>, at2: Tables, free2: set<nat>)
    requires Spent(free0, at1, free1) && Spent(free1, at2, free2) && at1.Values <= at2.Values
    ensures Spent(free0, at2, free2) && free1 <= free0
  {
  }

  lemma {:induction false} GrownTrans(at0: Tables, free0: set<nat>, at1: Tables, free1: set<nat>, at2: Tables,
                                      free2: set<nat>, q: Pos, wanted: set<Pos>)
    requires Grown(at0, free0, at1, free1, wanted) && Grown(at1, free1, at2, free2, {q}) && q in wanted
    ensures Grown(at0, free0, at2, free2, wanted) && at1.Keys <= at2.Keys && free1 <= free0
  {
    hide Added, Extends, Spent;
    ExtendsTrans(at0, at1, at2, q, wanted);
    SpentTrans(free0, at1, free1, at2, free2);
  }

  /** With a wanted table missing and nothing free, there were too few frames. */
  lemma {:induction false} TooFew(at0: Tables, free0: set<nat>, at: Tables, free: set<nat>, wanted: set<Pos>, q: Pos)
    requires Grown(at0, free0, at, free, wanted) && q in wanted && q !in at && free == {}
    ensures |free0| < |wanted - at0.Keys|
  {
    hide Spent;
    Smaller(Added(at0, at), wanted - at0.Keys);
    assert q in wanted - at0.Keys && q !in Added(at0, at);
  }

  /** With all wanted tables there, there were enough frames. */
  lemma {:induction false} Enough(at0: Tables, free0: set<nat>, at: Tables, free: set<nat>, wanted: set<Pos>)
    requires Grown(at0, free0, at, free, wanted) && wanted <= at.Keys
    ensures |free0| >= |wanted - at0.Keys|
  {
    hide Spent;
    assert Added(at0, at) == wanted - at0.Keys;
  }

  lemma {:induction false} PathTables(root: nat, va: nat)
    ensures |Walk(root, va, 1).path| == 1 && |Walk(root, va, 2).path| == 2 && |Walk(root, va, 3).path| == 3
    ensures |Walk(root, va, 4).path| == 4
    ensures Index(va, 0) < PTRS_PER_PTE && Index(va, 1) < PTRS_PER_PTE && Index(va, 2) < PTRS_PER_PTE
    ensures Index(va, 3) < PTRS_PER_PTE
    ensures Walk(root, va, 1) == Child(Pos(root, []), Index(va, 0))
    ensures Walk(root, va, 2) == Child(Walk(root, va, 1), Index(va, 1))
    ensures Walk(root, va, 3) == Child(Walk(root, va, 2), Index(va, 2))
    ensures Walk(root, va, 4) == Child(Walk(root, va, 3), Index(va, 3))
    ensures Walk(root, va, 1) != Walk(root, va, 2) && Walk(root, va, 1) != Walk(root, va, 3)
    ensures Walk(root, va, 2) != Walk(root, va, 3)
    ensures Walk(root, va, 1) in Path(root, va) && Walk(root, va, 2) in Path(root, va)
    ensures Walk(root, va, 3) in Path(root, va)
    ensures forall p ::
              p in Path(root, va) ==> p == Walk(root, va, 1) || p == Walk(root, va, 2) || p == Walk(root, va, 3)
  {
    assert Walk(root, va, 0) == Pos(root, []);
  }

  ghost predicate Frames(mem: Memory, free: set<nat>, refs: map<nat, nat>, at: Tables) {
    && (forall f :: f in refs ==> f > 0 && PhysBits(f) == f && f in mem)
    && (forall f :: f in refs && f !in free && f !in at.Values ==> mem[f].Data? && |mem[f].bytes| == PAGE_SIZE)
    && (forall p :: p in at ==> at[p] > 0 && PhysBits(at[p]) == at[p])
  }

  /** A frame leaves the free set holding some bytes. */
  lemma {:induction false} TakePage(mem: Memory, free: set<nat>, refs: map<nat, nat>, at: Tables, flat: Leaves,
                                    held: multiset<nat>, f: nat, bytes: seq<nat>)
    requires Tree(mem, at, flat, {}) && Accounts(free, refs, at, flat, held) && Frames(mem, free, refs, at)
    requires f in free && |bytes| == PAGE_SIZE
    ensures Tree(mem[f := Data(bytes)], at, flat, {}) && Frames(mem[f := Data(bytes)], free - {f}, refs[f := 1], at)
    ensures f > 0 && PhysBits(f) == f
  {
    assert f !in at.Values && f in refs;
    DataPage(mem, at, flat, f, bytes);
    hide Tree, Accounts, PhysBits;
  }

  /** What an entry of an upper table says. */
  lemma {:induction false} EntryAt(mem: Memory, at: Tables, flat: Leaves, p: Pos, i: nat)
    requires Tree(mem, at, flat, {}) && p in at && i < PTRS_PER_PTE
    ensures at[p] in mem && mem[at[p]].Table? && |mem[at[p]].entries| == PTRS_PER_PTE
    ensures |p.path| <= 3
    ensures |p.path| <= 2 ==>
              mem[at[p]].entries[i] == if Child(p, i) in at then Present(at[Child(p, i)], TABLE_PROT) else Absent
    ensures |p.path| == 3 ==> mem[at[p]].entries[i] == if Child(p, i) in flat then flat[Child(p, i)] else Absent
  {
    assert Entries(mem, at, flat, p);
    ChildDef(p, i);
  }

  lemma {:induction false} TablePhys(mem: Memory, free: set<nat>, refs: map<nat, nat>, at: Tables, p: Pos)
    requires Frames(mem, free, refs, at) && p in at
    ensures PhysBits(at[p]) == at[p] && at[p] > 0
  {
  }

  /** Pages become tables; the other frames keep their data. */
  lemma {:induction false} TableFrames(mem: Memory, mem': Memory, free: set<nat>, refs: map<nat, nat>, at: Tables,
                                       q: Pos, f: nat)
    requires Frames(mem, free, refs, at) && q !in at && f in refs
    requires at[q := f].Values == at.Values + {f}
    requires forall g :: g in mem && g !in at.Values && g != f ==> g in mem' && mem'[g] == mem[g]
    requires mem.Keys <= mem'.Keys
    ensures Frames(mem', free, refs, at[q := f])
  {
    hide PhysBits;
    forall g | g in refs && g !in free && g !in at[q := f].Values
      ensures mem'[g].Data? && |mem'[g].bytes| == PAGE_SIZE
    {
      assert g !in at.Values && mem'[g] == mem[g];
    }
  }

  lemma {:induction false} LinkFrames(mem: Memory, free: set<nat>, refs: map<nat, nat>, at: Tables, flat: Leaves,
                                      p: Pos, i: nat, f: nat)
    requires Frames(mem, free, refs, at) && Tree(mem, at, flat, {}) && p in at && i < PTRS_PER_PTE && Child(p, i) !in at
    requires f in refs && f !in at.Values
    ensures at[p] in mem && mem[at[p]].Table? && |mem[at[p]].entries| == PTRS_PER_PTE && at[p] != f
    ensures Frames(SetEntry(mem[f := ZeroTable()], at[p], i, Present(f, TABLE_PROT)), free, refs, at[Child(p, i) := f])
    ensures DataKept(mem, SetEntry(mem[f := ZeroTable()], at[p], i, Present(f, TABLE_PROT)), {f})
  {
    EntryAt(mem, at, flat, p, i);
    ValuesSet(at, Child(p, i), f);
    SetEntryFrame(mem[f := ZeroTable()], at[p], i, Present(f, TABLE_PROT));
    hide Tree, Frames, Child, ZeroTable, SetEntry;
    assert at[p] in at.Values;
    TableFrames(mem, SetEntry(mem[f := ZeroTable()], at[p], i, Present(f, TABLE_PROT)), free, refs, at, Child(p, i), f);
  }

  lemma {:induction false} TableLinked(mem: Memory, free: set<nat>, refs: map<nat, nat>, at: Tables, flat: Leaves,
                                       held: multiset<nat>, p: Pos, i: nat, f: nat)
    requires Good(mem, free, refs, at, flat, held)
    requires p in at && |p.path| <= 2 && i < PTRS_PER_PTE && Child(p, i) !in at
    requires f in refs && f !in free && f !in at.Values && refs[f] == 1 && held[f] == 1
    ensures at[p] in mem && mem[at[p]].Table? && |mem[at[p]].entries| == PTRS_PER_PTE && f != at[p]
    ensures var mem', at' := SetEntry(mem[f := ZeroTable()], at[p], i, Present(f, TABLE_PROT)), at[Child(p, i) := f];
            Good(mem', free, refs, at', flat, held - multiset{f}) && DataKept(mem, mem', {f})
  {
    hide Tree, Accounts, Frames, Child, PhysBits, ZeroTable, SetEntry, DataKept;
    LinkAccounts(free, refs, at, flat, held, Child(p, i), f);
    LinkTable(mem, at, flat, p, i, f);
    LinkFrames(mem, free, refs, at, flat, p, i, f);
  }

  /** The state between operations: memory holds the trees, and every frame is accounted for. */
  ghost predicate Good(mem: Memory, free: set<nat>, refs: map<nat, nat>, at: Tables, flat: Leaves,
                       held: multiset<nat>) {
    && Tree(mem, at, flat, {})
    && Accounts(free, refs, at, flat, held)
    && Frames(mem, free, refs, at)
  }

  lemma {:induction false} PutBack(held: multiset<nat>, f: nat)
    ensures held + multiset{f} - multiset{f} == held
  {
  }

  lemma {:induction false} NothingLost(mem: Memory, free: set<nat>)
    ensures DataKept(mem, mem, free)
  {
  }

  lemma {:induction false} DataKeptTrans(mem: Memory, mem1: Memory, mem2: Memory, free: set<nat>, free1: set<nat>)
    requires DataKept(mem, mem1, free) && DataKept(mem1, mem2, free1) && free1 <= free
    ensures DataKept(mem, mem2, free)
  {
  }

  lemma {:induction false} DataKeptLater(mem: Memory, mem1: Memory, mem2: Memory, free: set<nat>, f: nat)
    requires DataKept(mem, mem1, free) && DataKept(mem1, mem2, {f}) && f in free
    ensures DataKept(mem, mem2, free)
  {
  }

  /** The references held after a leaf entry has been written: the one passed in is gone, the
      one of an entry overwritten belongs to nobody. */
  ghost function HeldAfterWrite(held: multiset<nat>, refs: map<nat, nat>, flat: Leaves, k: Pos, pte: Pte): multiset<nat>
    requires pte.Present? && (k in flat ==> flat[k].Present?)
  {
    if k in flat then Hold(held - multiset{pte.pa}, refs, flat[k].pa) else held - multiset{pte.pa}
  }

  lemma {:induction false} LeafWritten(mem: Memory, free: set<nat>, refs: map<nat, nat>, at: Tables, flat: Leaves,
                                       held: multiset<nat>, p: Pos, i: nat, pte: Pte)
    requires Good(mem, free, refs, at, flat, held)
    requires p in at && |p.path| == 3 && i < PTRS_PER_PTE && pte.Present? && PhysBits(pte.pa) == pte.pa
    requires pte.pa !in at.Values && (pte.pa in refs ==> held[pte.pa] > 0)
    ensures at[p] in mem && mem[at[p]].Table? && |mem[at[p]].entries| == PTRS_PER_PTE
    ensures (Child(p, i) in flat ==> flat[Child(p, i)].Present?)
    ensures Good(SetEntry(mem, at[p], i, pte), free, refs, at, flat[Child(p, i) := pte],
                 HeldAfterWrite(held, refs, flat, Child(p, i), pte))
    ensures DataKept(mem, SetEntry(mem, at[p], i, pte), {})
  {
    hide Accounts, Child, Shape, PhysBits;
    WriteLeaf(mem, at, flat, p, i, pte);
    LeafPresent(at, flat, Child(p, i));
    hide Tree;
    WriteAccounts(free, refs, at, flat, held, Child(p, i), pte);
    assert at[p] in at.Values;
  }

  lemma {:induction false} LeafPresent(at: Tables, flat: Leaves, k: Pos)
    requires Shape(at, flat)
    ensures k in flat ==> flat[k].Present? && |k.path| == 4 && PhysBits(flat[k].pa) == flat[k].pa
  {
  }

  lemma {:induction false} RootTable(mem: Memory, at: Tables, flat: Leaves, root: nat)
    requires Tree(mem, at, flat, {}) && Pos(root, []) in at
    ensures at[Pos(root, [])] == root
  {
  }

  lemma {:induction false} Disjoint(free: set<nat>, refs: map<nat, nat>, at: Tables, flat: Leaves, held: multiset<nat>)
    requires Accounts(free, refs, at, flat, held)
    ensures forall p :: p in at ==> at[p] !in free
  {
  }

  lemma {:induction false} LeafIn(mem: Memory, at: Tables, flat: Leaves, k: Pos)
    requires Tree(mem, at, flat, {})
    ensures k in flat ==> flat[k].Present? && |k.path| == 4 && PhysBits(flat[k].pa) == flat[k].pa
  {
  }

  lemma {:induction false} GrownWiden(at0: Tables, free0: set<nat>, at: Tables, free: set<nat>, q: Pos,
                                      wanted: set<Pos>)
    requires Grown(at0, free0, at, free, {q}) && q in wanted
    ensures Grown(at0, free0, at, free, wanted)
  {
  }

  lemma {:induction false} GrownValues(at0: Tables, free0: set<nat>, at: Tables, free: set<nat>, wanted: set<Pos>,
                                       f: nat)
    requires Grown(at0, free0, at, free, wanted)
    ensures f !in at0.Values && f !in free0 ==> f !in at.Values
  {
  }

  /** A position is in the tree only if the table above it is. */
  lemma {:induction false} ParentPresent(mem: Memory, at: Tables, flat: Leaves, p: Pos, i: nat)
    requires Tree(mem, at, flat, {})
    ensures Child(p, i) in at ==> p in at
  {
    ChildParent(p, i);
  }

  lemma {:induction false} LeafParent(mem: Memory, at: Tables, flat: Leaves, p: Pos, i: nat)
    requires Tree(mem, at, flat, {})
    ensures Child(p, i) in flat ==> p in at
  {
    ChildParent(p, i);
  }

  lemma {:induction false} LeafCleared(mem: Memory, free: set<nat>, refs: map<nat, nat>, at: Tables, flat: Leaves,
                                       held: multiset<nat>, p: Pos, i: nat)
    requires Good(mem, free, refs, at, flat, held)
    requires p in at && |p.path| == 3 && i < PTRS_PER_PTE && Child(p, i) in flat && flat[Child(p, i)].Present?
    ensures at[p] in mem && mem[at[p]].Table? && |mem[at[p]].entries| == PTRS_PER_PTE
    ensures var mem', k := SetEntry(mem, at[p], i, Absent), Child(p, i);
            Good(mem', free, refs, at, flat - {k}, Hold(held, refs, flat[k].pa)) && DataKept(mem, mem', {})
  {
    hide Accounts, Child, Shape, PhysBits, Hold;
    ClearLeaf(mem, at, flat, p, i);
    hide Tree;
    ClearAccounts(free, refs, at, flat, held, Child(p, i));
    assert at[p] in at.Values;
  }

  lemma {:induction false} FreedFrames(mem: Memory, mem': Memory, free: set<nat>, refs: map<nat, nat>, at: Tables,
                                       q: Pos)
    requires Frames(mem, free, refs, at) && q in at && (at - {q}).Values == at.Values - {at[q]}
    requires mem'.Keys == mem.Keys && forall g :: g in mem && g !in at.Values ==> mem'[g] == mem[g]
    ensures Frames(mem', free + {at[q]}, refs, at - {q})
  {
    hide PhysBits;
    forall g | g in refs && g !in free + {at[q]} && g !in (at - {q}).Values
      ensures mem'[g].Data? && |mem'[g].bytes| == PAGE_SIZE
    {
      assert g !in at.Values && mem'[g] == mem[g];
    }
  }

  lemma {:induction false} OnlyAt(mem: Memory, at: Tables, flat: Leaves, q: Pos)
    requires Tree(mem, at, flat, {}) && q in at
    ensures forall r :: r in at && r != q ==> at[r] != at[q]
    ensures (at - {q}).Values == at.Values - {at[q]}
  {
    ValuesDrop(at, q);
  }

  lemma {:induction false} TableManaged(free: set<nat>, refs: map<nat, nat>, at: Tables, flat: Leaves,
                                        held: multiset<nat>, p: Pos, i: nat)
    requires Accounts(free, refs, at, flat, held) && Child(p, i) in at
    ensures at[Child(p, i)] in refs && at[Child(p, i)] !in free
  {
    ChildDef(p, i);
    hide Count;
  }

  lemma {:induction false} TableUnlinked(mem: Memory, free: set<nat>, refs: map<nat, nat>, at: Tables, flat: Leaves,
                                         held: multiset<nat>, p: Pos, i: nat)
    requires Good(mem, free, refs, at, flat, held)
    requires p in at && i < PTRS_PER_PTE && Child(p, i) in at && Childless(at, flat, Child(p, i))
    ensures at[p] in mem && mem[at[p]].Table? && |mem[at[p]].entries| == PTRS_PER_PTE
    ensures var mem', q := SetEntry(mem, at[p], i, Absent), Child(p, i);
            Good(mem', free + {at[q]}, refs, at - {q}, flat, held) && DataKept(mem, mem', {})
  {
    hide Tree, Child, PhysBits, Childless, Accounts, Frames, SetEntry;
    UnlinkTable(mem, at, flat, p, i);
    OnlyAt(mem, at, flat, Child(p, i));
    TableManaged(free, refs, at, flat, held, p, i);
    UnlinkAccounts(free, refs, at, flat, held, Child(p, i));
    SetEntryFrame(mem, at[p], i, Absent);
    assert at[p] in at.Values;
    FreedFrames(mem, SetEntry(mem, at[p], i, Absent), free, refs, at, Child(p, i));
  }

  /** The tables left when the empty ones on the way to va have been freed from below. */
  ghost function Pruned(at: Tables, flat: Leaves, root: nat, va: nat): Tables {
    PrunedChain(at, flat, Walk(root, va, 1), Walk(root, va, 2), Walk(root, va, 3))
  }

  ghost function PrunedChain(at: Tables, flat: Leaves, w1: Pos, w2: Pos, w3: Pos): Tables {
    if !Childless(at, flat, w3) then at
    else if !Childless(at - {w3}, flat, w2) then at - {w3}
    else if !Childless(at - {w3} - {w2}, flat, w1) then at - {w3} - {w2}
    else at - {w3} - {w2} - {w1}
  }

  /** The frames of the tables that are gone. */
  ghost function Released(at: Tables, at': Tables): set<nat> {
    set p | p in at && p !in at' :: at[p]
  }

  /** Some tables have been freed, and what is missing of `wanted` could be had again. */
  ghost predicate PruneInv(at0: Tables, free0: set<nat>, at: Tables, free: set<nat>, wanted: set<Pos>) {
    && at.Keys <= at0.Keys && (forall p :: p in at ==> at[p] == at0[p])
    && free == free0 + Released(at0, at)
    && |wanted - at.Keys| <= |free|
  }

  lemma {:induction false} PruneStart(at: Tables, free: set<nat>, wanted: set<Pos>, w1: Pos, w2: Pos, w3: Pos)
    requires w1 in at && w2 in at && w3 in at && forall p :: p in wanted ==> p == w1 || p == w2 || p == w3
    ensures PruneInv(at, free, at, free, wanted)
  {
    assert Released(at, at) == {};
    assert wanted - at.Keys == {};
  }

  lemma {:induction false} PruneMore(at0: Tables, free0: set<nat>, at: Tables, free: set<nat>, wanted: set<Pos>, q: Pos)
    requires PruneInv(at0, free0, at, free, wanted) && q in at && at[q] !in free
    ensures PruneInv(at0, free0, at - {q}, free + {at[q]}, wanted)
  {
    var at' := at - {q};
    assert Released(at0, at') == Released(at0, at) + {at[q]} by {
      assert q in at0 && q !in at';
    }
    assert |free + {at[q]}| == |free| + 1;
    Smaller(wanted - at'.Keys, (wanted - at.Keys) + {q});
  }

  lemma {:induction false} PageGot(mem: Memory, free: set<nat>, refs: map<nat, nat>, at: Tables, flat: Leaves,
                                   held: multiset<nat>, f: nat)
    requires Good(mem, free, refs, at, flat, held) && f in refs && f !in free && f !in at.Values
    ensures Good(mem, free, refs[f := refs[f] + 1], at, flat, held + multiset{f})
    ensures refs[f := refs[f] + 1].Keys == refs.Keys
  {
    hide Tree, Accounts, PhysBits;
    GetAccounts(free, refs, at, flat, held, f);
  }

  lemma {:induction false} NotFree(mem: Memory, free: set<nat>, refs: map<nat, nat>, at: Tables, flat: Leaves,
                                   held: multiset<nat>, f: nat)
    requires Good(mem, free, refs, at, flat, held)
    ensures f !in refs ==> f !in free && f !in held
    ensures f in refs && held[f] > 0 ==>
              f !in free && f !in at.Values && f in mem && mem[f].Data? && |mem[f].bytes| == PAGE_SIZE
  {
    hide Tree, PhysBits, Count;
  }

  lemma {:induction false} FramesFreed(mem: Memory, free: set<nat>, refs: map<nat, nat>, refs': map<nat, nat>,
                                       at: Tables, free': set<nat>)
    requires Frames(mem, free, refs, at) && free <= free' && refs'.Keys == refs.Keys
    ensures Frames(mem, free', refs', at)
  {
    hide PhysBits;
  }

  lemma {:induction false} PageReturned(mem: Memory, free: set<nat>, refs: map<nat, nat>, at: Tables, flat: Leaves,
                                        held: multiset<nat>, f: nat)
    requires Good(mem, free, refs, at, flat, held) && f in refs && held[f] == 1 && Count(flat, f) == 0
    ensures Good(mem, free + {f}, refs, at, flat, held - multiset{f})
  {
    hide Tree, PhysBits, Count, Accounts, Frames;
    ReturnAccounts(free, refs, at, flat, held, f);
    FramesFreed(mem, free, refs, refs, at, free + {f});
  }

  lemma {:induction false} WalkPresent(at: Tables, flat: Leaves, root: nat, va: nat)
    requires Shape(at, flat) && Walk(root, va, 3) in at
    ensures Walk(root, va, 2) in at && Walk(root, va, 1) in at && Pos(root, []) in at
  {
    PathTables(root, va);
    hide Walk, Index;
    ChildParent(Walk(root, va, 2), Index(va, 2));
    ChildParent(Walk(root, va, 1), Index(va, 1));
    ChildParent(Pos(root, []), Index(va, 0));
  }

  lemma {:induction false} HasChild(at: Tables, flat: Leaves, p: Pos, i: nat)
    requires Child(p, i) in at
    ensures !Childless(at, flat, p)
  {
  }

  lemma {:induction false} StillChildless(at: Tables, at': Tables, flat: Leaves, q: Pos)
    requires Childless(at, flat, q) && at'.Keys <= at.Keys
    ensures Childless(at', flat, q)
  {
  }

  /** Only tables in `path` with nothing left below them are gone. */
  ghost predicate OnlyEmptyGone(at: Tables, at': Tables, flat: Leaves, path: set<Pos>) {
    && Shape(at', flat)
    && (forall q :: q in at' ==> q in at && at'[q] == at[q])
    && (forall q :: q in at && q !in at' ==> q in path && Childless(at', flat, q))
  }

  lemma {:induction false} NoneGone(at: Tables, flat: Leaves, path: set<Pos>)
    requires Shape(at, flat)
    ensures OnlyEmptyGone(at, at, flat, path)
  {
    hide Shape, Childless;
  }

  lemma {:induction false} StillGone(at: Tables, at': Tables, at2: Tables, flat: Leaves, path: set<Pos>, q: Pos)
    requires OnlyEmptyGone(at, at', flat, path) && Shape(at2, flat) && q in path && Childless(at', flat, q)
    requires forall r :: r in at2 ==> r in at' && at2[r] == at'[r]
    requires forall r :: r in at' && r !in at2 ==> r == q
    ensures OnlyEmptyGone(at, at2, flat, path)
  {
    hide Shape, Childless;
    forall r | r in at && r !in at2
      ensures r in path && Childless(at2, flat, r)
    {
      StillChildless(at', at2, flat, r);
    }
  }

  lemma {:induction false} OneMoreGone(at: Tables, at': Tables, flat: Leaves, path: set<Pos>, q: Pos)
    requires OnlyEmptyGone(at, at', flat, path) && q in at' && q in path && Childless(at', flat, q)
    ensures OnlyEmptyGone(at, at' - {q}, flat, path)
  {
    assert Shape(at', flat);
    hide Shape, Childless, OnlyEmptyGone;
    DropShape(at', flat, q);
    StillGone(at, at', at' - {q}, flat, path, q);
  }

  lemma {:induction false} ChainGone(at: Tables, flat: Leaves, path: set<Pos>, w1: Pos, w2: Pos, w3: Pos)
    requires Shape(at, flat) && w1 in at && w2 in at && w3 in at && w1 != w3 && w1 != w2 && w2 != w3
    requires w1 in path && w2 in path && w3 in path
    ensures OnlyEmptyGone(at, PrunedChain(at, flat, w1, w2, w3), flat, path)
  {
    hide Shape, Child, Childless, OnlyEmptyGone;
    NoneGone(at, flat, path);
    if Childless(at, flat, w3) {
      OneMoreGone(at, at, flat, path, w3);
      if Childless(at - {w3}, flat, w2) {
        OneMoreGone(at, at - {w3}, flat, path, w2);
        if Childless(at - {w3} - {w2}, flat, w1) {
          OneMoreGone(at, at - {w3} - {w2}, flat, path, w1);
        }
      }
    }
  }

  lemma {:induction false} ChainUsed(at: Tables, flat: Leaves, w1: Pos, w2: Pos, w3: Pos, i1: nat, i2: nat, q: Pos)
    requires w1 in at && w2 in at && w3 in at && w1 != w3 && w1 != w2 && w2 != w3
    requires w2 == Child(w1, i1) && w3 == Child(w2, i2) && (q == w1 || q == w2 || q == w3)
    requires q in PrunedChain(at, flat, w1, w2, w3)
    ensures !Childless(PrunedChain(at, flat, w1, w2, w3), flat, q)
  {
    hide Child, Childless;
    var at' := PrunedChain(at, flat, w1, w2, w3);
    if w3 in at' {
      HasChild(at, flat, w1, i1);
      HasChild(at, flat, w2, i2);
    } else if w2 in at' {
      HasChild(at', flat, w1, i1);
    }
  }

  /** Pruning frees only tables on the way to va with nothing left below them, and leaves none
      of those behind. */
  lemma {:induction false} PrunedExactly(at: Tables, flat: Leaves, root: nat, va: nat)
    requires Shape(at, flat) && Walk(root, va, 3) in at
    ensures var at' := Pruned(at, flat, root, va);
            && OnlyEmptyGone(at, at', flat, Path(root, va))
            && (forall q :: q in Path(root, va) && q in at' ==> !Childless(at', flat, q))
  {
    PathTables(root, va);
    WalkPresent(at, flat, root, va);
    hide Index, Path, Walk, Shape, Child, Childless, OnlyEmptyGone, PrunedChain;
    ChainGone(at, flat, Path(root, va), Walk(root, va, 1), Walk(root, va, 2), Walk(root, va, 3));
    forall q | q in Path(root, va) && q in Pruned(at, flat, root, va)
      ensures !Childless(Pruned(at, flat, root, va), flat, q)
    {
      ChainUsed(at, flat, Walk(root, va, 1), Walk(root, va, 2), Walk(root, va, 3), Index(va, 1), Index(va, 2), q);
    }
  }

  /** No address space loses its top table. */
  ghost predicate RootsKept(at: Tables, at': Tables) {
    forall r: nat :: Pos(r, []) in at ==> Pos(r, []) in at'
  }

  lemma {:induction false} GrownRoots(at0: Tables, free0: set<nat>, at: Tables, free: set<nat>, wanted: set<Pos>)
    requires Grown(at0, free0, at, free, wanted)
    ensures RootsKept(at0, at)
  {
  }

  lemma {:induction false} PrunedRoots(at: Tables, flat: Leaves, root: nat, va: nat)
    ensures RootsKept(at, Pruned(at, flat, root, va))
  {
    PathTables(root, va);
    hide Walk, Childless;
  }

  // ---------------------------------------------------------------------------
  // Page contents
  // ---------------------------------------------------------------------------

  function Zeros(): seq<nat> {
    seq(PAGE_SIZE, _ => 0)
  }

  /** The pages that are still mapped or held keep their contents. */
  ghost predicate UseKept(mem: Memory, mem': Memory, free: set<nat>, flat': Leaves, held': multiset<nat>) {
    forall f ::
      f in mem && mem[f].Data? && f !in free && Count(flat', f) + held'[f] > 0 ==> f in mem' && mem'[f] == mem[f]
  }

  lemma {:induction false} PageWritten(mem: Memory, free: set<nat>, refs: map<nat, nat>, at: Tables, flat: Leaves,
                                       held: multiset<nat>, f: nat, bytes: seq<nat>)
    requires Good(mem, free, refs, at, flat, held) && f in refs && f !in at.Values && |bytes| == PAGE_SIZE
    ensures Good(mem[f := Data(bytes)], free, refs, at, flat, held)
  {
    DataPage(mem, at, flat, f, bytes);
    hide Tree, Accounts, PhysBits;
  }

  /** What a page of memory holds. */
  ghost function CopyOf(mem: Memory, f: nat): Page {
    if f in mem then mem[f] else Data([])
  }

  lemma {:induction false} MappedPage(mem: Memory, free: set<nat>, refs: map<nat, nat>, at: Tables, flat: Leaves,
                                      held: multiset<nat>, k: Pos)
    requires Good(mem, free, refs, at, flat, held) && k in flat
    ensures flat[k].Present? && |k.path| == 4 && PhysBits(flat[k].pa) == flat[k].pa
    ensures flat[k].pa !in free && flat[k].pa !in at.Values && Count(flat, flat[k].pa) > 0
    ensures flat[k].pa in refs ==>
              flat[k].pa > 0 && flat[k].pa in mem && mem[flat[k].pa].Data? && |mem[flat[k].pa].bytes| == PAGE_SIZE
  {
    MappedFrame(free, refs, at, flat, held, k);
    hide PhysBits, Count;
  }

  lemma {:induction false} NothingUsedLost(mem: Memory, free: set<nat>, flat: Leaves, held: multiset<nat>)
    ensures UseKept(mem, mem, free, flat, held)
  {
  }

  lemma {:induction false} RootsSame(at: Tables)
    ensures RootsKept(at, at)
  {
  }

  lemma {:induction false} KeptIsUsed(mem: Memory, mem': Memory, free: set<nat>, flat: Leaves, held: multiset<nat>)
    requires DataKept(mem, mem', free)
    ensures UseKept(mem, mem', free, flat, held)
  {
    hide Count;
  }

  lemma {:induction false} SameBytes(mem: Memory, mem': Memory, free: set<nat>, refs: map<nat, nat>, refs': map<nat,
                                     nat>, pa: nat, device: seq<nat>)
    requires DataKept(mem, mem', free) && refs.Keys == refs'.Keys && pa !in free
    requires pa in refs ==> pa in mem && mem[pa].Data? && |mem[pa].bytes| == PAGE_SIZE
    ensures BytesAt(mem', refs', pa, device) == BytesAt(mem, refs, pa, device)
    ensures |device| == PAGE_SIZE ==> |BytesAt(mem, refs, pa, device)| == PAGE_SIZE
  {
  }

  lemma {:induction false} CopyKept(mem: Memory, mem1: Memory, mem2: Memory, free: set<nat>, page: Page, to: nat)
    requires DataKept(mem, mem1, free) && to in free && mem2 == mem1[to := page]
    ensures DataKept(mem, mem2, free)
  {
  }

  lemma {:induction false} KeptPage(mem: Memory, mem': Memory, free: set<nat>, f: nat)
    requires DataKept(mem, mem', free) && f in mem && mem[f].Data? && f !in free
    ensures f in mem' && mem'[f] == mem[f]
  {
  }

  lemma {:induction false} HoldAndDrop(held: multiset<nat>, refs: map<nat, nat>, f: nat)
    requires f !in refs ==> f !in held
    ensures (f in refs ==> Hold(held, refs, f)[f] > 0) && Hold(held, refs, f) - multiset{f} == held
  {
  }

  lemma {:induction false} RootsTrans(at: Tables, at1: Tables, at2: Tables)
    requires RootsKept(at, at1) && RootsKept(at1, at2)
    ensures RootsKept(at, at2)
  {
  }

  lemma {:induction false} RootStays(at: Tables, at': Tables, root: nat)
    requires RootsKept(at, at') && Pos(root, []) in at
    ensures Pos(root, []) in at'
  {
  }

  /** Unmapping, then mapping a new page the caller holds, replaces one leaf. */
  lemma {:induction false} Remapped(flat: Leaves, held: multiset<nat>, refs: map<nat, nat>, k: Pos, pte: Pte)
    requires pte.Present?
    ensures (flat - {k})[k := pte] == flat[k := pte]
    ensures HeldAfterWrite(held, refs, flat - {k}, k, pte) == held - multiset{pte.pa}
  {
  }

  /** A page in use after the copy was never among the frames mapping could take. */
  lemma {:induction false} UsedAfterCopy(mem: Memory, mem1: Memory, mem2: Memory, free1: set<nat>, refs: map<nat, nat>,
                                         at: Tables, flat: Leaves,
        held: multiset<nat>, k: Pos, pte: Pte, held': multiset<nat>)
    requires DataKept(mem, mem1, {}) && DataKept(mem1, mem2, free1) && Good(mem1, free1, refs, at, flat, held)
    requires k !in flat && pte.Present? && held' <= held
    ensures UseKept(mem, mem2, {pte.pa}, flat[k := pte], held')
  {
    forall f | f in mem && mem[f].Data? && f != pte.pa && Count(flat[k := pte], f) + held'[f] > 0
      ensures f in mem2 && mem2[f] == mem[f]
    {
      MappersSet(flat, k, pte, f);
      hide Count, Tree, Frames;
      assert f !in free1;
    }
  }

  lemma {:induction false} UsedTrans(mem: Memory, mem1: Memory, mem2: Memory, free: set<nat>, page: nat, flat: Leaves,
                                     held: multiset<nat>)
    requires DataKept(mem, mem1, free) && UseKept(mem1, mem2, {page}, flat, held) && page in free
    ensures UseKept(mem, mem2, free, flat, held)
  {
    hide Count;
  }

  lemma {:induction false} Replaced(mem: Memory, mem1: Memory, mem2: Memory, free1: set<nat>, refs: map<nat, nat>,
                                    at: Tables, flat: Leaves, held: multiset<nat>,
        k: Pos, pte: Pte, refs': map<nat, nat>, flat': Leaves, held': multiset<nat>)
    requires DataKept(mem, mem1, {}) && DataKept(mem1, mem2, free1) && Good(mem1, free1, refs, at, flat - {k}, held)
    requires pte.Present? && pte.pa in mem && mem[pte.pa].Data? && pte.pa !in free1
    requires flat' == (flat - {k})[k := pte] && held' == HeldAfterWrite(held, refs', flat - {k}, k, pte)
    ensures flat' == flat[k := pte] && held' == held - multiset{pte.pa}
    ensures pte.pa in mem2 && mem2[pte.pa] == mem[pte.pa]
    ensures UseKept(mem, mem2, {pte.pa}, flat', held')
  {
    KeptPage(mem, mem1, {}, pte.pa);
    KeptPage(mem1, mem2, free1, pte.pa);
    Remapped(flat, held, refs', k, pte);
    assert k !in flat - {k} && held - multiset{pte.pa} <= held;
    hide *;
    UsedAfterCopy(mem, mem1, mem2, free1, refs, at, flat - {k}, held, k, pte, held');
  }

  /** The references held after a page has been mapped on demand: a page that was present before
      loses its entry but not its reference. */
  ghost function HeldAfterFault(held: multiset<nat>, refs: map<nat, nat>, flat: Leaves, k: Pos): multiset<nat> {
    if k in flat && flat[k].Present? then Hold(held, refs, flat[k].pa) else held
  }

  /** A managed page is mapped at k, and the fault maps another over it. */
  ghost predicate LosesOwner(flat: Leaves, refs: map<nat, nat>, k: Pos, isWrite: bool) {
    k in flat && flat[k].Present? && flat[k].pa in refs && !(isWrite && Finds(flat, k))
  }

  lemma {:induction false} HeldLost(held: multiset<nat>, refs: map<nat, nat>, flat: Leaves, k: Pos, isWrite: bool)
    ensures isWrite && Finds(flat, k) ==> !LosesOwner(flat, refs, k, isWrite)
    ensures !(isWrite && Finds(flat, k)) ==> forall refs': map<nat, nat> :: refs'.Keys == refs.Keys ==>
              (HeldAfterFault(held, refs', flat, k) != held <==> LosesOwner(flat, refs, k, isWrite))
  {
    if k in flat && flat[k].Present? {
      assert (held + multiset{flat[k].pa})[flat[k].pa] == held[flat[k].pa] + 1;
    }
  }

  /** When the frames did not suffice they still do not, even with the page that was to be mapped. */
  lemma {:induction false} StillTooFew(at: Tables, free: set<nat>, at': Tables, free': set<nat>, root: nat, va: nat,
                                       pa: nat)
    requires Grown(at, free, at', free', Path(root, va)) && !EnoughFrames(free, at, root, va)
    ensures !EnoughForPage(free' + {pa}, at', root, va)
  {
    hide Path, Spent;
    TooFewLeft(at.Keys, at'.Keys, Path(root, va), free, free', pa);
  }

  lemma {:induction false} TooFewLeft(at: set<Pos>, at': set<Pos>, path: set<Pos>, free: set<nat>, free': set<nat>,
                                      pa: nat)
    requires at <= at' && at' - at <= path && |free'| + |at' - at| == |free| && |free| < |path - at|
    ensures |free' + {pa}| <= |path - at'|
  {
    assert path - at == (path - at') + (at' - at);
    assert (path - at') !! (at' - at);
    assert pa in free' ==> free' + {pa} == free';
  }

  lemma {:induction false} GoodLeaf(mem: Memory, free: set<nat>, refs: map<nat, nat>, at: Tables, flat: Leaves,
                                    held: multiset<nat>, p: Pos, i: nat)
    requires Good(mem, free, refs, at, flat, held)
    ensures Shape(at, flat) && (Child(p, i) in flat ==> p in at)
  {
    ChildParent(p, i);
  }

  /** What is used is not free; so what is kept twice is kept. */
  lemma {:induction false} KeptTwice(mem: Memory, mem1: Memory, mem2: Memory, free: set<nat>, free1: set<nat>,
                                     refs: map<nat, nat>, at: Tables, flat: Leaves, held: multiset<nat>)
    requires UseKept(mem, mem1, free, flat, held) && UseKept(mem1, mem2, free1, flat, held)
    requires Good(mem1, free1, refs, at, flat, held)
    ensures UseKept(mem, mem2, free, flat, held)
  {
    hide Tree, PhysBits;
    forall f | f in mem && mem[f].Data? && f !in free && Count(flat, f) + held[f] > 0
      ensures f in mem2 && mem2[f] == mem[f]
    {
      assert f in mem1 && mem1[f] == mem[f];
      assert f !in free1;
    }
  }

  /** On the way to a mapped page no table is missing. */
  lemma {:induction false} NoFreeFrame(mem: Memory, free: set<nat>, refs: map<nat, nat>, at: Tables, flat: Leaves,
                                       held: multiset<nat>, root: nat, va: nat)
    requires Good(mem, free, refs, at, flat, held)
    ensures Walk(root, va, 4) in flat ==> (EnoughForPage(free, at, root, va) <==> free != {})
  {
    hide Good, EnoughForPage, Path;
    GoodLeaf(mem, free, refs, at, flat, held, Walk(root, va, 3), Index(va, 3));
    if Walk(root, va, 4) in flat {
      WalkPresent(at, flat, root, va);
      PathThere(free, at, root, va);
    }
  }

  lemma {:induction false} PathThere(free: set<nat>, at: Tables, root: nat, va: nat)
    requires Walk(root, va, 1) in at && Walk(root, va, 2) in at && Walk(root, va, 3) in at
    ensures EnoughForPage(free, at, root, va) <==> free != {}
  {
    hide Walk;
    assert Path(root, va) - at.Keys == {};
  }

  lemma {:induction false} FaultHeld(held: multiset<nat>, refs: map<nat, nat>, flat: Leaves, k: Pos, pte: Pte)
    requires pte.Present? && (k in flat ==> flat[k].Present?)
    ensures HeldAfterWrite(held + multiset{pte.pa}, refs, flat, k, pte) == HeldAfterFault(held, refs, flat, k)
  {
    PutBack(held, pte.pa);
  }

  lemma {:induction false} ZeroKept(mem: Memory, mem1: Memory, mem2: Memory, free: set<nat>, to: nat)
    requires DataKept(mem, mem1, free) && to in free && mem2 == mem1[to := Data(Zeros())]
    ensures DataKept(mem, mem2, free)
  {
    hide Zeros;
  }

  lemma {:induction false} SmallerFree(mem: Memory, mem1: Memory, mem2: Memory, free: set<nat>, free1: set<nat>,
                                       page: nat, flat: Leaves, held: multiset<nat>)
    requires DataKept(mem, mem1, free) && DataKept(mem1, mem2, free1) && free1 == free - {page}
    ensures DataKept(mem, mem2, free) && UseKept(mem, mem2, free, flat, held)
  {
    DataKeptTrans(mem, mem1, mem2, free, free1);
    KeptIsUsed(mem, mem2, free, flat, held);
  }

  /** The walk finds a page at a leaf: an entry is there, and its address is not the zero that stands
      for none. */
  ghost predicate Finds(flat: Leaves, k: Pos) {
    k in flat && flat[k].Present? && flat[k].pa != 0
  }

  lemma {:induction false} FoundPage(mem: Memory, free: set<nat>, refs: map<nat, nat>, at: Tables, flat: Leaves,
                                     held: multiset<nat>, k: Pos)
    requires Good(mem, free, refs, at, flat, held)
    ensures k in flat ==>
              flat[k].Present? && (Finds(flat, k) <==> flat[k].pa != 0) && (flat[k].pa in refs ==> Finds(flat, k))
    ensures forall f :: f !in refs ==> f !in held
  {
    hide Tree, Frames, PhysBits, Count;
    if k in flat {
      MappedPage(mem, free, refs, at, flat, held, k);
    }
  }

  /** The bytes a copy loop reads from a page: those in memory, or, where no memory is managed, those
      a device returns. */
  function BytesAt(mem: Memory, refs: map<nat, nat>, pa: nat, device: seq<nat>): seq<nat> {
    if pa in refs && pa in mem && mem[pa].Data? then mem[pa].bytes else device
  }

  /** An address and its page have the same walk and the same root register. */
  lemma {:induction false} SameWalk(root: nat, va: nat)
    ensures var page := va / PAGE_SIZE * PAGE_SIZE;
            Walk(root, page, 4) == Walk(root, va, 4) && IsUserAddr(page) == IsUserAddr(va)
  {
    var page := va / PAGE_SIZE * PAGE_SIZE;
    WalkPath(root, page);
    WalkPath(root, va);
    hide Walk;
    assert page / PAGE_SIZE == va / PAGE_SIZE;
    Digits4(page);
    Digits4(va);
  }

  lemma {:induction false} SameEnough(free: set<nat>, at: Tables, root: nat, va: nat)
    ensures EnoughForPage(free, at, root, va / PAGE_SIZE * PAGE_SIZE) == EnoughForPage(free, at, root, va)
    ensures Path(root, va / PAGE_SIZE * PAGE_SIZE) == Path(root, va)
  {
    var page := va / PAGE_SIZE * PAGE_SIZE;
    assert page / PAGE_SIZE == va / PAGE_SIZE;
    Digits4(page);
    Digits4(va);
    hide Index;
    PathTables(root, page);
    PathTables(root, va);
    hide Walk;
    assert Path(root, page) == Path(root, va);
  }

  lemma {:induction false} Digits4(va: nat)
    ensures var n := va / PAGE_SIZE;
            && Index(va, 3) == n % 512 && Index(va, 2) == n / 512 % 512 && Index(va, 1) == n / 0x4_0000 % 512
            && Index(va, 0) == n / 0x800_0000 % 512 && IsUserAddr(va) == (n / 0x8_0000_0000 == 0)
  {
  }

  /** After unmapping, the page can be mapped again. */
  lemma {:induction false} EnoughAgain(at0: Tables, free0: set<nat>, at: Tables, free: set<nat>, root: nat, va: nat,
                                       more: set<nat>)
    requires PruneInv(at0, free0, at, free, Path(root, va))
    ensures EnoughFrames(free + more, at, root, va) && free + more == free0 + Released(at0, at) + more
  {
    hide Path, Walk;
    Smaller(free, free + more);
  }

  lemma {:induction false} ZeroTableKept(mem: Memory, mem1: Memory, free: set<nat>, to: nat)
    requires DataKept(mem, mem1, free) && to in free
    ensures DataKept(mem, mem1[to := ZeroTable()], free)
  {
    hide ZeroTable;
  }
}
