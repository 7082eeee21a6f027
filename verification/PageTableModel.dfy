/**
 The four-level page tables of all address spaces as one value: where each table sits, what
 the leaves map, and how many references each page frame has.
 */
module PageTableModel {
  import opened Common

  /** AP[1], AP[2] and the remaining attribute bits of an entry. */
  datatype Prot = Prot(el0: bool, readOnly: bool, attrs: nat)

  /** An entry is the zero word, or a valid one holding a physical address. */
  datatype Pte = Absent | Present(pa: nat, prot: Prot)

  datatype Page = Table(entries: seq<Pte>) | Data(bytes: seq<nat>)

  /** A place in the tree of the given root: a table (0 to 3 indices) or a leaf entry (4). */
  datatype Pos = Pos(root: nat, path: seq<nat>)

  const PTRS_PER_PTE: nat := 512

  /** ARM64_TABLE_PROT: valid, type table, every other bit zero. */
  const TABLE_PROT: Prot := Prot(false, false, 0)


  /** The bits of a physical address an entry can hold: pa & ARM64_PTE_ADDR_MASK. */
  function PhysBits(pa: nat): nat {
    pa % 0x1_0000_0000_0000 / PAGE_SIZE * PAGE_SIZE
  }

  lemma {:induction false} PhysBitsIdempotent(pa: nat)
    ensures PhysBits(PhysBits(pa)) == PhysBits(pa)
  {
    var q := pa % 0x1_0000_0000_0000 / PAGE_SIZE;
    assert q * PAGE_SIZE % 0x1_0000_0000_0000 == q * PAGE_SIZE;
    assert q * PAGE_SIZE / PAGE_SIZE == q;
  }

  /** They are the 48 low bits of the address without the last 12. */
  lemma {:induction false} PhysBitsOf(pa: nat)
    ensures PhysBits(pa) <= pa % 0x1_0000_0000_0000 < PhysBits(pa) + 0x1000 && PhysBits(pa) % 0x1000 == 0
  {
    var q := pa % 0x1_0000_0000_0000 / PAGE_SIZE;
    assert q * PAGE_SIZE % 0x1000 == 0;
  }

  type Memory = map<nat, Page>
  type Tables = map<Pos, nat>
  type Leaves = map<Pos, Pte>

  function Child(p: Pos, i: nat): Pos {
    Pos(p.root, p.path + [i])
  }

  function Parent(q: Pos): Pos
    requires q.path != []
  {
    Pos(q.root, q.path[..|q.path| - 1])
  }

  function Last(q: Pos): nat
    requires q.path != []
  {
    q.path[|q.path| - 1]
  }

  lemma {:induction false} ChildParent(p: Pos, i: nat)
    ensures Child(p, i).path != [] && Parent(Child(p, i)) == p && Last(Child(p, i)) == i
  {
    assert Child(p, i).path[..|p.path|] == p.path;
  }

  lemma {:induction false} ParentChild(q: Pos)
    requires q.path != []
    ensures Child(Parent(q), Last(q)) == q
  {
    assert q.path[..|q.path| - 1] + [Last(q)] == q.path;
  }

  /** A page of zero words. */
  function ZeroTable(): Page {
    Table(seq(PTRS_PER_PTE, _ => Absent))
  }

  /** Memory after writing one word of a table. */
  function SetEntry(mem: Memory, table: nat, i: nat, word: Pte): Memory
    requires table in mem && mem[table].Table? && i < |mem[table].entries|
  {
    mem[table := Table(mem[table].entries[i := word])]
  }

  lemma {:induction false} SetEntryFrame(mem: Memory, table: nat, i: nat, word: Pte)
    requires table in mem && mem[table].Table? && i < |mem[table].entries|
    ensures var mem' := SetEntry(mem, table, i, word);
            mem'.Keys == mem.Keys && forall g :: g in mem && g != table ==> mem'[g] == mem[g]
  {
  }

  /** The word that belongs into the entry at position q. */
  function Expected(at: Tables, flat: Leaves, q: Pos): Pte {
    if q in flat then flat[q] else if q in at then Present(at[q], TABLE_PROT) else Absent
  }

  /** Every position below a root hangs off a table. */
  ghost predicate Shape(at: Tables, flat: Leaves) {
    && (forall q :: q in at ==>
          && |q.path| <= 3 && (q.path == [] ==> at[q] == q.root)
          && (q.path != [] ==> Parent(q) in at && Last(q) < PTRS_PER_PTE))
    && (forall k :: k in flat ==>
          && |k.path| == 4 && flat[k].Present? && PhysBits(flat[k].pa) == flat[k].pa
          && Parent(k) in at && Last(k) < PTRS_PER_PTE)
    && (forall p, q :: p in at && q in at && at[p] == at[q] ==> p == q)
  }

  ghost predicate Entries(mem: Memory, at: Tables, flat: Leaves, p: Pos)
    requires p in at
  {
    && at[p] in mem && mem[at[p]].Table? && |mem[at[p]].entries| == PTRS_PER_PTE
    && forall i :: 0 <= i < PTRS_PER_PTE ==> mem[at[p]].entries[i] == Expected(at, flat, Child(p, i))
  }

  /** Memory holds the tables, except that those being torn down may be out of date. */
  ghost predicate Tree(mem: Memory, at: Tables, flat: Leaves, dying: set<Pos>) {
    && Shape(at, flat)
    && forall p :: p in at && p !in dying ==> Entries(mem, at, flat, p)
  }

  // ---------------------------------------------------------------------------
  // References
  // ---------------------------------------------------------------------------

  ghost function Mappers(flat: Leaves, f: nat): set<Pos> {
    set k | k in flat && flat[k].Present? && flat[k].pa == f
  }

  /** The number of leaf entries that point to a frame. */
  ghost function Count(flat: Leaves, f: nat): nat {
    |Mappers(flat, f)|
  }

  /** A reference more in somebody's hands, if the frame is a managed one. */
  ghost function Hold(held: multiset<nat>, refs: map<nat, nat>, f: nat): multiset<nat> {
    if f in refs then held + multiset{f} else held
  }

  /** The count of a frame in use is the number of leaf entries that point to it, over all
      trees, plus the references some code holds; a frame with none is free or a table. */
  ghost predicate Accounts(free: set<nat>, refs: map<nat, nat>, at: Tables, flat: Leaves, held: multiset<nat>) {
    && free <= refs.Keys
    && (forall p :: p in at ==> at[p] !in free && (p.path != [] ==> at[p] in refs))
    && (forall p :: p in at ==> Count(flat, at[p]) == 0 && held[at[p]] == 0)
    && (forall f :: f in held ==> f in refs)
    && (forall f :: f in refs && f !in at.Values ==>
          if f in free then Count(flat, f) == 0 && held[f] == 0
          else refs[f] == Count(flat, f) + held[f] && refs[f] > 0)
  }

  lemma {:induction false} MappersSet(flat: Leaves, k: Pos, pte: Pte, f: nat)
    requires pte.Present?
    ensures var before := if k in flat && flat[k].Present? && flat[k].pa == f then 1 else 0;
            var after := if pte.pa == f then 1 else 0;
            Count(flat[k := pte], f) == Count(flat, f) - before + after
  {
    var rest := Mappers(flat, f) - {k};
    assert Mappers(flat, f) == if k in Mappers(flat, f) then rest + {k} else rest;
    assert Mappers(flat[k := pte], f) == if pte.pa == f then rest + {k} else rest;
  }

  lemma {:induction false} MappersDrop(flat: Leaves, k: Pos, f: nat)
    requires k in flat && flat[k].Present?
    ensures Count(flat - {k}, f) == Count(flat, f) - if flat[k].pa == f then 1 else 0
  {
    assert Mappers(flat - {k}, f) == Mappers(flat, f) - {k};
    assert k in Mappers(flat, f) <==> flat[k].pa == f;
  }

  // ---------------------------------------------------------------------------
  // The steps operations are made of
  // ---------------------------------------------------------------------------

  /** Only the word at Child(p, i) changes, in memory as in what is expected there. */
  ghost predicate OneWord(mem: Memory, at: Tables, flat: Leaves, mem': Memory, at': Tables, flat': Leaves, p: Pos,
                          i: nat)
    requires p in at && i < PTRS_PER_PTE && Entries(mem, at, flat, p)
  {
    && at[p] in mem' && mem'[at[p]] == Table(mem[at[p]].entries[i := Expected(at', flat', Child(p, i))])
    && p in at' && at'[p] == at[p]
    && (forall q :: q != Child(p, i) ==> Expected(at', flat', q) == Expected(at, flat, q))
  }

  lemma {:induction false} ChangedTable(mem: Memory, at: Tables, flat: Leaves, mem': Memory, at': Tables, flat': Leaves,
                                        p: Pos, i: nat)
    requires p in at && i < PTRS_PER_PTE && Entries(mem, at, flat, p)
    requires OneWord(mem, at, flat, mem', at', flat', p, i)
    ensures Entries(mem', at', flat', p)
  {
    hide Expected, Child;
    forall j: nat | j < PTRS_PER_PTE
      ensures mem'[at'[p]].entries[j] == Expected(at', flat', Child(p, j))
    {
      ChildParent(p, j);
      ChildParent(p, i);
    }
  }

  lemma {:induction false} OtherTable(mem: Memory, at: Tables, flat: Leaves, mem': Memory, at': Tables, flat': Leaves,
                                      p: Pos, i: nat, r: Pos)
    requires p in at && i < PTRS_PER_PTE && Entries(mem, at, flat, p)
    requires OneWord(mem, at, flat, mem', at', flat', p, i)
    requires r in at && r != p && r in at' && at'[r] == at[r] && Entries(mem, at, flat, r)
    requires at[r] in mem' && mem'[at[r]] == mem[at[r]]
    ensures Entries(mem', at', flat', r)
  {
    hide Expected, Child;
    forall j: nat | j < PTRS_PER_PTE
      ensures mem'[at'[r]].entries[j] == Expected(at', flat', Child(r, j))
    {
      ChildParent(r, j);
      ChildParent(p, i);
    }
  }

  lemma {:induction false} OtherTables(mem: Memory, at: Tables, flat: Leaves, mem': Memory, at': Tables, flat': Leaves,
                                       p: Pos, i: nat)
    requires Tree(mem, at, flat, {}) && p in at && i < PTRS_PER_PTE && Entries(mem, at, flat, p)
    requires OneWord(mem, at, flat, mem', at', flat', p, i)
    requires forall r :: r in at && r in at' ==> at'[r] == at[r]
    requires forall f :: f in at.Values && f in mem && f != at[p] ==> f in mem' && mem'[f] == mem[f]
    ensures forall r :: r in at && r in at' && r != p ==> Entries(mem', at', flat', r)
  {
    hide Entries, OneWord, Expected, Child;
    forall r | r in at && r in at' && r != p
      ensures Entries(mem', at', flat', r)
    {
      KeptTable(mem, at, flat, r);
      SharedTables(at, flat, p, r);
      OtherTable(mem, at, flat, mem', at', flat', p, i, r);
    }
  }

  lemma {:induction false} LinkShape(at: Tables, flat: Leaves, p: Pos, i: nat, f: nat)
    requires Shape(at, flat) && p in at && |p.path| <= 2 && i < PTRS_PER_PTE && Child(p, i) !in at && f !in at.Values
    ensures Shape(at[Child(p, i) := f], flat)
    ensures forall j: nat :: Expected(at, flat, Child(Child(p, i), j)) == Absent
    ensures Child(p, i) !in flat
  {
    ChildParent(p, i);
    var q := Child(p, i);
    hide Child, Parent, Last;
    forall j: nat
      ensures Expected(at, flat, Child(q, j)) == Absent
    {
      ChildParent(q, j);
    }
    assert |q.path| == |p.path| + 1 by { assert q == Pos(p.root, p.path + [i]) by { ChildDef(p, i); } }
  }

  lemma {:induction false} ChildDef(p: Pos, i: nat)
    ensures Child(p, i) == Pos(p.root, p.path + [i]) && |Child(p, i).path| == |p.path| + 1 && Child(p, i).root == p.root
  {
  }

  lemma {:induction false} LinkWord(mem: Memory, at: Tables, flat: Leaves, p: Pos, i: nat, f: nat)
    requires p in at && i < PTRS_PER_PTE && Entries(mem, at, flat, p) && Child(p, i) != p && Child(p, i) !in flat
    requires f !in at.Values
    ensures at[p] in mem && mem[at[p]].Table? && |mem[at[p]].entries| == PTRS_PER_PTE && f != at[p]
    ensures var mem' := SetEntry(mem[f := ZeroTable()], at[p], i, Present(f, TABLE_PROT));
            && OneWord(mem, at, flat, mem', at[Child(p, i) := f], flat, p, i)
            && f in mem' && mem'[f] == ZeroTable()
            && forall g :: g in at.Values && g in mem && g != at[p] ==> g in mem' && mem'[g] == mem[g]
  {
    hide Child, ZeroTable;
    assert at[p] in at.Values;
  }

  /** A table taken from the allocator, cleared, and linked into its parent. */
  lemma {:induction false} LinkTable(mem: Memory, at: Tables, flat: Leaves, p: Pos, i: nat, f: nat)
    requires Tree(mem, at, flat, {}) && p in at && |p.path| <= 2 && i < PTRS_PER_PTE
    requires Child(p, i) !in at && f !in at.Values
    ensures at[p] in mem && mem[at[p]].Table? && |mem[at[p]].entries| == PTRS_PER_PTE && f != at[p]
    ensures Tree(SetEntry(mem[f := ZeroTable()], at[p], i, Present(f, TABLE_PROT)), at[Child(p, i) := f], flat, {})
  {
    hide Child, Shape, ZeroTable, SetEntry, Entries, OneWord, Expected;
    LinkShape(at, flat, p, i, f);
    ChildDef(p, i);
    LinkWord(mem, at, flat, p, i, f);
    var q := Child(p, i);
    var mem' := SetEntry(mem[f := ZeroTable()], at[p], i, Present(f, TABLE_PROT));
    var at' := at[q := f];
    ChangedTable(mem, at, flat, mem', at', flat, p, i);
    OtherTables(mem, at, flat, mem', at', flat, p, i);
    FreshTable(mem', at, flat, q, f);
  }

  lemma {:induction false} FreshTable(mem: Memory, at: Tables, flat: Leaves, q: Pos, f: nat)
    requires f in mem && mem[f] == ZeroTable()
    requires forall j: nat :: Expected(at, flat, Child(q, j)) == Absent
    ensures Entries(mem, at[q := f], flat, q)
  {
    forall j: nat | j < PTRS_PER_PTE
      ensures Child(q, j) != q && Expected(at[q := f], flat, Child(q, j)) == Absent
    {
      ChildDef(q, j);
      assert Expected(at, flat, Child(q, j)) == Absent;
    }
  }

  lemma {:induction false} KeptTable(mem: Memory, at: Tables, flat: Leaves, r: Pos)
    requires r in at && Entries(mem, at, flat, r)
    ensures at[r] in mem
  {
  }

  lemma {:induction false} SharedTables(at: Tables, flat: Leaves, p: Pos, r: Pos)
    requires Shape(at, flat) && p in at && r in at && p != r
    ensures at[p] != at[r]
  {
  }

  /** Writing one entry keeps the tree, if the word written is the one now expected there. */
  lemma {:induction false} OneWordTree(mem: Memory, at: Tables, flat: Leaves, word: Pte, at': Tables, flat': Leaves,
                                       p: Pos, i: nat)
    requires Tree(mem, at, flat, {}) && Shape(at', flat') && p in at && i < PTRS_PER_PTE
    requires forall r :: r in at' ==> r in at && at'[r] == at[r]
    requires p in at' && word == Expected(at', flat', Child(p, i))
    requires forall q :: q != Child(p, i) ==> Expected(at', flat', q) == Expected(at, flat, q)
    ensures at[p] in mem && mem[at[p]].Table? && |mem[at[p]].entries| == PTRS_PER_PTE
    ensures Tree(SetEntry(mem, at[p], i, word), at', flat', {})
  {
    assert Entries(mem, at, flat, p);
    assert mem[at[p]].Table? && |mem[at[p]].entries| == PTRS_PER_PTE;
    var mem' := SetEntry(mem, at[p], i, word);
    hide Child, Parent, Shape, Expected;
    assert OneWord(mem, at, flat, mem', at', flat', p, i);
    ChangedTable(mem, at, flat, mem', at', flat', p, i);
    OtherTables(mem, at, flat, mem', at', flat', p, i);
    hide Entries, OneWord;
  }

  /** Writing a page that is not a table leaves the tree alone. */
  lemma {:induction false} DataPage(mem: Memory, at: Tables, flat: Leaves, f: nat, bytes: seq<nat>)
    requires Tree(mem, at, flat, {}) && f !in at.Values
    ensures Tree(mem[f := Data(bytes)], at, flat, {})
  {
    var mem' := mem[f := Data(bytes)];
    hide Expected, Child, Shape;
    forall p | p in at
      ensures Entries(mem', at, flat, p)
    {
      assert Entries(mem, at, flat, p);
    }
  }

  /** A leaf entry is written. */
  lemma {:induction false} WriteLeaf(mem: Memory, at: Tables, flat: Leaves, p: Pos, i: nat, pte: Pte)
    requires Tree(mem, at, flat, {}) && p in at && |p.path| == 3 && i < PTRS_PER_PTE && pte.Present?
    requires PhysBits(pte.pa) == pte.pa
    ensures at[p] in mem && mem[at[p]].Table? && |mem[at[p]].entries| == PTRS_PER_PTE
    ensures Tree(SetEntry(mem, at[p], i, pte), at, flat[Child(p, i) := pte], {})
  {
    hide Entries, Child, PhysBits;
    ChildParent(p, i);
    ChildDef(p, i);
    OneWordTree(mem, at, flat, pte, at, flat[Child(p, i) := pte], p, i);
  }

  lemma {:induction false} LeafGone(at: Tables, flat: Leaves, k: Pos)
    requires Shape(at, flat) && |k.path| == 4
    ensures Shape(at, flat - {k}) && k !in at
  {
    hide PhysBits;
  }

  lemma {:induction false} NothingExpected(at: Tables, flat: Leaves, k: Pos)
    requires k !in at
    ensures Expected(at, flat - {k}, k) == Absent
    ensures forall q :: q != k ==> Expected(at, flat - {k}, q) == Expected(at, flat, q)
  {
  }

  /** A leaf entry is cleared. */
  lemma {:induction false} ClearLeaf(mem: Memory, at: Tables, flat: Leaves, p: Pos, i: nat)
    requires Tree(mem, at, flat, {}) && p in at && |p.path| == 3 && i < PTRS_PER_PTE
    ensures at[p] in mem && mem[at[p]].Table? && |mem[at[p]].entries| == PTRS_PER_PTE
    ensures Tree(SetEntry(mem, at[p], i, Absent), at, flat - {Child(p, i)}, {})
  {
    assert Shape(at, flat);
    hide Entries, Child, PhysBits, Shape, Expected;
    ChildDef(p, i);
    LeafGone(at, flat, Child(p, i));
    NothingExpected(at, flat, Child(p, i));
    OneWordTree(mem, at, flat, Absent, at, flat - {Child(p, i)}, p, i);
  }

  ghost predicate Childless(at: Tables, flat: Leaves, p: Pos) {
    forall i: nat :: Child(p, i) !in at && Child(p, i) !in flat
  }

  /** A table is empty exactly when nothing hangs off it. */
  lemma {:induction false} EmptyTable(mem: Memory, at: Tables, flat: Leaves, p: Pos)
    requires Tree(mem, at, flat, {}) && p in at
    ensures at[p] in mem && mem[at[p]].Table? && |mem[at[p]].entries| == PTRS_PER_PTE
    ensures (forall i :: 0 <= i < PTRS_PER_PTE ==> mem[at[p]].entries[i] == Absent) <==> Childless(at, flat, p)
  {
    assert Entries(mem, at, flat, p);
    forall i: nat
      ensures i >= PTRS_PER_PTE ==> Child(p, i) !in at && Child(p, i) !in flat
      ensures i < PTRS_PER_PTE ==> (mem[at[p]].entries[i] == Absent <==> Child(p, i) !in at && Child(p, i) !in flat)
    {
      ChildParent(p, i);
    }
  }

  /** An empty table is unlinked from its parent. */
  lemma {:induction false} UnlinkTable(mem: Memory, at: Tables, flat: Leaves, p: Pos, i: nat)
    requires Tree(mem, at, flat, {}) && p in at && i < PTRS_PER_PTE && Child(p, i) in at
    requires Childless(at, flat, Child(p, i))
    ensures at[p] in mem && mem[at[p]].Table? && |mem[at[p]].entries| == PTRS_PER_PTE && at[p] != at[Child(p, i)]
    ensures Tree(SetEntry(mem, at[p], i, Absent), at - {Child(p, i)}, flat, {})
  {
    ChildDef(p, i);
    var q := Child(p, i);
    assert p != q;
    DropShape(at, flat, q);
    SharedTables(at, flat, p, q);
    assert q !in flat;
    hide Entries, Child, Shape;
    OneWordTree(mem, at, flat, Absent, at - {q}, flat, p, i);
  }

  /** A table nothing hangs off can leave the tree. */
  lemma {:induction false} DropShape(at: Tables, flat: Leaves, q: Pos)
    requires Shape(at, flat) && q in at && Childless(at, flat, q)
    ensures Shape(at - {q}, flat)
  {
    forall r | (r in at || r in flat) && r.path != []
      ensures Parent(r) != q
    {
      ParentChild(r);
    }
  }

  // ---------------------------------------------------------------------------
  // What the steps do to the accounts
  // ---------------------------------------------------------------------------

  lemma {:induction false} TakeFrame(free: set<nat>, refs: map<nat, nat>, at: Tables, flat: Leaves, held: multiset<nat>,
                                     f: nat)
    requires Accounts(free, refs, at, flat, held) && f in free
    ensures Accounts(free - {f}, refs[f := 1], at, flat, held + multiset{f})
    ensures f !in at.Values && held[f] == 0 && f in refs && Count(flat, f) == 0
  {
    hide Count;
  }

  lemma {:induction false} ValuesSet(at: Tables, q: Pos, f: nat)
    requires q !in at
    ensures at[q := f].Values == at.Values + {f}
  {
    var at' := at[q := f];
    assert at'[q] == f && forall p :: p in at ==> p in at' && at'[p] == at[p];
  }

  lemma {:induction false} ValuesDrop(at: Tables, q: Pos)
    requires q in at && forall p :: p in at && p != q ==> at[p] != at[q]
    ensures (at - {q}).Values == at.Values - {at[q]}
  {
    var at' := at - {q};
    assert forall p :: p in at && p != q ==> p in at' && at'[p] == at[p];
  }

  lemma {:induction false} LinkAccounts(free: set<nat>, refs: map<nat, nat>, at: Tables, flat: Leaves,
                                        held: multiset<nat>, q: Pos, f: nat)
    requires Accounts(free, refs, at, flat, held) && q !in at && f in refs && f !in free && f !in at.Values
    requires refs[f] == 1 && held[f] == 1
    ensures Accounts(free, refs, at[q := f], flat, held - multiset{f})
  {
    ValuesSet(at, q, f);
    hide Count;
  }

  lemma {:induction false} MappedFrame(free: set<nat>, refs: map<nat, nat>, at: Tables, flat: Leaves,
                                       held: multiset<nat>, k: Pos)
    requires Accounts(free, refs, at, flat, held) && k in flat && flat[k].Present?
    ensures flat[k].pa !in at.Values && flat[k].pa !in free && Count(flat, flat[k].pa) > 0
    ensures flat[k].pa in refs ==> refs[flat[k].pa] > 0
  {
    assert k in Mappers(flat, flat[k].pa);
    hide Mappers;
  }

  lemma {:induction false} WriteAccounts(free: set<nat>, refs: map<nat, nat>, at: Tables, flat: Leaves,
                                         held: multiset<nat>, k: Pos, pte: Pte)
    requires Accounts(free, refs, at, flat, held) && pte.Present? && pte.pa !in at.Values
    requires k in flat ==> flat[k].Present?
    requires pte.pa in refs ==> held[pte.pa] > 0
    ensures var held1 := held - multiset{pte.pa};
            Accounts(free, refs, at, flat[k := pte], if k in flat then Hold(held1, refs, flat[k].pa) else held1)
  {
    forall f: nat
      ensures var gone := if k in flat && flat[k].pa == f then 1 else 0;
              Count(flat[k := pte], f) == Count(flat, f) - gone + (if pte.pa == f then 1 else 0)
    {
      MappersSet(flat, k, pte, f);
    }
    if k in flat {
      MappedFrame(free, refs, at, flat, held, k);
    }
    hide Count;
  }

  lemma {:induction false} ClearAccounts(free: set<nat>, refs: map<nat, nat>, at: Tables, flat: Leaves,
                                         held: multiset<nat>, k: Pos)
    requires Accounts(free, refs, at, flat, held) && k in flat && flat[k].Present?
    ensures Accounts(free, refs, at, flat - {k}, Hold(held, refs, flat[k].pa))
  {
    forall f: nat
      ensures Count(flat - {k}, f) == Count(flat, f) - if flat[k].pa == f then 1 else 0
    {
      MappersDrop(flat, k, f);
    }
    MappedFrame(free, refs, at, flat, held, k);
    hide Count;
  }

  lemma {:induction false} UnlinkAccounts(free: set<nat>, refs: map<nat, nat>, at: Tables, flat: Leaves,
                                          held: multiset<nat>, q: Pos)
    requires Accounts(free, refs, at, flat, held) && q in at && at[q] in refs
    requires forall p :: p in at && p != q ==> at[p] != at[q]
    ensures Accounts(free + {at[q]}, refs, at - {q}, flat, held)
  {
    ValuesDrop(at, q);
    hide Count;
  }

  lemma {:induction false} GetAccounts(free: set<nat>, refs: map<nat, nat>, at: Tables, flat: Leaves,
                                       held: multiset<nat>, f: nat)
    requires Accounts(free, refs, at, flat, held) && f in refs && f !in free && f !in at.Values
    ensures Accounts(free, refs[f := refs[f] + 1], at, flat, held + multiset{f})
  {
    hide Count;
  }

  lemma {:induction false} PutAccounts(free: set<nat>, refs: map<nat, nat>, at: Tables, flat: Leaves,
                                       held: multiset<nat>, f: nat)
    requires Accounts(free, refs, at, flat, held) && f in refs && held[f] > 0
    ensures f !in free && refs[f] > 0 && refs[f] == Count(flat, f) + held[f]
    ensures Accounts(if refs[f] == 1 then free + {f} else free, refs[f := refs[f] - 1], at, flat, held - multiset{f})
  {
    assert f !in at.Values;
    hide Count;
  }

  lemma {:induction false} ReturnAccounts(free: set<nat>, refs: map<nat, nat>, at: Tables, flat: Leaves,
                                          held: multiset<nat>, f: nat)
    requires Accounts(free, refs, at, flat, held) && f in refs && held[f] == 1 && Count(flat, f) == 0
    ensures Accounts(free + {f}, refs, at, flat, held - multiset{f})
  {
    assert f !in at.Values;
    hide Count;
  }
}
