/**
 Whole trees of tables: the positions below a table, what is left of the state when a tree is
 torn down piece by piece, and what a fork copy has copied so far.
 */
module PageTableTrees {
  import opened Common
  import opened PageTableModel
  import opened PageTableSteps

  /** x lies strictly below p. */
  predicate Under(p: Pos, x: Pos) {
    x.root == p.root && |x.path| > |p.path| && x.path[..|p.path|] == p.path
  }

  /** x lies below one of the first i entries of p. */
  predicate Below(p: Pos, i: nat, x: Pos) {
    Under(p, x) && x.path[|p.path|] < i
  }

  lemma {:induction false} UnderShort(p: Pos, x: Pos)
    requires Under(p, x) && |x.path| == |p.path| + 1
    ensures Child(p, x.path[|p.path|]) == x && Last(x) == x.path[|p.path|]
  {
    assert x.path == x.path[..|p.path|] + [x.path[|p.path|]];
  }

  lemma {:induction false} UnderLong(p: Pos, x: Pos)
    requires Under(p, x) && |x.path| > |p.path| + 1
    ensures Under(p, Parent(x)) && Parent(x).path[|p.path|] == x.path[|p.path|]
    ensures Under(Child(p, x.path[|p.path|]), x)
  {
    assert Parent(x).path[..|p.path|] == x.path[..|p.path|];
    assert x.path[..|p.path| + 1] == x.path[..|p.path|] + [x.path[|p.path|]];
  }

  /** Whatever lies below p hangs off an entry of p. */
  lemma {:induction false} OnTheWay(at: Tables, flat: Leaves, p: Pos, x: Pos)
    requires Shape(at, flat) && (x in at || x in flat) && Under(p, x)
    ensures x.path[|p.path|] < PTRS_PER_PTE
    ensures var c := Child(p, x.path[|p.path|]); c == x || (Under(c, x) && c in at)
    decreases |x.path|
  {
    if |x.path| == |p.path| + 1 {
      UnderShort(p, x);
    } else {
      UnderLong(p, x);
      assert Parent(x) in at;
      OnTheWay(at, flat, p, Parent(x));
    }
  }

  /** The positions below the first i + 1 entries: those below the first i, and the next child
      with everything below it. */
  lemma {:induction false} BelowNext(p: Pos, i: nat, x: Pos)
    ensures Below(p, i + 1, x) <==> Below(p, i, x) || x == Child(p, i) || Under(Child(p, i), x)
    ensures !Below(p, i, Child(p, i)) && !(Below(p, i, x) && (x == Child(p, i) || Under(Child(p, i), x)))
  {
    var c := Child(p, i);
    if Under(p, x) && x.path[|p.path|] == i {
      assert x.path[..|p.path| + 1] == p.path + [i];
      if |x.path| == |p.path| + 1 {
        assert x.path == x.path[..|p.path| + 1];
      }
    }
    if Under(c, x) {
      assert x.path[..|p.path|] == x.path[..|c.path|][..|p.path|];
      assert x.path[|p.path|] == x.path[..|c.path|][|p.path|];
    }
  }

  // ---------------------------------------------------------------------------
  // Teardown
  // ---------------------------------------------------------------------------

  /** What is left without everything below the first i entries of p. */
  ghost function Without<V>(m: map<Pos, V>, p: Pos, i: nat): map<Pos, V> {
    map x | x in m && !Below(p, i, x) :: m[x]
  }

  /** What is left without p and everything below it. */
  ghost function WithoutTree<V>(m: map<Pos, V>, p: Pos): map<Pos, V> {
    map x | x in m && x != p && !Under(p, x) :: m[x]
  }

  lemma {:induction false} WithoutStart<V>(m: map<Pos, V>, p: Pos)
    ensures Without(m, p, 0) == m
  {
  }

  lemma {:induction false} WithoutNext<V>(m: map<Pos, V>, p: Pos, i: nat)
    ensures WithoutTree(Without(m, p, i), Child(p, i)) == Without(m, p, i + 1)
  {
    forall x: Pos
      ensures Below(p, i + 1, x) <==> Below(p, i, x) || x == Child(p, i) || Under(Child(p, i), x)
    {
      BelowNext(p, i, x);
    }
    hide Below, Under, Child;
    assert forall x :: x in WithoutTree(Without(m, p, i), Child(p, i)) <==> x in Without(m, p, i + 1);
  }

  lemma {:induction false} NoneBelow<V>(m: map<Pos, V>, c: Pos)
    requires forall x :: x in m ==> x != c && !Under(c, x)
    ensures WithoutTree(m, c) == m
  {
    hide Under;
  }

  /** Only tables have anything below them. */
  lemma {:induction false} UpToTable(at: Tables, flat: Leaves, c: Pos, x: Pos)
    requires Shape(at, flat) && (x in at || x in flat) && Under(c, x)
    ensures c in at
    decreases |x.path|
  {
    if |x.path| == |c.path| + 1 {
      UnderShort(c, x);
      ChildParent(c, x.path[|c.path|]);
    } else {
      UnderLong(c, x);
      UpToTable(at, flat, c, Parent(x));
    }
  }

  lemma {:induction false} NoTable(at: Tables, flat: Leaves, c: Pos)
    requires Shape(at, flat) && c !in at
    ensures forall x :: x in at || x in flat ==> !Under(c, x)
  {
    forall x | x in at || x in flat
      ensures !Under(c, x)
    {
      if Under(c, x) {
        UpToTable(at, flat, c, x);
      }
    }
  }

  /** An entry with nothing in it stands for nothing. */
  lemma {:induction false} NothingThere(at: Tables, flat: Leaves, p: Pos, i: nat)
    requires Shape(at, flat) && Child(p, i) !in at && Child(p, i) !in flat
    ensures Without(at, p, i + 1) == Without(at, p, i) && Without(flat, p, i + 1) == Without(flat, p, i)
  {
    NoTable(at, flat, Child(p, i));
    hide Below, Under, Child, Shape;
    NoneBelow(Without(at, p, i), Child(p, i));
    NoneBelow(Without(flat, p, i), Child(p, i));
    WithoutNext(at, p, i);
    WithoutNext(flat, p, i);
  }

  lemma {:induction false} OneBelow(flat: Leaves, k: Pos)
    requires forall x :: x in flat ==> !Under(k, x)
    ensures WithoutTree(flat, k) == flat - {k}
  {
    hide Under;
  }

  lemma {:induction false} AllBelow<V>(m: map<Pos, V>, p: Pos)
    requires forall x :: x in m ==> (Below(p, PTRS_PER_PTE, x) <==> Under(p, x))
    ensures Without(m, p, PTRS_PER_PTE) - {p} == WithoutTree(m, p)
    ensures p !in m ==> Without(m, p, PTRS_PER_PTE) == WithoutTree(m, p)
    ensures forall x :: Under(p, x) ==> x !in Without(m, p, PTRS_PER_PTE)
  {
    hide Under, Below;
  }

  /** When all entries of p are done, nothing is left below it. */
  lemma {:induction false} AllDone(at: Tables, flat: Leaves, p: Pos)
    requires Shape(at, flat)
    ensures Without(at, p, PTRS_PER_PTE) - {p} == WithoutTree(at, p)
    ensures p !in flat ==> Without(flat, p, PTRS_PER_PTE) == WithoutTree(flat, p)
    ensures Childless(Without(at, p, PTRS_PER_PTE), Without(flat, p, PTRS_PER_PTE), p)
  {
    forall x | x in at || x in flat
      ensures Below(p, PTRS_PER_PTE, x) <==> Under(p, x)
    {
      if Under(p, x) {
        OnTheWay(at, flat, p, x);
      }
    }
    hide Shape, Below, Without, WithoutTree;
    AllBelow(at, p);
    AllBelow(flat, p);
    forall j: nat
      ensures Under(p, Child(p, j))
    {
      ChildDef(p, j);
    }
    hide Child;
  }

  /** The state while the tables in `dying` are being torn down. */
  ghost predicate Tearing(mem: Memory, free: set<nat>, refs: map<nat, nat>, at: Tables, flat: Leaves,
                          held: multiset<nat>, dying: set<Pos>) {
    && Tree(mem, at, flat, dying)
    && Accounts(free, refs, at, flat, held)
    && Frames(mem, free, refs, at)
  }

  /** An entry of a dying table may be forgotten. */
  lemma {:induction false} ForgetEntry(mem: Memory, at: Tables, flat: Leaves, at': Tables, flat': Leaves,
                                       dying: set<Pos>, q: Pos)
    requires Tree(mem, at, flat, dying) && Shape(at', flat') && (q.path != [] ==> Parent(q) in dying)
    requires forall x :: x in at' ==> x in at && at'[x] == at[x]
    requires forall x :: x != q ==> Expected(at', flat', x) == Expected(at, flat, x)
    ensures Tree(mem, at', flat', dying)
  {
    hide Expected, Shape, Child;
    forall p | p in at' && p !in dying
      ensures Entries(mem, at', flat', p)
    {
      assert Entries(mem, at, flat, p);
      forall i: nat | i < PTRS_PER_PTE
        ensures Expected(at', flat', Child(p, i)) == Expected(at, flat, Child(p, i))
      {
        ChildParent(p, i);
      }
    }
  }

  lemma {:induction false} DropLeafTree(mem: Memory, at: Tables, flat: Leaves, dying: set<Pos>, k: Pos)
    requires Tree(mem, at, flat, dying) && k in flat && Parent(k) in dying
    ensures Tree(mem, at, flat - {k}, dying)
  {
    hide Parent, Entries;
    assert Shape(at, flat - {k});
    hide Shape;
    ForgetEntry(mem, at, flat, at, flat - {k}, dying, k);
  }

  lemma {:induction false} LeafShape(at: Tables, flat: Leaves, k: Pos)
    requires Shape(at, flat) && k in flat
    ensures flat[k].Present? && |k.path| == 4 && k !in at
  {
  }

  /** A leaf of a dying table is dropped; its reference is in the hands of the code. */
  lemma {:induction false} DropLeafEntry(mem: Memory, free: set<nat>, refs: map<nat, nat>, at: Tables, flat: Leaves,
                                         held: multiset<nat>, dying: set<Pos>, k: Pos)
    requires Tearing(mem, free, refs, at, flat, held, dying) && k in flat && k.path != [] && Parent(k) in dying
    ensures flat[k].Present?
    ensures Tearing(mem, free, refs, at, flat - {k}, Hold(held, refs, flat[k].pa), dying)
  {
    LeafShape(at, flat, k);
    hide Shape, Parent, Frames, Accounts, Hold, Tree;
    ClearAccounts(free, refs, at, flat, held, k);
    DropLeafTree(mem, at, flat, dying, k);
  }

  lemma {:induction false} DropTableTree(mem: Memory, at: Tables, flat: Leaves, dying: set<Pos>, q: Pos)
    requires Tree(mem, at, flat, dying + {q}) && q in at && Childless(at, flat, q)
    requires (q.path != [] ==> Parent(q) in dying)
    ensures Tree(mem, at - {q}, flat, dying)
  {
    LeafOrTable(at, flat, q);
    DropShape(at, flat, q);
    hide Shape, Parent, Childless, Entries;
    ForgetEntry(mem, at, flat, at - {q}, flat, dying + {q}, q);
  }

  lemma {:induction false} OnlyThere(at: Tables, flat: Leaves, q: Pos)
    requires Shape(at, flat) && q in at
    ensures (at - {q}).Values == at.Values - {at[q]} && forall p :: p in at && p != q ==> at[p] != at[q]
  {
    ValuesDrop(at, q);
  }

  /** A dying table with nothing left below it is freed. */
  lemma {:induction false} DropTable(mem: Memory, free: set<nat>, refs: map<nat, nat>, at: Tables, flat: Leaves,
                                     held: multiset<nat>, dying: set<Pos>, q: Pos)
    requires Tearing(mem, free, refs, at, flat, held, dying + {q}) && q in at && at[q] in refs && Childless(at, flat, q)
    requires q.path != [] ==> Parent(q) in dying
    ensures Tearing(mem, free + {at[q]}, refs, at - {q}, flat, held, dying)
  {
    hide Frames, Accounts, Parent, Childless, Shape, Entries;
    OnlyThere(at, flat, q);
    DropTableTree(mem, at, flat, dying, q);
    hide Tree;
    FreedFrames(mem, mem, free, refs, at, q);
    UnlinkAccounts(free, refs, at, flat, held, q);
  }

  lemma {:induction false} PutWhileTearing(mem: Memory, free: set<nat>, refs: map<nat, nat>, at: Tables, flat: Leaves,
                                           held: multiset<nat>, dying: set<Pos>, f: nat)
    requires Tearing(mem, free, refs, at, flat, held, dying) && f in refs && held[f] > 0
    ensures f !in free && refs[f] > 0 && refs[f := refs[f] - 1].Keys == refs.Keys
    ensures Tearing(mem, if refs[f] == 1 then free + {f} else free, refs[f := refs[f] - 1], at, flat,
                    held - multiset{f}, dying)
    ensures refs[f] == Count(flat, f) + held[f]
  {
    hide Tree, PhysBits, Count, Accounts, Frames;
    PutAccounts(free, refs, at, flat, held, f);
    FramesFreed(mem, free, refs, refs[f := refs[f] - 1], at, if refs[f] == 1 then free + {f} else free);
  }

  lemma {:induction false} Unmanaged(mem: Memory, free: set<nat>, refs: map<nat, nat>, at: Tables, flat: Leaves,
                                     held: multiset<nat>, dying: set<Pos>, f: nat)
    requires Tearing(mem, free, refs, at, flat, held, dying)
    ensures f !in refs ==> f !in free && f !in held
  {
    hide Tree, Frames, Count;
  }

  /** Dropping a mapping and then its reference leaves the references held as they were. */
  lemma {:induction false} HoldOrNot(mem: Memory, free: set<nat>, refs: map<nat, nat>, at: Tables, flat: Leaves,
                                     held: multiset<nat>, dying: set<Pos>, f: nat)
    requires Tearing(mem, free, refs, at, flat, held, dying)
    ensures Hold(held, refs, f) - multiset{f} == held && (f in refs ==> Hold(held, refs, f)[f] > 0)
  {
    Unmanaged(mem, free, refs, at, flat, held, dying, f);
    hide Tearing;
  }

  lemma {:induction false} TearingStart(mem: Memory, free: set<nat>, refs: map<nat, nat>, at: Tables, flat: Leaves,
                                        held: multiset<nat>, dying: set<Pos>, p: Pos)
    requires Tearing(mem, free, refs, at, flat, held, dying) && p in at && p !in dying
    ensures Tearing(mem, free, refs, at, flat, held, dying + {p})
    ensures at == Without(at, p, 0) && flat == Without(flat, p, 0) && Shape(at, flat) && Entries(mem, at, flat, p)
    ensures p !in flat
  {
    WithoutStart(at, p);
    WithoutStart(flat, p);
    hide Frames, Accounts, Without, Entries;
  }

  /** What the next entry says, and what dropping it achieves. */
  lemma {:induction false} TearingNext(mem: Memory, at0: Tables, flat0: Leaves, at: Tables, flat: Leaves, p: Pos,
                                       i: nat)
    requires Shape(at0, flat0) && p in at0 && Entries(mem, at0, flat0, p) && i < PTRS_PER_PTE
    requires at == Without(at0, p, i) && flat == Without(flat0, p, i)
    ensures at0[p] in mem && mem[at0[p]].Table? && |mem[at0[p]].entries| == PTRS_PER_PTE && |p.path| <= 3
    ensures var e, c := mem[at0[p]].entries[i], Child(p, i);
            if e == Absent then Without(at0, p, i + 1) == at && Without(flat0, p, i + 1) == flat
            else if |p.path| < 3 then
              && c in at && at[c] == e.pa && |c.path| == |p.path| + 1 && Parent(c) == p
              && Without(at0, p, i + 1) == WithoutTree(at, c) && Without(flat0, p, i + 1) == WithoutTree(flat, c)
            else
              && c in flat && flat[c] == e && PhysBits(e.pa) == e.pa && c.path != [] && Parent(c) == p
              && Without(at0, p, i + 1) == at && Without(flat0, p, i + 1) == flat - {c}
  {
    var e, c := mem[at0[p]].entries[i], Child(p, i);
    ChildParent(p, i);
    ChildDef(p, i);
    assert e == Expected(at0, flat0, c);
    LeafOrTable(at0, flat0, c);
    BelowNext(p, i, c);
    WithoutNext(at0, p, i);
    WithoutNext(flat0, p, i);
    if e == Absent {
      NothingThere(at0, flat0, p, i);
    } else if |p.path| == 3 {
      NoTable(at0, flat0, c);
      hide Shape, Entries, Expected, Under, Below, Child, Parent, WithoutTree;
      NoneBelow(at, c);
      OneBelow(flat, c);
    }
  }

  lemma {:induction false} LeafOrTable(at: Tables, flat: Leaves, c: Pos)
    requires Shape(at, flat)
    ensures c in flat ==> |c.path| == 4 && flat[c].Present? && PhysBits(flat[c].pa) == flat[c].pa
    ensures c in at ==> |c.path| <= 3
  {
  }

  lemma {:induction false} ChildManaged(mem: Memory, free: set<nat>, refs: map<nat, nat>, at: Tables, flat: Leaves,
                                        held: multiset<nat>, dying: set<Pos>, p: Pos, i: nat)
    requires Tearing(mem, free, refs, at, flat, held, dying) && Child(p, i) in at
    ensures at[Child(p, i)] in refs && PhysBits(at[Child(p, i)]) == at[Child(p, i)]
  {
    TableManaged(free, refs, at, flat, held, p, i);
    hide Accounts, Tree, PhysBits;
  }

  lemma {:induction false} TearingDone(at: Tables, flat: Leaves, p: Pos)
    requires Shape(at, flat) && p !in flat && p in at
    ensures p in Without(at, p, PTRS_PER_PTE) && Without(at, p, PTRS_PER_PTE)[p] == at[p]
    ensures Without(at, p, PTRS_PER_PTE) - {p} == WithoutTree(at, p)
    ensures Without(flat, p, PTRS_PER_PTE) == WithoutTree(flat, p)
    ensures Childless(Without(at, p, PTRS_PER_PTE), Without(flat, p, PTRS_PER_PTE), p)
  {
    AllDone(at, flat, p);
  }

  // ---------------------------------------------------------------------------
  // Fork copy
  // ---------------------------------------------------------------------------

  /** The leaf a fork puts into the child: a writable user page becomes read-only. */
  function CowPte(pte: Pte): Pte {
    if pte.Present? && pte.prot.el0 && !pte.prot.readOnly then Present(pte.pa, pte.prot.(readOnly := true)) else pte
  }

  /** The same place in the tree of another root. */
  function Mirror(x: Pos, root: nat): Pos {
    Pos(root, x.path)
  }

  ghost predicate Fresh(at: Tables, flat: Leaves, q: Pos) {
    forall x :: x in at || x in flat ==> !Under(q, x)
  }

  /** The tables added are copies of tables below the first i entries of p. */
  ghost predicate NewTables(at0: Tables, at: Tables, p: Pos, q: Pos, i: nat) {
    && (forall x :: x in at0 ==> x in at && at[x] == at0[x])
    && (forall x :: x in at && x !in at0 ==> Below(q, i, x) && Mirror(x, p.root) in at0)
  }

  /** The leaves added are copies of leaves below the first i entries of p. */
  ghost predicate NewLeaves(flat0: Leaves, flat: Leaves, p: Pos, q: Pos, i: nat) {
    && (forall x :: x in flat0 ==> x in flat && flat[x] == flat0[x])
    && (forall x :: x in flat && x !in flat0 ==>
          Below(q, i, x) && Mirror(x, p.root) in flat0 && flat[x] == CowPte(flat0[Mirror(x, p.root)]))
  }

  /** A leaf below the first i entries of p has a copy if its table has one. */
  ghost predicate LeavesDone(flat0: Leaves, at: Tables, flat: Leaves, p: Pos, q: Pos, i: nat) {
    forall y ::
      y in flat0 && Below(p, i, y) && y.path != [] && Parent(Mirror(y, q.root)) in at ==> Mirror(y, q.root) in flat
  }

  /** Every table below the first i entries of p has a copy. */
  ghost predicate TablesDone(at0: Tables, at: Tables, p: Pos, q: Pos, i: nat) {
    forall y :: y in at0 && Below(p, i, y) ==> Mirror(y, q.root) in at
  }

  ghost predicate Copied(at0: Tables, flat0: Leaves, at: Tables, flat: Leaves, free: set<nat>, p: Pos, q: Pos, i: nat) {
    && NewTables(at0, at, p, q, i)
    && NewLeaves(flat0, flat, p, q, i)
    && LeavesDone(flat0, at, flat, p, q, i)
    && (free == {} || TablesDone(at0, at, p, q, i))
  }

  lemma {:induction false} CopyStart(at: Tables, flat: Leaves, free: set<nat>, p: Pos, q: Pos)
    ensures Copied(at, flat, at, flat, free, p, q, 0)
  {
  }

  lemma {:induction false} BelowMore(p: Pos, i: nat, x: Pos)
    ensures Below(p, i, x) ==> Below(p, i + 1, x)
    ensures Below(p, i + 1, x) && !Below(p, i, x) ==> x == Child(p, i) || Under(Child(p, i), x)
  {
    BelowNext(p, i, x);
  }

  lemma {:induction false} Widen(at0: Tables, flat0: Leaves, at: Tables, flat: Leaves, p: Pos, q: Pos, i: nat)
    requires NewTables(at0, at, p, q, i) && NewLeaves(flat0, flat, p, q, i)
    ensures NewTables(at0, at, p, q, i + 1) && NewLeaves(flat0, flat, p, q, i + 1)
  {
    forall x: Pos
      ensures Below(q, i, x) ==> Below(q, i + 1, x)
    {
      BelowMore(q, i, x);
    }
    hide Below;
  }

  lemma {:induction false} SkipLeaves(flat0: Leaves, at: Tables, flat: Leaves, p: Pos, q: Pos, i: nat)
    requires LeavesDone(flat0, at, flat, p, q, i) && p.path == q.path && Child(p, i) !in flat0
    requires Shape(at, flat) && Child(q, i) !in at
    ensures LeavesDone(flat0, at, flat, p, q, i + 1)
  {
    hide Shape, Child, Parent, Under, Below;
    forall y | y in flat0 && Below(p, i + 1, y) && y.path != [] && Parent(Mirror(y, q.root)) in at
      ensures Mirror(y, q.root) in flat
    {
      BelowMore(p, i, y);
      if !Below(p, i, y) {
        MirrorBelow(p, q, i, y);
        NoTable(at, flat, Child(q, i));
      }
    }
  }

  lemma {:induction false} SkipTables(at0: Tables, flat0: Leaves, at: Tables, p: Pos, q: Pos, i: nat)
    requires TablesDone(at0, at, p, q, i) && Shape(at0, flat0) && Child(p, i) !in at0
    ensures TablesDone(at0, at, p, q, i + 1)
  {
    hide Shape, Child, Under, Below;
    NoTable(at0, flat0, Child(p, i));
    forall y | y in at0 && Below(p, i + 1, y)
      ensures Mirror(y, q.root) in at
    {
      BelowMore(p, i, y);
    }
  }

  /** An absent entry, or one whose table could not be had, adds nothing. */
  lemma {:induction false} CopySkip(at0: Tables, flat0: Leaves, at: Tables, flat: Leaves, free: set<nat>, p: Pos,
                                    q: Pos, i: nat)
    requires Shape(at0, flat0) && Shape(at, flat) && Copied(at0, flat0, at, flat, free, p, q, i)
    requires p.path == q.path && Child(q, i) !in at && Child(p, i) !in flat0
    requires free == {} || Child(p, i) !in at0
    ensures Copied(at0, flat0, at, flat, free, p, q, i + 1)
  {
    hide Shape, NewTables, NewLeaves, LeavesDone, TablesDone, Child;
    Widen(at0, flat0, at, flat, p, q, i);
    SkipLeaves(flat0, at, flat, p, q, i);
    if free != {} {
      SkipTables(at0, flat0, at, p, q, i);
    }
  }

  lemma {:induction false} AddLeaf(flat0: Leaves, flat: Leaves, p: Pos, q: Pos, i: nat, pte: Pte)
    requires NewLeaves(flat0, flat, p, q, i + 1) && p.path == q.path
    requires Child(p, i) in flat0 && pte == CowPte(flat0[Child(p, i)]) && Child(q, i) !in flat
    ensures NewLeaves(flat0, flat[Child(q, i) := pte], p, q, i + 1)
  {
    BelowNext(q, i, Child(q, i));
    MirrorChild(q, p, i);
    hide Child, Below, CowPte;
  }

  lemma {:induction false} MoreLeaves(flat0: Leaves, at: Tables, flat: Leaves, p: Pos, q: Pos, i: nat, pte: Pte)
    requires LeavesDone(flat0, at, flat, p, q, i) && p.path == q.path
    requires forall x :: x in flat0 ==> !Under(Child(p, i), x)
    ensures LeavesDone(flat0, at, flat[Child(q, i) := pte], p, q, i + 1)
  {
    hide Child, Parent, Under, Below;
    forall y | y in flat0 && Below(p, i + 1, y) && y.path != [] && Parent(Mirror(y, q.root)) in at
      ensures Mirror(y, q.root) in flat[Child(q, i) := pte]
    {
      BelowMore(p, i, y);
      MirrorChild(p, q, i);
    }
  }

  /** A leaf is copied. */
  lemma {:induction false} CopyLeaf(at0: Tables, flat0: Leaves, at: Tables, flat: Leaves, free: set<nat>, p: Pos,
                                    q: Pos, i: nat, pte: Pte)
    requires Shape(at0, flat0) && Copied(at0, flat0, at, flat, free, p, q, i) && p.path == q.path
    requires Child(p, i) in flat0 && pte == CowPte(flat0[Child(p, i)]) && Child(q, i) !in flat
    ensures Copied(at0, flat0, at, flat[Child(q, i) := pte], free, p, q, i + 1)
  {
    LeafShape(at0, flat0, Child(p, i));
    hide Shape, Child, NewTables, NewLeaves, LeavesDone, TablesDone, CowPte, Under;
    NoTable(at0, flat0, Child(p, i));
    Widen(at0, flat0, at, flat, p, q, i);
    AddLeaf(flat0, flat, p, q, i, pte);
    MoreLeaves(flat0, at, flat, p, q, i, pte);
    if free != {} {
      SkipTables(at0, flat0, at, p, q, i);
    }
  }

  lemma {:induction false} MirrorChild(p: Pos, q: Pos, i: nat)
    requires p.path == q.path
    ensures Mirror(Child(p, i), q.root) == Child(q, i)
  {
  }

  /** Mirrored positions keep their places. */
  lemma {:induction false} MirrorBelow(p: Pos, q: Pos, i: nat, y: Pos)
    requires p.path == q.path && y.path != [] && (y == Child(p, i) || Under(Child(p, i), y))
    ensures y == Child(p, i) || Parent(Mirror(y, q.root)) == Child(q, i)
        || Under(Child(q, i), Parent(Mirror(y, q.root)))
  {
    ChildDef(p, i);
    ChildDef(q, i);
    if y != Child(p, i) {
      var m := Mirror(y, q.root);
      if |y.path| > |p.path| + 2 {
        UnderLong(Child(q, i), m);
      } else {
        UnderShort(Child(q, i), m);
        ChildParent(Child(q, i), m.path[|p.path| + 1]);
      }
    }
  }

  lemma {:induction false} MirrorParent(p: Pos, q: Pos, i: nat, y: Pos)
    requires p.path == q.path && Below(p, i, y) && y.path != []
    ensures Parent(Mirror(y, q.root)) == q || Below(q, i, Parent(Mirror(y, q.root)))
  {
    var m := Mirror(y, q.root);
    if |y.path| == |p.path| + 1 {
      UnderShort(q, m);
      ChildParent(q, m.path[|q.path|]);
    } else {
      UnderLong(q, m);
    }
  }

  /** The tables present once the child table of q has been created. */
  ghost predicate WithChild(at: Tables, at1: Tables, c: Pos) {
    && (forall x :: x in at1 ==> x in at || x == c)
    && (forall x :: x in at ==> x in at1 && at1[x] == at[x])
    && c in at1 && c !in at
  }

  lemma {:induction false} SubtreeTables(at0: Tables, at: Tables, at1: Tables, at2: Tables, p: Pos, q: Pos, i: nat)
    requires p.path == q.path && p.root != q.root && Child(p, i) in at0 && WithChild(at, at1, Child(q, i))
    requires NewTables(at0, at, p, q, i) && NewTables(at1, at2, Child(p, i), Child(q, i), PTRS_PER_PTE)
    ensures NewTables(at0, at2, p, q, i + 1)
  {
    var cp, cq := Child(p, i), Child(q, i);
    ChildDef(p, i);
    ChildDef(q, i);
    MirrorChild(q, p, i);
    hide Child;
    forall x | x in at2 && x !in at0
      ensures Below(q, i + 1, x) && Mirror(x, p.root) in at0
    {
      BelowNext(q, i, x);
      hide Below;
      if x !in at1 {
        BelowRoot(cq, PTRS_PER_PTE, x);
        assert Mirror(x, cp.root) in at1;
        NotMirrored(at0, at, p, q, i, Mirror(x, p.root));
      }
    }
  }

  lemma {:induction false} BelowRoot(q: Pos, i: nat, x: Pos)
    requires Below(q, i, x)
    ensures x.root == q.root && Under(q, x)
  {
  }

  /** What has the root of the parent was there before. */
  lemma {:induction false} NotMirrored(at0: Tables, at: Tables, p: Pos, q: Pos, i: nat, m: Pos)
    requires NewTables(at0, at, p, q, i) && p.root != q.root && m.root == p.root
    ensures m in at ==> m in at0
  {
  }

  lemma {:induction false} SubtreeLeaves(flat0: Leaves, flat: Leaves, flat2: Leaves, p: Pos, q: Pos, i: nat)
    requires p.path == q.path && p.root != q.root
    requires NewLeaves(flat0, flat, p, q, i) && NewLeaves(flat, flat2, Child(p, i), Child(q, i), PTRS_PER_PTE)
    ensures NewLeaves(flat0, flat2, p, q, i + 1)
  {
    var cp, cq := Child(p, i), Child(q, i);
    ChildDef(p, i);
    ChildDef(q, i);
    hide Child, CowPte;
    forall x | x in flat2 && x !in flat0
      ensures Below(q, i + 1, x) && Mirror(x, p.root) in flat0 && flat2[x] == CowPte(flat0[Mirror(x, p.root)])
    {
      BelowNext(q, i, x);
      if x !in flat {
        BelowRoot(cq, PTRS_PER_PTE, x);
        assert Mirror(x, cp.root) in flat && !Below(q, i, Mirror(x, p.root));
      }
    }
  }

  lemma {:induction false} SubtreeLeavesDone(at0: Tables, flat0: Leaves, at: Tables, flat: Leaves, at1: Tables,
                                             at2: Tables, flat2: Leaves, p: Pos, q: Pos, i: nat)
    requires p.path == q.path && Shape(at0, flat0) && Child(p, i) in at0 && WithChild(at, at1, Child(q, i))
    requires NewTables(at1, at2, Child(p, i), Child(q, i), PTRS_PER_PTE)
    requires LeavesDone(flat0, at, flat, p, q, i)
    requires LeavesDone(flat, at2, flat2, Child(p, i), Child(q, i), PTRS_PER_PTE)
    requires (forall x :: x in flat0 ==> x in flat) && (forall x :: x in flat ==> x in flat2)
    ensures LeavesDone(flat0, at2, flat2, p, q, i + 1)
  {
    var cp, cq := Child(p, i), Child(q, i);
    LeafOrTable(at0, flat0, cp);
    ChildDef(p, i);
    ChildDef(q, i);
    hide Child, Parent;
    forall y | y in flat0 && Below(p, i + 1, y) && y.path != [] && Parent(Mirror(y, q.root)) in at2
      ensures Mirror(y, q.root) in flat2
    {
      var m := Parent(Mirror(y, q.root));
      BelowMore(p, i, y);
      if Below(p, i, y) {
        MirrorParent(p, q, i, y);
        BelowNext(q, i, m);
        hide Shape;
        NotBelowChild(q, i, m);
        assert m in at;
      } else {
        OnTheWay(at0, flat0, cp, y);
      }
    }
  }

  lemma {:induction false} NotBelowChild(q: Pos, i: nat, m: Pos)
    requires m == q || Below(q, i, m)
    ensures m != Child(q, i) && !Below(Child(q, i), PTRS_PER_PTE, m)
  {
    ChildDef(q, i);
    BelowNext(q, i, m);
  }

  lemma {:induction false} SubtreeTablesDone(at0: Tables, flat0: Leaves, at: Tables, at1: Tables, at2: Tables, p: Pos,
                                             q: Pos, i: nat)
    requires p.path == q.path && Shape(at0, flat0) && Child(p, i) in at0 && WithChild(at, at1, Child(q, i))
    requires NewTables(at0, at, p, q, i) && NewTables(at1, at2, Child(p, i), Child(q, i), PTRS_PER_PTE)
    requires TablesDone(at0, at, p, q, i) && TablesDone(at1, at2, Child(p, i), Child(q, i), PTRS_PER_PTE)
    ensures TablesDone(at0, at2, p, q, i + 1)
  {
    var cp, cq := Child(p, i), Child(q, i);
    ChildDef(p, i);
    ChildDef(q, i);
    MirrorChild(p, q, i);
    hide Child;
    forall y | y in at0 && Below(p, i + 1, y)
      ensures Mirror(y, q.root) in at2
    {
      BelowMore(p, i, y);
      if !Below(p, i, y) && y != cp {
        OnTheWay(at0, flat0, cp, y);
      }
    }
  }

  /** A subtree is copied. */
  lemma {:induction false} CopySubtree(at0: Tables, flat0: Leaves, at: Tables, flat: Leaves, free: set<nat>,
                                       at1: Tables, at2: Tables, flat2: Leaves, free2: set<nat>,
        p: Pos, q: Pos, i: nat)
    requires p.path == q.path && p.root != q.root && Shape(at0, flat0) && Child(p, i) in at0
    requires WithChild(at, at1, Child(q, i)) && free2 <= free
    requires Copied(at0, flat0, at, flat, free, p, q, i)
    requires Copied(at1, flat, at2, flat2, free2, Child(p, i), Child(q, i), PTRS_PER_PTE)
    ensures Copied(at0, flat0, at2, flat2, free2, p, q, i + 1)
  {
    assert (forall x :: x in flat0 ==> x in flat) && (forall x :: x in flat ==> x in flat2);
    hide Shape, Child, NewTables, NewLeaves, LeavesDone, TablesDone, WithChild;
    SubtreeTables(at0, at, at1, at2, p, q, i);
    SubtreeLeaves(flat0, flat, flat2, p, q, i);
    SubtreeLeavesDone(at0, flat0, at, flat, at1, at2, flat2, p, q, i);
    if free2 != {} {
      SubtreeTablesDone(at0, flat0, at, at1, at2, p, q, i);
    }
  }

  lemma {:induction false} GoodShape(mem: Memory, free: set<nat>, refs: map<nat, nat>, at: Tables, flat: Leaves,
                                     held: multiset<nat>)
    requires Good(mem, free, refs, at, flat, held)
    ensures Shape(at, flat)
  {
  }

  /** What the next entry of the parent says, with the copy made so far out of the way. */
  lemma {:induction false} CopyNext(mem: Memory, free: set<nat>, refs: map<nat, nat>, at: Tables, flat: Leaves,
                                    held: multiset<nat>, at0: Tables, flat0: Leaves,
        p: Pos, q: Pos, i: nat)
    requires Good(mem, free, refs, at, flat, held) && Copied(at0, flat0, at, flat, free, p, q, i) && i < PTRS_PER_PTE
    requires p in at0 && q in at0 && p.path == q.path && p.root != q.root && Fresh(at0, flat0, q) && Shape(at0, flat0)
    ensures p in at && at[p] == at0[p] && q in at && at[q] == at0[q] && Shape(at, flat)
    ensures at[p] in mem && mem[at[p]].Table? && |mem[at[p]].entries| == PTRS_PER_PTE && |p.path| <= 3
    ensures Child(q, i) !in at && Child(q, i) !in flat
    ensures var e, c := mem[at[p]].entries[i], Child(p, i);
            if e == Absent then c !in at0 && c !in flat0
            else if |p.path| < 3 then c in at0 && c !in flat0 && c in at && PhysBits(e.pa) == at[c]
            else c in flat && flat[c] == e && c in flat0 && flat0[c] == e
  {
    var c := Child(p, i);
    EntryAt(mem, at, flat, p, i);
    LeafOrTable(at0, flat0, c);
    LeafOrTable(at, flat, c);
    ChildDef(p, i);
    ChildDef(q, i);
    BelowNext(q, i, Child(q, i));
    assert Under(q, Child(q, i));
    NotMirrored(at0, at, p, q, i, c);
    assert c in flat ==> c in flat0 by { assert !Below(q, i, c); }
    if c in at {
      TablePhys(mem, free, refs, at, c);
    }
    hide Shape, Entries, PhysBits, Below, Under, Child;
  }

  lemma {:induction false} GrownChild(at: Tables, free: set<nat>, at1: Tables, free1: set<nat>, flat: Leaves, c: Pos)
    requires Grown(at, free, at1, free1, {c}) && c !in at && c in at1
    requires forall x :: x in at || x in flat ==> !Under(c, x)
    ensures WithChild(at, at1, c) && free1 <= free && Fresh(at1, flat, c)
    ensures forall x :: x in at ==> x in at1 && at1[x] == at[x]
  {
    hide Under, Fresh, WithChild;
    GrownWith(at, free, at1, free1, c);
    ChildFresh(at, at1, flat, c);
  }

  lemma {:induction false} GrownWith(at: Tables, free: set<nat>, at1: Tables, free1: set<nat>, c: Pos)
    requires Grown(at, free, at1, free1, {c}) && c !in at && c in at1
    ensures WithChild(at, at1, c) && free1 <= free
  {
    forall x | x in at1 && x !in at
      ensures x == c
    {
      assert x in Added(at, at1);
    }
  }

  lemma {:induction false} ChildFresh(at: Tables, at1: Tables, flat: Leaves, c: Pos)
    requires WithChild(at, at1, c) && forall x :: x in at || x in flat ==> !Under(c, x)
    ensures Fresh(at1, flat, c)
  {
    assert !Under(c, c);
  }

  /** The reference counts after get_page. */
  function Got(refs: map<nat, nat>, pa: nat): map<nat, nat> {
    if pa in refs then refs[pa := refs[pa] + 1] else refs
  }

  lemma {:induction false} HoldInHand(held: multiset<nat>, refs: map<nat, nat>, flat: Leaves, k: Pos, pte: Pte)
    requires pte.Present? && k !in flat && (pte.pa !in refs ==> pte.pa !in held)
    ensures forall refs': map<nat, nat> :: HeldAfterWrite(Hold(held, refs, pte.pa), refs', flat, k, pte) == held
    ensures pte.pa in refs ==> Hold(held, refs, pte.pa)[pte.pa] > 0
  {
  }

  lemma {:induction false} PageHeld(mem: Memory, free: set<nat>, refs: map<nat, nat>, at: Tables, flat: Leaves,
                                    held: multiset<nat>, pa: nat)
    requires Good(mem, free, refs, at, flat, held) && pa !in free && pa !in at.Values
    ensures Good(mem, free, Got(refs, pa), at, flat, Hold(held, refs, pa)) && Got(refs, pa).Keys == refs.Keys
    ensures pa !in refs ==> pa !in held
  {
    hide Tree, Frames, PhysBits, Count;
    if pa in refs {
      PageGot(mem, free, refs, at, flat, held, pa);
    }
  }

  /** One more entry for a page in use, and one more reference to it. */
  lemma {:induction false} EntryCopied(mem: Memory, free: set<nat>, refs: map<nat, nat>, at: Tables, flat: Leaves,
                                       held: multiset<nat>, q: Pos, i: nat, pte: Pte)
    requires Good(mem, free, refs, at, flat, held) && q in at && |q.path| == 3 && i < PTRS_PER_PTE
    requires Child(q, i) !in flat
    requires pte.Present? && PhysBits(pte.pa) == pte.pa && pte.pa !in free && pte.pa !in at.Values
    ensures at[q] in mem && mem[at[q]].Table? && |mem[at[q]].entries| == PTRS_PER_PTE
    ensures Good(SetEntry(mem, at[q], i, pte), free, Got(refs, pte.pa), at, flat[Child(q, i) := pte], held)
    ensures DataKept(mem, SetEntry(mem, at[q], i, pte), {}) && Got(refs, pte.pa).Keys == refs.Keys
  {
    hide Good, Child, SetEntry, HeldAfterWrite, Hold, DataKept, PhysBits, Got;
    PageHeld(mem, free, refs, at, flat, held, pte.pa);
    HoldInHand(held, refs, flat, Child(q, i), pte);
    LeafWritten(mem, free, Got(refs, pte.pa), at, flat, Hold(held, refs, pte.pa), q, i, pte);
  }

  // ---------------------------------------------------------------------------
  // The copy as a whole
  // ---------------------------------------------------------------------------

  /** A root table with no entry in it. */
  ghost predicate EmptyRoot(at: Tables, flat: Leaves, root: nat) {
    forall x :: x in at || x in flat ==> x.root == root ==> x == Pos(root, [])
  }

  /** From (at0, flat0), the address space dst has become a copy of src. */
  ghost predicate Forked(at0: Tables, flat0: Leaves, at: Tables, flat: Leaves, free: set<nat>, src: nat, dst: nat) {
    && (forall x :: x in at0 ==> x in at && at[x] == at0[x])
    && (forall x :: x in at && x !in at0 ==> x.root == dst && x.path != [])
    && (forall k :: k in flat0 ==> k in flat && flat[k] == flat0[k])
    && (forall k :: k in flat && k !in flat0 ==> k.root == dst)
    && (forall k :: k in flat && k.root == dst ==> Mirror(k, src) in flat0 && flat[k] == CowPte(flat0[Mirror(k, src)]))
    && (forall k :: k in flat0 && k.root == src && k.path != [] && Parent(Mirror(k, dst)) in at ==>
        Mirror(k, dst) in flat)
    && (free != {} ==> forall k :: k in flat0 && k.root == src ==> Mirror(k, dst) in flat)
  }

  lemma {:induction false} RootTable2(at: Tables, flat: Leaves, root: nat)
    requires Shape(at, flat) && Pos(root, []) in at
    ensures at[Pos(root, [])] == root
  {
  }

  lemma {:induction false} NothingUnder(at: Tables, flat: Leaves, root: nat)
    requires EmptyRoot(at, flat, root)
    ensures Fresh(at, flat, Pos(root, []))
  {
  }

  lemma {:induction false} UnderRoot(root: nat, x: Pos)
    ensures Under(Pos(root, []), x) <==> x.root == root && x.path != []
  {
    assert x.path[..0] == [];
  }

  lemma {:induction false} WholeTables(at0: Tables, at: Tables, src: nat, dst: nat)
    requires NewTables(at0, at, Pos(src, []), Pos(dst, []), PTRS_PER_PTE)
    ensures forall x :: x in at0 ==> x in at && at[x] == at0[x]
    ensures forall x :: x in at && x !in at0 ==> x.root == dst && x.path != []
  {
    forall x | x in at && x !in at0
      ensures x.root == dst && x.path != []
    {
      UnderRoot(dst, x);
    }
  }

  lemma {:induction false} WholeLeaves(at0: Tables, flat0: Leaves, flat: Leaves, src: nat, dst: nat)
    requires NewLeaves(flat0, flat, Pos(src, []), Pos(dst, []), PTRS_PER_PTE) && EmptyRoot(at0, flat0, dst)
    requires Shape(at0, flat0)
    ensures forall k :: k in flat0 ==> k in flat && flat[k] == flat0[k]
    ensures forall k :: k in flat && k !in flat0 ==> k.root == dst
    ensures forall k ::
              k in flat && k.root == dst ==> Mirror(k, src) in flat0 && flat[k] == CowPte(flat0[Mirror(k, src)])
  {
    hide CowPte;
    forall k | k in flat
      ensures k !in flat0 ==> k.root == dst
      ensures k.root == dst ==> Mirror(k, src) in flat0 && flat[k] == CowPte(flat0[Mirror(k, src)])
    {
      if k in flat0 {
        assert k.root != dst;
      } else {
        UnderRoot(dst, k);
      }
    }
  }

  lemma {:induction false} WholeDone(at0: Tables, flat0: Leaves, at: Tables, flat: Leaves, free: set<nat>, src: nat,
                                     dst: nat, k: Pos)
    requires Shape(at0, flat0) && Copied(at0, flat0, at, flat, free, Pos(src, []), Pos(dst, []), PTRS_PER_PTE)
    requires k in flat0 && k.root == src
    ensures k.path != []
    ensures Parent(Mirror(k, dst)) in at ==> Mirror(k, dst) in flat
    ensures free != {} ==> Mirror(k, dst) in flat
  {
    var p, q := Pos(src, []), Pos(dst, []);
    UnderRoot(src, k);
    OnTheWay(at0, flat0, p, k);
    if free != {} {
      UnderRoot(src, Parent(k));
      OnTheWay(at0, flat0, p, Parent(k));
      assert Mirror(Parent(k), dst) == Parent(Mirror(k, dst));
    }
  }

  lemma {:induction false} WholeTree(at0: Tables, flat0: Leaves, at: Tables, flat: Leaves, free: set<nat>, src: nat,
                                     dst: nat)
    requires Shape(at0, flat0) && EmptyRoot(at0, flat0, dst)
    requires Copied(at0, flat0, at, flat, free, Pos(src, []), Pos(dst, []), PTRS_PER_PTE)
    ensures Forked(at0, flat0, at, flat, free, src, dst)
  {
    forall k | k in flat0 && k.root == src
      ensures k.path != [] && (Parent(Mirror(k, dst)) in at ==> Mirror(k, dst) in flat)
      ensures (free != {} ==> Mirror(k, dst) in flat)
    {
      WholeDone(at0, flat0, at, flat, free, src, dst, k);
    }
    hide Shape, EmptyRoot, NewTables, NewLeaves, LeavesDone, TablesDone, CowPte, Parent;
    WholeTables(at0, at, src, dst);
    WholeLeaves(at0, flat0, flat, src, dst);
  }

  /** Each leaf below dst has the page, the access from user mode and the attributes of the leaf of src
      at that place; it is read-only if that one is, or if user mode can access it. */
  ghost predicate AccessCopied(flat0: Leaves, flat: Leaves, src: nat, dst: nat) {
    forall k :: k in flat && k.root == dst ==>
      && Pos(src, k.path) in flat0 && flat0[Pos(src, k.path)].Present? && flat[k].Present?
      && flat[k].pa == flat0[Pos(src, k.path)].pa
      && flat[k].prot.el0 == flat0[Pos(src, k.path)].prot.el0
      && flat[k].prot.attrs == flat0[Pos(src, k.path)].prot.attrs
      && (flat[k].prot.readOnly <==> flat0[Pos(src, k.path)].prot.readOnly || flat0[Pos(src, k.path)].prot.el0)
  }

  lemma {:induction false} ForkedAccess(mem0: Memory, free0: set<nat>, refs: map<nat, nat>, at0: Tables, flat0: Leaves,
                                        held: multiset<nat>, at1: Tables, at: Tables, flat: Leaves, free: set<nat>,
                                        src: nat, dst: nat)
    requires Good(mem0, free0, refs, at0, flat0, held) && Forked(at1, flat0, at, flat, free, src, dst)
    ensures AccessCopied(flat0, flat, src, dst)
  {
    hide Good, PhysBits, Count;
    forall k | k in flat && k.root == dst
      ensures Mirror(k, src) in flat0 && flat0[Mirror(k, src)].Present?
    {
      MappedPage(mem0, free0, refs, at0, flat0, held, Mirror(k, src));
    }
  }

  // ---------------------------------------------------------------------------
  // When the copy is complete
  // ---------------------------------------------------------------------------

  /** Every table added took one of the free frames, and nothing else did. */
  ghost predicate Paid(at0: Tables, free0: set<nat>, at: Tables, free: set<nat>) {
    free <= free0 && at0.Keys <= at.Keys && |free| + |Added(at0, at)| == |free0|
  }

  lemma {:induction false} PaidNothing(at: Tables, free: set<nat>)
    ensures Paid(at, free, at, free)
  {
    assert Added(at, at) == {};
  }

  lemma {:induction false} GrownPaid(at0: Tables, free0: set<nat>, at: Tables, free: set<nat>, wanted: set<Pos>)
    requires Grown(at0, free0, at, free, wanted)
    ensures Paid(at0, free0, at, free)
  {
    hide Added;
  }

  lemma {:induction false} PaidTrans(at0: Tables, free0: set<nat>, at1: Tables, free1: set<nat>, at2: Tables,
                                     free2: set<nat>)
    requires Paid(at0, free0, at1, free1) && Paid(at1, free1, at2, free2)
    ensures Paid(at0, free0, at2, free2)
  {
    AddedTrans(at0, at1, at2);
    hide Added;
  }

  /** The tables of an address space below its root. */
  ghost function TablesBelow(at: Tables, root: nat): set<Pos> {
    set x | x in at && x.root == root && x.path != []
  }

  ghost function Mirrors(xs: set<Pos>, root: nat): set<Pos> {
    set x | x in xs :: Mirror(x, root)
  }

  lemma {:induction false} MirrorsCount(xs: set<Pos>, src: nat, dst: nat)
    requires forall x :: x in xs ==> x.root == src
    ensures |Mirrors(xs, dst)| == |xs|
  {
    if xs != {} {
      var x :| x in xs;
      var rest := xs - {x};
      MirrorsCount(rest, src, dst);
      assert Mirrors(xs, dst) == Mirrors(rest, dst) + {Mirror(x, dst)};
      assert Mirror(Mirror(x, dst), src) == x && forall y :: y in rest ==> Mirror(Mirror(y, dst), src) == y;
    }
  }

  /** Every table below the root of src has a copy below the root of dst. */
  ghost predicate AllTables(at0: Tables, at: Tables, src: nat, dst: nat) {
    forall x :: x in TablesBelow(at0, src) ==> Mirror(x, dst) in at
  }

  /** The tables added are the copies of the tables that have one. */
  lemma {:induction false} AddedMirrors(at0: Tables, at: Tables, src: nat, dst: nat)
    requires NewTables(at0, at, Pos(src, []), Pos(dst, []), PTRS_PER_PTE) && src != dst
    requires forall x :: x in at0 && x.root == dst ==> x.path == []
    ensures Added(at0, at) <= Mirrors(TablesBelow(at0, src), dst)
    ensures AllTables(at0, at, src, dst) <==> Added(at0, at) == Mirrors(TablesBelow(at0, src), dst)
  {
    hide Below;
    WholeTables(at0, at, src, dst);
    forall x | x in Added(at0, at)
      ensures x in Mirrors(TablesBelow(at0, src), dst)
    {
      assert Mirror(Mirror(x, src), dst) == x;
    }
    forall x | x in TablesBelow(at0, src)
      ensures Mirror(x, dst) !in at0 && Mirror(x, dst) in Mirrors(TablesBelow(at0, src), dst)
    {
    }
  }

  lemma {:induction false} TablesUnder(at0: Tables, flat0: Leaves, at: Tables, src: nat, dst: nat)
    requires Shape(at0, flat0) && TablesDone(at0, at, Pos(src, []), Pos(dst, []), PTRS_PER_PTE)
    ensures AllTables(at0, at, src, dst)
  {
    forall x | x in TablesBelow(at0, src)
      ensures Mirror(x, dst) in at
    {
      UnderRoot(src, x);
      OnTheWay(at0, flat0, Pos(src, []), x);
    }
  }

  /** The copy has all tables exactly when there were as many free frames as tables to copy. */
  lemma {:induction false} CompleteWhen(at0: Tables, flat0: Leaves, free0: set<nat>, at: Tables, flat: Leaves,
                                        free: set<nat>, src: nat, dst: nat)
    requires Shape(at0, flat0) && EmptyRoot(at0, flat0, dst) && src != dst && Paid(at0, free0, at, free)
    requires Copied(at0, flat0, at, flat, free, Pos(src, []), Pos(dst, []), PTRS_PER_PTE)
    ensures AllTables(at0, at, src, dst) <==> |free0| >= |TablesBelow(at0, src)|
  {
    hide Shape, NewLeaves, LeavesDone, Added, AllTables;
    AddedMirrors(at0, at, src, dst);
    MirrorsCount(TablesBelow(at0, src), src, dst);
    Smaller(Added(at0, at), Mirrors(TablesBelow(at0, src), dst));
    if free != {} {
      TablesUnder(at0, flat0, at, src, dst);
    }
  }

  lemma {:induction false} LeafTable(at: Tables, flat: Leaves, k: Pos)
    requires Shape(at, flat) && k in flat
    ensures |k.path| == 4 && Parent(k) in at
  {
  }

  lemma {:induction false} LeafWithTable(at0: Tables, flat0: Leaves, at: Tables, flat: Leaves, free: set<nat>, src: nat,
                                         dst: nat, k: Pos)
    requires Forked(at0, flat0, at, flat, free, src, dst) && k in flat0 && k.root == src && k.path != []
    requires Parent(Mirror(k, dst)) in at
    ensures Mirror(k, dst) in flat
  {
  }

  /** With all tables, the copy has all leaves. */
  lemma {:induction false} AllLeaves(at0: Tables, flat0: Leaves, at: Tables, flat: Leaves, free: set<nat>, src: nat,
                                     dst: nat)
    requires Shape(at0, flat0) && Forked(at0, flat0, at, flat, free, src, dst) && AllTables(at0, at, src, dst)
    ensures forall k :: k in flat0 && k.root == src ==> Mirror(k, dst) in flat
  {
    hide Forked, Shape;
    forall k | k in flat0 && k.root == src
      ensures Mirror(k, dst) in flat
    {
      LeafTable(at0, flat0, k);
      assert Parent(k) in TablesBelow(at0, src);
      assert Mirror(Parent(k), dst) == Parent(Mirror(k, dst));
      LeafWithTable(at0, flat0, at, flat, free, src, dst, k);
    }
  }

  lemma {:induction false} CopyRoot(at0: Tables, flat0: Leaves, at: Tables, flat: Leaves, free: set<nat>, src: nat,
                                    dst: nat)
    requires Forked(at0, flat0, at, flat, free, src, dst) && Pos(dst, []) in at0
    ensures Pos(dst, []) in at
  {
  }

  lemma {:induction false} TreeGone<V>(m0: map<Pos, V>, m: map<Pos, V>, r: Pos)
    requires forall x :: x in m0 ==> x in m && m[x] == m0[x] && !Under(r, x)
    requires forall x :: x in m && x !in m0 ==> Under(r, x)
    ensures WithoutTree(m, r) == m0 - {r}
  {
    hide Under;
    assert forall x :: x in WithoutTree(m, r) <==> x in m0 - {r};
  }

  lemma {:induction false} TablesGone(at0: Tables, flat0: Leaves, at: Tables, flat: Leaves, free: set<nat>, src: nat,
                                      dst: nat)
    requires Forked(at0, flat0, at, flat, free, src, dst) && EmptyRoot(at0, flat0, dst)
    ensures WithoutTree(at, Pos(dst, [])) == at0 - {Pos(dst, [])}
  {
    var r := Pos(dst, []);
    forall x: Pos
      ensures Under(r, x) <==> x.root == dst && x.path != []
    {
      UnderRoot(dst, x);
    }
    hide CowPte, Parent, Under, WithoutTree;
    TreeGone(at0, at, r);
  }

  lemma {:induction false} LeafNewOrOld(at0: Tables, flat0: Leaves, at: Tables, flat: Leaves, free: set<nat>, src: nat,
                                        dst: nat, k: Pos)
    requires Forked(at0, flat0, at, flat, free, src, dst) && EmptyRoot(at0, flat0, dst) && Shape(at0, flat0)
    ensures k in flat0 ==> k in flat && flat[k] == flat0[k] && !Under(Pos(dst, []), k) && k != Pos(dst, [])
    ensures k in flat && k !in flat0 ==> Under(Pos(dst, []), k)
  {
    UnderRoot(dst, k);
    LeafOrTable(at0, flat0, k);
    LeafOrTable(at0, flat0, Mirror(k, src));
    hide Under, Shape, CowPte, Parent;
  }

  lemma {:induction false} LeavesGone(at0: Tables, flat0: Leaves, at: Tables, flat: Leaves, free: set<nat>, src: nat,
                                      dst: nat)
    requires Forked(at0, flat0, at, flat, free, src, dst) && EmptyRoot(at0, flat0, dst) && Shape(at0, flat0)
    ensures WithoutTree(flat, Pos(dst, [])) == flat0
  {
    hide Under, WithoutTree, Shape, Forked, EmptyRoot;
    forall k: Pos
      ensures k in flat0 ==> k in flat && flat[k] == flat0[k] && !Under(Pos(dst, []), k) && k != Pos(dst, [])
      ensures k in flat && k !in flat0 ==> Under(Pos(dst, []), k)
    {
      LeafNewOrOld(at0, flat0, at, flat, free, src, dst, k);
    }
    TreeGone(flat0, flat, Pos(dst, []));
    assert flat0 - {Pos(dst, [])} == flat0;
  }

  /** Without the copy, everything is as before but for the root of the copy. */
  lemma {:induction false} CopyGone(at0: Tables, flat0: Leaves, at: Tables, flat: Leaves, free: set<nat>, src: nat,
                                    dst: nat)
    requires Forked(at0, flat0, at, flat, free, src, dst) && EmptyRoot(at0, flat0, dst) && Shape(at0, flat0)
    ensures WithoutTree(at, Pos(dst, [])) == at0 - {Pos(dst, [])}
    ensures WithoutTree(flat, Pos(dst, [])) == flat0
  {
    hide Forked, EmptyRoot, Shape, WithoutTree;
    TablesGone(at0, flat0, at, flat, free, src, dst);
    LeavesGone(at0, flat0, at, flat, free, src, dst);
  }

  /** at' is at without the table in the frame t. */
  ghost predicate OneTableLess(at: Tables, at': Tables, t: nat) {
    && (forall p :: p in at ==> at[p] == t || (p in at' && at'[p] == at[p]))
    && (forall p :: p in at' ==> p in at && at'[p] == at[p] && at[p] != t)
    && t in at.Values
  }

  lemma {:induction false} FrameRestored(free: set<nat>, refs: map<nat, nat>, free': set<nat>, refs': map<nat, nat>,
                                         at: Tables, at': Tables, flat: Leaves,
        held: multiset<nat>, t: nat, f: nat)
    requires Accounts(free, refs, at, flat, held) && Accounts(free', refs', at', flat, held)
    requires OneTableLess(at, at', t) && t in refs && refs'.Keys == refs.Keys && f in refs
    ensures f in free' <==> f in free || f == t
    ensures f !in free' && f !in at'.Values ==> refs'[f] == refs[f]
  {
    hide Count;
    if f in at'.Values {
      assert f !in free && f !in free';
    } else if f != t {
      assert f !in at.Values;
    }
  }

  /** The accounts determine the free frames and the counts. */
  lemma {:induction false} AccountsRestored(mem: Memory, free: set<nat>, refs: map<nat, nat>, mem': Memory,
                                            free': set<nat>, refs': map<nat, nat>, at: Tables, at': Tables,
        flat: Leaves, held: multiset<nat>, t: nat)
    requires Good(mem, free, refs, at, flat, held) && Good(mem', free', refs', at', flat, held)
    requires OneTableLess(at, at', t) && t in refs && refs'.Keys == refs.Keys
    ensures free' == free + {t}
    ensures forall f :: f in refs && f !in free' && f !in at'.Values ==> refs'[f] == refs[f]
  {
    assert free <= refs.Keys && free' <= refs.Keys;
    hide Accounts, Tree, Frames, OneTableLess;
    forall f | f in refs
      ensures f in free' <==> f in free || f == t
      ensures f !in free' && f !in at'.Values ==> refs'[f] == refs[f]
    {
      FrameRestored(free, refs, free', refs', at, at', flat, held, t, f);
    }
  }

  lemma {:induction false} RootLess(at: Tables, flat: Leaves, r: Pos)
    requires Shape(at, flat) && r in at
    ensures OneTableLess(at, at - {r}, at[r])
  {
    OnlyThere(at, flat, r);
    hide Shape;
  }

  // ---------------------------------------------------------------------------
  // A new address space
  // ---------------------------------------------------------------------------

  lemma {:induction false} NoSuchRoot(at: Tables, flat: Leaves, r: nat)
    requires Shape(at, flat) && Pos(r, []) !in at
    ensures forall x :: x in at || x in flat ==> x.root != r
  {
    forall x | x in at || x in flat
      ensures x.root != r
    {
      if x.root == r {
        LeafOrTable(at, flat, x);
        UnderRoot(r, x);
        if x.path != [] {
          UpToTable(at, flat, Pos(r, []), x);
        }
      }
    }
  }

  lemma {:induction false} NotARoot(at: Tables, flat: Leaves, f: nat)
    requires Shape(at, flat) && f !in at.Values
    ensures Pos(f, []) !in at
  {
  }

  lemma {:induction false} RootShape(at: Tables, flat: Leaves, f: nat)
    requires Shape(at, flat) && f !in at.Values && Pos(f, []) !in at
    ensures Shape(at[Pos(f, []) := f], flat)
  {
  }

  lemma {:induction false} KeptEntries(mem: Memory, at: Tables, flat: Leaves, f: nat, p: Pos)
    requires p in at && at[p] != f && p != Pos(f, []) && Entries(mem, at, flat, p)
    ensures Entries(mem[f := ZeroTable()], at[Pos(f, []) := f], flat, p)
  {
    hide ZeroTable;
    var at' := at[Pos(f, []) := f];
    forall i: nat | i < PTRS_PER_PTE
      ensures Expected(at', flat, Child(p, i)) == Expected(at, flat, Child(p, i))
    {
      ChildDef(p, i);
    }
    hide Child, Expected;
  }

  lemma {:induction false} RootTree(mem: Memory, at: Tables, flat: Leaves, f: nat)
    requires Tree(mem, at, flat, {}) && f !in at.Values && Pos(f, []) !in at
    requires forall x :: x in at || x in flat ==> x.root != f
    ensures Tree(mem[f := ZeroTable()], at[Pos(f, []) := f], flat, {})
  {
    var mem', r := mem[f := ZeroTable()], Pos(f, []);
    var at' := at[r := f];
    forall j: nat
      ensures Expected(at, flat, Child(r, j)) == Absent
    {
      ChildDef(r, j);
    }
    hide Shape, ZeroTable, Entries, Expected, Child;
    RootShape(at, flat, f);
    FreshTable(mem', at, flat, r, f);
    forall p | p in at' && p != r
      ensures Entries(mem', at', flat, p)
    {
      assert at[p] in at.Values;
      KeptEntries(mem, at, flat, f, p);
    }
  }

  /** A frame becomes the root of an address space that maps nothing. */
  lemma {:induction false} RootLinked(mem: Memory, free: set<nat>, refs: map<nat, nat>, at: Tables, flat: Leaves,
                                      held: multiset<nat>, f: nat)
    requires Good(mem, free, refs, at, flat, held)
    requires f in refs && f !in free && f !in at.Values && refs[f] == 1 && held[f] == 1
    ensures Pos(f, []) !in at
    ensures Good(mem[f := ZeroTable()], free, refs, at[Pos(f, []) := f], flat, held - multiset{f})
    ensures EmptyRoot(at[Pos(f, []) := f], flat, f)
  {
    NotARoot(at, flat, f);
    NoSuchRoot(at, flat, f);
    hide Accounts, Shape, Entries, PhysBits, ZeroTable;
    RootTree(mem, at, flat, f);
    ValuesSet(at, Pos(f, []), f);
    TableFrames(mem, mem[f := ZeroTable()], free, refs, at, Pos(f, []), f);
    hide Frames, Tree;
    LinkAccounts(free, refs, at, flat, held, Pos(f, []), f);
  }
}
