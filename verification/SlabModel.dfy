/**
 The bookkeeping of the slab allocator as a value: page records, large records, partial lists,
 the words through which free objects are threaded, and which addresses are live.
 */
module SlabModel {
  import opened Common
  import opened BuddyBlocks
  import opened BuddyModel
  import opened Buddy

  const SLAB_SIZES: seq<nat> := [8, 16, 32, 64, 128, 256, 512, 1024, 2048, 4096, 8192]
  const SZ_8K: nat := 8192
  const SZ_4M: nat := 4194304

  datatype SlabPage = SlabPage(used: bool, cache: nat, pa: nat, va: nat, order: nat, objSize: nat,
                               capacity: nat, inuse: nat, freelist: nat)

  datatype LargeAlloc = LargeAlloc(used: bool, va: nat, pa: nat, size: nat, order: nat)

  const NO_PAGE: SlabPage := SlabPage(false, 0, 0, 0, 0, 0, 0, 0, 0)
  const NO_LARGE: LargeAlloc := LargeAlloc(false, 0, 0, 0, 0)

  /** Where a live address points: object k of a slab page, or a large allocation. */
  datatype Place = Object(page: nat, k: nat) | Large(slot: nat)

  /** The record that holds a block of the buddy allocator. */
  datatype Record = PageRecord(page: nat) | LargeRecord(slot: nat)

  datatype State = State(base: nat, pages: seq<SlabPage>, large: seq<LargeAlloc>, partial: seq<seq<nat>>,
                         words: map<nat, nat>, chains: seq<seq<nat>>, live: map<nat, Place>,
                         holder: map<nat, Record>)

  function Span(order: nat): nat {
    PAGE_SIZE * Pow2(order)
  }

  /** The smallest order whose block holds `size` bytes. */
  predicate FitsOrder(size: nat, order: nat) {
    size <= Span(order) && (order > 0 ==> Span(order - 1) < size)
  }

  /** The smallest size class that holds `size` bytes. */
  ghost predicate FitsClass(size: nat, c: nat) {
    && c < |SLAB_SIZES| && size <= SLAB_SIZES[c]
    && forall d :: 0 <= d < |SLAB_SIZES| && size <= SLAB_SIZES[d] ==> SLAB_SIZES[c] <= SLAB_SIZES[d]
  }

  /** The address of object k in a block at va cut into objects of the given size. */
  function Addr(va: nat, size: nat, k: nat): nat {
    va + k * size
  }

  function AddrOf(p: SlabPage, k: nat): nat {
    Addr(p.va, p.objSize, k)
  }

  /** The free list starting at `head` runs through exactly the objects in `chain`, then ends. */
  ghost predicate Linked(words: map<nat, nat>, head: nat, va: nat, size: nat, chain: seq<nat>)
    decreases |chain|
  {
    if chain == [] then head == 0
    else head == Addr(va, size, chain[0]) && head in words && Linked(words, words[head], va, size, chain[1..])
  }

  /** No element twice, and all below n. */
  ghost predicate Distinct(chain: seq<nat>, n: nat) {
    && (forall x :: 0 <= x < |chain| ==> chain[x] < n)
    && (forall x, y :: 0 <= x < y < |chain| ==> chain[x] != chain[y])
  }

  // ---------------------------------------------------------------------------
  // The invariant
  // ---------------------------------------------------------------------------

  predicate UsedPage(s: State, i: nat) {
    i < |s.pages| && s.pages[i].used
  }

  predicate UsedLarge(s: State, j: nat) {
    j < |s.large| && s.large[j].used
  }

  ghost predicate PageSound(base: nat, p: SlabPage, chain: seq<nat>, words: map<nat, nat>) {
    && p.cache < |SLAB_SIZES| && p.objSize == SLAB_SIZES[p.cache] && FitsOrder(p.objSize, p.order)
    && p.capacity == Span(p.order) / p.objSize && p.pa > 0 && p.va == base + p.pa
    && p.inuse + |chain| == p.capacity && Distinct(chain, p.capacity)
    && Linked(words, p.freelist, p.va, p.objSize, chain)
  }

  ghost predicate LargeSound(base: nat, l: LargeAlloc) {
    SZ_8K < l.size <= SZ_4M && FitsOrder(l.size, l.order) && l.pa > 0 && l.va == base + l.pa
  }

  ghost predicate OwnsBlock(own: Own, pa: nat, order: nat) {
    pa == PfnToPa(PaToPfn(pa)) && IsBlock(own, Used, PaToPfn(pa), order)
  }

  ghost predicate RecordsSound(s: State) {
    && |s.chains| == |s.pages|
    && (forall i: nat :: UsedPage(s, i) ==> PageSound(s.base, s.pages[i], s.chains[i], s.words))
    && (forall j: nat :: UsedLarge(s, j) ==> LargeSound(s.base, s.large[j]))
    && (forall i :: 0 <= i < |s.pages| && !s.pages[i].used ==> s.pages[i] == NO_PAGE)
    && (forall j :: 0 <= j < |s.large| && !s.large[j].used ==> s.large[j] == NO_LARGE)
  }

  /** Every record in use holds a used block of its own. */
  ghost predicate HoldersSound(s: State, own: Own) {
    && (forall i: nat :: UsedPage(s, i) ==>
          && OwnsBlock(own, s.pages[i].pa, s.pages[i].order)
          && PaToPfn(s.pages[i].pa) in s.holder && s.holder[PaToPfn(s.pages[i].pa)] == PageRecord(i))
    && (forall j: nat :: UsedLarge(s, j) ==>
          && OwnsBlock(own, s.large[j].pa, s.large[j].order)
          && PaToPfn(s.large[j].pa) in s.holder && s.holder[PaToPfn(s.large[j].pa)] == LargeRecord(j))
    && (forall h: nat :: h in s.holder ==>
          match s.holder[h]
          case PageRecord(i) => UsedPage(s, i) && PaToPfn(s.pages[i].pa) == h
          case LargeRecord(j) => UsedLarge(s, j) && PaToPfn(s.large[j].pa) == h)
  }

  /** The list of a class holds its pages, once each. */
  ghost predicate ListsSound(s: State) {
    && |s.partial| == |SLAB_SIZES|
    && (forall c :: 0 <= c < |s.partial| ==>
          forall i: nat :: i in s.partial[c] <==> UsedPage(s, i) && s.pages[i].cache == c)
    && (forall c :: 0 <= c < |s.partial| ==> Distinct(s.partial[c], |s.pages|))
  }

  ghost predicate IsPlace(s: State, a: nat, place: Place)
    requires |s.chains| == |s.pages|
  {
    match place
    case Object(i, k) =>
      UsedPage(s, i) && k < s.pages[i].capacity && k !in s.chains[i] && a == AddrOf(s.pages[i], k)
    case Large(j) => UsedLarge(s, j) && a == s.large[j].va
  }

  /** The live addresses are exactly the objects on no free list and the large allocations. */
  ghost predicate LiveSound(s: State)
    requires |s.chains| == |s.pages|
  {
    && (forall a: nat :: a in s.live ==> IsPlace(s, a, s.live[a]))
    && (forall i: nat, k: nat :: UsedPage(s, i) && k < s.pages[i].capacity && k !in s.chains[i] ==>
          AddrOf(s.pages[i], k) in s.live && s.live[AddrOf(s.pages[i], k)] == Object(i, k))
    && (forall j: nat :: UsedLarge(s, j) ==> s.large[j].va in s.live && s.live[s.large[j].va] == Large(j))
  }

  ghost predicate Good(s: State, own: Own) {
    RecordsSound(s) && HoldersSound(s, own) && ListsSound(s) && LiveSound(s)
  }

  /** Between operations no page is held without a live object on it. */
  ghost predicate Busy(s: State) {
    forall i: nat :: UsedPage(s, i) ==> s.pages[i].inuse > 0
  }

  // ---------------------------------------------------------------------------
  // Separation
  // ---------------------------------------------------------------------------

  lemma {:induction false} AddrInjective(va: nat, size: nat, k: nat, k': nat)
    requires size > 0 && k < k'
    ensures Addr(va, size, k) + size <= Addr(va, size, k')
  {
    assert k' * size == k * size + (k' - k) * size;
    assert (k' - k) * size >= 1 * size by {
      assert (k' - k - 1) * size >= 0;
    }
  }

  lemma {:induction false} WholeObjects(span: nat, size: nat, k: nat)
    requires size > 0 && k < span / size
    ensures k * size + size <= span
  {
    var q := span / size;
    assert q * size <= span;
    assert (q - k - 1) * size >= 0;
    assert (q - k - 1) * size == q * size - k * size - size;
  }

  /** Objects lie inside the block of their page. */
  lemma {:induction false} ObjectInBlock(base: nat, p: SlabPage, chain: seq<nat>, words: map<nat, nat>, k: nat)
    requires PageSound(base, p, chain, words) && k < p.capacity
    ensures p.objSize >= 8 && p.va <= AddrOf(p, k) && AddrOf(p, k) + p.objSize <= p.va + Span(p.order)
  {
    hide FitsOrder, Linked, Distinct, Span;
    WholeObjects(Span(p.order), p.objSize, k);
    assert k * p.objSize >= 0;
  }

  /** Different used blocks occupy disjoint addresses. */
  lemma {:induction false} BlocksApart(own: Own, max: nat, pa: nat, order: nat, pa': nat, order': nat)
    requires Consistent(own, max) && OwnsBlock(own, pa, order) && OwnsBlock(own, pa', order')
    requires PaToPfn(pa) != PaToPfn(pa')
    ensures pa + Span(order) <= pa' || pa' + Span(order') <= pa
  {
    var h, h' := PaToPfn(pa), PaToPfn(pa');
    BlockFrames(own, max, Used, h, order);
    BlockFrames(own, max, Used, h', order');
    hide Consistent, PaToPfn;
  }

  /** Distinct pages in use occupy disjoint addresses. */
  lemma {:induction false} PagesApart(s: State, own: Own, max: nat, i: nat, i': nat)
    requires Good(s, own) && Consistent(own, max) && UsedPage(s, i) && UsedPage(s, i') && i != i'
    ensures s.pages[i].va + Span(s.pages[i].order) <= s.pages[i'].va
         || s.pages[i'].va + Span(s.pages[i'].order) <= s.pages[i].va
  {
    hide Consistent, OwnsBlock, PaToPfn, Linked, Distinct, FitsOrder, LiveSound, ListsSound, Span;
    BlocksApart(own, max, s.pages[i].pa, s.pages[i].order, s.pages[i'].pa, s.pages[i'].order);
  }

  lemma {:induction false} PageLargeApart(s: State, own: Own, max: nat, i: nat, j: nat)
    requires Good(s, own) && Consistent(own, max) && UsedPage(s, i) && UsedLarge(s, j)
    ensures s.pages[i].va + Span(s.pages[i].order) <= s.large[j].va
         || s.large[j].va + Span(s.large[j].order) <= s.pages[i].va
  {
    hide Consistent, OwnsBlock, PaToPfn, Linked, Distinct, FitsOrder, LiveSound, ListsSound, Span;
    BlocksApart(own, max, s.pages[i].pa, s.pages[i].order, s.large[j].pa, s.large[j].order);
  }

  lemma {:induction false} LargesApart(s: State, own: Own, max: nat, j: nat, j': nat)
    requires Good(s, own) && Consistent(own, max) && UsedLarge(s, j) && UsedLarge(s, j') && j != j'
    ensures s.large[j].va + Span(s.large[j].order) <= s.large[j'].va
         || s.large[j'].va + Span(s.large[j'].order) <= s.large[j].va
  {
    hide Consistent, OwnsBlock, PaToPfn, Linked, Distinct, FitsOrder, LiveSound, ListsSound, Span;
    BlocksApart(own, max, s.large[j].pa, s.large[j].order, s.large[j'].pa, s.large[j'].order);
  }

  /** The number of bytes that may be used at a place. */
  ghost function Extent(s: State, place: Place): nat {
    match place
    case Object(i, k) => if i < |s.pages| then s.pages[i].objSize else 0
    case Large(j) => if j < |s.large| then Span(s.large[j].order) else 0
  }

  /** The live addresses with their sizes in bytes. */
  ghost function Objects(s: State): map<nat, nat> {
    map a | a in s.live :: Extent(s, s.live[a])
  }

  /** A live object lies inside the block of its page. */
  lemma {:induction false} LiveInPage(s: State, own: Own, a: nat)
    requires Good(s, own) && a in s.live && s.live[a].Object?
    ensures UsedPage(s, s.live[a].page) && Extent(s, s.live[a]) >= 8
    ensures var p := s.pages[s.live[a].page]; p.va <= a && a + Extent(s, s.live[a]) <= p.va + Span(p.order)
  {
    hide HoldersSound, ListsSound, Span, AddrOf;
    var i, k := s.live[a].page, s.live[a].k;
    assert IsPlace(s, a, s.live[a]);
    ObjectInBlock(s.base, s.pages[i], s.chains[i], s.words, k);
  }

  /** Two objects of slab pages. */
  lemma {:induction false} ObjectsApart(s: State, own: Own, max: nat, a: nat, b: nat)
    requires Good(s, own) && Consistent(own, max) && a in s.live && b in s.live && a < b
    requires s.live[a].Object? && s.live[b].Object?
    ensures a + Extent(s, s.live[a]) <= b
  {
    hide Consistent, HoldersSound, ListsSound, Span;
    assert IsPlace(s, a, s.live[a]) && IsPlace(s, b, s.live[b]);
    var i, k, i', k' := s.live[a].page, s.live[a].k, s.live[b].page, s.live[b].k;
    LiveInPage(s, own, a);
    LiveInPage(s, own, b);
    if i != i' {
      PagesApart(s, own, max, i, i');
    } else if k < k' {
      AddrInjective(s.pages[i].va, s.pages[i].objSize, k, k');
    } else if k' < k {
      AddrInjective(s.pages[i].va, s.pages[i].objSize, k', k);
    }
  }

  /** Live objects never overlap. */
  lemma {:induction false} LiveDisjoint(s: State, own: Own, max: nat, a: nat, b: nat)
    requires Good(s, own) && Consistent(own, max) && a in Objects(s) && b in Objects(s) && a < b
    ensures a + Objects(s)[a] <= b
  {
    hide Consistent, HoldersSound, ListsSound, Span, AddrOf;
    assert IsPlace(s, a, s.live[a]) && IsPlace(s, b, s.live[b]);
    match (s.live[a], s.live[b])
    case (Object(_, _), Object(_, _)) =>
      ObjectsApart(s, own, max, a, b);
    case (Object(i, k), Large(j)) =>
      LiveInPage(s, own, a);
      PageLargeApart(s, own, max, i, j);
      SpanPositive(s.large[j].order);
    case (Large(j), Object(i, k)) =>
      LiveInPage(s, own, b);
      PageLargeApart(s, own, max, i, j);
    case (Large(j), Large(j')) =>
      LargesApart(s, own, max, j, j');
      SpanPositive(s.large[j'].order);
  }

  lemma {:induction false} SpanPositive(order: nat)
    ensures Span(order) >= PAGE_SIZE
  {
  }

  // ---------------------------------------------------------------------------
  // The steps
  // ---------------------------------------------------------------------------

  /** Words off the chain do not matter to it. */
  lemma {:induction false} LinkedFrame(words: map<nat, nat>, words': map<nat, nat>, head: nat, va: nat, size: nat,
                                       chain: seq<nat>)
    requires Linked(words, head, va, size, chain)
    requires forall k: nat :: k in chain && Addr(va, size, k) in words ==>
               Addr(va, size, k) in words' && words'[Addr(va, size, k)] == words[Addr(va, size, k)]
    ensures Linked(words', head, va, size, chain)
    decreases |chain|
  {
    if chain != [] {
      assert chain[0] in chain;
      assert forall k: nat :: k in chain[1..] ==> k in chain;
      LinkedFrame(words, words', words[head], va, size, chain[1..]);
    }
  }

  /** Memory outside [a, a + n) is as before. */
  ghost predicate SameOutside(words: map<nat, nat>, words': map<nat, nat>, a: nat, n: nat) {
    forall x: nat :: (x < a || a + n <= x) && x in words ==> x in words' && words'[x] == words[x]
  }

  /** A page whose block avoids the changed memory stays sound. */
  lemma {:induction false} PageFrame(base: nat, p: SlabPage, chain: seq<nat>, words: map<nat, nat>,
                                     words': map<nat, nat>, a: nat, n: nat)
    requires PageSound(base, p, chain, words) && SameOutside(words, words', a, n)
    requires p.va + Span(p.order) <= a || a + n <= p.va
    ensures PageSound(base, p, chain, words')
  {
    forall k: nat | k in chain
      ensures AddrOf(p, k) < a || a + n <= AddrOf(p, k)
    {
      ObjectInBlock(base, p, chain, words, k);
    }
    LinkedFrame(words, words', p.freelist, p.va, p.objSize, chain);
  }

  /** The block taken by Differ was nobody's, and all used blocks stay. */
  lemma {:induction false} NewBlock(idle: Own, busy: Own, h: nat, order: nat, pa: nat, order': nat)
    requires Differ(idle, busy, Used, h, order) && OwnsBlock(idle, pa, order')
    ensures PaToPfn(pa) != h && OwnsBlock(busy, pa, order')
  {
    hide PaToPfn;
    assert InBlock(h, h, order);
  }

  lemma {:induction false} NewOwned(idle: Own, busy: Own, pa: nat, order: nat)
    requires pa == PfnToPa(PaToPfn(pa)) && Differ(idle, busy, Used, PaToPfn(pa), order)
    ensures OwnsBlock(busy, pa, order)
  {
    hide PaToPfn, PfnToPa;
  }

  /** When a used block is freed, the other used blocks stay. */
  lemma {:induction false} OldBlock(idle: Own, busy: Own, h: nat, order: nat, pa: nat, order': nat)
    requires Differ(idle, busy, Used, h, order) && OwnsBlock(busy, pa, order') && PaToPfn(pa) != h
    ensures OwnsBlock(idle, pa, order')
  {
    hide PaToPfn;
  }

  // A new page ----------------------------------------------------------------

  ghost function Grow(s: State, i: nat, p: SlabPage, chain: seq<nat>, words: map<nat, nat>): State
    requires i < |s.pages| == |s.chains| && p.cache < |s.partial|
  {
    s.(pages := s.pages[i := p], chains := s.chains[i := chain], words := words,
       partial := s.partial[p.cache := [i] + s.partial[p.cache]],
       holder := s.holder[PaToPfn(p.pa) := PageRecord(i)])
  }

  ghost predicate CanGrow(s: State, own: Own, own': Own, i: nat, p: SlabPage, chain: seq<nat>, words: map<nat, nat>) {
    && Good(s, own) && i < |s.pages| && !s.pages[i].used && p.used && p.pa == PfnToPa(PaToPfn(p.pa))
    && Differ(own, own', Used, PaToPfn(p.pa), p.order)
    && PageSound(s.base, p, chain, words) && |chain| == p.capacity && (forall k: nat :: k < p.capacity ==> k in chain)
    && SameOutside(s.words, words, p.va, Span(p.order))
  }

  lemma {:induction false} GrowRecords(s: State, own: Own, own': Own, max: nat, i: nat, p: SlabPage, chain: seq<nat>,
                                       words: map<nat, nat>)
    requires CanGrow(s, own, own', i, p, chain, words) && Consistent(own', max)
    ensures |s.chains| == |s.pages| && |s.partial| == |SLAB_SIZES| && RecordsSound(Grow(s, i, p, chain, words))
  {
    assert |s.partial| == |SLAB_SIZES|;
    hide Consistent, PaToPfn, Differ, ListsSound, LiveSound, Linked, Distinct, FitsOrder, Span, IsBlock;
    NewOwned(own, own', p.pa, p.order);
    var s' := Grow(s, i, p, chain, words);
    forall i': nat | UsedPage(s', i')
      ensures PageSound(s'.base, s'.pages[i'], s'.chains[i'], s'.words)
    {
      if i' != i {
        var q := s.pages[i'];
        assert UsedPage(s, i');
        NewBlock(own, own', PaToPfn(p.pa), p.order, q.pa, q.order);
        BlocksApart(own', max, p.pa, p.order, q.pa, q.order);
        PageFrame(s.base, q, s.chains[i'], s.words, words, p.va, Span(p.order));
      }
    }
    forall j: nat | UsedLarge(s', j)
      ensures LargeSound(s'.base, s'.large[j])
    {
      assert UsedLarge(s, j);
    }
  }

  lemma {:induction false} GrowHolders(s: State, own: Own, own': Own, i: nat, p: SlabPage, chain: seq<nat>,
                                       words: map<nat, nat>)
    requires CanGrow(s, own, own', i, p, chain, words)
    ensures |s.chains| == |s.pages| && |s.partial| == |SLAB_SIZES| && HoldersSound(Grow(s, i, p, chain, words), own')
  {
    assert |s.partial| == |SLAB_SIZES|;
    assert p.cache < |s.partial|;
    hide PaToPfn, PfnToPa, Differ, ListsSound, LiveSound, PageSound, IsBlock, OwnsBlock;
    NewOwned(own, own', p.pa, p.order);
    var s', h := Grow(s, i, p, chain, words), PaToPfn(p.pa);
    forall i': nat | UsedPage(s', i') && i' != i
      ensures OwnsBlock(own', s'.pages[i'].pa, s'.pages[i'].order) && PaToPfn(s'.pages[i'].pa) != h
      ensures UsedPage(s, i')
    {
      assert UsedPage(s, i');
      NewBlock(own, own', h, p.order, s.pages[i'].pa, s.pages[i'].order);
    }
    forall j: nat | UsedLarge(s', j)
      ensures OwnsBlock(own', s'.large[j].pa, s'.large[j].order) && PaToPfn(s'.large[j].pa) != h && UsedLarge(s, j)
    {
      assert UsedLarge(s, j);
      NewBlock(own, own', h, p.order, s.large[j].pa, s.large[j].order);
    }
  }

  lemma {:induction false} GrowLists(s: State, own: Own, own': Own, i: nat, p: SlabPage, chain: seq<nat>,
                                     words: map<nat, nat>)
    requires CanGrow(s, own, own', i, p, chain, words)
    ensures |s.chains| == |s.pages| && |s.partial| == |SLAB_SIZES| && ListsSound(Grow(s, i, p, chain, words))
  {
    hide HoldersSound, LiveSound, Differ, Linked, FitsOrder, PaToPfn, PfnToPa;
    var s' := Grow(s, i, p, chain, words);
    var list := s.partial[p.cache];
    assert i !in list;
    assert forall x :: 0 <= x < |list| ==> list[x] in list;
    forall c, i': nat | 0 <= c < |s'.partial|
      ensures i' in s'.partial[c] <==> UsedPage(s', i') && s'.pages[i'].cache == c
    {
      assert i' in s.partial[c] <==> UsedPage(s, i') && s.pages[i'].cache == c;
    }
    forall c | 0 <= c < |s'.partial|
      ensures Distinct(s'.partial[c], |s'.pages|)
    {
      assert Distinct(s.partial[c], |s.pages|);
    }
  }

  lemma {:induction false} GrowLive(s: State, own: Own, own': Own, i: nat, p: SlabPage, chain: seq<nat>,
                                    words: map<nat, nat>)
    requires CanGrow(s, own, own', i, p, chain, words)
    ensures |s.chains| == |s.pages| && |s.partial| == |SLAB_SIZES| && LiveSound(Grow(s, i, p, chain, words))
  {
    assert p.cache < |s.partial|;
    hide HoldersSound, PageSound, Differ, PaToPfn, PfnToPa, AddrOf;
    var s' := Grow(s, i, p, chain, words);
    forall a: nat | a in s'.live
      ensures IsPlace(s', a, s'.live[a])
    {
      assert IsPlace(s, a, s.live[a]);
    }
    forall i': nat, k: nat | UsedPage(s', i') && k < s'.pages[i'].capacity && k !in s'.chains[i']
      ensures AddrOf(s'.pages[i'], k) in s'.live && s'.live[AddrOf(s'.pages[i'], k)] == Object(i', k)
    {
      assert UsedPage(s, i');
    }
    forall j: nat | UsedLarge(s', j)
      ensures s'.large[j].va in s'.live && s'.live[s'.large[j].va] == Large(j)
    {
      assert UsedLarge(s, j);
    }
  }

  lemma {:induction false} GrowGood(s: State, own: Own, own': Own, max: nat, i: nat, p: SlabPage, chain: seq<nat>,
                                    words: map<nat, nat>)
    requires CanGrow(s, own, own', i, p, chain, words) && Consistent(own', max)
    ensures |s.chains| == |s.pages| && |s.partial| == |SLAB_SIZES| && Good(Grow(s, i, p, chain, words), own')
  {
    hide CanGrow, RecordsSound, HoldersSound, ListsSound, LiveSound, Consistent, Grow;
    GrowRecords(s, own, own', max, i, p, chain, words);
    GrowHolders(s, own, own', i, p, chain, words);
    GrowLists(s, own, own', i, p, chain, words);
    GrowLive(s, own, own', i, p, chain, words);
  }

  // Taking the first free object ------------------------------------------------

  ghost function Take(s: State, i: nat): State
    requires i < |s.pages| == |s.chains| && s.chains[i] != [] && s.pages[i].freelist in s.words
  {
    var p, k := s.pages[i], s.chains[i][0];
    s.(pages := s.pages[i := p.(freelist := s.words[p.freelist], inuse := p.inuse + 1)],
       chains := s.chains[i := s.chains[i][1..]],
       live := s.live[p.freelist := Object(i, k)])
  }

  /** An object on a free list is not live. */
  lemma {:induction false} FreeNotLive(s: State, own: Own, max: nat, i: nat, k: nat)
    requires Good(s, own) && Consistent(own, max) && UsedPage(s, i) && |s.chains| == |s.pages| && k in s.chains[i]
    ensures AddrOf(s.pages[i], k) !in s.live
  {
    hide Consistent, HoldersSound, ListsSound, Span, Linked, FitsOrder;
    var a := AddrOf(s.pages[i], k);
    assert PageSound(s.base, s.pages[i], s.chains[i], s.words);
    ObjectInBlock(s.base, s.pages[i], s.chains[i], s.words, k);
    if a in s.live {
      assert IsPlace(s, a, s.live[a]);
      match s.live[a]
      case Object(i', k') =>
        if i' != i {
          PagesApart(s, own, max, i, i');
          LiveInPage(s, own, a);
        } else if k < k' {
          AddrInjective(s.pages[i].va, s.pages[i].objSize, k, k');
        } else if k' < k {
          AddrInjective(s.pages[i].va, s.pages[i].objSize, k', k);
        }
      case Large(j) =>
        PageLargeApart(s, own, max, i, j);
        SpanPositive(s.large[j].order);
    }
  }

  /** The free list of a page is empty exactly when its head is null; else the head is its first object. */
  lemma {:induction false} FreeListHead(s: State, own: Own, i: nat)
    requires Good(s, own) && UsedPage(s, i)
    ensures |s.chains| == |s.pages|
    ensures s.pages[i].freelist == 0 <==> s.chains[i] == []
    ensures s.chains[i] != [] ==>
              s.pages[i].freelist in s.words && s.pages[i].freelist == AddrOf(s.pages[i], s.chains[i][0])
  {
    hide HoldersSound, ListsSound, LiveSound, FitsOrder;
    var p := s.pages[i];
    assert PageSound(s.base, p, s.chains[i], s.words);
    if s.chains[i] != [] {
      ObjectInBlock(s.base, p, s.chains[i], s.words, s.chains[i][0]);
    }
  }

  lemma {:induction false} TakeLive(s: State, own: Own, max: nat, i: nat)
    requires Good(s, own) && Consistent(own, max) && UsedPage(s, i)
    requires |s.chains| == |s.pages| && s.chains[i] != [] && s.pages[i].freelist in s.words
    ensures s.pages[i].freelist !in s.live && LiveSound(Take(s, i))
  {
    hide Consistent, HoldersSound, ListsSound, AddrOf, Linked, FitsOrder, Span;
    var s', p, k := Take(s, i), s.pages[i], s.chains[i][0];
    var a := p.freelist;
    FreeListHead(s, own, i);
    FreeNotLive(s, own, max, i, k);
    assert PageSound(s.base, p, s.chains[i], s.words);
    assert s.chains[i] == [k] + s.chains[i][1..];
    assert k !in s.chains[i][1..];
    SameObjects(p, s'.pages[i]);
    forall b: nat | b in s'.live
      ensures IsPlace(s', b, s'.live[b])
    {
      if b != a {
        assert IsPlace(s, b, s.live[b]);
      }
    }
    forall i': nat, k': nat | UsedPage(s', i') && k' < s'.pages[i'].capacity && k' !in s'.chains[i']
      ensures AddrOf(s'.pages[i'], k') in s'.live && s'.live[AddrOf(s'.pages[i'], k')] == Object(i', k')
    {
      assert UsedPage(s, i');
      if i' == i && k' == k {
      } else {
        assert AddrOf(s.pages[i'], k') in s.live;
      }
    }
    forall j: nat | UsedLarge(s', j)
      ensures s'.large[j].va in s'.live && s'.live[s'.large[j].va] == Large(j)
    {
      assert UsedLarge(s, j);
    }
  }

  lemma {:induction false} SameObjects(p: SlabPage, q: SlabPage)
    requires p.va == q.va && p.objSize == q.objSize
    ensures forall k: nat :: AddrOf(q, k) == AddrOf(p, k)
  {
  }

  lemma {:induction false} TakeGood(s: State, own: Own, max: nat, i: nat)
    requires Good(s, own) && Consistent(own, max) && UsedPage(s, i)
    requires |s.chains| == |s.pages| && s.chains[i] != [] && s.pages[i].freelist in s.words
    ensures s.pages[i].freelist !in s.live && Good(Take(s, i), own)
  {
    TakeLive(s, own, max, i);
    hide Consistent, LiveSound, PaToPfn, OwnsBlock, FitsOrder;
    var s', p := Take(s, i), s.pages[i];
    assert PageSound(s.base, p, s.chains[i], s.words);
    assert RecordsSound(s') by {
      hide HoldersSound, ListsSound;
      forall i': nat | UsedPage(s', i')
        ensures PageSound(s'.base, s'.pages[i'], s'.chains[i'], s'.words)
      {
        assert UsedPage(s, i');
      }
      forall j: nat | UsedLarge(s', j)
        ensures LargeSound(s'.base, s'.large[j])
      {
        assert UsedLarge(s, j);
      }
    }
    SameRecords(s, s', own);
  }

  /** Holders and lists only depend on which records are used, and on their blocks and classes. */
  lemma {:induction false} SameRecords(s: State, s': State, own: Own)
    requires HoldersSound(s, own) && ListsSound(s) && s'.holder == s.holder && s'.partial == s.partial
    requires |s'.pages| == |s.pages| && s'.large == s.large
    requires forall i :: 0 <= i < |s.pages| ==>
               && s'.pages[i].used == s.pages[i].used && s'.pages[i].cache == s.pages[i].cache
               && s'.pages[i].pa == s.pages[i].pa && s'.pages[i].order == s.pages[i].order
    ensures HoldersSound(s', own) && ListsSound(s')
  {
    hide PaToPfn, OwnsBlock, Distinct;
    assert forall i: nat :: UsedPage(s', i) <==> UsedPage(s, i);
    assert forall j: nat :: UsedLarge(s', j) <==> UsedLarge(s, j);
    forall c, i: nat | 0 <= c < |s'.partial|
      ensures i in s'.partial[c] <==> UsedPage(s', i) && s'.pages[i].cache == c
    {
      assert i in s.partial[c] <==> UsedPage(s, i) && s.pages[i].cache == c;
    }
  }

  // Returning an object ---------------------------------------------------------

  ghost function Put(s: State, i: nat, k: nat): State
    requires i < |s.pages| == |s.chains| && s.pages[i].inuse > 0
  {
    var p := s.pages[i];
    var a := AddrOf(p, k);
    s.(words := s.words[a := p.freelist], pages := s.pages[i := p.(freelist := a, inuse := p.inuse - 1)],
       chains := s.chains[i := [k] + s.chains[i]], live := s.live - {a})
  }

  /** A live object is on its page and not on the page's free list. */
  lemma {:induction false} LiveObject(s: State, own: Own, a: nat)
    requires Good(s, own) && a in s.live && s.live[a].Object?
    ensures var i, k := s.live[a].page, s.live[a].k;
            && |s.chains| == |s.pages| && UsedPage(s, i) && k < s.pages[i].capacity && a == AddrOf(s.pages[i], k)
            && k !in s.chains[i] && s.pages[i].inuse > 0
  {
    hide HoldersSound, ListsSound, Linked, FitsOrder, AddrOf;
    var i, k := s.live[a].page, s.live[a].k;
    assert IsPlace(s, a, s.live[a]);
    var p := s.pages[i];
    assert PageSound(s.base, p, s.chains[i], s.words);
    FullChain(s.chains[i], p.capacity, k);
  }

  /** A chain that misses an element is shorter than the capacity. */
  lemma {:induction false} FullChain(chain: seq<nat>, n: nat, k: nat)
    requires Distinct(chain, n) && k < n && k !in chain
    ensures |chain| < n
  {
    Counting(chain, n);
    RangeSize(0, n);
    hide Range;
    Smaller(Elements(chain), Range(0, n) - {k});
  }

  ghost function Elements(chain: seq<nat>): set<nat> {
    if chain == [] then {} else {chain[0]} + Elements(chain[1..])
  }

  lemma {:induction false} Counting(chain: seq<nat>, n: nat)
    requires Distinct(chain, n)
    ensures |Elements(chain)| == |chain| && forall x: nat :: x in Elements(chain) <==> x in chain
  {
    if chain != [] {
      var rest := chain[1..];
      assert chain == [chain[0]] + rest;
      assert Distinct(rest, n) && chain[0] !in rest by {
        assert forall x :: 0 <= x < |rest| ==> rest[x] == chain[x + 1];
      }
      hide Distinct;
      Counting(rest, n);
    }
  }

  /** A chain as long as the capacity holds every object. */
  lemma {:induction false} AllOnChain(chain: seq<nat>, n: nat)
    requires Distinct(chain, n) && |chain| == n
    ensures forall k: nat :: k < n ==> k in chain
  {
    forall k: nat | k < n
      ensures k in chain
    {
      if k !in chain {
        FullChain(chain, n, k);
      }
    }
  }

  lemma {:induction false} PutPage(base: nat, p: SlabPage, chain: seq<nat>, words: map<nat, nat>, k: nat)
    requires PageSound(base, p, chain, words) && k < p.capacity && k !in chain && p.inuse > 0
    ensures var a := AddrOf(p, k);
            PageSound(base, p.(freelist := a, inuse := p.inuse - 1), [k] + chain, words[a := p.freelist])
  {
    hide FitsOrder;
    var a := AddrOf(p, k);
    var words' := words[a := p.freelist];
    forall k': nat | k' in chain
      ensures Addr(p.va, p.objSize, k') != a
    {
      if k < k' {
        AddrInjective(p.va, p.objSize, k, k');
      } else {
        AddrInjective(p.va, p.objSize, k', k);
      }
    }
    hide Addr;
    LinkedFrame(words, words', p.freelist, p.va, p.objSize, chain);
    assert ([k] + chain)[1..] == chain;
    assert Linked(words', a, p.va, p.objSize, [k] + chain);
  }

  lemma {:induction false} PutRecords(s: State, own: Own, max: nat, i: nat, k: nat)
    requires Good(s, own) && Consistent(own, max) && UsedPage(s, i) && |s.chains| == |s.pages|
    requires k < s.pages[i].capacity && k !in s.chains[i] && s.pages[i].inuse > 0
    ensures RecordsSound(Put(s, i, k))
  {
    hide Consistent, HoldersSound, ListsSound, LiveSound, PageSound, AddrOf, Span;
    var s', p := Put(s, i, k), s.pages[i];
    PutPage(s.base, p, s.chains[i], s.words, k);
    ObjectInBlock(s.base, p, s.chains[i], s.words, k);
    forall i': nat | UsedPage(s', i')
      ensures PageSound(s'.base, s'.pages[i'], s'.chains[i'], s'.words)
    {
      assert UsedPage(s, i');
      if i' != i {
        PagesApart(s, own, max, i, i');
        PageFrame(s.base, s.pages[i'], s.chains[i'], s.words, s'.words, p.va, Span(p.order));
      }
    }
    forall j: nat | UsedLarge(s', j)
      ensures LargeSound(s'.base, s'.large[j])
    {
      assert UsedLarge(s, j);
    }
  }

  lemma {:induction false} PutLive(s: State, own: Own, i: nat, k: nat)
    requires Good(s, own) && UsedPage(s, i) && |s.chains| == |s.pages| && s.pages[i].inuse > 0
    requires AddrOf(s.pages[i], k) in s.live && s.live[AddrOf(s.pages[i], k)] == Object(i, k)
    ensures LiveSound(Put(s, i, k))
  {
    hide RecordsSound, HoldersSound, ListsSound, AddrOf;
    var s', p := Put(s, i, k), s.pages[i];
    var a := AddrOf(p, k);
    SameObjects(p, s'.pages[i]);
    forall b: nat | b in s'.live
      ensures IsPlace(s', b, s'.live[b])
    {
      assert IsPlace(s, b, s.live[b]);
    }
    forall i': nat, k': nat | UsedPage(s', i') && k' < s'.pages[i'].capacity && k' !in s'.chains[i']
      ensures AddrOf(s'.pages[i'], k') in s'.live && s'.live[AddrOf(s'.pages[i'], k')] == Object(i', k')
    {
      assert UsedPage(s, i') && k' !in s.chains[i'];
      assert AddrOf(s.pages[i'], k') in s.live;
    }
    forall j: nat | UsedLarge(s', j)
      ensures s'.large[j].va in s'.live && s'.live[s'.large[j].va] == Large(j)
    {
      assert UsedLarge(s, j);
    }
  }

  lemma {:induction false} PutGood(s: State, own: Own, max: nat, i: nat, k: nat)
    requires Good(s, own) && Consistent(own, max) && UsedPage(s, i) && |s.chains| == |s.pages| && s.pages[i].inuse > 0
    requires AddrOf(s.pages[i], k) in s.live && s.live[AddrOf(s.pages[i], k)] == Object(i, k)
    ensures Good(Put(s, i, k), own)
  {
    hide Consistent, HoldersSound, ListsSound, RecordsSound, AddrOf;
    assert IsPlace(s, AddrOf(s.pages[i], k), Object(i, k));
    PutRecords(s, own, max, i, k);
    PutLive(s, own, i, k);
    hide LiveSound;
    SameRecords(s, Put(s, i, k), own);
  }

  // Giving back an empty page ------------------------------------------------------

  ghost function Drop(s: State, i: nat): State
    requires i < |s.pages| == |s.chains| && s.pages[i].cache < |s.partial|
  {
    var p := s.pages[i];
    s.(pages := s.pages[i := NO_PAGE], chains := s.chains[i := []],
       partial := s.partial[p.cache := Unlink(s.partial[p.cache], i)], holder := s.holder - {PaToPfn(p.pa)})
  }

  ghost predicate CanDrop(s: State, own: Own, own': Own, i: nat) {
    && Good(s, own) && UsedPage(s, i) && s.pages[i].inuse == 0
    && Differ(own', own, Used, PaToPfn(s.pages[i].pa), s.pages[i].order)
  }

  lemma {:induction false} DropShape(s: State, own: Own, i: nat)
    requires Good(s, own) && UsedPage(s, i)
    ensures |s.chains| == |s.pages| && s.pages[i].cache < |s.partial| == |SLAB_SIZES|
    ensures i in s.partial[s.pages[i].cache] && Distinct(s.partial[s.pages[i].cache], |s.pages|)
    ensures PageSound(s.base, s.pages[i], s.chains[i], s.words) && OwnsBlock(own, s.pages[i].pa, s.pages[i].order)
  {
    hide LiveSound, Linked, FitsOrder, PaToPfn, PfnToPa;
    assert PageSound(s.base, s.pages[i], s.chains[i], s.words);
    assert s.pages[i].cache < |s.partial|;
  }

  lemma {:induction false} DropHolders(s: State, own: Own, own': Own, i: nat)
    requires CanDrop(s, own, own', i) && |s.chains| == |s.pages| && s.pages[i].cache < |s.partial|
    ensures HoldersSound(Drop(s, i), own')
  {
    hide PaToPfn, PfnToPa, Differ, ListsSound, LiveSound, RecordsSound, OwnsBlock, Unlink;
    var s', p, h := Drop(s, i), s.pages[i], PaToPfn(s.pages[i].pa);
    forall i': nat | UsedPage(s', i')
      ensures OwnsBlock(own', s'.pages[i'].pa, s'.pages[i'].order) && PaToPfn(s'.pages[i'].pa) != h && UsedPage(s, i')
    {
      assert UsedPage(s, i') && i' != i;
      OldBlock(own', own, h, p.order, s.pages[i'].pa, s.pages[i'].order);
    }
    forall j: nat | UsedLarge(s', j)
      ensures OwnsBlock(own', s'.large[j].pa, s'.large[j].order) && PaToPfn(s'.large[j].pa) != h && UsedLarge(s, j)
    {
      assert UsedLarge(s, j);
      OldBlock(own', own, h, p.order, s.large[j].pa, s.large[j].order);
    }
    forall g: nat | g in s'.holder
      ensures match s'.holder[g]
              case PageRecord(i') => UsedPage(s', i') && PaToPfn(s'.pages[i'].pa) == g
              case LargeRecord(j) => UsedLarge(s', j) && PaToPfn(s'.large[j].pa) == g
    {
      assert g in s.holder && g != h;
      if s.holder[g].PageRecord? {
        assert s.holder[g].page != i;
      }
    }
  }

  lemma {:induction false} DropLists(s: State, own: Own, i: nat)
    requires Good(s, own) && UsedPage(s, i) && |s.chains| == |s.pages| && s.pages[i].cache < |s.partial|
    ensures ListsSound(Drop(s, i))
  {
    hide HoldersSound, LiveSound, RecordsSound, PaToPfn, Unlink;
    DropShape(s, own, i);
    var s', c0 := Drop(s, i), s.pages[i].cache;
    UnlinkList(s.partial[c0], i);
    forall c, i': nat | 0 <= c < |s'.partial|
      ensures i' in s'.partial[c] <==> UsedPage(s', i') && s'.pages[i'].cache == c
    {
      assert i' in s.partial[c] <==> UsedPage(s, i') && s.pages[i'].cache == c;
    }
    var list := s'.partial[c0];
    forall x | 0 <= x < |list|
      ensures list[x] < |s'.pages|
    {
      assert list[x] in list;
    }
    forall c | 0 <= c < |s'.partial|
      ensures Distinct(s'.partial[c], |s'.pages|)
    {
      assert Distinct(s.partial[c], |s.pages|);
    }
  }

  lemma {:induction false} DropLive(s: State, own: Own, i: nat)
    requires Good(s, own) && UsedPage(s, i) && s.pages[i].inuse == 0
    requires |s.chains| == |s.pages| && s.pages[i].cache < |s.partial|
    ensures RecordsSound(Drop(s, i)) && LiveSound(Drop(s, i))
  {
    hide HoldersSound, ListsSound, Linked, FitsOrder, PaToPfn, Unlink, AddrOf;
    var s', p := Drop(s, i), s.pages[i];
    assert PageSound(s.base, p, s.chains[i], s.words);
    AllOnChain(s.chains[i], p.capacity);
    hide Distinct;
    forall a: nat | a in s'.live
      ensures IsPlace(s', a, s'.live[a])
    {
      assert IsPlace(s, a, s.live[a]);
    }
    forall i': nat | UsedPage(s', i')
      ensures UsedPage(s, i') && i' != i
    {
    }
    forall j: nat | UsedLarge(s', j)
      ensures UsedLarge(s, j)
    {
    }
  }

  lemma {:induction false} DropGood(s: State, own: Own, own': Own, i: nat)
    requires CanDrop(s, own, own', i)
    ensures |s.chains| == |s.pages| && s.pages[i].cache < |s.partial| && Good(Drop(s, i), own')
  {
    hide RecordsSound, HoldersSound, ListsSound, LiveSound, Drop, Differ, PaToPfn;
    DropShape(s, own, i);
    DropHolders(s, own, own', i);
    DropLists(s, own, i);
    DropLive(s, own, i);
  }

  // Large allocations --------------------------------------------------------------

  ghost function Enlarge(s: State, j: nat, l: LargeAlloc): State
    requires j < |s.large|
  {
    s.(large := s.large[j := l], live := s.live[l.va := Large(j)], holder := s.holder[PaToPfn(l.pa) := LargeRecord(j)])
  }

  ghost predicate CanEnlarge(s: State, own: Own, own': Own, j: nat, l: LargeAlloc) {
    && Good(s, own) && j < |s.large| && !s.large[j].used && l.used && l.pa == PfnToPa(PaToPfn(l.pa))
    && LargeSound(s.base, l) && Differ(own, own', Used, PaToPfn(l.pa), l.order)
  }

  /** The address of a fresh block is not live. */
  lemma {:induction false} FreshNotLive(s: State, own: Own, own': Own, max: nat, j: nat, l: LargeAlloc)
    requires CanEnlarge(s, own, own', j, l) && Consistent(own', max)
    ensures l.va !in s.live
  {
    hide Consistent, PaToPfn, PfnToPa, Differ, ListsSound, IsBlock, OwnsBlock, Span;
    NewOwned(own, own', l.pa, l.order);
    if l.va in s.live {
      assert IsPlace(s, l.va, s.live[l.va]);
      SpanPositive(l.order);
      match s.live[l.va]
      case Object(i, k) =>
        NewBlock(own, own', PaToPfn(l.pa), l.order, s.pages[i].pa, s.pages[i].order);
        BlocksApart(own', max, l.pa, l.order, s.pages[i].pa, s.pages[i].order);
        assert PageSound(s.base, s.pages[i], s.chains[i], s.words);
        LiveInPage(s, own, l.va);
      case Large(j') =>
        NewBlock(own, own', PaToPfn(l.pa), l.order, s.large[j'].pa, s.large[j'].order);
    }
  }

  lemma {:induction false} EnlargeHolders(s: State, own: Own, own': Own, j: nat, l: LargeAlloc)
    requires CanEnlarge(s, own, own', j, l)
    ensures HoldersSound(Enlarge(s, j, l), own')
  {
    hide PaToPfn, PfnToPa, Differ, ListsSound, LiveSound, RecordsSound, IsBlock, OwnsBlock;
    NewOwned(own, own', l.pa, l.order);
    var s', h := Enlarge(s, j, l), PaToPfn(l.pa);
    forall i: nat | UsedPage(s', i)
      ensures OwnsBlock(own', s'.pages[i].pa, s'.pages[i].order) && PaToPfn(s'.pages[i].pa) != h && UsedPage(s, i)
    {
      assert UsedPage(s, i);
      NewBlock(own, own', h, l.order, s.pages[i].pa, s.pages[i].order);
    }
    forall j': nat | UsedLarge(s', j') && j' != j
      ensures OwnsBlock(own', s'.large[j'].pa, s'.large[j'].order) && PaToPfn(s'.large[j'].pa) != h && UsedLarge(s, j')
    {
      assert UsedLarge(s, j');
      NewBlock(own, own', h, l.order, s.large[j'].pa, s.large[j'].order);
    }
  }

  /** Records, lists and live addresses when one large record changes. */
  lemma {:induction false} LargeRest(s: State, s': State, own: Own, j: nat)
    requires Good(s, own) && j < |s.large| == |s'.large|
    requires s' == s.(large := s'.large, live := s'.live, holder := s'.holder)
    requires forall j' :: 0 <= j' < |s.large| && j' != j ==> s'.large[j'] == s.large[j']
    requires UsedLarge(s', j) ==>
               && !UsedLarge(s, j) && LargeSound(s.base, s'.large[j])
               && s'.large[j].va !in s.live && s'.live == s.live[s'.large[j].va := Large(j)]
    requires !UsedLarge(s', j) ==> UsedLarge(s, j) && s'.large[j] == NO_LARGE && s'.live == s.live - {s.large[j].va}
    ensures RecordsSound(s') && ListsSound(s') && LiveSound(s')
  {
    hide HoldersSound, PageSound, LargeSound, Distinct, AddrOf;
    assert forall i: nat :: UsedPage(s', i) <==> UsedPage(s, i);
    forall j': nat | UsedLarge(s', j') && j' != j
      ensures UsedLarge(s, j')
    {
    }
    assert RecordsSound(s');
    forall c, i: nat | 0 <= c < |s'.partial|
      ensures i in s'.partial[c] <==> UsedPage(s', i) && s'.pages[i].cache == c
    {
      assert i in s.partial[c] <==> UsedPage(s, i) && s.pages[i].cache == c;
    }
    hide ListsSound, RecordsSound;
    forall a: nat | a in s'.live
      ensures IsPlace(s', a, s'.live[a])
    {
      if a in s.live {
        assert IsPlace(s, a, s.live[a]);
      }
    }
    forall i: nat, k: nat | UsedPage(s', i) && k < s'.pages[i].capacity && k !in s'.chains[i]
      ensures AddrOf(s'.pages[i], k) in s'.live && s'.live[AddrOf(s'.pages[i], k)] == Object(i, k)
    {
      assert AddrOf(s.pages[i], k) in s.live;
    }
  }

  lemma {:induction false} EnlargeGood(s: State, own: Own, own': Own, max: nat, j: nat, l: LargeAlloc)
    requires CanEnlarge(s, own, own', j, l) && Consistent(own', max)
    ensures l.va !in s.live && Good(Enlarge(s, j, l), own')
  {
    FreshNotLive(s, own, own', max, j, l);
    EnlargeHolders(s, own, own', j, l);
    hide Consistent, PaToPfn, PfnToPa, Differ, ListsSound, LiveSound, RecordsSound, HoldersSound, LargeSound;
    LargeRest(s, Enlarge(s, j, l), own, j);
  }

  ghost function Release(s: State, j: nat): State
    requires j < |s.large|
  {
    s.(large := s.large[j := NO_LARGE], live := s.live - {s.large[j].va}, holder := s.holder - {PaToPfn(s.large[j].pa)})
  }

  lemma {:induction false} ReleaseGood(s: State, own: Own, own': Own, j: nat)
    requires Good(s, own) && UsedLarge(s, j) && Differ(own', own, Used, PaToPfn(s.large[j].pa), s.large[j].order)
    ensures Good(Release(s, j), own')
  {
    hide PaToPfn, PfnToPa, Differ, ListsSound, LiveSound, RecordsSound, OwnsBlock;
    var s', l, h := Release(s, j), s.large[j], PaToPfn(s.large[j].pa);
    LargeRest(s, s', own, j);
    forall i: nat | UsedPage(s', i)
      ensures OwnsBlock(own', s'.pages[i].pa, s'.pages[i].order) && PaToPfn(s'.pages[i].pa) != h && UsedPage(s, i)
    {
      assert UsedPage(s, i);
      OldBlock(own', own, h, l.order, s.pages[i].pa, s.pages[i].order);
    }
    forall j': nat | UsedLarge(s', j')
      ensures OwnsBlock(own', s'.large[j'].pa, s'.large[j'].order) && PaToPfn(s'.large[j'].pa) != h && UsedLarge(s, j')
    {
      assert UsedLarge(s, j') && j' != j;
      OldBlock(own', own, h, l.order, s.large[j'].pa, s.large[j'].order);
    }
    forall g: nat | g in s'.holder
      ensures match s'.holder[g]
              case PageRecord(i) => UsedPage(s', i) && PaToPfn(s'.pages[i].pa) == g
              case LargeRecord(j') => UsedLarge(s', j') && PaToPfn(s'.large[j'].pa) == g
    {
      assert g in s.holder && g != h;
      if s.holder[g].LargeRecord? {
        assert s.holder[g].slot != j;
      }
    }
  }

  // ---------------------------------------------------------------------------
  // What lookups find
  // ---------------------------------------------------------------------------

  /** The block of page i contains address a. */
  predicate Spans(s: State, i: nat, a: nat) {
    UsedPage(s, i) && s.pages[i].va <= a < s.pages[i].va + Span(s.pages[i].order)
  }

  /** The page found by address is the page of the object. */
  lemma {:induction false} PageFound(s: State, own: Own, max: nat, a: nat, i: nat)
    requires Good(s, own) && Consistent(own, max) && a in s.live && s.live[a].Object? && Spans(s, i, a)
    ensures s.live[a].page == i
  {
    hide Consistent, RecordsSound, HoldersSound, ListsSound, LiveSound, Span;
    LiveInPage(s, own, a);
    if s.live[a].page != i {
      PagesApart(s, own, max, i, s.live[a].page);
    }
  }

  /** An element is missing from a chain that is too short. */
  lemma {:induction false} Missing(chain: seq<nat>, n: nat) returns (k: nat)
    requires Distinct(chain, n) && |chain| < n
    ensures k < n && k !in chain
  {
    Counting(chain, n);
    RangeSize(0, n);
    hide Range;
    if Range(0, n) <= Elements(chain) {
      Smaller(Range(0, n), Elements(chain));
    }
    k :| k in Range(0, n) && k !in Elements(chain);
  }

  /** The page of a live object has no other live object. */
  ghost predicate LastOnPage(s: State, a: nat) {
    && a in s.live && s.live[a].Object?
    && forall b :: b in s.live && s.live[b].Object? && s.live[b].page == s.live[a].page ==> b == a
  }

  /** The counter of a page tells whether an object is its last one. */
  lemma {:induction false} LastCounted(s: State, own: Own, a: nat)
    requires Good(s, own) && a in s.live && s.live[a].Object?
    ensures UsedPage(s, s.live[a].page)
    ensures LastOnPage(s, a) <==> s.pages[s.live[a].page].inuse == 1
  {
    hide HoldersSound, ListsSound, Linked, FitsOrder, AddrOf, Addr;
    LiveObject(s, own, a);
    var i, k := s.live[a].page, s.live[a].k;
    var p, chain := s.pages[i], s.chains[i];
    assert PageSound(s.base, p, chain, s.words);
    var chain' := [k] + chain;
    assert Distinct(chain', p.capacity);
    if p.inuse == 1 {
      AllOnChain(chain', p.capacity);
      forall b | b in s.live && s.live[b].Object? && s.live[b].page == i
        ensures b == a
      {
        assert IsPlace(s, b, s.live[b]);
        assert s.live[b].k in chain';
      }
    } else {
      var k2 := Missing(chain', p.capacity);
      assert k2 !in chain && AddrOf(p, k2) in s.live && s.live[AddrOf(p, k2)] == Object(i, k2);
    }
  }

  /** A page that is held between operations has a live object. */
  lemma {:induction false} PageHasLive(s: State, own: Own, i: nat) returns (k: nat)
    requires Good(s, own) && Busy(s) && UsedPage(s, i)
    ensures AddrOf(s.pages[i], k) in s.live && s.live[AddrOf(s.pages[i], k)] == Object(i, k)
  {
    hide ListsSound, HoldersSound, Linked, FitsOrder, AddrOf;
    assert PageSound(s.base, s.pages[i], s.chains[i], s.words);
    k := Missing(s.chains[i], s.pages[i].capacity);
    assert AddrOf(s.pages[i], k) in s.live;
  }

  /** When nothing is live no block is held. */
  lemma {:induction false} NothingLive(s: State, own: Own)
    requires Good(s, own) && Busy(s) && s.live == map[]
    ensures s.holder == map[]
  {
    hide ListsSound, RecordsSound, PaToPfn, AddrOf, OwnsBlock;
    forall i: nat
      ensures !UsedPage(s, i)
    {
      if UsedPage(s, i) {
        var k := PageHasLive(s, own, i);
      }
    }
    assert forall j: nat :: !UsedLarge(s, j);
    assert forall h: nat :: h !in s.holder;
  }

  // ---------------------------------------------------------------------------
  // The rest of the kernel
  // ---------------------------------------------------------------------------

  /** A store into a live object reaches no link of a free list. */
  lemma {:induction false} StoreGood(s: State, own: Own, max: nat, o: nat, a: nat, v: nat)
    requires Good(s, own) && Consistent(own, max) && o in Objects(s) && o <= a < o + Objects(s)[o]
    ensures Good(s.(words := s.words[a := v]), own)
  {
    hide Consistent, HoldersSound, ListsSound, Span, Linked, FitsOrder;
    var s' := s.(words := s.words[a := v]);
    forall i: nat | UsedPage(s', i)
      ensures PageSound(s'.base, s'.pages[i], s'.chains[i], s'.words)
    {
      assert UsedPage(s, i);
      var p, chain := s.pages[i], s.chains[i];
      forall k: nat | k in chain
        ensures AddrOf(p, k) != a
      {
        FreeNotHit(s, own, max, i, k, o);
      }
      LinkedFrame(s.words, s'.words, p.freelist, p.va, p.objSize, chain);
    }
    assert forall j: nat :: UsedLarge(s', j) <==> UsedLarge(s, j);
    assert RecordsSound(s');
    hide RecordsSound;
    SameRecords(s, s', own);
    assert LiveSound(s') by {
      forall b: nat | b in s'.live
        ensures IsPlace(s', b, s'.live[b])
      {
        assert IsPlace(s, b, s.live[b]);
      }
      forall i: nat, k: nat | UsedPage(s', i) && k < s'.pages[i].capacity && k !in s'.chains[i]
        ensures AddrOf(s'.pages[i], k) in s'.live && s'.live[AddrOf(s'.pages[i], k)] == Object(i, k)
      {
        assert UsedPage(s, i);
        assert AddrOf(s.pages[i], k) in s.live;
      }
    }
  }

  /** The word that links a free object lies outside every live one. */
  lemma {:induction false} FreeNotHit(s: State, own: Own, max: nat, i: nat, k: nat, o: nat)
    requires Good(s, own) && Consistent(own, max) && UsedPage(s, i) && |s.chains| == |s.pages| && k in s.chains[i]
    requires o in s.live
    ensures AddrOf(s.pages[i], k) + 8 <= o || o + Extent(s, s.live[o]) <= AddrOf(s.pages[i], k)
  {
    hide Consistent, HoldersSound, ListsSound, Span, Linked, FitsOrder;
    assert PageSound(s.base, s.pages[i], s.chains[i], s.words);
    assert k < s.pages[i].capacity;
    ObjectInBlock(s.base, s.pages[i], s.chains[i], s.words, k);
    assert IsPlace(s, o, s.live[o]);
    match s.live[o]
    case Object(i', k') =>
      if i' != i {
        PagesApart(s, own, max, i, i');
        LiveInPage(s, own, o);
      } else if k < k' {
        AddrInjective(s.pages[i].va, s.pages[i].objSize, k, k');
      } else {
        AddrInjective(s.pages[i].va, s.pages[i].objSize, k', k);
      }
    case Large(j) =>
      PageLargeApart(s, own, max, i, j);
  }

  /** Blocks that others take from the buddy allocator, or give back, are not ours. */
  lemma {:induction false} OthersGood(s: State, own: Own, own': Own, h: nat, order: nat)
    requires Good(s, own) && h !in s.holder
    requires Differ(own, own', Used, h, order) || Differ(own', own, Used, h, order)
    ensures Good(s, own')
  {
    hide PaToPfn, PfnToPa, Differ, ListsSound, LiveSound, RecordsSound, IsBlock, OwnsBlock;
    forall i: nat | UsedPage(s, i)
      ensures OwnsBlock(own', s.pages[i].pa, s.pages[i].order)
    {
      if Differ(own, own', Used, h, order) {
        NewBlock(own, own', h, order, s.pages[i].pa, s.pages[i].order);
      } else {
        OldBlock(own', own, h, order, s.pages[i].pa, s.pages[i].order);
      }
    }
    forall j: nat | UsedLarge(s, j)
      ensures OwnsBlock(own', s.large[j].pa, s.large[j].order)
    {
      if Differ(own, own', Used, h, order) {
        NewBlock(own, own', h, order, s.large[j].pa, s.large[j].order);
      } else {
        OldBlock(own', own, h, order, s.large[j].pa, s.large[j].order);
      }
    }
  }
}
