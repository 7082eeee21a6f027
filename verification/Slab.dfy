/** The slab allocator over the buddy allocator. */
module Slab {
  import opened Common
  import opened BuddyBlocks
  import opened BuddyModel
  import opened Buddy
  import opened SlabModel

  /** No record of the pool is unused. */
  ghost predicate NoSparePage(s: State) {
    forall i :: 0 <= i < |s.pages| ==> s.pages[i].used
  }

  ghost predicate NoSpareLarge(s: State) {
    forall j :: 0 <= j < |s.large| ==> s.large[j].used
  }

  /** No page of the class has a free object. */
  ghost predicate ClassFull(s: State, c: nat)
    requires |s.chains| == |s.pages|
  {
    forall i: nat :: UsedPage(s, i) && s.pages[i].cache == c ==> s.chains[i] == []
  }

  /** The buddy allocator has no block of the order to give. */
  ghost predicate NoBlock(own: Own, max: nat, order: nat) {
    order > max || forall h: nat :: !FreeRun(own, h, order)
  }

  lemma {:induction false} OrderUnique(size: nat, a: nat, b: nat)
    requires FitsOrder(size, a) && FitsOrder(size, b)
    ensures a == b
  {
    if a < b {
      Pow2Monotone(a, b - 1);
    } else if b < a {
      Pow2Monotone(b, a - 1);
    }
  }

  lemma {:induction false} ClassUnique(size: nat, c: nat, d: nat)
    requires FitsClass(size, c) && FitsClass(size, d)
    ensures c == d
  {
    assert SLAB_SIZES[c] == SLAB_SIZES[d];
  }

  /** Pushing the next object of the block onto the free list. */
  lemma {:induction false} PushObject(words: map<nat, nat>, head: nat, va: nat, size: nat, chain: seq<nat>, k: nat)
    requires Linked(words, head, va, size, chain) && Distinct(chain, k) && size > 0
    ensures Linked(words[Addr(va, size, k) := head], Addr(va, size, k), va, size, [k] + chain)
    ensures Distinct([k] + chain, k + 1)
  {
    var words' := words[Addr(va, size, k) := head];
    forall k': nat | k' in chain
      ensures Addr(va, size, k') != Addr(va, size, k)
    {
      AddrInjective(va, size, k', k);
    }
    hide Addr;
    LinkedFrame(words, words', head, va, size, chain);
    assert ([k] + chain)[1..] == chain;
  }

  lemma {:induction false} InSpan(span: nat, size: nat, k: nat, va: nat)
    requires size > 0 && k < span / size
    ensures va <= Addr(va, size, k) < va + span
  {
    WholeObjects(span, size, k);
    assert k * size >= 0;
  }

  /** An unused record is cleared. */
  lemma {:induction false} Cleared(s: State, own: Own, i: nat)
    requires Good(s, own) && i < |s.pages| && !s.pages[i].used
    ensures s.pages[i] == NO_PAGE && |s.chains| == |s.pages|
  {
  }

  /** From s to s', the unused record i became a page of class c with all objects free. */
  ghost predicate Added(s: State, s': State, i: nat, c: nat) {
    && |s.pages| == |s'.pages| == |s.chains| == |s'.chains| && !UsedPage(s, i) && UsedPage(s', i)
    && s'.pages[i].cache == c && s'.pages[i].inuse == 0 && s'.chains[i] != []
    && s'.pages == s.pages[i := s'.pages[i]] && s'.chains == s.chains[i := s'.chains[i]]
    && s'.large == s.large && s'.live == s.live
  }

  /** A record filled in for a fresh block with all objects threaded keeps the invariant. */
  lemma {:induction false} NewPage(s: State, own: Own, own': Own, max: nat, i: nat, p: SlabPage, chain: seq<nat>,
                                   words: map<nat, nat>)
    requires Good(s, own) && Consistent(own', max) && i < |s.pages| && !s.pages[i].used && p.cache < |SLAB_SIZES|
    requires p.used && p.pa > 0 && p.pa == PfnToPa(PaToPfn(p.pa)) && Differ(own, own', Used, PaToPfn(p.pa), p.order)
    requires p.objSize == SLAB_SIZES[p.cache] && FitsOrder(p.objSize, p.order) && p.inuse == 0 && p.va == s.base + p.pa
    requires p.capacity == Span(p.order) / p.objSize && Linked(words, p.freelist, p.va, p.objSize, chain)
    requires Distinct(chain, p.capacity) && |chain| == p.capacity && forall k: nat :: k < p.capacity ==> k in chain
    requires forall a: nat :: a in s.words && (forall k: nat :: k < p.capacity ==> Addr(p.va, p.objSize, k) != a) ==>
               a in words && words[a] == s.words[a]
    ensures |s.chains| == |s.pages| && |s.partial| == |SLAB_SIZES|
    ensures Good(Grow(s, i, p, chain, words), own') && Added(s, Grow(s, i, p, chain, words), i, p.cache)
  {
    hide Good, Consistent, Differ, PaToPfn, PfnToPa, Linked, Distinct, Span;
    forall k: nat | k < p.capacity
      ensures p.va <= Addr(p.va, p.objSize, k) < p.va + Span(p.order)
    {
      InSpan(Span(p.order), p.objSize, k, p.va);
    }
    assert SameOutside(s.words, words, p.va, Span(p.order));
    GrowGood(s, own, own', max, i, p, chain, words);
    OneObject(p.objSize, p.order);
  }

  /** A block that holds `size` bytes holds an object of that size. */
  lemma {:induction false} OneObject(size: nat, order: nat)
    requires size > 0 && FitsOrder(size, order)
    ensures Span(order) / size > 0
  {
    hide Span;
    var q, r := Span(order) / size, Span(order) % size;
    assert Span(order) == q * size + r;
    if q == 0 {
      assert q * size == 0;
    }
  }

  lemma {:induction false} UnlinkAt(list: seq<nat>, x: nat, pos: nat)
    requires pos < |list| && x in list[pos..] && x !in list[..pos]
    requires pos > 0 ==> Unlink(list, x) == list[..pos] + Unlink(list[pos..], x)
    ensures list[pos] == x ==> Unlink(list, x) == list[..pos] + list[pos + 1..]
    ensures list[pos] != x ==> Unlink(list, x) == list[..pos + 1] + Unlink(list[pos + 1..], x)
    ensures list[pos] != x ==> pos + 1 < |list| && x in list[pos + 1..] && x !in list[..pos + 1]
  {
    var rest := list[pos..];
    assert rest == [list[pos]] + list[pos + 1..];
    assert rest[1..] == list[pos + 1..];
    assert list[..pos + 1] == list[..pos] + [list[pos]];
    assert list[0..] == list;
  }

  lemma {:induction false} Shape(s: State, own: Own)
    requires Good(s, own)
    ensures |s.chains| == |s.pages| && |s.partial| == |SLAB_SIZES|
    ensures forall c, x :: 0 <= c < |s.partial| && 0 <= x < |s.partial[c]| ==>
              UsedPage(s, s.partial[c][x]) && s.pages[s.partial[c][x]].cache == c
  {
    assert |s.chains| == |s.pages|;
    hide HoldersSound, LiveSound, RecordsSound;
    forall c, x | 0 <= c < |s.partial| && 0 <= x < |s.partial[c]|
      ensures UsedPage(s, s.partial[c][x]) && s.pages[s.partial[c][x]].cache == c
    {
      assert s.partial[c][x] in s.partial[c];
    }
  }

  /** The pages of a class are those on its list. */
  lemma {:induction false} AllFull(s: State, own: Own, c: nat)
    requires Good(s, own) && |s.chains| == |s.pages| && c < |s.partial|
    requires forall x :: 0 <= x < |s.partial[c]| ==> UsedPage(s, s.partial[c][x]) && s.chains[s.partial[c][x]] == []
    ensures ClassFull(s, c)
  {
    hide HoldersSound, LiveSound, RecordsSound;
    forall i: nat | UsedPage(s, i) && s.pages[i].cache == c
      ensures s.chains[i] == []
    {
      assert i in s.partial[c];
    }
  }

  /** From s to s', the address a of an object of class c became live. */
  ghost predicate GaveObject(s: State, s': State, a: nat, c: nat) {
    && c < |SLAB_SIZES| && a !in s.live && a in s'.live && s'.live == s.live[a := s'.live[a]] && s'.live[a].Object?
    && UsedPage(s', s'.live[a].page) && s'.pages[s'.live[a].page].cache == c
    && Objects(s') == Objects(s)[a := SLAB_SIZES[c]]
  }

  lemma {:induction false} GivenObject(s: State, s': State, a: nat, c: nat)
    requires GaveObject(s, s', a, c)
    ensures a in s'.live && s'.live[a].Object?
  {
  }

  lemma {:induction false} TakeHands(s: State, own: Own, i: nat)
    requires Good(s, own) && UsedPage(s, i)
    requires |s.chains| == |s.pages| && s.chains[i] != [] && s.pages[i].freelist in s.words
    requires s.pages[i].freelist !in s.live
    ensures GaveObject(s, Take(s, i), s.pages[i].freelist, s.pages[i].cache)
  {
    hide HoldersSound, LiveSound, ListsSound, Linked, Distinct, FitsOrder;
    assert PageSound(s.base, s.pages[i], s.chains[i], s.words);
    var s', a := Take(s, i), s.pages[i].freelist;
    forall b | b in s.live
      ensures Extent(s', s'.live[b]) == Extent(s, s.live[b])
    {
    }
    assert Objects(s') == Objects(s)[a := SLAB_SIZES[s.pages[i].cache]];
  }

  /** A new page changes no live object. */
  lemma {:induction false} AddedObjects(s: State, own: Own, s': State, i: nat, c: nat)
    requires Good(s, own) && Added(s, s', i, c)
    ensures Objects(s') == Objects(s)
  {
    hide HoldersSound, RecordsSound, ListsSound, AddrOf;
    forall a | a in s.live
      ensures Extent(s', s'.live[a]) == Extent(s, s.live[a])
    {
      assert IsPlace(s, a, s.live[a]);
    }
  }

  lemma {:induction false} LivePlace(s: State, own: Own, a: nat)
    requires Good(s, own) && a in s.live
    ensures |s.chains| == |s.pages| && IsPlace(s, a, s.live[a])
  {
  }

  /** The search by address finds the page of a live object, and nothing for an address outside all pages. */
  lemma {:induction false} FoundOrIgnored(s: State, own: Own, max: nat, a: nat)
    requires Good(s, own) && Consistent(own, max) && (a in s.live ==> s.live[a].Object?)
    requires a in s.live || forall i: nat :: !Spans(s, i, a)
    ensures a in s.live ==> Spans(s, s.live[a].page, a)
    ensures a in s.live ==> UsedPage(s, s.live[a].page) && (LastOnPage(s, a) <==> s.pages[s.live[a].page].inuse == 1)
    ensures a !in s.live ==> !LastOnPage(s, a) && Objects(s) - {a} == Objects(s)
    ensures forall i: nat :: Spans(s, i, a) ==> a in s.live && s.live[a].page == i
  {
    hide Good, Consistent, Span;
    if a in s.live {
      LiveInPage(s, own, a);
      LastCounted(s, own, a);
      forall i: nat | Spans(s, i, a)
        ensures s.live[a].page == i
      {
        PageFound(s, own, max, a, i);
      }
    }
  }

  lemma {:induction false} PutObjects(s: State, own: Own, a: nat)
    requires Good(s, own) && a in s.live && s.live[a].Object? && |s.chains| == |s.pages|
    requires UsedPage(s, s.live[a].page) && s.pages[s.live[a].page].inuse > 0
    ensures Objects(Put(s, s.live[a].page, s.live[a].k)) == Objects(s) - {a}
  {
    hide Good, AddrOf, Span;
    LiveObject(s, own, a);
    var s' := Put(s, s.live[a].page, s.live[a].k);
    forall b | b in s'.live
      ensures Extent(s', s'.live[b]) == Extent(s, s.live[b])
    {
    }
  }

  /** Dropping a page without live objects changes no live object. */
  lemma {:induction false} DropObjects(s: State, own: Own, i: nat)
    requires Good(s, own) && UsedPage(s, i) && s.pages[i].inuse == 0
    requires |s.chains| == |s.pages| && s.pages[i].cache < |s.partial|
    ensures Objects(Drop(s, i)) == Objects(s)
  {
    hide HoldersSound, ListsSound, Linked, FitsOrder, PaToPfn, Unlink, AddrOf;
    var s' := Drop(s, i);
    assert PageSound(s.base, s.pages[i], s.chains[i], s.words);
    AllOnChain(s.chains[i], s.pages[i].capacity);
    hide Distinct;
    forall a | a in s.live
      ensures Extent(s', s'.live[a]) == Extent(s, s.live[a])
    {
      assert IsPlace(s, a, s.live[a]);
    }
  }

  lemma {:induction false} ClearedLarge(s: State, own: Own, j: nat)
    requires Good(s, own) && j < |s.large| && !s.large[j].used
    ensures s.large[j] == NO_LARGE
  {
  }

  /** From s to s', the address a became live as a block of its own. */
  ghost predicate GaveBlock(s: State, s': State, own: Own, own': Own, a: nat, order: nat) {
    && a !in s.live && a in s'.live && s'.live == s.live[a := s'.live[a]]
    && s'.live[a].Large? && UsedLarge(s', s'.live[a].slot) && s'.large[s'.live[a].slot].order == order
    && Differ(own, own', Used, PaToPfn(s'.large[s'.live[a].slot].pa), order)
    && Objects(s') == Objects(s)[a := Span(order)]
  }

  lemma {:induction false} NewLarge(s: State, own: Own, own': Own, max: nat, j: nat, l: LargeAlloc)
    requires CanEnlarge(s, own, own', j, l) && Consistent(own', max)
    ensures Busy(s) ==> Busy(Enlarge(s, j, l))
    ensures Good(Enlarge(s, j, l), own') && GaveBlock(s, Enlarge(s, j, l), own, own', l.va, l.order)
  {
    hide Good, LargeSound, Consistent, Differ, AddrOf, PaToPfn, PfnToPa, Span;
    EnlargeGood(s, own, own', max, j, l);
    var s' := Enlarge(s, j, l);
    forall a | a in s.live
      ensures Extent(s', s'.live[a]) == Extent(s, s.live[a])
    {
      LivePlace(s, own, a);
    }
    assert Objects(s') == Objects(s)[l.va := Span(l.order)];
    assert Busy(s) ==> Busy(s') by {
      assert forall i: nat :: UsedPage(s', i) <==> UsedPage(s, i);
    }
  }

  lemma {:induction false} LargeOwns(s: State, own: Own, j: nat)
    requires Good(s, own) && UsedLarge(s, j)
    ensures OwnsBlock(own, s.large[j].pa, s.large[j].order)
    ensures s.large[j].va in s.live && s.live[s.large[j].va] == Large(j)
    ensures PaToPfn(s.large[j].pa) in s.holder
  {
  }

  lemma {:induction false} ReleaseObjects(s: State, own: Own, j: nat)
    requires Good(s, own) && UsedLarge(s, j)
    ensures Objects(Release(s, j)) == Objects(s) - {s.large[j].va}
  {
    hide Good, AddrOf, PaToPfn, Span;
    var s' := Release(s, j);
    LargeOwns(s, own, j);
    forall a | a in s'.live
      ensures Extent(s', s'.live[a]) == Extent(s, s.live[a])
    {
      LivePlace(s, own, a);
    }
  }

  /** The class for `size` bytes and the order of its pages. */
  ghost predicate ClassOrder(size: nat, c: nat, order: nat) {
    FitsClass(size, c) && FitsOrder(SLAB_SIZES[c], order)
  }

  /** A request that cannot be met. */
  ghost predicate Refused(s: State, own: Own, max: nat, size: nat)
    requires |s.chains| == |s.pages|
  {
    || size == 0 || size > SZ_4M
    || (size <= SZ_8K && exists c: nat, order: nat ::
          && ClassOrder(size, c, order)
          && ClassFull(s, c) && (NoSparePage(s) || NoBlock(own, max, order)))
    || (size > SZ_8K && exists order: nat :: FitsOrder(size, order) && (NoSpareLarge(s) || NoBlock(own, max, order)))
  }

  /** From s to s', the address r was handed out: an object of the smallest class that fits, on a
      new page only if all pages of the class were full, or a block of the smallest order. */
  ghost predicate Granted(s: State, s': State, own: Own, own': Own, size: nat, r: nat)
    requires |s.chains| == |s.pages|
  {
    if size <= SZ_8K then
      exists c: nat :: FitsClass(size, c) && GaveObject(s, s', r, c) && ObjectOrigin(s, s', own, own', r, c)
    else exists order: nat :: FitsOrder(size, order) && GaveBlock(s, s', own, own', r, order)
  }

  ghost predicate ObjectOrigin(s: State, s': State, own: Own, own': Own, r: nat, c: nat)
    requires |s.chains| == |s.pages| && GaveObject(s, s', r, c)
  {
    var i := s'.live[r].page;
    if ClassFull(s, c) then !UsedPage(s, i) && Differ(own, own', Used, PaToPfn(s'.pages[i].pa), s'.pages[i].order)
    else UsedPage(s, i) && own' == own
  }

  /** What freeing an address does to the blocks. */
  ghost predicate Relinquished(s: State, own: Own, own': Own, va: nat) {
    if va in s.live && s.live[va].Large? then
      && UsedLarge(s, s.live[va].slot)
      && var l := s.large[s.live[va].slot]; Differ(own', own, Used, PaToPfn(l.pa), l.order)
    else if LastOnPage(s, va) then
      && UsedPage(s, s.live[va].page)
      && var p := s.pages[s.live[va].page]; Differ(own', own, Used, PaToPfn(p.pa), p.order)
    else own' == own
  }

  /** From own to own', exactly the blocks whose records are gone from the holders are no longer used. */
  ghost predicate HeadsGone(own: Own, holder: map<nat, Record>, own': Own, holder': map<nat, Record>) {
    && holder'.Keys <= holder.Keys
    && forall h: nat :: UsedHead(own', h) <==> UsedHead(own, h) && (h in holder ==> h in holder')
  }

  lemma {:induction false} NoneGone(own: Own, holder: map<nat, Record>)
    ensures HeadsGone(own, holder, own, holder)
  {
  }

  lemma {:induction false} OneGone(own: Own, own': Own, max: nat, h: nat, order: nat, holder: map<nat, Record>)
    requires Consistent(own, max) && Differ(own', own, Used, h, order) && h in holder
    ensures HeadsGone(own, holder, own', holder - {h})
  {
    hide Consistent, UsedHead, Differ;
    OneHeadLess(own', own, max, h, order);
  }

  lemma {:induction false} GoneTwice(own: Own, holder: map<nat, Record>, own1: Own, holder1: map<nat, Record>,
                                     own2: Own, holder2: map<nat, Record>)
    requires HeadsGone(own, holder, own1, holder1) && HeadsGone(own1, holder1, own2, holder2)
    ensures HeadsGone(own, holder, own2, holder2)
  {
    hide UsedHead;
  }

  lemma {:induction false} AllGone(own: Own, holder: map<nat, Record>, own': Own)
    requires HeadsGone(own, holder, own', map[])
    ensures forall h: nat :: UsedHead(own', h) <==> UsedHead(own, h) && h !in holder
  {
    hide UsedHead;
  }

  /** A record in use is among the holders. */
  lemma {:induction false} PageHeld(s: State, own: Own, i: nat)
    requires Good(s, own) && UsedPage(s, i)
    ensures PaToPfn(s.pages[i].pa) in s.holder
  {
    hide PaToPfn, RecordsSound, ListsSound, LiveSound;
  }

  /** The bytes [r, r + size) overlap none of the objects. */
  ghost predicate Separate(objects: map<nat, nat>, r: nat, size: nat) {
    forall a :: a in objects ==> a + objects[a] <= r || r + size <= a
  }

  lemma {:induction false} OrderExists(size: nat) returns (order: nat)
    requires size > 0
    ensures FitsOrder(size, order)
  {
    order := 0;
    while Span(order) < size
      invariant order > 0 ==> Span(order - 1) < size
      decreases size - Span(order)
    {
      order := order + 1;
    }
  }

  lemma {:induction false} ClassOrderUnique(size: nat, c: nat, order: nat, d: nat, o: nat)
    requires ClassOrder(size, c, order) && ClassOrder(size, d, o)
    ensures d == c && o == order
  {
    ClassUnique(size, c, d);
    hide FitsOrder;
    OrderUnique(SLAB_SIZES[c], order, o);
  }

  lemma {:induction false} RefusedClass(s: State, own: Own, max: nat, size: nat, c: nat, order: nat)
    requires |s.chains| == |s.pages| && 0 < size <= SZ_8K
    requires FitsClass(size, c) && FitsOrder(SLAB_SIZES[c], order)
    ensures Refused(s, own, max, size) <==> ClassFull(s, c) && (NoSparePage(s) || NoBlock(own, max, order))
  {
    hide FitsClass, FitsOrder, ClassFull, NoSparePage, NoBlock;
    assert ClassOrder(size, c, order);
    hide ClassOrder;
    forall d: nat, o: nat | ClassOrder(size, d, o)
      ensures d == c && o == order
    {
      ClassOrderUnique(size, c, order, d, o);
    }
  }

  lemma {:induction false} RefusedOrder(s: State, own: Own, max: nat, size: nat, order: nat)
    requires |s.chains| == |s.pages| && SZ_8K < size <= SZ_4M && FitsOrder(size, order)
    ensures Refused(s, own, max, size) <==> NoSpareLarge(s) || NoBlock(own, max, order)
  {
    hide FitsClass, FitsOrder, ClassFull, NoSparePage, NoBlock;
    forall o: nat | FitsOrder(size, o)
      ensures o == order
    {
      OrderUnique(size, order, o);
    }
  }

  lemma {:induction false} ObjectSeparate(s: State, s': State, own: Own, max: nat, r: nat, size: nat, c: nat)
    requires Good(s', own) && Consistent(own, max) && GaveObject(s, s', r, c) && FitsClass(size, c)
    ensures Separate(Objects(s), r, size)
  {
    assert size <= SLAB_SIZES[c];
    hide Good, Consistent, Extent, FitsClass;
    KeptSeparate(s, s', own, max, r, size);
  }

  lemma {:induction false} BlockSeparate(s: State, s': State, own: Own, own': Own, max: nat, r: nat, size: nat,
                                         order: nat)
    requires Good(s', own') && Consistent(own', max) && GaveBlock(s, s', own, own', r, order) && FitsOrder(size, order)
    ensures Separate(Objects(s), r, size)
  {
    hide Good, Consistent, Extent;
    KeptSeparate(s, s', own', max, r, size);
  }

  lemma {:induction false} KeptSeparate(s: State, s': State, own: Own, max: nat, r: nat, size: nat)
    requires Good(s', own) && Consistent(own, max) && r !in s.live
    requires r in Objects(s') && Objects(s') == Objects(s)[r := Objects(s')[r]] && size <= Objects(s')[r]
    ensures Separate(Objects(s), r, size)
  {
    hide Good, Consistent, Extent;
    forall a | a in Objects(s)
      ensures a + Objects(s)[a] <= r || r + size <= a
    {
      assert a in Objects(s') && Objects(s')[a] == Objects(s)[a];
      if a < r {
        LiveDisjoint(s', own, max, a, r);
      } else {
        LiveDisjoint(s', own, max, r, a);
      }
    }
  }

  /** Live addresses are not null and lie in the linear map. */
  lemma {:induction false} LiveAddress(s: State, own: Own, a: nat)
    requires Good(s, own)
    ensures a in s.live ==> a > 0 && a >= s.base
    ensures a in s.live && s.live[a].Large? ==> UsedLarge(s, s.live[a].slot) && s.large[s.live[a].slot].va == a
    ensures a !in s.live ==> Objects(s) - {a} == Objects(s)
    ensures LastOnPage(s, a) ==> a in s.live && s.live[a].Object? && UsedPage(s, s.live[a].page)
  {
    hide HoldersSound, ListsSound, Linked, Distinct, FitsOrder;
    if a in s.live {
      assert IsPlace(s, a, s.live[a]);
      match s.live[a]
      case Object(i, k) => assert PageSound(s.base, s.pages[i], s.chains[i], s.words);
      case Large(j) => assert LargeSound(s.base, s.large[j]);
    }
  }

  lemma {:induction false} GrantedLive(s: State, s': State, own: Own, own': Own, size: nat, r: nat)
    requires |s.chains| == |s.pages| && Granted(s, s', own, own', size, r)
    ensures r in s'.live && r !in s.live && r !in Objects(s) && Objects(s') - {r} == Objects(s)
  {
    hide FitsClass, FitsOrder, ObjectOrigin;
  }

  /** The blocks before a grant and after freeing it differ from those in between by the same
      block, or not at all. */
  lemma {:induction false} GrantUndone(s: State, s': State, own: Own, own': Own, own'': Own, size: nat, r: nat)
      returns (h: nat, k: nat)
    requires Good(s, own) && Busy(s) && |s.chains| == |s.pages| && Granted(s, s', own, own', size, r)
    requires Relinquished(s', own', own'', r)
    ensures (own' == own && own'' == own') || (Differ(own, own', Used, h, k) && Differ(own'', own', Used, h, k))
  {
    hide Good, Busy, FitsClass, FitsOrder, Objects, ClassFull, Differ, AddrOf, PaToPfn;
    h, k := 0, 0;
    if size <= SZ_8K {
      var c: nat :| FitsClass(size, c) && GaveObject(s, s', r, c) && ObjectOrigin(s, s', own, own', r, c);
      var i := s'.live[r].page;
      if UsedPage(s, i) {
        var k0 := PageHasLive(s, own, i);
        assert s'.live[AddrOf(s.pages[i], k0)].page == i;
      } else {
        forall b | b in s.live && s.live[b].Object?
          ensures s.live[b].page != i
        {
          LivePlace(s, own, b);
        }
        assert LastOnPage(s', r);
        h, k := PaToPfn(s'.pages[i].pa), s'.pages[i].order;
      }
    } else {
      var l := s'.large[s'.live[r].slot];
      h, k := PaToPfn(l.pa), l.order;
    }
  }

  class SlabAllocator {
    const buddy: BuddyAllocator
    const base: nat
    const pages: array<SlabPage>
    const large: array<LargeAlloc>
    const partial: array<seq<nat>>
    var words: map<nat, nat>
    ghost var chains: seq<seq<nat>>
    ghost var live: map<nat, Place>
    ghost var holder: map<nat, Record>

    ghost function View(): State
      reads this, pages, large, partial
    {
      State(base, pages[..], large[..], partial[..], words, chains, live, holder)
    }

    /** The invariant inside an operation. */
    ghost predicate Inv()
      reads this, pages, large, partial, buddy, buddy.mem, buddy.area, buddy.nrFree
    {
      buddy.Valid() && partial != buddy.area && Good(View(), buddy.own)
    }

    ghost predicate Valid()
      reads this, pages, large, partial, buddy, buddy.mem, buddy.area, buddy.nrFree
    {
      Inv() && Busy(View())
    }

    lemma {:induction false} Owners()
      requires buddy.Valid()
      ensures Consistent(buddy.own, buddy.maxOrder) && Coalesced(buddy.own, buddy.maxOrder)
    {
      Unfold(buddy.mem[..], buddy.area[..], buddy.nrFree[..], buddy.own, buddy.maxOrder);
    }

    /** slab_init: all pools are empty. */
    constructor (buddy: BuddyAllocator, base: nat, maxPages: nat, maxLarge: nat, words: map<nat, nat>)
      requires buddy.Valid()
      ensures this.buddy == buddy && this.base == base && this.words == words
      ensures fresh(pages) && fresh(large) && fresh(partial)
      ensures Valid() && live == map[] && holder == map[] && pages.Length == maxPages
    {
      this.buddy, this.base, this.words := buddy, base, words;
      pages := new SlabPage[maxPages](_ => NO_PAGE);
      large := new LargeAlloc[maxLarge](_ => NO_LARGE);
      partial := new seq<nat>[|SLAB_SIZES|](_ => []);
      chains := seq(maxPages, _ => []);
      live, holder := map[], map[];
      new;
      hide PaToPfn, PfnToPa, BuddyAllocator.Valid;
      assert forall c :: 0 <= c < |SLAB_SIZES| ==> partial[..][c] == [];
      assert forall i: nat :: !UsedPage(View(), i);
      assert forall j: nat :: !UsedLarge(View(), j);
    }

    // -------------------------------------------------------------------------
    // Records
    // -------------------------------------------------------------------------

    /** Claims the first unused page record. */
    method AllocSlabPageMeta() returns (r: Option<nat>)
      modifies pages
      ensures r.None? ==> pages[..] == old(pages[..]) && forall i :: 0 <= i < pages.Length ==> pages[i].used
      ensures r.Some? ==> r.value < pages.Length && !old(pages[..])[r.value].used
      ensures r.Some? ==> pages[..] == old(pages[..])[r.value := NO_PAGE.(used := true)]
    {
      for i := 0 to pages.Length
        invariant pages[..] == old(pages[..]) && forall x :: 0 <= x < i ==> pages[x].used
      {
        if !pages[i].used {
          pages[i] := NO_PAGE;
          pages[i] := pages[i].(used := true);
          return Some(i);
        }
      }
      return None;
    }

    /** Claims the first unused large record. */
    method AllocLargeMeta() returns (r: Option<nat>)
      modifies large
      ensures r.None? ==> large[..] == old(large[..]) && forall i :: 0 <= i < large.Length ==> large[i].used
      ensures r.Some? ==> r.value < large.Length && !old(large[..])[r.value].used
      ensures r.Some? ==> large[..] == old(large[..])[r.value := NO_LARGE.(used := true)]
    {
      for i := 0 to large.Length
        invariant large[..] == old(large[..]) && forall x :: 0 <= x < i ==> large[x].used
      {
        if !large[i].used {
          large[i] := NO_LARGE;
          large[i] := large[i].(used := true);
          return Some(i);
        }
      }
      return None;
    }

    /** The first class that is large enough. */
    method FindSlabCache(size: nat) returns (c: nat)
      requires size <= SZ_8K
      ensures FitsClass(size, c)
    {
      c := 0;
      while size > SLAB_SIZES[c]
        invariant c < |SLAB_SIZES| && forall d :: 0 <= d < c ==> SLAB_SIZES[d] < size
        decreases |SLAB_SIZES| - c
      {
        c := c + 1;
      }
    }

    /** The smallest order whose block holds `size` bytes, found by doubling a page count. */
    method OrderForSize(size: nat) returns (order: nat)
      requires size > 0
      ensures FitsOrder(size, order)
    {
      var needed := (size + PAGE_SIZE - 1) / PAGE_SIZE;
      order := 0;
      while Pow2(order) < needed
        invariant order > 0 ==> Pow2(order - 1) < needed
        decreases needed - Pow2(order)
      {
        order := order + 1;
      }
    }

    /** The first page record in use whose block contains the address. */
    method SlabFindPageByVa(va: nat) returns (r: Option<nat>)
      ensures r.Some? ==> Spans(View(), r.value, va)
      ensures r.None? ==> forall i: nat :: !Spans(View(), i, va)
    {
      for i := 0 to pages.Length
        invariant forall x: nat :: x < i ==> !Spans(View(), x, va)
      {
        if pages[i].used {
          var start := pages[i].va;
          var end := start + PAGE_SIZE * Pow2(pages[i].order);
          if start <= va < end {
            return Some(i);
          }
        }
      }
      return None;
    }

    method LargeFindByVa(va: nat) returns (r: Option<nat>)
      ensures r.Some? ==> UsedLarge(View(), r.value) && large[r.value].va == va
      ensures r.None? ==> forall j: nat :: UsedLarge(View(), j) ==> large[j].va != va
    {
      for j := 0 to large.Length
        invariant forall x: nat :: x < j && UsedLarge(View(), x) ==> large[x].va != va
      {
        if large[j].used && large[j].va == va {
          return Some(j);
        }
      }
      return None;
    }

    // -------------------------------------------------------------------------
    // Pages
    // -------------------------------------------------------------------------

    /** The loop of slab_grow that threads all objects of a block onto the free list. */
    method ThreadObjects(sp: nat, va: nat, size: nat, capacity: nat) returns (ghost chain: seq<nat>)
      requires sp < pages.Length && pages[sp].freelist == 0 && size > 0
      modifies this`words, pages
      ensures pages[..] == old(pages[..])[sp := old(pages[..])[sp].(freelist := pages[sp].freelist)]
      ensures Linked(words, pages[sp].freelist, va, size, chain)
      ensures Distinct(chain, capacity) && |chain| == capacity && forall k: nat :: k < capacity ==> k in chain
      ensures forall a: nat :: a in old(words) && (forall k: nat :: k < capacity ==> Addr(va, size, k) != a) ==>
                a in words && words[a] == old(words)[a]
    {
      chain := [];
      for i := 0 to capacity
        invariant pages[..] == old(pages[..])[sp := old(pages[..])[sp].(freelist := pages[sp].freelist)]
        invariant Linked(words, pages[sp].freelist, va, size, chain) && Distinct(chain, i) && |chain| == i
        invariant forall k: nat :: k < i ==> k in chain
        invariant forall a: nat :: a in old(words) && (forall k: nat :: k < capacity ==> Addr(va, size, k) != a) ==>
                    a in words && words[a] == old(words)[a]
      {
        var obj := Addr(va, size, i);
        PushObject(words, pages[sp].freelist, va, size, chain, i);
        hide Linked, Distinct, Addr;
        words := words[obj := pages[sp].freelist];
        pages[sp] := pages[sp].(freelist := obj);
        chain := [i] + chain;
      }
    }

    /** The part of slab_grow after the block was allocated. */
    method InstallPage(ghost s0: State, ghost own0: Own, sp: nat, c: nat, order: nat, pa: nat)
      requires buddy.Valid() && partial != buddy.area && Good(s0, own0) && c < |SLAB_SIZES|
      requires sp < |s0.pages| == pages.Length && !s0.pages[sp].used
      requires View() == s0.(pages := s0.pages[sp := NO_PAGE.(used := true)])
      requires pa > 0 && pa == PfnToPa(PaToPfn(pa)) && FitsOrder(SLAB_SIZES[c], order)
      requires Differ(own0, buddy.own, Used, PaToPfn(pa), order)
      modifies this`words, this`chains, this`holder, pages, partial
      ensures Inv() && Added(s0, View(), sp, c)
      ensures pages[..][sp].pa == pa && pages[..][sp].order == order
    {
      hide Good, FitsOrder, Differ, PaToPfn, PfnToPa, Linked, Distinct, BuddyAllocator.Valid, Span, Added, Addr;
      var size := SLAB_SIZES[c];
      var va := base + pa;
      var capacity := Span(order) / size;
      pages[sp] := pages[sp].(cache := c, pa := pa, va := va, order := order, objSize := size, capacity := capacity,
                              inuse := 0, freelist := 0);
      ghost var chain := ThreadObjects(sp, va, size, capacity);
      Owners();
      NewPage(s0, own0, buddy.own, buddy.maxOrder, sp, pages[sp], chain, words);
      partial[c] := [sp] + partial[c];
      chains, holder := chains[sp := chain], holder[PaToPfn(pa) := PageRecord(sp)];
      assert View() == Grow(s0, sp, pages[sp], chain, words);
    }

    /** Adds a page to a class whose pages are full. It fails exactly when no record is unused or
        the buddy allocator has no block, and then changes nothing. */
    method SlabGrow(c: nat, dma: bool) returns (r: Option<nat>)
      requires Inv() && c < |SLAB_SIZES|
      modifies this`words, this`chains, this`holder, pages, partial
      modifies buddy, buddy.mem, buddy.area, buddy.nrFree
      ensures Inv() && live == old(live) && large[..] == old(large[..])
      ensures r.None? ==> View() == old(View()) && buddy.own == old(buddy.own)
      ensures r.None? ==> forall order: nat :: FitsOrder(SLAB_SIZES[c], order) && !dma ==>
                NoSparePage(View()) || NoBlock(buddy.own, buddy.maxOrder, order)
      ensures r.Some? ==> forall order: nat :: FitsOrder(SLAB_SIZES[c], order) ==>
                !NoSparePage(old(View())) && !NoBlock(old(buddy.own), buddy.maxOrder, order)
      ensures r.Some? ==> Added(old(View()), View(), r.value, c)
      ensures r.Some? ==> r.value < |pages[..]| && var p := pages[..][r.value];
                Differ(old(buddy.own), buddy.own, Used, PaToPfn(p.pa), p.order)
      ensures dma ==> HeadsBelow(old(buddy.own), buddy.own, buddy.dmaEnd)
      ensures dma && r.Some? ==> PaToPfn(pages[..][r.value].pa) < buddy.dmaEnd
    {
      hide HeadsBelow, Good, FitsOrder, Differ, PaToPfn, PfnToPa, FreeRun, BuddyAllocator.Valid;
      ghost var s0, own0 := View(), buddy.own;
      SameHeads(own0, buddy.dmaEnd);
      var size := SLAB_SIZES[c];
      var order := OrderForSize(size);
      forall o: nat | FitsOrder(size, o)
        ensures o == order
      {
        OrderUnique(size, o, order);
      }
      var meta := AllocSlabPageMeta();
      if meta.None? {
        return None;
      }
      var sp := meta.value;
      var pa := buddy.AllocPhysPages(order, dma);
      if pa == 0 {
        pages[sp] := NO_PAGE;
        Cleared(s0, own0, sp);
        assert View() == s0;
        return None;
      }
      InstallPage(s0, own0, sp, c, order, pa);
      return Some(sp);
    }

    /** slab_cache_del_page: searches the list and unlinks the page. */
    method SlabCacheDelPage(c: nat, sp: nat)
      requires c < partial.Length && sp in partial[c]
      modifies partial
      ensures partial[..] == old(partial[..])[c := Unlink(old(partial[c]), sp)]
    {
      var list, pos := partial[c], 0;
      UnlinkAt(list, sp, 0);
      while list[pos] != sp
        invariant partial[..] == old(partial[..]) && pos < |list| && sp in list[pos..] && sp !in list[..pos]
        invariant Unlink(list, sp) == list[..pos] + Unlink(list[pos..], sp)
        decreases |list| - pos
      {
        UnlinkAt(list, sp, pos);
        pos := pos + 1;
      }
      UnlinkAt(list, sp, pos);
      hide Unlink;
      partial[c] := list[..pos] + list[pos + 1..];
      assert partial[c] == Unlink(list, sp);
    }

    /** The buddy allocator takes back a block that a record holds. */
    lemma {:induction false} FreeSucceeds(pa: nat, order: nat)
      requires buddy.Valid() && OwnsBlock(buddy.own, pa, order)
      ensures buddy.FreeError(pa, order) == OK
    {
      Owners();
      hide Consistent, Coalesced, PaToPfn, PfnToPa;
      Freeable(buddy.own, buddy.maxOrder, buddy.kernelPages, PaToPfn(pa), order);
    }

    /** Gives the block of a page without live objects back. */
    method SlabDestroyPage(sp: nat)
      requires Inv() && UsedPage(View(), sp) && pages[sp].inuse == 0
      modifies this`chains, this`holder, pages, partial
      modifies buddy, buddy.mem, buddy.area, buddy.nrFree
      ensures Inv() && |old(chains)| == pages.Length && old(pages[sp]).cache < |old(partial[..])|
      ensures View() == Drop(old(View()), sp)
      ensures Differ(buddy.own, old(buddy.own), Used, PaToPfn(old(pages[sp]).pa), old(pages[sp]).order)
    {
      hide Good, Differ, PaToPfn, PfnToPa, BuddyAllocator.Valid, Unlink, PageSound, OwnsBlock;
      ghost var s0, own0, p := View(), buddy.own, pages[sp];
      DropShape(s0, own0, sp);
      FreeSucceeds(p.pa, p.order);
      SlabCacheDelPage(pages[sp].cache, sp);
      buddy.FreePhysPages(pages[sp].pa, pages[sp].order);
      DropGood(s0, own0, buddy.own, sp);
      pages[sp] := NO_PAGE;
      chains, holder := chains[sp := []], holder - {PaToPfn(p.pa)};
      assert View() == Drop(s0, sp);
    }

    /** Takes the first object off the free list of a page. */
    method TakeFrom(sp: nat) returns (obj: nat)
      requires Inv() && UsedPage(View(), sp) && chains != [] && |chains| == pages.Length && chains[sp] != []
      modifies this`chains, this`live, pages
      ensures Inv() && old(pages[sp]).freelist in words && View() == Take(old(View()), sp)
      ensures obj == old(pages[sp]).freelist && obj != 0 && obj !in old(live)
    {
      hide Good, BuddyAllocator.Valid;
      ghost var s0 := View();
      Owners();
      FreeListHead(s0, buddy.own, sp);
      TakeGood(s0, buddy.own, buddy.maxOrder, sp);
      obj := pages[sp].freelist;
      pages[sp] := pages[sp].(freelist := words[obj]);
      pages[sp] := pages[sp].(inuse := pages[sp].inuse + 1);
      live := live[obj := Object(sp, chains[sp][0])];
      chains := chains[sp := chains[sp][1..]];
      assert View() == Take(s0, sp);
    }

    /** An object of class c: from the first listed page with a free object, else from a new page. */
    method SlabAlloc(c: nat, dma: bool) returns (obj: nat)
      requires Valid() && c < |SLAB_SIZES|
      modifies this, pages, partial
      modifies buddy, buddy.mem, buddy.area, buddy.nrFree
      ensures Valid() && |old(chains)| == pages.Length
      ensures obj == 0 ==> View() == old(View()) && buddy.own == old(buddy.own)
      ensures obj == 0 ==> ClassFull(old(View()), c)
      ensures obj == 0 ==> forall order: nat :: FitsOrder(SLAB_SIZES[c], order) && !dma ==>
                NoSparePage(old(View())) || NoBlock(old(buddy.own), buddy.maxOrder, order)
      ensures obj != 0 ==> GaveObject(old(View()), View(), obj, c)
      ensures obj != 0 && !ClassFull(old(View()), c) ==>
                buddy.own == old(buddy.own) && UsedPage(old(View()), live[obj].page)
      ensures obj != 0 && ClassFull(old(View()), c) ==>
                && (forall order: nat :: FitsOrder(SLAB_SIZES[c], order) ==>
                      !NoSparePage(old(View())) && !NoBlock(old(buddy.own), buddy.maxOrder, order))
                && !UsedPage(old(View()), live[obj].page)
                && var p := pages[..][live[obj].page];
                   Differ(old(buddy.own), buddy.own, Used, PaToPfn(p.pa), p.order)
      ensures dma ==> HeadsBelow(old(buddy.own), buddy.own, buddy.dmaEnd)
      ensures dma && obj != 0 && ClassFull(old(View()), c) ==> PaToPfn(pages[..][live[obj].page].pa) < buddy.dmaEnd
    {
      hide Good, BuddyAllocator.Valid, Differ, PaToPfn, PfnToPa, FitsOrder, NoBlock, NoSparePage, HeadsBelow;
      ghost var s0, own0 := View(), buddy.own;
      SameHeads(own0, buddy.dmaEnd);
      Shape(s0, own0);
      var list, pos := partial[c], 0;
      while pos < |list| && pages[list[pos]].freelist == 0
        invariant pos <= |list| && View() == s0 && Valid() && buddy.own == own0
        invariant forall x :: 0 <= x < |list| ==> UsedPage(s0, list[x])
        invariant forall x :: 0 <= x < pos ==> s0.chains[list[x]] == []
      {
        FreeListHead(s0, own0, list[pos]);
        pos := pos + 1;
      }
      if pos < |list| {
        FreeListHead(s0, own0, list[pos]);
        obj := TakeFrom(list[pos]);
        TakeHands(s0, own0, list[pos]);
      } else {
        AllFull(s0, own0, c);
        var sp := SlabGrow(c, dma);
        if sp.None? {
          return 0;
        }
        ghost var s1 := View();
        obj := TakeFrom(sp.value);
        TakeHands(s1, buddy.own, sp.value);
        AddedObjects(s0, own0, s1, sp.value, c);
      }
    }

    /** Pushes a live object back onto its page's free list. */
    method PutBack(sp: nat, va: nat)
      requires Inv() && va in live && live[va].Object? && live[va].page == sp < pages.Length
      modifies this`words, this`chains, this`live, pages
      ensures Inv() && |old(chains)| == pages.Length && UsedPage(old(View()), sp) && old(pages[sp]).inuse > 0
      ensures View() == Put(old(View()), sp, old(live[va]).k) && live == old(live) - {va}
    {
      hide Good, BuddyAllocator.Valid;
      ghost var s0, k := View(), live[va].k;
      Owners();
      LiveObject(s0, buddy.own, va);
      LivePlace(s0, buddy.own, va);
      PutGood(s0, buddy.own, buddy.maxOrder, sp, k);
      words := words[va := pages[sp].freelist];
      pages[sp] := pages[sp].(freelist := va);
      if pages[sp].inuse > 0 {
        pages[sp] := pages[sp].(inuse := pages[sp].inuse - 1);
      }
      chains, live := chains[sp := [k] + chains[sp]], live - {va};
      assert View() == Put(s0, sp, k);
    }

    /** Frees an object; the page goes back to the buddy allocator with its last one. An address
        outside all pages is ignored. */
    method SlabFreeObj(va: nat)
      requires Valid() && (va in live ==> live[va].Object?)
      requires va in live || forall i: nat :: !Spans(View(), i, va)
      modifies this`words, this`chains, this`live, this`holder, pages, partial
      modifies buddy, buddy.mem, buddy.area, buddy.nrFree
      ensures Valid() && live == old(live) - {va} && Objects(View()) == old(Objects(View())) - {va}
      ensures old(LastOnPage(View(), va)) ==>
                var p := old(View()).pages[old(live[va]).page];
                Differ(buddy.own, old(buddy.own), Used, PaToPfn(p.pa), p.order)
      ensures !old(LastOnPage(View(), va)) ==> buddy.own == old(buddy.own)
      ensures HeadsGone(old(buddy.own), old(holder), buddy.own, holder)
    {
      hide Good, BuddyAllocator.Valid, Differ, PaToPfn, PfnToPa, LastOnPage, Spans, Objects, HeadsGone;
      NoneGone(buddy.own, holder);
      ghost var s0, own0 := View(), buddy.own;
      Owners();
      FoundOrIgnored(s0, own0, buddy.maxOrder, va);
      var found := SlabFindPageByVa(va);
      if found.None? {
        return;
      }
      var sp := found.value;
      PutBack(sp, va);
      ghost var s1 := View();
      PutObjects(s0, own0, va);
      if pages[sp].inuse == 0 {
        PageHeld(s1, own0, sp);
        ghost var p := pages[sp];
        SlabDestroyPage(sp);
        OneGone(own0, buddy.own, buddy.maxOrder, PaToPfn(p.pa), p.order, s1.holder);
        DropObjects(s1, own0, sp);
      }
    }

    // -------------------------------------------------------------------------
    // Large allocations
    // -------------------------------------------------------------------------

    /** The part of large_alloc after the block was allocated. */
    method InstallLarge(ghost s0: State, ghost own0: Own, slot: nat, size: nat, order: nat, pa: nat) returns (va: nat)
      requires buddy.Valid() && partial != buddy.area && Good(s0, own0) && Busy(s0) && SZ_8K < size <= SZ_4M
      requires slot < |s0.large| == large.Length && !s0.large[slot].used
      requires View() == s0.(large := s0.large[slot := NO_LARGE.(used := true)])
      requires pa > 0 && pa == PfnToPa(PaToPfn(pa)) && FitsOrder(size, order)
      requires Differ(own0, buddy.own, Used, PaToPfn(pa), order)
      modifies this`live, this`holder, large
      ensures Valid() && va == base + pa && GaveBlock(s0, View(), own0, buddy.own, va, order)
    {
      hide Good, BuddyAllocator.Valid, Differ, PaToPfn, PfnToPa, FitsOrder, GaveBlock, Busy;
      va := base + pa;
      large[slot] := large[slot].(va := va, pa := pa, size := size, order := order);
      Owners();
      NewLarge(s0, own0, buddy.own, buddy.maxOrder, slot, large[slot]);
      live, holder := live[va := Large(slot)], holder[PaToPfn(pa) := LargeRecord(slot)];
      assert View() == Enlarge(s0, slot, large[slot]);
    }

    /** A whole block of the smallest order that is large enough. */
    method LargeAllocate(size: nat, dma: bool) returns (va: nat)
      requires Valid() && SZ_8K < size <= SZ_4M
      modifies this`live, this`holder, large
      modifies buddy, buddy.mem, buddy.area, buddy.nrFree
      ensures Valid()
      ensures va == 0 ==> View() == old(View()) && buddy.own == old(buddy.own)
      ensures va == 0 ==> forall order: nat :: FitsOrder(size, order) && !dma ==>
                NoSpareLarge(old(View())) || NoBlock(old(buddy.own), buddy.maxOrder, order)
      ensures va != 0 ==> forall order: nat :: FitsOrder(size, order) ==>
                && !NoSpareLarge(old(View())) && !NoBlock(old(buddy.own), buddy.maxOrder, order)
                && GaveBlock(old(View()), View(), old(buddy.own), buddy.own, va, order)
      ensures dma ==> HeadsBelow(old(buddy.own), buddy.own, buddy.dmaEnd)
      ensures dma && va != 0 ==> base <= va && PaToPfn(va - base) < buddy.dmaEnd
    {
      hide HeadsBelow, Good, BuddyAllocator.Valid, Differ, PaToPfn, PfnToPa, FitsOrder, FreeRun, GaveBlock, Busy;
      ghost var s0, own0 := View(), buddy.own;
      SameHeads(own0, buddy.dmaEnd);
      var order := OrderForSize(size);
      forall o: nat | FitsOrder(size, o)
        ensures o == order
      {
        OrderUnique(size, o, order);
      }
      var meta := AllocLargeMeta();
      if meta.None? {
        return 0;
      }
      var slot := meta.value;
      var pa := buddy.AllocPhysPages(order, dma);
      if pa == 0 {
        large[slot] := NO_LARGE;
        ClearedLarge(s0, own0, slot);
        assert View() == s0;
        return 0;
      }
      va := InstallLarge(s0, own0, slot, size, order, pa);
    }

    method LargeFree(slot: nat)
      requires Valid() && UsedLarge(View(), slot)
      modifies this`live, this`holder, large
      modifies buddy, buddy.mem, buddy.area, buddy.nrFree
      ensures Valid() && live == old(live) - {old(large[slot]).va}
      ensures Objects(View()) == old(Objects(View())) - {old(large[slot]).va}
      ensures Differ(buddy.own, old(buddy.own), Used, PaToPfn(old(large[slot]).pa), old(large[slot]).order)
      ensures HeadsGone(old(buddy.own), old(holder), buddy.own, holder)
    {
      hide Good, BuddyAllocator.Valid, Differ, PaToPfn, PfnToPa, OwnsBlock, Objects, HeadsGone;
      ghost var s0, own0, l := View(), buddy.own, large[slot];
      Owners();
      LargeOwns(s0, own0, slot);
      FreeSucceeds(l.pa, l.order);
      buddy.FreePhysPages(large[slot].pa, large[slot].order);
      ReleaseGood(s0, own0, buddy.own, slot);
      OneGone(own0, buddy.own, buddy.maxOrder, PaToPfn(l.pa), l.order, s0.holder);
      ReleaseObjects(s0, own0, slot);
      large[slot] := NO_LARGE;
      live, holder := live - {l.va}, holder - {PaToPfn(l.pa)};
      assert View() == Release(s0, slot);
    }

    // -------------------------------------------------------------------------
    // The interface
    // -------------------------------------------------------------------------

    /** Null exactly when the request cannot be met (for the DMA zone only the one direction that
        holds of the buddy allocator); otherwise the address of at least `size` bytes that overlap
        no live object. */
    method KMalloc(size: nat, dma: bool) returns (r: nat)
      requires Valid()
      modifies this, pages, large, partial
      modifies buddy, buddy.mem, buddy.area, buddy.nrFree
      ensures Valid() && |old(chains)| == pages.Length
      ensures r == 0 ==> View() == old(View()) && buddy.own == old(buddy.own)
      ensures size == 0 || size > SZ_4M ==> r == 0
      ensures !dma ==> (r == 0 <==> Refused(old(View()), old(buddy.own), buddy.maxOrder, size))
      ensures r != 0 ==> Granted(old(View()), View(), old(buddy.own), buddy.own, size, r)
      ensures r != 0 ==> Separate(old(Objects(View())), r, size)
      ensures dma ==> HeadsBelow(old(buddy.own), buddy.own, buddy.dmaEnd)
      ensures forall c :: 0 < size <= SZ_8K && FitsClass(size, c) && !ClassFull(old(View()), c) ==>
                r in live && live[r].Object? && UsedPage(old(View()), live[r].page) && buddy.own == old(buddy.own)
    {
      hide HeadsBelow, Good, BuddyAllocator.Valid, GaveBlock, GaveObject, ClassFull, NoSparePage, NoSpareLarge, NoBlock,
           Differ, FitsClass, FitsOrder, Objects, Separate, PaToPfn, Busy;
      ghost var s0, own0 := View(), buddy.own;
      Shape(s0, own0);
      SameHeads(own0, buddy.dmaEnd);
      if size == 0 {
        return 0;
      }
      if size > SZ_4M {
        return 0;
      }
      if size <= SZ_8K {
        var c := FindSlabCache(size);
        forall d: nat | FitsClass(size, d)
          ensures d == c
        {
          ClassUnique(size, c, d);
        }
        ghost var order := OrderExists(SLAB_SIZES[c]);
        r := SlabAlloc(c, dma);
        Owners();
        RefusedClass(s0, own0, buddy.maxOrder, size, c, order);
        if r != 0 {
          ObjectSeparate(s0, View(), buddy.own, buddy.maxOrder, r, size, c);
          GivenObject(s0, View(), r, c);
        }
      } else {
        ghost var order := OrderExists(size);
        r := LargeAllocate(size, dma);
        Owners();
        RefusedOrder(s0, own0, buddy.maxOrder, size, order);
        if r != 0 {
          BlockSeparate(s0, View(), own0, buddy.own, buddy.maxOrder, r, size, order);
        }
      }
    }

    /** Frees a live address; null, addresses below the linear map and addresses outside all pages
        are ignored. A page goes back to the buddy allocator exactly with its last object. */
    method KFree(va: nat)
      requires Valid()
      requires va in live || forall i: nat :: !Spans(View(), i, va)
      modifies this, pages, large, partial
      modifies buddy, buddy.mem, buddy.area, buddy.nrFree
      ensures Valid() && live == old(live) - {va} && Objects(View()) == old(Objects(View())) - {va}
      ensures Relinquished(old(View()), old(buddy.own), buddy.own, va)
      ensures HeadsGone(old(buddy.own), old(holder), buddy.own, holder)
    {
      hide Good, BuddyAllocator.Valid, Differ, Objects, LastOnPage, Spans, PaToPfn, Busy, HeadsGone;
      NoneGone(buddy.own, holder);
      ghost var s0 := View();
      LiveAddress(s0, buddy.own, va);
      if va == 0 {
        return;
      }
      if va < base {
        return;
      }
      var found := LargeFindByVa(va);
      if found.Some? {
        LargeOwns(s0, buddy.own, found.value);
        LargeFree(found.value);
        return;
      }
      SlabFreeObj(va);
    }

    // -------------------------------------------------------------------------
    // Whole uses
    // -------------------------------------------------------------------------

    /** A user writes into its own object: the free lists do not notice. */
    method UserStore(obj: nat, a: nat, v: nat)
      requires Valid() && obj in Objects(View()) && obj <= a < obj + Objects(View())[obj]
      modifies this`words
      ensures Valid() && View() == old(View()).(words := old(words)[a := v])
    {
      hide Good, BuddyAllocator.Valid;
      Owners();
      StoreGood(View(), buddy.own, buddy.maxOrder, obj, a, v);
      words := words[a := v];
      assert View() == old(View()).(words := old(words)[a := v]);
    }

    /** Freeing what was just allocated restores the live objects and every block, also when the
        allocation had to add a page. */
    method AllocThenFree(size: nat, dma: bool) returns (r: nat)
      requires Valid()
      modifies this, pages, large, partial
      modifies buddy, buddy.mem, buddy.area, buddy.nrFree
      ensures Valid() && Objects(View()) == old(Objects(View())) && buddy.own == old(buddy.own)
    {
      hide Good, BuddyAllocator.Valid, Granted, Relinquished, Objects, Separate, Refused, Spans;
      ghost var s0, own0 := View(), buddy.own;
      Owners();
      r := KMalloc(size, dma);
      if r != 0 {
        ghost var s1, own1 := View(), buddy.own;
        GrantedLive(s0, s1, own0, own1, size, r);
        KFree(r);
        Owners();
        ghost var h, k := GrantUndone(s0, s1, own0, own1, buddy.own, size, r);
        if own1 != own0 || buddy.own != own1 {
          FreeUndoesAlloc(own0, own1, buddy.own, buddy.maxOrder, h, k);
        }
      }
    }

    /** Freeing all live objects, in any order, gives every block back: of the blocks in use only those of
        other users of the buddy allocator are left. */
    method FreeEverything(objects: seq<nat>)
      requires Valid() && (forall i, j :: 0 <= i < j < |objects| ==> objects[i] != objects[j])
      requires forall a: nat :: a in objects <==> a in live
      modifies this, pages, large, partial
      modifies buddy, buddy.mem, buddy.area, buddy.nrFree
      ensures Valid() && live == map[] && holder == map[]
      ensures forall h: nat :: UsedHead(buddy.own, h) <==> UsedHead(old(buddy.own), h) && h !in old(holder)
    {
      hide Good, BuddyAllocator.Valid, Busy, Relinquished, Objects, Spans, HeadsGone, UsedHead;
      NoneGone(buddy.own, holder);
      for i := 0 to |objects|
        invariant Valid() && forall a: nat :: a in objects[i..] <==> a in live
        invariant HeadsGone(old(buddy.own), old(holder), buddy.own, holder)
      {
        var va := objects[i];
        assert va in live by { assert objects[i..][0] == va; }
        ghost var own1, holder1 := buddy.own, holder;
        KFree(va);
        GoneTwice(old(buddy.own), old(holder), own1, holder1, buddy.own, holder);
        RestHeads(objects, i, va);
      }
      assert live == map[];
      NothingLive(View(), buddy.own);
      AllGone(old(buddy.own), old(holder), buddy.own);
    }
  }

  // ---------------------------------------------------------------------------
  // Memory for devices
  // ---------------------------------------------------------------------------

  /** With one free frame and one unused record there is room for an object of 8 bytes. */
  lemma {:induction false} FirstGranted(s: State, own: Own)
    requires Good(s, own) && s.holder == map[] && |s.pages| == 1 && |own| == 2 && IsFree(own, 1)
    ensures |s.chains| == |s.pages| && !Refused(s, own, 0, 8)
  {
    hide PaToPfn, OwnsBlock, LiveSound, ListsSound;
    assert !UsedPage(s, 0);
    forall c: nat, order: nat | ClassOrder(8, c, order)
      ensures !NoBlock(own, 0, order)
    {
      OneFrame(c, order);
      assert FreeRun(own, 1, 0);
    }
  }

  lemma {:induction false} OneFrame(c: nat, order: nat)
    requires FitsClass(8, c) && FitsOrder(SLAB_SIZES[c], order)
    ensures SLAB_SIZES[c] == 8 && order == 0
  {
    ClassUnique(8, c, 0);
    OrderUnique(8, order, 0);
  }

  /** A page with one live object of 8 bytes has others to give. */
  lemma {:induction false} NotFull(s: State, own: Own, a: nat, c: nat)
    requires Good(s, own) && a in s.live && s.live.Keys == {a} && s.live[a].Object? && FitsClass(8, c)
    requires UsedPage(s, s.live[a].page) && s.pages[s.live[a].page].cache == c
    ensures |s.chains| == |s.pages| && !ClassFull(s, c)
  {
    LastCounted(s, own, a);
    var i := s.live[a].page;
    assert PageSound(s.base, s.pages[i], s.chains[i], s.words);
    OneFrame(c, s.pages[i].order);
  }

  /** A page in use lies in no reserved frame. */
  lemma {:induction false} NotReserved(s: State, own: Own, i: nat)
    requires Good(s, own) && UsedPage(s, i) && |own| > 0 && own[0].Reserved?
    ensures PaToPfn(s.pages[i].pa) >= 1
  {
    hide PaToPfn, LiveSound, ListsSound, RecordsSound;
  }

  /** One frame of memory, behind the DMA zone, and one page record. An object is asked for, and then one from
      the DMA zone: it comes from the page that is there. */
  method DmaFromOldPage(base: nat, words: map<nat, nat>) returns (s: SlabAllocator, a: nat, b: nat)
    requires base > 0
    ensures fresh(s) && s.Valid() && a != 0 && b != 0 && a in s.live && b in s.live
    ensures s.live[b].Object? && s.live[b].page < s.pages.Length
    ensures PaToPfn(s.pages[s.live[b].page].pa) >= s.buddy.dmaEnd
  {
    hide PaToPfn, Differ, FreeRun, HeadsBelow, Good, Separate, Objects, Refused, ClassFull, Consistent, Coalesced,
         Agree, Relinquished, Busy;
    var buddy := new BuddyAllocator(2, 1, 0);
    assert !InDmaZone(2, 1, 1);
    s := new SlabAllocator(buddy, base, 1, 0, words);
    ghost var s0, own0 := s.View(), buddy.own;
    FirstGranted(s0, own0);
    a := s.KMalloc(8, false);
    ghost var s1, own1 := s.View(), buddy.own;
    ghost var c: nat :| FitsClass(8, c) && GaveObject(s0, s1, a, c) && ObjectOrigin(s0, s1, own0, own1, a, c);
    NotFull(s1, own1, a, c);
    b := s.KMalloc(8, true);
    LiveAddress(s.View(), buddy.own, b);
    LiveObject(s.View(), buddy.own, b);
    NotReserved(s.View(), buddy.own, s.live[b].page);
  }
}
