/**
 The kernel's virtual address areas as values: spans that follow one another, the free ones among
 them, and what taking, splitting and merging areas does.
 */
module VmapModel {
  import opened Common

  const VA_ALIGN_DEFAULT: nat := 0x1000

  /** A range of addresses, handed between the free list, the tree and the busy list. */
  class VmapArea {
    var start: nat
    var end: nat
    var flags: nat

    constructor (start: nat, end: nat)
      ensures this.start == start && this.end == end
    {
      this.start, this.end, this.flags := start, end, 0;
    }
  }

  datatype Span = Span(lo: nat, hi: nat)

  /** The order of the tree: by size, then by address. */
  datatype Key = Key(size: nat, start: nat)

  type Spans = map<VmapArea, Span>

  /** The range of an area. Only areas of the set are looked at, so the value does not depend on others. */
  ghost function SpanIn(areas: set<VmapArea>, a: VmapArea): Span
    reads areas
  {
    if a in areas then Span(a.start, a.end) else Span(0, 0)
  }

  ghost function SpansOf(areas: set<VmapArea>): Spans
    reads areas
  {
    map a | a in areas :: SpanIn(areas, a)
  }

  function KeyOf(s: Span): Key {
    Key(if s.lo <= s.hi then s.hi - s.lo else 0, s.lo)
  }

  function Elements(l: seq<VmapArea>): set<VmapArea> {
    set a | a in l
  }

  /** The areas lie one after the other, without gap or overlap, from lo to hi; each has at least a
      page, and all bounds are page addresses. */
  ghost predicate Chain(m: Spans, l: seq<VmapArea>, lo: nat, hi: nat) {
    if l == [] then lo == hi
    else
      && l[0] in m && m[l[0]].lo == lo < m[l[0]].hi && m[l[0]].hi % VA_ALIGN_DEFAULT == 0
      && Chain(m, l[1..], m[l[0]].hi, hi)
  }

  /** Where a chain that starts at lo ends. */
  ghost function EndOf(m: Spans, l: seq<VmapArea>, lo: nat): nat {
    if l == [] || l[0] !in m then lo else EndOf(m, l[1..], m[l[0]].hi)
  }

  lemma {:induction false} ChainConcat(m: Spans, x: seq<VmapArea>, y: seq<VmapArea>, lo: nat, hi: nat)
    ensures Chain(m, x + y, lo, hi) <==> Chain(m, x, lo, EndOf(m, x, lo)) && Chain(m, y, EndOf(m, x, lo), hi)
  {
    if x == [] {
      assert x + y == y;
    } else {
      assert (x + y)[1..] == x[1..] + y;
      if x[0] in m {
        ChainConcat(m, x[1..], y, m[x[0]].hi, hi);
      }
    }
  }

  /** A chain does not go back, and its areas lie within its bounds. */
  lemma {:induction false} ChainBounds(m: Spans, l: seq<VmapArea>, lo: nat, hi: nat)
    requires Chain(m, l, lo, hi)
    ensures lo <= hi && forall i :: 0 <= i < |l| ==> l[i] in m && lo <= m[l[i]].lo < m[l[i]].hi <= hi
    ensures lo % VA_ALIGN_DEFAULT == 0 ==>
              forall i :: 0 <= i < |l| ==> m[l[i]].lo % VA_ALIGN_DEFAULT == 0 && m[l[i]].hi % VA_ALIGN_DEFAULT == 0
  {
    if l != [] {
      ChainBounds(m, l[1..], m[l[0]].hi, hi);
      forall i | 0 <= i < |l|
        ensures l[i] in m && lo <= m[l[i]].lo < m[l[i]].hi <= hi
        ensures lo % VA_ALIGN_DEFAULT == 0 ==> m[l[i]].lo % VA_ALIGN_DEFAULT == 0 && m[l[i]].hi % VA_ALIGN_DEFAULT == 0
      {
        if i > 0 {
          assert l[1..][i - 1] == l[i];
        }
      }
    }
  }

  lemma {:induction false} ChainOrder(m: Spans, l: seq<VmapArea>, lo: nat, hi: nat, i: nat, j: nat)
    requires Chain(m, l, lo, hi) && i < j < |l|
    ensures l[i] in m && l[j] in m && m[l[i]].hi <= m[l[j]].lo && l[i] != l[j]
  {
    ChainBounds(m, l[1..], m[l[0]].hi, hi);
    ChainBounds(m, l, lo, hi);
    if i == 0 {
      assert l[1..][j - 1] == l[j];
    } else {
      ChainOrder(m, l[1..], m[l[0]].hi, hi, i - 1, j - 1);
    }
  }

  /** Areas in between have not changed. */
  lemma {:induction false} ChainSame(m: Spans, m': Spans, l: seq<VmapArea>, lo: nat, hi: nat)
    requires Chain(m, l, lo, hi) && forall a :: a in l && a in m ==> a in m' && m'[a] == m[a]
    ensures Chain(m', l, lo, hi)
  {
    if l != [] {
      ChainSame(m, m', l[1..], m[l[0]].hi, hi);
    }
  }

  /** The addresses are tiled: every address in the range lies in exactly one area. */
  lemma {:induction false} ChainTiles(m: Spans, l: seq<VmapArea>, lo: nat, hi: nat, x: nat)
    requires Chain(m, l, lo, hi) && lo <= x < hi
    ensures exists i :: 0 <= i < |l| && l[i] in m && m[l[i]].lo <= x < m[l[i]].hi
    ensures forall i, j :: 0 <= i < |l| && 0 <= j < |l| && l[i] in m && l[j] in m ==>
              m[l[i]].lo <= x < m[l[i]].hi && m[l[j]].lo <= x < m[l[j]].hi ==> i == j
  {
    if x >= m[l[0]].hi {
      ChainTiles(m, l[1..], m[l[0]].hi, hi, x);
      var i :| 0 <= i < |l[1..]| && l[1..][i] in m && m[l[1..][i]].lo <= x < m[l[1..][i]].hi;
      assert l[i + 1] == l[1..][i];
    } else {
      assert m[l[0]].lo <= x;
    }
    forall i, j | 0 <= i < |l| && 0 <= j < |l| && l[i] in m && l[j] in m && m[l[i]].lo <= x < m[l[i]].hi
        && m[l[j]].lo <= x < m[l[j]].hi
      ensures i == j
    {
      if i < j {
        ChainOrder(m, l, lo, hi, i, j);
      } else if j < i {
        ChainOrder(m, l, lo, hi, j, i);
      }
    }
  }

  // ---------------------------------------------------------------------------
  // The free ones among the areas
  // ---------------------------------------------------------------------------

  /** The areas of l that are in f, in the order of l. */
  function Sub(l: seq<VmapArea>, f: set<VmapArea>): seq<VmapArea> {
    if l == [] then [] else (if l[0] in f then [l[0]] else []) + Sub(l[1..], f)
  }

  lemma {:induction false} SubElements(l: seq<VmapArea>, f: set<VmapArea>)
    ensures Elements(Sub(l, f)) == Elements(l) * f
  {
    if l != [] {
      var first := if l[0] in f then [l[0]] else [];
      SubElements(l[1..], f);
      ElementsConcat([l[0]], l[1..]);
      ElementsConcat(first, Sub(l[1..], f));
      assert [l[0]] + l[1..] == l && Elements([l[0]]) == {l[0]} && Elements(first) == {l[0]} * f;
    }
  }

  lemma {:induction false} ElementsConcat(x: seq<VmapArea>, y: seq<VmapArea>)
    ensures Elements(x + y) == Elements(x) + Elements(y)
  {
  }

  lemma {:induction false} Regrouped(x: seq<VmapArea>, y: seq<VmapArea>, z: seq<VmapArea>)
    ensures x + (y + z) == (x + y) + z
  {
  }

  lemma {:induction false} SubConcat(x: seq<VmapArea>, y: seq<VmapArea>, f: set<VmapArea>)
    ensures Sub(x + y, f) == Sub(x, f) + Sub(y, f)
  {
    if x == [] {
      assert x + y == y;
    } else {
      var first := if x[0] in f then [x[0]] else [];
      assert (x + y)[0] == x[0] && (x + y)[1..] == x[1..] + y;
      SubConcat(x[1..], y, f);
      Regrouped(first, Sub(x[1..], f), Sub(y, f));
    }
  }

  /** Only membership of the areas in the list counts. */
  lemma {:induction false} SubSame(l: seq<VmapArea>, f: set<VmapArea>, f': set<VmapArea>)
    requires forall a :: a in l ==> (a in f <==> a in f')
    ensures Sub(l, f) == Sub(l, f')
  {
    if l != [] {
      SubSame(l[1..], f, f');
    }
  }

  lemma {:induction false} SubOne(a: VmapArea, f: set<VmapArea>)
    ensures Sub([a], f) == if a in f then [a] else []
  {
    assert [a][1..] == [];
  }

  /** The free list of a chain with the area a in the middle. */
  lemma {:induction false} SubAround(x: seq<VmapArea>, a: VmapArea, y: seq<VmapArea>, f: set<VmapArea>)
    ensures Sub(x + [a] + y, f) == Sub(x, f) + (if a in f then [a] else []) + Sub(y, f)
  {
    SubConcat(x + [a], y, f);
    SubConcat(x, [a], f);
    SubOne(a, f);
  }

  /** The areas start at or after lo and before hi. */
  ghost predicate Starts(m: Spans, l: seq<VmapArea>, lo: nat, hi: nat) {
    forall i :: 0 <= i < |l| ==> l[i] in m && lo <= m[l[i]].lo < hi
  }

  lemma {:induction false} SubStarts(m: Spans, l: seq<VmapArea>, f: set<VmapArea>, lo: nat, hi: nat)
    requires Starts(m, l, lo, hi)
    ensures Starts(m, Sub(l, f), lo, hi)
  {
    if l != [] {
      SubStarts(m, l[1..], f, lo, hi);
    }
  }

  /** The areas of a chain up to and from one of its places. */
  lemma {:induction false} ChainAround(m: Spans, x: seq<VmapArea>, a: VmapArea, y: seq<VmapArea>, lo: nat, hi: nat)
    requires Chain(m, x + [a] + y, lo, hi)
    ensures a in m && EndOf(m, x, lo) == m[a].lo < m[a].hi && Chain(m, x, lo, m[a].lo) && Chain(m, y, m[a].hi, hi)
    ensures m[a].hi % VA_ALIGN_DEFAULT == 0
    ensures a !in x && a !in y
    ensures Starts(m, x, 0, m[a].lo) && Starts(m, y, m[a].hi, hi)
  {
    assert x + [a] + y == x + ([a] + y);
    ChainConcat(m, x, [a] + y, lo, hi);
    assert ([a] + y)[1..] == y;
    ChainBounds(m, x, lo, m[a].lo);
    ChainBounds(m, y, m[a].hi, hi);
  }

  lemma {:induction false} AroundChain(m: Spans, x: seq<VmapArea>, a: VmapArea, y: seq<VmapArea>, lo: nat, hi: nat)
    requires a in m && Chain(m, x, lo, m[a].lo) && m[a].lo < m[a].hi && m[a].hi % VA_ALIGN_DEFAULT == 0
    requires Chain(m, y, m[a].hi, hi)
    ensures Chain(m, x + [a] + y, lo, hi)
  {
    assert x + [a] + y == x + ([a] + y);
    assert ([a] + y)[1..] == y;
    ChainEnd(m, x, lo, m[a].lo);
    ChainConcat(m, x, [a] + y, lo, hi);
  }

  lemma {:induction false} ChainEnd(m: Spans, x: seq<VmapArea>, lo: nat, hi: nat)
    requires Chain(m, x, lo, hi)
    ensures EndOf(m, x, lo) == hi
  {
    if x != [] {
      ChainEnd(m, x[1..], m[x[0]].hi, hi);
    }
  }

  /** Where an area is in a sequence. */
  lemma {:induction false} Place(l: seq<VmapArea>, a: VmapArea) returns (x: seq<VmapArea>, y: seq<VmapArea>)
    requires a in l
    ensures l == x + [a] + y
  {
    var i :| 0 <= i < |l| && l[i] == a;
    x, y := l[..i], l[i + 1..];
  }

  // ---------------------------------------------------------------------------
  // The state of the manager
  // ---------------------------------------------------------------------------

  ghost predicate Distinct(l: seq<VmapArea>) {
    forall i, j :: 0 <= i < j < |l| ==> l[i] != l[j]
  }

  /** The areas make up the range. */
  ghost predicate Chained(m: Spans, layout: seq<VmapArea>, lo: nat, hi: nat) {
    0 < lo && lo % VA_ALIGN_DEFAULT == 0 && Chain(m, layout, lo, hi) && Elements(layout) == m.Keys
  }

  /** Every area is free, busy or in hand; the free list holds the free ones in the order of their
      addresses, the busy list the busy ones. */
  ghost predicate Listed(layout: seq<VmapArea>, freeList: seq<VmapArea>, busyList: seq<VmapArea>, free: set<VmapArea>,
                         hand: set<VmapArea>) {
    && free <= Elements(layout) && hand <= Elements(layout) && free !! hand
    && freeList == Sub(layout, free)
    && Elements(busyList) == Elements(layout) - free - hand && Distinct(busyList)
  }

  /** The tree holds each of its areas under the key the area has now. */
  ghost predicate Keyed(m: Spans, tree: map<VmapArea, Key>) {
    tree.Keys <= m.Keys && forall a :: a in tree ==> tree[a] == KeyOf(m[a])
  }

  ghost predicate Consistent(m: Spans, layout: seq<VmapArea>, freeList: seq<VmapArea>, busyList: seq<VmapArea>,
                             tree: map<VmapArea, Key>,
      hand: set<VmapArea>, lo: nat, hi: nat)
  {
    Chained(m, layout, lo, hi) && Listed(layout, freeList, busyList, tree.Keys, hand) && Keyed(m, tree)
  }

  ghost function FreeSpans(m: Spans, tree: map<VmapArea, Key>): set<Span> {
    set a | a in tree && a in m :: m[a]
  }

  ghost function BusySpans(m: Spans, busyList: seq<VmapArea>): set<Span> {
    set a | a in busyList && a in m :: m[a]
  }

  lemma {:induction false} UnlinkDistinct(l: seq<VmapArea>, a: VmapArea)
    requires Distinct(l) && a in l
    ensures Distinct(Unlink(l, a)) && Elements(Unlink(l, a)) == Elements(l) - {a}
  {
    var x, y := Place(l, a);
    DistinctAround(x, a, y);
    UnlinkBetween(x, a, y);
    assert Elements(x + y) == Elements(l) - {a};
  }

  lemma {:induction false} DistinctAround(x: seq<VmapArea>, a: VmapArea, y: seq<VmapArea>)
    requires Distinct(x + [a] + y)
    ensures a !in x && a !in y && Distinct(x + y)
  {
    var l, r := x + [a] + y, x + y;
    assert l[|x|] == a;
    assert forall i :: 0 <= i < |x| ==> l[i] == x[i];
    assert forall i :: 0 <= i < |y| ==> l[|x| + 1 + i] == y[i];
    forall i, j | 0 <= i < j < |r|
      ensures r[i] != r[j]
    {
      assert r[i] == l[if i < |x| then i else i + 1] && r[j] == l[if j < |x| then j else j + 1];
    }
  }

  /** Without repetition, an area occurs at one place. */
  lemma {:induction false} MoreDistinct(l: seq<VmapArea>, a: VmapArea)
    requires Distinct(l) && a !in l
    ensures Distinct([a] + l) && Elements([a] + l) == Elements(l) + {a}
  {
  }

  lemma {:induction false} FreeUnlisted(m: Spans, layout: seq<VmapArea>, freeList: seq<VmapArea>,
                                        busyList: seq<VmapArea>, free: set<VmapArea>,
      hand: set<VmapArea>, lo: nat, hi: nat, a: VmapArea)
    requires Chained(m, layout, lo, hi) && Listed(layout, freeList, busyList, free, hand) && a in free
    ensures Listed(layout, Unlink(freeList, a), busyList, free - {a}, hand + {a})
  {
    hide Chain, Sub, Unlink, Distinct;
    var x, y := Place(layout, a) by { assert a in Elements(layout); }
    ChainAround(m, x, a, y, lo, hi);
    SubAround(x, a, y, free);
    SubAround(x, a, y, free - {a});
    SubSame(x, free, free - {a});
    SubSame(y, free, free - {a});
    SubElements(x, free);
    assert a !in Elements(x) && a !in Elements(Sub(x, free));
    UnlinkBetween(Sub(x, free), a, Sub(y, free));
  }

  /** A free area is taken off the list and out of the tree. */
  lemma {:induction false} FreeTaken(m: Spans, layout: seq<VmapArea>, freeList: seq<VmapArea>, busyList: seq<VmapArea>,
                                     tree: map<VmapArea, Key>,
      hand: set<VmapArea>, lo: nat, hi: nat, a: VmapArea)
    requires Consistent(m, layout, freeList, busyList, tree, hand, lo, hi) && a in tree
    ensures Consistent(m, layout, Unlink(freeList, a), busyList, tree - {a}, hand + {a}, lo, hi)
  {
    hide Chained, Listed, Unlink, KeyOf;
    FreeUnlisted(m, layout, freeList, busyList, tree.Keys, hand, lo, hi, a);
    assert (tree - {a}).Keys == tree.Keys - {a};
  }

  /** The place of an area in the free list: behind those with no higher start. */
  ghost predicate PlaceFor(m: Spans, freeList: seq<VmapArea>, a: VmapArea, i: nat) {
    && a in m && i <= |freeList| && (forall j :: 0 <= j < |freeList| ==> freeList[j] in m)
    && (forall j :: 0 <= j < i ==> m[freeList[j]].lo <= m[a].lo)
    && (i < |freeList| ==> m[freeList[i]].lo > m[a].lo)
  }

  lemma {:induction false} MiddleIs(m: Spans, u: seq<VmapArea>, v: seq<VmapArea>, a: VmapArea, i: nat, hi: nat)
    requires PlaceFor(m, u + v, a, i)
    requires Starts(m, u, 0, m[a].lo) && Starts(m, v, m[a].hi, hi) && m[a].lo < m[a].hi
    ensures i == |u| && (u + v)[..i] == u && (u + v)[i..] == v
  {
    assert forall j :: 0 <= j < |u| ==> (u + v)[j] == u[j];
    assert v != [] ==> (u + v)[|u|] == v[0];
  }

  lemma {:induction false} FreeListed(m: Spans, layout: seq<VmapArea>, freeList: seq<VmapArea>, busyList: seq<VmapArea>,
                                      free: set<VmapArea>,
      hand: set<VmapArea>, lo: nat, hi: nat, a: VmapArea, i: nat)
    requires Chained(m, layout, lo, hi) && Listed(layout, freeList, busyList, free, hand) && a in hand
    requires PlaceFor(m, freeList, a, i)
    ensures Listed(layout, freeList[..i] + [a] + freeList[i..], busyList, free + {a}, hand - {a})
  {
    hide Chain, Sub, Distinct, PlaceFor;
    var x, y := Place(layout, a) by { assert a in Elements(layout); }
    var f, f' := free, free + {a};
    ChainAround(m, x, a, y, lo, hi);
    SubAround(x, a, y, f);
    SubAround(x, a, y, f');
    SubSame(x, f, f');
    SubSame(y, f, f');
    assert freeList == Sub(x, f) + Sub(y, f);
    SubStarts(m, x, f, 0, m[a].lo);
    SubStarts(m, y, f, m[a].hi, hi);
    MiddleIs(m, Sub(x, f), Sub(y, f), a, i, hi);
  }

  /** An area in hand becomes free. */
  lemma {:induction false} FreePut(m: Spans, layout: seq<VmapArea>, freeList: seq<VmapArea>, busyList: seq<VmapArea>,
                                   tree: map<VmapArea, Key>,
      hand: set<VmapArea>, lo: nat, hi: nat, a: VmapArea, i: nat)
    requires Consistent(m, layout, freeList, busyList, tree, hand, lo, hi) && a in hand && PlaceFor(m, freeList, a, i)
    ensures Consistent(m, layout, freeList[..i] + [a] + freeList[i..], busyList, tree[a := KeyOf(m[a])], hand - {a},
                       lo, hi)
  {
    hide Chained, Listed, KeyOf;
    FreeListed(m, layout, freeList, busyList, tree.Keys, hand, lo, hi, a, i);
    assert tree[a := KeyOf(m[a])].Keys == tree.Keys + {a};
  }

  /** An area is cut in two. */
  lemma {:induction false} ChainSplits(m: Spans, x: seq<VmapArea>, a: VmapArea, y: seq<VmapArea>, b: VmapArea, lo: nat,
                                       hi: nat, mid: nat)
    requires Chained(m, x + [a] + y, lo, hi) && b !in m && a in m && m[a].lo < mid < m[a].hi
    requires mid % VA_ALIGN_DEFAULT == 0
    ensures Chained(m[a := Span(m[a].lo, mid)][b := Span(mid, m[a].hi)], x + [a] + ([b] + y), lo, hi)
  {
    hide Chain;
    var m' := m[a := Span(m[a].lo, mid)][b := Span(mid, m[a].hi)];
    ChainAround(m, x, a, y, lo, hi);
    assert b !in x && b !in y by { assert b !in Elements(x + [a] + y); }
    ChainSame(m, m', x, lo, m[a].lo);
    ChainSame(m, m', y, m[a].hi, hi);
    assert [] + [b] + y == [b] + y;
    assert Chain(m', [], mid, mid) by { EmptyChain(m', mid); }
    AroundChain(m', [], b, y, mid, hi);
    AroundChain(m', x, a, [b] + y, lo, hi);
    assert Elements(x + [a] + ([b] + y)) == Elements(x + [a] + y) + {b};
  }

  lemma {:induction false} EmptyChain(m: Spans, at: nat)
    ensures Chain(m, [], at, at)
  {
  }

  lemma {:induction false} ListSplits(x: seq<VmapArea>, a: VmapArea, y: seq<VmapArea>, b: VmapArea,
                                      freeList: seq<VmapArea>, busyList: seq<VmapArea>,
      free: set<VmapArea>, hand: set<VmapArea>)
    requires Listed(x + [a] + y, freeList, busyList, free, hand) && b !in x + [a] + y
    ensures Listed(x + [a] + ([b] + y), freeList, busyList, free, hand + {b})
  {
    hide Sub, Distinct;
    assert b !in Elements(x + [a] + y);
    SubAround(x, a, [b] + y, free);
    SubAround(x, a, y, free);
    SubConcat([b], y, free);
    SubOne(b, free);
    assert Sub([b] + y, free) == Sub(y, free);
    assert Elements(x + [a] + ([b] + y)) == Elements(x + [a] + y) + {b};
  }

  /** An area in hand is cut in two. */
  lemma {:induction false} AreaSplit(m: Spans, layout: seq<VmapArea>, freeList: seq<VmapArea>, busyList: seq<VmapArea>,
                                     tree: map<VmapArea, Key>,
      hand: set<VmapArea>, lo: nat, hi: nat, a: VmapArea, b: VmapArea, mid: nat) returns (layout': seq<VmapArea>)
    requires Consistent(m, layout, freeList, busyList, tree, hand, lo, hi) && a in hand && b !in m && a in m
    requires m[a].lo < mid < m[a].hi && mid % VA_ALIGN_DEFAULT == 0
    ensures Consistent(m[a := Span(m[a].lo, mid)][b := Span(mid, m[a].hi)], layout', freeList, busyList, tree,
                       hand + {b}, lo, hi)
  {
    hide KeyOf, Chain, Sub, Distinct;
    var x, y := Place(layout, a) by { assert a in Elements(layout); }
    layout' := x + [a] + ([b] + y);
    assert b !in layout by { assert b !in Elements(layout); }
    ChainSplits(m, x, a, y, b, lo, hi, mid);
    ListSplits(x, a, y, b, freeList, busyList, tree.Keys, hand);
  }

  /** One area in hand takes the place of another. */
  lemma {:induction false} AreaReplaced(m: Spans, layout: seq<VmapArea>, freeList: seq<VmapArea>,
                                        busyList: seq<VmapArea>, tree: map<VmapArea, Key>, hand: set<VmapArea>,
                                        lo: nat, hi: nat, a: VmapArea, b: VmapArea) returns (layout': seq<VmapArea>)
    requires Consistent(m, layout, freeList, busyList, tree, hand, lo, hi) && a in hand && b !in m && a in m
    ensures Consistent((m - {a})[b := m[a]], layout', freeList, busyList, tree, hand - {a} + {b}, lo, hi)
  {
    hide KeyOf, Chain, Sub, Distinct;
    var x, y := Place(layout, a) by { assert a in Elements(layout); }
    layout' := x + [b] + y;
    assert b !in layout by { assert b !in Elements(layout); }
    ChainAround(m, x, a, y, lo, hi);
    ChainReplaced(m, x, a, y, b, lo, hi);
    ListReplaced(x, a, y, b, freeList, busyList, tree.Keys, hand);
  }

  lemma {:induction false} ChainReplaced(m: Spans, x: seq<VmapArea>, a: VmapArea, y: seq<VmapArea>, b: VmapArea,
                                         lo: nat, hi: nat)
    requires Chained(m, x + [a] + y, lo, hi) && b !in m && a in m && a !in x && a !in y
    ensures Chained((m - {a})[b := m[a]], x + [b] + y, lo, hi)
  {
    hide Chain;
    var m' := (m - {a})[b := m[a]];
    ChainAround(m, x, a, y, lo, hi);
    assert b !in x && b !in y by { assert b !in Elements(x + [a] + y); }
    ChainSame(m, m', x, lo, m[a].lo);
    ChainSame(m, m', y, m[a].hi, hi);
    AroundChain(m', x, b, y, lo, hi);
    assert Elements(x + [b] + y) == Elements(x + [a] + y) - {a} + {b};
  }

  lemma {:induction false} ListReplaced(x: seq<VmapArea>, a: VmapArea, y: seq<VmapArea>, b: VmapArea,
                                        freeList: seq<VmapArea>, busyList: seq<VmapArea>, free: set<VmapArea>,
                                        hand: set<VmapArea>)
    requires Listed(x + [a] + y, freeList, busyList, free, hand) && b !in x + [a] + y && a in hand
    requires a !in x && a !in y
    ensures Listed(x + [b] + y, freeList, busyList, free, hand - {a} + {b})
  {
    hide Sub, Distinct;
    assert b !in Elements(x + [a] + y);
    SubAround(x, a, y, free);
    SubAround(x, b, y, free);
    assert Elements(x + [b] + y) == Elements(x + [a] + y) - {a} + {b};
  }

  /** An area in hand becomes busy. */
  lemma {:induction false} BusyPut(m: Spans, layout: seq<VmapArea>, freeList: seq<VmapArea>, busyList: seq<VmapArea>,
                                   tree: map<VmapArea, Key>,
      hand: set<VmapArea>, lo: nat, hi: nat, a: VmapArea)
    requires Consistent(m, layout, freeList, busyList, tree, hand, lo, hi) && a in hand
    ensures Consistent(m, layout, freeList, [a] + busyList, tree, hand - {a}, lo, hi)
  {
    hide Chained, Keyed, Sub;
    assert a !in busyList by { assert a !in Elements(busyList); }
    MoreDistinct(busyList, a);
    hide Elements, Distinct;
  }

  /** A busy area is taken off its list. */
  lemma {:induction false} BusyTaken(m: Spans, layout: seq<VmapArea>, freeList: seq<VmapArea>, busyList: seq<VmapArea>,
                                     tree: map<VmapArea, Key>,
      hand: set<VmapArea>, lo: nat, hi: nat, a: VmapArea)
    requires Consistent(m, layout, freeList, busyList, tree, hand, lo, hi) && a in busyList
    ensures Consistent(m, layout, freeList, Unlink(busyList, a), tree, hand + {a}, lo, hi)
  {
    hide Chained, Keyed, Sub, Unlink;
    assert a in Elements(busyList);
    UnlinkDistinct(busyList, a);
    hide Elements, Distinct;
  }

  /** A chain of no length has no areas. */
  lemma {:induction false} NoRoom(m: Spans, l: seq<VmapArea>, at: nat)
    requires Chain(m, l, at, at)
    ensures l == []
  {
    if l != [] {
      ChainBounds(m, l[1..], m[l[0]].hi, at);
    }
  }

  /** The area that ends where another starts is the one before it. */
  lemma {:induction false} JustBefore(m: Spans, x: seq<VmapArea>, a: VmapArea, y: seq<VmapArea>, p: VmapArea, lo: nat,
                                      hi: nat) returns (u: seq<VmapArea>)
    requires Chained(m, x + [a] + y, lo, hi) && p in m && a in m && m[p].hi == m[a].lo
    ensures x == u + [p] && p != a
  {
    hide Chain;
    ChainAround(m, x, a, y, lo, hi);
    assert p in Elements(x + [a] + y);
    InLayout(m, x + [a] + y, lo, hi, p);
    assert p in x;
    var v;
    u, v := Place(x, p);
    ChainAround(m, u, p, v, lo, m[a].lo);
    NoRoom(m, v, m[a].lo);
  }

  lemma {:induction false} InLayout(m: Spans, l: seq<VmapArea>, lo: nat, hi: nat, a: VmapArea)
    requires Chain(m, l, lo, hi) && a in l
    ensures a in m && lo <= m[a].lo < m[a].hi <= hi
    ensures lo % VA_ALIGN_DEFAULT == 0 ==> m[a].lo % VA_ALIGN_DEFAULT == 0 && m[a].hi % VA_ALIGN_DEFAULT == 0
  {
    hide Chain;
    ChainBounds(m, l, lo, hi);
    var i :| 0 <= i < |l| && l[i] == a;
  }

  lemma {:induction false} ChainMerges(m: Spans, u: seq<VmapArea>, p: VmapArea, a: VmapArea, y: seq<VmapArea>, lo: nat,
                                       hi: nat)
    requires Chained(m, u + [p] + [a] + y, lo, hi) && p in m && a in m && m[p].hi == m[a].lo && p != a
    ensures Chained(m[p := Span(m[p].lo, m[a].hi)] - {a}, u + [p] + y, lo, hi)
  {
    hide Chain;
    var m' := m[p := Span(m[p].lo, m[a].hi)] - {a};
    ChainAround(m, u + [p], a, y, lo, hi);
    assert u + [p] == u + [p] + [];
    ChainAround(m, u, p, [], lo, m[a].lo);
    ChainSame(m, m', u, lo, m[p].lo);
    ChainSame(m, m', y, m[a].hi, hi);
    AroundChain(m', u, p, y, lo, hi);
    assert Elements(u + [p] + y) == Elements(u + [p] + [a] + y) - {a};
  }

  lemma {:induction false} ListMerges(x: seq<VmapArea>, a: VmapArea, y: seq<VmapArea>, freeList: seq<VmapArea>,
                                      busyList: seq<VmapArea>,
      free: set<VmapArea>, hand: set<VmapArea>)
    requires Listed(x + [a] + y, freeList, busyList, free, hand) && a in hand && a !in x && a !in y
    ensures Listed(x + y, freeList, busyList, free, hand - {a})
  {
    hide Sub, Distinct;
    SubAround(x, a, y, free);
    SubConcat(x, y, free);
    assert Elements(x + y) == Elements(x + [a] + y) - {a};
  }

  /** Two areas in hand, one ending where the other starts, become one. */
  lemma {:induction false} AreasMerged(m: Spans, layout: seq<VmapArea>, freeList: seq<VmapArea>,
                                       busyList: seq<VmapArea>, tree: map<VmapArea, Key>,
      hand: set<VmapArea>, lo: nat, hi: nat, p: VmapArea, a: VmapArea) returns (layout': seq<VmapArea>)
    requires Consistent(m, layout, freeList, busyList, tree, hand, lo, hi) && p in hand && a in hand && p in m && a in m
    requires m[p].hi == m[a].lo
    ensures p != a
    ensures Consistent(m[p := Span(m[p].lo, m[a].hi)] - {a}, layout', freeList, busyList, tree, hand - {a}, lo, hi)
  {
    hide KeyOf, Chain, Sub, Distinct;
    var x, y := Place(layout, a) by { assert a in Elements(layout); }
    ChainAround(m, x, a, y, lo, hi);
    var u := JustBefore(m, x, a, y, p, lo, hi);
    layout' := u + [p] + y;
    ChainMerges(m, u, p, a, y, lo, hi);
    ListMerges(x, a, y, freeList, busyList, tree.Keys, hand);
  }

  /** What the lists and the tree hold lies in the range. */
  lemma {:induction false} InTreeHand(m: Spans, layout: seq<VmapArea>, freeList: seq<VmapArea>, busyList: seq<VmapArea>,
                                      tree: map<VmapArea, Key>,
      hand: set<VmapArea>, lo: nat, hi: nat)
    requires Consistent(m, layout, freeList, busyList, tree, hand, lo, hi)
    ensures Elements(freeList) == tree.Keys && tree.Keys !! hand && tree.Keys <= m.Keys && hand <= m.Keys
    ensures Elements(busyList) == m.Keys - tree.Keys - hand && Starts(m, freeList, 0, hi)
  {
    hide Chain, Sub, KeyOf, Distinct;
    SubElements(layout, tree.Keys);
    ChainBounds(m, layout, lo, hi);
    SubStarts(m, layout, tree.Keys, 0, hi);
  }

  /** One free area, the whole range. */
  lemma {:induction false} OneArea(m: Spans, a: VmapArea, tree: map<VmapArea, Key>, lo: nat, hi: nat)
    requires 0 < lo < hi && lo % VA_ALIGN_DEFAULT == 0 && hi % VA_ALIGN_DEFAULT == 0
    requires m == map[a := Span(lo, hi)] && tree == map[a := Key(hi - lo, lo)]
    ensures Consistent(m, [a], [a], [], tree, {}, lo, hi) && FreeSpans(m, tree) == {Span(lo, hi)}
    ensures BusySpans(m, []) == {}
  {
    assert [a][1..] == [];
    SubOne(a, {a});
    assert Elements([a]) == {a};
    assert tree.Keys == {a} && m.Keys == {a};
  }

  // ---------------------------------------------------------------------------
  // The ranges, without the areas that stand for them
  // ---------------------------------------------------------------------------

  /** Different areas have different ranges, even different ends. */
  lemma {:induction false} OneAreaEach(m: Spans, layout: seq<VmapArea>, lo: nat, hi: nat, a: VmapArea, b: VmapArea)
    requires Chained(m, layout, lo, hi) && a in m && b in m && (m[a].lo == m[b].lo || m[a].hi == m[b].hi)
    ensures a == b
  {
    hide Chain;
    assert a in Elements(layout) && b in Elements(layout);
    var i :| 0 <= i < |layout| && layout[i] == a;
    var j :| 0 <= j < |layout| && layout[j] == b;
    ChainBounds(m, layout, lo, hi);
    if i < j {
      ChainOrder(m, layout, lo, hi, i, j);
    } else if j < i {
      ChainOrder(m, layout, lo, hi, j, i);
    }
  }

  lemma {:induction false} FreeSpansLess(m: Spans, layout: seq<VmapArea>, lo: nat, hi: nat, tree: map<VmapArea, Key>,
                                         a: VmapArea)
    requires Chained(m, layout, lo, hi) && a in tree && a in m
    ensures FreeSpans(m, tree - {a}) == FreeSpans(m, tree) - {m[a]}
  {
    hide Chained;
    forall b | b in tree && b in m && m[b] == m[a]
      ensures b == a
    {
      OneAreaEach(m, layout, lo, hi, a, b);
    }
  }

  lemma {:induction false} FreeSpansMore(m: Spans, tree: map<VmapArea, Key>, a: VmapArea, k: Key)
    requires a in m
    ensures FreeSpans(m, tree[a := k]) == FreeSpans(m, tree) + {m[a]}
  {
    assert a in tree[a := k];
  }

  lemma {:induction false} BusySpansLess(m: Spans, layout: seq<VmapArea>, lo: nat, hi: nat, busyList: seq<VmapArea>,
                                         a: VmapArea)
    requires Chained(m, layout, lo, hi) && a in busyList && a in m && Distinct(busyList)
    ensures BusySpans(m, Unlink(busyList, a)) == BusySpans(m, busyList) - {m[a]}
  {
    hide Chained, Unlink, Distinct;
    UnlinkDistinct(busyList, a);
    forall b | b in busyList && b in m && m[b] == m[a]
      ensures b == a
    {
      OneAreaEach(m, layout, lo, hi, a, b);
    }
    assert forall b :: b in m ==> (b in Unlink(busyList, a) <==> b in Elements(Unlink(busyList, a)));
  }

  lemma {:induction false} BusySpansMore(m: Spans, busyList: seq<VmapArea>, a: VmapArea)
    ensures BusySpans(m, [a] + busyList) == BusySpans(m, busyList) + (if a in m then {m[a]} else {})
  {
    assert a in [a] + busyList;
  }

  /** Only the spans of the areas in question count. */
  lemma {:induction false} SpansSame(m: Spans, m': Spans, tree: map<VmapArea, Key>, busyList: seq<VmapArea>)
    requires forall a :: a in m && (a in tree || a in busyList) ==> a in m' && m'[a] == m[a]
    requires forall a :: a in m' && (a in tree || a in busyList) ==> a in m
    ensures FreeSpans(m', tree) == FreeSpans(m, tree) && BusySpans(m', busyList) == BusySpans(m, busyList)
  {
  }

  /** The free areas in the order of the list do not overlap. */
  ghost predicate Ordered(m: Spans, l: seq<VmapArea>) {
    && (forall i :: 0 <= i < |l| ==> l[i] in m && m[l[i]].lo < m[l[i]].hi)
    && forall i, j :: 0 <= i < j < |l| ==> m[l[i]].hi <= m[l[j]].lo
  }

  lemma {:induction false} SubOrdered(m: Spans, l: seq<VmapArea>, f: set<VmapArea>, lo: nat, hi: nat)
    requires Chain(m, l, lo, hi)
    ensures Ordered(m, Sub(l, f)) && Starts(m, Sub(l, f), lo, hi)
  {
    if l != [] {
      var rest := Sub(l[1..], f);
      SubOrdered(m, l[1..], f, m[l[0]].hi, hi);
      ChainBounds(m, l, lo, hi);
      if l[0] in f {
        OrderedMore(m, l[0], rest, hi);
      }
    }
  }

  lemma {:induction false} OrderedMore(m: Spans, a: VmapArea, rest: seq<VmapArea>, hi: nat)
    requires a in m && m[a].lo < m[a].hi && Ordered(m, rest) && Starts(m, rest, m[a].hi, hi)
    ensures Ordered(m, [a] + rest)
  {
  }

  /** The smallest range that is large enough, the lowest of several. */
  ghost predicate BestFit(free: set<Span>, size: nat, s: Span) {
    && s in free && s.lo + size <= s.hi
    && forall t ::
         t in free && t.lo + size <= t.hi ==> s.hi - s.lo < t.hi - t.lo || (s.hi - s.lo == t.hi - t.lo && s.lo <= t.lo)
  }

  ghost predicate NoneFits(free: set<Span>, size: nat) {
    forall t :: t in free ==> t.lo + size > t.hi
  }

  /** A size rounded up to whole pages. */
  function Rounded(size: nat): (r: nat)
    ensures size <= r < size + VA_ALIGN_DEFAULT && r % VA_ALIGN_DEFAULT == 0
  {
    (size + VA_ALIGN_DEFAULT - 1) / VA_ALIGN_DEFAULT * VA_ALIGN_DEFAULT
  }

  const TWO64: nat := 0x1_0000_0000_0000_0000

  /** The rounding as the machine does it: (size + 4095) & ~4095 on 64 bits. */
  function MachineRounded(size: nat): nat {
    (size + VA_ALIGN_DEFAULT - 1) % TWO64 / VA_ALIGN_DEFAULT * VA_ALIGN_DEFAULT
  }

  /** It rounds up exactly if the sum does not wrap around; otherwise a request for almost the whole
      address space becomes one for nothing, which every free area is large enough for. */
  lemma {:induction false} RoundsUpExactly(size: nat)
    requires size < TWO64
    ensures MachineRounded(size) >= size <==> size + VA_ALIGN_DEFAULT <= TWO64
    ensures size + VA_ALIGN_DEFAULT <= TWO64 ==> MachineRounded(size) == Rounded(size)
    ensures size + VA_ALIGN_DEFAULT > TWO64 ==> MachineRounded(size) == 0
  {
    var sum := size + VA_ALIGN_DEFAULT - 1;
    assert sum >= TWO64 ==> sum % TWO64 == sum - TWO64;
  }

  /** The free ranges when b becomes free: a free range that ends where b starts takes it in. */
  ghost function Joined(free: set<Span>, b: Span): set<Span> {
    if p: Span :| p in free && p.hi == b.lo then free - {p} + {Span(p.lo, b.hi)} else free + {b}
  }

  /** The free ranges are those of the free list. */
  lemma {:induction false} FromList(m: Spans, freeList: seq<VmapArea>, tree: map<VmapArea, Key>)
    requires Elements(freeList) == tree.Keys <= m.Keys
    ensures forall s ::
              s in FreeSpans(m, tree) ==> exists i :: 0 <= i < |freeList| && freeList[i] in m && m[freeList[i]] == s
    ensures forall i ::
              0 <= i < |freeList| ==> freeList[i] in tree && freeList[i] in m && m[freeList[i]] in FreeSpans(m, tree)
  {
    forall s | s in FreeSpans(m, tree)
      ensures exists i :: 0 <= i < |freeList| && freeList[i] in m && m[freeList[i]] == s
    {
      var a :| a in tree && a in m && m[a] == s;
      assert a in Elements(freeList);
    }
    forall i | 0 <= i < |freeList|
      ensures freeList[i] in tree
    {
      assert freeList[i] in Elements(freeList);
    }
  }

  /** The free list is ordered and holds the areas of the tree, none of which starts at 0. */
  lemma {:induction false} ListFacts(m: Spans, layout: seq<VmapArea>, freeList: seq<VmapArea>, busyList: seq<VmapArea>,
                                     tree: map<VmapArea, Key>,
      hand: set<VmapArea>, lo: nat, hi: nat)
    requires Consistent(m, layout, freeList, busyList, tree, hand, lo, hi)
    ensures Elements(freeList) == tree.Keys <= m.Keys && Ordered(m, freeList) && Starts(m, freeList, lo, hi)
    ensures forall a :: a in tree ==> tree[a].start != 0
  {
    hide Chain, Sub, Distinct;
    SubElements(layout, tree.Keys);
    SubOrdered(m, layout, tree.Keys, lo, hi);
    ChainBounds(m, layout, lo, hi);
    forall a | a in tree
      ensures tree[a].start != 0
    {
      assert a in Elements(layout);
      InLayout(m, layout, lo, hi, a);
    }
  }

  lemma {:induction false} NoneInList(m: Spans, freeList: seq<VmapArea>, tree: map<VmapArea, Key>, size: nat)
    requires Elements(freeList) == tree.Keys <= m.Keys
    requires forall j :: 0 <= j < |freeList| && freeList[j] in m ==> m[freeList[j]].lo + size > m[freeList[j]].hi
    ensures NoneFits(FreeSpans(m, tree), size)
  {
    hide FreeSpans;
    FromList(m, freeList, tree);
  }

  lemma {:induction false} BestInList(m: Spans, freeList: seq<VmapArea>, tree: map<VmapArea, Key>, size: nat, k: nat,
                                      hi: nat)
    requires Elements(freeList) == tree.Keys <= m.Keys && Ordered(m, freeList) && k < |freeList|
    requires var b := m[freeList[k]];
             && b.lo + size <= b.hi
             && forall j :: 0 <= j < |freeList| && freeList[j] in m ==>
                  var t := m[freeList[j]]; t.lo + size <= t.hi ==>
                    b.hi - b.lo < t.hi - t.lo || (b.hi - b.lo == t.hi - t.lo && k <= j)
    ensures freeList[k] in tree && freeList[k] in m && BestFit(FreeSpans(m, tree), size, m[freeList[k]])
  {
    hide FreeSpans;
    FromList(m, freeList, tree);
  }

  /** An area in hand, and one that is not there yet, are on no list. */
  lemma {:induction false} NotListed(freeList: seq<VmapArea>, busyList: seq<VmapArea>, tree: map<VmapArea, Key>,
                                     m: Spans, hand: set<VmapArea>, a: VmapArea, b: VmapArea)
    requires tree.Keys !! hand && tree.Keys <= m.Keys && Elements(busyList) == m.Keys - tree.Keys - hand && a in hand
    requires b !in m
    ensures a !in tree && b !in tree && a !in busyList && b !in busyList
  {
    assert a !in Elements(busyList) && b !in Elements(busyList);
  }

  /** The bounds of an area. */
  lemma {:induction false} AreaBounds(m: Spans, layout: seq<VmapArea>, freeList: seq<VmapArea>, busyList: seq<VmapArea>,
                                      tree: map<VmapArea, Key>,
      hand: set<VmapArea>, lo: nat, hi: nat, a: VmapArea)
    requires Consistent(m, layout, freeList, busyList, tree, hand, lo, hi) && a in m
    ensures 0 < lo <= m[a].lo < m[a].hi <= hi && m[a].lo % VA_ALIGN_DEFAULT == 0 && m[a].hi % VA_ALIGN_DEFAULT == 0
  {
    hide Chain, Sub, Distinct;
    assert a in Elements(layout);
    InLayout(m, layout, lo, hi, a);
  }

  lemma {:induction false} FitIsFit(free: set<Span>, size: nat, s: Span)
    requires BestFit(free, size, s)
    ensures s in free && s.lo + size <= s.hi && !NoneFits(free, size)
  {
  }

  lemma {:induction false} RoundedPage(n: nat)
    requires n % VA_ALIGN_DEFAULT == 0
    ensures Rounded(n) == n
  {
  }

  lemma {:induction false} SumOfPages(n: nat, m: nat)
    requires n % VA_ALIGN_DEFAULT == 0 && m % VA_ALIGN_DEFAULT == 0
    ensures (n + m) % VA_ALIGN_DEFAULT == 0
  {
  }

  lemma {:induction false} NotListed2(busyList: seq<VmapArea>, tree: map<VmapArea, Key>, m: Spans, hand: set<VmapArea>,
                                      a: VmapArea, b: VmapArea)
    requires tree.Keys !! hand && Elements(busyList) == m.Keys - tree.Keys - hand && a in hand && b in hand
    ensures a !in tree && b !in tree && a !in busyList && b !in busyList
  {
    assert a !in Elements(busyList) && b !in Elements(busyList);
  }

  /** The busy ranges are those of the busy list; no two start alike, and none starts at 0. */
  lemma {:induction false} BusyFacts(m: Spans, layout: seq<VmapArea>, freeList: seq<VmapArea>, busyList: seq<VmapArea>,
                                     tree: map<VmapArea, Key>,
      hand: set<VmapArea>, lo: nat, hi: nat)
    requires Consistent(m, layout, freeList, busyList, tree, hand, lo, hi)
    ensures forall i :: 0 <= i < |busyList| ==> busyList[i] in m && m[busyList[i]] in BusySpans(m, busyList)
    ensures forall s :: s in BusySpans(m, busyList) ==>
              s.lo > 0 && exists i :: 0 <= i < |busyList| && busyList[i] in m && m[busyList[i]] == s
    ensures forall s, t :: s in BusySpans(m, busyList) && t in BusySpans(m, busyList) && s.lo == t.lo ==> s == t
  {
    hide Chain, Sub, Distinct;
    forall i | 0 <= i < |busyList|
      ensures busyList[i] in m
    {
      assert busyList[i] in Elements(busyList);
    }
    forall s | s in BusySpans(m, busyList)
      ensures s.lo > 0 && exists i :: 0 <= i < |busyList| && busyList[i] in m && m[busyList[i]] == s
    {
      var a :| a in busyList && a in m && m[a] == s;
      AreaBounds(m, layout, freeList, busyList, tree, hand, lo, hi, a);
    }
    forall s, t | s in BusySpans(m, busyList) && t in BusySpans(m, busyList) && s.lo == t.lo
      ensures s == t
    {
      var a :| a in busyList && a in m && m[a] == s;
      var b :| b in busyList && b in m && m[b] == t;
      OneAreaEach(m, layout, lo, hi, a, b);
    }
  }

  /** No two free ranges end alike. */
  lemma {:induction false} FreeEnds(m: Spans, layout: seq<VmapArea>, freeList: seq<VmapArea>, busyList: seq<VmapArea>,
                                    tree: map<VmapArea, Key>,
      hand: set<VmapArea>, lo: nat, hi: nat)
    requires Consistent(m, layout, freeList, busyList, tree, hand, lo, hi)
    ensures forall s, t :: s in FreeSpans(m, tree) && t in FreeSpans(m, tree) && s.hi == t.hi ==> s == t
  {
    hide Chain, Sub, Distinct;
    forall s, t | s in FreeSpans(m, tree) && t in FreeSpans(m, tree) && s.hi == t.hi
      ensures s == t
    {
      var a :| a in tree && a in m && m[a] == s;
      var b :| b in tree && b in m && m[b] == t;
      OneAreaEach(m, layout, lo, hi, a, b);
    }
  }

  lemma {:induction false} JoinedAt(free: set<Span>, b: Span, p: Span)
    requires p in free && p.hi == b.lo && forall q :: q in free && q.hi == p.hi ==> q == p
    ensures Joined(free, b) == free - {p} + {Span(p.lo, b.hi)}
  {
  }

  lemma {:induction false} JoinedNone(free: set<Span>, b: Span)
    requires forall q :: q in free ==> q.hi != b.lo
    ensures Joined(free, b) == free + {b}
  {
  }

  /** No free range ends where another starts. */
  ghost predicate NoneTouch(free: set<Span>) {
    forall s, t :: s in free && t in free ==> s.hi != t.lo
  }

  /** A range that becomes free leaves the free ranges apart exactly if they were, and none of them starts
      where it ends. */
  lemma {:induction false} TouchExactly(free: set<Span>, busy: set<Span>, b: Span, lo: nat, hi: nat)
    requires Tiles(free + busy, lo, hi) && free !! busy && b in busy
    ensures NoneTouch(Joined(free, b)) <==> NoneTouch(free) && forall s :: s in free ==> s.lo != b.hi
  {
    assert b in free + busy;
    forall s | s in free
      ensures s != b && s.lo < s.hi && (s.hi <= b.lo || b.hi <= s.lo)
    {
      assert s in free + busy;
    }
    forall s, t | s in free && t in free && s != t
      ensures s.hi <= t.lo || t.hi <= s.lo
    {
      assert s in free + busy && t in free + busy;
    }
    if p :| p in free && p.hi == b.lo {
      JoinedAt(free, b, p);
      TouchJoined(free, b, p);
    } else {
      JoinedNone(free, b);
      TouchMore(free, b);
    }
  }

  lemma {:induction false} TouchMore(free: set<Span>, b: Span)
    requires b.lo < b.hi && forall s :: s in free ==> s.hi != b.lo
    ensures NoneTouch(free + {b}) <==> NoneTouch(free) && forall s :: s in free ==> s.lo != b.hi
  {
    if NoneTouch(free + {b}) {
      assert b in free + {b};
      assert forall s :: s in free ==> s in free + {b};
    }
  }

  lemma {:induction false} TouchJoined(free: set<Span>, b: Span, p: Span)
    requires p in free && p.hi == b.lo && b.lo < b.hi
    requires forall s :: s in free ==> s.lo < s.hi && (s.hi <= b.lo || b.hi <= s.lo)
    requires forall s, t :: s in free && t in free && s != t ==> s.hi <= t.lo || t.hi <= s.lo
    ensures NoneTouch(free - {p} + {Span(p.lo, b.hi)}) <==> NoneTouch(free) && forall s :: s in free ==> s.lo != b.hi
  {
    var all, q := free - {p} + {Span(p.lo, b.hi)}, Span(p.lo, b.hi);
    assert q in all;
    assert forall s :: s in free && s != p ==> s in all;
    if NoneTouch(all) {
      forall s, t | s in free && t in free
        ensures s.hi != t.lo
      {
        if s == p && t != p {
          assert t in all;
        } else if t == p && s != p {
          assert s in all && q.lo == p.lo;
        } else if s != p {
          assert s in all && t in all;
        }
      }
    }
  }

  /** Ranges of whole pages that do not overlap and leave no address of the range out. */
  ghost predicate Tiles(ranges: set<Span>, lo: nat, hi: nat) {
    && (forall s :: s in ranges ==>
          lo <= s.lo < s.hi <= hi && s.lo % VA_ALIGN_DEFAULT == 0 && s.hi % VA_ALIGN_DEFAULT == 0)
    && (forall s, t :: s in ranges && t in ranges && s != t ==> s.hi <= t.lo || t.hi <= s.lo)
    && (forall x: nat :: lo <= x < hi ==> Covered(ranges, x))
  }

  ghost predicate Covered(ranges: set<Span>, x: nat) {
    exists s :: s in ranges && s.lo <= x < s.hi
  }

  /** The ranges of all areas tile the range. */
  lemma {:induction false} AreasTile(m: Spans, layout: seq<VmapArea>, lo: nat, hi: nat, ranges: set<Span>)
    requires Chained(m, layout, lo, hi)
    requires (forall a :: a in m ==> m[a] in ranges) && forall s :: s in ranges ==> exists a :: a in m && m[a] == s
    ensures Tiles(ranges, lo, hi)
  {
    hide Chain;
    ChainBounds(m, layout, lo, hi);
    forall s | s in ranges
      ensures lo <= s.lo < s.hi <= hi && s.lo % VA_ALIGN_DEFAULT == 0 && s.hi % VA_ALIGN_DEFAULT == 0
    {
      var a :| a in m && m[a] == s;
      assert a in Elements(layout);
      InLayout(m, layout, lo, hi, a);
    }
    forall s, t | s in ranges && t in ranges && s != t
      ensures s.hi <= t.lo || t.hi <= s.lo
    {
      var a :| a in m && m[a] == s;
      var b :| b in m && m[b] == t;
      Apart(m, layout, lo, hi, a, b);
    }
    forall x: nat | lo <= x < hi
      ensures Covered(ranges, x)
    {
      ChainTiles(m, layout, lo, hi, x);
      var i :| 0 <= i < |layout| && layout[i] in m && m[layout[i]].lo <= x < m[layout[i]].hi;
      assert m[layout[i]] in ranges;
    }
  }

  /** The free and the busy ranges together tile the range, and none is both. */
  lemma {:induction false} AllTiled(m: Spans, layout: seq<VmapArea>, freeList: seq<VmapArea>, busyList: seq<VmapArea>,
                                    tree: map<VmapArea, Key>, lo: nat, hi: nat)
    requires Consistent(m, layout, freeList, busyList, tree, {}, lo, hi)
    ensures Tiles(FreeSpans(m, tree) + BusySpans(m, busyList), lo, hi) && FreeSpans(m, tree) !! BusySpans(m, busyList)
  {
    hide Chain, Sub, Distinct, FreeSpans, BusySpans, Elements, Tiles;
    RangesAre(m, tree, busyList);
    AreasTile(m, layout, lo, hi, FreeSpans(m, tree) + BusySpans(m, busyList));
    forall a, b | a in m && b in m && a != b
      ensures m[a] != m[b]
    {
      Apart(m, layout, lo, hi, a, b);
    }
    NotBoth(m, tree, busyList);
  }

  lemma {:induction false} Apart(m: Spans, layout: seq<VmapArea>, lo: nat, hi: nat, a: VmapArea, b: VmapArea)
    requires Chained(m, layout, lo, hi) && a in m && b in m && a != b
    ensures m[a] != m[b] && (m[a].hi <= m[b].lo || m[b].hi <= m[a].lo)
  {
    hide Chain;
    assert a in Elements(layout) && b in Elements(layout);
    var i :| 0 <= i < |layout| && layout[i] == a;
    var j :| 0 <= j < |layout| && layout[j] == b;
    ChainBounds(m, layout, lo, hi);
    if i < j {
      ChainOrder(m, layout, lo, hi, i, j);
    } else {
      ChainOrder(m, layout, lo, hi, j, i);
    }
  }

  /** Every area's range is free or busy, and every range is some area's. */
  lemma {:induction false} RangesAre(m: Spans, tree: map<VmapArea, Key>, busyList: seq<VmapArea>)
    requires tree.Keys <= m.Keys && Elements(busyList) == m.Keys - tree.Keys - {}
    ensures forall a :: a in m ==> m[a] in FreeSpans(m, tree) + BusySpans(m, busyList)
    ensures forall s :: s in FreeSpans(m, tree) + BusySpans(m, busyList) ==> exists a :: a in m && m[a] == s
  {
    forall a | a in m
      ensures m[a] in FreeSpans(m, tree) + BusySpans(m, busyList)
    {
      if a !in tree {
        assert a in Elements(busyList);
      }
    }
  }

  lemma {:induction false} NotBoth(m: Spans, tree: map<VmapArea, Key>, busyList: seq<VmapArea>)
    requires (forall a, b :: a in m && b in m && a != b ==> m[a] != m[b])
    requires Elements(busyList) == m.Keys - tree.Keys - {}
    ensures FreeSpans(m, tree) !! BusySpans(m, busyList)
  {
    forall s | s in FreeSpans(m, tree)
      ensures s !in BusySpans(m, busyList)
    {
      var a :| a in tree && a in m && m[a] == s;
      assert a !in Elements(busyList);
      forall b | b in busyList && b in m
        ensures m[b] != s
      {
        assert b in Elements(busyList);
      }
    }
  }
}
