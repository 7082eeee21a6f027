/** Editing a finished blob in place: nodes and properties are blanked out, deleted, set and added. */
module FdtEdit {
  import opened Common
  import opened FdtBlob
  import opened FdtReader
  import opened FdtWriter
  import opened FdtTree
  import opened FdtLayout

  const FDT_ERR_BADLAYOUT: int := 12

  // ---------------------------------------------------------------------------
  // Names do not change
  // ---------------------------------------------------------------------------

  /** Both blobs are finished, and the strings block of the second begins with that of the first. */
  ghost predicate GrownStrings(f: Fdt, f': Fdt) {
    && Sane(f) && Sane(f') && f.magic == f'.magic == FDT_MAGIC && f.totalSize < INT_MAX && f'.totalSize < INT_MAX
    && f.offStrings + f.sizeStrings <= f.totalSize && f'.offStrings + f'.sizeStrings <= f'.totalSize
    && f.sizeStrings <= f'.sizeStrings
    && HasBytes(f'.bytes, f'.offStrings, f.bytes[f.offStrings..f.offStrings + f.sizeStrings])
  }

  lemma {:induction false} NulInSlice(b: Bytes, at: nat, n: nat, i: nat)
    requires at + n <= |b| && i <= n
    ensures var r := FindNul(b[at..at + n], i, n); FindNul(b, at + i, at + n) == if r == -1 then -1 else at + r
    decreases n - i
  {
    if i < n {
      assert b[at..at + n][i] == b[at + i];
      NulInSlice(b, at, n, i + 1);
    }
  }

  /** A string depends on the bytes it is looked for in. */
  lemma {:induction false} StringInSlice(b: Bytes, at: nat, n: nat)
    requires at + n <= |b|
    ensures StringIn(b, at, n) == StringIn(b[at..at + n], 0, n)
  {
    hide FindNul;
    NulInSlice(b, at, n, 0);
    var r := FindNul(b[at..at + n], 0, n);
    if r != -1 {
      assert b[at..at + r] == b[at..at + n][0..r];
    }
  }

  lemma {:induction false} SubSlice(b: Bytes, b': Bytes, from: nat, to: nat, n: nat, off: nat)
    requires from + n <= |b| && HasBytes(b', to, b[from..from + n]) && off <= n
    ensures to + n <= |b'| && b[from + off..from + n] == b'[to + off..to + n]
  {
    assert b[from + off..from + n] == b[from..from + n][off..];
    assert b'[to + off..to + n] == b'[to..to + n][off..];
  }

  /** A string that ends within a range is found in any longer one. */
  lemma {:induction false} LongerRange(b: Bytes, at: nat, n: nat, n': nat)
    requires n <= n' && at + n' <= |b| && FindNul(b, at, at + n) != -1
    ensures FindNul(b, at, at + n') == FindNul(b, at, at + n)
    decreases n
  {
    if b[at] != 0 {
      LongerRange(b, at + 1, n - 1, n' - 1);
    }
  }

  lemma {:induction false} SomeInBlock(f: Fdt, stroffset: int)
    requires Sane(f) && f.magic == FDT_MAGIC && GetString(f, stroffset).Some?
    ensures 0 <= stroffset < f.sizeStrings
  {
  }

  /** A name that could be read still reads the same. */
  lemma {:induction false} SameName(f: Fdt, f': Fdt, stroffset: int)
    requires GrownStrings(f, f') && -(TWO32 as int) < stroffset < TWO32 && GetString(f, stroffset).Some?
    ensures GetString(f', stroffset) == GetString(f, stroffset)
  {
    hide HasBytes, FindNul, GetString, StringIn;
    SomeInBlock(f, stroffset);
    var n := f.sizeStrings - stroffset;
    SubSlice(f.bytes, f'.bytes, f.offStrings, f'.offStrings, f.sizeStrings, stroffset);
    NameInBlock(f, stroffset);
    NameInBlock(f', stroffset);
    var s, s' := f.bytes[f.offStrings + stroffset..f.offStrings + f.sizeStrings],
        f'.bytes[f'.offStrings + stroffset..f'.offStrings + f'.sizeStrings];
    assert s'[..n] == f'.bytes[f'.offStrings + stroffset..f'.offStrings + stroffset + n];
    PrefixFound(s, s', n);
  }

  lemma {:induction false} PrefixFound(s: Bytes, s': Bytes, n: nat)
    requires |s| == n <= |s'| && s == s'[..n] && StringIn(s, 0, n).Some?
    ensures StringIn(s', 0, |s'|) == StringIn(s, 0, n)
  {
    hide FindNul;
    NulInSlice(s', 0, n, 0);
    assert s'[0..0 + n] == s;
    LongerRange(s', 0, n, |s'|);
    var r := FindNul(s, 0, n);
    assert s[0..r] == s'[0..r];
  }

  /** In a finished blob a name is looked for up to the end of the strings block. */
  lemma {:induction false} NameInBlock(f: Fdt, stroffset: nat)
    requires Sane(f) && f.magic == FDT_MAGIC && f.totalSize < INT_MAX && f.offStrings + f.sizeStrings <= f.totalSize
    requires stroffset < f.sizeStrings
    ensures GetString(f, stroffset) == StringIn(f.bytes[f.offStrings + stroffset..f.offStrings + f.sizeStrings], 0,
                                                f.sizeStrings - stroffset)
  {
    hide StringIn;
    StringInSlice(f.bytes, f.offStrings + stroffset, f.sizeStrings - stroffset);
  }

  lemma {:induction false} SameMeaning(f: Fdt, f': Fdt, es: seq<Event>)
    requires GrownStrings(f, f') && Named(f, es) && forall e :: e in es && e.Prop? ==> e.nameoff < TWO32
    ensures Means(f', es) == Means(f, es) && Named(f', es)
  {
    assert Sane(f) && Sane(f');
    hide GetString, GrownStrings;
    forall e | e in es && e.Prop?
      ensures GetString(f', Signed(e.nameoff)) == GetString(f, Signed(e.nameoff))
    {
      SameName(f, f', Signed(e.nameoff));
    }
    SameMeans(f, f', es);
  }

  lemma {:induction false} SameMeans(f: Fdt, f': Fdt, es: seq<Event>)
    requires Sane(f) && Sane(f')
    requires forall e :: e in es && e.Prop? ==> GetString(f', Signed(e.nameoff)) == GetString(f, Signed(e.nameoff))
    ensures Means(f', es) == Means(f, es)
  {
    hide GetString;
    if es != [] {
      assert es[0] in es;
      SameMeans(f, f', es[1..]);
    }
  }

  // ---------------------------------------------------------------------------
  // Cutting a run of tags out of a block
  // ---------------------------------------------------------------------------

  function Nops(n: nat): (es: seq<Event>)
    ensures |es| == n && forall i :: 0 <= i < n ==> es[i] == Nop
  {
    seq(n, _ => Nop)
  }

  lemma {:induction false} NopsTotal(n: nat, i: nat)
    requires i <= n
    ensures Offset(Nops(n), i) == 4 * i
  {
    if i > 0 {
      NopsTotal(n, i - 1);
    }
  }

  lemma {:induction false} NopsMean(f: Fdt, n: nat)
    requires Sane(f)
    ensures Means(f, Nops(n)) == []
  {
    if n > 0 {
      NopsMean(f, n - 1);
      assert Nops(n)[1..] == Nops(n - 1);
    }
  }

  /** The tags without those from a to b. */
  function Cut(body: seq<Event>, a: nat, b: nat): seq<Event>
    requires a <= b <= |body|
  {
    body[..a] + body[b..]
  }

  /** The tags with those from a to b blanked out. */
  function Blanked(body: seq<Event>, a: nat, b: nat): seq<Event>
    requires a <= b <= |body|
  {
    body[..a] + Nops(Total(body[a..b]) / 4) + body[b..]
  }

  /** Blanked-out tags mean nothing: both edits leave the same meaning. */
  lemma {:induction false} BlankedMeansCut(f: Fdt, body: seq<Event>, a: nat, b: nat)
    requires Sane(f) && a <= b <= |body|
    ensures Means(f, Blanked(body, a, b)) == Means(f, Cut(body, a, b)) == Means(f, body[..a]) + Means(f, body[b..])
  {
    hide Means;
    var n := Total(body[a..b]) / 4;
    MeansConcat(f, body[..a] + Nops(n), body[b..]);
    MeansConcat(f, body[..a], Nops(n));
    MeansConcat(f, body[..a], body[b..]);
    NopsMean(f, n);
  }

  /** The three parts of a block around the run from a to b, and where they lie. */
  lemma {:induction false} ThreeParts(b: Bytes, start: nat, body: seq<Event>, a: nat, c: nat)
    requires a <= c <= |body|
    ensures var x, y, z := body[..a], body[a..c], body[c..] + [Finish];
            && body + [Finish] == x + y + z && Total(body + [Finish]) == Total(x) + Total(y) + Total(z)
            && Offset(body + [Finish], a) == Total(x) && Offset(body + [Finish], c) == Total(x) + Total(y)
            && (AllLie(b, start, body + [Finish]) <==>
                AllLie(b, start, x) && AllLie(b, start + Total(x), y) && AllLie(b, start + Total(x) + Total(y), z))
  {
    hide AllLie, Offset, Lies;
    var x, y, z := body[..a], body[a..c], body[c..] + [Finish];
    assert body + [Finish] == x + y + z;
    AllLieSplit(b, start, x + y, z);
    AllLieSplit(b, start, x, y);
    TotalConcat(x + y, z);
    TotalConcat(x, y);
    assert x + (y + z) == x + y + z;
    OffsetFirst(x, y + z, a);
    OffsetConcat(x, y + z, |y|);
    OffsetFirst(y, z, |y|);
  }

  lemma {:induction false} TotalAligned(es: seq<Event>)
    ensures Total(es) % 4 == 0
  {
    OffsetAligned(es, |es|);
  }

  /** Blanking out: the run holds no-op words, everything else is as before. */
  lemma {:induction false} BlankedLies(b: Bytes, b': Bytes, start: nat, body: seq<Event>, a: nat, c: nat)
    requires AllLie(b, start, body + [Finish]) && a <= c <= |body|
    requires var x, y := Total(body[..a]), Total(body[a..c]);
             && start + Total(body + [Finish]) <= |b| && Same(b, b', 0, start + x) && Same(b, b', start + x + y, |b|)
             && AllLie(b', start + x, Nops(y / 4))
    ensures AllLie(b', start, Blanked(body, a, c) + [Finish])
    ensures Total(Blanked(body, a, c) + [Finish]) == Total(body + [Finish])
  {
    hide AllLie, Offset, Same, Total, Nops, Size, Lies;
    var x, y, z := body[..a], body[a..c], body[c..] + [Finish];
    ThreeParts(b, start, body, a, c);
    SameLess(b, b', 0, start + Total(x), start, start + Total(x));
    TotalIs(x);
    TotalIs(z);
    AllLieStill(b, b', start, x);
    SameLess(b, b', start + Total(x) + Total(y), |b|, start + Total(x) + Total(y),
             start + Total(x) + Total(y) + Total(z));
    AllLieStill(b, b', start + Total(x) + Total(y), z);
    var nops := Nops(Total(y) / 4);
    NopsFill(Total(y), y);
    AllLieSplit(b', start, x + nops, z);
    AllLieSplit(b', start, x, nops);
    TotalConcat(x + nops, z);
    TotalConcat(x, nops);
    assert Blanked(body, a, c) + [Finish] == x + nops + z;
  }

  lemma {:induction false} TotalIs(es: seq<Event>)
    ensures Offset(es, |es|) == Total(es)
  {
  }

  lemma {:induction false} NopsFill(n: nat, y: seq<Event>)
    requires n == Total(y)
    ensures Total(Nops(n / 4)) == n
  {
    TotalAligned(y);
    NopsTotal(n / 4, n / 4);
  }

  /** The tags with those from a to c replaced. */
  function Replaced(body: seq<Event>, a: nat, c: nat, mid: seq<Event>): seq<Event>
    requires a <= c <= |body|
  {
    body[..a] + mid + body[c..]
  }

  /** New tags are in place, and what lies behind them has moved down or up. */
  lemma {:induction false} ReplacedLies(b: Bytes, b': Bytes, start: nat, body: seq<Event>, a: nat, c: nat,
                                        mid: seq<Event>, from: nat, len: nat)
    requires AllLie(b, start, body + [Finish]) && a <= c <= |body|
    requires from == start + Total(body[..a]) + Total(body[a..c]) && from + len <= |b|
    requires Total(body[c..] + [Finish]) <= len
    requires var at := start + Total(body[..a]);
             Same(b, b', start, at) && AllLie(b', at, mid) && HasBytes(b', at + Total(mid), b[from..from + len])
    ensures AllLie(b', start, Replaced(body, a, c, mid) + [Finish])
    ensures Total(Replaced(body, a, c, mid) + [Finish]) + Total(body[a..c]) == Total(body + [Finish]) + Total(mid)
  {
    hide AllLie, Offset, Same, Total, Size, Lies, HasBytes;
    var x, y, z := body[..a], body[a..c], body[c..] + [Finish];
    ThreeParts(b, start, body, a, c);
    TotalIs(x);
    AllLieStill(b, b', start, x);
    AllMovedLie(b, b', from, start + Total(x) + Total(mid), len, z);
    AllLieSplit(b', start, x + mid, z);
    AllLieSplit(b', start, x, mid);
    TotalConcat(x + mid, z);
    TotalConcat(x, mid);
    assert Replaced(body, a, c, mid) + [Finish] == x + mid + z;
  }

  lemma {:induction false} ReplacedMeans(f: Fdt, body: seq<Event>, a: nat, c: nat, mid: seq<Event>)
    requires Sane(f) && a <= c <= |body|
    ensures Means(f, Replaced(body, a, c, mid)) == Means(f, body[..a]) + Means(f, mid) + Means(f, body[c..])
  {
    hide Means;
    MeansConcat(f, body[..a] + mid, body[c..]);
    MeansConcat(f, body[..a], mid);
  }

  lemma {:induction false} CutBody(body: seq<Event>, a: nat, c: nat)
    requires Body(body) && a <= c <= |body|
    ensures Body(Cut(body, a, c)) && Body(Blanked(body, a, c))
    ensures forall e :: e in Cut(body, a, c) ==> e in body
    ensures forall e :: e in Blanked(body, a, c) ==> e in body || e == Nop
  {
    hide Total;
  }

  /** Every name offset of a block is a word. */
  lemma {:induction false} OffsetsAreWords(f: Fdt, body: seq<Event>)
    requires Block(f, body)
    ensures forall e :: e in body && e.Prop? ==> e.nameoff < TWO32
  {
    hide Offset, HasBytes;
    var es := body + [Finish];
    forall e | e in body && e.Prop?
      ensures e.nameoff < TWO32
    {
      var i :| 0 <= i < |body| && body[i] == e;
      assert Lies(f.bytes, f.offStruct + Offset(es, i), es[i]);
    }
  }

  // ---------------------------------------------------------------------------
  // Setting a property
  // ---------------------------------------------------------------------------

  /** The header of a finished blob, with its blocks in order. */
  ghost predicate Finished(f: Fdt) {
    && Sane(f) && f.magic == FDT_MAGIC && f.totalSize < INT_MAX && f.offStruct + f.sizeStruct <= f.offStrings
    && f.offStrings + f.sizeStrings <= f.totalSize
  }

  lemma {:induction false} FinishedBounds(f: Fdt)
    requires Finished(f)
    ensures Sane(f) && f.offStruct + f.sizeStruct <= f.offStrings
    ensures f.offStrings + f.sizeStrings <= f.totalSize <= |f.bytes| && f.totalSize < INT_MAX
  {
  }

  /** The header and bytes after the tags from a to c, which end at `from`, gave way to one tag. */
  function Spliced(f: Fdt, bytes: Bytes, oldlen: nat, newlen: nat): Fdt
    requires oldlen <= f.sizeStruct && oldlen <= f.offStrings
  {
    f.(sizeStruct := f.sizeStruct - oldlen + newlen, offStrings := f.offStrings - oldlen + newlen, bytes := bytes)
  }

  lemma {:induction false} SplicedHeader(f: Fdt, bytes: Bytes, oldlen: nat, newlen: nat)
    requires oldlen <= f.sizeStruct && oldlen <= f.offStrings
    ensures Spliced(f, bytes, oldlen, newlen) ==
              Fdt(f.magic, f.totalSize, f.lastCompVersion, f.offStruct, f.sizeStruct - oldlen + newlen,
                  f.offStrings - oldlen + newlen, f.sizeStrings, bytes)
  {
  }

  lemma {:induction false} OneTag(b: Bytes, at: nat, e: Event)
    requires Lies(b, at, e)
    ensures AllLie(b, at, [e]) && Total([e]) == Size(e)
  {
    hide Lies;
  }

  lemma {:induction false} OneMeans(f: Fdt, e: Event, name: Bytes)
    requires Sane(f) && e.Prop? && GetString(f, Signed(e.nameoff)) == Some(name)
    ensures Means(f, [e]) == [Property(name, e.value)] && Named(f, [e])
  {
    hide GetString;
    assert [e][1..] == [];
  }

  /** A property put in the place of a run of tags: the blob is well-formed, and what is read is
      what was read before, with the property in the place of the run. */
  lemma {:induction false} PropSpliced(f: Fdt, bytes: Bytes, body: seq<Event>, a: nat, c: nat, e: Event, name: Bytes)
    requires Block(f, body) && Named(f, body) && a <= c <= |body| && |bytes| == |f.bytes| && Finished(f)
    requires e.Prop? && GetString(f, Signed(e.nameoff)) == Some(name)
    requires var x, y, end := f.offStruct + Total(body[..a]), Total(body[a..c]), f.offStrings + f.sizeStrings;
             && x + y <= end && end - y + Size(e) <= f.totalSize
             && Same(f.bytes, bytes, f.offStruct, x) && Lies(bytes, x, e)
             && HasBytes(bytes, x + Size(e), f.bytes[x + y..end])
    ensures var y := Total(body[a..c]);
            && y <= f.sizeStruct && y <= f.offStrings
            && var f', body' := Spliced(f, bytes, y, Size(e)), Replaced(body, a, c, [e]);
               && Finished(f') && Block(f', body') && Named(f', body')
               && Means(f', body') == Means(f, body[..a]) + [Property(name, e.value)] + Means(f, body[c..])
               && GetString(f', Signed(e.nameoff)) == Some(name) && GrownStrings(f, f')
  {
    hide AllLie, Same, Offset, Total, Means, HasBytes, GetString, Size, Lies, Named;
    var x, y, end := f.offStruct + Total(body[..a]), Total(body[a..c]), f.offStrings + f.sizeStrings;
    ThreeParts(f.bytes, f.offStruct, body, a, c);
    OneTag(bytes, x, e);
    OneMeans(f, e, name);
    ReplacedLies(f.bytes, bytes, f.offStruct, body, a, c, [e], x + y, end - (x + y));
    TailThere(f.bytes, bytes, x + y, x + Size(e), end, f.offStrings);
    var f', body' := Spliced(f, bytes, y, Size(e)), Replaced(body, a, c, [e]);
    OffsetsAreWords(f, body);
    PropWordOk(bytes, x, e);
    ReplacedBody(f, body, a, c, e);
    ReplacedMeans(f, body, a, c, [e]);
    SameMeaning(f, f', body');
    SameName(f, f', Signed(e.nameoff));
  }

  lemma {:induction false} PropWordOk(b: Bytes, at: nat, e: Event)
    requires e.Prop? && Lies(b, at, e)
    ensures e.nameoff < TWO32 && |e.value| <= INT_MAX
  {
  }

  lemma {:induction false} ReplacedBody(f: Fdt, body: seq<Event>, a: nat, c: nat, e: Event)
    requires Sane(f) && Body(body) && Named(f, body) && a <= c <= |body| && e.Prop?
    requires GetString(f, Signed(e.nameoff)).Some?
    requires e.nameoff < TWO32 && forall x :: x in body && x.Prop? ==> x.nameoff < TWO32
    ensures var body' := Replaced(body, a, c, [e]);
            Body(body') && Named(f, body') && forall x :: x in body' && x.Prop? ==> x.nameoff < TWO32
  {
    hide GetString;
  }

  /** The words of a property, with its old value, are still there after the tail has moved. */
  lemma {:induction false} ResizedBytes(b: Bytes, p: nat, nameoff: nat, old': Bytes, val: Bytes, lo: nat, end: nat)
    requires Lies(b, p, Prop(nameoff, old')) && |val| <= INT_MAX && lo <= p && p + 12 + TagAlign(|old'|) <= end <= |b|
    requires end + TagAlign(|val|) <= |b| + TagAlign(|old'|)
    ensures var tail := b[p + 12 + TagAlign(|old'|)..end];
            && p + 12 + TagAlign(|val|) + |tail| <= |b|
            && var b' := Written(Written(Written(b, p + 12 + TagAlign(|val|), tail), p + 4, Be32(|val|)), p + 12, val);
               Same(b, b', lo, p) && Lies(b', p, Prop(nameoff, val)) && HasBytes(b', p + 12 + TagAlign(|val|), tail)
  {
    hide Written, HasBytes, Same, Be32, TagAlign;
    var tail, at := b[p + 12 + TagAlign(|old'|)..end], p + 12 + TagAlign(|val|);
    AlignBound(|val|);
    var b1 := Written(b, at, tail);
    var b2 := Written(b1, p + 4, Be32(|val|));
    WrittenThere(b, at, tail);
    WrittenBefore(b, at, tail, lo, p);
    WrittenBefore(b, at, tail, p, p + 12);
    StillThere(b, b1, p, p + 12, p, Be32(FDT_PROP));
    StillThere(b, b1, p, p + 12, p + 8, Be32(nameoff));
    WordWritten(b1, p + 4, Be32(|val|), lo, p + 8, |b|);
    WrittenBefore(b1, p + 4, Be32(|val|), lo, p);
    WrittenBefore(b1, p + 4, Be32(|val|), p, p + 4);
    StillThere(b1, b2, p, p + 4, p, Be32(FDT_PROP));
    StillThere(b1, b2, p + 8, |b|, p + 8, Be32(nameoff));
    StillThere(b1, b2, p + 8, |b|, at, tail);
    ValueWritten(b2, p, nameoff, val, lo, at, |b|);
    StillThere(b2, Written(b2, p + 12, val), at, |b|, at, tail);
    SameTrans(b, b1, b2, lo, p);
    SameTrans(b, b2, Written(b2, p + 12, val), lo, p);
  }

  lemma {:induction false} AlignBound(n: nat)
    ensures n <= TagAlign(n)
  {
  }

  /** A property written into a gap. */
  lemma {:induction false} InsertedBytes(b: Bytes, p: nat, nameoff: nat, val: Bytes, lo: nat, end: nat)
    requires lo <= p <= end && end + 12 + TagAlign(|val|) <= |b| && nameoff < TWO32 && |val| <= INT_MAX
    ensures var tail, at := b[p..end], p + 12 + TagAlign(|val|);
            && at + |tail| <= |b|
            && var b' := Written(PropWords(Written(b, at, tail), p, nameoff, |val|), p + 12, val);
               Same(b, b', lo, p) && Lies(b', p, Prop(nameoff, val)) && HasBytes(b', at, tail)
  {
    hide Written, HasBytes, Same, Be32, TagAlign, PropHead, PropWords;
    var tail, at := b[p..end], p + 12 + TagAlign(|val|);
    AlignBound(|val|);
    var b1 := Written(b, at, tail);
    WrittenThere(b, at, tail);
    WrittenBefore(b, at, tail, lo, p);
    HeadWritten(b1, p, nameoff, |val|, lo, at, |b|);
    var b2 := PropWords(b1, p, nameoff, |val|);
    StillThere(b1, b2, at, |b|, at, tail);
    PropWordsLength(b1, p, nameoff, |val|);
    ValueWritten(b2, p, nameoff, val, lo, at, |b|);
    StillThere(b2, Written(b2, p + 12, val), at, |b|, at, tail);
    SameTrans(b, b1, b2, lo, p);
    SameTrans(b, b2, Written(b2, p + 12, val), lo, p);
  }

  lemma {:induction false} PropWordsLength(b: Bytes, p: nat, nameoff: nat, len: nat)
    requires p + 12 <= |b| && nameoff < TWO32 && len < TWO32
    ensures |PropWords(b, p, nameoff, len)| == |b|
  {
    hide Written;
  }

  lemma {:induction false} NoneLie(b: Bytes, start: nat)
    ensures AllLie(b, start, Nops(0))
  {
  }

  lemma {:induction false} NopAdded(b: Bytes, start: nat, n: nat, end: nat)
    requires AllLie(b, start, Nops(n)) && start + 4 * n + 4 <= end <= |b|
    ensures var b' := Written(b, start + 4 * n, Be32(FDT_NOP));
            AllLie(b', start, Nops(n + 1)) && Same(b, b', 0, start) && Same(b, b', end, |b|)
  {
    hide AllLie, Same, Written, Be32, Offset, HasBytes;
    var b' := Written(b, start + 4 * n, Be32(FDT_NOP));
    WordWritten(b, start + 4 * n, Be32(FDT_NOP), start, end, |b|);
    WrittenBefore(b, start + 4 * n, Be32(FDT_NOP), 0, start);
    NopsTotal(n, n);
    AllLieMore(b, b', start, Nops(n), Nop);
    assert Nops(n + 1) == Nops(n) + [Nop];
  }

  /** Where a node and its end lie. */
  lemma {:induction false} NodeLies(f: Fdt, body: seq<Event>, a: nat)
    requires Block(f, body) && a < |body|
    ensures var b, es := Close(body, a + 1, 0), body + [Finish];
            b != -1 ==>
              && a < b <= |body| && Offset(es, a) == Total(body[..a])
              && Offset(es, b) == Total(body[..a]) + Total(body[a..b])
              && Total(body[a..b]) % 4 == 0 && Offset(es, b) <= f.sizeStruct
    ensures f.offStruct + f.sizeStruct <= |f.bytes| && f.sizeStruct <= INT_MAX
    ensures Offset(body + [Finish], a) <= f.sizeStruct
  {
    TotalIs(body + [Finish]);
    hide Offset, Total, AllLie, Close;
    OffsetNext(body + [Finish], a);
    var b := Close(body, a + 1, 0);
    if b != -1 {
      ThreeParts(f.bytes, f.offStruct, body, a, b);
      TotalAligned(body[a..b]);
    }
  }

  lemma {:induction false} RunInBlock(f: Fdt, body: seq<Event>, a: nat, b: nat)
    requires Block(f, body) && a <= b <= |body|
    ensures f.offStruct + Total(body[..a]) + Total(body[a..b]) <= |f.bytes|
  {
    hide AllLie, Offset, Total;
    ThreeParts(f.bytes, f.offStruct, body, a, b);
  }

  /** After the blanking, the blob is well-formed and means what it did without the node. */
  lemma {:induction false} NodeBlanked(f: Fdt, bytes: Bytes, body: seq<Event>, a: nat, b: nat)
    requires Block(f, body) && Named(f, body) && a <= b <= |body| && |bytes| == |f.bytes|
    requires f.magic == FDT_MAGIC && f.totalSize < INT_MAX && f.offStruct + f.sizeStruct <= f.offStrings
    requires f.offStrings + f.sizeStrings <= f.totalSize
    requires var x, y := Total(body[..a]), Total(body[a..b]);
             && Same(f.bytes, bytes, 0, f.offStruct + x) && Same(f.bytes, bytes, f.offStruct + x + y, |bytes|)
             && AllLie(bytes, f.offStruct + x, Nops(y / 4))
    ensures var f', body' := f.(bytes := bytes), Blanked(body, a, b);
            && Block(f', body') && Named(f', body')
            && Means(f', body') == Means(f, body[..a]) + Means(f, body[b..])
  {
    hide AllLie, Same, Offset, Total, Means, Nops, HasBytes, GetString, Size;
    var f', body' := f.(bytes := bytes), Blanked(body, a, b);
    var x, y := Total(body[..a]), Total(body[a..b]);
    BlankedLies(f.bytes, bytes, f.offStruct, body, a, b);
    CutBody(body, a, b);
    OffsetsAreWords(f, body);
    ThreeParts(f.bytes, f.offStruct, body, a, b);
    SameLess(f.bytes, bytes, f.offStruct + x + y, |bytes|, f.offStrings, f.offStrings + f.sizeStrings);
    KeptStrings(f, f');
    BlankedMeansCut(f, body, a, b);
    SubNamed(f, body, body');
    SameMeaning(f, f', body');
  }

  lemma {:induction false} KeptStrings(f: Fdt, f': Fdt)
    requires Sane(f) && Sane(f') && f.magic == f'.magic == FDT_MAGIC && f.totalSize < INT_MAX && f'.totalSize < INT_MAX
    requires f.offStrings + f.sizeStrings <= f.totalSize && f'.offStrings + f'.sizeStrings <= f'.totalSize
    requires f.sizeStrings <= f'.sizeStrings && f'.offStrings == f.offStrings
    requires Same(f.bytes, f'.bytes, f.offStrings, f.offStrings + f.sizeStrings)
    ensures GrownStrings(f, f')
  {
  }

  lemma {:induction false} SubNamed(f: Fdt, es: seq<Event>, es': seq<Event>)
    requires Sane(f) && Named(f, es) && forall e :: e in es' ==> e in es || e == Nop
    ensures Named(f, es')
  {
    hide GetString;
  }

  lemma {:induction false} NoneTotal(b: Bytes, at: nat)
    ensures Total([]) == 0 && AllLie(b, at, [])
  {
  }

  lemma {:induction false} TailThere(b: Bytes, b': Bytes, from: nat, to: nat, end: nat, off: nat)
    requires from <= off <= end <= |b| && HasBytes(b', to, b[from..end])
    ensures HasBytes(b', to + (off - from), b[off..end])
  {
    assert b[from..end] == b[from..off] + b[off..end];
    HasBoth(b', to, b[from..off], b[off..end]);
  }

  /** After the cut, the blob is well-formed and means what it did without the node. */
  lemma {:induction false} NodeCut(f: Fdt, body: seq<Event>, a: nat, b: nat)
    requires Block(f, body) && Named(f, body) && a <= b <= |body|
    requires f.magic == FDT_MAGIC && f.totalSize < INT_MAX && f.offStruct + f.sizeStruct <= f.offStrings
    requires f.offStrings + f.sizeStrings <= f.totalSize
    ensures var x, y, end := Total(body[..a]), Total(body[a..b]), f.offStrings + f.sizeStrings;
            && f.offStruct + x + y <= end <= |f.bytes| && y <= f.sizeStruct
            && var f' := Spliced(f, Written(f.bytes, f.offStruct + x, f.bytes[f.offStruct + x + y..end]), y, 0);
               var body' := Cut(body, a, b);
               && Finished(f') && Block(f', body') && Named(f', body')
               && Means(f', body') == Means(f, body[..a]) + Means(f, body[b..])
  {
    hide AllLie, Same, Offset, Total, Means, Nops, HasBytes, GetString, Size, Written;
    var x, y, end := Total(body[..a]), Total(body[a..b]), f.offStrings + f.sizeStrings;
    ThreeParts(f.bytes, f.offStruct, body, a, b);
    var from, to := f.offStruct + x + y, f.offStruct + x;
    var bytes := Written(f.bytes, to, f.bytes[from..end]);
    var f', body' := f.(sizeStruct := f.sizeStruct - y, offStrings := f.offStrings - y, bytes := bytes),
        Cut(body, a, b);
    WrittenThere(f.bytes, to, f.bytes[from..end]);
    WrittenBefore(f.bytes, to, f.bytes[from..end], 0, to);
    SameLess(f.bytes, bytes, 0, to, f.offStruct, to);
    NoneTotal(bytes, to);
    ReplacedLies(f.bytes, bytes, f.offStruct, body, a, b, [], from, end - from);
    assert Replaced(body, a, b, []) == body';
    CutBody(body, a, b);
    OffsetsAreWords(f, body);
    TailThere(f.bytes, bytes, from, to, end, f.offStrings);
    BlankedMeansCut(f, body, a, b);
    SubNamed(f, body, body');
    SameMeaning(f, f', body');
  }

  /** What a name takes from the room behind the strings: nothing if it is there already. */
  ghost function StringRoom(f: Fdt, name: Bytes): nat
    requires f.offStrings + f.sizeStrings <= |f.bytes|
  {
    if NotBefore(f.bytes, f.offStrings, f.offStrings + f.sizeStrings, |f.bytes|, name) then |name| + 1 else 0
  }

  lemma {:induction false} WellFormedSame(f: Fdt, body: seq<Event>)
    requires Block(f, body) && Finished(f)
    ensures GrownStrings(f, f) && f.offStrings + f.sizeStrings <= f.totalSize <= |f.bytes|
  {
    var s := f.bytes[f.offStrings..f.offStrings + f.sizeStrings];
    assert HasBytes(f.bytes, f.offStrings, s);
  }

  lemma {:induction false} FoundRead(f: Fdt, p: nat, name: Bytes)
    requires Finished(f) && InTable(f.bytes, f.offStrings, f.offStrings + f.sizeStrings, p, name) && 0 !in name
    ensures GetString(f, p - f.offStrings) == Some(name) && StringRoom(f, name) == 0
  {
    hide HasBytes, GetString;
    NameRead(f, p - f.offStrings, name);
  }

  lemma {:induction false} NotFoundRoom(f: Fdt, name: Bytes)
    requires f.offStrings + f.sizeStrings <= |f.bytes|
    requires NotBefore(f.bytes, f.offStrings, f.offStrings + f.sizeStrings, |f.bytes|, name)
    ensures StringRoom(f, name) == |name| + 1
  {
    hide NotBefore;
  }

  /** A name added behind the strings. */
  lemma {:induction false} StringAdded(f: Fdt, body: seq<Event>, name: Bytes)
    requires Block(f, body) && Named(f, body) && Finished(f) && 0 !in name
    requires f.offStrings + f.sizeStrings + |name| + 1 <= f.totalSize
    ensures var at := f.offStrings + f.sizeStrings;
            && at + |name| + 1 <= |f.bytes|
            && var bytes := Written(Written(Written(f.bytes, at + |name| + 1, f.bytes[at..at]), at, name),
                                    at + |name|, [0]);
               var f' := f.(sizeStrings := f.sizeStrings + |name| + 1, bytes := bytes);
               && Block(f', body) && Named(f', body) && Finished(f') && Means(f', body) == Means(f, body)
               && GetString(f', f.sizeStrings) == Some(name) && GrownStrings(f, f')
  {
    hide AllLie, Named, Means, HasBytes, Same, Written, GetString, Lies, Offset, Total;
    var at := f.offStrings + f.sizeStrings;
    assert f.bytes[at..at] == [];
    EmptyWritten(f.bytes, at + |name| + 1);
    TwoWrites(f.bytes, at, name, [0], 0, at + |name| + 1, |f.bytes|);
    var f' := f.(sizeStrings := f.sizeStrings + |name| + 1,
                 bytes := Written(Written(f.bytes, at, name), at + |name|, [0]));
    SameLess(f.bytes, f'.bytes, 0, at, f.offStruct, f.offStruct + f.sizeStruct);
    SameLess(f.bytes, f'.bytes, 0, at, f.offStrings, at);
    TotalIs(body + [Finish]);
    AllLieStill(f.bytes, f'.bytes, f.offStruct, body + [Finish]);
    KeptStrings(f, f');
    OffsetsAreWords(f, body);
    SameMeaning(f, f', body);
    NameRead(f', f.sizeStrings, name);
  }

  lemma {:induction false} EmptyWritten(b: Bytes, at: nat)
    requires at <= |b|
    ensures Written(b, at, []) == b
  {
  }

  /** A property in its block: where it lies, its length word, and that its run is itself. */
  lemma {:induction false} PropPlace(f: Fdt, body: seq<Event>, k: nat)
    requires Block(f, body) && Finished(f) && k < |body| && body[k].Prop?
    ensures var p, n := f.offStruct + Offset(body + [Finish], k), 12 + TagAlign(|body[k].value|);
            && Lies(f.bytes, p, body[k]) && p + 12 <= |f.bytes| && WordAt(f.bytes, p + 4) == |body[k].value|
            && |body[k].value| <= INT_MAX
            && f.totalSize <= |f.bytes| && p == f.offStruct + Total(body[..k]) && Total(body[k..k + 1]) == n
            && p + n <= f.offStruct + f.sizeStruct && n <= f.sizeStruct
  {
    hide AllLie, Lies, Offset, Total, WordAt, Size, TagAlign;
    BlockLies(f, body, k);
    PropThere(f, body, k);
    ThreeParts(f.bytes, f.offStruct, body, k, k + 1);
    assert body[k..k + 1] == [body[k]];
    OneTag(f.bytes, f.offStruct + Offset(body + [Finish], k), body[k]);
    PropSizes(body[k], body[k]);
    PropWordOk(f.bytes, f.offStruct + Offset(body + [Finish], k), body[k]);
  }

  lemma {:induction false} PropSizes(e: Event, e': Event)
    requires e.Prop? && e'.Prop?
    ensures Size(e) == 12 + TagAlign(|e.value|) && Size(e') == 12 + TagAlign(|e'.value|)
  {
    AlignAdd(|e.value|, 12);
    AlignAdd(|e'.value|, 12);
  }

  /** The value of the property with the name, as a reader finds it. */
  function PropValue(f: Fdt, nodeoffset: int, name: Bytes): Option<Bytes>
    requires Sane(f)
  {
    var off := GetProperty(f, nodeoffset, name);
    if off < 0 then None else
    var at := f.offStruct + off;
    if at + 12 > |f.bytes| then None else
    var len := WordAt(f.bytes, at + 4);
    if at + 12 + len > |f.bytes| then None else Some(f.bytes[at + 12..at + 12 + len])
  }

  /** From f, with the tags body, to f', with the tags body': the property of the a-th tag whose name is
      the first namelen bytes of s has been set. If it was there, its value is replaced; if not, it is
      added behind the begin tag. Either needs room; if there is room for the name only, the name is
      taken back by the length of s. */
  ghost predicate PropertySet(f: Fdt, body: seq<Event>, a: nat, s: Bytes, namelen: nat, val: Bytes, f': Fdt,
                              body': seq<Event>, err: int) {
    && a < |body| && namelen <= |s| && Finished(f) && f'.totalSize == f.totalSize
    && var name, used, end := s[..namelen], f.offStrings + f.sizeStrings, TagAlign(|val|);
       var k, need := PropIndex(f, body, a + 1, name), StringRoom(f, name);
       (err == 0 ==> Sane(f') && PropValue(f', Offset(body + [Finish], a), name) == Some(val))
       && if k >= 0 then
         && err == (if used - TagAlign(|body[k].value|) + end <= f.totalSize then 0 else -FDT_ERR_NOSPACE)
         && f'.sizeStrings == f.sizeStrings
         && (err == 0 ==>
               && body' == Replaced(body, k, k + 1, [Prop(body[k].nameoff, val)]) && GrownStrings(f, f')
               && f'.offStrings == f.offStrings - TagAlign(|body[k].value|) + end)
         && (err == 0 ==> Means(f', body') == Means(f, body[..k]) + [Property(name, val)] + Means(f, body[k + 1..]))
       else if k == -1 then
         && err == (if used + need + 12 + end <= f.totalSize then 0 else -FDT_ERR_NOSPACE)
         && (err == 0 ==> Means(f', body') == Means(f, body[..a + 1]) + [Property(name, val)] + Means(f, body[a + 1..]))
         && f'.sizeStrings == if err == 0 then f.sizeStrings + need
                              else if need == 0 || used + need > f.totalSize then f.sizeStrings
                              else (f.sizeStrings + namelen - |s|) % TWO32
       else err == -FDT_ERR_BADSTRUCTURE && f'.sizeStrings == f.sizeStrings
  }

  /** The search runs into something that is no property it could read. */
  lemma {:induction false} SearchFailed(f: Fdt, body: seq<Event>, a: nat, s: Bytes, namelen: nat, val: Bytes, err: int)
    requires a < |body| && namelen <= |s| && Finished(f)
    requires err == PropResult(body, PropIndex(f, body, a + 1, s[..namelen])) < 0 && err != -FDT_ERR_NOTFOUND
    ensures PropertySet(f, body, a, s, namelen, val, f, body, err)
  {
    hide PropIndex, Means, StringRoom, GrownStrings;
  }

  /** The property with the index the walk stops at reads back. */
  lemma {:induction false} ReadsBack(f: Fdt, body: seq<Event>, a: nat, k: nat, name: Bytes)
    requires Block(f, body) && a < k < |body| && body[a].Begin? && body[k].Prop? && PropIndex(f, body, a + 1, name) == k
    ensures PropValue(f, Offset(body + [Finish], a), name) == Some(body[k].value)
  {
    hide GetProperty, Offset, PropIndex, WordAt, NextTag, PropWord, HasBytes;
    GetPropertyFinds(f, body, a, name);
    PropThere(f, body, k);
    BlockLies(f, body, k);
    BytesThere(f.bytes, f.offStruct + Offset(body + [Finish], k) + 12, body[k].value);
    hide Lies, Block;
  }

  /** Names read as before, and the tags up to k are as before: the walk passes over the same tags. */
  lemma {:induction false} WalkPasses(f: Fdt, f': Fdt, body: seq<Event>, body': seq<Event>, i: nat, k: nat, name: Bytes)
    requires GrownStrings(f, f') && Named(f, body) && forall e :: e in body && e.Prop? ==> e.nameoff < TWO32
    requires i <= k < |body| && k < |body'| && body[..k] == body'[..k] && PropIndex(f, body, i, name) == k
    requires body'[k].Prop? && GetString(f', Signed(body'[k].nameoff)) == Some(name)
    ensures PropIndex(f', body', i, name) == k
    decreases k - i
  {
    hide GetString, GrownStrings;
    if i < k {
      assert body[i] == body[..k][i] == body'[..k][i] == body'[i];
      assert body[i] in body;
      if body[i].Prop? {
        SameName(f, f', Signed(body[i].nameoff));
      }
      WalkPasses(f, f', body, body', i + 1, k, name);
    }
  }

  /** Parts of the block mean what they did. */
  lemma {:induction false} PartsMean(f: Fdt, f': Fdt, body: seq<Event>, a: nat, c: nat)
    requires GrownStrings(f, f') && Block(f, body) && Named(f, body) && a <= c <= |body|
    ensures Sane(f) && Sane(f')
    ensures Means(f', body[..a]) == Means(f, body[..a]) && Means(f', body[c..]) == Means(f, body[c..])
    ensures Means(f', body) == Means(f, body)
    ensures Named(f', body)
  {
    hide AllLie, Offset, GetString, Means, HasBytes;
    OffsetsAreWords(f, body);
    SameMeaning(f, f', body);
    SameMeaning(f, f', body[..a]);
    SameMeaning(f, f', body[c..]);
  }

  /** Taking back a name that was added: the blob as it was, up to bytes behind the strings. */
  lemma {:induction false} RolledBack(f: Fdt, f1: Fdt, body: seq<Event>, strings: nat)
    requires Block(f, body) && Named(f, body) && Finished(f) && Block(f1, body) && Finished(f1) && GrownStrings(f, f1)
    requires strings == f.sizeStrings
    ensures var f' := f1.(sizeStrings := strings);
            && Block(f', body) && Finished(f') && GrownStrings(f, f') && Named(f', body)
            && Means(f', body) == Means(f, body)
  {
    hide AllLie, Offset, GetString, Means, HasBytes, Total, Named;
    var f' := f1.(sizeStrings := strings);
    assert GrownStrings(f, f');
    PartsMean(f, f', body, 0, 0);
  }

  /** Of the names of f, those that end within the strings block of f' are read as before, and the others
      not at all. */
  ghost predicate NamesLeft(f: Fdt, f': Fdt)
    requires Sane(f) && Sane(f')
  {
    forall o: nat ::
      GetString(f, o).Some? ==>
        GetString(f', o) == if o + |GetString(f, o).value| < f'.sizeStrings then GetString(f, o) else None
  }

  /** The blob f with another size of the strings block: either all names of tags are left, and what is read
      is what was read, or nothing can be read. */
  ghost predicate StringsCut(f: Fdt, f': Fdt, body: seq<Event>) {
    && Sane(f) && Block(f', body) && NamesLeft(f, f')
    && Read(f', 0) == if Named(f', body) then Some(Means(f, body)) else None
  }

  /** The first NUL is the first NUL. */
  lemma {:induction false} NulIs(b: Bytes, at: nat, n: nat, end: nat)
    requires at + n <= |b| && at <= end <= |b| && (forall j :: at <= j < at + n ==> b[j] != 0)
    ensures at + n < end && b[at + n] == 0 ==> FindNul(b, at, end) == at + n
    ensures end <= at + n ==> FindNul(b, at, end) == -1
  {
  }

  lemma {:induction false} NoWrap(f: Fdt, o: nat)
    requires Sane(f) && f.offStrings + o < f.totalSize
    ensures (o + f.offStrings) % TWO32 == f.offStrings + o
  {
  }

  /** What a name reads as when the size of the strings block is changed to n. */
  lemma {:induction false} NameLeft(f: Fdt, n: nat, o: nat)
    requires Sane(f) && f.offStrings + f.sizeStrings <= f.totalSize && f.magic == FDT_MAGIC && n < TWO32
    requires GetString(f, o).Some?
    ensures GetString(f.(sizeStrings := n), o) ==
              if o + |GetString(f, o).value| < n then GetString(f, o) else None
  {
    hide FindNul;
    SomeInBlock(f, o);
    NoWrap(f, o);
    var at, t := f.offStrings + o, GetString(f, o).value;
    var room := f.totalSize - at;
    NulIs(f.bytes, at, |t|, if o > n then at else if n - o < room then at + (n - o) else at + room);
  }

  lemma {:induction false} AllNamesLeft(f: Fdt, f1: Fdt, n: nat)
    requires GrownStrings(f, f1) && n < TWO32
    ensures Sane(f) && Sane(f1.(sizeStrings := n)) && NamesLeft(f, f1.(sizeStrings := n))
  {
    hide GetString, HasBytes;
    forall o: nat | GetString(f, o).Some?
      ensures GetString(f1.(sizeStrings := n), o) ==
                if o + |GetString(f, o).value| < n then GetString(f, o) else None
    {
      SomeInBlock(f, o);
      SameName(f, f1, o);
      NameLeft(f1, n, o);
    }
  }

  /** A block with a property whose name cannot be read cannot be read. */
  lemma {:induction false} ReadBroken(f: Fdt, body: seq<Event>, i: nat)
    requires Block(f, body) && i <= |body|
    ensures Sane(f) && (!Named(f, body[i..]) ==> Read(f, Offset(body + [Finish], i)).None?)
    decreases |body| - i
  {
    hide Lies, NextTag, Offset, Block, GetString;
    BlockSane(f, body);
    BlockStep(f, body, i);
    if i < |body| {
      assert (body + [Finish])[i] == body[i] && body[i] != Finish by { InBody(f, body, i); }
      ReadBroken(f, body, i + 1);
      assert body[i..] == [body[i]] + body[i + 1..];
      if body[i].Prop? {
        PropThere(f, body, i);
      }
    }
  }

  /** Changing the size of the strings block, after names may have been added to it. */
  lemma {:induction false} CutStrings(f: Fdt, f1: Fdt, body: seq<Event>, n: nat)
    requires Block(f, body) && Named(f, body) && GrownStrings(f, f1) && Block(f1, body) && n < TWO32
    ensures StringsCut(f, f1.(sizeStrings := n), body)
  {
    hide AllLie, Offset, GetString, HasBytes, Means, Read, Total, Lies;
    var f' := f1.(sizeStrings := n);
    AllNamesLeft(f, f1, n);
    OffsetZero(body + [Finish]);
    assert body[0..] == body;
    if Named(f', body) {
      OffsetsAreWords(f, body);
      NamesSame(f, f', body);
      ReadMeans(f', body, 0);
    } else {
      ReadBroken(f', body, 0);
    }
  }

  lemma {:induction false} Unchanged(f: Fdt, body: seq<Event>)
    requires Block(f, body) && Named(f, body) && Finished(f)
    ensures StringsCut(f, f, body)
  {
    hide AllLie, Named, StringsCut;
    WellFormedSame(f, body);
    CutStrings(f, f, body, f.sizeStrings);
  }

  lemma {:induction false} NamesSame(f: Fdt, f': Fdt, es: seq<Event>)
    requires Sane(f) && Sane(f') && NamesLeft(f, f') && Named(f, es) && Named(f', es) && f.magic == FDT_MAGIC
    ensures Means(f', es) == Means(f, es)
  {
    hide GetString, Means;
    forall e | e in es && e.Prop?
      ensures GetString(f', Signed(e.nameoff)) == GetString(f, Signed(e.nameoff))
    {
      SomeInBlock(f, Signed(e.nameoff));
    }
    SameMeans(f, f', es);
  }

  /** Where a property is put: behind the begin tag of its node. */
  lemma {:induction false} PropRoom(f: Fdt, body: seq<Event>, a: nat)
    requires Block(f, body) && Finished(f) && a < |body| && body[a].Begin?
    ensures var p := f.offStruct + Offset(body + [Finish], a + 1);
            && CheckNode(f, Offset(body + [Finish], a)) == Offset(body + [Finish], a + 1)
            && p == f.offStruct + Total(body[..a + 1]) && Total(body[a + 1..a + 1]) == 0
            && p <= f.offStruct + f.sizeStruct
  {
    hide AllLie, Offset, Total, GetString, GetProperty;
    GetPropertyFinds(f, body, a, []);
    ThreeParts(f.bytes, f.offStruct, body, a + 1, a + 1);
    assert body[a + 1..a + 1] == [];
    NoneTotal(f.bytes, 0);
    TotalIs(body + [Finish]);
    OffsetNext(body + [Finish], a);
  }

  lemma {:induction false} StructBound(f: Fdt, body: seq<Event>)
    requires Block(f, body) && Finished(f) && f.offStruct >= 56
    ensures Sane(f) && f.sizeStruct < INT_MAX - 4
  {
    hide AllLie, Offset;
  }

  /** At an offset at which no node begins, the end-offset walk does not start. */
  lemma {:induction false} NoNodeEnd(f: Fdt, offset: int)
    requires Sane(f) && CheckNode(f, offset) < 0
    ensures NodeEndOffset(f, offset, 0) == if offset < 0 then offset else -FDT_ERR_BADOFFSET
  {
    hide NextTag;
  }

  /** Nor does the property walk. */
  lemma {:induction false} NoNodeProp(f: Fdt, offset: int, name: Bytes)
    requires Sane(f) && CheckNode(f, offset) < 0
    ensures GetProperty(f, offset, name) == -FDT_ERR_BADOFFSET
  {
    hide NextTag;
  }

  /** What the property walk returns, in a block whose tags are known. */
  lemma {:induction false} PropPlaces(f: Fdt, body: seq<Event>, a: nat, name: Bytes)
    requires Block(f, body) && Finished(f) && f.offStruct >= 56 && a < |body| && body[a].Begin?
    ensures Sane(f)
    ensures GetProperty(f, Offset(body + [Finish], a), name) == PropResult(body, PropIndex(f, body, a + 1, name))
    ensures f.sizeStruct < INT_MAX - 4 && Offset(body + [Finish], a) <= INT_MAX
  {
    hide AllLie, Offset, GetString, GetProperty, PropIndex;
    GetPropertyFinds(f, body, a, name);
    TotalIs(body + [Finish]);
    OffsetNext(body + [Finish], a);
  }

  /** After a property has got a new value, it reads back. */
  lemma {:induction false} Resized(f: Fdt, f': Fdt, body: seq<Event>, a: nat, k: nat, val: Bytes, name: Bytes)
    requires Block(f, body) && Named(f, body) && GrownStrings(f, f') && a < k < |body| && body[a].Begin?
    requires PropIndex(f, body, a + 1, name) == k
    requires Block(f', Replaced(body, k, k + 1, [Prop(body[k].nameoff, val)]))
    ensures PropValue(f', Offset(body + [Finish], a), name) == Some(val)
  {
    hide AllLie, Offset, GetString, PropIndex, PropValue, GrownStrings, Block, Named;
    var body' := Replaced(body, k, k + 1, [Prop(body[k].nameoff, val)]);
    PlaceKept(f, f', body, k, name);
    WalkPasses(f, f', body, body', a + 1, k, name);
    ReadsBack(f', body', a, k, name);
    SameOffset(body, body', a);
  }

  lemma {:induction false} PlaceKept(f: Fdt, f': Fdt, body: seq<Event>, k: nat, name: Bytes)
    requires Block(f, body) && Named(f, body) && GrownStrings(f, f') && k < |body| && body[k].Prop?
    requires GetString(f, Signed(body[k].nameoff)) == Some(name)
    ensures GetString(f', Signed(body[k].nameoff)) == Some(name)
    ensures forall e :: e in body && e.Prop? ==> e.nameoff < TWO32
  {
    hide AllLie, Offset, GetString, GrownStrings;
    OffsetsAreWords(f, body);
    SameName(f, f', Signed(body[k].nameoff));
  }

  lemma {:induction false} SameOffset(body: seq<Event>, body': seq<Event>, a: nat)
    requires a < |body| && a < |body'| && body[..a] == body'[..a]
    ensures Offset(body + [Finish], a) == Offset(body' + [Finish], a)
  {
    hide Offset;
    assert body + [Finish] == body[..a] + (body[a..] + [Finish])
        && body' + [Finish] == body[..a] + (body'[a..] + [Finish]);
    OffsetFirst(body[..a], body[a..] + [Finish], a);
    OffsetFirst(body[..a], body'[a..] + [Finish], a);
  }

  lemma {:induction false} FoundHere(f: Fdt, body: seq<Event>, i: nat, name: Bytes)
    requires Sane(f) && i < |body| && body[i].Prop? && GetString(f, Signed(body[i].nameoff)) == Some(name)
    ensures PropIndex(f, body, i, name) == i
  {
    hide GetString, Sane;
  }

  lemma {:induction false} InsertedThere(body: seq<Event>, a: nat, e: Event)
    requires a < |body|
    ensures var body' := Replaced(body, a + 1, a + 1, [e]);
            |body'| == |body| + 1 && body'[a + 1] == e && body'[a] == body[a] && body'[..a] == body[..a]
  {
  }

  /** After a property has been added, it reads back. */
  lemma {:induction false} Added(f: Fdt, body: seq<Event>, a: nat, e: Event, name: Bytes)
    requires a < |body| && body[a].Begin? && e.Prop? && Block(f, Replaced(body, a + 1, a + 1, [e]))
    requires GetString(f, Signed(e.nameoff)) == Some(name)
    ensures PropValue(f, Offset(body + [Finish], a), name) == Some(e.value)
  {
    hide AllLie, Offset, GetString, PropValue, Block, PropIndex, Replaced, Sane;
    var body' := Replaced(body, a + 1, a + 1, [e]);
    BlockSane(f, body');
    InsertedThere(body, a, e);
    FoundHere(f, body', a + 1, name);
    ReadsBack(f, body', a, a + 1, name);
    SameOffset(body, body', a);
  }

  /** The tags of a finished blob, without the end tag. */
  function FinishedTags(f: Fdt, events: seq<Event>): seq<Event> {
    Patched(events, f.sizeStrings, |events|)
  }

  /** A finished blob is well-formed, and its tags mean what was written. */
  lemma {:induction false} CompleteBlock(f: Fdt, events: seq<Event>, log: seq<Item>, names: seq<Bytes>)
    requires Complete(f, events, log, names) && f.totalSize < INT_MAX
    ensures var body := FinishedTags(f, events); Block(f, body) && Named(f, body) && Means(f, body) == log
  {
    hide AllLie, AllNamedFor, Patched, Offset, Read, Packed, Means, Named;
    var es, body := events + [Finish], FinishedTags(f, events);
    PatchedEnd(events, f.sizeStrings);
    PatchedOffset(es, f.sizeStrings, |events|, |es|);
    TagsNamed(f, events, log);
    FinishedReads(f, es, log);
    OffsetZero(body + [Finish]);
    ReadMeans(f, body, 0);
    assert body[0..] == body;
  }

  lemma {:induction false} PatchedEnd(events: seq<Event>, strings: nat)
    ensures Patched(events, strings, |events|) + [Finish] == Patched(events + [Finish], strings, |events|)
  {
  }

  lemma {:induction false} TagsNamed(f: Fdt, events: seq<Event>, log: seq<Item>)
    requires Sane(f) && f.magic == FDT_MAGIC && f.offStrings + f.sizeStrings == f.totalSize && f.totalSize < INT_MAX
    requires |events| == |log| && AllNamedFor(f.bytes, f.offStrings, f.sizeStrings, events + [Finish], log)
    ensures var body := FinishedTags(f, events); Body(body) && Named(f, body)
  {
    hide NamedFor, GetString;
    var body, es := FinishedTags(f, events), events + [Finish];
    forall i | 0 <= i < |body|
      ensures body[i] != Finish && (body[i].Prop? ==> GetString(f, Signed(body[i].nameoff)).Some?)
    {
      assert NamedFor(f.bytes, f.offStrings, f.sizeStrings, es[i], log[i]);
      ItemReads(f, es[i], log[i]);
    }
  }

  lemma {:induction false} CompleteHeader(f: Fdt, events: seq<Event>, log: seq<Item>, names: seq<Bytes>)
    requires Complete(f, events, log, names) && f.totalSize < INT_MAX
    ensures Finished(f) && HEADER_SIZE + 16 <= f.offStruct
  {
    hide AllLie, AllNamedFor, Packed, Offset;
  }

  /** The words and the value of a property. */
  method PutProperty(buf: array<Byte>, p: nat, nameoff: nat, val: Bytes)
    requires p + 12 + |val| <= buf.Length && nameoff < TWO32 && |val| <= INT_MAX
    modifies buf
    ensures |PropWords(old(buf[..]), p, nameoff, |val|)| == buf.Length
    ensures buf[..] == Written(PropWords(old(buf[..]), p, nameoff, |val|), p + 12, val)
  {
    hide Written, Be32;
    PropWordsLength(buf[..], p, nameoff, |val|);
    PutBytes(buf, p, Be32(FDT_PROP));
    PutBytes(buf, p + 8, Be32(nameoff));
    PutBytes(buf, p + 4, Be32(|val|));
    PutBytes(buf, p + 12, val);
  }

  class TreeEditor {
    const buf: array<Byte>
    var magic: nat
    var totalSize: nat
    var lastCompVersion: nat
    var offRsvmap: nat
    var offStruct: nat
    var sizeStruct: nat
    var offStrings: nat
    var sizeStrings: nat
    ghost var body: seq<Event>

    /** Opens a blob that a sequential writer has finished. */
    constructor (w: SequentialWriter)
      requires Complete(w.View(), w.events, w.log, w.names) && w.totalSize < INT_MAX
      ensures buf == w.buf && View() == w.View() && WellFormed() && Items() == w.log
      ensures body == FinishedTags(w.View(), w.events)
    {
      hide Complete, Block, Named, Means;
      buf := w.buf;
      magic, totalSize, lastCompVersion, offRsvmap := w.magic, w.totalSize, w.lastCompVersion, HEADER_SIZE;
      offStruct, sizeStruct, offStrings, sizeStrings := w.offStruct, w.sizeStruct, w.offStrings, w.sizeStrings;
      body := FinishedTags(w.View(), w.events);
      new;
      CompleteBlock(w.View(), w.events, w.log, w.names);
      CompleteHeader(w.View(), w.events, w.log, w.names);
    }

    function View(): Fdt
      reads this, buf
    {
      Fdt(magic, totalSize, lastCompVersion, offStruct, sizeStruct, offStrings, sizeStrings, buf[..])
    }

    /** fdt_rw_probe_ for version 17: the magic, the size and the order of the blocks, with sums in
        32 bits. */
    function RwProbe(): int
      reads this
    {
      if magic != FDT_MAGIC && magic != FDT_SW_MAGIC then -FDT_ERR_BADMAGIC
      else if magic == FDT_SW_MAGIC && sizeStruct == 0 then -FDT_ERR_BADSTATE
      else if totalSize >= INT_MAX then -FDT_ERR_TRUNCATED
      else if offRsvmap < 40 || offStruct < (offRsvmap + 16) % TWO32
              || offStrings < (offStruct + sizeStruct) % TWO32 || totalSize < (offStrings + sizeStrings) % TWO32
      then -FDT_ERR_BADLAYOUT
      else 0
    }

    /** A finished blob with its blocks in order, whose structure block is the tags of body, all
        names readable. */
    ghost predicate WellFormed()
      reads this, buf
    {
      40 <= offRsvmap && offRsvmap + 16 <= offStruct && Finished(View()) && Block(View(), body) && Named(View(), body)
    }

    /** A well-formed blob passes the probe. */
    lemma {:induction false} WellFormedPasses()
      requires WellFormed()
      ensures RwProbe() == 0
    {
      hide Block, Named;
    }

    /** What a reader gets out of the blob. */
    ghost function Items(): seq<Item>
      requires Sane(View())
      reads this, buf
    {
      Means(View(), body)
    }

    /** A well-formed blob reads as the meaning of its tags. */
    lemma {:induction false} ItemsRead()
      requires WellFormed()
      ensures Read(View(), 0) == Some(Items())
    {
      hide Read, Means, AllLie, Named;
      OffsetZero(body + [Finish]);
      ReadMeans(View(), body, 0);
      assert body[0..] == body;
    }

    /** If a node begins at the offset, it is the a-th tag; the walks find out if none does. */
    ghost predicate NodeAt(nodeoffset: int, a: nat)
      requires Sane(View())
      reads this, buf
    {
      && nodeoffset <= INT_MAX
      && (CheckNode(View(), nodeoffset) >= 0 ==>
            a < |body| && body[a].Begin? && nodeoffset == Offset(body + [Finish], a))
    }

    /** fdt_nop_region_: words of no-op tags, the last of which may reach past the end. */
    method FdtNopRegion(start: nat, len: nat)
      requires start + TagAlign(len) <= buf.Length
      modifies buf
      ensures AllLie(buf[..], start, Nops(TagAlign(len) / 4))
      ensures Same(old(buf[..]), buf[..], 0, start) && Same(old(buf[..]), buf[..], start + TagAlign(len), buf.Length)
    {
      hide AllLie, Same, Written, Be32, Lies, Offset;
      ghost var end := start + TagAlign(len);
      NothingWritten(buf[..]);
      WrittenBehind(buf[..], 0, [], 0, start);
      WrittenBehind(buf[..], 0, [], end, buf.Length);
      NoneLie(buf[..], start);
      var p := start;
      while p < start + len
        invariant start <= p <= end && (p - start) % 4 == 0
        invariant AllLie(buf[..], start, Nops((p - start) / 4))
        invariant Same(old(buf[..]), buf[..], 0, start) && Same(old(buf[..]), buf[..], end, buf.Length)
      {
        ghost var b := buf[..];
        NopAdded(b, start, (p - start) / 4, end);
        PutBytes(buf, p, Be32(FDT_NOP));
        SameTrans(old(buf[..]), b, buf[..], 0, start);
        SameTrans(old(buf[..]), b, buf[..], end, buf.Length);
        p := p + 4;
      }
    }

    /** Blanks out a run of tags. */
    method NopTags(offset: nat, len: nat, ghost a: nat, ghost b: nat)
      requires WellFormed() && a <= b <= |body| && offset == Total(body[..a]) && TagAlign(len) == Total(body[a..b])
      modifies this`body, buf
      ensures WellFormed() && body == Blanked(old(body), a, b) && Items() == old(WithoutNode(a, b))
    {
      hide AllLie, Same, Offset, Total, Named, Means, Blanked, TagAlign;
      ghost var f := View();
      RunInBlock(f, body, a, b);
      FdtNopRegion(offStruct + offset, len);
      NodeBlanked(f, buf[..], body, a, b);
      body := Blanked(body, a, b);
    }

    /** Blanks out the node at nodeoffset, the a-th tag. What is read afterwards is what was read
        before without that node; a node that is never closed is an error, and so is an offset at
        which no node begins. */
    method FdtNopNode(nodeoffset: int, ghost a: nat) returns (err: int)
      requires WellFormed() && NodeAt(nodeoffset, a)
      modifies this`body, buf
      ensures WellFormed()
      ensures err != 0 ==> body == old(body) && buf[..] == old(buf[..])
      ensures old(CheckNode(View(), nodeoffset)) < 0 ==>
                err == if nodeoffset < 0 then nodeoffset else -FDT_ERR_BADOFFSET
      ensures old(CheckNode(View(), nodeoffset)) >= 0 ==>
                var b := Close(old(body), a + 1, 0);
                if b == -1 then err == -FDT_ERR_NOTFOUND
                else err == 0 && body == Blanked(old(body), a, b) && Items() == old(WithoutNode(a, b))
    {
      hide AllLie, Same, Lies, Offset, Total, Named, Close, Means, Blanked, NodeEndOffset, CheckNode;
      ghost var f := View();
      StructBound(f, body);
      if CheckNode(f, nodeoffset) >= 0 {
        NodeEndCloses(f, body, a, 0);
        NodeLies(f, body, a);
      } else {
        NoNodeEnd(f, nodeoffset);
      }
      var endoffset := FdtNodeEndOffset(View(), nodeoffset);
      if endoffset < 0 {
        return endoffset;
      }
      NopTags(nodeoffset, endoffset - nodeoffset, a, Close(body, a + 1, 0));
      return 0;
    }

    /** fdt_nop_property: the first property with the name is blanked out. */
    method FdtNopProperty(nodeoffset: int, name: Bytes, ghost a: nat) returns (err: int)
      requires WellFormed() && NodeAt(nodeoffset, a)
      modifies this`body, buf
      ensures WellFormed()
      ensures err != 0 ==> body == old(body) && buf[..] == old(buf[..])
      ensures old(CheckNode(View(), nodeoffset)) < 0 ==> err == -FDT_ERR_BADOFFSET
      ensures old(CheckNode(View(), nodeoffset)) >= 0 ==>
                var k := old(PropIndex(View(), body, a + 1, name));
                if k >= 0 then err == 0 && body == Blanked(old(body), k, k + 1) && Items() == old(WithoutNode(k, k + 1))
                else err == if k == -1 then -FDT_ERR_NOTFOUND else -FDT_ERR_BADSTRUCTURE
    {
      hide AllLie, Block, Named, Means, TagAlign, GetString, Offset, Total, Sane, PropIndex, Blanked, WordAt, Lies,
           CheckNode;
      ghost var f := View();
      StructBound(f, body);
      if CheckNode(f, nodeoffset) >= 0 {
        PropPlaces(f, body, a, name);
      } else {
        NoNodeProp(f, nodeoffset, name);
      }
      var offset := FdtGetProperty(View(), nodeoffset, name);
      if offset < 0 {
        return offset;
      }
      ghost var k := PropIndex(f, body, a + 1, name);
      PropPlace(f, body, k);
      PropSizes(body[k], body[k]);
      var len := WordAt(buf[..], offStruct + offset + 4);
      AlignAdd(len, 12);
      NopTags(offset, len + 12, k, k + 1);
      return 0;
    }

    /** fdt_splice_: replaces oldlen bytes of the used part of the buffer by newlen bytes, moving
        what lies behind; the new bytes are whatever was there. */
    method FdtSplice(soff: nat, oldlen: nat, newlen: nat) returns (err: int)
      requires offStrings + sizeStrings <= totalSize <= buf.Length
      modifies buf
      ensures var dsize := offStrings + sizeStrings;
              if soff + oldlen > dsize then err == -FDT_ERR_BADOFFSET && buf[..] == old(buf[..])
              else if dsize - oldlen + newlen > totalSize then err == -FDT_ERR_NOSPACE && buf[..] == old(buf[..])
              else err == 0 && buf[..] == Written(old(buf[..]), soff + newlen, old(buf[..])[soff + oldlen..dsize])
    {
      hide Written;
      var dsize := offStrings + sizeStrings;
      if soff + oldlen > dsize || dsize + newlen < oldlen {
        return -FDT_ERR_BADOFFSET;
      }
      if dsize - oldlen + newlen > totalSize {
        return -FDT_ERR_NOSPACE;
      }
      PutBytes(buf, soff + newlen, buf[soff + oldlen..dsize]);
      return 0;
    }

    /** fdt_splice_struct_: a splice in the structure block. */
    method FdtSpliceStruct(soff: nat, oldlen: nat, newlen: nat) returns (err: int)
      requires offStrings + sizeStrings <= totalSize <= buf.Length && oldlen <= sizeStruct && oldlen <= offStrings
      modifies this`sizeStruct, this`offStrings, buf
      ensures var dsize := old(offStrings) + sizeStrings;
              if soff + oldlen > dsize then err == -FDT_ERR_BADOFFSET && buf[..] == old(buf[..])
              else if dsize - oldlen + newlen > totalSize then err == -FDT_ERR_NOSPACE && buf[..] == old(buf[..])
              else err == 0 && buf[..] == Written(old(buf[..]), soff + newlen, old(buf[..])[soff + oldlen..dsize])
      ensures if err == 0 then sizeStruct == old(sizeStruct) - oldlen + newlen
          && offStrings == old(offStrings) - oldlen + newlen
              else sizeStruct == old(sizeStruct) && offStrings == old(offStrings)
    {
      hide Written;
      err := FdtSplice(soff, oldlen, newlen);
      if err != 0 {
        return;
      }
      sizeStruct := sizeStruct - oldlen + newlen;
      offStrings := offStrings - oldlen + newlen;
    }

    /** Splices a run of tags, from the a-th to the b-th, out of the blob. */
    method CutTags(offset: nat, len: nat, ghost a: nat, ghost b: nat) returns (err: int)
      requires WellFormed() && a <= b <= |body| && offset == Total(body[..a]) && len == Total(body[a..b])
      modifies this`body, this`sizeStruct, this`offStrings, buf
      ensures WellFormed() && err == 0 && body == Cut(old(body), a, b) && Items() == old(WithoutNode(a, b))
    {
      hide AllLie, Offset, Total, Named, Block, Means, Cut, Written, Spliced;
      ghost var f := View();
      NodeCut(f, body, a, b);
      err := FdtSpliceStruct(offStruct + offset, len, 0);
      SplicedHeader(f, buf[..], len, 0);
      body := Cut(body, a, b);
    }

    /** Deletes the node at nodeoffset, the a-th tag, and closes the gap. What is read afterwards is
        exactly what is read after blanking the node out. */
    method FdtDelNode(nodeoffset: int, ghost a: nat) returns (err: int)
      requires RwProbe() == 0 ==> WellFormed() && NodeAt(nodeoffset, a)
      modifies this`body, this`sizeStruct, this`offStrings, buf
      ensures old(RwProbe()) != 0 ==> err == old(RwProbe())
      ensures err != 0 ==> body == old(body) && View() == old(View())
      ensures old(RwProbe()) == 0 ==> WellFormed()
      ensures old(RwProbe()) == 0 && old(CheckNode(View(), nodeoffset)) < 0 ==>
                err == if nodeoffset < 0 then nodeoffset else -FDT_ERR_BADOFFSET
      ensures old(RwProbe()) == 0 && old(CheckNode(View(), nodeoffset)) >= 0 ==>
                var b := Close(old(body), a + 1, 0);
                if b == -1 then err == -FDT_ERR_NOTFOUND
                else err == 0 && body == Cut(old(body), a, b) && Items() == old(WithoutNode(a, b))
    {
      hide AllLie, Same, Lies, Offset, Total, Named, Close, Means, Cut, NodeEndOffset, Written, Spliced, CheckNode;
      if RwProbe() != 0 {
        return RwProbe();
      }
      ghost var f := View();
      StructBound(f, body);
      if CheckNode(f, nodeoffset) >= 0 {
        NodeEndCloses(f, body, a, 0);
        NodeLies(f, body, a);
      } else {
        NoNodeEnd(f, nodeoffset);
      }
      var endoffset := FdtNodeEndOffset(View(), nodeoffset);
      if endoffset < 0 {
        return endoffset;
      }
      ghost var b := Close(body, a + 1, 0);
      err := CutTags(nodeoffset, endoffset - nodeoffset, a, b);
    }

    /** fdt_find_add_string_: the offset of a name in the strings block, found or added at its end. */
    method FdtFindAddString(name: Bytes) returns (nameoff: int, added: bool)
      requires WellFormed() && 0 !in name
      modifies this`sizeStrings, buf
      ensures WellFormed() && Items() == old(Items())
      ensures var need := StringRoom(old(View()), name);
              if offStrings + old(sizeStrings) + need > totalSize then nameoff == -FDT_ERR_NOSPACE
                  && sizeStrings == old(sizeStrings) && buf[..] == old(buf[..])
              else
                && sizeStrings == old(sizeStrings) + need && 0 <= nameoff <= sizeStrings && (added <==> need > 0)
                && GetString(View(), nameoff) == Some(name)
      ensures GrownStrings(old(View()), View())
    {
      hide AllLie, Block, Named, Means, NameAt, HasBytes, Same, Written, GrownStrings, NotBefore, Sane, StringRoom,
           InTable, GetString;
      WellFormedSame(View(), body);
      added := false;
      var p := FindString(buf, offStrings, sizeStrings, name);
      if p != -1 {
        FoundRead(View(), p, name);
        return p - offStrings, false;
      }
      NotFoundRoom(View(), name);
      ghost var f := View();
      var at := offStrings + sizeStrings;
      var err := FdtSplice(at, 0, |name| + 1);
      if err != 0 {
        return err, false;
      }
      StringAdded(f, body, name);
      nameoff := sizeStrings;
      sizeStrings := sizeStrings + |name| + 1;
      PutBytes(buf, at, name);
      PutBytes(buf, at + |name|, [0]);
      return nameoff, true;
    }

    /** The branch of setprop for a property that is there: the k-th tag gets a new value. */
    method ResizeProperty(offset: nat, val: Bytes, ghost k: nat, ghost name: Bytes) returns (err: int)
      requires WellFormed() && |val| <= INT_MAX && k < |body| && body[k].Prop? && offset == Offset(body + [Finish], k)
      requires GetString(View(), Signed(body[k].nameoff)) == Some(name)
      modifies this`sizeStruct, this`offStrings, this`body, buf
      ensures WellFormed()
      ensures var fits := old(offStrings) + sizeStrings + TagAlign(|val|) <= totalSize + TagAlign(|old(body)[k].value|);
              err == if fits then 0 else -FDT_ERR_NOSPACE
      ensures err != 0 ==> body == old(body) && View() == old(View())
      ensures err == 0 ==> offStrings == old(offStrings) - TagAlign(|old(body)[k].value|) + TagAlign(|val|)
      ensures err == 0 ==> body == Replaced(old(body), k, k + 1, [Prop(old(body)[k].nameoff, val)])
      ensures err == 0 ==> Items() == old(Around(k, k + 1, [Property(name, val)])) && GrownStrings(old(View()), View())
    {
      hide AllLie, Block, Named, Means, HasBytes, Same, Written, GrownStrings, TagAlign, Lies, Total, GetString, WordAt,
           Offset, Be32, Sane, Spliced, Replaced;
      ghost var f, e := View(), Prop(body[k].nameoff, val);
      PropPlace(f, body, k);
      var p := offStruct + offset;
      var oldlen := WordAt(buf[..], p + 4);
      err := FdtSpliceStruct(p + 12, TagAlign(oldlen), TagAlign(|val|));
      if err != 0 {
        return;
      }
      ResizedBytes(f.bytes, p, e.nameoff, body[k].value, val, f.offStruct, f.offStrings + f.sizeStrings);
      PutBytes(buf, p + 4, Be32(|val|));
      PutBytes(buf, p + 12, val);
      PropSizes(body[k], e);
      PropSpliced(f, buf[..], body, k, k + 1, e, name);
      SplicedHeader(f, buf[..], TagAlign(oldlen) + 12, TagAlign(|val|) + 12);
      body := Replaced(body, k, k + 1, [e]);
    }

    /** The second half of fdt_add_property_, and the copy of the value: a property with a name that
        is in the strings block goes right behind the begin tag of the node. */
    method InsertProperty(nextoffset: nat, nameoff: nat, val: Bytes, ghost name: Bytes, ghost a: nat) returns (err: int)
      requires WellFormed() && |val| + 15 <= INT_MAX && nameoff <= sizeStrings
      requires GetString(View(), nameoff) == Some(name)
      requires a < |body| && body[a].Begin? && nextoffset == Offset(body + [Finish], a + 1)
      modifies this`sizeStruct, this`offStrings, this`body, buf
      ensures WellFormed()
      ensures err == if old(offStrings) + sizeStrings + 12 + TagAlign(|val|) <= totalSize then 0 else -FDT_ERR_NOSPACE
      ensures err != 0 ==> View() == old(View()) && body == old(body)
      ensures err == 0 ==>
                && body == Replaced(old(body), a + 1, a + 1, [Prop(nameoff, val)])
                && GetString(View(), nameoff) == Some(name)
      ensures err == 0 ==>
                Items() == old(Around(a + 1, a + 1, [Property(name, val)])) && GrownStrings(old(View()), View())
    {
      hide AllLie, Block, Named, Means, HasBytes, Same, Written, GrownStrings, TagAlign, Lies, Total, GetString, WordAt,
           Offset, Be32, Spliced, Replaced, PropWords, Finished, Sane;
      ghost var f, e := View(), Prop(nameoff, val);
      FinishedBounds(f);
      PropRoom(f, body, a);
      var p := offStruct + nextoffset;
      err := FdtSpliceStruct(p, 0, 12 + TagAlign(|val|));
      if err != 0 {
        return;
      }
      InsertedBytes(f.bytes, p, nameoff, val, f.offStruct, f.offStrings + f.sizeStrings);
      PutProperty(buf, p, nameoff, val);
      PropSizes(e, e);
      PropSpliced(f, buf[..], body, a + 1, a + 1, e, name);
      SplicedHeader(f, buf[..], 0, TagAlign(|val|) + 12);
      body := Replaced(body, a + 1, a + 1, [e]);
    }

    /** fdt_add_property_ for a property whose name is the first namelen bytes of the string s. If there is
        no room for the property, a name that was added is taken back by the length of s. */
    method AddProperty(nodeoffset: int, s: Bytes, namelen: nat, val: Bytes, ghost a: nat)
        returns (err: int, ghost nameoff: nat)
      requires WellFormed() && 0 !in s && namelen <= |s| && |val| + 15 <= INT_MAX
      requires a < |body| && body[a].Begin? && nodeoffset == Offset(body + [Finish], a)
      modifies this`sizeStruct, this`offStrings, this`sizeStrings, this`body, buf
      ensures var used, need := old(offStrings + sizeStrings), old(StringRoom(View(), s[..namelen]));
              && err == (if used + need + 12 + TagAlign(|val|) <= totalSize then 0 else -FDT_ERR_NOSPACE)
              && sizeStrings == if err == 0 then old(sizeStrings) + need
                                else if 0 < need && used + need <= totalSize
                                then (old(sizeStrings) + namelen - |s|) % TWO32
                                else old(sizeStrings)
      ensures err == 0 || sizeStrings == old(sizeStrings) ==> WellFormed()
      ensures err != 0 ==> body == old(body) && StringsCut(old(View()), View(), body)
      ensures err == 0 ==>
                && body == Replaced(old(body), a + 1, a + 1, [Prop(nameoff, val)])
                && GetString(View(), Signed(nameoff)) == Some(s[..namelen])
      ensures err == 0 ==> Items() == old(Around(a + 1, a + 1, [Property(s[..namelen], val)]))
    {
      hide AllLie, Block, Named, Means, GrownStrings, TagAlign, GetString, Offset, Replaced, NotBefore, Sane,
           StringsCut;
      nameoff := 0;
      ghost var f := View();
      PropRoom(f, body, a);
      WellFormedSame(f, body);
      var nextoffset := FdtCheckNodeOffset(View(), nodeoffset);
      var namestroff, added := FdtFindAddString(s[..namelen]);
      ghost var f1 := View();
      if namestroff < 0 {
        CutStrings(f, f1, body, f.sizeStrings);
        err := namestroff;
        return;
      }
      PartsMean(f, f1, body, a + 1, a + 1);
      err := InsertProperty(nextoffset, namestroff, val, s[..namelen], a);
      nameoff := namestroff;
      if err != 0 {
        RolledBack(f, f1, body, f.sizeStrings);
        if added {
          sizeStrings := (sizeStrings - (|s| + 1)) % TWO32;
        }
        CutStrings(f, f1, body, sizeStrings);
      }
    }

    /** The branch of fdt_setprop_namelen for a property that is there. */
    method ResizeFound(offset: nat, s: Bytes, namelen: nat, val: Bytes, ghost a: nat, ghost k: nat) returns (err: int)
      requires WellFormed() && namelen <= |s| && |val| <= INT_MAX
      requires a < k < |body| && body[a].Begin? && body[k].Prop? && offset == Offset(body + [Finish], k)
      requires PropIndex(View(), body, a + 1, s[..namelen]) == k
      requires GetString(View(), Signed(body[k].nameoff)) == Some(s[..namelen])
      modifies this`sizeStruct, this`offStrings, this`body, buf
      ensures WellFormed() && (err != 0 ==> body == old(body) && StringsCut(old(View()), View(), body))
      ensures PropertySet(old(View()), old(body), a, s, namelen, val, View(), body, err)
    {
      hide AllLie, Block, Named, Means, GrownStrings, TagAlign, GetString, Offset, Replaced, NotBefore, PropIndex,
           PropValue, StringsCut, StringRoom;
      ghost var f, body0 := View(), body;
      err := ResizeProperty(offset, val, k, s[..namelen]);
      if err == 0 {
        Resized(f, View(), body0, a, k, val, s[..namelen]);
      } else {
        Unchanged(f, body);
      }
    }

    /** The branch of fdt_setprop_namelen for a property that is not there. */
    method AddMissing(nodeoffset: int, s: Bytes, namelen: nat, val: Bytes, ghost a: nat) returns (err: int)
      requires WellFormed() && 0 !in s && namelen <= |s| && |val| + 15 <= INT_MAX
      requires a < |body| && body[a].Begin? && nodeoffset == Offset(body + [Finish], a)
      requires PropIndex(View(), body, a + 1, s[..namelen]) == -1
      modifies this`sizeStruct, this`offStrings, this`sizeStrings, this`body, buf
      ensures err == 0 || sizeStrings == old(sizeStrings) ==> WellFormed()
      ensures err != 0 ==> body == old(body) && StringsCut(old(View()), View(), body)
      ensures PropertySet(old(View()), old(body), a, s, namelen, val, View(), body, err)
    {
      hide AllLie, Block, Named, Means, GrownStrings, TagAlign, GetString, Offset, Replaced, NotBefore, PropIndex,
           PropValue, StringsCut, StringRoom;
      ghost var nameoff, body0 := 0, body;
      err, nameoff := AddProperty(nodeoffset, s, namelen, val, a);
      if err == 0 {
        Added(View(), body0, a, Prop(nameoff, val), s[..namelen]);
      }
    }

    /** fdt_setprop_namelen on a node, after the search for the property. */
    method ResizeOrAdd(nodeoffset: int, offset: int, s: Bytes, namelen: nat, val: Bytes, ghost a: nat)
        returns (err: int)
      requires WellFormed() && 0 !in s && namelen <= |s| < INT_MAX && |val| + 15 <= INT_MAX
      requires a < |body| && body[a].Begin? && nodeoffset == Offset(body + [Finish], a)
      requires offset == PropResult(body, PropIndex(View(), body, a + 1, s[..namelen]))
      modifies this`sizeStruct, this`offStrings, this`sizeStrings, this`body, buf
      ensures err == 0 || sizeStrings == old(sizeStrings) ==> WellFormed()
      ensures err != 0 ==> body == old(body) && StringsCut(old(View()), View(), body)
      ensures PropertySet(old(View()), old(body), a, s, namelen, val, View(), body, err)
    {
      hide AllLie, Block, Named, Means, GetString, Offset, PropIndex, StringsCut, PropertySet, TagAlign, Sane;
      ghost var f, k := View(), PropIndex(View(), body, a + 1, s[..namelen]);
      if offset >= 0 {
        err := ResizeFound(offset, s, namelen, val, a, k);
      } else if offset == -FDT_ERR_NOTFOUND {
        err := AddMissing(nodeoffset, s, namelen, val, a);
      } else {
        Unchanged(f, body);
        SearchFailed(f, body, a, s, namelen, val, offset);
        err := offset;
      }
    }

    /** fdt_setprop_namelen on the node at nodeoffset, the a-th tag, with the first namelen bytes of the
        string s for a name: its first property with the name gets a new value in place, or a new
        property becomes its first. The property then reads back as the new value, and nothing else
        that is read changes. After an error the strings block has its size back exactly if no name
        was added or the name is all of s; if not, the names that now end behind it are lost. */
    method FdtSetprop(nodeoffset: int, s: Bytes, namelen: nat, val: Bytes, ghost a: nat) returns (err: int)
      requires RwProbe() == 0 ==> WellFormed() && NodeAt(nodeoffset, a)
      requires 0 !in s && namelen <= |s| < INT_MAX && |val| + 15 <= INT_MAX
      modifies this`sizeStruct, this`offStrings, this`sizeStrings, this`body, buf
      ensures old(RwProbe()) != 0 ==> err == old(RwProbe()) && View() == old(View())
      ensures old(RwProbe()) == 0 && (err == 0 || sizeStrings == old(sizeStrings)) ==> WellFormed()
      ensures old(RwProbe()) == 0 && err != 0 ==> body == old(body) && StringsCut(old(View()), View(), body)
      ensures old(RwProbe()) == 0 && old(CheckNode(View(), nodeoffset)) < 0 ==>
                err == -FDT_ERR_BADOFFSET && View() == old(View())
      ensures old(RwProbe()) == 0 && old(CheckNode(View(), nodeoffset)) >= 0 ==>
                PropertySet(old(View()), old(body), a, s, namelen, val, View(), body, err)
    {
      hide AllLie, Block, Named, Means, GetString, Offset, Sane, PropIndex, CheckNode, StringsCut, GetProperty, Total,
           Lies, NextTag, PropertySet, Finished;
      if RwProbe() != 0 {
        return RwProbe();
      }
      ghost var f := View();
      StructBound(f, body);
      if CheckNode(f, nodeoffset) >= 0 {
        PropPlaces(f, body, a, s[..namelen]);
      } else {
        NoNodeProp(f, nodeoffset, s[..namelen]);
        Unchanged(f, body);
      }
      var offset := FdtGetProperty(View(), nodeoffset, s[..namelen]);
      if offset == -FDT_ERR_BADOFFSET {
        return offset;
      }
      err := ResizeOrAdd(nodeoffset, offset, s, namelen, val, a);
    }

    /** fdt_delprop: the first property with the name is cut out. */
    method FdtDelprop(nodeoffset: int, name: Bytes, ghost a: nat) returns (err: int)
      requires RwProbe() == 0 ==> WellFormed() && NodeAt(nodeoffset, a)
      modifies this`sizeStruct, this`offStrings, this`body, buf
      ensures old(RwProbe()) != 0 ==> err == old(RwProbe())
      ensures old(RwProbe()) == 0 ==> WellFormed()
      ensures err != 0 ==> View() == old(View()) && body == old(body)
      ensures old(RwProbe()) == 0 && old(CheckNode(View(), nodeoffset)) < 0 ==> err == -FDT_ERR_BADOFFSET
      ensures old(RwProbe()) == 0 && old(CheckNode(View(), nodeoffset)) >= 0 ==>
                var k := old(PropIndex(View(), body, a + 1, name));
                if k >= 0 then err == 0 && body == Cut(old(body), k, k + 1) && Items() == old(WithoutNode(k, k + 1))
                else err == (if k == -1 then -FDT_ERR_NOTFOUND else -FDT_ERR_BADSTRUCTURE)
    {
      hide AllLie, Block, Named, Means, TagAlign, GetString, Offset, Total, Sane, PropIndex, Cut, Written, WordAt, Lies,
           Spliced, CheckNode;
      if RwProbe() != 0 {
        return RwProbe();
      }
      ghost var f := View();
      StructBound(f, body);
      if CheckNode(f, nodeoffset) >= 0 {
        PropPlaces(f, body, a, name);
      } else {
        NoNodeProp(f, nodeoffset, name);
      }
      var offset := FdtGetProperty(View(), nodeoffset, name);
      if offset < 0 {
        return offset;
      }
      ghost var k := PropIndex(f, body, a + 1, name);
      PropPlace(f, body, k);
      var proplen := 12 + TagAlign(WordAt(buf[..], offStruct + offset + 4));
      err := CutTags(offset, proplen, k, k + 1);
    }

    /** What is read with items in the place of the tags from a to b. */
    ghost function Around(a: nat, b: nat, items: seq<Item>): seq<Item>
      requires Sane(View()) && a <= b <= |body|
      reads this, buf
    {
      Means(View(), body[..a]) + items + Means(View(), body[b..])
    }

    /** What is read without the tags from a to b. */
    ghost function WithoutNode(a: nat, b: nat): seq<Item>
      requires Sane(View()) && a <= b <= |body|
      reads this, buf
    {
      Means(View(), body[..a]) + Means(View(), body[b..])
    }
  }

  /** Blanking a node out of one blob and deleting it from an equal one: the same errors, and blobs
      that denote the same tree. */
  method NopAndDelete(x: TreeEditor, y: TreeEditor, nodeoffset: int, ghost a: nat) returns (nop: int, del: int)
    requires x != y && x.buf != y.buf && x.WellFormed() && y.WellFormed() && x.View() == y.View() && x.body == y.body
    requires x.NodeAt(nodeoffset, a)
    modifies x`body, x.buf, y`body, y`sizeStruct, y`offStrings, y.buf
    ensures nop == del
    ensures old(CheckNode(x.View(), nodeoffset)) >= 0 ==>
              nop == if Close(old(x.body), a + 1, 0) == -1 then -FDT_ERR_NOTFOUND else 0
    ensures x.WellFormed() && y.WellFormed() && Read(x.View(), 0) == Read(y.View(), 0)
    ensures forall n :: Denotes(x.View(), n) <==> Denotes(y.View(), n)
  {
    hide Block, Named, Means, Offset, Close, Read;
    y.WellFormedPasses();
    nop := x.FdtNopNode(nodeoffset, a);
    del := y.FdtDelNode(nodeoffset, a);
    x.ItemsRead();
    y.ItemsRead();
  }
}
