/** The sequential writer. */
module FdtWriter {
  import opened Common
  import opened FdtBlob
  import opened FdtReader
  import opened FdtTree

  const HEADER_SIZE: nat := 48
  const FDT_LAST_COMPATIBLE_VERSION: nat := 16

  /** A buffer after data has been copied to an offset. */
  function Written(b: Bytes, at: nat, data: Bytes): (b': Bytes)
    requires at + |data| <= |b|
    ensures |b'| == |b|
  {
    b[..at] + data + b[at + |data|..]
  }

  lemma {:induction false} WrittenThere(b: Bytes, at: nat, data: Bytes)
    requires at + |data| <= |b|
    ensures HasBytes(Written(b, at, data), at, data)
  {
  }

  /** Two buffers agree on a range. */
  ghost predicate Same(b: Bytes, b': Bytes, lo: nat, hi: nat) {
    lo <= hi <= |b| && |b| == |b'| && b[lo..hi] == b'[lo..hi]
  }

  lemma {:induction false} WrittenBefore(b: Bytes, at: nat, data: Bytes, lo: nat, hi: nat)
    requires at + |data| <= |b| && lo <= hi <= at
    ensures Same(b, Written(b, at, data), lo, hi)
  {
  }

  lemma {:induction false} WrittenBehind(b: Bytes, at: nat, data: Bytes, lo: nat, hi: nat)
    requires at + |data| <= lo <= hi <= |b|
    ensures Same(b, Written(b, at, data), lo, hi)
  {
  }

  lemma {:induction false} StillThere(b: Bytes, b': Bytes, lo: nat, hi: nat, at: nat, data: Bytes)
    requires Same(b, b', lo, hi) && lo <= at && at + |data| <= hi && HasBytes(b, at, data)
    ensures HasBytes(b', at, data)
  {
    forall k | 0 <= k < |data|
      ensures b'[at + k] == data[k]
    {
      assert b[lo..hi][at - lo + k] == b'[lo..hi][at - lo + k];
      assert b[at..at + |data|][k] == data[k];
    }
  }

  lemma {:induction false} StillLies(b: Bytes, b': Bytes, lo: nat, hi: nat, at: nat, e: Event)
    requires Same(b, b', lo, hi) && lo <= at && at + Size(e) <= hi && Lies(b, at, e)
    ensures Lies(b', at, e)
  {
    hide Same, HasBytes, Be32;
    match e
    case Begin(name) =>
      StillThere(b, b', lo, hi, at, Be32(FDT_BEGIN_NODE));
      StillThere(b, b', lo, hi, at + 4, name);
      StillThere(b, b', lo, hi, at + 4 + |name|, [0]);
    case Prop(nameoff, value) =>
      StillThere(b, b', lo, hi, at, Be32(FDT_PROP));
      StillThere(b, b', lo, hi, at + 4, Be32(|value|));
      StillThere(b, b', lo, hi, at + 8, Be32(nameoff));
      StillThere(b, b', lo, hi, at + 12, value);
    case End => StillThere(b, b', lo, hi, at, Be32(FDT_END_NODE));
    case Nop => StillThere(b, b', lo, hi, at, Be32(FDT_NOP));
    case Finish => StillThere(b, b', lo, hi, at, Be32(FDT_END));
  }

  /** The tags laid out one after the other from `start`. */
  ghost predicate AllLie(b: Bytes, start: nat, es: seq<Event>) {
    forall i :: 0 <= i < |es| ==> Lies(b, start + Offset(es, i), es[i])
  }

  lemma {:induction false} OffsetPrefix(es: seq<Event>, e: Event, i: nat)
    requires i <= |es|
    ensures Offset(es + [e], i) == Offset(es, i)
    decreases i
  {
    hide Size;
    if i > 0 {
      OffsetPrefix(es, e, i - 1);
    }
  }

  lemma {:induction false} AllLieStill(b: Bytes, b': Bytes, start: nat, es: seq<Event>)
    requires AllLie(b, start, es) && Same(b, b', start, start + Offset(es, |es|))
    ensures AllLie(b', start, es)
  {
    hide Lies, Same, Offset, Size;
    forall i | 0 <= i < |es|
      ensures Lies(b', start + Offset(es, i), es[i])
    {
      OffsetNext(es, i);
      StillLies(b, b', start, start + Offset(es, |es|), start + Offset(es, i), es[i]);
    }
  }

  lemma {:induction false} OneMore(b: Bytes, start: nat, es: seq<Event>, e: Event, i: nat)
    requires AllLie(b, start, es) && i <= |es| && Lies(b, start + Offset(es, |es|), e)
    ensures Lies(b, start + Offset(es + [e], i), (es + [e])[i])
  {
    hide Lies, Offset;
    OffsetPrefix(es, e, i);
  }

  /** One more tag at the end. */
  lemma {:induction false} AllLieMore(b: Bytes, b': Bytes, start: nat, es: seq<Event>, e: Event)
    requires AllLie(b, start, es) && Same(b, b', start, start + Offset(es, |es|))
    requires Lies(b', start + Offset(es, |es|), e)
    ensures AllLie(b', start, es + [e]) && Offset(es + [e], |es| + 1) == Offset(es, |es|) + Size(e)
  {
    hide Lies, Same, Offset, Size;
    AllLieStill(b, b', start, es);
    OffsetPrefix(es, e, |es|);
    OffsetNext(es + [e], |es|);
    var es' := es + [e];
    forall i | 0 <= i < |es'|
      ensures Lies(b', start + Offset(es', i), es'[i])
    {
      OneMore(b', start, es, e, i);
    }
  }

  // ---------------------------------------------------------------------------
  // Names
  // ---------------------------------------------------------------------------

  /** A NUL-terminated name at an offset. */
  ghost predicate NameAt(b: Bytes, at: nat, name: Bytes) {
    0 !in name && HasBytes(b, at, name) && HasBytes(b, at + |name|, [0])
  }

  /** While writing, a name offset counts back from the end of the buffer, as a negative int in a
      32-bit word. */
  ghost predicate NameBack(b: Bytes, total: nat, strings: nat, nameoff: nat, name: Bytes) {
    && INT_MAX < nameoff < TWO32
    && var back := TWO32 - nameoff;
       |name| + 1 <= back <= strings <= total && NameAt(b, total - back, name)
  }

  /** The tag was written for the item. */
  ghost predicate WrittenFor(b: Bytes, total: nat, strings: nat, e: Event, item: Item) {
    match e
    case Begin(name) => item == NodeBegin(name)
    case Prop(nameoff, value) => item.Property? && item.value == value
        && NameBack(b, total, strings, nameoff, item.name)
    case End => item == NodeEnd
    case _ => false
  }

  ghost predicate AllWrittenFor(b: Bytes, total: nat, strings: nat, es: seq<Event>, items: seq<Item>) {
    |es| == |items| && forall i :: 0 <= i < |es| ==> WrittenFor(b, total, strings, es[i], items[i])
  }

  lemma {:induction false} StillWrittenFor(b: Bytes, b': Bytes, total: nat, strings: nat, strings': nat, es: seq<Event>,
                                           items: seq<Item>)
    requires AllWrittenFor(b, total, strings, es, items) && strings <= strings' <= total <= |b|
    requires Same(b, b', total - strings, total)
    ensures AllWrittenFor(b', total, strings', es, items)
  {
    forall i | 0 <= i < |es|
      ensures WrittenFor(b', total, strings', es[i], items[i])
    {
      assert WrittenFor(b, total, strings, es[i], items[i]);
      if es[i].Prop? {
        var at := total - (TWO32 - es[i].nameoff);
        StillThere(b, b', total - strings, total, at, items[i].name);
        StillThere(b, b', total - strings, total, at + |items[i].name|, [0]);
      }
      hide HasBytes, Same;
    }
  }

  /** The name lies, with its NUL, within a range of the buffer. */
  ghost predicate InTable(b: Bytes, lo: nat, hi: nat, p: nat, name: Bytes) {
    lo <= p && p + |name| + 1 <= hi <= |b| && HasBytes(b, p, name) && HasBytes(b, p + |name|, [0])
  }

  /** The name lies nowhere in the range before p. */
  ghost predicate NotBefore(b: Bytes, lo: nat, hi: nat, p: nat, name: Bytes) {
    forall q: nat :: q < p ==> !InTable(b, lo, hi, q, name)
  }

  /** Names, each with its NUL. */
  function Packed(names: seq<Bytes>): Bytes {
    if names == [] then [] else names[0] + [0] + Packed(names[1..])
  }

  ghost predicate Distinct(names: seq<Bytes>) {
    forall i, j :: 0 <= i < j < |names| ==> names[i] != names[j]
  }

  /** The strings block, at the end of the buffer, holds these names and nothing else; if names are
      shared, each once. */
  ghost predicate Table(b: Bytes, total: nat, strings: nat, names: seq<Bytes>, flags: nat) {
    strings <= total <= |b| && b[total - strings..total] == Packed(names) && (flags == 0 ==> Distinct(names))
  }

  /** A stored name lies in the block. */
  lemma {:induction false} StoredLies(b: Bytes, lo: nat, hi: nat, names: seq<Bytes>, k: nat) returns (p: nat)
    requires lo <= hi <= |b| && b[lo..hi] == Packed(names) && k < |names|
    ensures p < hi && InTable(b, lo, hi, p, names[k])
    decreases k
  {
    var n := |names[0]| + 1;
    assert b[lo..hi][..n] == names[0] + [0] && b[lo..hi][n..] == Packed(names[1..]);
    assert b[lo..lo + n] == names[0] + [0] && b[lo + n..hi] == Packed(names[1..]);
    if k == 0 {
      p := lo;
      HasBoth(b, lo, names[0], [0]);
    } else {
      p := StoredLies(b, lo + n, hi, names[1..], k - 1);
    }
  }

  lemma {:induction false} TableKept(b: Bytes, b': Bytes, total: nat, strings: nat, names: seq<Bytes>, flags: nat)
    requires Table(b, total, strings, names, flags) && Same(b, b', total - strings, total)
    ensures Table(b', total, strings, names, flags)
  {
    hide Packed, Distinct;
  }

  /** A name is added in front. */
  lemma {:induction false} TableMore(b: Bytes, b': Bytes, total: nat, strings: nat, names: seq<Bytes>, flags: nat,
                                     name: Bytes)
    requires Table(b, total, strings, names, flags) && Same(b, b', total - strings, total)
    requires strings + |name| + 1 <= total
    requires NameAt(b', total - strings - |name| - 1, name)
    requires flags == 0 ==> NotBefore(b, total - strings, total, total, name)
    ensures Table(b', total, strings + |name| + 1, [name] + names, flags)
  {
    hide Packed, Distinct, NotBefore;
    var lo := total - strings - |name| - 1;
    assert ([name] + names)[1..] == names;
    PackedMore(name, names);
    assert b'[lo..total] == b'[lo..lo + |name|] + b'[lo + |name|..lo + |name| + 1] + b'[total - strings..total];
    if flags == 0 {
      NotStored(b, total - strings, total, names, name);
      DistinctMore(names, name);
    }
  }

  lemma {:induction false} TableMoved(b: Bytes, b': Bytes, lo: nat, hi: nat, names: seq<Bytes>)
    requires Same(b, b', lo, hi) && b[lo..hi] == Packed(names)
    ensures lo <= hi <= |b'| && b'[lo..hi] == Packed(names)
  {
  }

  lemma {:induction false} PackedMore(name: Bytes, names: seq<Bytes>)
    ensures Packed([name] + names) == name + [0] + Packed(names)
  {
    assert ([name] + names)[1..] == names;
  }

  lemma {:induction false} DistinctMore(names: seq<Bytes>, name: Bytes)
    requires Distinct(names) && name !in names
    ensures Distinct([name] + names)
  {
  }

  lemma {:induction false} NotStored(b: Bytes, lo: nat, hi: nat, names: seq<Bytes>, name: Bytes)
    requires lo <= hi <= |b| && b[lo..hi] == Packed(names) && NotBefore(b, lo, hi, hi, name)
    ensures name !in names
  {
    hide Packed;
    if name in names {
      var k :| 0 <= k < |names| && names[k] == name;
      var p := StoredLies(b, lo, hi, names, k);
    }
  }

  lemma {:induction false} AlignAdd(n: nat, m: nat)
    requires m % 4 == 0
    ensures TagAlign(n + m) == TagAlign(n) + m
  {
  }

  lemma {:induction false} HasBoth(b: Bytes, at: nat, x: Bytes, y: Bytes)
    requires HasBytes(b, at, x + y)
    ensures HasBytes(b, at, x) && HasBytes(b, at + |x|, y)
  {
    var z := x + y;
    forall k | 0 <= k < |x|
      ensures b[at + k] == x[k]
    {
      assert b[at..at + |z|][k] == z[k];
    }
    forall k | 0 <= k < |y|
      ensures b[at + |x| + k] == y[k]
    {
      assert b[at..at + |z|][|x| + k] == z[|x| + k];
    }
  }

  lemma {:induction false} SameTrans(b: Bytes, b1: Bytes, b2: Bytes, lo: nat, hi: nat)
    requires Same(b, b1, lo, hi) && Same(b1, b2, lo, hi)
    ensures Same(b, b2, lo, hi)
  {
  }

  /** Two writes side by side. */
  lemma {:induction false} TwoWrites(b: Bytes, p: nat, x: Bytes, y: Bytes, lo: nat, hi: nat, end: nat)
    requires lo <= p && p + |x| + |y| <= hi <= end <= |b|
    ensures var b' := Written(Written(b, p, x), p + |x|, y);
            && HasBytes(b', p, x) && HasBytes(b', p + |x|, y) && Same(b, b', lo, p) && Same(b, b', hi, end)
  {
    hide Written, HasBytes, Same;
    var b1 := Written(b, p, x);
    var b2 := Written(b1, p + |x|, y);
    WrittenThere(b, p, x);
    WrittenThere(b1, p + |x|, y);
    WrittenBefore(b1, p + |x|, y, p, p + |x|);
    StillThere(b1, b2, p, p + |x|, p, x);
    WrittenBefore(b, p, x, lo, p);
    WrittenBefore(b1, p + |x|, y, lo, p);
    SameTrans(b, b1, b2, lo, p);
    WrittenBehind(b, p, x, hi, end);
    WrittenBehind(b1, p + |x|, y, hi, end);
    SameTrans(b, b1, b2, hi, end);
  }

  lemma {:induction false} BeginWritten(b: Bytes, p: nat, name: Bytes, lo: nat, hi: nat, end: nat)
    requires lo <= p && p + 4 + |name| + 1 <= hi <= end <= |b| && 0 !in name
    ensures var b' := Written(Written(b, p, Be32(FDT_BEGIN_NODE)), p + 4, name + [0]);
            && Lies(b', p, Begin(name)) && Same(b, b', lo, p) && Same(b, b', hi, end)
  {
    hide Written, HasBytes, Same, Be32;
    TwoWrites(b, p, Be32(FDT_BEGIN_NODE), name + [0], lo, hi, end);
    HasBoth(Written(Written(b, p, Be32(FDT_BEGIN_NODE)), p + 4, name + [0]), p + 4, name, [0]);
  }

  lemma {:induction false} MoreWrittenFor(b: Bytes, total: nat, strings: nat, es: seq<Event>, items: seq<Item>,
                                          e: Event, item: Item)
    requires AllWrittenFor(b, total, strings, es, items) && WrittenFor(b, total, strings, e, item)
    ensures AllWrittenFor(b, total, strings, es + [e], items + [item])
  {
    hide WrittenFor;
  }

  /** A new tag at the end of the structure block. */
  lemma {:induction false} Appended(b: Bytes, b': Bytes, start: nat, total: nat, strings: nat, strings': nat,
                                    es: seq<Event>, items: seq<Item>, e: Event, item: Item)
    requires AllLie(b, start, es) && AllWrittenFor(b, total, strings, es, items) && strings <= strings' <= total <= |b|
    requires Same(b, b', start, start + Offset(es, |es|)) && Same(b, b', total - strings, total)
    requires Lies(b', start + Offset(es, |es|), e) && WrittenFor(b', total, strings', e, item)
    ensures AllLie(b', start, es + [e]) && AllWrittenFor(b', total, strings', es + [e], items + [item])
    ensures Offset(es + [e], |es + [e]|) == Offset(es, |es|) + Size(e)
  {
    hide AllLie, AllWrittenFor, Same, Lies, WrittenFor, Offset, Size;
    AllLieMore(b, b', start, es, e);
    StillWrittenFor(b, b', total, strings, strings', es, items);
    MoreWrittenFor(b', total, strings', es, items, e, item);
  }

  lemma {:induction false} WordWritten(b: Bytes, p: nat, word: Bytes, lo: nat, hi: nat, end: nat)
    requires lo <= p && p + |word| <= hi <= end <= |b|
    ensures var b' := Written(b, p, word); HasBytes(b', p, word) && Same(b, b', lo, p) && Same(b, b', hi, end)
  {
    hide Written, HasBytes, Same;
    WrittenThere(b, p, word);
    WrittenBefore(b, p, word, lo, p);
    WrittenBehind(b, p, word, hi, end);
  }

  /** The three words of a property. */
  function PropWords(b: Bytes, p: nat, nameoff: nat, len: nat): Bytes
    requires p + 12 <= |b| && nameoff < TWO32 && len < TWO32
  {
    Written(Written(Written(b, p, Be32(FDT_PROP)), p + 8, Be32(nameoff)), p + 4, Be32(len))
  }

  ghost predicate PropHead(b: Bytes, p: nat, nameoff: nat, len: nat) {
    && nameoff < TWO32 && len < TWO32 && HasBytes(b, p, Be32(FDT_PROP)) && HasBytes(b, p + 4, Be32(len))
    && HasBytes(b, p + 8, Be32(nameoff))
  }

  lemma {:induction false} HeadWritten(b: Bytes, p: nat, nameoff: nat, len: nat, lo: nat, hi: nat, end: nat)
    requires lo <= p && p + 12 <= hi <= end <= |b| && nameoff < TWO32 && len < TWO32
    ensures var b' := PropWords(b, p, nameoff, len);
            PropHead(b', p, nameoff, len) && Same(b, b', lo, p) && Same(b, b', hi, end)
  {
    hide Written, HasBytes, Same, Be32;
    var w, w' := Be32(FDT_PROP), Be32(nameoff);
    var b1 := Written(b, p, w);
    var b2 := Written(b1, p + 8, w');
    var b3 := Written(b2, p + 4, Be32(len));
    WordWritten(b, p, w, lo, hi, end);
    WordWritten(b1, p + 8, w', p, hi, end);
    WordWritten(b2, p + 4, Be32(len), p, p + 8, p + 12);
    WrittenBefore(b1, p + 8, w', lo, p);
    WrittenBefore(b2, p + 4, Be32(len), lo, p);
    WrittenBehind(b2, p + 4, Be32(len), hi, end);
    SameTrans(b, b1, b2, lo, p);
    SameTrans(b, b2, b3, lo, p);
    SameTrans(b, b1, b2, hi, end);
    SameTrans(b, b2, b3, hi, end);
    StillThere(b1, b2, p, p + 8, p, w);
    StillThere(b2, b3, p, p + 4, p, w);
    StillThere(b2, b3, p + 8, p + 12, p + 8, w');
  }

  lemma {:induction false} ValueWritten(b: Bytes, p: nat, nameoff: nat, value: Bytes, lo: nat, hi: nat, end: nat)
    requires lo <= p && p + 12 + |value| <= hi <= end <= |b| && |value| <= INT_MAX && PropHead(b, p, nameoff, |value|)
    ensures var b' := Written(b, p + 12, value);
            Lies(b', p, Prop(nameoff, value)) && Same(b, b', lo, p) && Same(b, b', hi, end)
  {
    hide Written, HasBytes, Same, Be32;
    var b' := Written(b, p + 12, value);
    WordWritten(b, p + 12, value, p, hi, end);
    WrittenBefore(b, p + 12, value, lo, p);
    StillThere(b, b', p, p + 12, p, Be32(FDT_PROP));
    StillThere(b, b', p, p + 12, p + 4, Be32(|value|));
    StillThere(b, b', p, p + 12, p + 8, Be32(nameoff));
  }

  /** A name is added in front of the strings. */
  lemma {:induction false} NameWritten(b: Bytes, p: nat, name: Bytes, lo: nat, hi: nat, end: nat)
    requires lo <= p && p + |name| + 1 <= hi <= end <= |b| && 0 !in name
    ensures var b' := Written(b, p, name + [0]); NameAt(b', p, name) && Same(b, b', lo, p) && Same(b, b', hi, end)
  {
    hide Written, HasBytes, Same;
    WordWritten(b, p, name + [0], lo, hi, end);
    HasBoth(Written(b, p, name + [0]), p, name, [0]);
  }

  lemma {:induction false} NameStill(b: Bytes, b': Bytes, lo: nat, hi: nat, p: nat, name: Bytes)
    requires NameAt(b, p, name) && Same(b, b', lo, hi) && lo <= p && p + |name| + 1 <= hi
    ensures NameAt(b', p, name)
  {
    hide HasBytes, Same;
    StillThere(b, b', lo, hi, p, name);
    StillThere(b, b', lo, hi, p + |name|, [0]);
  }

  lemma {:induction false} SameLess(b: Bytes, b': Bytes, lo: nat, hi: nat, lo': nat, hi': nat)
    requires Same(b, b', lo, hi) && lo <= lo' <= hi' <= hi
    ensures Same(b, b', lo', hi')
  {
    forall k | lo' <= k < hi'
      ensures b[k] == b'[k]
    {
      assert b[lo..hi][k - lo] == b'[lo..hi][k - lo];
    }
  }

  /** What a name takes from the free middle: nothing if names are shared and it is there already. */
  ghost function NameRoom(b: Bytes, strings: nat, flags: nat, name: Bytes): nat
    requires strings <= |b|
  {
    if flags == 0 && !NotBefore(b, |b| - strings, |b|, |b|, name) then 0 else |name| + 1
  }

  /** The strings grew, and something was written between the blocks: the tags still lie there. */
  lemma {:induction false} StillWriting(b: Bytes, b': Bytes, start: nat, total: nat, strings: nat, strings': nat,
                                        es: seq<Event>, items: seq<Item>)
    requires AllLie(b, start, es) && AllWrittenFor(b, total, strings, es, items) && strings <= strings' <= total <= |b|
    requires Same(b, b', 0, total - strings') && Same(b, b', total - strings, total)
    requires start + Offset(es, |es|) <= total - strings'
    ensures AllLie(b', start, es) && AllWrittenFor(b', total, strings', es, items)
    ensures AllWrittenFor(b', total, strings, es, items)
  {
    hide AllLie, AllWrittenFor, Same, Offset;
    SameLess(b, b', 0, total - strings', start, start + Offset(es, |es|));
    AllLieStill(b, b', start, es);
    StillWrittenFor(b, b', total, strings, strings', es, items);
    StillWrittenFor(b, b', total, strings, strings, es, items);
  }

  lemma {:induction false} BackFromEnd(b: Bytes, total: nat, strings: nat, nameoff: int, name: Bytes)
    requires total <= INT_MAX && strings <= total && 0 <= nameoff + strings && nameoff + |name| + 1 <= 0
    requires NameAt(b, total + nameoff, name)
    ensures NameBack(b, total, strings, TWO32 + nameoff, name)
  {
    hide NameAt;
  }

  lemma {:induction false} StillBack(b: Bytes, b': Bytes, total: nat, strings: nat, nameoff: nat, name: Bytes)
    requires NameBack(b, total, strings, nameoff, name) && total <= |b| && Same(b, b', total - strings, total)
    ensures NameBack(b', total, strings, nameoff, name)
  {
    hide NameAt, Same;
    NameStill(b, b', total - strings, total, total - (TWO32 - nameoff), name);
  }

  // ---------------------------------------------------------------------------
  // Finishing
  // ---------------------------------------------------------------------------

  /** A name offset turned from counting back to counting forward. */
  function Patch(e: Event, strings: nat): Event {
    if e.Prop? then Prop((e.nameoff + strings) % TWO32, e.value) else e
  }

  /** The tags when the first j have been patched. */
  function Patched(es: seq<Event>, strings: nat, j: nat): (r: seq<Event>)
    ensures |r| == |es| && forall i :: 0 <= i < |es| ==> r[i] == if i < j then Patch(es[i], strings) else es[i]
  {
    seq(|es|, i requires 0 <= i < |es| => if i < j then Patch(es[i], strings) else es[i])
  }

  lemma {:induction false} PatchedOffset(es: seq<Event>, strings: nat, j: nat, i: nat)
    requires i <= |es|
    ensures Offset(Patched(es, strings, j), i) == Offset(es, i)
  {
    hide TagAlign, Patched;
    if i > 0 {
      PatchedOffset(es, strings, j, i - 1);
    }
  }

  /** A property's name offset is overwritten. */
  lemma {:induction false} PropPatched(b: Bytes, at: nat, nameoff: nat, value: Bytes, nameoff': nat)
    requires Lies(b, at, Prop(nameoff, value)) && nameoff' < TWO32
    ensures at + 12 <= |b| && Lies(Written(b, at + 8, Be32(nameoff')), at, Prop(nameoff', value))
  {
    hide Written, HasBytes, Same, Be32;
    HasLength(b, at, Be32(FDT_PROP));
    HasLength(b, at + 12, value);
    var b' := Written(b, at + 8, Be32(nameoff'));
    var end := at + 12 + |value|;
    WordWritten(b, at + 8, Be32(nameoff'), at, at + 12, end);
    StillThere(b, b', at, at + 8, at, Be32(FDT_PROP));
    StillThere(b, b', at, at + 8, at + 4, Be32(|value|));
    StillThere(b, b', at + 12, end, at + 12, value);
  }

  lemma {:induction false} HasLength(b: Bytes, at: nat, data: Bytes)
    requires HasBytes(b, at, data)
    ensures at + |data| <= |b|
  {
  }

  lemma {:induction false} PatchStep(b: Bytes, start: nat, es: seq<Event>, strings: nat, j: nat, end: nat)
    requires AllLie(b, start, Patched(es, strings, j)) && j < |es| && es[j].Prop?
    requires start + Offset(es, |es|) <= end <= |b|
    ensures start + Offset(es, j) + 12 <= |b|
    ensures var b' := Written(b, start + Offset(es, j) + 8, Be32(Patch(es[j], strings).nameoff));
            AllLie(b', start, Patched(es, strings, j + 1)) && Same(b, b', start + Offset(es, |es|), end)
  {
    hide Written, HasBytes, Same, Be32, Lies, Offset, Size, Patched;
    var es1, es2 := Patched(es, strings, j), Patched(es, strings, j + 1);
    var at := start + Offset(es, j);
    OffsetNext(es, j);
    PatchedOffset(es, strings, j, j);
    PropSize(es[j]);
    assert Lies(b, at, es1[j]);
    PropPatched(b, at, es[j].nameoff, es[j].value, Patch(es[j], strings).nameoff);
    var b' := Written(b, at + 8, Be32(Patch(es[j], strings).nameoff));
    WrittenBehind(b, at + 8, Be32(Patch(es[j], strings).nameoff), start + Offset(es, |es|), end);
    WrittenBehind(b, at + 8, Be32(Patch(es[j], strings).nameoff), start + Offset(es, j + 1), start + Offset(es, |es|));
    WrittenBefore(b, at + 8, Be32(Patch(es[j], strings).nameoff), start, at);
    forall i | 0 <= i < |es2|
      ensures Lies(b', start + Offset(es2, i), es2[i])
    {
      PatchedOffset(es, strings, j + 1, i);
      PatchedOffset(es, strings, j, i);
      OffsetNext(es, i);
      PatchSize(es[i], strings);
      if i < j {
        OffsetGrows(es, i + 1, j);
        StillLies(b, b', start, at, start + Offset(es, i), es1[i]);
      } else if i > j {
        OffsetGrows(es, j + 1, i);
        StillLies(b, b', start + Offset(es, j + 1), start + Offset(es, |es|), start + Offset(es, i), es1[i]);
      }
    }
  }

  lemma {:induction false} PropSize(e: Event)
    requires e.Prop?
    ensures Size(e) >= 12
  {
  }

  lemma {:induction false} PatchSize(e: Event, strings: nat)
    ensures Size(Patch(e, strings)) == Size(e)
  {
  }

  /** A tag without a name offset needs no patching. */
  lemma {:induction false} PatchSkip(es: seq<Event>, strings: nat, j: nat)
    requires j < |es| && !es[j].Prop?
    ensures Patched(es, strings, j + 1) == Patched(es, strings, j)
  {
  }

  lemma {:induction false} PatchNone(es: seq<Event>, strings: nat)
    ensures Patched(es, strings, 0) == es
  {
  }

  /** The strings have been moved: what a name offset counts back from the old end is found that
      far back from the new end. */
  lemma {:induction false} NamesMoved(b: Bytes, total: nat, strings: nat, str: nat, nameoff: nat, name: Bytes)
    requires NameBack(b, total, strings, nameoff, name) && total <= |b| && total <= INT_MAX && str <= total - strings
    ensures var b', off := Written(b, str, b[total - strings..total]), (nameoff + strings) % TWO32;
            off + |name| + 1 <= strings && NameAt(b', str + off, name)
  {
    hide HasBytes, Written;
    var moved := b[total - strings..total];
    var b' := Written(b, str, moved);
    var back := TWO32 - nameoff;
    assert (nameoff + strings) % TWO32 == strings - back;
    WrittenThere(b, str, moved);
    MovedThere(b, b', total - strings, str, strings, strings - back, name);
    MovedThere(b, b', total - strings, str, strings, strings - back + |name|, [0]);
  }

  lemma {:induction false} MovedThere(b: Bytes, b': Bytes, from: nat, to: nat, len: nat, off: nat, data: Bytes)
    requires from + len <= |b| && HasBytes(b', to, b[from..from + len]) && off + |data| <= len
    requires HasBytes(b, from + off, data)
    ensures HasBytes(b', to + off, data)
  {
    var moved := b[from..from + len];
    forall k | 0 <= k < |data|
      ensures b'[to + off + k] == data[k]
    {
      assert b'[to..to + len][off + k] == moved[off + k];
      assert b[from + off..from + off + |data|][k] == data[k];
    }
  }

  /** In a finished blob, a name in the strings block is what fdt_get_string returns. */
  lemma {:induction false} NameRead(f: Fdt, off: nat, name: Bytes)
    requires Sane(f) && f.magic == FDT_MAGIC && f.totalSize < INT_MAX && f.offStrings + f.sizeStrings <= f.totalSize
    requires off + |name| + 1 <= f.sizeStrings && NameAt(f.bytes, f.offStrings + off, name)
    ensures GetString(f, Signed(off)) == Some(name)
  {
    hide HasBytes, FindNul;
    var at := f.offStrings + off;
    NameThere(f.bytes, at, name);
    NulFound(f.bytes, at, |name|, f.offStrings + f.sizeStrings);
    BytesThere(f.bytes, at, name);
  }

  lemma {:induction false} NulFound(b: Bytes, at: nat, n: nat, end: nat)
    requires at + n < end <= |b| && b[at + n] == 0 && forall j :: at <= j < at + n ==> b[j] != 0
    ensures FindNul(b, at, end) == at + n
    decreases n
  {
    if n > 0 {
      NulFound(b, at + 1, n - 1, end);
    }
  }

  lemma {:induction false} BytesThere(b: Bytes, at: nat, data: Bytes)
    requires HasBytes(b, at, data)
    ensures at + |data| <= |b| && b[at..at + |data|] == data
  {
  }

  /** The tag stands for the item once its name offset, counted forward in the strings block at
      `str`, is right. */
  ghost predicate NamedFor(b: Bytes, str: nat, strings: nat, e: Event, item: Item) {
    match e
    case Begin(name) => item == NodeBegin(name)
    case Prop(nameoff, value) =>
      var off := (nameoff + strings) % TWO32;
      item.Property? && item.value == value && off + |item.name| + 1 <= strings && NameAt(b, str + off, item.name)
    case End => item == NodeEnd
    case _ => false
  }

  ghost predicate AllNamedFor(b: Bytes, str: nat, strings: nat, es: seq<Event>, items: seq<Item>) {
    && |es| == |items| + 1 && es[|items|] == Finish
    && forall i :: 0 <= i < |items| ==> NamedFor(b, str, strings, es[i], items[i])
  }

  /** Moving the strings makes every offset right. */
  lemma {:induction false} AllMoved(b: Bytes, total: nat, strings: nat, str: nat, es: seq<Event>, items: seq<Item>)
    requires AllWrittenFor(b, total, strings, es, items) && strings <= total <= |b| && total <= INT_MAX
    requires str <= total - strings
    ensures AllNamedFor(Written(b, str, b[total - strings..total]), str, strings, es + [Finish], items)
  {
    hide NameBack, NameAt, Written;
    var b' := Written(b, str, b[total - strings..total]);
    forall i | 0 <= i < |items|
      ensures NamedFor(b', str, strings, (es + [Finish])[i], items[i])
    {
      assert WrittenFor(b, total, strings, es[i], items[i]);
      if es[i].Prop? {
        NamesMoved(b, total, strings, str, es[i].nameoff, items[i].name);
      }
    }
  }

  lemma {:induction false} StillNamedFor(b: Bytes, b': Bytes, str: nat, strings: nat, es: seq<Event>, items: seq<Item>)
    requires AllNamedFor(b, str, strings, es, items) && Same(b, b', str, str + strings)
    ensures AllNamedFor(b', str, strings, es, items)
  {
    hide NameAt, Same;
    forall i | 0 <= i < |items|
      ensures NamedFor(b', str, strings, es[i], items[i])
    {
      assert NamedFor(b, str, strings, es[i], items[i]);
      if es[i].Prop? {
        NameStill(b, b', str, str + strings, str + (es[i].nameoff + strings) % TWO32, items[i].name);
      }
    }
  }

  /** The tag walk is at the j-th tag of a blob being finished. */
  lemma {:induction false} WalkStep(f: Fdt, es: seq<Event>, strings: nat, j: nat)
    requires Sane(f) && f.offStruct + f.sizeStruct <= f.totalSize && f.sizeStruct == Offset(es, |es|)
    requires AllLie(f.bytes, f.offStruct, Patched(es, strings, j)) && j < |es|
    ensures NextTag(f, Offset(es, j)) == Tag(TagOf(es[j]), Offset(es, j + 1))
    ensures Offset(es, j) + Size(es[j]) == Offset(es, j + 1) <= f.sizeStruct
    ensures es[j].Prop? ==>
              && f.offStruct + Offset(es, j) + 12 <= |f.bytes|
              && WordAt(f.bytes, f.offStruct + Offset(es, j) + 8) == es[j].nameoff < TWO32
  {
    hide NextTag, Offset, Size, TagAlign, Be32, WordAt, Patched, HasBytes;
    var at := f.offStruct + Offset(es, j);
    assert Lies(f.bytes, at, Patched(es, strings, j)[j]) by { PatchedOffset(es, strings, j, j); }
    OffsetNext(es, j);
    OffsetAligned(es, j);
    if es[j].Prop? {
      PropSize(es[j]);
      WordThere(f.bytes, at + 8, es[j].nameoff);
    }
    hide Lies;
    TagAt(f, Offset(es, j), es[j]);
  }

  lemma {:induction false} ItemReads(f: Fdt, e: Event, item: Item)
    requires Sane(f) && f.magic == FDT_MAGIC && f.offStrings + f.sizeStrings == f.totalSize && f.totalSize < INT_MAX
    requires NamedFor(f.bytes, f.offStrings, f.sizeStrings, e, item)
    ensures StandsFor(f, Patch(e, f.sizeStrings), item)
  {
    hide NameAt, GetString;
    if e.Prop? {
      NameRead(f, (e.nameoff + f.sizeStrings) % TWO32, item.name);
    }
  }

  /** A finished blob reads back. */
  lemma {:induction false} FinishedReads(f: Fdt, es: seq<Event>, items: seq<Item>)
    requires Sane(f) && f.magic == FDT_MAGIC && f.offStrings == f.offStruct + f.sizeStruct
    requires f.totalSize == f.offStrings + f.sizeStrings
    requires f.sizeStruct == Offset(es, |es|) && f.totalSize < INT_MAX
    requires |es| == |items| + 1 && AllLie(f.bytes, f.offStruct, Patched(es, f.sizeStrings, |items|))
    requires AllNamedFor(f.bytes, f.offStrings, f.sizeStrings, es, items)
    ensures Read(f, 0) == Some(items)
  {
    hide Lies, NamedFor, Read, Offset, StandsFor;
    var es' := Patched(es, f.sizeStrings, |items|);
    assert es'[|items|] == Finish;
    forall i | 0 <= i < |items|
      ensures StandsFor(f, es'[i], items[i])
    {
      ItemReads(f, es[i], items[i]);
    }
    hide AllNamedFor, Patched;
    PatchedOffset(es, f.sizeStrings, |items|, |es|);
    OffsetZero(es');
    ReadBack(f, es', items, 0);
    assert items[0..] == items;
  }

  /** A finished blob: the tags with their name offsets corrected, and right behind them the names. */
  ghost predicate Complete(f: Fdt, events: seq<Event>, log: seq<Item>, names: seq<Bytes>) {
    && f.magic == FDT_MAGIC && Sane(f) && HEADER_SIZE + 16 <= f.offStruct
    && f.offStrings == f.offStruct + f.sizeStruct && f.totalSize == f.offStrings + f.sizeStrings
    && f.bytes[f.offStrings..f.totalSize] == Packed(names)
    && var es := events + [Finish];
       && f.sizeStruct == Offset(es, |es|) && AllLie(f.bytes, f.offStruct, Patched(es, f.sizeStrings, |events|))
       && |events| == |log| && AllNamedFor(f.bytes, f.offStrings, f.sizeStrings, es, log)
  }

  lemma {:induction false} NothingWritten(b: Bytes)
    ensures Written(b, 0, []) == b
  {
  }

  lemma {:induction false} OffsetZero(es: seq<Event>)
    ensures Offset(es, 0) == 0
  {
  }

  /** The end tag is there, and no tag before it ends the walk. */
  lemma {:induction false} EndAdded(b: Bytes, b': Bytes, start: nat, total: nat, strings: nat, es: seq<Event>,
                                    items: seq<Item>)
    requires AllLie(b, start, es) && AllWrittenFor(b, total, strings, es, items) && strings <= total <= |b|
    requires Same(b, b', start, start + Offset(es, |es|)) && Same(b, b', total - strings, total)
    requires HasBytes(b', start + Offset(es, |es|), Be32(FDT_END))
    ensures AllLie(b', start, es + [Finish]) && AllWrittenFor(b', total, strings, es, items)
    ensures Offset(es + [Finish], |es| + 1) == Offset(es, |es|) + 4 && |es| == |items|
    ensures forall i :: 0 <= i < |es| ==> TagOf((es + [Finish])[i]) != FDT_END
  {
    hide AllLie, Same, Offset, HasBytes, Be32;
    AllLieMore(b, b', start, es, Finish);
    StillWrittenFor(b, b', total, strings, strings, es, items);
    forall i | 0 <= i < |es|
      ensures TagOf((es + [Finish])[i]) != FDT_END
    {
      assert WrittenFor(b, total, strings, es[i], items[i]);
    }
  }

  /** The room test of fdt_add_string_ for a name of len bytes with its NUL, in 32-bit unsigned
      arithmetic: the name may go in front of the strings. */
  predicate NameTest(total: nat, strings: nat, len: nat, structTop: nat) {
    (total - (strings + len)) % TWO32 >= structTop
  }

  /** The test is right exactly when the strings with the new name are no longer than the buffer:
      otherwise the difference wraps around, the test passes, and the name would start before the
      buffer. */
  lemma {:induction false} NameTestExact(total: nat, strings: nat, len: nat, structTop: nat)
    requires total <= INT_MAX && structTop + strings <= total && len <= total
    ensures (NameTest(total, strings, len, structTop) <==> structTop + strings + len <= total) <==>
              strings + len <= total
    ensures strings + len > total ==> NameTest(total, strings, len, structTop) && total - (strings + len) < 0
  {
  }

  /** Such a name can be shorter than the buffer. */
  lemma {:induction false} NameTestWraps()
    ensures exists total: nat, strings: nat, len: nat, top: nat ::
              && total <= INT_MAX && top + strings <= total && len <= total && NameTest(total, strings, len, top)
              && top + strings + len > total
  {
    assert NameTest(200, 100, 102, 84);
  }

  /** memcpy into the buffer. */
  method PutBytes(buf: array<Byte>, at: nat, data: Bytes)
    requires at + |data| <= buf.Length
    modifies buf
    ensures buf[..] == Written(old(buf[..]), at, data)
  {
    for i := 0 to |data|
      invariant forall j :: 0 <= j < buf.Length ==> buf[j] == if at <= j < at + i then data[j - at] else old(buf[j])
    {
      buf[at + i] := data[i];
    }
    assert buf[..] == Written(old(buf[..]), at, data);
  }

  /** fdt_find_string_len_: the first place in buf[lo..lo + size] where the name lies with its NUL. */
  method FindString(buf: array<Byte>, lo: nat, size: nat, name: Bytes) returns (p: int)
    requires lo + size <= buf.Length
    ensures p == -1 ==> NotBefore(buf[..], lo, lo + size, buf.Length, name)
    ensures p != -1 ==> p >= lo && InTable(buf[..], lo, lo + size, p, name)
    ensures p != -1 ==> NotBefore(buf[..], lo, lo + size, p, name)
  {
    var last := lo + size - (|name| + 1);
    p := lo;
    while p <= last
      invariant p >= lo
      invariant NotBefore(buf[..], lo, lo + size, p, name)
    {
      if buf[p..p + |name|] == name && buf[p + |name|] == 0 {
        assert buf[..][p..p + |name|] == buf[p..p + |name|];
        assert buf[..][p + |name|..p + |name| + 1] == [0];
        return;
      }
      assert !InTable(buf[..], lo, lo + size, p, name) by {
        assert buf[..][p..p + |name|] == buf[p..p + |name|];
        assert buf[..][p + |name|..p + |name| + 1][0] == buf[p + |name|];
      }
      p := p + 1;
    }
    p := -1;
  }

  class SequentialWriter {
    const buf: array<Byte>
    var magic: nat
    var totalSize: nat
    var lastCompVersion: nat
    var offStruct: nat
    var sizeStruct: nat
    var offStrings: nat
    var sizeStrings: nat
    ghost var events: seq<Event>
    ghost var log: seq<Item>
    ghost var names: seq<Bytes>

    function View(): Fdt
      reads this, buf
    {
      Fdt(magic, totalSize, lastCompVersion, offStruct, sizeStruct, offStrings, sizeStrings, buf[..])
    }

    /** An unfinished blob: the structure block grows from the front, the strings from the back. */
    ghost predicate Layout()
      reads this
    {
      && magic == FDT_SW_MAGIC && totalSize == buf.Length <= INT_MAX && HEADER_SIZE <= offStruct && lastCompVersion <= 1
      && offStruct + sizeStruct + sizeStrings <= totalSize
    }

    /** The state in which nodes and properties may be added. */
    ghost predicate Writing()
      reads this, buf
    {
      && Layout() && offStrings == totalSize && HEADER_SIZE + 16 <= offStruct && sizeStruct == Offset(events, |events|)
      && AllLie(buf[..], offStruct, events)
      && AllWrittenFor(buf[..], totalSize, sizeStrings, events, log)
      && Table(buf[..], totalSize, sizeStrings, names, lastCompVersion)
    }

    /** A buffer of any size; fdt_create_with_flags makes it a blob. */
    constructor (bufsize: nat)
      requires bufsize <= INT_MAX
      ensures fresh(buf) && buf.Length == bufsize
    {
      buf := new Byte[bufsize](_ => 0);
      magic, totalSize, lastCompVersion, offStruct, sizeStruct, offStrings, sizeStrings := 0, 0, 0, 0, 0, 0, 0;
      events, log, names := [], [], [];
    }

    /** The state in which reservations may be added. */
    ghost predicate Reserving()
      reads this
    {
      Layout() && offStrings == 0 && sizeStruct == 0 && sizeStrings == 0 && events == [] && log == [] && names == []
    }

    method FdtCreateWithFlags(flags: nat) returns (err: int)
      requires buf.Length <= INT_MAX
      modifies this, buf
      ensures err == if buf.Length < HEADER_SIZE then -FDT_ERR_NOSPACE else if flags > 1 then -FDT_ERR_BADFLAGS else 0
      ensures err == 0 ==> Reserving() && lastCompVersion == flags && offStruct == HEADER_SIZE
      ensures err == 0 ==> forall i :: 0 <= i < buf.Length ==> buf[i] == 0
    {
      if buf.Length < HEADER_SIZE {
        return -FDT_ERR_NOSPACE;
      }
      if flags > 1 {
        return -FDT_ERR_BADFLAGS;
      }
      for i := 0 to buf.Length
        invariant forall j :: 0 <= j < i ==> buf[j] == 0
      {
        buf[i] := 0;
      }
      magic, lastCompVersion, totalSize := FDT_SW_MAGIC, flags, buf.Length;
      offStruct, sizeStruct, offStrings, sizeStrings := HEADER_SIZE, 0, 0, 0;
      events, log, names := [], [], [];
      return 0;
    }

    /** fdt_sw_probe_memrsv_: 0 in the state in which reservations may be added. */
    function ProbeMemrsv(): int
      reads this
    {
      if magic == FDT_MAGIC then -FDT_ERR_BADSTATE
      else if magic != FDT_SW_MAGIC then -FDT_ERR_BADMAGIC
      else if offStrings != 0 then -FDT_ERR_BADSTATE
      else 0
    }

    /** One 16-byte entry at the end of the reservation block. */
    method FdtAddReservemapEntry(addr: nat, size: nat) returns (err: int)
      requires ProbeMemrsv() == 0 ==> Reserving()
      requires addr < TWO32 * TWO32 && size < TWO32 * TWO32
      modifies this`offStruct, buf
      ensures old(ProbeMemrsv()) != 0 ==>
                err == old(ProbeMemrsv()) && offStruct == old(offStruct) && buf[..] == old(buf[..])
      ensures old(ProbeMemrsv()) == 0 ==>
                && Reserving()
                && if old(offStruct) + 16 <= totalSize then
                     && err == 0 && offStruct == old(offStruct) + 16
                     && var entry := Be32(addr / TWO32) + Be32(addr % TWO32) + Be32(size / TWO32) + Be32(size % TWO32);
                        buf[..] == Written(old(buf[..]), old(offStruct), entry)
                   else err == -FDT_ERR_NOSPACE && offStruct == old(offStruct) && buf[..] == old(buf[..])
    {
      hide Be32, Written;
      if ProbeMemrsv() != 0 {
        return ProbeMemrsv();
      }
      if offStruct + 16 > totalSize {
        return -FDT_ERR_NOSPACE;
      }
      PutBytes(buf, offStruct, Be32(addr / TWO32) + Be32(addr % TWO32) + Be32(size / TWO32) + Be32(size % TWO32));
      offStruct := offStruct + 16;
      return 0;
    }

    /** The terminating zero entry; from here on nodes and properties may be added. */
    method FdtFinishReservemap() returns (err: int)
      requires ProbeMemrsv() == 0 ==> Reserving()
      modifies this`offStruct, this`offStrings, buf
      ensures old(ProbeMemrsv()) != 0 ==> err == old(ProbeMemrsv())
      ensures old(ProbeMemrsv()) == 0 ==>
                if old(offStruct) + 16 <= totalSize
                then err == 0 && Writing() && log == [] && offStruct == old(offStruct) + 16
                else err == -FDT_ERR_NOSPACE && Reserving()
    {
      err := FdtAddReservemapEntry(0, 0);
      if err != 0 {
        return;
      }
      offStrings := totalSize;
    }

    /** fdt_grab_space_: room for len bytes at the end of the structure block; -1 if there is not
        that much between it and the strings. */
    method GrabSpace(len: nat) returns (offset: int)
      requires Layout()
      modifies this`sizeStruct
      ensures offset == -1 <==> offStruct + old(sizeStruct) + len + sizeStrings > totalSize
      ensures offset == -1 ==> sizeStruct == old(sizeStruct)
      ensures offset != -1 ==> offset == old(sizeStruct) && sizeStruct == old(sizeStruct) + len && Layout()
    {
      var spaceleft := totalSize - offStruct - sizeStrings;
      if sizeStruct + len > spaceleft {
        return -1;
      }
      offset := sizeStruct;
      sizeStruct := sizeStruct + len;
    }

    /** fdt_sw_probe_struct_: 0 in the state in which nodes and properties may be added. */
    function ProbeStruct(): int
      reads this
    {
      if magic == FDT_MAGIC then -FDT_ERR_BADSTATE
      else if magic != FDT_SW_MAGIC then -FDT_ERR_BADMAGIC
      else if offStrings != totalSize then -FDT_ERR_BADSTATE
      else 0
    }

    method FdtBeginNode(name: Bytes) returns (err: int)
      requires ProbeStruct() == 0 ==> Writing()
      requires 0 !in name
      modifies this`sizeStruct, this`events, this`log, buf
      ensures old(ProbeStruct()) != 0 ==>
                && err == old(ProbeStruct()) && buf[..] == old(buf[..]) && log == old(log) && events == old(events)
                && sizeStruct == old(sizeStruct)
      ensures old(ProbeStruct()) == 0 ==> Writing()
      ensures old(ProbeStruct()) == 0 ==>
                var room := totalSize - sizeStrings - offStruct - old(sizeStruct);
                if 4 + TagAlign(|name| + 1) <= room then
                  && err == 0 && log == old(log) + [NodeBegin(name)]
                  && sizeStruct == old(sizeStruct) + 4 + TagAlign(|name| + 1)
                else err == -FDT_ERR_NOSPACE && log == old(log) && sizeStruct == old(sizeStruct)
    {
      hide AllLie, AllWrittenFor, Offset, Lies, HasBytes, Same, Written, TagAlign, Be32, Table;
      AlignAdd(|name| + 1, 4);
      if ProbeStruct() != 0 {
        return ProbeStruct();
      }
      var at := GrabSpace(4 + TagAlign(|name| + 1));
      if at == -1 {
        return -FDT_ERR_NOSPACE;
      }
      ghost var b0 := buf[..];
      var p := offStruct + at;
      PutBytes(buf, p, Be32(FDT_BEGIN_NODE));
      PutBytes(buf, p + 4, name + [0]);
      BeginWritten(b0, p, name, offStruct, totalSize - sizeStrings, totalSize);
      TableKept(b0, buf[..], totalSize, sizeStrings, names, lastCompVersion);
      Appended(b0, buf[..], offStruct, totalSize, sizeStrings, sizeStrings, events, log, Begin(name), NodeBegin(name));
      events, log := events + [Begin(name)], log + [NodeBegin(name)];
      return 0;
    }

    method FdtEndNode() returns (err: int)
      requires ProbeStruct() == 0 ==> Writing()
      modifies this`sizeStruct, this`events, this`log, buf
      ensures old(ProbeStruct()) != 0 ==>
                && err == old(ProbeStruct()) && buf[..] == old(buf[..]) && log == old(log) && events == old(events)
                && sizeStruct == old(sizeStruct)
      ensures old(ProbeStruct()) == 0 ==> Writing()
      ensures old(ProbeStruct()) == 0 ==>
                var room := totalSize - sizeStrings - offStruct - old(sizeStruct);
                if 4 <= room then err == 0 && log == old(log) + [NodeEnd] && sizeStruct == old(sizeStruct) + 4
                else err == -FDT_ERR_NOSPACE && log == old(log) && sizeStruct == old(sizeStruct)
    {
      hide AllLie, AllWrittenFor, Offset, HasBytes, Same, Written, TagAlign, Be32, Table;
      if ProbeStruct() != 0 {
        return ProbeStruct();
      }
      var at := GrabSpace(FDT_TAGSIZE);
      if at == -1 {
        return -FDT_ERR_NOSPACE;
      }
      ghost var b0 := buf[..];
      var p := offStruct + at;
      PutBytes(buf, p, Be32(FDT_END_NODE));
      WordWritten(b0, p, Be32(FDT_END_NODE), offStruct, totalSize - sizeStrings, totalSize);
      TableKept(b0, buf[..], totalSize, sizeStrings, names, lastCompVersion);
      Appended(b0, buf[..], offStruct, totalSize, sizeStrings, sizeStrings, events, log, End, NodeEnd);
      events, log := events + [End], log + [NodeEnd];
      return 0;
    }

    /** fdt_add_string_: puts a name in front of the strings; its offset back from the end of the
        buffer, or 0 if there is no room. */
    method AddString(name: Bytes) returns (nameoff: int)
      requires Layout() && 0 !in name && sizeStrings + |name| + 1 <= totalSize
      modifies this`sizeStrings, buf
      ensures nameoff == 0 <==> offStruct + sizeStruct + old(sizeStrings) + |name| + 1 > totalSize
      ensures nameoff == 0 ==> sizeStrings == old(sizeStrings) && buf[..] == old(buf[..])
      ensures nameoff != 0 ==> nameoff + sizeStrings == 0 && sizeStrings == old(sizeStrings) + |name| + 1 && Layout()
      ensures nameoff != 0 ==> NameAt(buf[..], totalSize + nameoff, name)
      ensures nameoff != 0 ==>
                && Same(old(buf[..]), buf[..], 0, totalSize - sizeStrings)
                && Same(old(buf[..]), buf[..], totalSize - old(sizeStrings), totalSize)
    {
      hide Written, NameAt, Same;
      var offset := sizeStrings + |name| + 1;
      var structTop := offStruct + sizeStruct;
      NameTestExact(totalSize, sizeStrings, |name| + 1, structTop);
      if !NameTest(totalSize, sizeStrings, |name| + 1, structTop) {
        return 0;
      }
      NameWritten(buf[..], totalSize - offset, name, 0, totalSize - sizeStrings, totalSize);
      PutBytes(buf, totalSize - offset, name + [0]);
      sizeStrings := offset;
      return -offset;
    }

    /** fdt_find_add_string_: the offset of a name, found in the table or added to it. */
    method FindAddString(name: Bytes) returns (nameoff: int, added: bool)
      requires Layout() && 0 !in name
      requires NotBefore(buf[..], totalSize - sizeStrings, totalSize, totalSize, name) ==>
                 sizeStrings + |name| + 1 <= totalSize
      modifies this`sizeStrings, buf
      ensures added <==> NotBefore(old(buf[..]), totalSize - old(sizeStrings), totalSize, totalSize, name)
      ensures nameoff == 0 <==> added && offStruct + sizeStruct + old(sizeStrings) + |name| + 1 > totalSize
      ensures nameoff == 0 || !added ==> sizeStrings == old(sizeStrings) && buf[..] == old(buf[..])
      ensures nameoff != 0 && added ==> sizeStrings == old(sizeStrings) + |name| + 1 && nameoff + sizeStrings == 0
      ensures nameoff != 0 ==>
                && Layout() && 0 <= nameoff + sizeStrings && nameoff + |name| + 1 <= 0
                && NameAt(buf[..], totalSize + nameoff, name)
      ensures nameoff != 0 ==>
                && Same(old(buf[..]), buf[..], 0, totalSize - sizeStrings)
                && Same(old(buf[..]), buf[..], totalSize - old(sizeStrings), totalSize)
    {
      hide HasBytes;
      added := false;
      var p := FindString(buf, totalSize - sizeStrings, sizeStrings, name);
      if p != -1 {
        return p - totalSize, false;
      }
      nameoff := AddString(name);
      return nameoff, true;
    }

    /** The name part of fdt_property_placeholder: sharing names can be switched off. */
    method PropertyName(name: Bytes) returns (nameoff: int, added: bool)
      requires Writing() && 0 !in name
      requires sizeStrings + NameRoom(buf[..], sizeStrings, lastCompVersion, name) <= totalSize
      modifies this`sizeStrings, this`names, buf
      ensures names == (if added && nameoff != 0 then [name] else []) + old(names)
      ensures var need := NameRoom(old(buf[..]), old(sizeStrings), lastCompVersion, name);
              && (nameoff == 0 <==> need > 0 && offStruct + sizeStruct + old(sizeStrings) + need > totalSize)
              && sizeStrings == old(sizeStrings) + (if nameoff == 0 then 0 else need)
              && need == (if added then |name| + 1 else 0)
      ensures nameoff != 0 ==>
                0 <= nameoff + sizeStrings && nameoff + |name| + 1 <= 0 && NameAt(buf[..], totalSize + nameoff, name)
      ensures Writing() && AllWrittenFor(buf[..], totalSize, old(sizeStrings), events, log)
      ensures Table(buf[..], totalSize, old(sizeStrings), old(names), lastCompVersion)
    {
      hide AllLie, AllWrittenFor, Offset, HasBytes, Same, NameAt, NotBefore, Table;
      ghost var b0, strings0 := buf[..], sizeStrings;
      if lastCompVersion % 2 == 1 {
        added := true;
        nameoff := AddString(name);
      } else {
        nameoff, added := FindAddString(name);
      }
      if nameoff != 0 {
        StillWriting(b0, buf[..], offStruct, totalSize, strings0, sizeStrings, events, log);
        TableKept(b0, buf[..], totalSize, strings0, names, lastCompVersion);
        if added {
          TableMore(b0, buf[..], totalSize, strings0, names, lastCompVersion, name);
          names := [name] + names;
        }
      }
    }

    /** Makes room for a property and writes its words; where its value goes. A new name fits in the
        buffer with the strings that are there: the room test is right exactly then. */
    method FdtPropertyPlaceholder(name: Bytes, len: nat) returns (err: int, valp: nat, ghost nameoff: nat)
      requires ProbeStruct() == 0 ==> Writing()
      requires 0 !in name && len <= INT_MAX
      requires ProbeStruct() == 0 ==> sizeStrings + NameRoom(buf[..], sizeStrings, lastCompVersion, name) <= totalSize
      modifies this`sizeStruct, this`sizeStrings, this`names, buf
      ensures old(ProbeStruct()) != 0 ==>
                && err == old(ProbeStruct()) && buf[..] == old(buf[..]) && sizeStruct == old(sizeStruct)
                && sizeStrings == old(sizeStrings)
      ensures err != 0 ==> names == old(names)
      ensures err == 0 ==> names == (if sizeStrings > old(sizeStrings) then [name] else []) + old(names)
      ensures err == 0 ==> Table(buf[..], totalSize, sizeStrings, names, lastCompVersion)
      ensures old(ProbeStruct()) == 0 ==>
                var room := totalSize - old(sizeStrings) - offStruct - old(sizeStruct);
                var need := NameRoom(old(buf[..]), old(sizeStrings), lastCompVersion, name);
                if 12 + TagAlign(len) + need <= room then err == 0 && sizeStrings == old(sizeStrings) + need
                else err == -FDT_ERR_NOSPACE && sizeStrings == old(sizeStrings) && Writing()
      ensures err == 0 ==>
                && Layout() && valp == offStruct + old(sizeStruct) + 12
                && sizeStruct == old(sizeStruct) + 12 + TagAlign(len)
      ensures err == 0 ==>
                AllLie(buf[..], offStruct, events) && AllWrittenFor(buf[..], totalSize, sizeStrings, events, log)
      ensures err == 0 ==>
                PropHead(buf[..], valp - 12, nameoff, len) && NameBack(buf[..], totalSize, sizeStrings, nameoff, name)
    {
      hide AllLie, AllWrittenFor, Offset, HasBytes, Same, Written, TagAlign, Be32, NameAt, NameRoom, NameBack, PropHead,
           Table;
      valp, nameoff := 0, 0;
      if ProbeStruct() != 0 {
        err := ProbeStruct();
        return;
      }
      ghost var strings0, names0 := sizeStrings, names;
      var off, added := PropertyName(name);
      if off == 0 {
        err := -FDT_ERR_NOSPACE;
        return;
      }
      ghost var b1 := buf[..];
      var at := GrabSpace(12 + TagAlign(len));
      if at == -1 {
        if added {
          sizeStrings := sizeStrings - (|name| + 1);
        }
        names := names0;
        err := -FDT_ERR_NOSPACE;
        return;
      }
      var p := offStruct + at;
      HeadWritten(b1, p, TWO32 + off, len, offStruct, totalSize - sizeStrings, totalSize);
      PutBytes(buf, p, Be32(FDT_PROP));
      PutBytes(buf, p + 8, Be32(TWO32 + off));
      PutBytes(buf, p + 4, Be32(len));
      AllLieStill(b1, buf[..], offStruct, events);
      StillWrittenFor(b1, buf[..], totalSize, sizeStrings, sizeStrings, events, log);
      TableKept(b1, buf[..], totalSize, sizeStrings, names, lastCompVersion);
      NameStill(b1, buf[..], totalSize - sizeStrings, totalSize, totalSize + off, name);
      BackFromEnd(buf[..], totalSize, sizeStrings, off, name);
      err, valp, nameoff := 0, p + 12, TWO32 + off;
    }

    method FdtProperty(name: Bytes, val: Bytes) returns (err: int)
      requires ProbeStruct() == 0 ==> Writing()
      requires 0 !in name && |val| <= INT_MAX
      requires ProbeStruct() == 0 ==> sizeStrings + NameRoom(buf[..], sizeStrings, lastCompVersion, name) <= totalSize
      modifies this`sizeStruct, this`sizeStrings, this`events, this`log, this`names, buf
      ensures old(ProbeStruct()) != 0 ==>
                && err == old(ProbeStruct()) && buf[..] == old(buf[..]) && log == old(log) && events == old(events)
                && sizeStruct == old(sizeStruct) && sizeStrings == old(sizeStrings)
      ensures old(ProbeStruct()) == 0 ==> Writing()
      ensures old(ProbeStruct()) == 0 ==>
                var room := totalSize - old(sizeStrings) - offStruct - old(sizeStruct);
                var need := NameRoom(old(buf[..]), old(sizeStrings), lastCompVersion, name);
                if 12 + TagAlign(|val|) + need <= room then
                  && err == 0 && log == old(log) + [Property(name, val)] && sizeStrings == old(sizeStrings) + need
                  && names == (if need > 0 then [name] else []) + old(names)
                  && sizeStruct == old(sizeStruct) + 12 + TagAlign(|val|)
                else
                  && err == -FDT_ERR_NOSPACE && log == old(log) && sizeStrings == old(sizeStrings)
                  && names == old(names)
    {
      hide AllLie, AllWrittenFor, Offset, HasBytes, Same, Written, TagAlign, Be32, NameAt, NameRoom, NameBack, PropHead,
           Lies, Table;
      AlignAdd(|val|, 12);
      var valp;
      ghost var nameoff;
      err, valp, nameoff := FdtPropertyPlaceholder(name, |val|);
      if err != 0 {
        return;
      }
      ghost var b1, p := buf[..], valp - 12;
      PutBytes(buf, valp, val);
      ValueWritten(b1, p, nameoff, val, offStruct, totalSize - sizeStrings, totalSize);
      StillBack(b1, buf[..], totalSize, sizeStrings, nameoff, name);
      TableKept(b1, buf[..], totalSize, sizeStrings, names, lastCompVersion);
      Appended(b1, buf[..], offStruct, totalSize, sizeStrings, sizeStrings, events, log, Prop(nameoff, val),
               Property(name, val));
      events, log := events + [Prop(nameoff, val)], log + [Property(name, val)];
    }

    /** The loop of fdt_finish over the structure block: every name offset is corrected. */
    method PatchNames(ghost es: seq<Event>) returns (nextoffset: int)
      requires Layout() && offStrings <= INT_MAX && sizeStruct == Offset(es, |es|) && AllLie(buf[..], offStruct, es)
      requires |es| > 0 && es[|es| - 1] == Finish && forall i :: 0 <= i < |es| - 1 ==> TagOf(es[i]) != FDT_END
      modifies buf
      ensures nextoffset >= 0
      ensures AllLie(buf[..], offStruct, Patched(es, sizeStrings, |es| - 1))
      ensures Same(old(buf[..]), buf[..], offStruct + sizeStruct, offStruct + sizeStruct + sizeStrings)
    {
      hide AllLie, Offset, HasBytes, Same, Written, TagAlign, Be32, Lies, Patched, NextTag, Size, WordAt;
      PatchNone(es, sizeStrings);
      ghost var str, end := offStruct + sizeStruct, offStruct + sizeStruct + sizeStrings;
      WrittenBehind(buf[..], 0, [], str, end);
      NothingWritten(buf[..]);
      var offset := 0;
      ghost var j := 0;
      OffsetZero(es);
      WalkStep(View(), es, sizeStrings, 0);
      var tag;
      tag, nextoffset := FdtNextTag(View(), offset);
      while tag != FDT_END
        invariant 0 <= j < |es| && offset == Offset(es, j) && NextTag(View(), offset) == Tag(tag, nextoffset)
        invariant tag == TagOf(es[j]) && nextoffset == Offset(es, j + 1) <= sizeStruct
        invariant AllLie(buf[..], offStruct, Patched(es, sizeStrings, j))
        invariant Same(old(buf[..]), buf[..], str, end)
        decreases |es| - j
      {
        WalkStep(View(), es, sizeStrings, j);
        if tag == FDT_PROP {
          ghost var b := buf[..];
          var nameoff := WordAt(buf[..], offStruct + offset + 8);
          nameoff := (nameoff + sizeStrings) % TWO32;
          PatchStep(b, offStruct, es, sizeStrings, j, end);
          PutBytes(buf, offStruct + offset + 8, Be32(nameoff));
          SameTrans(old(buf[..]), b, buf[..], str, end);
        } else {
          PatchSkip(es, sizeStrings, j);
        }
        offset := nextoffset;
        j := j + 1;
        WalkStep(View(), es, sizeStrings, j);
        tag, nextoffset := FdtNextTag(View(), offset);
      }
    }

    /** The steps of fdt_finish: adds the end tag, moves the strings down behind the structure block,
        and turns the name offsets from counting back into counting forward. */
    method FinishBlob() returns (err: int)
      requires Writing()
      modifies this`magic, this`totalSize, this`lastCompVersion, this`sizeStruct, this`offStrings, buf
      ensures err == if 4 <= old(totalSize - sizeStrings - offStruct - sizeStruct) then 0 else -FDT_ERR_NOSPACE
      ensures if err != 0 then Writing()
              else Complete(View(), events, log, names) && (old(lastCompVersion) == 0 ==> Distinct(names))
    {
      hide AllLie, AllWrittenFor, Offset, HasBytes, Same, Written, TagAlign, Be32, Lies, NamedFor, AllNamedFor, Patched,
           Table, Packed, Distinct;
      var at := GrabSpace(4);
      if at == -1 {
        return -FDT_ERR_NOSPACE;
      }
      ghost var b0, es := buf[..], events + [Finish];
      WordWritten(b0, offStruct + at, Be32(FDT_END), offStruct, totalSize - sizeStrings, totalSize);
      PutBytes(buf, offStruct + at, Be32(FDT_END));
      EndAdded(b0, buf[..], offStruct, totalSize, sizeStrings, events, log);
      TableKept(b0, buf[..], totalSize, sizeStrings, names, lastCompVersion);
      MoveStrings(es);
      ghost var b2 := buf[..];
      var nextoffset := PatchNames(es);
      StillNamedFor(b2, buf[..], offStrings, sizeStrings, es, log);
      TableMoved(b2, buf[..], offStrings, offStrings + sizeStrings, names);
      totalSize := offStrings + sizeStrings;
      lastCompVersion := FDT_LAST_COMPATIBLE_VERSION;
      magic := FDT_MAGIC;
      return 0;
    }

    /** fdt_finish. Reading the finished blob gives exactly the nodes and properties that were added,
        in that order; if the calls were balanced with a single root, it denotes their tree and no
        other; unless sharing was switched off, every name is stored once. */
    method FdtFinish() returns (err: int)
      requires ProbeStruct() == 0 ==> Writing()
      modifies this`magic, this`totalSize, this`lastCompVersion, this`sizeStruct, this`offStrings, buf
      ensures old(ProbeStruct()) != 0 ==> err == old(ProbeStruct()) && View() == old(View())
      ensures old(ProbeStruct()) == 0 ==>
                err == if 4 <= old(totalSize - sizeStrings - offStruct - sizeStruct) then 0 else -FDT_ERR_NOSPACE
      ensures old(ProbeStruct()) == 0 && err != 0 ==> Writing()
      ensures old(ProbeStruct()) == 0 && err == 0 ==>
                && Complete(View(), events, log, names) && (old(lastCompVersion) == 0 ==> Distinct(names))
                && (totalSize < INT_MAX ==> Read(View(), 0) == Some(log))
                && (totalSize < INT_MAX && SingleRooted(log) ==> DenotesOnly(View(), TreeOf(log)))
    {
      hide AllLie, AllNamedFor, Patched, Offset, Read, Packed, Distinct, SingleRooted, DenotesOnly;
      if ProbeStruct() != 0 {
        return ProbeStruct();
      }
      err := FinishBlob();
      if err == 0 && totalSize < INT_MAX {
        FinishedReads(View(), events + [Finish], log);
        if SingleRooted(log) {
          WrittenTree(View(), log);
        }
      }
    }

    /** The memmove of fdt_finish: the strings go right behind the structure block. */
    method MoveStrings(ghost es: seq<Event>)
      requires Layout() && es == events + [Finish] && |events| == |log| && sizeStruct == Offset(es, |es|)
      requires AllLie(buf[..], offStruct, es) && AllWrittenFor(buf[..], totalSize, sizeStrings, events, log)
      requires Table(buf[..], totalSize, sizeStrings, names, lastCompVersion)
      modifies this`offStrings, buf
      ensures Layout() && offStrings == offStruct + sizeStruct
      ensures AllLie(buf[..], offStruct, es) && AllNamedFor(buf[..], offStrings, sizeStrings, es, log)
      ensures buf[..][offStrings..offStrings + sizeStrings] == Packed(names)
      ensures (lastCompVersion == 0 ==> Distinct(names))
    {
      hide AllLie, AllWrittenFor, Offset, HasBytes, Same, Written, AllNamedFor, Packed, Distinct;
      ghost var b1 := buf[..];
      var oldstroffset := totalSize - sizeStrings;
      var newstroffset := offStruct + sizeStruct;
      AllMoved(b1, totalSize, sizeStrings, newstroffset, events, log);
      WrittenThere(b1, newstroffset, b1[oldstroffset..totalSize]);
      BytesThere(Written(b1, newstroffset, b1[oldstroffset..totalSize]), newstroffset, b1[oldstroffset..totalSize]);
      WrittenBefore(b1, newstroffset, b1[oldstroffset..totalSize], offStruct, newstroffset);
      AllLieStill(b1, Written(b1, newstroffset, b1[oldstroffset..totalSize]), offStruct, es);
      PutBytes(buf, newstroffset, buf[oldstroffset..oldstroffset + sizeStrings]);
      offStrings := newstroffset;
    }
  }
}
