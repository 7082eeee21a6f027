/**
 What a reader gets out of a blob: the strings, and the sequence of nodes and properties met on
 the tag walk.
 */
module FdtReader {
  import opened Common
  import opened FdtBlob

  /** What the tags of the structure block stand for. */
  datatype Item = NodeBegin(name: Bytes) | Property(name: Bytes, value: Bytes) | NodeEnd

  /** The position of the first NUL in b[i..end]; -1 if there is none (memchr). */
  function FindNul(b: Bytes, i: nat, end: nat): (r: int)
    requires i <= end <= |b|
    ensures r == -1 || (i <= r < end && b[r] == 0)
    ensures r >= 0 ==> forall j :: i <= j < r ==> b[j] != 0
    ensures r == -1 ==> forall j :: i <= j < end ==> b[j] != 0
    decreases end - i
  {
    if i == end then -1 else if b[i] == 0 then i else FindNul(b, i + 1, end)
  }

  /** A 32-bit word read as an int. */
  function Signed(w: nat): int {
    if w <= INT_MAX then w else w - TWO32
  }

  /** fdt_get_string: the name at an offset of the strings block. While a blob is being written
      the offsets count back from its end. */
  function GetString(f: Fdt, stroffset: int): (s: Option<Bytes>)
    requires Sane(f)
  {
    if f.totalSize >= INT_MAX || (f.magic != FDT_MAGIC && (f.magic != FDT_SW_MAGIC || f.sizeStruct == 0)) then None else
    var absoffset := (stroffset + f.offStrings) % TWO32;
    if absoffset >= f.totalSize then None else
    var room := f.totalSize - absoffset;
    if f.magic == FDT_MAGIC then
      if stroffset < 0 || stroffset >= f.sizeStrings then None
      else StringIn(f.bytes, absoffset, if f.sizeStrings - stroffset < room then f.sizeStrings - stroffset else room)
    else
      if stroffset >= 0 || -stroffset > f.sizeStrings then None
      else StringIn(f.bytes, absoffset, if -stroffset < room then -stroffset else room)
  }

  function StringIn(b: Bytes, at: nat, len: nat): Option<Bytes>
    requires at + len <= |b|
  {
    var nul := FindNul(b, at, at + len);
    if nul == -1 then None else Some(b[at..nul])
  }

  /** What one tag stands for. */
  function ReadTag(f: Fdt, off: nat, tag: nat, next: int): (r: Option<seq<Item>>)
    requires Sane(f) && NextTag(f, off) == Tag(tag, next) && tag != FDT_END
  {
    var at := f.offStruct + off;
    if tag == FDT_BEGIN_NODE then
      var end := SkipName(f, off + 4);
      Some([NodeBegin(f.bytes[at + 4..f.offStruct + end - 1])])
    else if tag == FDT_PROP then
      var len := WordAt(f.bytes, at + 4);
      var name := GetString(f, Signed(WordAt(f.bytes, at + 8)));
      if name.None? then None else Some([Property(name.value, f.bytes[at + 12..at + 12 + len])])
    else if tag == FDT_END_NODE then Some([NodeEnd])
    else Some([])
  }

  /** The walk from a structure offset to the FDT_END tag; None if it breaks off. */
  function Read(f: Fdt, off: nat): (r: Option<seq<Item>>)
    requires Sane(f)
    decreases f.sizeStruct + 4 - off
  {
    var t := NextTag(f, off);
    if t.tag == FDT_END then if t.next < 0 then None else Some([])
    else
      var item := ReadTag(f, off, t.tag, t.next);
      var rest := Read(f, t.next);
      if item.None? || rest.None? then None else Some(item.value + rest.value)
  }

  // ---------------------------------------------------------------------------
  // Tags laid out one after the other
  // ---------------------------------------------------------------------------

  /** A tag as it is written; `Prop` holds the string offset as a 32-bit word. */
  datatype Event = Begin(name: Bytes) | Prop(nameoff: nat, value: Bytes) | End | Nop | Finish

  ghost predicate HasBytes(b: Bytes, at: nat, data: Bytes) {
    at + |data| <= |b| && b[at..at + |data|] == data
  }

  /** The tag e, with its words and bytes, lies at offset `at` of b; nothing is said of padding. */
  ghost predicate Lies(b: Bytes, at: nat, e: Event) {
    match e
    case Begin(name) => 0 !in name && HasBytes(b, at, Be32(FDT_BEGIN_NODE)) && HasBytes(b, at + 4, name)
        && HasBytes(b, at + 4 + |name|, [0])
    case Prop(nameoff, value) =>
      && nameoff < TWO32 && |value| <= INT_MAX
      && HasBytes(b, at, Be32(FDT_PROP)) && HasBytes(b, at + 4, Be32(|value|)) && HasBytes(b, at + 8, Be32(nameoff))
      && HasBytes(b, at + 12, value)
    case End => HasBytes(b, at, Be32(FDT_END_NODE))
    case Nop => HasBytes(b, at, Be32(FDT_NOP))
    case Finish => HasBytes(b, at, Be32(FDT_END))
  }

  function Size(e: Event): (n: nat)
    ensures n >= 4 && n % 4 == 0
  {
    match e
    case Begin(name) => TagAlign(|name| + 5)
    case Prop(_, value) => TagAlign(|value| + 12)
    case _ => 4
  }

  /** The offset behind the first i tags. */
  function Offset(es: seq<Event>, i: nat): nat
    requires i <= |es|
  {
    if i == 0 then 0 else Offset(es, i - 1) + Size(es[i - 1])
  }

  /** The tags lie one after the other from the start of the structure block to its end. */
  ghost predicate LaidOut(f: Fdt, es: seq<Event>) {
    && Sane(f) && f.offStruct + f.sizeStruct <= f.totalSize
    && f.sizeStruct == Offset(es, |es|)
    && forall i :: 0 <= i < |es| ==> Lies(f.bytes, f.offStruct + Offset(es, i), es[i])
  }

  function TagOf(e: Event): nat {
    match e
    case Begin(_) => FDT_BEGIN_NODE
    case Prop(_, _) => FDT_PROP
    case End => FDT_END_NODE
    case Nop => FDT_NOP
    case Finish => FDT_END
  }

  lemma {:induction false} NameEnds(f: Fdt, i: nat, n: nat)
    requires Sane(f) && Readable(f, i, n + 1)
    requires var at := f.offStruct + i; (forall j :: at <= j < at + n ==> f.bytes[j] != 0) && f.bytes[at + n] == 0
    ensures SkipName(f, i) == i + n + 1
    decreases n
  {
    if n > 0 {
      NameEnds(f, i + 1, n - 1);
    }
  }

  lemma {:induction false} WordThere(b: Bytes, at: nat, v: nat)
    requires v < TWO32 && HasBytes(b, at, Be32(v))
    ensures at + 4 <= |b| && WordAt(b, at) == v
  {
    WordRoundTrip(b, at, v);
  }

  lemma {:induction false} NameThere(b: Bytes, at: nat, name: Bytes)
    requires HasBytes(b, at, name) && 0 !in name && HasBytes(b, at + |name|, [0])
    ensures at + |name| < |b| && b[at + |name|] == 0 && forall j :: at <= j < at + |name| ==> b[j] != 0
  {
    assert b[at + |name|..at + |name| + 1][0] == 0;
    forall j | at <= j < at + |name|
      ensures b[j] != 0
    {
      assert b[at..at + |name|][j - at] == name[j - at];
    }
  }

  lemma {:induction false} AlignedSum(off: nat, n: nat)
    requires off % 4 == 0
    ensures TagAlign(off + n) == off + TagAlign(n)
  {
  }

  lemma {:induction false} BeginAt(f: Fdt, off: nat, name: Bytes)
    requires Sane(f) && f.offStruct + f.sizeStruct <= f.totalSize && off % 4 == 0
    requires off + TagAlign(|name| + 5) <= f.sizeStruct
    requires Lies(f.bytes, f.offStruct + off, Begin(name))
    ensures NextTag(f, off) == Tag(FDT_BEGIN_NODE, off + TagAlign(|name| + 5))
    ensures SkipName(f, off + 4) == off + 5 + |name|
  {
    hide TagAlign, WordAt, Be32, SkipName;
    WordThere(f.bytes, f.offStruct + off, FDT_BEGIN_NODE);
    NameThere(f.bytes, f.offStruct + off + 4, name);
    hide Lies, HasBytes;
    NameEnds(f, off + 4, |name|);
    AlignedSum(off, |name| + 5);
  }

  lemma {:induction false} PropAt(f: Fdt, off: nat, nameoff: nat, value: Bytes)
    requires Sane(f) && f.offStruct + f.sizeStruct <= f.totalSize && off % 4 == 0
    requires off + TagAlign(|value| + 12) <= f.sizeStruct
    requires Lies(f.bytes, f.offStruct + off, Prop(nameoff, value))
    ensures NextTag(f, off) == Tag(FDT_PROP, off + TagAlign(|value| + 12))
  {
    hide TagAlign, WordAt, Be32, SkipName;
    WordThere(f.bytes, f.offStruct + off, FDT_PROP);
    WordThere(f.bytes, f.offStruct + off + 4, |value|);
    hide Lies, HasBytes;
    AlignedSum(off, |value| + 12);
  }

  lemma {:induction false} BareAt(f: Fdt, off: nat, e: Event)
    requires Sane(f) && f.offStruct + f.sizeStruct <= f.totalSize && off % 4 == 0 && off + 4 <= f.sizeStruct
    requires !e.Begin? && !e.Prop? && Lies(f.bytes, f.offStruct + off, e)
    ensures NextTag(f, off) == Tag(TagOf(e), off + 4)
  {
    hide TagAlign, WordAt, Be32, SkipName;
    WordThere(f.bytes, f.offStruct + off, TagOf(e));
    hide Lies, HasBytes;
    AlignedSum(off, 4);
    AlignFour();
  }

  lemma {:induction false} AlignFour()
    ensures TagAlign(4) == 4
  {
  }

  // ---------------------------------------------------------------------------
  // Tags byte by byte (Devicetree Specification, section 5.4)
  // ---------------------------------------------------------------------------

  /** Words are written with their highest byte first. */
  lemma {:induction false} HighestFirst(a: nat, b: nat, c: nat, d: nat)
    requires a < 256 && b < 256 && c < 256 && d < 256
    ensures Be32(0x100_0000 * a + 0x1_0000 * b + 256 * c + d) == [a, b, c, d]
  {
    HighByte(a, 0x1_0000 * b + 256 * c + d);
    HighHalf(256 * a + b, 256 * c + d);
    LowByte(a, b);
    LowByte(0x1_0000 * a + 256 * b + c, d);
    LowByte(256 * a + b, c);
  }

  lemma {:induction false} HighByte(q: nat, r: nat)
    requires r < 0x100_0000
    ensures (0x100_0000 * q + r) / 0x100_0000 == q
  {
  }

  lemma {:induction false} HighHalf(q: nat, r: nat)
    requires r < 0x1_0000
    ensures (0x1_0000 * q + r) / 0x1_0000 == q
  {
  }

  lemma {:induction false} LowByte(q: nat, r: nat)
    requires r < 256
    ensures (256 * q + r) / 256 == q && (256 * q + r) % 256 == r
  {
  }

  /** Four bytes of the structure block, where a tag may begin. */
  ghost predicate TagBytes(f: Fdt, off: nat, w: Bytes) {
    && Sane(f) && off % 4 == 0 && off + 4 <= f.sizeStruct && f.offStruct + off + 4 <= f.totalSize
    && w == f.bytes[f.offStruct + off..f.offStruct + off + 4]
  }

  lemma {:induction false} TagWord(b: Bytes, at: nat, v: nat)
    requires at + 4 <= |b| && v < 256
    ensures WordAt(b, at) == v <==> b[at..at + 4] == [0, 0, 0, v]
  {
    var w := b[at..at + 4];
    assert w == [b[at], b[at + 1], b[at + 2], b[at + 3]];
  }

  /** 2 ends a node, 4 is to be skipped, 9 ends the block; other words than these and 1 and 3 are no tags. */
  lemma {:induction false} BareOnBytes(f: Fdt, off: nat, w: Bytes)
    requires TagBytes(f, off, w)
    ensures w == [0, 0, 0, 2] ==> NextTag(f, off) == Tag(2, off + 4) && ReadTag(f, off, 2, off + 4) == Some([NodeEnd])
    ensures w == [0, 0, 0, 4] ==> NextTag(f, off) == Tag(4, off + 4) && ReadTag(f, off, 4, off + 4) == Some([])
    ensures w == [0, 0, 0, 9] ==> NextTag(f, off) == Tag(9, off + 4)
    ensures w != [0, 0, 0, 1] && w != [0, 0, 0, 2] && w != [0, 0, 0, 3] && w != [0, 0, 0, 4] && w != [0, 0, 0, 9] ==>
              NextTag(f, off) == Tag(9, -FDT_ERR_BADSTRUCTURE)
  {
    hide WordAt, SkipName, TagAlign;
    var at := f.offStruct + off;
    TagWord(f.bytes, at, 1);
    TagWord(f.bytes, at, 2);
    TagWord(f.bytes, at, 3);
    TagWord(f.bytes, at, 4);
    TagWord(f.bytes, at, 9);
    AlignedSum(off, 4);
    AlignFour();
  }

  /** 1 begins a node: its name runs to the first NUL, and the next tag is at the next multiple of four. */
  lemma {:induction false} BeginOnBytes(f: Fdt, off: nat, n: nat)
    requires TagBytes(f, off, [0, 0, 0, 1]) && off + 4 + n + 1 <= f.sizeStruct
    requires f.offStruct + off + 4 + n + 1 <= f.totalSize
    requires var at := f.offStruct + off + 4; f.bytes[at + n] == 0 && 0 !in f.bytes[at..at + n]
    ensures var at, next := f.offStruct + off + 4, (off + 4 + n + 1 + 3) / 4 * 4;
            NextTag(f, off) == Tag(1, next) && ReadTag(f, off, 1, next) == Some([NodeBegin(f.bytes[at..at + n])])
  {
    hide WordAt, SkipName;
    TagWord(f.bytes, f.offStruct + off, 1);
    var at := f.offStruct + off + 4;
    forall j | at <= j < at + n
      ensures f.bytes[j] != 0
    {
      assert f.bytes[j] == f.bytes[at..at + n][j - at];
    }
    NameEnds(f, off + 4, n);
  }

  /** 3 is a property: the length of its value and the place of its name follow, and then the value. */
  lemma {:induction false} PropOnBytes(f: Fdt, off: nat, len: nat, nameoff: nat)
    requires TagBytes(f, off, [0, 0, 0, 3]) && off + 12 <= f.sizeStruct && f.offStruct + off + 12 <= f.totalSize
    requires len < TWO32 && f.bytes[f.offStruct + off + 4..f.offStruct + off + 8] == Be32(len)
    requires nameoff < TWO32 && f.bytes[f.offStruct + off + 8..f.offStruct + off + 12] == Be32(nameoff)
    ensures var at, next := f.offStruct + off, (off + 12 + len + 3) / 4 * 4;
            if off + 12 + len <= f.sizeStruct && at + 12 + len <= f.totalSize && off + 4 + len < INT_MAX then
              && NextTag(f, off) == Tag(3, next)
              && ReadTag(f, off, 3, next) ==
                   match GetString(f, Signed(nameoff))
                   case None => None
                   case Some(name) => Some([Property(name, f.bytes[at + 12..at + 12 + len])])
            else NextTag(f, off) == Tag(9, -FDT_ERR_BADSTRUCTURE)
  {
    hide GetString, SkipName, WordAt, Be32;
    TagWord(f.bytes, f.offStruct + off, 3);
    WordRoundTrip(f.bytes, f.offStruct + off + 4, len);
    WordRoundTrip(f.bytes, f.offStruct + off + 8, nameoff);
  }

  /** The reader finds a tag that has been laid out, and where it ends. */
  lemma {:induction false} TagAt(f: Fdt, off: nat, e: Event)
    requires Sane(f) && f.offStruct + f.sizeStruct <= f.totalSize && off % 4 == 0 && off + Size(e) <= f.sizeStruct
    requires Lies(f.bytes, f.offStruct + off, e)
    ensures NextTag(f, off) == Tag(TagOf(e), off + Size(e))
    ensures e.Begin? ==> SkipName(f, off + 4) == off + 5 + |e.name|
  {
    hide TagAlign, Lies, NextTag, SkipName;
    match e
    case Begin(name) => BeginAt(f, off, name);
    case Prop(nameoff, value) => PropAt(f, off, nameoff, value);
    case _ => BareAt(f, off, e);
  }

  /** The tag stands for the item. */
  ghost predicate StandsFor(f: Fdt, e: Event, item: Item)
    requires Sane(f)
  {
    match e
    case Begin(name) => item == NodeBegin(name)
    case Prop(nameoff, value) => item.Property? && GetString(f, Signed(nameoff)) == Some(item.name)
        && item.value == value
    case End => item == NodeEnd
    case _ => false
  }

  lemma {:induction false} ReadTagAt(f: Fdt, off: nat, e: Event, item: Item)
    requires Sane(f) && f.offStruct + f.sizeStruct <= f.totalSize && off % 4 == 0 && off + Size(e) <= f.sizeStruct
    requires Lies(f.bytes, f.offStruct + off, e) && StandsFor(f, e, item)
    ensures NextTag(f, off) == Tag(TagOf(e), off + Size(e)) && TagOf(e) != FDT_END
    ensures ReadTag(f, off, TagOf(e), off + Size(e)) == Some([item])
  {
    hide NextTag, SkipName, WordAt, GetString, TagAlign, Be32;
    TagAt(f, off, e);
    var at := f.offStruct + off;
    if e.Prop? {
      WordThere(f.bytes, at + 4, |e.value|);
      WordThere(f.bytes, at + 8, e.nameoff);
    }
  }

  lemma {:induction false} OffsetGrows(es: seq<Event>, i: nat, j: nat)
    requires i <= j <= |es|
    ensures Offset(es, i) <= Offset(es, j)
    decreases j
  {
    hide Size;
    if i < j {
      OffsetGrows(es, i, j - 1);
    }
  }

  lemma {:induction false} OffsetAligned(es: seq<Event>, i: nat)
    requires i <= |es|
    ensures Offset(es, i) % 4 == 0
  {
    hide TagAlign, Size;
    if i > 0 {
      OffsetAligned(es, i - 1);
      SizeAligned(es[i - 1]);
      SumAligned(Offset(es, i - 1), Size(es[i - 1]));
    }
  }

  lemma {:induction false} SumAligned(m: nat, n: nat)
    requires m % 4 == 0 && n % 4 == 0
    ensures (m + n) % 4 == 0
  {
  }

  lemma {:induction false} SizeAligned(e: Event)
    ensures Size(e) % 4 == 0
  {
  }

  /** Where the next tag starts. */
  lemma {:induction false} OffsetNext(es: seq<Event>, i: nat)
    requires i < |es|
    ensures Offset(es, i + 1) == Offset(es, i) + Size(es[i]) <= Offset(es, |es|)
  {
    hide Size;
    OffsetGrows(es, i + 1, |es|);
  }

  /** What was laid out is read back. */
  lemma {:induction false} ReadBack(f: Fdt, es: seq<Event>, items: seq<Item>, i: nat)
    requires LaidOut(f, es) && |es| == |items| + 1 && es[|items|] == Finish && i <= |items|
    requires forall j :: 0 <= j < |items| ==> StandsFor(f, es[j], items[j])
    ensures Read(f, Offset(es, i)) == Some(items[i..])
    decreases |items| - i
  {
    hide StandsFor, ReadTag, Lies, NextTag, Offset, Size;
    OffsetNext(es, i);
    OffsetAligned(es, i);
    if i < |items| {
      ReadTagAt(f, Offset(es, i), es[i], items[i]);
      ReadBack(f, es, items, i + 1);
      assert items[i..] == [items[i]] + items[i + 1..];
    } else {
      TagAt(f, Offset(es, i), Finish);
      assert items[i..] == [];
    }
  }

  // ---------------------------------------------------------------------------
  // The tag walk, step by step
  // ---------------------------------------------------------------------------

  /** fdt_offset_ptr: whether len bytes at a structure offset may be looked at. */
  method FdtOffsetPtr(f: Fdt, offset: int, len: nat) returns (ok: bool)
    requires Sane(f) && offset < TWO32 && len < TWO32
    ensures ok <==> Readable(f, offset, len)
  {
    OffsetPtrTests(f, offset, len);
    if offset < 0 {
      return false;
    }
    var absoffset := (offset + f.offStruct) % TWO32;
    if absoffset < offset || (absoffset + len) % TWO32 < absoffset || (absoffset + len) % TWO32 > f.totalSize {
      return false;
    }
    if (offset + len) % TWO32 < offset || (offset + len) % TWO32 > f.sizeStruct {
      return false;
    }
    return true;
  }

  /** fdt_next_tag computes the step of the tag walk. */
  method FdtNextTag(f: Fdt, startoffset: int) returns (tag: nat, nextoffset: int)
    requires Sane(f) && startoffset <= INT_MAX
    ensures NextTag(f, startoffset) == Tag(tag, nextoffset)
    ensures tag != FDT_END ==> startoffset + 4 <= nextoffset < f.sizeStruct + 4
  {
    hide TagAlign, WordAt;
    var offset := startoffset;
    var ok := FdtOffsetPtr(f, offset, FDT_TAGSIZE);
    if !ok {
      return FDT_END, -FDT_ERR_TRUNCATED;
    }
    tag := WordAt(f.bytes, f.offStruct + offset);
    offset := offset + FDT_TAGSIZE;
    nextoffset := -FDT_ERR_BADSTRUCTURE;
    if tag == FDT_BEGIN_NODE {
      offset := SkipNameLoop(f, offset);
      if offset == -1 {
        tag := FDT_END;
        return;
      }
    } else if tag == FDT_PROP {
      ok := FdtOffsetPtr(f, offset, 4);
      if !ok {
        tag := FDT_END;
        return;
      }
      var len := WordAt(f.bytes, f.offStruct + offset);
      LengthTests(offset, len);
      var sum := (len + offset) % TWO32;
      if INT_MAX <= sum || sum < offset {
        tag := FDT_END;
        return;
      }
      offset := offset + 8 + len;
    } else if tag != FDT_END && tag != FDT_END_NODE && tag != FDT_NOP {
      tag := FDT_END;
      return;
    }
    ok := FdtOffsetPtr(f, startoffset, offset - startoffset);
    if !ok {
      tag := FDT_END;
      return;
    }
    nextoffset := TagAlign(offset);
  }

  /** The loop over a node name; -1 if it runs out of the block. */
  method SkipNameLoop(f: Fdt, start: nat) returns (offset: int)
    requires Sane(f) && start <= f.sizeStruct
    ensures offset == SkipName(f, start)
  {
    offset := start;
    while true
      invariant start <= offset <= f.sizeStruct && SkipName(f, start) == SkipName(f, offset)
      decreases f.sizeStruct - offset
    {
      var ok := FdtOffsetPtr(f, offset, 1);
      if !ok {
        return -1;
      }
      var c := f.bytes[f.offStruct + offset];
      offset := offset + 1;
      if c == 0 {
        return;
      }
    }
  }
}
