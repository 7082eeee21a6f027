/**
 The flattened devicetree blob as bytes: big-endian words, tags, the tag walk and the strings
 block (Devicetree Specification, sections 5.2 to 5.5).
 */
module FdtBlob {

  type Byte = b: nat | b < 256

  type Bytes = seq<Byte>

  const FDT_TAGSIZE: nat := 4
  const FDT_BEGIN_NODE: nat := 1
  const FDT_END_NODE: nat := 2
  const FDT_PROP: nat := 3
  const FDT_NOP: nat := 4
  const FDT_END: nat := 9

  const FDT_MAGIC: nat := 0xd00dfeed
  const FDT_SW_MAGIC: nat := 0xffff_ffff - FDT_MAGIC
  const TWO32: nat := 0x1_0000_0000
  const INT_MAX: nat := 0x7fff_ffff

  const FDT_ERR_NOSPACE: int := 3
  const FDT_ERR_BADSTATE: int := 7
  const FDT_ERR_TRUNCATED: int := 8
  const FDT_ERR_BADMAGIC: int := 9
  const FDT_ERR_BADSTRUCTURE: int := 11
  const FDT_ERR_BADFLAGS: int := 18

  function Be32(v: nat): (b: Bytes)
    requires v < TWO32
    ensures |b| == 4
  {
    [v / 0x100_0000, v / 0x1_0000 % 256, v / 256 % 256, v % 256]
  }

  function WordAt(b: Bytes, off: nat): (v: nat)
    requires off + 4 <= |b|
    ensures v < TWO32
  {
    Word(b[off], b[off + 1], b[off + 2], b[off + 3])
  }

  function Word(a: nat, b: nat, c: nat, d: nat): nat {
    ((a * 256 + b) * 256 + c) * 256 + d
  }

  lemma {:induction false} WordOfBe32(v: nat)
    requires v < TWO32
    ensures var w := Be32(v); Word(w[0], w[1], w[2], w[3]) == v
  {
    assert v / 256 / 256 == v / 0x1_0000 && v / 0x1_0000 / 256 == v / 0x100_0000;
  }

  lemma {:induction false} WordRoundTrip(b: Bytes, off: nat, v: nat)
    requires off + 4 <= |b| && v < TWO32 && b[off..off + 4] == Be32(v)
    ensures WordAt(b, off) == v
  {
    WordOfBe32(v);
    hide Word, Be32;
    var w := b[off..off + 4];
    assert w[0] == b[off] && w[1] == b[off + 1] && w[2] == b[off + 2] && w[3] == b[off + 3];
  }

  /** FDT_TAGALIGN. */
  function TagAlign(n: nat): (a: nat)
    ensures n <= a < n + 4 && a % 4 == 0
  {
    (n + 3) / 4 * 4
  }

  /** The header fields the code uses, and the buffer. */
  datatype Fdt = Fdt(magic: nat, totalSize: nat, lastCompVersion: nat, offStruct: nat, sizeStruct: nat,
                     offStrings: nat, sizeStrings: nat, bytes: Bytes)

  /** Header words are words, and the blob lies in the buffer. */
  ghost predicate Sane(f: Fdt) {
    && f.totalSize <= |f.bytes| && f.totalSize <= INT_MAX && f.offStruct < TWO32 && f.sizeStruct < TWO32
    && f.offStrings < TWO32 && f.sizeStrings < TWO32
  }

  /** Whether len bytes at a structure offset lie in the structure block and in the blob. */
  predicate Readable(f: Fdt, offset: int, len: nat) {
    0 <= offset && f.offStruct + offset + len <= f.totalSize && offset + len <= f.sizeStruct
  }

  /** The tests of fdt_offset_ptr, in 32-bit arithmetic, say just that. */
  lemma {:induction false} OffsetPtrTests(f: Fdt, offset: int, len: nat)
    requires Sane(f) && offset < TWO32 && len < TWO32
    ensures Readable(f, offset, len) <==>
              (offset >= 0
               && var absoffset := (offset + f.offStruct) % TWO32;
                  && absoffset >= offset
                  && (absoffset + len) % TWO32 >= absoffset && (absoffset + len) % TWO32 <= f.totalSize
                  && (offset + len) % TWO32 >= offset && (offset + len) % TWO32 <= f.sizeStruct)
  {
  }

  /** So do the tests of fdt_next_tag on the length of a property. */
  lemma {:induction false} LengthTests(offset: nat, len: nat)
    requires offset < TWO32 && len < TWO32
    ensures var sum := (len + offset) % TWO32; INT_MAX <= sum || sum < offset <==> INT_MAX <= len + offset
  {
  }

  /** The offset after the NUL that ends the string at a structure offset; -1 if it runs out. */
  function SkipName(f: Fdt, i: nat): (r: int)
    requires Sane(f)
    ensures r == -1 || (i < r <= f.sizeStruct && f.offStruct + r <= f.totalSize)
    decreases f.sizeStruct - i
  {
    if !Readable(f, i, 1) then -1
    else if f.bytes[f.offStruct + i] == 0 then i + 1
    else SkipName(f, i + 1)
  }

  datatype Tag = Tag(tag: nat, next: int)

  /** fdt_next_tag: the tag at a structure offset and the offset of the one after it. */
  function NextTag(f: Fdt, start: int): (t: Tag)
    requires Sane(f)
    ensures t.tag != FDT_END ==> 0 <= start && start + 4 <= t.next && t.next % 4 == 0 && t.next < f.sizeStruct + 4
  {
    if !Readable(f, start, 4) then Tag(FDT_END, -FDT_ERR_TRUNCATED) else
    var tag := WordAt(f.bytes, f.offStruct + start);
    var end := TagEnd(f, start, tag);
    if end == -1 || !Readable(f, start, end - start) then Tag(FDT_END, -FDT_ERR_BADSTRUCTURE)
    else Tag(tag, TagAlign(end))
  }

  /** Where the tag at a structure offset ends, before alignment; -1 if it cannot be told. */
  function TagEnd(f: Fdt, start: nat, tag: nat): (end: int)
    requires Sane(f)
    ensures end == -1 || (start + 4 <= end && (tag == FDT_BEGIN_NODE || tag == FDT_END_NODE || tag == FDT_PROP
                                               || tag == FDT_NOP || tag == FDT_END))
  {
    if tag == FDT_BEGIN_NODE then SkipName(f, start + 4)
    else if tag == FDT_PROP then
      if !Readable(f, start + 4, 4) then -1 else
      var len := WordAt(f.bytes, f.offStruct + start + 4);
      if INT_MAX <= len + start + 4 then -1 else start + 12 + len
    else if tag == FDT_END || tag == FDT_END_NODE || tag == FDT_NOP then start + 4
    else -1
  }
}
