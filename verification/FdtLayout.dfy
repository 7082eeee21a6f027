/**
 Runs of tags in the structure block: cutting them apart, moving them, what they mean, and the
 tag that closes a node.
 */
module FdtLayout {
  import opened Common
  import opened FdtBlob
  import opened FdtReader
  import opened FdtWriter
  import opened FdtTree

  /** The bytes a run of tags takes. */
  function Total(es: seq<Event>): nat {
    Offset(es, |es|)
  }

  lemma {:induction false} OffsetConcat(x: seq<Event>, y: seq<Event>, j: nat)
    requires j <= |y|
    ensures Offset(x + y, |x| + j) == Total(x) + Offset(y, j)
  {
    hide Size;
    if j > 0 {
      OffsetConcat(x, y, j - 1);
    } else {
      OffsetFirst(x, y, |x|);
    }
  }

  lemma {:induction false} OffsetFirst(x: seq<Event>, y: seq<Event>, i: nat)
    requires i <= |x|
    ensures Offset(x + y, i) == Offset(x, i)
  {
    hide Size;
    if i > 0 {
      OffsetFirst(x, y, i - 1);
    }
  }

  /** A run lies in place exactly when its two parts do. */
  lemma {:induction false} AllLieSplit(b: Bytes, start: nat, x: seq<Event>, y: seq<Event>)
    ensures AllLie(b, start, x + y) <==> AllLie(b, start, x) && AllLie(b, start + Total(x), y)
  {
    hide Lies, Offset;
    var xy := x + y;
    forall i | 0 <= i < |x|
      ensures Offset(xy, i) == Offset(x, i)
    {
      OffsetFirst(x, y, i);
    }
    forall j | 0 <= j < |y|
      ensures Offset(xy, |x| + j) == Total(x) + Offset(y, j)
    {
      OffsetConcat(x, y, j);
    }
    hide Total;
    if AllLie(b, start, xy) {
      forall j | 0 <= j < |y|
        ensures Lies(b, start + Total(x) + Offset(y, j), y[j])
      {
        assert xy[|x| + j] == y[j];
      }
    }
  }

  lemma {:induction false} TotalConcat(x: seq<Event>, y: seq<Event>)
    ensures Total(x + y) == Total(x) + Total(y)
  {
    OffsetConcat(x, y, |y|);
  }

  /** A tag moved with all its bytes. */
  lemma {:induction false} MovedLies(b: Bytes, b': Bytes, from: nat, to: nat, len: nat, off: nat, e: Event)
    requires from + len <= |b| && HasBytes(b', to, b[from..from + len]) && off + Size(e) <= len
    requires Lies(b, from + off, e)
    ensures Lies(b', to + off, e)
  {
    hide HasBytes, Be32;
    match e
    case Begin(name) =>
      MovedThere(b, b', from, to, len, off, Be32(FDT_BEGIN_NODE));
      MovedThere(b, b', from, to, len, off + 4, name);
      MovedThere(b, b', from, to, len, off + 4 + |name|, [0]);
    case Prop(nameoff, value) =>
      MovedThere(b, b', from, to, len, off, Be32(FDT_PROP));
      MovedThere(b, b', from, to, len, off + 4, Be32(|value|));
      MovedThere(b, b', from, to, len, off + 8, Be32(nameoff));
      MovedThere(b, b', from, to, len, off + 12, value);
    case End => MovedThere(b, b', from, to, len, off, Be32(FDT_END_NODE));
    case Nop => MovedThere(b, b', from, to, len, off, Be32(FDT_NOP));
    case Finish => MovedThere(b, b', from, to, len, off, Be32(FDT_END));
  }

  lemma {:induction false} AllMovedLie(b: Bytes, b': Bytes, from: nat, to: nat, len: nat, es: seq<Event>)
    requires from + len <= |b| && HasBytes(b', to, b[from..from + len]) && Total(es) <= len && AllLie(b, from, es)
    ensures AllLie(b', to, es)
  {
    hide Lies, HasBytes, Offset;
    forall i | 0 <= i < |es|
      ensures Lies(b', to + Offset(es, i), es[i])
    {
      OffsetNext(es, i);
      MovedLies(b, b', from, to, len, Offset(es, i), es[i]);
    }
  }

  // ---------------------------------------------------------------------------
  // Meaning
  // ---------------------------------------------------------------------------

  /** What one tag adds to what is read. */
  function One(f: Fdt, e: Event): seq<Item>
    requires Sane(f)
  {
    match e
    case Begin(name) => [NodeBegin(name)]
    case Prop(nameoff, value) =>
      (match GetString(f, Signed(nameoff))
       case None => []
       case Some(name) => [Property(name, value)])
    case End => [NodeEnd]
    case _ => []
  }

  function Means(f: Fdt, es: seq<Event>): seq<Item>
    requires Sane(f)
  {
    if es == [] then [] else One(f, es[0]) + Means(f, es[1..])
  }

  lemma {:induction false} MeansConcat(f: Fdt, x: seq<Event>, y: seq<Event>)
    requires Sane(f)
    ensures Means(f, x + y) == Means(f, x) + Means(f, y)
  {
    hide One;
    if x == [] {
      assert x + y == y;
    } else {
      MeansConcat(f, x[1..], y);
      assert (x + y)[0] == x[0] && (x + y)[1..] == x[1..] + y;
      assert Means(f, x + y) == One(f, x[0]) + (Means(f, x[1..]) + Means(f, y));
    }
  }

  /** Every property's name can be read. */
  ghost predicate Named(f: Fdt, es: seq<Event>)
    requires Sane(f)
  {
    forall e :: e in es && e.Prop? ==> GetString(f, Signed(e.nameoff)).Some?
  }

  /** The tags of a block up to, and without, its end tag. */
  ghost predicate Body(es: seq<Event>) {
    Finish !in es
  }

  lemma {:induction false} ReadOne(f: Fdt, off: nat, e: Event)
    requires Sane(f) && f.offStruct + f.sizeStruct <= f.totalSize && off % 4 == 0 && off + Size(e) <= f.sizeStruct
    requires Lies(f.bytes, f.offStruct + off, e) && e != Finish && (e.Prop? ==> GetString(f, Signed(e.nameoff)).Some?)
    ensures NextTag(f, off) == Tag(TagOf(e), off + Size(e)) && TagOf(e) != FDT_END
    ensures ReadTag(f, off, TagOf(e), off + Size(e)) == Some(One(f, e))
  {
    hide NextTag, SkipName, WordAt, GetString, TagAlign, Be32;
    if e == Nop {
      TagAt(f, off, e);
    } else {
      ReadTagAt(f, off, e, One(f, e)[0]);
    }
  }

  /** What is read of a block is what its tags mean. */
  lemma {:induction false} ReadMeans(f: Fdt, body: seq<Event>, i: nat)
    requires Sane(f) && f.offStruct + f.sizeStruct <= f.totalSize && f.sizeStruct == Total(body + [Finish])
    requires AllLie(f.bytes, f.offStruct, body + [Finish]) && Body(body) && Named(f, body) && i <= |body|
    ensures Read(f, Offset(body + [Finish], i)) == Some(Means(f, body[i..]))
    decreases |body| - i
  {
    hide ReadTag, Lies, NextTag, Offset, Size, One;
    var es := body + [Finish];
    OffsetNext(es, i);
    OffsetAligned(es, i);
    if i < |body| {
      assert es[i] == body[i] && es[i] in body;
      ReadOne(f, Offset(es, i), es[i]);
      ReadMeans(f, body, i + 1);
      assert body[i..][0] == body[i] && body[i..][1..] == body[i + 1..];
    } else {
      assert es[i] == Finish;
      TagAt(f, Offset(es, i), Finish);
    }
  }

  // ---------------------------------------------------------------------------
  // The tag that closes a node
  // ---------------------------------------------------------------------------

  /** The place after the tag that closes the node whose inside, d levels up, is at i; -1 if the
      block ends before it. */
  function Close(es: seq<Event>, i: nat, d: nat): (r: int)
    requires i <= |es|
    ensures r == -1 || i < r <= |es|
    decreases |es| - i
  {
    if i == |es| || es[i] == Finish then -1
    else if es[i].Begin? then Close(es, i + 1, d + 1)
    else if es[i].End? then if d == 0 then i + 1 else Close(es, i + 1, d - 1)
    else Close(es, i + 1, d)
  }

  /** Closing d + 1 levels is closing one and then d. */
  lemma {:induction false} CloseInner(es: seq<Event>, i: nat, d: nat, outer: nat)
    requires i <= |es|
    ensures Close(es, i, d) == -1 ==> Close(es, i, d + outer + 1) == -1
    ensures Close(es, i, d) != -1 ==> Close(es, i, d + outer + 1) == Close(es, Close(es, i, d), outer)
    decreases |es| - i
  {
    if i < |es| && es[i] != Finish {
      CloseInner(es, i + 1, if es[i].Begin? then d + 1 else if es[i].End? && d > 0 then d - 1 else d, outer);
    }
  }

  /** The tags from a node's begin tag to the tag that closes it stand for one complete node. */
  lemma {:induction false} CloseIsNode(f: Fdt, es: seq<Event>, a: nat)
    requires Sane(f) && a < |es| && es[a].Begin? && Close(es, a + 1, 0) != -1
    ensures var r := ParseNode(Means(f, es[a..Close(es, a + 1, 0)])); r.Some? && r.value.1 == []
    decreases |es| - a, 0
  {
    var b := Close(es, a + 1, 0);
    CloseIsEntries(f, es, a + 1, []);
    assert es[a..b][0] == es[a] && es[a..b][1..] == es[a + 1..b];
    assert Means(f, es[a..b])[1..] == Means(f, es[a + 1..b]) + [];
    hide ParseEntries, Close;
  }

  lemma {:induction false} RunFirst(f: Fdt, es: seq<Event>, i: nat, b: nat, rest: seq<Item>)
    requires Sane(f) && i < b <= |es|
    ensures Means(f, es[i..b]) + rest == One(f, es[i]) + (Means(f, es[i + 1..b]) + rest)
  {
    hide One;
    assert es[i..b][0] == es[i] && es[i..b][1..] == es[i + 1..b];
  }

  lemma {:induction false} RunSplit(f: Fdt, es: seq<Event>, i: nat, m: nat, b: nat, rest: seq<Item>)
    requires Sane(f) && i <= m <= b <= |es|
    ensures Means(f, es[i..b]) + rest == Means(f, es[i..m]) + (Means(f, es[m..b]) + rest)
  {
    hide Means;
    assert es[i..b] == es[i..m] + es[m..b];
    MeansConcat(f, es[i..m], es[m..b]);
  }

  lemma {:induction false} EndThenRest(f: Fdt, es: seq<Event>, i: nat, rest: seq<Item>)
    requires Sane(f) && i < |es| && es[i].End?
    ensures ParseEntries(Means(f, es[i..i + 1]) + rest) == Some(([], rest))
  {
    RunFirst(f, es, i, i + 1, rest);
    assert es[i + 1..i + 1] == [];
    assert [NodeEnd] + rest == Means(f, es[i..i + 1]) + rest;
    assert ([NodeEnd] + rest)[1..] == rest;
  }

  lemma {:induction false} CloseIsEntries(f: Fdt, es: seq<Event>, i: nat, rest: seq<Item>)
    requires Sane(f) && i <= |es| && Close(es, i, 0) != -1
    ensures var r := ParseEntries(Means(f, es[i..Close(es, i, 0)]) + rest); r.Some? && r.value.1 == rest
    decreases |es| - i, 1
  {
    hide Means, One, ParseEntries;
    var b := Close(es, i, 0);
    if es[i].Begin? {
      CloseInner(es, i + 1, 0, 0);
      var m := Close(es, i + 1, 0);
      CloseIsEntries(f, es, m, rest);
      NodeThenRest(f, es, i, m, Means(f, es[m..b]) + rest);
      RunSplit(f, es, i, m, b, rest);
    } else if es[i].End? {
      EndThenRest(f, es, i, rest);
    } else {
      CloseIsEntries(f, es, i + 1, rest);
      OneThenRest(f, es[i], Means(f, es[i + 1..b]) + rest);
      RunFirst(f, es, i, b, rest);
    }
  }

  lemma {:induction false} OneThenRest(f: Fdt, e: Event, rest: seq<Item>)
    requires Sane(f) && !e.Begin? && !e.End? && ParseEntries(rest).Some?
    ensures var r := ParseEntries(One(f, e) + rest); r.Some? && r.value.1 == ParseEntries(rest).value.1
  {
    hide GetString;
    if One(f, e) == [] {
      assert One(f, e) + rest == rest;
    } else {
      assert (One(f, e) + rest)[1..] == rest;
    }
  }

  lemma {:induction false} NodeThenRest(f: Fdt, es: seq<Event>, i: nat, m: nat, rest: seq<Item>)
    requires Sane(f) && i < |es| && es[i].Begin? && Close(es, i + 1, 0) == m && ParseEntries(rest).Some?
    ensures var r := ParseEntries(Means(f, es[i..m]) + rest); r.Some? && r.value.1 == ParseEntries(rest).value.1
    decreases |es| - i, 0
  {
    CloseIsEntries(f, es, i + 1, rest);
    assert es[i..m][0] == es[i] && es[i..m][1..] == es[i + 1..m];
    var items := Means(f, es[i..m]) + rest;
    assert items[1..] == Means(f, es[i + 1..m]) + rest;
    hide Close, Means;
  }

  // ---------------------------------------------------------------------------
  // Node walks
  // ---------------------------------------------------------------------------

  const FDT_ERR_NOTFOUND: int := 1
  const FDT_ERR_BADOFFSET: int := 4

  /** fdt_check_node_offset_: where the tag after a node's begin tag starts. */
  function CheckNode(f: Fdt, offset: int): (r: int)
    requires Sane(f)
    ensures r >= 0 ==> 0 <= offset && offset + 4 <= r < f.sizeStruct + 4 && r % 4 == 0
  {
    if offset < 0 || offset % 4 != 0 || NextTag(f, offset).tag != FDT_BEGIN_NODE then -FDT_ERR_BADOFFSET
    else NextTag(f, offset).next
  }

  /** A node begins exactly at a multiple of four where the bytes 0, 0, 0, 1 are and a name that ends. */
  lemma {:induction false} NodeOnBytes(f: Fdt, offset: int)
    requires Sane(f)
    ensures CheckNode(f, offset) >= 0 ==> offset >= 0 && TagBytes(f, offset, [0, 0, 0, 1])
    ensures CheckNode(f, offset) >= 0 ==> f.bytes[f.offStruct + SkipName(f, offset + 4) - 1] == 0
    ensures offset >= 0 && TagBytes(f, offset, [0, 0, 0, 1]) && SkipName(f, offset + 4) != -1 ==>
              CheckNode(f, offset) == TagAlign(SkipName(f, offset + 4))
  {
    if offset >= 0 {
      NameStops(f, offset + 4);
      if offset + 4 <= f.sizeStruct && f.offStruct + offset + 4 <= f.totalSize {
        TagWord(f.bytes, f.offStruct + offset, 1);
      }
    }
    hide WordAt, SkipName, TagAlign;
  }

  lemma {:induction false} NameStops(f: Fdt, i: nat)
    requires Sane(f)
    ensures SkipName(f, i) != -1 ==> f.bytes[f.offStruct + SkipName(f, i) - 1] == 0
    decreases f.sizeStruct - i
  {
    if Readable(f, i, 1) && f.bytes[f.offStruct + i] != 0 {
      NameStops(f, i + 1);
    }
  }

  /** The loop of fdt_next_node: the next begin tag, or the tag after the end of depth levels, with
      the depth reached. Every tag takes the walk at least four bytes further. */
  function WalkNode(f: Fdt, offset: nat, depth: int): (r: (int, int))
    requires Sane(f)
    ensures r.0 >= 0 ==> offset <= r.0 < f.sizeStruct + 4
    ensures r.0 >= 0 && r.1 >= 0 && depth >= 0 ==> r.0 < f.sizeStruct
    decreases f.sizeStruct + 4 - offset
  {
    var t := NextTag(f, offset);
    if t.tag == FDT_END then (if t.next >= 0 then -FDT_ERR_NOTFOUND else t.next, depth)
    else if t.tag == FDT_BEGIN_NODE then (offset, depth + 1)
    else if t.tag == FDT_END_NODE then if depth - 1 < 0 then (t.next, depth - 1) else WalkNode(f, t.next, depth - 1)
    else WalkNode(f, t.next, depth)
  }

  /** fdt_next_node. */
  function NextNode(f: Fdt, offset: int, depth: int): (r: (int, int))
    requires Sane(f)
    ensures offset >= 0 && r.0 >= 0 ==> offset < r.0 < f.sizeStruct + 4
  {
    if offset < 0 then WalkNode(f, 0, depth)
    else if CheckNode(f, offset) < 0 then (CheckNode(f, offset), depth)
    else WalkNode(f, CheckNode(f, offset), depth)
  }

  /** fdt_node_end_offset_: node by node until the depth falls below that of the first. */
  function NodeEndOffset(f: Fdt, offset: int, depth: int): int
    requires Sane(f)
    decreases f.sizeStruct + 4 - offset
  {
    if offset < 0 || depth < 0 then offset
    else
      var n := NextNode(f, offset, depth);
      if n.0 < 0 then n.0 else NodeEndOffset(f, n.0, n.1)
  }

  ghost predicate Block(f: Fdt, body: seq<Event>) {
    && Sane(f) && f.offStruct + f.sizeStruct <= f.totalSize && f.sizeStruct == Total(body + [Finish])
    && AllLie(f.bytes, f.offStruct, body + [Finish]) && Body(body)
  }

  lemma {:induction false} BlockSane(f: Fdt, body: seq<Event>)
    requires Block(f, body)
    ensures Sane(f)
  {
    hide AllLie, Offset;
  }

  /** One step of the tag walk over a block. */
  lemma {:induction false} BlockStep(f: Fdt, body: seq<Event>, i: nat)
    requires Block(f, body) && i <= |body|
    ensures var es := body + [Finish];
            NextTag(f, Offset(es, i)) == Tag(TagOf(es[i]), Offset(es, i + 1)) && Offset(es, i) % 4 == 0
  {
    hide Lies, NextTag, Offset, Size;
    var es := body + [Finish];
    OffsetNext(es, i);
    OffsetAligned(es, i);
    TagAt(f, Offset(es, i), es[i]);
  }

  /** The node walk over a block either finds the next begin tag, with as many levels still to
      close, or the place after the tag that closes them, or the end of the block. */
  lemma {:induction false} WalkCloses(f: Fdt, body: seq<Event>, i: nat, depth: nat) returns (j: nat)
    requires Block(f, body) && i <= |body|
    ensures var es, r := body + [Finish], WalkNode(f, Offset(body + [Finish], i), depth);
            if r.0 < 0 then r.0 == -FDT_ERR_NOTFOUND && Close(body, i, depth) == -1
            else if r.1 < 0 then 0 <= Close(body, i, depth) && r.0 == Offset(es, Close(body, i, depth))
            else
              && i <= j < |body| && body[j].Begin? && r.0 == Offset(es, j)
              && Close(body, j + 1, r.1) == Close(body, i, depth)
    decreases |body| - i
  {
    hide Lies, NextTag, Offset, Size, Block;
    var es := body + [Finish];
    BlockStep(f, body, i);
    j := i;
    if i < |body| {
      assert es[i] == body[i] && body[i] != Finish by { InBody(f, body, i); }
      if body[i].End? {
        if depth > 0 {
          j := WalkCloses(f, body, i + 1, depth - 1);
        }
      } else if !body[i].Begin? {
        j := WalkCloses(f, body, i + 1, depth);
      }
    }
  }

  lemma {:induction false} InBody(f: Fdt, body: seq<Event>, i: nat)
    requires Block(f, body) && i < |body|
    ensures body[i] != Finish
  {
    assert body[i] in body;
  }

  /** The end-offset walk of a node finds exactly the place after the tag that closes it. */
  lemma {:induction false} NodeEndCloses(f: Fdt, body: seq<Event>, a: nat, depth: nat)
    requires Block(f, body) && a < |body| && body[a].Begin?
    ensures NodeEndOffset(f, Offset(body + [Finish], a), depth) ==
              if Close(body, a + 1, depth) == -1 then -FDT_ERR_NOTFOUND
              else Offset(body + [Finish], Close(body, a + 1, depth))
    decreases |body| - a
  {
    assert Sane(f);
    hide Lies, NextTag, Offset, Size, Block, WalkNode, Close;
    var es := body + [Finish];
    BlockStep(f, body, a);
    assert es[a] == body[a];
    var j := WalkCloses(f, body, a + 1, depth);
    var r := WalkNode(f, Offset(es, a + 1), depth);
    if r.0 >= 0 && r.1 >= 0 {
      NodeEndCloses(f, body, j, r.1);
    }
  }

  // ---------------------------------------------------------------------------
  // Property walks
  // ---------------------------------------------------------------------------

  /** nextprop_: the next property from a structure offset on, past no-op tags. */
  function NextProp(f: Fdt, offset: nat): (r: int)
    requires Sane(f) && offset % 4 == 0
    ensures r >= 0 ==> offset <= r < f.sizeStruct && r % 4 == 0 && NextTag(f, r).tag == FDT_PROP
    decreases f.sizeStruct + 4 - offset
  {
    var t := NextTag(f, offset);
    if t.tag == FDT_END then if t.next >= 0 then -FDT_ERR_BADSTRUCTURE else t.next
    else if t.tag == FDT_PROP then offset
    else if t.tag == FDT_NOP then NextProp(f, t.next)
    else -FDT_ERR_NOTFOUND
  }

  /** The loop of fdt_get_property_namelen_ from a property on: the first with the name. */
  function FindProp(f: Fdt, offset: int, name: Bytes): int
    requires Sane(f) && (offset >= 0 ==> offset % 4 == 0 && NextTag(f, offset).tag == FDT_PROP)
    decreases if offset < 0 then 0 else f.sizeStruct + 4 - offset
  {
    if offset < 0 then offset
    else if GetString(f, Signed(PropWord(f, offset))) == Some(name) then offset
    else FindProp(f, NextProp(f, NextTag(f, offset).next), name)
  }

  /** fdt_check_prop_offset_: where the tag after a property starts. */
  function CheckProp(f: Fdt, offset: int): (r: int)
    requires Sane(f)
    ensures r >= 0 ==> 0 <= offset && offset + 4 <= r < f.sizeStruct + 4 && r % 4 == 0
  {
    if offset < 0 || offset % 4 != 0 || NextTag(f, offset).tag != FDT_PROP then -FDT_ERR_BADOFFSET
    else NextTag(f, offset).next
  }

  /** The name-offset word of a property. */
  function PropWord(f: Fdt, offset: nat): nat
    requires Sane(f) && NextTag(f, offset).tag == FDT_PROP
  {
    WordAt(f.bytes, f.offStruct + offset + 8)
  }

  function GetProperty(f: Fdt, nodeoffset: int, name: Bytes): int
    requires Sane(f)
  {
    if CheckNode(f, nodeoffset) < 0 then CheckNode(f, nodeoffset)
    else FindProp(f, NextProp(f, CheckNode(f, nodeoffset)), name)
  }

  /** The first property with the name among the tags from i on, up to the first tag that is
      neither a property nor a no-op: its index, -1 if there is none, -2 if the block ends first. */
  function PropIndex(f: Fdt, body: seq<Event>, i: nat, name: Bytes): (k: int)
    requires Sane(f) && i <= |body|
    ensures k >= 0 ==> i <= k < |body| && body[k].Prop? && GetString(f, Signed(body[k].nameoff)) == Some(name)
    decreases |body| - i
  {
    if i == |body| then -2
    else if body[i].Prop? then
      if GetString(f, Signed(body[i].nameoff)) == Some(name) then i else PropIndex(f, body, i + 1, name)
    else if body[i] == Nop then PropIndex(f, body, i + 1, name)
    else -1
  }

  /** A tag that the search for a property passes. */
  ghost predicate Passed(f: Fdt, e: Event, name: Bytes)
    requires Sane(f)
  {
    e == Nop || (e.Prop? && GetString(f, Signed(e.nameoff)) != Some(name))
  }

  /** Up to the index found there are only no-ops and properties of other names, and at it there is the
      property; -1 stands for any other tag, -2 for the end of the block. */
  lemma {:induction false} PropIndexMeans(f: Fdt, body: seq<Event>, i: nat, name: Bytes)
    requires Sane(f) && i <= |body|
    ensures var k := PropIndex(f, body, i, name);
            if k >= 0 then
              && body[k].Prop? && GetString(f, Signed(body[k].nameoff)) == Some(name)
              && forall x :: i <= x < k ==> Passed(f, body[x], name)
            else if k == -1 then
              exists e :: i <= e < |body| && !body[e].Prop? && body[e] != Nop
                          && forall x :: i <= x < e ==> Passed(f, body[x], name)
            else k == -2 && forall x :: i <= x < |body| ==> Passed(f, body[x], name)
    decreases |body| - i
  {
    hide GetString;
    if i < |body| {
      PropIndexMeans(f, body, i + 1, name);
    }
  }

  /** What the walks return for an index. */
  function PropResult(body: seq<Event>, k: int): int
    requires k < |body|
  {
    if k == -1 then -FDT_ERR_NOTFOUND else if k < 0 then -FDT_ERR_BADSTRUCTURE else Offset(body + [Finish], k)
  }

  /** The word of a property in a block. */
  lemma {:induction false} PropThere(f: Fdt, body: seq<Event>, i: nat)
    requires Block(f, body) && i < |body| && body[i].Prop?
    ensures var off := Offset(body + [Finish], i);
            && NextTag(f, off) == Tag(FDT_PROP, Offset(body + [Finish], i + 1)) && PropWord(f, off) == body[i].nameoff
            && f.offStruct + off + 12 <= |f.bytes| && WordAt(f.bytes, f.offStruct + off + 4) == |body[i].value|
  {
    hide NextTag, Offset, Block, WordAt, Be32, HasBytes;
    BlockLies(f, body, i);
    BlockStep(f, body, i);
    WordThere(f.bytes, f.offStruct + Offset(body + [Finish], i) + 8, body[i].nameoff);
    WordThere(f.bytes, f.offStruct + Offset(body + [Finish], i) + 4, |body[i].value|);
    ValueEnds(f.bytes, f.offStruct + Offset(body + [Finish], i), body[i]);
  }

  lemma {:induction false} BlockLies(f: Fdt, body: seq<Event>, i: nat)
    requires Block(f, body) && i < |body|
    ensures Sane(f) && (body + [Finish])[i] == body[i]
    ensures Lies(f.bytes, f.offStruct + Offset(body + [Finish], i), body[i])
  {
    hide Lies, Offset;
    var es := body + [Finish];
    assert es[i] == body[i];
  }

  lemma {:induction false} ValueEnds(b: Bytes, at: nat, e: Event)
    requires e.Prop? && Lies(b, at, e)
    ensures at + 12 + |e.value| <= |b|
  {
  }

  /** The property walk over a block finds the first property with the name. */
  lemma {:induction false} PropWalk(f: Fdt, body: seq<Event>, i: nat, name: Bytes)
    requires Block(f, body) && i <= |body|
    ensures Offset(body + [Finish], i) % 4 == 0
    ensures FindProp(f, NextProp(f, Offset(body + [Finish], i)), name) == PropResult(body, PropIndex(f, body, i, name))
    decreases |body| - i
  {
    hide NextTag, Offset, Size, Block, GetString, Lies, PropWord;
    var es := body + [Finish];
    BlockStep(f, body, i);
    if i < |body| {
      assert es[i] == body[i] && body[i] != Finish by { InBody(f, body, i); }
      if body[i].Prop? {
        PropThere(f, body, i);
        PropWalk(f, body, i + 1, name);
      } else if body[i] == Nop {
        PropWalk(f, body, i + 1, name);
      }
    }
  }

  lemma {:induction false} GetPropertyFinds(f: Fdt, body: seq<Event>, a: nat, name: Bytes)
    requires Block(f, body) && a < |body| && body[a].Begin?
    ensures CheckNode(f, Offset(body + [Finish], a)) == Offset(body + [Finish], a + 1)
    ensures GetProperty(f, Offset(body + [Finish], a), name) == PropResult(body, PropIndex(f, body, a + 1, name))
  {
    assert Sane(f);
    hide NextTag, Offset, Size, Block, GetString, Lies, FindProp, NextProp, PropIndex;
    BlockStep(f, body, a);
    assert (body + [Finish])[a] == body[a];
    PropWalk(f, body, a + 1, name);
  }

  // ---------------------------------------------------------------------------
  // The walks as they are programmed
  // ---------------------------------------------------------------------------

  method FdtCheckNodeOffset(f: Fdt, offset: int) returns (r: int)
    requires Sane(f) && offset <= INT_MAX
    ensures r == CheckNode(f, offset)
  {
    if offset < 0 || offset % FDT_TAGSIZE != 0 {
      return -FDT_ERR_BADOFFSET;
    }
    var tag, next := FdtNextTag(f, offset);
    if tag != FDT_BEGIN_NODE {
      return -FDT_ERR_BADOFFSET;
    }
    return next;
  }

  method FdtNextNode(f: Fdt, start: int, depth0: int) returns (offset: int, depth: int)
    requires Sane(f) && f.sizeStruct < INT_MAX - 4 && start <= INT_MAX
    ensures (offset, depth) == NextNode(f, start, depth0)
  {
    hide NextTag, Sane;
    var nextoffset := 0;
    depth := depth0;
    if start >= 0 {
      nextoffset := FdtCheckNodeOffset(f, start);
      if nextoffset < 0 {
        return nextoffset, depth;
      }
    }
    while true
      invariant 0 <= nextoffset < f.sizeStruct + 4
      invariant NextNode(f, start, depth0) == WalkNode(f, nextoffset, depth)
      decreases f.sizeStruct + 4 - nextoffset
    {
      offset := nextoffset;
      var tag;
      tag, nextoffset := FdtNextTag(f, offset);
      if tag == FDT_BEGIN_NODE {
        depth := depth + 1;
        return;
      } else if tag == FDT_END_NODE {
        depth := depth - 1;
        if depth < 0 {
          return nextoffset, depth;
        }
      } else if tag == FDT_END {
        if nextoffset >= 0 {
          return -FDT_ERR_NOTFOUND, depth;
        }
        return nextoffset, depth;
      }
    }
  }

  method FdtNodeEndOffset(f: Fdt, start: int) returns (offset: int)
    requires Sane(f) && f.sizeStruct < INT_MAX - 4 && start <= INT_MAX
    ensures offset == NodeEndOffset(f, start, 0)
  {
    hide NextNode, Sane;
    offset := start;
    var depth := 0;
    while offset >= 0 && depth >= 0
      invariant offset <= INT_MAX
      invariant NodeEndOffset(f, start, 0) == NodeEndOffset(f, offset, depth)
      decreases if offset < 0 then 0 else if offset >= f.sizeStruct + 4 then 1 else f.sizeStruct + 5 - offset
    {
      NextNodeGrows(f, offset, depth);
      offset, depth := FdtNextNode(f, offset, depth);
    }
  }

  method NextPropOffset(f: Fdt, start: nat) returns (offset: int)
    requires Sane(f) && f.sizeStruct < INT_MAX - 4 && start < f.sizeStruct + 4 && start % 4 == 0
    ensures offset == NextProp(f, start)
  {
    hide NextTag, Sane;
    offset := start;
    while true
      invariant 0 <= offset < f.sizeStruct + 4 && offset % 4 == 0 && NextProp(f, start) == NextProp(f, offset)
      decreases f.sizeStruct + 4 - offset
    {
      var tag, nextoffset := FdtNextTag(f, offset);
      if tag == FDT_END {
        if nextoffset >= 0 {
          return -FDT_ERR_BADSTRUCTURE;
        }
        return nextoffset;
      }
      if tag == FDT_PROP {
        return offset;
      }
      if tag != FDT_NOP {
        return -FDT_ERR_NOTFOUND;
      }
      offset := nextoffset;
    }
  }

  /** fdt_next_property_offset. */
  method FdtNextPropertyOffset(f: Fdt, start: int) returns (offset: int)
    requires Sane(f) && f.sizeStruct < INT_MAX - 4 && start <= INT_MAX
    ensures offset == if CheckProp(f, start) < 0 then CheckProp(f, start) else NextProp(f, CheckProp(f, start))
  {
    if start < 0 || start % FDT_TAGSIZE != 0 {
      return -FDT_ERR_BADOFFSET;
    }
    var tag, next := FdtNextTag(f, start);
    if tag != FDT_PROP {
      return -FDT_ERR_BADOFFSET;
    }
    offset := NextPropOffset(f, next);
  }

  /** fdt_get_property_namelen: the offset of the first property of a node with the name. */
  method FdtGetProperty(f: Fdt, nodeoffset: int, name: Bytes) returns (offset: int)
    requires Sane(f) && f.sizeStruct < INT_MAX - 4 && nodeoffset <= INT_MAX
    ensures offset == GetProperty(f, nodeoffset, name)
  {
    hide NextTag, Sane, GetString, NextProp;
    offset := FdtCheckNodeOffset(f, nodeoffset);
    if offset < 0 {
      return;
    }
    offset := NextPropOffset(f, offset);
    while offset >= 0
      invariant offset >= 0 ==> offset < f.sizeStruct && offset % 4 == 0 && NextTag(f, offset).tag == FDT_PROP
      invariant GetProperty(f, nodeoffset, name) == FindProp(f, offset, name)
      decreases if offset < 0 then 0 else f.sizeStruct + 4 - offset
    {
      if GetString(f, Signed(PropWord(f, offset))) == Some(name) {
        return;
      }
      offset := FdtNextPropertyOffset(f, offset);
    }
  }

  lemma {:induction false} NextNodeGrows(f: Fdt, offset: nat, depth: int)
    requires Sane(f)
    ensures var r := NextNode(f, offset, depth); r.0 >= 0 ==> offset < r.0 < f.sizeStruct + 4
  {
  }
}
