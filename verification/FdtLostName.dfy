/** A failing fdt_setprop_namelen with fewer bytes of the name than the string has. */
module FdtLostName {
  import opened Common
  import opened FdtBlob
  import opened FdtReader
  import opened FdtWriter
  import opened FdtLayout
  import opened FdtEdit

  const NAME: Bytes := [97]
  const OTHER: Bytes := [98, 99, 100]

  /** A root node with one property, whose name is the only one in the strings block; a value of four
      bytes fills the blob. */
  ghost predicate OneProperty(f: Fdt, body: seq<Event>, v: Bytes) {
    && Sane(f) && |body| == 3 && body[0] == Begin([]) && body[1].Prop? && body[1].value == v && body[2] == End
    && GetString(f, Signed(body[1].nameoff)) == Some(NAME) && f.sizeStrings == 2
    && f.offStrings + 2 <= |f.bytes| && f.bytes[f.offStrings..f.offStrings + 2] == NAME + [0]
    && f.totalSize == f.offStrings + 6 - TagAlign(|v|)
  }

  function Written3(v: Bytes): seq<Item> {
    [NodeBegin([]), Property(NAME, v), NodeEnd]
  }

  lemma {:induction false} NoNamesYet(b: Bytes)
    ensures NameRoom(b, 0, 0, NAME) == 2
  {
    hide HasBytes;
  }

  /** The tags of a finished blob, one for each item written. */
  lemma {:induction false} TagsStand(f: Fdt, events: seq<Event>, log: seq<Item>, i: nat)
    requires Complete(f, events, log, [NAME]) && f.totalSize < INT_MAX && i < |log|
    ensures |FinishedTags(f, events)| == |log| && StandsFor(f, FinishedTags(f, events)[i], log[i])
  {
    hide AllLie, NamedFor, StandsFor, Offset;
    assert NamedFor(f.bytes, f.offStrings, f.sizeStrings, (events + [Finish])[i], log[i]);
    ItemReads(f, events[i], log[i]);
  }

  lemma {:induction false} JustWritten(f: Fdt, events: seq<Event>)
    requires Complete(f, events, Written3([1, 2, 3, 4]), [NAME]) && f.totalSize < INT_MAX
    ensures OneProperty(f, FinishedTags(f, events), [1, 2, 3, 4])
  {
    hide AllLie, AllNamedFor, Offset, GetString, FinishedTags;
    var log := Written3([1, 2, 3, 4]);
    TagsStand(f, events, log, 0);
    TagsStand(f, events, log, 1);
    TagsStand(f, events, log, 2);
    assert Packed([NAME]) == NAME + [0];
  }

  lemma {:induction false} InBuffer(f: Fdt, events: seq<Event>, log: seq<Item>)
    requires Complete(f, events, log, [NAME])
    ensures f.totalSize <= |f.bytes|
  {
    hide AllLie, AllNamedFor, Offset;
  }

  /** The blob with one property, written and opened. */
  method OneNode() returns (x: TreeEditor)
    ensures fresh(x) && fresh(x.buf) && x.WellFormed() && OneProperty(x.View(), x.body, [1, 2, 3, 4])
  {
    hide AllLie, AllNamedFor, AllWrittenFor, Offset, GetString, FinishedTags, OneProperty, Table, NameRoom, Complete,
         Block, Named, Means, Read;
    var w := new SequentialWriter(1000);
    var err := w.FdtCreateWithFlags(0);
    err := w.FdtFinishReservemap();
    err := w.FdtBeginNode([]);
    NoNamesYet(w.buf[..]);
    err := w.FdtProperty(NAME, [1, 2, 3, 4]);
    err := w.FdtEndNode();
    assert w.log == Written3([1, 2, 3, 4]) && w.names == [NAME];
    err := w.FdtFinish();
    InBuffer(w.View(), w.events, w.log);
    JustWritten(w.View(), w.events);
    x := new TreeEditor(w);
  }

  /** A shorter value leaves four bytes of room. */
  lemma {:induction false} Shortened(f: Fdt, body: seq<Event>, f': Fdt, body': seq<Event>, err: int)
    requires Block(f, body) && Named(f, body) && OneProperty(f, body, [1, 2, 3, 4])
    requires PropertySet(f, body, 0, NAME, 1, [], f', body', err)
    ensures err == 0 && OneProperty(f', body', [])
  {
    hide Block, Named, GetString, HasBytes, Means, PropValue, NotBefore, Offset;
    assert NAME[..1] == NAME;
    FoundHere(f, body, 1, NAME);
    PlaceKept(f, f', body, 1, NAME);
    StringsKept(f, f');
  }

  lemma {:induction false} StringsKept(f: Fdt, f': Fdt)
    requires GrownStrings(f, f') && f.sizeStrings == f'.sizeStrings == 2
    ensures f'.bytes[f'.offStrings..f'.offStrings + 2] == f.bytes[f.offStrings..f.offStrings + 2]
  {
  }

  lemma {:induction false} NotThere(b: Bytes, lo: nat, q: nat)
    requires lo + 2 <= |b| && b[lo..lo + 2] == NAME + [0]
    ensures !InTable(b, lo, lo + 2, q, OTHER[..1])
  {
    assert b[lo..lo + 1] == b[lo..lo + 2][..1] == NAME && OTHER[..1] == [98];
  }

  lemma {:induction false} OtherIsNew(f: Fdt)
    requires f.sizeStrings == 2 && f.offStrings + 2 <= |f.bytes|
    requires f.bytes[f.offStrings..f.offStrings + 2] == NAME + [0]
    ensures StringRoom(f, OTHER[..1]) == 2
  {
    hide HasBytes;
    var lo, hi, name := f.offStrings, f.offStrings + 2, OTHER[..1];
    forall q: nat
      ensures !InTable(f.bytes, lo, hi, q, name)
    {
      NotThere(f.bytes, lo, q);
    }
  }

  lemma {:induction false} OtherAbsent(f: Fdt, body: seq<Event>)
    requires OneProperty(f, body, [])
    ensures PropIndex(f, body, 1, OTHER[..1]) == -1
  {
    hide Sane, GetString, TagAlign;
    assert NAME[0] != OTHER[..1][0];
    assert PropIndex(f, body, 2, OTHER[..1]) == -1;
  }

  /** Four bytes are room for the other name, and not for a property: three bytes more than were added are
      taken back. */
  lemma {:induction false} Overcut(f: Fdt, body: seq<Event>, f': Fdt, body': seq<Event>, err: int)
    requires OneProperty(f, body, []) && PropertySet(f, body, 0, OTHER, 1, [], f', body', err)
    ensures err == -FDT_ERR_NOSPACE && f'.sizeStrings == 0
  {
    hide GetString, HasBytes, Means, PropValue, Offset, StringRoom, PropIndex;
    OtherIsNew(f);
    OtherAbsent(f, body);
  }

  lemma {:induction false} NothingRead(f: Fdt, body: seq<Event>, f': Fdt)
    requires OneProperty(f, body, []) && StringsCut(f, f', body) && f'.sizeStrings == 0 && f.magic == FDT_MAGIC
    ensures Sane(f') && Read(f', 0) == None
  {
    hide GetString, Block, Read, Means;
    BlockSane(f', body);
    SomeInBlock(f, Signed(body[1].nameoff));
    assert body[1] in body;
  }

  lemma {:induction false} OneOf(f: Fdt, e: Event)
    requires Sane(f)
    ensures Means(f, [e]) == One(f, e)
  {
    hide One;
    assert [e][1..] == [];
  }

  lemma {:induction false} WhatIsRead(f: Fdt, body: seq<Event>)
    requires OneProperty(f, body, [])
    ensures Means(f, body) == Written3([])
  {
    hide GetString;
    MeansConcat(f, [body[0]], [body[1]]);
    MeansConcat(f, [body[0], body[1]], [body[2]]);
    assert body == [body[0], body[1]] + [body[2]];
    OneOf(f, body[0]);
    OneOf(f, body[1]);
    OneOf(f, body[2]);
  }

  /** A blob that can be read, and a call that fails on it and leaves one that cannot: the string "bcd" is
      given for the name "b", and of the strings block, in which "a" is, nothing is left. */
  method OlderNameLost() returns (x: TreeEditor, ghost before: Option<seq<Item>>, err: int)
    ensures before == Some(Written3([])) && err == -FDT_ERR_NOSPACE && Sane(x.View()) && Read(x.View(), 0) == None
  {
    hide Block, Named, Means, Read, PropertySet, CheckNode, Offset, StringsCut, GetString, TagAlign;
    x := OneNode();
    ghost var f0, body0 := x.View(), x.body;
    x.WellFormedPasses();
    PropRoom(f0, body0, 0);
    OffsetZero(body0 + [Finish]);
    err := x.FdtSetprop(0, NAME, 1, [], 0);
    ghost var f, body := x.View(), x.body;
    Shortened(f0, body0, f, body, err);
    x.WellFormedPasses();
    x.ItemsRead();
    WhatIsRead(f, body);
    before := Read(f, 0);
    PropRoom(f, body, 0);
    OffsetZero(body + [Finish]);
    err := x.FdtSetprop(0, OTHER, 1, [], 0);
    Overcut(f, body, x.View(), x.body, err);
    NothingRead(f, body, x.View());
  }
}
