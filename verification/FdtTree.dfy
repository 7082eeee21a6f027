/** The tree of nodes and properties a sequence of tags stands for. */
module FdtTree {
  import opened Common
  import opened FdtBlob
  import opened FdtReader

  /** A node, with its properties and subnodes in the order in which they were added. */
  datatype Node = Node(name: Bytes, entries: seq<Entry>)

  datatype Entry = Value(name: Bytes, value: Bytes) | Sub(node: Node)

  /** The calls that write a node. */
  function Flatten(n: Node): seq<Item>
    decreases n
  {
    [NodeBegin(n.name)] + FlattenAll(n.entries) + [NodeEnd]
  }

  function FlattenEntry(e: Entry): seq<Item>
    decreases e
  {
    match e
    case Value(name, value) => [Property(name, value)]
    case Sub(node) => Flatten(node)
  }

  function FlattenAll(es: seq<Entry>): seq<Item>
    decreases es
  {
    if es == [] then [] else FlattenEntry(es[0]) + FlattenAll(es[1..])
  }

  /** Reads one node off the front; None if the items do not start with a complete node. */
  function ParseNode(items: seq<Item>): (r: Option<(Node, seq<Item>)>)
    ensures r.Some? ==> |r.value.1| < |items|
    decreases |items|, 0
  {
    if items == [] || !items[0].NodeBegin? then None else
    match ParseEntries(items[1..])
    case None => None
    case Some(p) => Some((Node(items[0].name, p.0), p.1))
  }

  /** Reads the rest of a node, up to its end. */
  function ParseEntries(items: seq<Item>): (r: Option<(seq<Entry>, seq<Item>)>)
    ensures r.Some? ==> |r.value.1| < |items|
    decreases |items|, 1
  {
    if items == [] then None
    else if items[0].NodeEnd? then Some(([], items[1..]))
    else if items[0].Property? then
      (match ParseEntries(items[1..])
       case None => None
       case Some(p) => Some(([Value(items[0].name, items[0].value)] + p.0, p.1)))
    else
      (match ParseNode(items)
       case None => None
       case Some(n) =>
         (match ParseEntries(n.1)
          case None => None
          case Some(p) => Some(([Sub(n.0)] + p.0, p.1))))
  }

  /** A tree survives being written as a sequence of calls and read as a sequence of tags. */
  lemma {:induction false} ParseFlatten(n: Node, rest: seq<Item>)
    ensures ParseNode(Flatten(n) + rest) == Some((n, rest))
    decreases n
  {
    hide FlattenAll;
    var items := Flatten(n) + rest;
    assert items[1..] == FlattenAll(n.entries) + ([NodeEnd] + rest);
    ParseFlattenAll(n.entries, rest);
    hide ParseEntries;
  }

  lemma {:induction false} ParseFlattenEntry(e: Entry, tail: seq<Item>)
    requires ParseEntries(tail).Some?
    ensures ParseEntries(FlattenEntry(e) + tail) == Some(([e] + ParseEntries(tail).value.0, ParseEntries(tail).value.1))
    decreases e
  {
    var items := FlattenEntry(e) + tail;
    match e
    case Value(name, value) =>
      assert items[1..] == tail;
    case Sub(node) =>
      ParseFlatten(node, tail);
      assert items[0] == NodeBegin(node.name);
      hide ParseNode, Flatten;
  }

  lemma {:induction false} ParseFlattenAll(es: seq<Entry>, rest: seq<Item>)
    ensures ParseEntries(FlattenAll(es) + ([NodeEnd] + rest)) == Some((es, rest))
    decreases es
  {
    var end := [NodeEnd] + rest;
    if es == [] {
      assert FlattenAll(es) + end == end && end[1..] == rest;
    } else {
      hide FlattenEntry, ParseEntries;
      ParseFlattenAll(es[1..], rest);
      ParseFlattenEntry(es[0], FlattenAll(es[1..]) + end);
      assert FlattenAll(es) + end == FlattenEntry(es[0]) + (FlattenAll(es[1..]) + end);
      assert es == [es[0]] + es[1..];
    }
  }

  /** What can be parsed is what the tree is written as: every complete node in a sequence of
      items is one tree, in one way. */
  lemma {:induction false} FlattenParse(items: seq<Item>)
    requires ParseNode(items).Some?
    ensures var p := ParseNode(items).value; items == Flatten(p.0) + p.1
    decreases |items|, 0
  {
    FlattenParseEntries(items[1..]);
    var p := ParseEntries(items[1..]).value;
    assert items == [items[0]] + items[1..];
    assert Flatten(ParseNode(items).value.0) == [items[0]] + FlattenAll(p.0) + [NodeEnd];
  }

  lemma {:induction false} FlattenParseEntries(items: seq<Item>)
    requires ParseEntries(items).Some?
    ensures var p := ParseEntries(items).value; items == FlattenAll(p.0) + ([NodeEnd] + p.1)
    decreases |items|, 1
  {
    var p := ParseEntries(items).value;
    if items[0].NodeEnd? {
      assert items == [NodeEnd] + items[1..];
    } else if items[0].Property? {
      FlattenParseEntries(items[1..]);
      assert p.0[1..] == ParseEntries(items[1..]).value.0;
      assert items == [items[0]] + items[1..];
    } else {
      FlattenParse(items);
      var n := ParseNode(items).value;
      FlattenParseEntries(n.1);
      assert p.0[1..] == ParseEntries(n.1).value.0;
    }
  }

  /** The items end exactly where d open nodes have been closed. */
  predicate Closes(items: seq<Item>, d: nat) {
    if d == 0 then items == []
    else items != [] && match items[0]
      case NodeBegin(_) => Closes(items[1..], d + 1)
      case Property(_, _) => Closes(items[1..], d)
      case NodeEnd => Closes(items[1..], d - 1)
  }

  /** Balanced calls with a single root. */
  predicate SingleRooted(items: seq<Item>) {
    items != [] && items[0].NodeBegin? && Closes(items[1..], 1)
  }

  /** What closes d + 1 nodes is the rest of one, and then what closes d. */
  lemma {:induction false} ClosesParses(items: seq<Item>, d: nat)
    requires Closes(items, d + 1)
    ensures ParseEntries(items).Some? && Closes(ParseEntries(items).value.1, d)
    decreases |items|
  {
    match items[0]
    case NodeBegin(_) =>
      ClosesParses(items[1..], d + 1);
      ClosesParses(ParseEntries(items[1..]).value.1, d);
    case Property(_, _) =>
      ClosesParses(items[1..], d);
    case NodeEnd =>
  }

  /** The tree that balanced, single-rooted calls write. */
  function TreeOf(items: seq<Item>): (n: Node)
    requires SingleRooted(items)
    ensures items == Flatten(n)
  {
    ClosesParses(items[1..], 0);
    FlattenParse(items);
    ParseNode(items).value.0
  }

  lemma {:induction false} FlattenAllCloses(es: seq<Entry>, rest: seq<Item>, d: nat)
    requires Closes(rest, d)
    ensures Closes(FlattenAll(es) + ([NodeEnd] + rest), d + 1)
    decreases es
  {
    if es == [] {
      assert FlattenAll(es) + ([NodeEnd] + rest) == [NodeEnd] + rest && ([NodeEnd] + rest)[1..] == rest;
    } else {
      FlattenAllCloses(es[1..], rest, d);
      var tail := FlattenAll(es[1..]) + ([NodeEnd] + rest);
      assert FlattenAll(es) + ([NodeEnd] + rest) == FlattenEntry(es[0]) + tail;
      EntryCloses(es[0], tail, d);
    }
  }

  lemma {:induction false} EntryCloses(e: Entry, tail: seq<Item>, d: nat)
    requires Closes(tail, d + 1)
    ensures Closes(FlattenEntry(e) + tail, d + 1)
    decreases e
  {
    match e
    case Value(name, value) =>
      assert ([Property(name, value)] + tail)[1..] == tail;
    case Sub(node) =>
      FlattenAllCloses(node.entries, tail, d + 1);
      var inner := FlattenAll(node.entries) + ([NodeEnd] + tail);
      assert Flatten(node) + tail == [NodeBegin(node.name)] + inner;
      assert ([NodeBegin(node.name)] + inner)[1..] == inner;
      hide FlattenAll;
  }

  /** The calls that write a tree, and only those, are balanced with a single root; the tree is
      determined by the calls. */
  lemma {:induction false} TreesAreBalanced(n: Node)
    ensures SingleRooted(Flatten(n)) && TreeOf(Flatten(n)) == n
  {
    FlattenAllCloses(n.entries, [], 0);
    assert Flatten(n)[1..] == FlattenAll(n.entries) + ([NodeEnd] + []);
    ParseFlatten(n, []);
    assert Flatten(n) + [] == Flatten(n);
  }

  /** A blob whose walk meets the calls that write a tree denotes exactly that tree. */
  ghost predicate Denotes(f: Fdt, n: Node)
    requires Sane(f)
  {
    Read(f, 0).Some? && ParseNode(Read(f, 0).value) == Some((n, []))
  }

  ghost predicate DenotesOnly(f: Fdt, n: Node)
    requires Sane(f)
  {
    Denotes(f, n) && forall m :: Denotes(f, m) ==> m == n
  }

  /** A blob that reads as balanced, single-rooted calls denotes their tree and no other. */
  lemma {:induction false} WrittenTree(f: Fdt, items: seq<Item>)
    requires Sane(f) && Read(f, 0) == Some(items) && SingleRooted(items)
    ensures DenotesOnly(f, TreeOf(items))
  {
    hide Read;
    ParseFlatten(TreeOf(items), []);
    assert Flatten(TreeOf(items)) + [] == items;
  }
}
