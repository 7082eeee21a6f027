/** Node names, subnode lookup, and paths. */
module FdtPath {
  import opened Common
  import opened FdtBlob
  import opened FdtReader
  import opened FdtWriter
  import opened FdtLayout
  import opened FdtNesting

  const FDT_ERR_BADPATH: int := 5
  const SLASH: Byte := 47
  const AT: Byte := 64

  /** The block is one node, and what follows its end tag is none of our concern. */
  ghost predicate Rooted(body: seq<Event>) {
    body != [] && body[0].Begin? && Close(body, 1, 0) != -1
  }

  /** The tag behind the end tag of the root. */
  ghost function RootEnd(body: seq<Event>): nat
    requires Rooted(body)
  {
    Close(body, 1, 0)
  }

  /** A node of the tree. */
  ghost predicate IsNode(body: seq<Event>, j: nat)
    requires Rooted(body)
  {
    j < RootEnd(body) && body[j].Begin?
  }

  // ---------------------------------------------------------------------------
  // The node walk
  // ---------------------------------------------------------------------------

  /** Where the node walk gets from a tag inside a node: to the next begin tag, or behind the end of the
      node; if the node is never closed, to the end of the block. */
  lemma {:induction false} WalkFinds(f: Fdt, body: seq<Event>, i: nat, d: nat)
    requires Block(f, body) && i <= |body| && d < |Stack(body, i)|
    ensures Sane(f)
    ensures var c, j, r := Close(body, i, d), NextBegin(body, i), WalkNode(f, Offset(body + [Finish], i), d);
            if j < |body| && (c == -1 || j < c)
            then r == (Offset(body + [Finish], j), d + |Stack(body, j)| - |Stack(body, i)| + 1)
            else if c == -1 then r.0 == -FDT_ERR_NOTFOUND && r.1 >= 0
            else r == (Offset(body + [Finish], c), -1)
    decreases |body| - i
  {
    hide Lies, NextTag, Offset, Size, Block, Stack;
    BlockStep(f, body, i);
    BlockSane(f, body);
    var es, L := body + [Finish], |Stack(body, i)|;
    if i < |body| {
      InBody(f, body, i);
      assert es[i] == body[i];
      StackStep(body, i);
      var L' := |Stack(body, i + 1)|;
      if body[i].End? {
        if d > 0 {
          WalkFinds(f, body, i + 1, d - 1);
          assert L' == L - 1;
        }
      } else if !body[i].Begin? {
        WalkFinds(f, body, i + 1, d);
        assert L' == L;
      }
    } else {
      assert es[i] == Finish;
    }
  }

  /** fdt_next_node from a begin tag is the walk from the tag behind it. */
  lemma {:induction false} NextWalks(f: Fdt, body: seq<Event>, x: nat, d: nat)
    requires Block(f, body) && x < |body| && body[x].Begin?
    ensures var es := body + [Finish];
            Sane(f) && NextNode(f, Offset(es, x), d) == WalkNode(f, Offset(es, x + 1), d)
  {
    hide Lies, NextTag, Offset, Size, Block, WalkNode;
    BlockSane(f, body);
    BlockStep(f, body, x);
    assert (body + [Finish])[x] == body[x];
  }

  /** fdt_next_node from a begin tag inside the node y, with the depth counted from y. */
  lemma {:induction false} NextInside(f: Fdt, body: seq<Event>, y: nat, x: nat)
    requires Block(f, body) && y < |body| && body[y].Begin? && y <= x < Reach(body, y) && x < |body| && body[x].Begin?
    ensures Sane(f) && |Stack(body, x)| >= |Stack(body, y)|
    ensures var es, c, j := body + [Finish], Close(body, y + 1, 0), NextBegin(body, x + 1);
            var r := NextNode(f, Offset(es, x), |Stack(body, x)| - |Stack(body, y)|);
            && (if j < |body| && j < Reach(body, y)
                then r == (Offset(es, j), |Stack(body, j)| - |Stack(body, y)|)
                  && |Stack(body, j)| > |Stack(body, y)| && Stack(body, j) <= Stack(body, x) + [x]
                else if c == -1 then r.0 == -FDT_ERR_NOTFOUND && r.1 >= 0
                else r == (Offset(es, c), -1))
            && Offset(es, x) < Offset(es, x + 1) <= f.sizeStruct
  {
    hide Lies, NextTag, Offset, Size, Block, Stack, WalkNode, Close, NextNode, NextBegin, TagOf;
    var j := NextBegin(body, x + 1);
    NoFinish(f, body);
    CloseBehind(body, y, x);
    NextWalks(f, body, x, |Stack(body, x)| - |Stack(body, y)|);
    WalkFinds(f, body, x + 1, |Stack(body, x)| - |Stack(body, y)|);
    StackShrinks(body, x + 1, j);
    OffsetInBlock(f, body, x);
    if j < |body| && j < Reach(body, y) {
      CloseFrom(body, y, j);
    }
  }

  lemma {:induction false} NoFinish(f: Fdt, body: seq<Event>)
    requires Block(f, body)
    ensures Finish !in body
  {
    hide AllLie, Offset;
  }

  lemma {:induction false} OffsetInBlock(f: Fdt, body: seq<Event>, x: nat)
    requires Block(f, body) && x < |body|
    ensures Sane(f) && Offset(body + [Finish], x) < Offset(body + [Finish], x + 1) <= f.sizeStruct
  {
    hide Lies, Offset;
    OffsetNext(body + [Finish], x);
    SizeLeast((body + [Finish])[x]);
  }

  lemma {:induction false} SizeLeast(e: Event)
    ensures Size(e) >= 4
  {
  }

  // ---------------------------------------------------------------------------
  // Names and subnodes
  // ---------------------------------------------------------------------------

  /** fdt_get_name. */
  function GetName(f: Fdt, offset: int): Option<Bytes>
    requires Sane(f)
  {
    if CheckNode(f, offset) < 0 || SkipName(f, offset + 4) == -1 then None
    else Some(f.bytes[f.offStruct + offset + 4..f.offStruct + SkipName(f, offset + 4) - 1])
  }

  /** The name of a node in a block. */
  lemma {:induction false} NameOfNode(f: Fdt, body: seq<Event>, i: nat)
    requires Block(f, body) && i < |body| && body[i].Begin?
    ensures Sane(f) && GetName(f, Offset(body + [Finish], i)) == Some(body[i].name)
  {
    hide NextTag, Offset, Block, Be32, SkipName, Size;
    BlockLies(f, body, i);
    BlockStep(f, body, i);
    var off := Offset(body + [Finish], i);
    NodeFits(f, body, i);
    TagAt(f, off, body[i]);
    NameBytes(f.bytes, f.offStruct + off + 4, body[i].name);
  }

  lemma {:induction false} NodeFits(f: Fdt, body: seq<Event>, i: nat)
    requires Block(f, body) && i < |body|
    ensures Sane(f) && f.offStruct + f.sizeStruct <= f.totalSize
    ensures Offset(body + [Finish], i) + Size(body[i]) <= f.sizeStruct
    ensures (body + [Finish])[i] == body[i]
  {
    hide Lies, Offset, Size;
    OffsetNext(body + [Finish], i);
  }

  lemma {:induction false} NameBytes(b: Bytes, at: nat, name: Bytes)
    requires HasBytes(b, at, name)
    ensures at + |name| <= |b| && b[at..at + |name|] == name
  {
  }

  /** fdt_nodename_eq_, as the code compares: the first |s| bytes, and then the byte behind them. */
  predicate NameEq(name: Bytes, s: Bytes) {
    |s| <= |name| && name[..|s|] == s && (|name| == |s| || (AT !in s && name[|s|] == AT))
  }

  /** The name is s, or s, which has no unit address, followed by one. */
  predicate GoesBy(name: Bytes, s: Bytes) {
    name == s || (AT !in s && s + [AT] <= name)
  }

  lemma {:induction false} NameEqMeans(name: Bytes, s: Bytes)
    ensures NameEq(name, s) <==> GoesBy(name, s)
  {
    if |name| > |s| {
      assert name[..|s| + 1] == name[..|s|] + [name[|s|]];
    }
  }

  /** The node j directly below y goes by the name s. */
  predicate Matches(body: seq<Event>, y: nat, j: nat, s: Bytes) {
    IsChild(body, y, j) && GoesBy(body[j].name, s)
  }

  lemma {:induction false} MatchesMeans(body: seq<Event>, y: nat, s: Bytes)
    ensures forall k: nat {:trigger IsChild(body, y, k)} {:trigger Matches(body, y, k, s)} ::
              Matches(body, y, k, s) <==>
              IsChild(body, y, k) && (body[k].name == s || (AT !in s && s + [AT] <= body[k].name))
  {
    hide IsChild;
  }

  /** The first of the subnodes of y that go by the name. */
  ghost predicate FirstMatch(body: seq<Event>, y: nat, s: Bytes, j: nat) {
    Matches(body, y, j, s) && forall k :: y < k < j ==> !Matches(body, y, k, s)
  }

  /** A begin tag one level below y, inside y, is a subnode of y. */
  lemma {:induction false} OneLevelDown(body: seq<Event>, y: nat, x: nat)
    requires y < |body| && body[y].Begin? && (Close(body, y + 1, 0) == -1 ==> Finish !in body)
    requires y < x < Reach(body, y) && x < |body| && body[x].Begin?
    ensures IsChild(body, y, x) <==> |Stack(body, x)| == |Stack(body, y)| + 1
  {
    hide Stack, Close;
    OpenWhile(body, y, x);
  }

  /** Outside of y there are no subnodes of y. */
  lemma {:induction false} ChildInside(body: seq<Event>, y: nat, x: nat)
    requires IsChild(body, y, x) && (Close(body, y + 1, 0) == -1 ==> Finish !in body)
    ensures y < x < Reach(body, y)
  {
    hide Stack, Close;
    OpenWhile(body, y, x);
    assert Stack(body, x)[|Stack(body, y)|] == y;
  }

  /** fdt_subnode_offset_namelen: the first subnode of the y-th tag whose name is s, or is s and a unit
      address, which counts only if s has none itself. An offset at which no node begins is an error. */
  method FdtSubnodeOffset(f: Fdt, offset: int, s: Bytes, ghost body: seq<Event>, ghost y: nat)
      returns (r: int, ghost j: nat)
    requires Block(f, body) && f.sizeStruct < INT_MAX - 4 && offset <= INT_MAX
    requires CheckNode(f, offset) >= 0 ==> y < |body| && body[y].Begin? && offset == Offset(body + [Finish], y)
    ensures CheckNode(f, offset) < 0 ==> r == if offset < 0 then offset else -FDT_ERR_BADOFFSET
    ensures CheckNode(f, offset) >= 0 ==>
              if r == -FDT_ERR_NOTFOUND then
                forall k: nat :: IsChild(body, y, k) ==>
                  body[k].name != s && (AT in s || !(s + [AT] <= body[k].name))
              else
                && r >= 0 && IsChild(body, y, j) && r == Offset(body + [Finish], j)
                && (body[j].name == s || (AT !in s && s + [AT] <= body[j].name))
                && forall k: nat :: y < k < j && IsChild(body, y, k) ==>
                     body[k].name != s && (AT in s || !(s + [AT] <= body[k].name))
  {
    hide Block, Offset, Stack, Close, NextNode, GetName, NameEq, NextTag, IsChild, CheckNode, Matches;
    MatchesMeans(body, y, s);
    j := y;
    BlockSane(f, body);
    r := offset;
    var depth := 0;
    ghost var node := CheckNode(f, offset) >= 0;
    if node {
      NoFinish(f, body);
      OffsetInBlock(f, body, y);
    } else {
      NoNodeNext(f, offset);
    }
    while r >= 0 && depth >= 0
      invariant node ==> y <= j <= Reach(body, y)
      invariant node && r >= 0 && depth >= 0 ==>
                  && j < |body| && j < Reach(body, y) && body[j].Begin? && r == Offset(body + [Finish], j)
                  && depth == |Stack(body, j)| - |Stack(body, y)| && r <= f.sizeStruct
      invariant node && r < 0 ==> r == -FDT_ERR_NOTFOUND
      invariant node && (r < 0 || depth < 0) ==> j == Reach(body, y)
      invariant node ==> forall k :: y < k < j ==> !Matches(body, y, k, s)
      invariant !node ==> depth == 0 && (r == offset || (offset >= 0 && r == -FDT_ERR_BADOFFSET))
      decreases if node then Reach(body, y) - j else if r >= 0 then 1 else 0
    {
      if node {
        NameOfNode(f, body, j);
        if j > y {
          OneLevelDown(body, y, j);
        }
      }
      if depth == 1 {
        var name := FdtGetName(f, r);
        if node {
          NameEqMeans(body[j].name, s);
        }
        if name.Some? && NameEq(name.value, s) {
          return;
        }
      }
      if node {
        NextInside(f, body, y, j);
        NoMatchBetween(body, y, j, s);
      }
      r, depth := FdtNextNode(f, r, depth);
      j := if !node then j else
           if NextBegin(body, j + 1) < |body| && NextBegin(body, j + 1) < Reach(body, y) then NextBegin(body, j + 1)
           else Reach(body, y);
      if node && r >= 0 && depth >= 0 {
        OffsetInBlock(f, body, j);
      }
    }
    if node {
      forall k: nat
        ensures !Matches(body, y, k, s)
      {
        if IsChild(body, y, k) {
          ChildInside(body, y, k);
        }
      }
    }
    if depth < 0 {
      r := -FDT_ERR_NOTFOUND;
    }
  }

  /** At an offset at which no node begins, the node walk does not start. */
  lemma {:induction false} NoNodeNext(f: Fdt, offset: int)
    requires Sane(f) && CheckNode(f, offset) < 0
    ensures offset >= 0 ==> NextNode(f, offset, 0) == (-FDT_ERR_BADOFFSET, 0)
  {
    hide NextTag;
  }

  /** Between two begin tags there is no node. */
  lemma {:induction false} NoMatchBetween(body: seq<Event>, y: nat, x: nat, s: Bytes)
    requires x < |body|
    ensures forall k: nat :: x < k && (k < NextBegin(body, x + 1) || k >= |body|) ==> !Matches(body, y, k, s)
  {
    hide Stack, GoesBy;
  }

  method FdtGetName(f: Fdt, offset: int) returns (r: Option<Bytes>)
    requires Sane(f) && offset <= INT_MAX
    ensures r == GetName(f, offset)
  {
    hide NextTag;
    var next := FdtCheckNodeOffset(f, offset);
    if next < 0 {
      return None;
    }
    NodeWord(f, offset);
    var end := SkipNameLoop(f, offset + 4);
    if end == -1 {
      return None;
    }
    return Some(f.bytes[f.offStruct + offset + 4..f.offStruct + end - 1]);
  }

  lemma {:induction false} NodeWord(f: Fdt, offset: int)
    requires Sane(f) && CheckNode(f, offset) >= 0
    ensures 0 <= offset && offset + 4 <= f.sizeStruct && f.offStruct + f.sizeStruct >= f.offStruct
  {
    hide WordAt, TagEnd;
  }

  // ---------------------------------------------------------------------------
  // Paths
  // ---------------------------------------------------------------------------

  /** The names of nodes, each with a slash behind it. */
  function Printed(body: seq<Event>, st: seq<nat>): Bytes
    requires forall k :: 0 <= k < |st| ==> st[k] < |body| && body[st[k]].Begin?
  {
    if st == [] then [] else Printed(body, st[..|st| - 1]) + body[st[|st| - 1]].name + [SLASH]
  }

  /** All entries are begin tags. */
  ghost predicate Begins(body: seq<Event>, st: seq<nat>) {
    forall k :: 0 <= k < |st| ==> st[k] < |body| && body[st[k]].Begin?
  }

  /** How many of the names, from the first on, can be printed into n bytes. */
  function Fits(body: seq<Event>, st: seq<nat>, n: nat): (k: nat)
    requires forall k :: 0 <= k < |st| ==> st[k] < |body| && body[st[k]].Begin?
    ensures k <= |st|
  {
    if st == [] then 0 else
    var k := Fits(body, st[..|st| - 1], n);
    if k == |st| - 1 && |Printed(body, st)| <= n then |st| else k
  }

  /** For the beginning of a path the same names fit. */
  lemma {:induction false} FitsPrefix(body: seq<Event>, st: seq<nat>, n: nat, m: nat)
    requires Begins(body, st) && m <= |st|
    ensures Begins(body, st[..m]) && Fits(body, st[..m], n) == if Fits(body, st, n) < m then Fits(body, st, n) else m
    decreases |st|
  {
    if m < |st| {
      FitsPrefix(body, st[..|st| - 1], n, m);
      assert st[..|st| - 1][..m] == st[..m];
    } else {
      assert st[..m] == st;
    }
  }

  lemma {:induction false} PrintedGrows(body: seq<Event>, st: seq<nat>, m: nat)
    requires Begins(body, st) && m <= |st|
    ensures Begins(body, st[..m]) && |Printed(body, st[..m])| <= |Printed(body, st)|
    decreases |st|
  {
    if m < |st| {
      PrintedGrows(body, st[..|st| - 1], m);
      assert st[..|st| - 1][..m] == st[..m];
    } else {
      assert st[..m] == st;
    }
  }

  /** All names fit exactly if there is room for them. */
  lemma {:induction false} AllFit(body: seq<Event>, st: seq<nat>, n: nat)
    requires Begins(body, st)
    ensures Fits(body, st, n) == |st| <==> |Printed(body, st)| <= n || st == []
    ensures |Printed(body, st[..Fits(body, st, n)])| <= n
    decreases |st|
  {
    if st != [] {
      AllFit(body, st[..|st| - 1], n);
      PrintedGrows(body, st, |st| - 1);
      assert st[..|st|] == st;
      var k := Fits(body, st[..|st| - 1], n);
      assert st[..|st| - 1][..k] == st[..k];
    }
  }

  /** The path of a node: a slash for the root, otherwise the names from the root on with a slash
      between them. */
  function PathOf(body: seq<Event>, st: seq<nat>): Bytes
    requires forall k :: 0 <= k < |st| ==> st[k] < |body| && body[st[k]].Begin?
  {
    var s := Printed(body, st);
    if |s| > 1 then s[..|s| - 1] else s
  }

  /** No name has a slash in it. */
  ghost predicate SlashFree(body: seq<Event>) {
    forall i :: 0 <= i < |body| && body[i].Begin? ==> SLASH !in body[i].name
  }

  /** The last name printed, and what is printed before it. */
  lemma {:induction false} LastPrinted(body: seq<Event>, st: seq<nat>)
    requires Begins(body, st) && st != []
    ensures var low, name := st[..|st| - 1], body[st[|st| - 1]].name;
            && Begins(body, low) && Printed(body, st) == Printed(body, low) + name + [SLASH]
            && (low != [] ==> Printed(body, low) != [] && Printed(body, low)[|Printed(body, low)| - 1] == SLASH)
  {
  }

  /** The buffer begins with the printed names. */
  ghost predicate HoldsPath(out: seq<Byte>, body: seq<Event>, st: seq<nat>, p: nat) {
    Begins(body, st) && p == |Printed(body, st)| <= |out| && out[..p] == Printed(body, st)
  }

  /** The bytes of the last name. */
  lemma {:induction false} LastBytes(out: seq<Byte>, body: seq<Event>, st: seq<nat>, p: nat)
    requires HoldsPath(out, body, st, p) && |st| > 1 && SlashFree(body)
    ensures Begins(body, st[..|st| - 1])
    ensures var q := |Printed(body, st[..|st| - 1])|;
            && HoldsPath(out, body, st[..|st| - 1], q) && 0 < q < p && out[q - 1] == SLASH
            && p == q + |body[st[|st| - 1]].name| + 1
            && forall k :: q <= k < p - 1 ==> out[k] != SLASH
  {
    LastPrinted(body, st);
    var low, name := st[..|st| - 1], body[st[|st| - 1]].name;
    var s, q := Printed(body, low), |Printed(body, low)|;
    assert out[..p] == s + name + [SLASH];
    hide Printed;
    assert out[..q] == out[..p][..q] == s;
    assert out[q - 1] == out[..q][q - 1];
    forall k | q <= k < p - 1
      ensures out[k] != SLASH
    {
      assert out[k] == out[..p][k] == name[k - q];
    }
  }

  /** Takes the last name off again: back to the slash before it. */
  method PopName(out: array<Byte>, p: nat, ghost body: seq<Event>, ghost st: seq<nat>) returns (q: nat)
    requires HoldsPath(out[..], body, st, p) && |st| > 1 && SlashFree(body)
    ensures HoldsPath(out[..], body, st[..|st| - 1], q)
  {
    hide HoldsPath, SlashFree;
    LastBytes(out[..], body, st, p);
    ghost var low := |Printed(body, st[..|st| - 1])|;
    PathFits(out[..], body, st, p);
    q := p - 1;
    while out[q - 1] != SLASH
      invariant low <= q < p
      decreases q
    {
      q := q - 1;
    }
  }

  lemma {:induction false} PathFits(out: seq<Byte>, body: seq<Event>, st: seq<nat>, p: nat)
    requires HoldsPath(out, body, st, p)
    ensures p <= |out|
  {
  }

  /** Takes names off until no more than depth are left. */
  method PopNames(out: array<Byte>, p0: nat, pdepth0: nat, depth: nat, ghost body: seq<Event>, ghost st: seq<nat>)
      returns (p: nat, pdepth: nat)
    requires pdepth0 <= |st| && HoldsPath(out[..], body, st[..pdepth0], p0) && SlashFree(body)
    requires (pdepth0 > depth ==> depth > 0)
    ensures pdepth == (if pdepth0 > depth then depth else pdepth0) && HoldsPath(out[..], body, st[..pdepth], p)
  {
    hide HoldsPath, SlashFree;
    p, pdepth := p0, pdepth0;
    while pdepth > depth
      invariant pdepth <= pdepth0 && (pdepth0 > depth ==> pdepth >= depth) && (pdepth0 <= depth ==> pdepth == pdepth0)
      invariant HoldsPath(out[..], body, st[..pdepth], p)
    {
      assert st[..pdepth][..pdepth - 1] == st[..pdepth - 1];
      p := PopName(out, p, body, st[..pdepth]);
      pdepth := pdepth - 1;
    }
  }

  /** A name and a slash, if there is room for them. */
  method PushName(out: array<Byte>, p0: nat, name: Bytes, ghost body: seq<Event>, ghost st: seq<nat>, ghost x: nat)
      returns (p: nat, pushed: bool)
    requires HoldsPath(out[..], body, st, p0) && x < |body| && body[x].Begin? && body[x].name == name
    modifies out
    ensures pushed <==> |Printed(body, st)| + |name| + 1 <= out.Length
    ensures HoldsPath(out[..], body, if pushed then st + [x] else st, p)
  {
    p, pushed := p0, false;
    if p + |name| + 1 <= out.Length {
      MorePrinted(body, st, x);
      PutBytes(out, p, name + [SLASH]);
      p, pushed := p + |name| + 1, true;
      assert out[..p] == old(out[..])[..p0] + name + [SLASH];
      assert old(out[..])[..p0] == old(out[..p0]);
    }
  }

  lemma {:induction false} MorePrinted(body: seq<Event>, st: seq<nat>, x: nat)
    requires Begins(body, st) && x < |body| && body[x].Begin?
    ensures Begins(body, st + [x]) && Printed(body, st + [x]) == Printed(body, st) + body[x].name + [SLASH]
  {
    assert (st + [x])[..|st|] == st;
  }

  /** The names down to the last node met, as far as they fit, are in the buffer; the nodes met so far
      are not the one looked for. */
  ghost predicate PathState(out: seq<Byte>, body: seq<Event>, x: nat, st: seq<nat>, pdepth: nat, p: nat)
    requires Rooted(body)
  {
    && Begins(body, st) && pdepth == Fits(body, st, |out|) && HoldsPath(out, body, st[..pdepth], p)
    && (x == 0 ==> st == []) && (x < |body| && IsNode(body, x) ==> Stack(body, x) <= st)
  }

  /** Everything down to a node is open at it. */
  lemma {:induction false} NodeStack(body: seq<Event>, x: nat)
    requires Rooted(body) && IsNode(body, x)
    ensures x < |body| && Begins(body, Stack(body, x)) && Begins(body, Stack(body, x) + [x])
    ensures Stack(body, x + 1) == Stack(body, x) + [x]
    ensures (x > 0 ==> Stack(body, x) != [] && Stack(body, x)[0] == 0) && (x == 0 ==> Stack(body, x) == [])
  {
    hide Close;
    StackStep(body, x);
    assert Stack(body, 0) == [];
    OpenWhile(body, 0, x);
    if x > 0 {
      assert ([] + [0])[0] == 0;
    }
  }

  /** Taking names off down to the depth of the next node leaves what fits of the names above it. */
  lemma {:induction false} Popped(body: seq<Event>, st: seq<nat>, n: nat, x: nat)
    requires Rooted(body) && IsNode(body, x) && Begins(body, st) && Stack(body, x) <= st
    ensures var k, d := Fits(body, st, n), |Stack(body, x)|;
            var k' := if k > d then d else k;
            && k' <= d && st[..k'] == Stack(body, x)[..k'] && Begins(body, Stack(body, x))
            && k' == Fits(body, Stack(body, x), n)
  {
    hide Stack, Printed;
    var d := |Stack(body, x)|;
    assert st[..d] == Stack(body, x);
    FitsPrefix(body, st, n, d);
  }

  /** Adding the name of the node, if there is room, leaves what fits of the names down to it. */
  lemma {:induction false} Pushed(body: seq<Event>, st: seq<nat>, n: nat, x: nat)
    requires Begins(body, st) && x < |body| && body[x].Begin?
    ensures Begins(body, st + [x])
    ensures var k := Fits(body, st, n);
            Fits(body, st + [x], n) == if k == |st|
                && |Printed(body, st)| + |body[x].name| + 1 <= n then |st| + 1 else k
    ensures (st + [x])[..Fits(body, st, n)] == st[..Fits(body, st, n)]
  {
    MorePrinted(body, st, x);
    assert (st + [x])[..|st|] == st;
  }

  /** One turn of the loop of fdt_get_path before the comparison: names of nodes that are no longer
      open come off, the name of the node goes on. */
  method VisitNode(f: Fdt, out: array<Byte>, p0: nat, pdepth0: nat, depth: nat, offset: nat, ghost body: seq<Event>,
                   ghost x: nat, ghost st: seq<nat>)
      returns (p: nat, pdepth: nat)
    requires Block(f, body) && Rooted(body) && SlashFree(body) && IsNode(body, x)
    requires PathState(out[..], body, x, st, pdepth0, p0)
    requires depth == |Stack(body, x)| && offset == Offset(body + [Finish], x) && offset <= INT_MAX
    modifies out
    ensures Begins(body, Stack(body, x) + [x]) && pdepth == Fits(body, Stack(body, x) + [x], out.Length)
    ensures HoldsPath(out[..], body, (Stack(body, x) + [x])[..pdepth], p)
  {
    hide Block, Offset, Stack, Close, GetName, HoldsPath, SlashFree, Fits, Printed, NextTag;
    ghost var path := Stack(body, x);
    NodeStack(body, x);
    NameOfNode(f, body, x);
    Popped(body, st, out.Length, x);
    p, pdepth := PopNames(out, p0, pdepth0, depth, body, st);
    Pushed(body, path, out.Length, x);
    if pdepth >= depth {
      var name := FdtGetName(f, offset);
      assert path[..pdepth] == path;
      ghost var n := |Printed(body, path)|;
      var pushed;
      p, pushed := PushName(out, p, name.value, body, path, x);
      if pushed {
        pdepth := pdepth + 1;
        assert (path + [x])[..pdepth] == path + [x];
      }
    }
  }

  /** A NUL-terminated string at the start of a buffer. */
  ghost predicate Terminated(out: seq<Byte>, path: Bytes) {
    |path| < |out| && out[..|path|] == path && out[|path|] == 0
  }

  lemma {:induction false} StartState(out: seq<Byte>, body: seq<Event>)
    requires Rooted(body)
    ensures PathState(out, body, 0, [], 0, 0)
  {
    assert Stack(body, 0) == [];
  }

  lemma {:induction false} RootFirst(body: seq<Event>)
    requires Rooted(body)
    ensures IsNode(body, 0) && 0 < RootEnd(body) <= |body| && Stack(body, 0) == []
  {
  }

  lemma {:induction false} NoNodeBetween(body: seq<Event>, x: nat)
    requires Rooted(body) && x < |body|
    ensures forall k :: x < k < NextBegin(body, x + 1) ==> !IsNode(body, k)
  {
  }

  lemma {:induction false} NextState(out: seq<Byte>, body: seq<Event>, x: nat, next: nat, st: seq<nat>, pdepth: nat,
                                     p: nat)
    requires Rooted(body) && x < next && Begins(body, st) && pdepth == Fits(body, st, |out|)
    requires HoldsPath(out, body, st[..pdepth], p)
    requires next < |body| && IsNode(body, next) ==> Stack(body, next) <= st
    ensures PathState(out, body, next, st, pdepth, p)
  {
  }

  lemma {:induction false} NoneLater(body: seq<Event>, j: nat)
    requires Rooted(body) && j <= RootEnd(body) <= |body|
    ensures forall k :: j <= k && IsNode(body, k) ==> Offset(body + [Finish], k) >= Offset(body + [Finish], j)
  {
    hide Offset, Close;
    forall k | j <= k && IsNode(body, k)
      ensures Offset(body + [Finish], k) >= Offset(body + [Finish], j)
    {
      OffsetGrows(body + [Finish], j, k);
    }
  }

  /** The end of fdt_get_path: the last slash gives way to the NUL, unless it is the only one. */
  method FinishPath(out: array<Byte>, p: nat, pdepth: nat, depth: nat, ghost body: seq<Event>, ghost st: seq<nat>)
      returns (r: int)
    requires out.Length >= 2 && Begins(body, st) && |st| == depth + 1 && pdepth == Fits(body, st, out.Length)
    requires HoldsPath(out[..], body, st[..pdepth], p)
    modifies out
    ensures if |Printed(body, st)| <= out.Length then r == 0 && Terminated(out[..], PathOf(body, st))
            else r == -FDT_ERR_NOSPACE
  {
    hide Fits, Printed;
    AllFit(body, st, out.Length);
    if pdepth < depth + 1 {
      return -FDT_ERR_NOSPACE;
    }
    assert st[..pdepth] == st;
    var n := if p > 1 then p - 1 else p;
    assert out[..n] == out[..][..p][..n];
    out[n] := 0;
    return 0;
  }

  /** fdt_get_path of an offset within the root node: the path of the node that starts there, with a
      NUL, if the names with their slashes fit in the buffer. */
  method FdtGetPath(f: Fdt, nodeoffset: int, out: array<Byte>, ghost body: seq<Event>) returns (r: int, ghost j: nat)
    requires Block(f, body) && f.sizeStruct < INT_MAX - 4 && Rooted(body) && SlashFree(body)
    requires nodeoffset < Offset(body + [Finish], RootEnd(body))
    modifies out
    ensures out.Length < 2 ==> r == -FDT_ERR_NOSPACE
    ensures out.Length >= 2 && r == -FDT_ERR_BADOFFSET ==>
              forall k: nat :: IsNode(body, k) ==> Offset(body + [Finish], k) != nodeoffset
    ensures out.Length >= 2 && r != -FDT_ERR_BADOFFSET ==>
              && IsNode(body, j) && Offset(body + [Finish], j) == nodeoffset && Begins(body, Stack(body, j) + [j])
              && var st := Stack(body, j) + [j];
                 if |Printed(body, st)| <= out.Length then r == 0 && Terminated(out[..], PathOf(body, st))
                 else r == -FDT_ERR_NOSPACE
  {
    hide Block, Offset, Stack, Close, NextNode, HoldsPath, SlashFree, Fits, Printed, NextTag, PathState;
    j := 0;
    if out.Length < 2 {
      return -FDT_ERR_NOSPACE, j;
    }
    ghost var c, st := RootEnd(body), [];
    var pdepth, p := 0, 0;
    var offset: int, depth: int := 0, 0;
    StartState(out[..], body);
    OffsetInBlock(f, body, 0);
    OffsetZero(body + [Finish]);
    RootFirst(body);
    OffsetInBlock(f, body, c - 1);
    while offset >= 0 && offset <= nodeoffset
      invariant 0 <= j <= c <= |body| && Sane(f) && offset <= f.sizeStruct
      invariant j < c ==>
                  && IsNode(body, j) && offset == Offset(body + [Finish], j) && depth == |Stack(body, j)|
                  && PathState(out[..], body, j, st, pdepth, p)
      invariant j == c ==> offset == Offset(body + [Finish], c)
      invariant forall k: nat :: k < j && IsNode(body, k) ==> Offset(body + [Finish], k) != nodeoffset
      decreases c - j
    {
      p, pdepth := VisitNode(f, out, p, pdepth, depth, offset, body, j, st);
      st := Stack(body, j) + [j];
      if offset == nodeoffset {
        r := FinishPath(out, p, pdepth, depth, body, st);
        return;
      }
      NextInside(f, body, 0, j);
      NoNodeBetween(body, j);
      NodeStack(body, j);
      ghost var next := NextBegin(body, j + 1);
      offset, depth := FdtNextNode(f, offset, depth);
      NextState(out[..], body, j, next, st, pdepth, p);
      j := if next < c then next else c;
      if j < c {
        OffsetInBlock(f, body, j);
      }
    }
    NoneLater(body, j);
    r := -FDT_ERR_BADOFFSET;
  }

  // ---------------------------------------------------------------------------
  // Looking a path up
  // ---------------------------------------------------------------------------

  /** Where the first slash is; the length if there is none. */
  function SlashIndex(s: Bytes): (q: nat)
    ensures q <= |s| && SLASH !in s[..q] && (q < |s| ==> s[q] == SLASH)
  {
    if s == [] || s[0] == SLASH then 0 else
    var q := SlashIndex(s[1..]);
    assert s[..q + 1] == [s[0]] + s[1..][..q];
    q + 1
  }

  /** The parts of a path between its slashes, without empty ones. */
  function Components(s: Bytes): seq<Bytes>
    decreases |s|
  {
    if s == [] then []
    else if s[0] == SLASH then Components(s[1..])
    else
      var q := SlashIndex(s);
      [s[..q]] + Components(s[q..])
  }

  /** The first subnode of y that goes by the name, if there is one. */
  ghost function FirstChild(body: seq<Event>, y: nat, s: Bytes): Option<nat> {
    if j: nat :| FirstMatch(body, y, s, j) then Some(j) else None
  }

  lemma {:induction false} ChildIsFirst(body: seq<Event>, y: nat, s: Bytes, j: nat)
    requires FirstMatch(body, y, s, j)
    ensures FirstChild(body, y, s) == Some(j)
  {
    forall k: nat | FirstMatch(body, y, s, k)
      ensures k == j
    {
      ChildLater(body, y, k);
      ChildLater(body, y, j);
    }
  }

  lemma {:induction false} ChildLater(body: seq<Event>, y: nat, j: nat)
    requires IsChild(body, y, j)
    ensures y < j
  {
    assert Stack(body, j)[|Stack(body, y)|] == y;
  }

  /** If any subnode goes by the name, there is a first one. */
  lemma {:induction false} SomeFirst(body: seq<Event>, y: nat, s: Bytes, j: nat)
    requires Matches(body, y, j, s)
    ensures FirstChild(body, y, s).Some? && FirstMatch(body, y, s, FirstChild(body, y, s).value)
    ensures FirstChild(body, y, s).value <= j
    decreases j
  {
    if k: nat :| y < k < j && Matches(body, y, k, s) {
      SomeFirst(body, y, s, k);
    } else {
      assert FirstMatch(body, y, s, j);
      ChildIsFirst(body, y, s, j);
    }
  }

  /** Where the names of a path lead from the node y. */
  ghost function Follow(body: seq<Event>, y: nat, names: seq<Bytes>): Option<nat>
    decreases |names|
  {
    if names == [] then Some(y)
    else match FirstChild(body, y, names[0])
      case None => None
      case Some(j) => Follow(body, j, names[1..])
  }

  /** A subnode of a node is a node. */
  lemma {:induction false} ChildIsNode(body: seq<Event>, y: nat, j: nat)
    requires Rooted(body) && IsNode(body, y) && IsChild(body, y, j)
    ensures IsNode(body, j) && Close(body, y + 1, 0) != -1 && y < j && Close(body, j + 1, 0) <= Close(body, y + 1, 0)
    ensures Close(body, j + 1, 0) != -1
  {
    hide Stack, Close;
    CloseBehind(body, 0, y);
    ChildInside(body, y, j);
    CloseBehind(body, y, j);
  }

  /** fdt_path_offset_namelen of an absolute path: node by node along its components. */
  method FdtPathOffset(f: Fdt, path: Bytes, ghost body: seq<Event>) returns (r: int)
    requires Block(f, body) && f.sizeStruct < INT_MAX - 4 && Rooted(body) && (path != [] ==> path[0] == SLASH)
    ensures path == [] ==> r == -FDT_ERR_BADPATH
    ensures path != [] ==>
              match Follow(body, 0, Components(path))
              case None => r == -FDT_ERR_NOTFOUND
              case Some(j) => IsNode(body, j) && r == Offset(body + [Finish], j)
  {
    hide Block, Offset, Stack, Close, FirstChild, Components;
    if path == [] {
      return -FDT_ERR_BADPATH;
    }
    ghost var y: nat, goal := 0, Follow(body, 0, Components(path));
    r := 0;
    OffsetZero(body + [Finish]);
    RootFirst(body);
    var p := 0;
    assert path[0..] == path;
    while p < |path|
      invariant p <= |path| && IsNode(body, y) && y < |body| && r == Offset(body + [Finish], y) && r >= 0
      invariant Follow(body, y, Components(path[p..])) == goal
      decreases |path| - p
    {
      while path[p] == SLASH
        invariant p < |path| && Follow(body, y, Components(path[p..])) == goal
        decreases |path| - p
      {
        SlashDropped(path, p);
        p := p + 1;
        if p == |path| {
          NoComponents();
          assert path[p..] == [];
          return;
        }
      }
      var q := p;
      while q < |path| && path[q] != SLASH
        invariant p <= q <= |path| && SLASH !in path[p..q]
      {
        q := q + 1;
      }
      ComponentTaken(path, p, q);
      NodeStarts(f, body, y);
      ghost var j;
      r, j := FdtSubnodeOffset(f, r, path[p..q], body, y);
      if r < 0 {
        NoChild(body, y, path[p..q]);
        return;
      }
      ChildIsFirst(body, y, path[p..q], j);
      ChildIsNode(body, y, j);
      y := j;
      p := q;
    }
    NoComponents();
    assert path[p..] == [];
  }

  lemma {:induction false} NodeStarts(f: Fdt, body: seq<Event>, y: nat)
    requires Block(f, body) && y < |body| && body[y].Begin?
    ensures Sane(f) && CheckNode(f, Offset(body + [Finish], y)) >= 0 && Offset(body + [Finish], y) <= f.sizeStruct
  {
    hide Block, Offset, NextTag;
    BlockStep(f, body, y);
    OffsetInBlock(f, body, y);
    assert (body + [Finish])[y] == body[y];
  }

  lemma {:induction false} NoComponents()
    ensures Components([]) == []
  {
  }

  lemma {:induction false} SlashDropped(path: Bytes, p: nat)
    requires p < |path| && path[p] == SLASH
    ensures Components(path[p..]) == Components(path[p + 1..])
  {
    assert path[p..][1..] == path[p + 1..];
  }

  lemma {:induction false} ComponentTaken(path: Bytes, p: nat, q: nat)
    requires p < q <= |path| && SLASH !in path[p..q] && (q < |path| ==> path[q] == SLASH)
    ensures Components(path[p..]) == [path[p..q]] + Components(path[q..])
  {
    var s := path[p..];
    SlashAt(s, q - p);
    assert s[..q - p] == path[p..q] && s[q - p..] == path[q..] && s[0] == path[p..q][0];
  }

  lemma {:induction false} SlashAt(s: Bytes, q: nat)
    requires q <= |s| && SLASH !in s[..q] && (q < |s| ==> s[q] == SLASH)
    ensures SlashIndex(s) == q
  {
    if q > 0 {
      assert s[..q] == [s[0]] + s[1..][..q - 1];
      SlashAt(s[1..], q - 1);
    }
  }

  lemma {:induction false} FirstPart(s: Bytes)
    ensures s != [] && s[0] == SLASH ==> Components(s) == Components(s[1..])
    ensures s != [] && s[0] != SLASH ==>
              Components(s) == [s[..SlashIndex(s)]] + Components(s[SlashIndex(s)..]) && SlashIndex(s) > 0
  {
  }

  /** A slash parts a path, whatever is on its two sides: empty parts add nothing. */
  lemma {:induction false} SlashParts(a: Bytes, b: Bytes)
    ensures Components(a + [SLASH] + b) == Components(a) + Components(b)
    decreases |a|
  {
    NoComponents();
    var s := a + [SLASH] + b;
    FirstPart(a);
    FirstPart(s);
    hide Components;
    if a == [] {
      assert s[1..] == b;
    } else if a[0] == SLASH {
      assert s[1..] == a[1..] + [SLASH] + b;
      SlashParts(a[1..], b);
    } else {
      var q := SlashIndex(a);
      assert s[..q] == a[..q] && s[q..] == a[q..] + [SLASH] + b;
      SlashAt(s, q);
      SlashParts(a[q..], b);
    }
  }

  lemma {:induction false} NoChild(body: seq<Event>, y: nat, s: Bytes)
    requires forall k: nat :: !Matches(body, y, k, s)
    ensures FirstChild(body, y, s) == None
  {
  }

  // ---------------------------------------------------------------------------
  // The way there and back
  // ---------------------------------------------------------------------------

  /** The root has no name, and every other node has one without slashes and NULs. */
  ghost predicate GoodNames(body: seq<Event>) {
    && body != [] && body[0].Begin? && body[0].name == []
    && forall i ::
         0 < i < |body| && body[i].Begin? ==> body[i].name != [] && SLASH !in body[i].name && 0 !in body[i].name
  }

  /** The names of nodes. */
  function NamesOf(body: seq<Event>, st: seq<nat>): (names: seq<Bytes>)
    requires forall k :: 0 <= k < |st| ==> st[k] < |body| && body[st[k]].Begin?
    ensures |names| == |st| && forall k :: 0 <= k < |st| ==> names[k] == body[st[k]].name
  {
    if st == [] then [] else NamesOf(body, st[..|st| - 1]) + [body[st[|st| - 1]].name]
  }

  /** Each name with a slash before it. */
  function Joined(names: seq<Bytes>): Bytes {
    if names == [] then [] else [SLASH] + names[0] + Joined(names[1..])
  }

  lemma {:induction false} JoinedMore(names: seq<Bytes>, name: Bytes)
    ensures Joined(names + [name]) == Joined(names) + [SLASH] + name
  {
    if names == [] {
      assert [name][1..] == [];
    } else {
      assert (names + [name])[1..] == names[1..] + [name];
      JoinedMore(names[1..], name);
    }
  }

  lemma {:induction false} NamesMore(body: seq<Event>, st: seq<nat>)
    requires Begins(body, st) && |st| > 1
    ensures Begins(body, st[1..]) && Begins(body, st[..|st| - 1][1..])
    ensures NamesOf(body, st[1..]) == NamesOf(body, st[..|st| - 1][1..]) + [body[st[|st| - 1]].name]
  {
    assert st[..|st| - 1][1..] == st[1..][..|st[1..]| - 1];
  }

  /** What is printed for a path, from its other end. */
  lemma {:induction false} PrintedJoined(body: seq<Event>, st: seq<nat>)
    requires Begins(body, st) && st != [] && body[st[0]].name == []
    ensures Begins(body, st[1..]) && Printed(body, st) == Joined(NamesOf(body, st[1..])) + [SLASH]
  {
    var low, last := st[..|st| - 1], st[|st| - 1];
    if |st| > 1 {
      PrintedJoined(body, low);
      NamesMore(body, st);
      hide NamesOf, Joined;
      JoinedMore(NamesOf(body, low[1..]), body[last].name);
    } else {
      assert low == [] && st[1..] == [];
      assert Printed(body, []) == [];
    }
  }

  lemma {:induction false} FirstName(name: Bytes, rest: Bytes)
    requires name != [] && SLASH !in name && (rest == [] || rest[0] == SLASH)
    ensures Components(name + rest) == [name] + Components(rest)
  {
    SlashAt(name + rest, |name|);
    assert (name + rest)[..|name|] == name && (name + rest)[|name|..] == rest && (name + rest)[0] == name[0];
  }

  /** Splitting at the slashes gives the names back. */
  lemma {:induction false} JoinedSplits(names: seq<Bytes>)
    requires forall k :: 0 <= k < |names| ==> names[k] != [] && SLASH !in names[k]
    ensures Components(Joined(names)) == names
  {
    NoComponents();
    hide Components;
    if names != [] {
      var rest := Joined(names[1..]);
      JoinedSplits(names[1..]);
      FirstName(names[0], rest);
      assert Joined(names) == [SLASH] + (names[0] + rest) && Joined(names)[1..] == names[0] + rest;
      SlashDropped(Joined(names), 0);
      assert Joined(names)[0..] == Joined(names);
      assert names == [names[0]] + names[1..];
    }
  }

  /** The path of a node splits into the names below the root. */
  lemma {:induction false} PathSplits(body: seq<Event>, st: seq<nat>)
    requires Begins(body, st) && st != [] && st[0] == 0 && GoodNames(body) && forall k :: 0 < k < |st| ==> st[k] > 0
    ensures PathOf(body, st) != [] && PathOf(body, st)[0] == SLASH && 0 !in PathOf(body, st)
    ensures Begins(body, st[1..]) && Components(PathOf(body, st)) == NamesOf(body, st[1..])
  {
    PrintedJoined(body, st);
    var names := NamesOf(body, st[1..]);
    JoinedSplits(names);
    NoNul(names);
    hide Components;
    if names == [] {
      assert PathOf(body, st) == [SLASH] == [SLASH] + [];
      SlashDropped([SLASH], 0);
      assert [SLASH][0..] == [SLASH] && [SLASH][1..] == [];
      NoComponents();
    } else {
      assert PathOf(body, st) == Joined(names);
    }
  }

  lemma {:induction false} NoNul(names: seq<Bytes>)
    requires forall k :: 0 <= k < |names| ==> 0 !in names[k]
    ensures 0 !in Joined(names)
  {
    if names != [] {
      NoNul(names[1..]);
    }
  }

  /** The entries of a stack lie below one another. */
  lemma {:induction false} StackChain(es: seq<Event>, x: nat, k: nat)
    requires x <= |es| && k < |Stack(es, x)|
    ensures Stack(es, Stack(es, x)[k]) == Stack(es, x)[..k]
    decreases x
  {
    StackStep(es, x - 1);
    var st := Stack(es, x - 1);
    if k < |st| {
      StackChain(es, x - 1, k);
      assert Stack(es, x)[..k] == st[..k];
    } else {
      assert Stack(es, x)[..k] == st;
    }
  }

  /** At no step of the way to a node does an earlier subnode go by the name. */
  ghost predicate Unambiguous(body: seq<Event>, st: seq<nat>)
    requires forall k :: 0 <= k < |st| ==> st[k] < |body| && body[st[k]].Begin?
  {
    forall m :: 0 < m < |st| ==> Clear(body, st[m - 1], st[m])
  }

  /** No subnode of y before c has the name of c, or, if that has no unit address, that name and one. */
  ghost predicate Clear(body: seq<Event>, y: nat, c: nat)
    requires c < |body| && body[c].Begin?
  {
    forall k: nat :: y < k < c && IsChild(body, y, k) ==>
      body[k].name != body[c].name && (AT in body[c].name || !(body[c].name + [AT] <= body[k].name))
  }

  /** A path of nodes, each a subnode of the one before. */
  ghost predicate IsWay(body: seq<Event>, st: seq<nat>)
    requires Rooted(body)
  {
    && st != [] && (forall k :: 0 <= k < |st| ==> IsNode(body, st[k]) && st[k] < |body| && body[st[k]].Begin?)
    && forall m :: 0 < m < |st| ==> IsChild(body, st[m - 1], st[m])
  }

  lemma {:induction false} GoesByItself(name: Bytes)
    ensures GoesBy(name, name)
  {
  }

  lemma {:induction false} ClearMeans(body: seq<Event>, y: nat, c: nat)
    requires c < |body| && body[c].Begin?
    ensures Clear(body, y, c) <==> forall k: nat :: y < k < c ==> !Matches(body, y, k, body[c].name)
  {
    MatchesMeans(body, y, body[c].name);
    hide IsChild, Matches;
  }

  /** Following names from a node stays inside the node. */
  lemma {:induction false} FollowInside(body: seq<Event>, y: nat, names: seq<Bytes>)
    requires Rooted(body) && IsNode(body, y) && Follow(body, y, names).Some?
    ensures y <= Follow(body, y, names).value && Close(body, y + 1, 0) != -1
    ensures Follow(body, y, names).value < Close(body, y + 1, 0)
    decreases |names|
  {
    hide Stack, Close, FirstChild;
    CloseBehind(body, 0, y);
    InsideItself(body, y);
    if names != [] {
      var j := FirstChild(body, y, names[0]).value;
      FirstIsChild(body, y, names[0]);
      ChildIsNode(body, y, j);
      FollowInside(body, j, names[1..]);
    }
  }

  lemma {:induction false} InsideItself(body: seq<Event>, y: nat)
    requires y < |body|
    ensures Close(body, y + 1, 0) != -1 ==> y < Close(body, y + 1, 0)
  {
  }

  lemma {:induction false} FirstIsChild(body: seq<Event>, y: nat, s: Bytes)
    requires FirstChild(body, y, s).Some?
    ensures FirstMatch(body, y, s, FirstChild(body, y, s).value)
  {
  }

  /** Following the names of a way leads to its end exactly if no name is ambiguous. */
  lemma {:induction false} WayFollowed(body: seq<Event>, st: seq<nat>)
    requires Rooted(body) && IsWay(body, st) && Begins(body, st[1..])
    ensures Begins(body, st)
    ensures (Follow(body, st[0], NamesOf(body, st[1..])) == Some(st[|st| - 1]) <==> Unambiguous(body, st))
    decreases |st|
  {
    hide Stack, Close, FirstChild, GoesBy, IsNode, IsChild, Clear;
    if |st| > 1 {
      var rest, name := st[1..], body[st[1]].name;
      NamesTail(body, rest);
      GoesByItself(name);
      ClearMeans(body, st[0], st[1]);
      assert IsChild(body, st[0], st[1]);
      SomeFirst(body, st[0], name, st[1]);
      var j := FirstChild(body, st[0], name).value;
      RestIsWay(body, st);
      if j == st[1] {
        WayFollowed(body, rest);
        UnambiguousStep(body, st);
      } else {
        WrongTurn(body, st, j, NamesOf(body, rest[1..]));
      }
    }
  }

  lemma {:induction false} NamesTail(body: seq<Event>, st: seq<nat>)
    requires Begins(body, st) && st != []
    ensures Begins(body, st[1..]) && NamesOf(body, st)[0] == body[st[0]].name
    ensures NamesOf(body, st)[1..] == NamesOf(body, st[1..])
  {
  }

  lemma {:induction false} RestIsWay(body: seq<Event>, st: seq<nat>)
    requires Rooted(body) && IsWay(body, st) && |st| > 1
    ensures IsWay(body, st[1..])
  {
    hide IsNode, IsChild;
    var rest := st[1..];
    forall m | 0 < m < |rest|
      ensures IsChild(body, rest[m - 1], rest[m])
    {
      assert IsChild(body, st[m], st[m + 1]);
    }
  }

  lemma {:induction false} UnambiguousStep(body: seq<Event>, st: seq<nat>)
    requires Begins(body, st) && |st| > 1 && Begins(body, st[1..])
    requires Clear(body, st[0], st[1])
    ensures Unambiguous(body, st) <==> Unambiguous(body, st[1..])
  {
    hide Clear;
    var rest := st[1..];
    if Unambiguous(body, st) {
      forall m | 0 < m < |rest|
        ensures Clear(body, rest[m - 1], rest[m])
      {
        assert rest[m - 1] == st[m] && rest[m] == st[m + 1];
      }
    }
    if Unambiguous(body, rest) {
      forall m | 0 < m < |st|
        ensures Clear(body, st[m - 1], st[m])
      {
        if m > 1 {
          assert rest[m - 2] == st[m - 1] && rest[m - 1] == st[m];
        }
      }
    }
  }

  /** The last node of a way is not before the second. */
  lemma {:induction false} WayGoesUp(body: seq<Event>, st: seq<nat>, m: nat)
    requires Rooted(body) && IsWay(body, st) && m < |st|
    ensures st[m] <= st[|st| - 1]
    decreases |st| - m
  {
    if m + 1 < |st| {
      WayGoesUp(body, st, m + 1);
      ChildLater(body, st[m], st[m + 1]);
    }
  }

  /** An earlier subnode of the name leads somewhere else. */
  lemma {:induction false} WrongTurn(body: seq<Event>, st: seq<nat>, j: nat, names: seq<Bytes>)
    requires Rooted(body) && IsWay(body, st) && |st| > 1 && Begins(body, st)
    requires FirstMatch(body, st[0], body[st[1]].name, j) && j < st[1]
    ensures Follow(body, j, names) != Some(st[|st| - 1]) && !Unambiguous(body, st)
  {
    hide Stack, Close, FirstChild, GoesBy, IsNode, Clear;
    ClearMeans(body, st[0], st[1]);
    ChildIsNode(body, st[0], j);
    SiblingsApart(body, st[0], j, st[1]);
    WayGoesUp(body, st, 1);
    if Follow(body, j, names).Some? {
      FollowInside(body, j, names);
    }
    ChildLater(body, st[0], j);
    assert !Clear(body, st[1 - 1], st[1]);
  }

  /** The nodes down to a node are a way from the root. */
  lemma {:induction false} StackIsWay(body: seq<Event>, j: nat)
    requires Rooted(body) && IsNode(body, j)
    ensures Begins(body, Stack(body, j) + [j]) && IsWay(body, Stack(body, j) + [j]) && (Stack(body, j) + [j])[0] == 0
    ensures forall k :: 0 < k < |Stack(body, j) + [j]| ==> (Stack(body, j) + [j])[k] > 0
  {
    hide Close, Stack;
    NodeStack(body, j);
    var st := Stack(body, j) + [j];
    forall m | 0 <= m < |st|
      ensures st[m] < |body| && body[st[m]].Begin? && IsNode(body, st[m]) && Stack(body, st[m]) == st[..m]
    {
      if m < |Stack(body, j)| {
        StackChain(body, j, m);
        Earlier(body, j, m);
        assert st[..m] == Stack(body, j)[..m];
      } else {
        assert st[..m] == Stack(body, j);
      }
    }
    forall m | 0 < m < |st|
      ensures IsChild(body, st[m - 1], st[m]) && st[m] > 0
    {
      assert st[..m] == st[..m - 1] + [st[m - 1]];
      ChildLater(body, st[m - 1], st[m]);
    }
  }

  lemma {:induction false} Earlier(body: seq<Event>, j: nat, m: nat)
    requires j <= |body| && m < |Stack(body, j)|
    ensures Stack(body, j)[m] < j && body[Stack(body, j)[m]].Begin?
  {
  }

  lemma {:induction false} OffsetsDiffer(body: seq<Event>, i: nat, j: nat)
    requires i <= |body| && j <= |body| && Offset(body + [Finish], i) == Offset(body + [Finish], j)
    ensures i == j
  {
    hide Offset;
    var es := body + [Finish];
    if i < j {
      OffsetGrows(es, i + 1, j);
      OffsetNext(es, i);
      SizeLeast(es[i]);
    } else if j < i {
      OffsetGrows(es, j + 1, i);
      OffsetNext(es, j);
      SizeLeast(es[j]);
    }
  }

  /** Looking up the path of a node leads back to the node exactly if the path is unambiguous. */
  lemma {:induction false} PathLeadsBack(body: seq<Event>, j: nat)
    requires Rooted(body) && IsNode(body, j) && GoodNames(body)
    ensures Begins(body, Stack(body, j) + [j])
    ensures var st := Stack(body, j) + [j]; var path := PathOf(body, st);
            && path != [] && path[0] == SLASH && 0 !in path
            && (Follow(body, 0, Components(path)) == Some(j) <==> Unambiguous(body, st))
  {
    hide Close, Stack, Components, PathOf, IsNode, Unambiguous;
    StackIsWay(body, j);
    NodeStack(body, j);
    var st := Stack(body, j) + [j];
    PathSplits(body, st);
    WayFollowed(body, st);
  }

  /** With a subnode name@unit in front of it, the subnode name is not what its path leads to. */
  lemma {:induction false} UnitInFront(name: Bytes, unit: Bytes)
    requires name != [] && SLASH !in name && AT !in name
    ensures var body := [Begin([]), Begin(name + [AT] + unit), End, Begin(name), End, End];
            && Stack(body, 3) == [0] && PathOf(body, [0, 3]) == [SLASH] + name
            && Follow(body, 0, Components([SLASH] + name)) == Some(1)
  {
    var body := [Begin([]), Begin(name + [AT] + unit), End, Begin(name), End, End];
    assert Stack(body, 1) == [0] && Stack(body, 2) == [0, 1] && Stack(body, 3) == [0];
    OnlyName(name);
    assert Printed(body, [0, 3]) == [SLASH] + name + [SLASH] by {
      TwoPrinted(body, 0, 3);
    }
    assert FirstMatch(body, 0, name, 1);
    LeadsTo(body, name, 1);
  }

  /** Without the subnode name, its path leads to name@unit. */
  lemma {:induction false} UnitFound(name: Bytes, unit: Bytes)
    requires name != [] && SLASH !in name && AT !in name
    ensures var body := [Begin([]), Begin(name + [AT] + unit), End, End];
            Follow(body, 0, Components([SLASH] + name)) == Some(1)
  {
    var body := [Begin([]), Begin(name + [AT] + unit), End, End];
    assert Stack(body, 1) == [0];
    OnlyName(name);
    assert FirstMatch(body, 0, name, 1);
    LeadsTo(body, name, 1);
  }

  lemma {:induction false} TwoPrinted(body: seq<Event>, y: nat, c: nat)
    requires y < |body| && c < |body| && body[y].Begin? && body[c].Begin?
    ensures Printed(body, [y, c]) == body[y].name + [SLASH] + body[c].name + [SLASH]
  {
    assert [y, c][..1] == [y] && [y][..0] == [];
    assert Printed(body, []) == [] && Printed(body, [y]) == body[y].name + [SLASH];
  }

  lemma {:induction false} OnlyName(name: Bytes)
    requires name != [] && SLASH !in name
    ensures Components([SLASH] + name) == [name]
  {
    NoComponents();
    FirstName(name, []);
    SlashDropped([SLASH] + name, 0);
    assert ([SLASH] + name)[0..] == [SLASH] + name && ([SLASH] + name)[1..] == name && name + [] == name;
  }

  lemma {:induction false} LeadsTo(body: seq<Event>, name: Bytes, j: nat)
    requires FirstMatch(body, 0, name, j)
    ensures Follow(body, 0, [name]) == Some(j)
  {
    hide FirstMatch;
    ChildIsFirst(body, 0, name, j);
    assert [name][1..] == [];
  }

  /** strlen. */
  method Strlen(s: array<Byte>, ghost path: Bytes) returns (n: nat)
    requires Terminated(s[..], path) && 0 !in path
    ensures n == |path|
  {
    n := 0;
    forall k | 0 <= k < |path|
      ensures s[k] != 0
    {
      assert s[k] == s[..][..|path|][k] == path[k];
    }
    while s[n] != 0
      invariant n <= |path| < s.Length && s[|path|] == 0
      decreases |path| - n
    {
      n := n + 1;
    }
  }

  /** fdt_path_offset of what fdt_get_path returns for a node: the node again, exactly if at no step of
      its path an earlier subnode has the same name, or has it as its name without the unit address. */
  method PathRoundTrip(f: Fdt, nodeoffset: nat, out: array<Byte>, ghost body: seq<Event>, ghost j: nat)
      returns (err: int, back: int)
    requires Block(f, body) && f.sizeStruct < INT_MAX - 4 && Rooted(body) && GoodNames(body) && out.Length >= 2
    requires IsNode(body, j) && Offset(body + [Finish], j) == nodeoffset
    modifies out
    ensures Begins(body, Stack(body, j) + [j])
    ensures var st := Stack(body, j) + [j];
            && err == (if |Printed(body, st)| <= out.Length then 0 else -FDT_ERR_NOSPACE)
            && (err == 0 ==> (back == nodeoffset <==> Unambiguous(body, st)))
  {
    hide Block, Offset, Close, Stack, Components, PathOf, Printed, Unambiguous, Follow, GoodNames, Terminated;
    ghost var st := Stack(body, j) + [j];
    PathLeadsBack(body, j);
    NoSlashes(body);
    BeforeEnd(body, j);
    ghost var i;
    err, i := FdtGetPath(f, nodeoffset, out, body);
    back := -1;
    OffsetsDiffer(body, i, j);
    if err != 0 {
      return;
    }
    var n := Strlen(out, PathOf(body, st));
    TerminatedAt(out[..], PathOf(body, st));
    back := FdtPathOffset(f, out[..n], body);
    if Follow(body, 0, Components(PathOf(body, st))).Some? {
      ghost var goal := Follow(body, 0, Components(PathOf(body, st))).value;
      BeforeEnd(body, goal);
      if back == nodeoffset {
        OffsetsDiffer(body, goal, j);
      }
    }
  }

  lemma {:induction false} TerminatedAt(out: seq<Byte>, path: Bytes)
    requires Terminated(out, path)
    ensures |path| < |out| && out[..|path|] == path
  {
  }

  lemma {:induction false} NoSlashes(body: seq<Event>)
    requires GoodNames(body)
    ensures SlashFree(body)
  {
  }

  /** A node starts before the end of the root. */
  lemma {:induction false} BeforeEnd(body: seq<Event>, j: nat)
    requires Rooted(body) && IsNode(body, j)
    ensures j < |body| && Offset(body + [Finish], j) < Offset(body + [Finish], RootEnd(body))
  {
    hide Offset, Close;
    var es := body + [Finish];
    assert RootEnd(body) <= |body|;
    OffsetNext(es, j);
    SizeLeast(es[j]);
    OffsetGrows(es, j + 1, RootEnd(body));
  }
}
