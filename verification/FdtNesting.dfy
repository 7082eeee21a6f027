/** How the nodes of a block nest: the open nodes at each tag, children, and the matching end tags. */
module FdtNesting {
  import opened Common
  import opened FdtBlob
  import opened FdtReader
  import opened FdtLayout

  /** The begin tags, from the outermost in, of the nodes that are open before the tag i. */
  function Stack(es: seq<Event>, i: nat): (st: seq<nat>)
    requires i <= |es|
    ensures forall k :: 0 <= k < |st| ==> st[k] < i && es[st[k]].Begin?
  {
    if i == 0 then [] else
    var st := Stack(es, i - 1);
    if es[i - 1].Begin? then st + [i - 1]
    else if es[i - 1].End? && st != [] then st[..|st| - 1]
    else st
  }

  /** What one tag does to the stack. */
  lemma {:induction false} StackStep(es: seq<Event>, i: nat)
    requires i < |es|
    ensures Stack(es, i + 1) == if es[i].Begin? then Stack(es, i) + [i]
                                else if es[i].End? && Stack(es, i) != [] then Stack(es, i)[..|Stack(es, i)| - 1]
                                else Stack(es, i)
  {
  }

  /** What one tag does to the search for the closing one. */
  lemma {:induction false} CloseStep(es: seq<Event>, i: nat, d: nat)
    requires i <= |es| && (Close(es, i, d) != -1 || (i < |es| && Finish !in es))
    ensures i < |es|
    ensures es[i].Begin? ==> Close(es, i + 1, d + 1) == Close(es, i, d)
    ensures es[i].End? ==> Close(es, i, d) == if d == 0 then i + 1 else Close(es, i + 1, d - 1)
    ensures !es[i].Begin? && !es[i].End? ==> Close(es, i + 1, d) == Close(es, i, d)
  {
  }

  /** With low + up open at i, low and the first of up stay open until the |up| levels have closed;
      then low is left. */
  lemma {:induction false} CloseStack(es: seq<Event>, i: nat, low: seq<nat>, up: seq<nat>, x: nat)
    requires i <= x <= |es| && Stack(es, i) == low + up && up != []
    requires if Close(es, i, |up| - 1) == -1 then Finish !in es else x <= Close(es, i, |up| - 1)
    ensures x != Close(es, i, |up| - 1) ==> low + [up[0]] <= Stack(es, x)
    ensures x == Close(es, i, |up| - 1) ==> Stack(es, x) == low
    decreases |es| - i
  {
    hide Stack, Close;
    if x > i {
      CloseStep(es, i, |up| - 1);
      StackStep(es, i);
      if es[i].Begin? {
        assert low + up + [i] == low + (up + [i]);
        CloseStack(es, i + 1, low, up + [i], x);
      } else if es[i].End? {
        assert (low + up)[..|low + up| - 1] == low + up[..|up| - 1];
        if |up| > 1 {
          CloseStack(es, i + 1, low, up[..|up| - 1], x);
        }
      } else {
        CloseStack(es, i + 1, low, up, x);
      }
    } else {
      assert low + [up[0]] <= low + up;
    }
  }

  /** How far a node reaches: to the place after its end tag, or past the block if it is never closed. */
  function Reach(es: seq<Event>, y: nat): (e: nat)
    requires y < |es|
    ensures y < e
  {
    if Close(es, y + 1, 0) == -1 then |es| + 1 else Close(es, y + 1, 0)
  }

  /** A node is open exactly at the tags between its begin tag and the one after its end tag. */
  lemma {:induction false} OpenWhile(es: seq<Event>, y: nat, x: nat)
    requires y < |es| && es[y].Begin? && x <= |es| && (Close(es, y + 1, 0) == -1 ==> Finish !in es)
    ensures y in Stack(es, x) <==> y < x < Reach(es, y)
    ensures y < x < Reach(es, y) ==> Stack(es, y) + [y] <= Stack(es, x)
    ensures x == Reach(es, y) ==> Stack(es, x) == Stack(es, y)
    decreases x
  {
    hide Stack, Close;
    var e := Reach(es, y);
    StackStep(es, y);
    if y < x <= e {
      CloseStack(es, y + 1, Stack(es, y), [y], x);
      if x < e {
        assert Stack(es, x)[|Stack(es, y)|] == y;
      }
    } else if x > e {
      OpenWhile(es, y, x - 1);
      StackStep(es, x - 1);
    }
  }

  /** The first begin tag from i on; the end of the block if there is none. */
  function NextBegin(es: seq<Event>, i: nat): (j: nat)
    requires i <= |es|
    ensures i <= j <= |es| && (j < |es| ==> es[j].Begin?) && forall x :: i <= x < j ==> !es[x].Begin?
    decreases |es| - i
  {
    if i == |es| || es[i].Begin? then i else NextBegin(es, i + 1)
  }

  /** Up to the next begin tag nodes are only closed. */
  lemma {:induction false} StackShrinks(es: seq<Event>, i: nat, j: nat)
    requires i <= j <= |es| && forall x :: i <= x < j ==> !es[x].Begin?
    ensures Stack(es, j) <= Stack(es, i) && |Stack(es, j)| <= |Stack(es, i)|
    decreases j
  {
    if i < j {
      StackShrinks(es, i, j - 1);
    }
  }

  /** Within a node, the levels still to close are those opened since. */
  lemma {:induction false} CloseFrom(es: seq<Event>, y: nat, x: nat)
    requires y < |es| && es[y].Begin? && (Close(es, y + 1, 0) == -1 ==> Finish !in es)
    requires y < x < Reach(es, y) && x <= |es|
    ensures |Stack(es, x)| > |Stack(es, y)| && Close(es, x, |Stack(es, x)| - |Stack(es, y)| - 1) == Close(es, y + 1, 0)
  {
    hide Stack;
    StackStep(es, x - 1);
    if x > y + 1 {
      CloseFrom(es, y, x - 1);
      assert es[x - 1] in es;
    }
  }

  /** What is left to close behind a begin tag within a node. */
  lemma {:induction false} CloseBehind(es: seq<Event>, y: nat, x: nat)
    requires y < |es| && es[y].Begin? && (Close(es, y + 1, 0) == -1 ==> Finish !in es)
    requires y <= x < Reach(es, y) && x < |es| && es[x].Begin?
    ensures |Stack(es, x)| >= |Stack(es, y)| && Close(es, x + 1, |Stack(es, x)| - |Stack(es, y)|) == Close(es, y + 1, 0)
    ensures Stack(es, x + 1) == Stack(es, x) + [x]
    ensures Close(es, y + 1, 0) != -1 ==> 0 <= Close(es, x + 1, 0) <= Close(es, y + 1, 0)
  {
    if x > y {
      CloseFrom(es, y, x);
      assert es[x] in es;
      CloseInner(es, x + 1, 0, |Stack(es, x)| - |Stack(es, y)| - 1);
    }
  }

  /** j is a begin tag directly below y. */
  predicate IsChild(es: seq<Event>, y: nat, j: nat) {
    y < |es| && j < |es| && es[y].Begin? && es[j].Begin? && Stack(es, j) == Stack(es, y) + [y]
  }

  /** A later sibling starts where the earlier one has closed, or after. */
  lemma {:induction false} SiblingsApart(es: seq<Event>, p: nat, y: nat, c: nat)
    requires IsChild(es, p, y) && IsChild(es, p, c) && y < c && Close(es, y + 1, 0) != -1
    ensures Close(es, y + 1, 0) <= c
  {
    OpenWhile(es, y, c);
    assert Stack(es, c) == Stack(es, y);
    assert y !in Stack(es, c);
  }
}
