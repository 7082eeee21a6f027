/**
 The MCS queue lock `QSpinlock` as a state machine. Every atomic access of
 lock, try_lock and unlock is one step of one CPU, and a schedule is any
 interleaving of such steps under sequential consistency.
 */
module QSpinlock {

  import opened Common

  const MAX_CPUS: nat := 8

  /** A pointer to one of the per-CPU nodes, which all locks share. */
  type NodeId = n: nat | n < MAX_CPUS

  datatype McsNode = McsNode(next: Option<NodeId>, locked: bool)

  /** One lock word and its history: `arrivals` lists the CPUs in the order in which
      their tail swap (or successful tail compare-exchange) took effect, `entries` the
      CPUs in the order in which they entered the critical section, and `released`
      counts the completed unlocks. The code never reads the three history fields. */
  datatype Lock = Lock(tail: Option<NodeId>, arrivals: seq<nat>, entries: seq<nat>, released: nat)

  /** The atomic access a CPU performs next. */
  datatype Pc =
    | Idle
    | LockClearNext(l: nat)
    | LockClearFlag(l: nat)
    | LockSwap(l: nat)
    | LockLink(l: nat, prev: NodeId)
    | LockSpin(l: nat)
    | TryClearNext(l: nat)
    | TryClearFlag(l: nat)
    | TryCas(l: nat)
    | Critical(l: nat)
    | UnlockLoad(l: nat)
    | UnlockCas(l: nat)
    | UnlockWait(l: nat)
    | UnlockReload(l: nat)
    | UnlockSignal(l: nat, n: NodeId)
    | Fault  // a null node pointer was dereferenced

  /** What the program running on a CPU asks for: calls are made only when the CPU is
      between calls, and `Continue` advances the call in progress by one access. */
  datatype Op = CallLock(l: nat) | CallTryLock(l: nat) | CallUnlock | Continue

  datatype State = State(nodes: seq<McsNode>, locks: seq<Lock>, pcs: seq<Pc>)

  function NodeOf(cpu: nat): (node: NodeId)
    ensures cpu < MAX_CPUS ==> node == cpu
  {
    cpu % MAX_CPUS
  }

  ghost predicate Sized(s: State) {
    && |s.nodes| == MAX_CPUS
    && |s.pcs| <= MAX_CPUS
    && forall c :: 0 <= c < |s.pcs| ==> PcSized(s.pcs[c], |s.locks|)
  }

  predicate PcSized(pc: Pc, nlocks: nat) {
    match pc
    case Idle => true
    case Fault => true
    case _ => pc.l < nlocks
  }

  // ---------------------------------------------------------------------------
  // The steps
  // ---------------------------------------------------------------------------

  function SetPc(s: State, c: nat, pc: Pc): State
    requires c < |s.pcs|
  {
    s.(pcs := s.pcs[c := pc])
  }

  function SetNode(s: State, n: nat, node: McsNode): State
    requires n < |s.nodes|
  {
    s.(nodes := s.nodes[n := node])
  }

  function Swap(s: State, c: nat, l: nat): State
    requires c < |s.pcs| && l < |s.locks|
  {
    var lk := s.locks[l];
    var s1 := s.(locks := s.locks[l := lk.(tail := Some(NodeOf(c)), arrivals := lk.arrivals + [c])]);
    match lk.tail
    case None => Enter(s1, c, l)
    case Some(prev) => SetPc(s1, c, LockLink(l, prev))
  }

  function Enter(s: State, c: nat, l: nat): State
    requires c < |s.pcs| && l < |s.locks|
  {
    var lk := s.locks[l];
    SetPc(s.(locks := s.locks[l := lk.(entries := lk.entries + [c])]), c, Critical(l))
  }

  function Leave(s: State, c: nat, l: nat): State
    requires c < |s.pcs| && l < |s.locks|
  {
    var lk := s.locks[l];
    SetPc(s.(locks := s.locks[l := lk.(released := lk.released + 1)]), c, Idle)
  }

  function Call(s: State, c: nat, op: Op): State
    requires c < |s.pcs|
  {
    match op
    case CallLock(l) => if s.pcs[c].Idle? && l < |s.locks| then SetPc(s, c, LockClearNext(l)) else s
    case CallTryLock(l) => if s.pcs[c].Idle? && l < |s.locks| then SetPc(s, c, TryClearNext(l)) else s
    case CallUnlock => if s.pcs[c].Critical? then SetPc(s, c, UnlockLoad(s.pcs[c].l)) else s
    case Continue => s
  }

  /** One access of CPU c. A spin whose condition does not hold yet leaves the state
      as it is. */
  function Step(s: State, c: nat, op: Op): (t: State)
    requires Sized(s) && c < |s.pcs|
    ensures Sized(t) && |t.pcs| == |s.pcs| && |t.locks| == |s.locks|
  {
    if op != Continue then Call(s, c, op) else
    var me := NodeOf(c);
    match s.pcs[c]
    case Idle => s
    case Fault => s
    case Critical(l) => s
    case LockClearNext(l) => SetPc(SetNode(s, me, s.nodes[me].(next := None)), c, LockClearFlag(l))
    case LockClearFlag(l) => SetPc(SetNode(s, me, s.nodes[me].(locked := false)), c, LockSwap(l))
    case LockSwap(l) => Swap(s, c, l)
    case LockLink(l, prev) => SetPc(SetNode(s, prev, s.nodes[prev].(next := Some(me))), c, LockSpin(l))
    case LockSpin(l) => if s.nodes[me].locked then Enter(s, c, l) else s
    case TryClearNext(l) => SetPc(SetNode(s, me, s.nodes[me].(next := None)), c, TryClearFlag(l))
    case TryClearFlag(l) => SetPc(SetNode(s, me, s.nodes[me].(locked := false)), c, TryCas(l))
    case TryCas(l) => if s.locks[l].tail == None then Swap(s, c, l) else SetPc(s, c, Idle)
    case UnlockLoad(l) =>
      (match s.nodes[me].next
       case None => SetPc(s, c, UnlockCas(l))
       case Some(n) => SetPc(s, c, UnlockSignal(l, n)))
    case UnlockCas(l) =>
      if s.locks[l].tail == Some(me)
      then Leave(s.(locks := s.locks[l := s.locks[l].(tail := None)]), c, l)
      else SetPc(s, c, UnlockWait(l))
    case UnlockWait(l) => if s.nodes[me].next == None then s else SetPc(s, c, UnlockReload(l))
    case UnlockReload(l) =>
      (match s.nodes[me].next
       case None => SetPc(s, c, Fault)
       case Some(n) => SetPc(s, c, UnlockSignal(l, n)))
    case UnlockSignal(l, n) => Leave(SetNode(s, n, s.nodes[n].(locked := true)), c, l)
  }

  // ---------------------------------------------------------------------------
  // The invariant
  // ---------------------------------------------------------------------------

  /** CPU is between its tail swap for lock l and the end of its unlock of l. */
  predicate Queued(pc: Pc, l: nat) {
    match pc
    case LockLink(k, _) => k == l
    case LockSpin(k) => k == l
    case _ => Entered(pc, l)
  }

  /** CPU has entered the critical section of l and has not finished unlocking it. */
  predicate Entered(pc: Pc, l: nat) {
    match pc
    case Critical(k) => k == l
    case UnlockLoad(k) => k == l
    case UnlockCas(k) => k == l
    case UnlockWait(k) => k == l
    case UnlockReload(k) => k == l
    case UnlockSignal(k, _) => k == l
    case _ => false
  }

  function Queue(lk: Lock): seq<nat>
    requires lk.released <= |lk.arrivals|
  {
    lk.arrivals[lk.released..]
  }

  /** q lists, without repetition, exactly the CPUs queued on l. */
  ghost predicate QueueMembers(s: State, q: seq<nat>, l: nat) {
    && (forall c: nat :: c in q <==> c < |s.pcs| && Queued(s.pcs[c], l))
    && (forall i, j :: 0 <= i < j < |q| ==> q[i] != q[j])
  }

  /** Position i > 0 of the queue: the CPU there is about to link itself to its
      predecessor or spins behind it, and the predecessor's next is set only then. */
  ghost predicate Linked(s: State, q: seq<nat>, l: nat, i: nat)
    requires |s.nodes| == MAX_CPUS && 0 < i < |q|
  {
    var c, p := q[i], q[i - 1];
    && c < |s.pcs| && c < MAX_CPUS && p < MAX_CPUS
    && !s.nodes[c].locked
    && (s.pcs[c] == LockLink(l, p) || s.pcs[c] == LockSpin(l))
    && s.nodes[p].next == (if s.pcs[c].LockSpin? then Some(c) else None)
  }

  ghost predicate HeadOk(s: State, q: seq<nat>)
    requires |s.nodes| == MAX_CPUS && q != [] && q[0] < |s.pcs| && q[0] < MAX_CPUS
  {
    var pc := s.pcs[q[0]];
    && !pc.LockLink?
    && (pc.LockSpin? ==> s.nodes[q[0]].locked)
    && (pc.UnlockWait? || pc.UnlockReload? || pc.UnlockSignal? ==> |q| > 1)
    && (pc.UnlockReload? || pc.UnlockSignal? ==> s.nodes[q[0]].next != None)
    && (pc.UnlockSignal? ==> pc.n == q[1])
  }

  ghost predicate QueueOk(s: State, q: seq<nat>, l: nat) {
    && |s.nodes| == MAX_CPUS && |s.pcs| <= MAX_CPUS
    && QueueMembers(s, q, l)
    && (forall i {:trigger Linked(s, q, l, i)} :: 0 < i < |q| ==> Linked(s, q, l, i))
    && (q != [] ==>
          && q[0] in q && q[|q| - 1] in q
          && HeadOk(s, q)
          && s.nodes[q[|q| - 1]].next == None)
  }

  ghost predicate WordOk(s: State, lk: Lock, q: seq<nat>, l: nat)
    requires |q| <= |lk.arrivals|
  {
    && lk.tail == (if q == [] then None else Some(q[|q| - 1]))
    && lk.entries == lk.arrivals[..|lk.arrivals| - |q|] + (if HeadEntered(s, q, l) then [q[0]] else [])
  }

  ghost predicate HeadEntered(s: State, q: seq<nat>, l: nat)
  {
    q != [] && q[0] < |s.pcs| && Entered(s.pcs[q[0]], l)
  }

  ghost predicate LockInv(s: State, l: nat)
    requires l < |s.locks|
  {
    var lk := s.locks[l];
    && lk.released <= |lk.arrivals|
    && QueueOk(s, Queue(lk), l)
    && WordOk(s, lk, Queue(lk), l)
  }

  ghost predicate Inv(s: State) {
    && Sized(s)
    && (forall c :: 0 <= c < |s.pcs| ==> CpuOk(s, c))
    && (forall l :: 0 <= l < |s.locks| ==> LockInv(s, l))
  }

  /** No CPU has faulted, and a CPU about to publish its node has reset it. */
  ghost predicate CpuOk(s: State, c: nat)
    requires c < |s.pcs| <= |s.nodes|
  {
    var pc := s.pcs[c];
    && pc != Fault
    && (pc.LockClearFlag? || pc.TryClearFlag? ==> s.nodes[c].next == None)
    && (pc.LockSwap? || pc.TryCas? ==> s.nodes[c] == McsNode(None, false))
  }

  /** All CPUs idle, all locks free; at most MAX_CPUS CPUs, so each has its own node. */
  ghost predicate Init(s: State) {
    && |s.nodes| == MAX_CPUS
    && |s.pcs| <= MAX_CPUS
    && (forall c :: 0 <= c < |s.pcs| ==> s.pcs[c] == Idle)
    && (forall l :: 0 <= l < |s.locks| ==> s.locks[l] == Lock(None, [], [], 0))
  }

  lemma {:induction false} InitInv(s: State)
    requires Init(s)
    ensures Inv(s)
  {
  }

  // ---------------------------------------------------------------------------
  // Every step keeps the invariant
  // ---------------------------------------------------------------------------

  /** A lock's invariant depends on nothing but its lock word and the nodes and program
      counters of the CPUs queued on it. */
  lemma {:induction false} Frame(s: State, t: State, l: nat)
    requires l < |s.locks| && |s.locks| == |t.locks| && |s.pcs| == |t.pcs| && |s.nodes| == |t.nodes|
    requires LockInv(s, l) && t.locks[l] == s.locks[l]
    requires forall c :: 0 <= c < |s.pcs| && Queued(s.pcs[c], l) ==>
               t.pcs[c] == s.pcs[c] && t.nodes[c] == s.nodes[c]
    requires forall c :: 0 <= c < |s.pcs| && Queued(t.pcs[c], l) ==> Queued(s.pcs[c], l)
    ensures LockInv(t, l)
  {
    var q := Queue(s.locks[l]);
    assert QueueMembers(t, q, l);
    forall i: nat {:trigger Linked(t, q, l, i)} | 0 < i < |q|
      ensures Linked(t, q, l, i)
    {
      assert Linked(s, q, l, i);
      assert q[i] in q && q[i - 1] in q;
    }
  }

  /** A CPU that has entered is the head of its queue, and so is one whose flag is set. */
  lemma {:induction false} EnteredIsHead(s: State, c: nat, l: nat)
    requires l < |s.locks| && LockInv(s, l) && c < |s.pcs|
    requires Entered(s.pcs[c], l) || (s.pcs[c] == LockSpin(l) && s.nodes[c].locked)
    ensures Queue(s.locks[l]) != [] && Queue(s.locks[l])[0] == c
  {
    var q := Queue(s.locks[l]);
    assert c in q;
    var i: nat :| i < |q| && q[i] == c;
    assert i > 0 ==> Linked(s, q, l, i);
  }

  /** The head moves between two of its states, or enters. */
  lemma {:induction false} HeadMoves(s: State, t: State, c: nat, l: nat)
    requires l < |s.locks| && LockInv(s, l) && c < |s.pcs|
    requires Queue(s.locks[l]) != [] && Queue(s.locks[l])[0] == c
    requires t.nodes == s.nodes && |t.pcs| == |s.pcs| && t.pcs == s.pcs[c := t.pcs[c]] && Entered(t.pcs[c], l)
    requires l < |t.locks| && t.locks[l] == s.locks[l].(entries := t.locks[l].entries)
    requires t.locks[l].entries == s.locks[l].entries + (if Entered(s.pcs[c], l) then [] else [c])
    requires HeadOk(t, Queue(s.locks[l]))
    ensures LockInv(t, l)
  {
    var q := Queue(s.locks[l]);
    assert QueueMembers(t, q, l);
    forall i: nat {:trigger Linked(t, q, l, i)} | 0 < i < |q|
      ensures Linked(t, q, l, i)
    {
      assert Linked(s, q, l, i);
    }
  }

  /** A CPU that is not queued joins the end: as the head if the queue was empty, else
      about to link itself to the last CPU. */
  lemma {:induction false} AppendInv(s: State, t: State, q: seq<nat>, c: nat, l: nat)
    requires QueueOk(s, q, l) && c < |s.pcs| && !Queued(s.pcs[c], l)
    requires s.nodes[c] == McsNode(None, false)
    requires t.nodes == s.nodes && |t.pcs| == |s.pcs|
    requires t.pcs == s.pcs[c := if q == [] then Critical(l) else LockLink(l, q[|q| - 1])]
    ensures QueueOk(t, q + [c], l)
  {
    var q' := q + [c];
    assert c !in q;
    assert QueueMembers(t, q', l);
    forall i: nat {:trigger Linked(t, q', l, i)} | 0 < i < |q'|
      ensures Linked(t, q', l, i)
    {
      assert i < |q| ==> Linked(s, q, l, i);
      assert q'[i - 1] == q[i - 1] && q[i - 1] in q;
    }
  }

  lemma {:induction false} SwapInv(s: State, c: nat, l: nat)
    requires l < |s.locks| && LockInv(s, l) && c < |s.pcs|
    requires !Queued(s.pcs[c], l)
    requires s.nodes[c] == McsNode(None, false)
    ensures LockInv(Swap(s, c, l), l)
  {
    var t := Swap(s, c, l);
    var q := Queue(s.locks[l]);
    assert Queue(t.locks[l]) == q + [c];
    SwapWord(s, c, l);
    AppendInv(s, t, q, c, l);
  }

  lemma {:induction false} SwapWord(s: State, c: nat, l: nat)
    requires l < |s.locks| && LockInv(s, l) && c < |s.pcs| && !Queued(s.pcs[c], l)
    ensures var t := Swap(s, c, l); var q' := Queue(s.locks[l]) + [c];
            WordOk(t, t.locks[l], q', l)
  {
    var t := Swap(s, c, l);
    var q := Queue(s.locks[l]);
    var a, a' := s.locks[l].arrivals, t.locks[l].arrivals;
    assert a' == a + [c];
    assert a'[..|a| - |q|] == a[..|a| - |q|];
    if q != [] {
      assert q[0] in q;
    }
  }

  lemma {:induction false} LinkInv(s: State, c: nat, l: nat)
    requires Sized(s) && l < |s.locks| && LockInv(s, l) && c < |s.pcs| && s.pcs[c].LockLink? && s.pcs[c].l == l
    ensures LockInv(Step(s, c, Continue), l)
    ensures s.pcs[c].prev < |s.pcs| && Queued(s.pcs[s.pcs[c].prev], l)
  {
    var t := Step(s, c, Continue);
    var q := Queue(s.locks[l]);
    assert c in q;
    var k: nat :| k < |q| && q[k] == c;
    assert k > 0;
    assert Linked(s, q, l, k);
    assert q[k - 1] in q;
    assert t == State(s.nodes[q[k - 1] := s.nodes[q[k - 1]].(next := Some(c))], s.locks, s.pcs[c := LockSpin(l)]);
    assert QueueMembers(t, q, l);
    forall i: nat {:trigger Linked(t, q, l, i)} | 0 < i < |q|
      ensures Linked(t, q, l, i)
    {
      assert Linked(s, q, l, i);
    }
  }

  /** The head leaves an otherwise empty queue. */
  lemma {:induction false} LastLeaves(s: State, t: State, c: nat, l: nat)
    requires QueueOk(s, [c], l) && c < |s.pcs| && t.nodes == s.nodes && t.pcs == s.pcs[c := Idle]
    ensures QueueOk(t, [], l)
  {
    forall d: nat | d < |t.pcs|
      ensures !Queued(t.pcs[d], l)
    {
      assert d in [c] <==> d == c;
    }
  }

  /** Without its head, a queue lists the CPUs that are still queued. */
  lemma {:induction false} RestMembers(s: State, t: State, q: seq<nat>, c: nat, l: nat)
    requires QueueMembers(s, [c] + q, l) && c < |s.pcs| && t.pcs == s.pcs[c := Idle]
    ensures QueueMembers(t, q, l) && c !in q
  {
    var whole := [c] + q;
    assert forall i :: 0 <= i < |q| ==> q[i] == whole[i + 1];
    assert whole[0] == c;
    assert forall d: nat :: d in whole <==> d == c || d in q;
  }

  /** The head leaves; the rest of the queue, if any, has a head whose flag is now set. */
  lemma {:induction false} RestInv(s: State, t: State, q: seq<nat>, c: nat, l: nat)
    requires QueueOk(s, [c] + q, l) && c < |s.pcs| && Entered(s.pcs[c], l)
    requires t.pcs == s.pcs[c := Idle]
    requires if q == [] then t.nodes == s.nodes
             else q[0] < |s.nodes| && q[0] < |s.pcs| && s.pcs[q[0]] == LockSpin(l) &&
                  t.nodes == s.nodes[q[0] := s.nodes[q[0]].(locked := true)]
    ensures QueueOk(t, q, l)
  {
    if q == [] {
      assert [c] + q == [c];
      LastLeaves(s, t, c, l);
    } else {
      RestMembers(s, t, q, c, l);
      hide QueueMembers;
      var whole := [c] + q;
      forall i: nat {:trigger Linked(t, q, l, i)} | 0 < i < |q|
        ensures Linked(t, q, l, i)
      {
        RestLinked(s, t, q, c, l, i);
      }
      assert Linked(s, whole, l, 1);
      assert q[|q| - 1] == whole[|whole| - 1];
    }
  }

  lemma {:induction false} RestLinked(s: State, t: State, q: seq<nat>, c: nat, l: nat, i: nat)
    requires QueueOk(s, [c] + q, l) && 0 < i < |q| && c !in q && QueueMembers(t, q, l) && c < |s.pcs|
    requires t.pcs == s.pcs[c := Idle] && q[0] < |s.nodes| && t.nodes == s.nodes[q[0] := s.nodes[q[0]].(locked := true)]
    ensures Linked(t, q, l, i)
  {
    var whole := [c] + q;
    assert whole[i + 1] == q[i] && whole[i] == q[i - 1] && q[i] != q[0] && q[i] in q;
    assert Linked(s, whole, l, i + 1);
  }

  lemma {:induction false} LeaveInv(s: State, t: State, c: nat, l: nat)
    requires l < |s.locks| && LockInv(s, l) && c < |s.pcs| && Entered(s.pcs[c], l)
    requires t.pcs == s.pcs[c := Idle] && |t.nodes| == |s.nodes| && l < |t.locks|
    requires Queue(s.locks[l]) != [] && Queue(s.locks[l])[0] == c
    requires t.locks[l] == s.locks[l].(released := s.locks[l].released + 1,
                                       tail := if |Queue(s.locks[l])| == 1 then None else s.locks[l].tail)
    requires var q := Queue(s.locks[l]);
             if |q| == 1 then t.nodes == s.nodes
             else q[1] < |s.nodes| && q[1] < |s.pcs| && s.pcs[q[1]] == LockSpin(l) &&
                  t.nodes == s.nodes[q[1] := s.nodes[q[1]].(locked := true)]
    ensures LockInv(t, l)
  {
    var q := Queue(s.locks[l]);
    assert q == [c] + q[1..] && Queue(t.locks[l]) == q[1..];
    RestInv(s, t, q[1..], c, l);
    LeaveWord(s, t, c, l);
  }

  lemma {:induction false} LeaveWord(s: State, t: State, c: nat, l: nat)
    requires l < |s.locks| && LockInv(s, l) && c < |s.pcs| && Entered(s.pcs[c], l)
    requires t.pcs == s.pcs[c := Idle] && |t.nodes| == |s.nodes| && l < |t.locks|
    requires Queue(s.locks[l]) != [] && Queue(s.locks[l])[0] == c
    requires t.locks[l] == s.locks[l].(released := s.locks[l].released + 1,
                                       tail := if |Queue(s.locks[l])| == 1 then None else s.locks[l].tail)
    ensures WordOk(t, t.locks[l], Queue(s.locks[l])[1..], l)
  {
    var q := Queue(s.locks[l]);
    var a, r := s.locks[l].arrivals, s.locks[l].released;
    assert a[..r] + [c] == a[..r + 1];
    if |q| > 1 {
      assert Linked(s, q, l, 1);
    }
  }

  /** The successor's own step has set the head's next: it is the node of q[1]. */
  lemma {:induction false} NextIsSuccessor(s: State, l: nat)
    requires l < |s.locks| && LockInv(s, l) && Queue(s.locks[l]) != []
    ensures Queue(s.locks[l])[0] < |s.nodes|
    ensures var q := Queue(s.locks[l]);
            match s.nodes[q[0]].next
            case None => |q| > 1 ==> q[1] < |s.pcs| && s.pcs[q[1]] == LockLink(l, q[0])
            case Some(n) => |q| > 1 && n == q[1] && n < |s.pcs| && n < MAX_CPUS && s.pcs[n] == LockSpin(l)
  {
    var q := Queue(s.locks[l]);
    if |q| > 1 {
      assert Linked(s, q, l, 1);
    }
  }

  /** Steps that touch only the CPU's own node, while it is not queued anywhere. */
  lemma {:induction false} PrepareInv(s: State, t: State, c: nat, l: nat)
    requires l < |s.locks| && LockInv(s, l) && c < |s.pcs| && !Queued(s.pcs[c], l)
    requires t.locks == s.locks && |t.pcs| == |s.pcs| && t.pcs == s.pcs[c := t.pcs[c]] && !Queued(t.pcs[c], l)
    requires |t.nodes| == |s.nodes| && (c < |s.nodes| ==> t.nodes == s.nodes[c := t.nodes[c]])
    ensures LockInv(t, l)
  {
    Frame(s, t, l);
  }

  /** What one access does to the nodes: it changes at most one, either the CPU's own
      while it is not queued, or that of a CPU queued on the same lock. */
  lemma {:induction false} StepNodes(s: State, c: nat, op: Op)
    requires Inv(s) && c < |s.pcs|
    ensures var t := Step(s, c, op);
            && Sized(t) && |t.locks| == |s.locks| && |t.pcs| == |s.pcs| && |t.nodes| == |s.nodes|
            && (forall d :: 0 <= d < |s.pcs| && d != c ==> t.pcs[d] == s.pcs[d])
            && (forall d :: 0 <= d < |s.pcs| && d != c && t.nodes[d] != s.nodes[d] ==>
                  !s.pcs[c].Idle? && !s.pcs[c].Fault? && Queued(s.pcs[d], s.pcs[c].l))
  {
    var pc := s.pcs[c];
    if op == Continue && pc.LockLink? {
      LinkInv(s, c, pc.l);
    } else if op == Continue && pc.UnlockSignal? {
      SignalTarget(s, c, pc.l);
    } else if pc.LockSwap? || pc.TryCas? {
      assert LockInv(s, pc.l);
    }
  }

  lemma {:induction false} SignalTarget(s: State, c: nat, l: nat)
    requires l < |s.locks| && LockInv(s, l) && c < |s.pcs| && s.pcs[c].UnlockSignal? && s.pcs[c].l == l
    ensures var q, n := Queue(s.locks[l]), s.pcs[c].n;
            |q| > 1 && q[0] == c && n == q[1] && n < |s.pcs| && n < |s.nodes| && s.pcs[n] == LockSpin(l)
  {
    EnteredIsHead(s, c, l);
    NextIsSuccessor(s, l);
  }

  lemma {:induction false} StepCpuOk(s: State, c: nat, op: Op, d: nat)
    requires Inv(s) && c < |s.pcs| && d < |s.pcs|
    ensures |Step(s, c, op).pcs| == |s.pcs| <= |Step(s, c, op).nodes| && CpuOk(Step(s, c, op), d)
  {
    StepNodes(s, c, op);
    assert CpuOk(s, c) && CpuOk(s, d);
    var pc := s.pcs[c];
    if c == d && op == Continue && (pc.UnlockLoad? || pc.UnlockReload?) {
      EnteredIsHead(s, c, pc.l);
      NextIsSuccessor(s, pc.l);
    }
  }

  lemma {:induction false} StepLockInv(s: State, c: nat, op: Op, l: nat)
    requires Inv(s) && c < |s.pcs| && l < |s.locks|
    ensures l < |Step(s, c, op).locks| && LockInv(Step(s, c, op), l)
  {
    hide QueueOk, WordOk, Queue;
    StepNodes(s, c, op);
    assert LockInv(s, l) && CpuOk(s, c);
    var pc := s.pcs[c];
    var t := Step(s, c, op);
    if pc.Idle? || pc.Fault? || pc.l != l {
      assert forall d :: 0 <= d < |s.pcs| && Queued(s.pcs[d], l) ==> d != c && t.nodes[d] == s.nodes[d];
      Frame(s, t, l);
    } else if t != s {
      OwnStepInv(s, c, op, l);
    }
  }

  lemma {:induction false} OwnStepInv(s: State, c: nat, op: Op, l: nat)
    requires Inv(s) && c < |s.pcs| && l < |s.locks| && LockInv(s, l) && CpuOk(s, c)
    requires !s.pcs[c].Idle? && !s.pcs[c].Fault? && s.pcs[c].l == l && Step(s, c, op) != s
    ensures l < |Step(s, c, op).locks| && LockInv(Step(s, c, op), l)
  {
    if Queued(s.pcs[c], l) {
      QueuedStepInv(s, c, op, l);
    } else {
      var t := Step(s, c, op);
      if s.pcs[c].LockSwap? || (s.pcs[c].TryCas? && s.locks[l].tail == None) {
        SwapInv(s, c, l);
      } else {
        PrepareInv(s, t, c, l);
      }
    }
  }

  lemma {:induction false} QueuedStepInv(s: State, c: nat, op: Op, l: nat)
    requires Inv(s) && c < |s.pcs| && l < |s.locks| && LockInv(s, l) && Queued(s.pcs[c], l) && Step(s, c, op) != s
    ensures l < |Step(s, c, op).locks| && LockInv(Step(s, c, op), l)
  {
    var t := Step(s, c, op);
    match s.pcs[c]
    case LockLink(_, _) => LinkInv(s, c, l);
    case UnlockSignal(_, _) => SignalTarget(s, c, l); LeaveInv(s, t, c, l);
    case UnlockCas(_) => CasInv(s, c, l);
    case _ => EnteredIsHead(s, c, l); NextIsSuccessor(s, l); HeadMoves(s, t, c, l);
  }

  lemma {:induction false} CasInv(s: State, c: nat, l: nat)
    requires Sized(s) && c < |s.pcs| && l < |s.locks| && LockInv(s, l) && s.pcs[c] == UnlockCas(l)
    ensures l < |Step(s, c, Continue).locks| && LockInv(Step(s, c, Continue), l)
  {
    EnteredIsHead(s, c, l);
    var q := Queue(s.locks[l]);
    var t := Step(s, c, Continue);
    if s.locks[l].tail == Some(c) {
      assert |q| == 1;
      LeaveInv(s, t, c, l);
    } else {
      HeadMoves(s, t, c, l);
    }
  }

  lemma {:induction false} StepInv(s: State, c: nat, op: Op)
    requires Inv(s) && c < |s.pcs|
    ensures Inv(Step(s, c, op))
  {
    var t := Step(s, c, op);
    StepNodes(s, c, op);
    forall d | 0 <= d < |t.pcs|
      ensures CpuOk(t, d)
    {
      StepCpuOk(s, c, op, d);
    }
    forall l | 0 <= l < |t.locks|
      ensures LockInv(t, l)
    {
      StepLockInv(s, c, op, l);
    }
  }
}
