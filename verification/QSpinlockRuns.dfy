/**
 Runs of the MCS queue lock: mutual exclusion, first come first served, and progress, over every
 interleaving.
 */
module QSpinlockRuns {
  import opened Common
  import opened QSpinlock

  // ---------------------------------------------------------------------------
  // Runs
  // ---------------------------------------------------------------------------

  /** The state after a schedule: each entry is one step of one CPU. */
  function Run(s: State, schedule: seq<(nat, Op)>): (t: State)
    requires Sized(s) && forall k :: 0 <= k < |schedule| ==> schedule[k].0 < |s.pcs|
    ensures Sized(t) && |t.pcs| == |s.pcs| && |t.locks| == |s.locks|
    decreases |schedule|
  {
    if schedule == [] then s
    else Run(Step(s, schedule[0].0, schedule[0].1), schedule[1..])
  }

  lemma {:induction false} RunInv(s: State, schedule: seq<(nat, Op)>)
    requires Inv(s) && forall k :: 0 <= k < |schedule| ==> schedule[k].0 < |s.pcs|
    ensures Inv(Run(s, schedule))
    decreases |schedule|
  {
    if schedule != [] {
      StepInv(s, schedule[0].0, schedule[0].1);
      RunInv(Step(s, schedule[0].0, schedule[0].1), schedule[1..]);
    }
  }

  /** No two CPUs are inside the critical section of the same lock. */
  ghost predicate Exclusive(s: State) {
    forall l: nat, a: nat, b: nat ::
      0 <= a < |s.pcs| && 0 <= b < |s.pcs| && Entered(s.pcs[a], l) && Entered(s.pcs[b], l) ==> a == b
  }

  /** CPUs enter each critical section exactly in the order of their tail swaps. */
  ghost predicate Fifo(s: State) {
    forall l :: 0 <= l < |s.locks| ==> s.locks[l].entries <= s.locks[l].arrivals
  }

  lemma {:induction false} MutualExclusion(s: State, schedule: seq<(nat, Op)>)
    requires Init(s) && forall k :: 0 <= k < |schedule| ==> schedule[k].0 < |s.pcs|
    ensures Exclusive(Run(s, schedule))
  {
    InitInv(s);
    RunInv(s, schedule);
    var t := Run(s, schedule);
    forall l: nat, a: nat, b: nat | 0 <= a < |t.pcs| && 0 <= b < |t.pcs| && Entered(t.pcs[a], l) && Entered(t.pcs[b], l)
      ensures a == b
    {
      assert l < |t.locks| && LockInv(t, l);
      EnteredIsHead(t, a, l);
      EnteredIsHead(t, b, l);
    }
  }

  lemma {:induction false} FirstComeFirstServed(s: State, schedule: seq<(nat, Op)>)
    requires Init(s) && forall k :: 0 <= k < |schedule| ==> schedule[k].0 < |s.pcs|
    ensures Fifo(Run(s, schedule))
  {
    InitInv(s);
    RunInv(s, schedule);
    var t := Run(s, schedule);
    forall l | 0 <= l < |t.locks|
      ensures t.locks[l].entries <= t.locks[l].arrivals
    {
      EntriesPrefix(t, l);
    }
  }

  lemma {:induction false} EntriesPrefix(s: State, l: nat)
    requires l < |s.locks| && LockInv(s, l)
    ensures s.locks[l].entries <= s.locks[l].arrivals
  {
    var lk := s.locks[l];
    var q := Queue(lk);
    if HeadEntered(s, q, l) {
      assert lk.arrivals[lk.released] == q[0];
      assert lk.entries == lk.arrivals[..lk.released + 1];
    }
  }

  // ---------------------------------------------------------------------------
  // Progress
  // ---------------------------------------------------------------------------

  /** CPU has joined the queue of l but has not entered the critical section. */
  predicate Waiting(pc: Pc, l: nat) {
    Queued(pc, l) && !Entered(pc, l)
  }

  /** An upper bound on the effective steps a queued CPU takes before it leaves. */
  function StepsLeft(pc: Pc): (n: nat) {
    match pc
    case LockLink(_, _) => 8
    case LockSpin(_) => 7
    case Critical(_) => 6
    case UnlockLoad(_) => 5
    case UnlockCas(_) => 4
    case UnlockWait(_) => 3
    case UnlockReload(_) => 2
    case UnlockSignal(_, _) => 1
    case _ => 0
  }

  /** The effective steps left to the CPUs in q, all of them queued. */
  function Work(pcs: seq<Pc>, q: seq<nat>): nat {
    if q == [] then 0
    else (if q[0] < |pcs| then StepsLeft(pcs[q[0]]) else 0) + Work(pcs, q[1..])
  }

  /** The part of the queue of l up to and including CPU w. */
  function UpTo(q: seq<nat>, w: nat): seq<nat> {
    if q == [] then [] else if q[0] == w then [w] else [q[0]] + UpTo(q[1..], w)
  }

  /** What must still happen before waiting CPU w can enter l. */
  function Rank(s: State, l: nat, w: nat): nat
    requires l < |s.locks| && s.locks[l].released <= |s.locks[l].arrivals|
  {
    Work(s.pcs, UpTo(Queue(s.locks[l]), w))
  }

  /** The step a CPU takes when it does not dawdle: inside the critical section it
      calls unlock, otherwise it performs its next access. */
  function NextOp(pc: Pc): Op {
    if pc.Critical? then CallUnlock else Continue
  }

  lemma {:induction false} WorkSame(pcs: seq<Pc>, pcs': seq<Pc>, q: seq<nat>)
    requires |pcs| == |pcs'| && forall i :: 0 <= i < |q| && q[i] < |pcs| ==> pcs[q[i]] == pcs'[q[i]]
    ensures Work(pcs, q) == Work(pcs', q)
  {
    if q != [] {
      assert forall i :: 0 <= i < |q[1..]| ==> q[1..][i] == q[i + 1];
      WorkSame(pcs, pcs', q[1..]);
    }
  }

  /** One CPU of a duplicate-free queue moves on. */
  lemma {:induction false} WorkDrops(pcs: seq<Pc>, pcs': seq<Pc>, q: seq<nat>, c: nat)
    requires c < |pcs| && |pcs'| == |pcs| && pcs' == pcs[c := pcs'[c]] && c in q
    requires forall i, j :: 0 <= i < j < |q| ==> q[i] != q[j]
    ensures Work(pcs', q) - Work(pcs, q) == StepsLeft(pcs'[c]) - StepsLeft(pcs[c])
  {
    assert forall i :: 0 <= i < |q[1..]| ==> q[1..][i] == q[i + 1];
    if q[0] == c {
      WorkSame(pcs, pcs', q[1..]);
    } else {
      assert c in q[1..];
      WorkDrops(pcs, pcs', q[1..], c);
    }
  }

  lemma {:induction false} UpToPrefix(q: seq<nat>, w: nat)
    requires w in q
    ensures UpTo(q, w) <= q && UpTo(q, w) != [] && w in UpTo(q, w) && UpTo(q, w)[0] == q[0]
    ensures q[0] != w ==> |q| > 1 && |UpTo(q, w)| > 1 && UpTo(q, w)[1] == q[1]
  {
    if q[0] != w {
      assert w in q[1..];
      UpToPrefix(q[1..], w);
    }
  }

  lemma {:induction false} UpToAppend(q: seq<nat>, w: nat, c: nat)
    requires w in q
    ensures UpTo(q + [c], w) == UpTo(q, w)
  {
    assert (q + [c])[1..] == q[1..] + [c];
    if q[0] != w {
      assert w in q[1..];
      UpToAppend(q[1..], w, c);
    }
  }

  /** How the history of lock l moves in one step of CPU c. */
  ghost predicate QueueMoves(s: State, t: State, c: nat, l: nat)
    requires c < |s.pcs| && c < |t.pcs| && l < |s.locks| && l < |t.locks|
    requires s.locks[l].released <= |s.locks[l].arrivals|
  {
    var lk, lk' := s.locks[l], t.locks[l];
    if !Queued(s.pcs[c], l) then
      lk'.released == lk.released && (lk'.arrivals == lk.arrivals || lk'.arrivals == lk.arrivals + [c])
    else if !Queued(t.pcs[c], l) then
      && Entered(s.pcs[c], l) && lk'.released == lk.released + 1 && lk'.arrivals == lk.arrivals
      && Queue(lk) != [] && Queue(lk)[0] == c && (s.pcs[c].UnlockCas? ==> |Queue(lk)| == 1)
    else
      && lk'.released == lk.released && lk'.arrivals == lk.arrivals
      && (t == s || StepsLeft(t.pcs[c]) < StepsLeft(s.pcs[c]))
  }

  lemma {:induction false} StepQueue(s: State, c: nat, op: Op, l: nat)
    requires Inv(s) && c < |s.pcs| && l < |s.locks| && LockInv(s, l)
    ensures QueueMoves(s, Step(s, c, op), c, l)
  {
    if Queued(s.pcs[c], l) {
      QueuedMoves(s, c, op, l);
    }
  }

  lemma {:induction false} QueuedMoves(s: State, c: nat, op: Op, l: nat)
    requires Inv(s) && c < |s.pcs| && l < |s.locks| && LockInv(s, l) && Queued(s.pcs[c], l)
    ensures QueueMoves(s, Step(s, c, op), c, l)
  {
    if Entered(s.pcs[c], l) {
      EnteredIsHead(s, c, l);
      TailOfOne(s, c, l);
    }
    hide QueueOk, WordOk, LockInv, Sized, CpuOk;
  }

  /** The head finds its own node in the lock word exactly when it is alone. */
  lemma {:induction false} TailOfOne(s: State, c: nat, l: nat)
    requires l < |s.locks| && LockInv(s, l) && Queue(s.locks[l]) != [] && Queue(s.locks[l])[0] == c
    ensures s.locks[l].tail == Some(c) <==> |Queue(s.locks[l])| == 1
  {
    var q := Queue(s.locks[l]);
    assert q[|q| - 1] == c <==> |q| == 1;
  }

  lemma {:induction false} JoinRank(s: State, t: State, c: nat, l: nat, w: nat)
    requires l < |s.locks| == |t.locks| && LockInv(s, l) && w in Queue(s.locks[l]) && c < |s.pcs|
    requires |t.pcs| == |s.pcs| && t.pcs == s.pcs[c := t.pcs[c]]
    requires !Queued(s.pcs[c], l) && QueueMoves(s, t, c, l)
    ensures t.locks[l].released <= |t.locks[l].arrivals|
    ensures c !in UpTo(Queue(s.locks[l]), w) && Rank(t, l, w) == Rank(s, l, w)
  {
    var q := Queue(s.locks[l]);
    assert c !in q;
    assert Queue(t.locks[l]) == q || Queue(t.locks[l]) == q + [c];
    JoinWork(s.pcs, t.pcs, q, c, w);
  }

  lemma {:induction false} JoinWork(pcs: seq<Pc>, pcs': seq<Pc>, q: seq<nat>, c: nat, w: nat)
    requires w in q && c !in q && c < |pcs| && |pcs'| == |pcs| && pcs' == pcs[c := pcs'[c]]
    ensures c !in UpTo(q, w) && Work(pcs', UpTo(q, w)) == Work(pcs, UpTo(q, w)) && UpTo(q + [c], w) == UpTo(q, w)
  {
    UpToPrefix(q, w);
    UpToAppend(q, w, c);
    hide Work, UpTo;
    var ahead := UpTo(q, w);
    assert forall i :: 0 <= i < |ahead| ==> ahead[i] == q[i];
    WorkSame(pcs, pcs', ahead);
  }

  lemma {:induction false} LeaveRank(s: State, t: State, c: nat, l: nat, w: nat)
    requires l < |s.locks| == |t.locks| && LockInv(s, l) && w in Queue(s.locks[l]) && c < |s.pcs|
    requires |t.pcs| == |s.pcs| && t.pcs == s.pcs[c := t.pcs[c]] && w < |s.pcs| && Waiting(s.pcs[w], l)
    requires Queued(s.pcs[c], l) && !Queued(t.pcs[c], l) && QueueMoves(s, t, c, l)
    ensures t.locks[l].released <= |t.locks[l].arrivals|
    ensures c in UpTo(Queue(s.locks[l]), w) && Rank(t, l, w) < Rank(s, l, w)
  {
    var q := Queue(s.locks[l]);
    assert Queue(t.locks[l]) == q[1..];
    assert c != w;
    LeaveWork(s.pcs, t.pcs, q, w);
  }

  lemma {:induction false} LeaveWork(pcs: seq<Pc>, pcs': seq<Pc>, q: seq<nat>, w: nat)
    requires w in q && q[0] != w && q[0] < |pcs| && |pcs'| == |pcs| && pcs' == pcs[q[0] := pcs'[q[0]]]
    requires forall i, j :: 0 <= i < j < |q| ==> q[i] != q[j]
    requires StepsLeft(pcs[q[0]]) > 0
    ensures q[0] in UpTo(q, w) && Work(pcs', UpTo(q[1..], w)) < Work(pcs, UpTo(q, w))
  {
    hide Work, UpTo, StepsLeft;
    var rest := UpTo(q[1..], w);
    assert q == [q[0]] + q[1..];
    UpToPrefix(q[1..], w);
    UpToFirst(q, w);
    WorkFirst(pcs, q[0], rest);
    forall i | 0 <= i < |rest|
      ensures rest[i] != q[0]
    {
      assert rest[i] == q[1..][i] == q[i + 1];
    }
    WorkSame(pcs, pcs', rest);
  }

  lemma {:induction false} UpToFirst(q: seq<nat>, w: nat)
    requires q != [] && q[0] != w
    ensures UpTo(q, w) == [q[0]] + UpTo(q[1..], w)
  {
  }

  lemma {:induction false} WorkFirst(pcs: seq<Pc>, c: nat, rest: seq<nat>)
    requires c < |pcs|
    ensures Work(pcs, [c] + rest) == StepsLeft(pcs[c]) + Work(pcs, rest)
  {
    assert ([c] + rest)[1..] == rest;
  }

  lemma {:induction false} MoveRank(s: State, t: State, c: nat, l: nat, w: nat)
    requires l < |s.locks| == |t.locks| && LockInv(s, l) && w in Queue(s.locks[l]) && c < |s.pcs|
    requires |t.pcs| == |s.pcs| && t.pcs == s.pcs[c := t.pcs[c]]
    requires Queued(s.pcs[c], l) && Queued(t.pcs[c], l) && QueueMoves(s, t, c, l)
    ensures t.locks[l].released <= |t.locks[l].arrivals|
    ensures if t != s && c in UpTo(Queue(s.locks[l]), w) then Rank(t, l, w) < Rank(s, l, w)
            else Rank(t, l, w) == Rank(s, l, w)
  {
    var q := Queue(s.locks[l]);
    UpToPrefix(q, w);
    var ahead := UpTo(q, w);
    assert forall i :: 0 <= i < |ahead| ==> ahead[i] == q[i];
    if c in ahead {
      WorkDrops(s.pcs, t.pcs, ahead, c);
    } else {
      WorkSame(s.pcs, t.pcs, ahead);
    }
  }

  /** No step moves a waiting CPU further from entering, and every effective step of a
      CPU ahead of it, or of itself, brings it closer. */
  lemma {:induction false} RankStep(s: State, c: nat, op: Op, l: nat, w: nat)
    requires Inv(s) && c < |s.pcs| && w < |s.pcs| && l < |s.locks| && Waiting(s.pcs[w], l)
    ensures LockInv(s, l) && LockInv(Step(s, c, op), l)
    ensures var t := Step(s, c, op);
            if t != s && c in UpTo(Queue(s.locks[l]), w) then Rank(t, l, w) < Rank(s, l, w)
            else Rank(t, l, w) == Rank(s, l, w)
  {
    var t := Step(s, c, op);
    StepLockInv(s, c, op, l);
    assert LockInv(s, l);
    StepQueue(s, c, op, l);
    StepNodes(s, c, op);
    assert w in Queue(s.locks[l]);
    RankMoves(s, t, c, l, w);
  }

  lemma {:induction false} RankMoves(s: State, t: State, c: nat, l: nat, w: nat)
    requires l < |s.locks| == |t.locks| && LockInv(s, l) && w in Queue(s.locks[l]) && c < |s.pcs|
    requires |t.pcs| == |s.pcs| && t.pcs == s.pcs[c := t.pcs[c]] && w < |s.pcs| && Waiting(s.pcs[w], l)
    requires QueueMoves(s, t, c, l)
    ensures t.locks[l].released <= |t.locks[l].arrivals|
    ensures if t != s && c in UpTo(Queue(s.locks[l]), w) then Rank(t, l, w) < Rank(s, l, w)
            else Rank(t, l, w) == Rank(s, l, w)
  {
    if !Queued(s.pcs[c], l) {
      JoinRank(s, t, c, l, w);
    } else if !Queued(t.pcs[c], l) {
      LeaveRank(s, t, c, l, w);
    } else {
      MoveRank(s, t, c, l, w);
    }
  }

  /** No handoff is lost: while CPU w waits, some CPU ahead of it, or w itself, can take
      an effective step. */
  lemma {:induction false} SomeoneCanMove(s: State, l: nat, w: nat) returns (c: nat)
    requires Inv(s) && w < |s.pcs| && l < |s.locks| && Waiting(s.pcs[w], l)
    ensures c < |s.pcs| && Step(s, c, NextOp(s.pcs[c])) != s
    ensures LockInv(s, l) && c in UpTo(Queue(s.locks[l]), w)
  {
    assert LockInv(s, l);
    var q := Queue(s.locks[l]);
    assert w in q;
    UpToPrefix(q, w);
    NextIsSuccessor(s, l);
    c := q[0];
    if s.pcs[c].UnlockWait? && s.nodes[c].next == None {
      assert c != w;
      c := q[1];
    }
    StepMoves(s, c, l);
  }

  lemma {:induction false} StepMoves(s: State, c: nat, l: nat)
    requires Inv(s) && c < |s.pcs| && Queued(s.pcs[c], l)
    requires s.pcs[c].LockSpin? ==> s.nodes[c].locked
    requires s.pcs[c].UnlockWait? ==> s.nodes[c].next != None
    ensures Step(s, c, NextOp(s.pcs[c])) != s
  {
    assert CpuOk(s, c);
    assert Step(s, c, NextOp(s.pcs[c])).pcs[c] != s.pcs[c];
  }

  /** The effective steps that a schedule gives to w and the CPUs ahead of it while w waits. */
  ghost function Useful(s: State, schedule: seq<(nat, Op)>, l: nat, w: nat): nat
    requires Inv(s) && w < |s.pcs| && l < |s.locks|
    requires forall k :: 0 <= k < |schedule| ==> schedule[k].0 < |s.pcs|
    decreases |schedule|
  {
    if schedule == [] || !Waiting(s.pcs[w], l) then 0
    else
      var t := Step(s, schedule[0].0, schedule[0].1);
      assert Inv(t) by { StepInv(s, schedule[0].0, schedule[0].1); }
      assert LockInv(s, l);
      (if t != s && schedule[0].0 in UpTo(Queue(s.locks[l]), w) then 1 else 0) + Useful(t, schedule[1..], l, w)
  }

  /** A waiting CPU enters after at most Rank such steps, whatever the other CPUs do:
      a schedule that gives it more than Rank has let it in. */
  lemma {:induction false} BoundedWaiting(s: State, schedule: seq<(nat, Op)>, l: nat, w: nat)
    requires Inv(s) && w < |s.pcs| && l < |s.locks| && Waiting(s.pcs[w], l)
    requires forall k :: 0 <= k < |schedule| ==> schedule[k].0 < |s.pcs|
    ensures LockInv(s, l) && Useful(s, schedule, l, w) <= Rank(s, l, w)
    decreases |schedule|
  {
    assert LockInv(s, l);
    if schedule != [] {
      var c, op := schedule[0].0, schedule[0].1;
      var t := Step(s, c, op);
      StepInv(s, c, op);
      RankStep(s, c, op, l, w);
      if Waiting(t.pcs[w], l) {
        BoundedWaiting(t, schedule[1..], l, w);
      }
    }
  }

  // ---------------------------------------------------------------------------
  // Fair schedules
  // ---------------------------------------------------------------------------

  ghost predicate OnCpus(schedule: seq<(nat, Op)>, n: nat) {
    forall k :: 0 <= k < |schedule| ==> schedule[k].0 < n
  }

  /** At some point of the run CPU w is inside the critical section of l. */
  ghost predicate Enters(s: State, schedule: seq<(nat, Op)>, l: nat, w: nat)
    requires Sized(s) && w < |s.pcs| && OnCpus(schedule, |s.pcs|)
    decreases |schedule|
  {
    Entered(s.pcs[w], l) || (schedule != [] && Enters(Step(s, schedule[0].0, schedule[0].1), schedule[1..], l, w))
  }

  /** A part of a schedule in which every CPU gets to perform an access and, should it be inside its
      critical section, to call unlock; nothing is said of the order or of what else happens. */
  ghost predicate Round(part: seq<(nat, Op)>, n: nat) {
    OnCpus(part, n) && forall c: nat :: c < n ==> (c, Continue) in part && (c, CallUnlock) in part
  }

  function Rounds(parts: seq<seq<(nat, Op)>>): seq<(nat, Op)> {
    if parts == [] then [] else parts[0] + Rounds(parts[1..])
  }

  lemma {:induction false} RoundsOnCpus(parts: seq<seq<(nat, Op)>>, n: nat)
    requires forall i :: 0 <= i < |parts| ==> Round(parts[i], n)
    ensures OnCpus(Rounds(parts), n)
  {
    if parts != [] {
      RoundsOnCpus(parts[1..], n);
    }
  }

  lemma {:induction false} EntersSplits(s: State, a: seq<(nat, Op)>, b: seq<(nat, Op)>, l: nat, w: nat)
    requires Sized(s) && w < |s.pcs| && OnCpus(a, |s.pcs|) && OnCpus(b, |s.pcs|)
    requires Enters(s, a, l, w) || Enters(Run(s, a), b, l, w)
    ensures OnCpus(a + b, |s.pcs|) && Enters(s, a + b, l, w)
    decreases |a|
  {
    hide Step, Entered;
    if a == [] {
      assert a + b == b;
    } else {
      assert (a + b)[1..] == a[1..] + b;
      if !Entered(s.pcs[w], l) {
        EntersSplits(Step(s, a[0].0, a[0].1), a[1..], b, l, w);
      }
    }
  }

  /** One step leaves a waiting CPU waiting, or lets it in. */
  lemma {:induction false} WaitsOrEnters(s: State, c: nat, op: Op, l: nat, w: nat)
    requires Sized(s) && c < |s.pcs| && w < |s.pcs| && Waiting(s.pcs[w], l)
    requires c != w ==> Step(s, c, op).pcs[w] == s.pcs[w]
    ensures var pc := Step(s, c, op).pcs[w]; Waiting(pc, l) || Entered(pc, l)
  {
  }

  /** The rank never grows while w waits. */
  lemma {:induction false} RankKept(s: State, schedule: seq<(nat, Op)>, l: nat, w: nat)
    requires Inv(s) && w < |s.pcs| && l < |s.locks| && Waiting(s.pcs[w], l) && OnCpus(schedule, |s.pcs|)
    ensures Inv(Run(s, schedule)) && LockInv(s, l) && LockInv(Run(s, schedule), l)
    ensures Enters(s, schedule, l, w) || (Waiting(Run(s, schedule).pcs[w], l)
                                          && Rank(Run(s, schedule), l, w) <= Rank(s, l, w))
    decreases |schedule|
  {
    hide Step, LockInv, Waiting, Rank, Entered;
    RunInv(s, schedule);
    InvLock(s, l);
    InvLock(Run(s, schedule), l);
    if schedule != [] {
      var c, op := schedule[0].0, schedule[0].1;
      OneStep(s, c, op, l, w);
      var t := Step(s, c, op);
      if Waiting(t.pcs[w], l) {
        RankKept(t, schedule[1..], l, w);
      }
    }
  }

  lemma {:induction false} InvLock(s: State, l: nat)
    requires Inv(s) && l < |s.locks|
    ensures LockInv(s, l) && s.locks[l].released <= |s.locks[l].arrivals|
  {
  }

  /** One step, as seen from a waiting CPU. */
  lemma {:induction false} OneStep(s: State, c: nat, op: Op, l: nat, w: nat)
    requires Inv(s) && c < |s.pcs| && w < |s.pcs| && l < |s.locks| && Waiting(s.pcs[w], l)
    ensures LockInv(s, l) && LockInv(Step(s, c, op), l) && Inv(Step(s, c, op))
    ensures var t := Step(s, c, op);
            && (Waiting(t.pcs[w], l) || Entered(t.pcs[w], l))
            && (if t != s && c in UpTo(Queue(s.locks[l]), w) then Rank(t, l, w) < Rank(s, l, w)
                else Rank(t, l, w) == Rank(s, l, w))
  {
    hide Rank, UpTo, Queue, LockInv, CpuOk;
    StepInv(s, c, op);
    StepNodes(s, c, op);
    RankStep(s, c, op, l, w);
    WaitsOrEnters(s, c, op, l, w);
  }

  /** CPU c is at w's place in the queue of l or ahead of it, and can take an effective step. */
  ghost predicate CanHelp(s: State, l: nat, w: nat, c: nat)
    requires Sized(s) && l < |s.locks|
  {
    && c < |s.pcs| && s.locks[l].released <= |s.locks[l].arrivals| && c in UpTo(Queue(s.locks[l]), w)
    && Step(s, c, NextOp(s.pcs[c])) != s
  }

  /** What a CPU waits for is not taken away by the others. */
  lemma {:induction false} StaysAble(s: State, c: nat, d: nat, op: Op, l: nat, w: nat)
    requires Inv(s) && c < |s.pcs| && d < |s.pcs| && w < |s.pcs| && l < |s.locks| && c != d && Waiting(s.pcs[w], l)
    requires CanHelp(s, l, w, c) && (Step(s, d, op) == s || d !in UpTo(Queue(s.locks[l]), w))
    ensures CanHelp(Step(s, d, op), l, w, c)
  {
    hide QueueOk, WordOk;
    var t := Step(s, d, op);
    if t != s {
      InvLock(s, l);
      StepNodes(s, d, op);
      StepQueue(s, d, op, l);
      assert w in Queue(s.locks[l]) by { InQueue(s, l, w); }
      QueueAheadKept(s, t, d, l, w);
      AheadQueued(s, l, w, c);
      NodeKept(s, c, d, op, l);
      StepMoves(t, c, l) by { StepInv(s, d, op); }
    }
  }

  lemma {:induction false} InQueue(s: State, l: nat, w: nat)
    requires l < |s.locks| && LockInv(s, l) && w < |s.pcs| && Queued(s.pcs[w], l)
    ensures w in Queue(s.locks[l])
  {
  }

  /** The CPUs ahead of w stay where they are while none of them steps. */
  lemma {:induction false} QueueAheadKept(s: State, t: State, d: nat, l: nat, w: nat)
    requires l < |s.locks| == |t.locks| && LockInv(s, l) && w < |s.pcs| && Waiting(s.pcs[w], l)
    requires w in Queue(s.locks[l])
    requires d < |s.pcs| == |t.pcs| && QueueMoves(s, t, d, l) && d !in UpTo(Queue(s.locks[l]), w)
    ensures t.locks[l].released <= |t.locks[l].arrivals| && UpTo(Queue(t.locks[l]), w) == UpTo(Queue(s.locks[l]), w)
  {
    hide QueueOk, WordOk;
    var q := Queue(s.locks[l]);
    UpToPrefix(q, w);
    if !Queued(s.pcs[d], l) {
      UpToAppend(q, w, d);
      assert Queue(t.locks[l]) == q || Queue(t.locks[l]) == q + [d];
    }
  }

  lemma {:induction false} AheadQueued(s: State, l: nat, w: nat, c: nat)
    requires l < |s.locks| && LockInv(s, l) && w in Queue(s.locks[l]) && c in UpTo(Queue(s.locks[l]), w)
    ensures c < |s.pcs| && Queued(s.pcs[c], l)
  {
    UpToPrefix(Queue(s.locks[l]), w);
    assert c in Queue(s.locks[l]);
  }

  /** A step of another CPU neither clears the flag of a queued CPU nor unlinks it. */
  lemma {:induction false} NodeKept(s: State, c: nat, d: nat, op: Op, l: nat)
    requires Sized(s) && c < |s.pcs| && d < |s.pcs| && c != d && Queued(s.pcs[c], l)
    requires Step(s, c, NextOp(s.pcs[c])) != s
    requires Step(s, d, op).pcs[c] == s.pcs[c]
    ensures var t := Step(s, d, op);
            && (t.pcs[c].LockSpin? ==> t.nodes[c].locked)
            && (t.pcs[c].UnlockWait? ==> t.nodes[c].next != None)
  {
    assert NodeOf(c) == c && NodeOf(d) == d;
  }

  /** Once a CPU that can help is given its next access, w is inside or its rank has dropped. */
  lemma {:induction false} HelpComes(s: State, schedule: seq<(nat, Op)>, l: nat, w: nat, c: nat)
    requires Inv(s) && w < |s.pcs| && l < |s.locks| && Waiting(s.pcs[w], l) && OnCpus(schedule, |s.pcs|)
    requires CanHelp(s, l, w, c) && (c, NextOp(s.pcs[c])) in schedule
    ensures Inv(Run(s, schedule)) && LockInv(s, l) && LockInv(Run(s, schedule), l)
    ensures Enters(s, schedule, l, w) || (Waiting(Run(s, schedule).pcs[w], l)
                                          && Rank(Run(s, schedule), l, w) < Rank(s, l, w))
    decreases |schedule|
  {
    hide Step, LockInv, Waiting, Rank, Entered, Queue, UpTo, NextOp;
    RunInv(s, schedule);
    InvLock(s, l);
    InvLock(Run(s, schedule), l);
    var d, op := schedule[0].0, schedule[0].1;
    OneStep(s, d, op, l, w);
    var t := Step(s, d, op);
    if Waiting(t.pcs[w], l) {
      if t != s && d in UpTo(Queue(s.locks[l]), w) {
        RankKept(t, schedule[1..], l, w);
      } else {
        if d == c {
          assert t == s && op != NextOp(s.pcs[c]);
        } else {
          StaysAble(s, c, d, op, l, w);
          PcKept(s, c, d, op);
        }
        assert schedule == [schedule[0]] + schedule[1..];
        HelpComes(t, schedule[1..], l, w, c);
      }
    }
  }

  lemma {:induction false} PcKept(s: State, c: nat, d: nat, op: Op)
    requires Inv(s) && c < |s.pcs| && d < |s.pcs| && c != d
    ensures Step(s, d, op).pcs[c] == s.pcs[c]
  {
    StepNodes(s, d, op);
  }

  /** No CPU waits forever: a schedule of more fair rounds than the rank of a waiting CPU lets it in. */
  lemma {:induction false} FairRoundsEnter(s: State, parts: seq<seq<(nat, Op)>>, l: nat, w: nat)
    requires Inv(s) && w < |s.pcs| && l < |s.locks| && LockInv(s, l) && Waiting(s.pcs[w], l)
    requires (forall i :: 0 <= i < |parts| ==> Round(parts[i], |s.pcs|)) && |parts| > Rank(s, l, w)
    ensures OnCpus(Rounds(parts), |s.pcs|) && Enters(s, Rounds(parts), l, w)
    decreases |parts|
  {
    hide Step, Waiting, Rank, Entered, Enters, LockInv;
    InvLock(s, l);
    RoundsOnCpus(parts, |s.pcs|);
    RoundsOnCpus(parts[1..], |s.pcs|);
    assert Round(parts[0], |s.pcs|);
    var c := SomeoneCanMove(s, l, w);
    assert NextOp(s.pcs[c]) == Continue || NextOp(s.pcs[c]) == CallUnlock;
    HelpComes(s, parts[0], l, w, c);
    if !Enters(s, parts[0], l, w) {
      InvLock(Run(s, parts[0]), l);
      FairRoundsEnter(Run(s, parts[0]), parts[1..], l, w);
    }
    EntersSplits(s, parts[0], Rounds(parts[1..]), l, w);
  }

  // ---------------------------------------------------------------------------
  // What the calls return
  // ---------------------------------------------------------------------------

  lemma {:induction false} RunConcat(s: State, a: seq<(nat, Op)>, b: seq<(nat, Op)>)
    requires Sized(s) && OnCpus(a, |s.pcs|) && OnCpus(b, |s.pcs|)
    ensures OnCpus(a + b, |s.pcs|) && Run(s, a + b) == Run(Run(s, a), b)
    decreases |a|
  {
    hide Step;
    if a == [] {
      assert a + b == b;
    } else {
      assert (a + b)[1..] == a[1..] + b;
      RunConcat(Step(s, a[0].0, a[0].1), a[1..], b);
    }
  }

  /** How many accesses of CPU c a schedule holds. */
  function Accesses(schedule: seq<(nat, Op)>, c: nat): nat {
    if schedule == [] then 0 else (if schedule[0] == (c, Continue) then 1 else 0) + Accesses(schedule[1..], c)
  }

  /** A call of try_lock on l is in progress. */
  predicate InTry(pc: Pc, l: nat) {
    pc == TryClearNext(l) || pc == TryClearFlag(l) || pc == TryCas(l)
  }

  /** A call of lock on l is in progress and has not reached the tail swap. */
  predicate InPrologue(pc: Pc, l: nat) {
    pc == LockClearNext(l) || pc == LockClearFlag(l) || pc == LockSwap(l)
  }

  /** A call of unlock on l is in progress. */
  predicate InUnlock(pc: Pc, l: nat) {
    Entered(pc, l) && !pc.Critical?
  }

  ghost predicate NobodyQueued(s: State, l: nat) {
    forall d :: 0 <= d < |s.pcs| ==> !Queued(s.pcs[d], l)
  }

  /** The accesses of a call that are left before the one on the tail. */
  function Ahead(pc: Pc): nat {
    match pc
    case LockClearNext(_) => 2
    case LockClearFlag(_) => 1
    case TryClearNext(_) => 2
    case TryClearFlag(_) => 1
    case _ => 0
  }

  /** Whatever the other CPUs do, the call gets to its access on the tail by its own accesses alone. */
  lemma {:induction false} Prepares(s: State, during: seq<(nat, Op)>, c: nat, l: nat)
    requires Inv(s) && c < |s.pcs| && OnCpus(during, |s.pcs|) && Accesses(during, c) <= Ahead(s.pcs[c])
    requires InTry(s.pcs[c], l) || InPrologue(s.pcs[c], l)
    ensures var pc := Run(s, during).pcs[c];
            && (InTry(pc, l) <==> InTry(s.pcs[c], l)) && (InPrologue(pc, l) <==> InPrologue(s.pcs[c], l))
            && Ahead(pc) == Ahead(s.pcs[c]) - Accesses(during, c)
    decreases |during|
  {
    if during != [] {
      var d, op := during[0].0, during[0].1;
      StepInv(s, d, op);
      if d != c {
        PcKept(s, c, d, op);
      }
      hide Inv, Sized, CpuOk, LockInv;
      Prepares(Step(s, d, op), during[1..], c, l);
    }
  }

  lemma {:induction false} TailTells(s: State, l: nat)
    requires l < |s.locks| && LockInv(s, l)
    ensures s.locks[l].tail == None <==> NobodyQueued(s, l)
  {
    var q := Queue(s.locks[l]);
    if q != [] {
      assert q[0] in q;
    } else {
      assert forall d: nat :: d !in q;
    }
  }

  /** CPU c joins l between the states u and v; it is inside at once exactly if nobody is queued. */
  ghost predicate Joins(u: State, v: State, c: nat, l: nat)
    requires c < |v.pcs| && l < |u.locks| && l < |v.locks|
  {
    && v.locks[l].arrivals == u.locks[l].arrivals + [c]
    && if NobodyQueued(u, l) then Entered(v.pcs[c], l) && v.locks[l].entries == u.locks[l].entries + [c]
       else Waiting(v.pcs[c], l) && v.locks[l].entries == u.locks[l].entries
  }

  /** For every run and every call of try_lock in it: until its third access the call is in progress; by
      the third, it gets in exactly if nobody is queued on the lock, and otherwise it is over without a
      trace in any lock. */
  lemma {:induction false} TryLockReturns(s: State, early: seq<(nat, Op)>, during: seq<(nat, Op)>, c: nat, l: nat)
    requires Init(s) && OnCpus(early, |s.pcs|) && OnCpus(during, |s.pcs|) && c < |s.pcs| && l < |s.locks|
    requires Run(s, early).pcs[c].Idle? && Accesses(during, c) <= 2
    ensures OnCpus(early + [(c, CallTryLock(l))] + during, |s.pcs|)
    ensures OnCpus(early + [(c, CallTryLock(l))] + during + [(c, Continue)], |s.pcs|)
    ensures var u, v := Run(s, early + [(c, CallTryLock(l))] + during),
                        Run(s, early + [(c, CallTryLock(l))] + during + [(c, Continue)]);
            && InTry(u.pcs[c], l)
            && (Accesses(during, c) < 2 ==> InTry(v.pcs[c], l) && v.locks == u.locks)
            && (Accesses(during, c) == 2 ==>
                  if NobodyQueued(u, l) then Joins(u, v, c, l) else v.pcs[c].Idle? && v.locks == u.locks)
  {
    var u := CallRuns(s, early, CallTryLock(l), during, c);
    hide Step, Run;
    TryStarts(Run(s, early), c, l);
    Prepares(Step(Run(s, early), c, CallTryLock(l)), during, c, l);
    TryGoesOn(u, c, l);
  }

  /** The state before the last access of a call, and the one after it. */
  lemma {:induction false} CallRuns(s: State, early: seq<(nat, Op)>, op: Op, during: seq<(nat, Op)>, c: nat)
    returns (u: State)
    requires Init(s) && OnCpus(early, |s.pcs|) && OnCpus(during, |s.pcs|) && c < |s.pcs|
    ensures OnCpus(early + [(c, op)] + during, |s.pcs|) && u == Run(s, early + [(c, op)] + during)
    ensures OnCpus(early + [(c, op)] + during + [(c, Continue)], |s.pcs|) && Inv(u)
    ensures Run(s, early + [(c, op)] + during + [(c, Continue)]) == Step(u, c, Continue)
    ensures Inv(Run(s, early)) && Inv(Step(Run(s, early), c, op)) && u == Run(Step(Run(s, early), c, op), during)
  {
    hide Step;
    InitInv(s);
    RunInv(s, early);
    StepInv(Run(s, early), c, op);
    RunConcat(s, early, [(c, op)]);
    OneRun(Run(s, early), c, op);
    RunConcat(s, early + [(c, op)], during);
    u := Run(s, early + [(c, op)] + during);
    RunInv(s, early + [(c, op)] + during);
    RunConcat(s, early + [(c, op)] + during, [(c, Continue)]);
    OneRun(u, c, Continue);
  }

  lemma {:induction false} OneRun(s: State, c: nat, op: Op)
    requires Sized(s) && c < |s.pcs|
    ensures Run(s, [(c, op)]) == Step(s, c, op)
  {
    hide Step;
    assert [(c, op)][1..] == [];
  }

  lemma {:induction false} TryStarts(s: State, c: nat, l: nat)
    requires Inv(s) && c < |s.pcs| && l < |s.locks| && s.pcs[c].Idle?
    ensures Step(s, c, CallTryLock(l)).pcs[c] == TryClearNext(l)
  {
  }

  lemma {:induction false} TryGoesOn(u: State, c: nat, l: nat)
    requires Inv(u) && c < |u.pcs| && InTry(u.pcs[c], l) && l < |u.locks|
    ensures var v := Step(u, c, Continue);
            if Ahead(u.pcs[c]) > 0 then InTry(v.pcs[c], l) && v.locks == u.locks
            else if NobodyQueued(u, l) then Joins(u, v, c, l)
            else v.pcs[c].Idle? && v.locks == u.locks
  {
    InvLock(u, l);
    TailTells(u, l);
    hide LockInv, CpuOk;
  }

  /** For every run and every call of lock in it: until its third access the call has no effect on any
      lock; by the third, it gets in or, if somebody is queued, joins the queue; and from then on, until
      it is inside, it waits. */
  lemma {:induction false} LockReturns(s: State, early: seq<(nat, Op)>, during: seq<(nat, Op)>, later: seq<(nat, Op)>,
                                       c: nat, l: nat)
    requires Init(s) && OnCpus(early, |s.pcs|) && OnCpus(during, |s.pcs|) && c < |s.pcs| && l < |s.locks|
    requires Run(s, early).pcs[c].Idle? && Accesses(during, c) <= 2 && OnCpus(later, |s.pcs|)
    ensures OnCpus(early + [(c, CallLock(l))] + during, |s.pcs|)
    ensures OnCpus(early + [(c, CallLock(l))] + during + [(c, Continue)], |s.pcs|)
    ensures var u, v := Run(s, early + [(c, CallLock(l))] + during),
                        Run(s, early + [(c, CallLock(l))] + during + [(c, Continue)]);
            && InPrologue(u.pcs[c], l)
            && (Accesses(during, c) < 2 ==> InPrologue(v.pcs[c], l) && v.locks == u.locks)
            && (Accesses(during, c) == 2 ==> Joins(u, v, c, l))
            && (Accesses(during, c) == 2 ==> Enters(v, later, l, c) || Waiting(Run(v, later).pcs[c], l))
  {
    var u := CallRuns(s, early, CallLock(l), during, c);
    hide Step, Run, Enters;
    LockStarts(Run(s, early), c, l);
    Prepares(Step(Run(s, early), c, CallLock(l)), during, c, l);
    LockGoesOn(u, c, l);
    if Accesses(during, c) == 2 {
      WaitsUntil(u, c, later, l);
    }
  }

  lemma {:induction false} WaitsUntil(u: State, c: nat, later: seq<(nat, Op)>, l: nat)
    requires Inv(u) && c < |u.pcs| && l < |u.locks| && OnCpus(later, |u.pcs|)
    requires Joins(u, Step(u, c, Continue), c, l)
    ensures var v := Step(u, c, Continue); Enters(v, later, l, c) || Waiting(Run(v, later).pcs[c], l)
  {
    StepInv(u, c, Continue);
    var v := Step(u, c, Continue);
    hide Step;
    if Waiting(v.pcs[c], l) {
      RankKept(v, later, l, c);
    }
  }

  lemma {:induction false} LockStarts(s: State, c: nat, l: nat)
    requires Inv(s) && c < |s.pcs| && l < |s.locks| && s.pcs[c].Idle?
    ensures Step(s, c, CallLock(l)).pcs[c] == LockClearNext(l)
  {
  }

  lemma {:induction false} LockGoesOn(u: State, c: nat, l: nat)
    requires Inv(u) && c < |u.pcs| && InPrologue(u.pcs[c], l) && l < |u.locks|
    ensures var v := Step(u, c, Continue);
            if Ahead(u.pcs[c]) > 0 then InPrologue(v.pcs[c], l) && v.locks == u.locks else Joins(u, v, c, l)
  {
    InvLock(u, l);
    TailTells(u, l);
    hide LockInv, CpuOk;
  }

  ghost predicate AloneIn(s: State, c: nat, l: nat) {
    forall d :: 0 <= d < |s.pcs| && d != c ==> !Queued(s.pcs[d], l)
  }

  /** What one step of a run, of any CPU d, means for the unlocking of l by c: it starts when c asks for it,
      stays in progress or ends with one release more, and while nobody else is queued every access of c
      takes it further, the last of them leaving the lock free. */
  ghost predicate Unlocks(u: State, v: State, c: nat, d: nat, op: Op, l: nat)
    requires c < |u.pcs| == |v.pcs| && l < |u.locks| == |v.locks|
  {
    && (u.pcs[c] == Critical(l) ==> v.pcs[c] == if d == c && op == CallUnlock then UnlockLoad(l) else Critical(l))
    && (InUnlock(u.pcs[c], l) ==>
          if InUnlock(v.pcs[c], l) then v.locks[l].released == u.locks[l].released
          else
            && d == c && v.pcs[c].Idle? && v.locks[l].released == u.locks[l].released + 1
            && v.locks[l].arrivals == u.locks[l].arrivals && v.locks[l].entries == u.locks[l].entries)
    && (InUnlock(u.pcs[c], l) && d == c && op == Continue && AloneIn(u, c, l) ==>
          if u.pcs[c].UnlockLoad? then v.pcs[c] == UnlockCas(l) else v.pcs[c].Idle? && v.locks[l].tail == None)
  }

  lemma {:induction false} UnlockReturns(s: State, schedule: seq<(nat, Op)>, c: nat, d: nat, op: Op, l: nat)
    requires Init(s) && OnCpus(schedule, |s.pcs|) && c < |s.pcs| && d < |s.pcs| && l < |s.locks|
    ensures OnCpus(schedule + [(d, op)], |s.pcs|)
    ensures Unlocks(Run(s, schedule), Run(s, schedule + [(d, op)]), c, d, op, l)
  {
    InitInv(s);
    RunInv(s, schedule);
    RunConcat(s, schedule, [(d, op)]);
    OneRun(Run(s, schedule), d, op);
    UnlockGoesOn(Run(s, schedule), c, d, op, l);
  }

  lemma {:induction false} UnlockGoesOn(u: State, c: nat, d: nat, op: Op, l: nat)
    requires Inv(u) && c < |u.pcs| && d < |u.pcs| && l < |u.locks|
    ensures Unlocks(u, Step(u, d, op), c, d, op, l)
  {
    InvLock(u, l);
    if d != c {
      PcKept(u, c, d, op);
      if InUnlock(u.pcs[c], l) {
        OthersRelease(u, c, d, op, l);
      }
    } else if Entered(u.pcs[c], l) {
      ReloadFinds(u, c, l);
      if AloneIn(u, c, l) {
        AloneIsQueue(u, c, l);
      }
      OwnUnlock(u, c, op, l);
    }
  }

  lemma {:induction false} ReloadFinds(u: State, c: nat, l: nat)
    requires l < |u.locks| && LockInv(u, l) && c < |u.pcs| && Entered(u.pcs[c], l)
    ensures c < |u.nodes| && (u.pcs[c].UnlockReload? ==> u.nodes[c].next != None)
  {
    EnteredIsHead(u, c, l);
  }

  lemma {:induction false} OwnUnlock(u: State, c: nat, op: Op, l: nat)
    requires Sized(u) && c < |u.pcs| && l < |u.locks| && Entered(u.pcs[c], l)
    requires u.pcs[c].UnlockReload? ==> u.nodes[c].next != None
    requires AloneIn(u, c, l) ==>
               && (u.pcs[c].UnlockLoad? || u.pcs[c].UnlockCas? || u.pcs[c].Critical?)
               && u.nodes[c].next == None && u.locks[l].tail == Some(c)
    ensures Unlocks(u, Step(u, c, op), c, c, op, l)
  {
    hide AloneIn;
  }

  lemma {:induction false} AloneIsQueue(s: State, c: nat, l: nat)
    requires l < |s.locks| && LockInv(s, l) && c < |s.pcs| && Entered(s.pcs[c], l) && AloneIn(s, c, l)
    ensures |Queue(s.locks[l])| == 1
    ensures s.pcs[c].UnlockLoad? || s.pcs[c].UnlockCas? || s.pcs[c].Critical?
    ensures c < |s.nodes| && s.nodes[c].next == None && s.locks[l].tail == Some(c)
  {
    EnteredIsHead(s, c, l);
    var q := Queue(s.locks[l]);
    forall i | 0 <= i < |q|
      ensures q[i] == c
    {
      assert q[i] in q;
    }
  }

  /** Nobody else releases the lock meanwhile. */
  lemma {:induction false} OthersRelease(u: State, c: nat, d: nat, op: Op, l: nat)
    requires Inv(u) && c < |u.pcs| && d < |u.pcs| && d != c && l < |u.locks| && Entered(u.pcs[c], l)
    ensures Step(u, d, op).locks[l].released == u.locks[l].released
  {
    InvLock(u, l);
    EnteredIsHead(u, c, l);
    StepQueue(u, d, op, l);
  }
}
