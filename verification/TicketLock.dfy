/**
 The ticket lock as a state machine over its atomic accesses, under sequential consistency. The
 words `next` and `owner` are the numbers of tickets taken and served, modulo 2^32.
 */
module TicketLock {

  const TICKETS: nat := 0x1_0000_0000

  /** The access a CPU performs next. `seen` is the number of tickets taken when try_lock read `next`. */
  datatype Pc = Idle | Waiting(ticket: nat) | Inside(ticket: nat) | TryOwner(seen: nat) | TryCas(seen: nat)

  datatype Op = Lock | TryLock | Unlock | Continue

  /** `arrivals` and `entries` are the CPUs in the order of their tickets and of their entries; the
      code never reads them. */
  datatype State = State(taken: nat, served: nat, pcs: seq<Pc>, arrivals: seq<nat>, entries: seq<nat>)

  function Word(n: nat): nat {
    n % TICKETS
  }

  function TakeTicket(s: State, c: nat, pc: Pc): State
    requires c < |s.pcs|
  {
    s.(taken := s.taken + 1, pcs := s.pcs[c := pc], arrivals := s.arrivals + [c])
  }

  function Enter(s: State, c: nat, ticket: nat): State
    requires c < |s.pcs|
  {
    s.(pcs := s.pcs[c := Inside(ticket)], entries := s.entries + [c])
  }

  /** One access of CPU c. A spin whose condition does not hold yet leaves the state as it is. */
  function Step(s: State, c: nat, op: Op): (t: State)
    requires c < |s.pcs|
    ensures |t.pcs| == |s.pcs|
  {
    match s.pcs[c]
    case Idle =>
      if op == Lock then TakeTicket(s, c, Waiting(s.taken))
      else if op == TryLock then s.(pcs := s.pcs[c := TryOwner(s.taken)])
      else s
    case Waiting(t) => if Word(s.served) == Word(t) then Enter(s, c, t) else s
    case Inside(t) => if op == Unlock then s.(served := s.served + 1, pcs := s.pcs[c := Idle]) else s
    case TryOwner(n) => s.(pcs := s.pcs[c := if Word(s.served) == Word(n) then TryCas(n) else Idle])
    case TryCas(n) =>
      if Word(s.taken) == Word(n) then Enter(TakeTicket(s, c, Idle), c, s.taken) else s.(pcs := s.pcs[c := Idle])
  }

  predicate OnCpus(schedule: seq<(nat, Op)>, n: nat) {
    forall k :: 0 <= k < |schedule| ==> schedule[k].0 < n
  }

  function Run(s: State, schedule: seq<(nat, Op)>): (t: State)
    requires OnCpus(schedule, |s.pcs|)
    ensures |t.pcs| == |s.pcs|
    decreases |schedule|
  {
    if schedule == [] then s else Run(Step(s, schedule[0].0, schedule[0].1), schedule[1..])
  }

  ghost predicate Init(s: State) {
    s.taken == s.served == 0 && s.arrivals == s.entries == [] && forall c :: 0 <= c < |s.pcs| ==> s.pcs[c] == Idle
  }

  // ---------------------------------------------------------------------------
  // The invariant
  // ---------------------------------------------------------------------------

  predicate HasTicket(pc: Pc) {
    pc.Waiting? || pc.Inside?
  }

  predicate Holds(pc: Pc, t: nat) {
    HasTicket(pc) && pc.ticket == t
  }

  /** The tickets taken and not yet served belong to different CPUs, and each CPU's ticket is one of them. */
  ghost predicate Queue(s: State) {
    && s.served <= s.taken == |s.arrivals|
    && (forall t :: s.served <= t < s.taken ==> s.arrivals[t] < |s.pcs| && Holds(s.pcs[s.arrivals[t]], t))
    && (forall c :: 0 <= c < |s.pcs| && HasTicket(s.pcs[c]) ==>
          s.served <= s.pcs[c].ticket < s.taken && s.arrivals[s.pcs[c].ticket] == c)
  }

  /** Whoever is inside has the ticket that is served. */
  ghost predicate Entered(s: State) {
    && s.entries <= s.arrivals && s.served <= |s.entries|
    && (forall c :: 0 <= c < |s.pcs| && s.pcs[c].Inside? ==>
          s.pcs[c].ticket == s.served && |s.entries| == s.served + 1)
    && (|s.entries| > s.served ==>
          && |s.entries| == s.served + 1 && s.entries[s.served] < |s.pcs|
          && s.pcs[s.entries[s.served]] == Inside(s.served))
  }

  /** If no ticket has been taken since a try_lock read `next`, the lock is still free. */
  ghost predicate TriesOk(s: State) {
    forall c :: 0 <= c < |s.pcs| && (s.pcs[c].TryOwner? || s.pcs[c].TryCas?) ==>
      s.pcs[c].seen <= s.taken && (s.pcs[c].TryCas? && s.pcs[c].seen == s.taken ==> s.served == s.taken)
  }

  ghost predicate Inv(s: State) {
    |s.pcs| < TICKETS && Queue(s) && Entered(s) && TriesOk(s)
  }

  lemma {:induction false} Distinct(cpus: seq<nat>, n: nat)
    requires forall i :: 0 <= i < |cpus| ==> cpus[i] < n
    requires forall i, j :: 0 <= i < j < |cpus| ==> cpus[i] != cpus[j]
    ensures |cpus| <= n
    decreases n
  {
    if cpus != [] {
      assert cpus[0] < n;
      if n - 1 in cpus {
        var i :| 0 <= i < |cpus| && cpus[i] == n - 1;
        var rest := cpus[..i] + cpus[i + 1..];
        assert forall j :: 0 <= j < |rest| ==> rest[j] == if j < i then cpus[j] else cpus[j + 1];
        Distinct(rest, n - 1);
      } else {
        assert forall i :: 0 <= i < |cpus| ==> cpus[i] in cpus;
        Distinct(cpus, n - 1);
      }
    }
  }

  /** No more tickets are out than there are CPUs, so their words differ. */
  lemma {:induction false} FewOut(s: State)
    requires Inv(s)
    ensures s.taken - s.served <= |s.pcs| < TICKETS
  {
    var out := s.arrivals[s.served..];
    forall i, j | 0 <= i < j < |out|
      ensures out[i] != out[j]
    {
      assert out[i] == s.arrivals[s.served + i] && out[j] == s.arrivals[s.served + j];
    }
    forall i | 0 <= i < |out|
      ensures out[i] < |s.pcs|
    {
      assert s.arrivals[s.served + i] < |s.pcs|;
    }
    Distinct(out, |s.pcs|);
  }

  lemma {:induction false} SameWord(a: nat, b: nat)
    requires a <= b < a + TICKETS && Word(a) == Word(b)
    ensures a == b
  {
    assert b - a == TICKETS * (b / TICKETS - a / TICKETS);
  }

  /** A compare-exchange that succeeds finds the lock free. */
  predicate Clean(s: State, c: nat)
    requires c < |s.pcs|
  {
    s.pcs[c].TryCas? && Word(s.taken) == Word(s.pcs[c].seen) ==> s.served == s.taken
  }

  lemma {:induction false} StepInv(s: State, c: nat, op: Op)
    requires Inv(s) && c < |s.pcs| && Clean(s, c)
    ensures Inv(Step(s, c, op))
  {
    FewOut(s);
    match s.pcs[c]
    case Idle =>
      IdleInv(s, c, op);
    case Waiting(t) =>
      assert HasTicket(s.pcs[c]);
      if Word(s.served) == Word(t) {
        SameWord(s.served, t);
        EnterInv(s, c);
      }
    case Inside(t) =>
      LeaveInv(s, c, op);
    case TryOwner(n) =>
      if n == s.taken && Word(s.served) == Word(n) {
        SameWord(s.served, n);
      }
      QuietInv(s, c, Step(s, c, op).pcs[c]);
    case TryCas(n) =>
      if Word(s.taken) == Word(n) {
        TryInv(s, c);
      } else {
        QuietInv(s, c, Idle);
      }
  }

  /** A CPU without a ticket moves on without taking one. */
  lemma {:induction false} QuietInv(s: State, c: nat, pc: Pc)
    requires Inv(s) && c < |s.pcs| && !HasTicket(s.pcs[c]) && !HasTicket(pc)
    requires (pc.TryOwner? || pc.TryCas?) ==> pc.seen <= s.taken
    requires pc.TryCas? && pc.seen == s.taken ==> s.served == s.taken
    ensures Inv(s.(pcs := s.pcs[c := pc]))
  {
  }

  lemma {:induction false} IdleInv(s: State, c: nat, op: Op)
    requires Inv(s) && c < |s.pcs| && s.pcs[c].Idle?
    ensures Inv(Step(s, c, op))
  {
    if op == Lock {
      assert s.arrivals <= s.arrivals + [c];
    } else if op == TryLock {
      QuietInv(s, c, TryOwner(s.taken));
    }
  }

  lemma {:induction false} EnterInv(s: State, c: nat)
    requires Inv(s) && c < |s.pcs| && s.pcs[c] == Waiting(s.served)
    ensures Inv(Enter(s, c, s.served))
  {
    assert HasTicket(s.pcs[c]) && s.arrivals[s.served] == c;
    if |s.entries| > s.served {
      HeadEntered(s);
    }
  }

  /** If someone is inside, it is the CPU whose ticket is served. */
  lemma {:induction false} HeadEntered(s: State)
    requires Inv(s) && |s.entries| > s.served
    ensures s.arrivals[s.served] < |s.pcs| && s.pcs[s.arrivals[s.served]] == Inside(s.served)
  {
    assert s.entries[s.served] == s.arrivals[s.served];
  }

  lemma {:induction false} LeaveInv(s: State, c: nat, op: Op)
    requires Inv(s) && c < |s.pcs| && s.pcs[c].Inside?
    ensures Inv(Step(s, c, op))
  {
    assert HasTicket(s.pcs[c]);
  }

  lemma {:induction false} TryInv(s: State, c: nat)
    requires Inv(s) && c < |s.pcs| && s.pcs[c].TryCas? && s.served == s.taken
    ensures Inv(Enter(TakeTicket(s, c, Idle), c, s.taken))
  {
  }

  // ---------------------------------------------------------------------------
  // Runs
  // ---------------------------------------------------------------------------

  ghost predicate Exclusive(s: State) {
    forall a, b :: 0 <= a < |s.pcs| && 0 <= b < |s.pcs| && s.pcs[a].Inside? && s.pcs[b].Inside? ==> a == b
  }

  /** At most one CPU is inside, and CPUs enter in the order of their tickets. */
  ghost predicate Orderly(s: State) {
    Exclusive(s) && s.entries <= s.arrivals
  }

  lemma {:induction false} InvOrderly(s: State)
    requires Inv(s)
    ensures Orderly(s)
  {
    assert forall c :: 0 <= c < |s.pcs| && s.pcs[c].Inside? ==> HasTicket(s.pcs[c]);
  }

  /** The compare-exchange of a try_lock is right exactly if it fails or the lock is free. */
  lemma {:induction false} CasExact(s: State, c: nat, op: Op)
    requires Inv(s) && c < |s.pcs| && s.pcs[c].TryCas?
    ensures Orderly(Step(s, c, op)) <==> Clean(s, c)
  {
    var t := Step(s, c, op);
    if Clean(s, c) {
      StepInv(s, c, op);
      InvOrderly(t);
    } else if |s.entries| > s.served {
      HeadEntered(s);
      assert t.pcs[c].Inside? && t.pcs[s.arrivals[s.served]].Inside?;
    } else {
      assert Holds(s.pcs[s.arrivals[s.served]], s.served);
      assert t.entries[s.served] == c && t.arrivals[s.served] == s.arrivals[s.served];
    }
  }

  /** No compare-exchange of the run sees an equal word while the lock is busy. */
  ghost predicate AllClean(s: State, schedule: seq<(nat, Op)>)
    requires OnCpus(schedule, |s.pcs|)
    decreases |schedule|
  {
    schedule == [] ||
    (Clean(s, schedule[0].0) && AllClean(Step(s, schedule[0].0, schedule[0].1), schedule[1..]))
  }

  /** Every state of the run, from the first to the last, is in order. */
  ghost predicate OrderlyThroughout(s: State, schedule: seq<(nat, Op)>)
    requires OnCpus(schedule, |s.pcs|)
  {
    forall k :: 0 <= k <= |schedule| ==> Orderly(Run(s, schedule[..k]))
  }

  lemma {:induction false} FirstThenRest(s: State, schedule: seq<(nat, Op)>)
    requires OnCpus(schedule, |s.pcs|) && schedule != []
    ensures OrderlyThroughout(s, schedule) <==>
              Orderly(s) && OrderlyThroughout(Step(s, schedule[0].0, schedule[0].1), schedule[1..])
  {
    hide Step, Orderly;
    var t, rest := Step(s, schedule[0].0, schedule[0].1), schedule[1..];
    assert Run(s, schedule[..0]) == s;
    forall k | 0 <= k <= |rest|
      ensures Run(s, schedule[..k + 1]) == Run(t, rest[..k])
    {
      assert schedule[..k + 1][1..] == rest[..k];
    }
    if OrderlyThroughout(s, schedule) {
      forall k | 0 <= k <= |rest|
        ensures Orderly(Run(t, rest[..k]))
      {
        assert Orderly(Run(s, schedule[..k + 1]));
      }
    } else if Orderly(s) {
      var k :| 0 <= k <= |schedule| && !Orderly(Run(s, schedule[..k]));
      assert !Orderly(Run(t, rest[..k - 1]));
    }
  }

  lemma {:induction false} OrderlyExactly(s: State, schedule: seq<(nat, Op)>)
    requires Inv(s) && OnCpus(schedule, |s.pcs|)
    ensures OrderlyThroughout(s, schedule) <==> AllClean(s, schedule)
    decreases |schedule|
  {
    InvOrderly(s);
    if schedule == [] {
      assert schedule[..0] == [];
    } else {
      var c, op, rest := schedule[0].0, schedule[0].1, schedule[1..];
      var t := Step(s, c, op);
      FirstThenRest(s, schedule);
      if Clean(s, c) {
        StepInv(s, c, op);
        hide Inv, Step, Clean, Orderly;
        OrderlyExactly(t, rest);
      } else {
        CasExact(s, c, op);
        hide Inv, Step, Clean, Orderly;
        assert rest[..0] == [] && Run(t, rest[..0]) == t;
      }
    }
  }

  /** For every run: all its states are exclusive and in order if and only if no compare-exchange sees an
      equal word while the lock is busy. */
  lemma {:induction false} TicketOrder(s: State, schedule: seq<(nat, Op)>)
    requires Init(s) && |s.pcs| < TICKETS && OnCpus(schedule, |s.pcs|)
    ensures OrderlyThroughout(s, schedule) <==> AllClean(s, schedule)
  {
    OrderlyExactly(s, schedule);
  }

  /** Fewer than 2^32 tickets were taken since the try_lock in progress read `next`. */
  predicate Recent(s: State, c: nat)
    requires c < |s.pcs|
  {
    s.pcs[c].TryCas? ==> s.taken < s.pcs[c].seen + TICKETS
  }

  /** In no try_lock of the run are 2^32 tickets taken between its first and its last access. */
  ghost predicate AllRecent(s: State, schedule: seq<(nat, Op)>)
    requires OnCpus(schedule, |s.pcs|)
    decreases |schedule|
  {
    schedule == [] ||
    (Recent(s, schedule[0].0) && AllRecent(Step(s, schedule[0].0, schedule[0].1), schedule[1..]))
  }

  lemma {:induction false} RecentClean(s: State, c: nat)
    requires Inv(s) && c < |s.pcs| && Recent(s, c)
    ensures Clean(s, c)
  {
    if s.pcs[c].TryCas? && Word(s.taken) == Word(s.pcs[c].seen) {
      SameWord(s.pcs[c].seen, s.taken);
    }
  }

  /** What a user of the lock can see to: with fewer tickets during every try_lock, all is in order. */
  lemma {:induction false} RecentOrder(s: State, schedule: seq<(nat, Op)>)
    requires Inv(s) && OnCpus(schedule, |s.pcs|) && AllRecent(s, schedule)
    ensures AllClean(s, schedule) && OrderlyThroughout(s, schedule)
    decreases |schedule|
  {
    OrderlyExactly(s, schedule);
    if schedule != [] {
      var c, op := schedule[0].0, schedule[0].1;
      RecentClean(s, c);
      StepInv(s, c, op);
      hide Inv, Step, Clean, Orderly, Recent;
      RecentOrder(Step(s, c, op), schedule[1..]);
    }
  }

  // ---------------------------------------------------------------------------
  // What the calls return
  // ---------------------------------------------------------------------------

  lemma {:induction false} RunTwo(s: State, a: seq<(nat, Op)>, b: seq<(nat, Op)>)
    requires OnCpus(a, |s.pcs|) && OnCpus(b, |s.pcs|)
    ensures Run(s, a + b) == Run(Run(s, a), b)
    decreases |a|
  {
    hide Step;
    if a == [] {
      assert a + b == b;
    } else {
      assert (a + b)[1..] == a[1..] + b;
      RunTwo(Step(s, a[0].0, a[0].1), a[1..], b);
    }
  }

  lemma {:induction false} OneRun(s: State, c: nat, op: Op)
    requires c < |s.pcs|
    ensures Run(s, [(c, op)]) == Step(s, c, op)
  {
    hide Step;
    assert [(c, op)][1..] == [];
  }

  /** In all parts of a run with recent compare-exchanges they are recent, and the invariant holds in between. */
  lemma {:induction false} RecentParts(s: State, a: seq<(nat, Op)>, b: seq<(nat, Op)>)
    requires Inv(s) && OnCpus(a, |s.pcs|) && OnCpus(b, |s.pcs|) && AllRecent(s, a + b)
    ensures AllRecent(s, a) && AllRecent(Run(s, a), b) && Inv(Run(s, a))
    decreases |a|
  {
    if a == [] {
      assert a + b == b;
    } else {
      assert (a + b)[1..] == a[1..] + b;
      RecentClean(s, a[0].0);
      StepInv(s, a[0].0, a[0].1);
      hide Step, Inv, Recent;
      RecentParts(Step(s, a[0].0, a[0].1), a[1..], b);
    }
  }

  predicate Without(schedule: seq<(nat, Op)>, c: nat) {
    forall k :: 0 <= k < |schedule| ==> schedule[k].0 != c
  }

  /** The others do not move a CPU, and no ticket is untaken or unserved. */
  lemma {:induction false} OthersRun(s: State, schedule: seq<(nat, Op)>, c: nat)
    requires OnCpus(schedule, |s.pcs|) && c < |s.pcs| && Without(schedule, c)
    ensures var t := Run(s, schedule); t.pcs[c] == s.pcs[c] && t.taken >= s.taken && t.served >= s.served
    decreases |schedule|
  {
    if schedule != [] {
      OthersRun(Step(s, schedule[0].0, schedule[0].1), schedule[1..], c);
    }
  }

  /** The call is over without a trace. */
  predicate Refused(u: State, v: State, c: nat) {
    v == u.(pcs := v.pcs) && c < |v.pcs| && v.pcs[c] == Idle
  }

  /** CPU c has taken a ticket and is inside. */
  predicate GetsIn(u: State, v: State, c: nat) {
    && c < |v.pcs| && v.pcs[c].Inside? && v.taken == u.taken + 1
    && v.arrivals == u.arrivals + [c] && v.entries == u.entries + [c]
  }

  /** In every run with recent compare-exchanges, for every call of try_lock: it reads `next` in the state a,
      `owner` in the state b, and does its compare-exchange, if it gets there, in the state w. It gets in
      exactly if the lock is free at the second access and no ticket is taken during the call. */
  lemma {:induction false} TryLockReturns(s: State, early: seq<(nat, Op)>, first: seq<(nat, Op)>,
                                          second: seq<(nat, Op)>, c: nat)
    requires Init(s) && |s.pcs| < TICKETS && c < |s.pcs| && OnCpus(early, |s.pcs|) && OnCpus(first, |s.pcs|)
    requires OnCpus(second, |s.pcs|) && Without(first, c) && Without(second, c) && Run(s, early).pcs[c].Idle?
    requires AllRecent(s, early + [(c, TryLock)] + first + [(c, Continue)] + second + [(c, Continue)])
    ensures var a, b := Run(s, early), Run(s, early + [(c, TryLock)] + first);
            var b' := Run(s, early + [(c, TryLock)] + first + [(c, Continue)]);
            var w := Run(s, early + [(c, TryLock)] + first + [(c, Continue)] + second);
            var v := Run(s, early + [(c, TryLock)] + first + [(c, Continue)] + second + [(c, Continue)]);
            if b.served != a.taken then Refused(b, b', c)
            else if w.taken != a.taken then Refused(w, v, c)
            else GetsIn(w, v, c) && w.served == w.taken
  {
    var call := early + [(c, TryLock)];
    RunTwo(s, early, [(c, TryLock)]);
    OneRun(Run(s, early), c, TryLock);
    RunTwo(s, call, first);
    RunTwo(s, call + first, [(c, Continue)]);
    OneRun(Run(s, call + first), c, Continue);
    RunTwo(s, call + first + [(c, Continue)], second);
    RunTwo(s, call + first + [(c, Continue)] + second, [(c, Continue)]);
    OneRun(Run(s, call + first + [(c, Continue)] + second), c, Continue);
    RecentParts(s, call + first + [(c, Continue)] + second, [(c, Continue)]);
    RecentParts(s, call + first + [(c, Continue)], second);
    RecentParts(s, call + first, [(c, Continue)]);
    RecentParts(s, call, first);
    RecentParts(s, early, [(c, TryLock)]);
    hide Run, AllRecent;
    OthersRun(Run(s, call), first, c);
    OthersRun(Run(s, call + first + [(c, Continue)]), second, c);
    TryDecides(Run(s, early), Run(s, call + first), Run(s, call + first + [(c, Continue)] + second), c);
  }

  lemma {:induction false} TryDecides(a: State, b: State, w: State, c: nat)
    requires Inv(a) && Inv(b) && Inv(w) && c < |a.pcs| == |b.pcs| == |w.pcs| && a.pcs[c].Idle?
    requires b.pcs[c] == Step(a, c, TryLock).pcs[c] && a.taken <= b.taken
    requires Step(b, c, Continue).pcs[c] == w.pcs[c] && b.served <= w.served && b.taken <= w.taken && Recent(w, c)
    ensures if b.served != a.taken then Refused(b, Step(b, c, Continue), c)
            else if w.taken != a.taken then Refused(w, Step(w, c, Continue), c)
            else GetsIn(w, Step(w, c, Continue), c) && w.served == w.taken
  {
    FewOut(b);
    if b.served != a.taken && w.pcs[c].TryCas? {
      if b.served <= a.taken {
        SameWord(b.served, a.taken);
      } else {
        assert b.served < a.taken + TICKETS;
        SameWord(a.taken, b.served);
      }
    } else if b.served == a.taken && w.taken != a.taken && Word(w.taken) == Word(a.taken) {
      SameWord(a.taken, w.taken);
    }
  }

  /** A call of lock takes the next ticket at once; from then on, whatever else happens, the CPU gets in by
      an access exactly if its ticket is the one served, and waits otherwise. */
  lemma {:induction false} LockReturns(s: State, early: seq<(nat, Op)>, during: seq<(nat, Op)>, c: nat)
    requires Init(s) && |s.pcs| < TICKETS && c < |s.pcs| && OnCpus(early, |s.pcs|) && OnCpus(during, |s.pcs|)
    requires Run(s, early).pcs[c].Idle? && Without(during, c)
    requires AllRecent(s, early + [(c, Lock)] + during + [(c, Continue)])
    ensures var a, b := Run(s, early), Run(s, early + [(c, Lock)]);
            b.pcs[c] == Waiting(a.taken) && b.taken == a.taken + 1 && b.arrivals == a.arrivals + [c]
    ensures var a, u, v := Run(s, early), Run(s, early + [(c, Lock)] + during),
                           Run(s, early + [(c, Lock)] + during + [(c, Continue)]);
            if u.served == a.taken then v.pcs[c] == Inside(a.taken) && v.entries == u.entries + [c] else v == u
  {
    var call := early + [(c, Lock)];
    RunTwo(s, early, [(c, Lock)]);
    OneRun(Run(s, early), c, Lock);
    RunTwo(s, call, during);
    RunTwo(s, call + during, [(c, Continue)]);
    OneRun(Run(s, call + during), c, Continue);
    RecentParts(s, call + during, [(c, Continue)]);
    hide Run, AllRecent;
    OthersRun(Run(s, call), during, c);
    TicketServed(Run(s, call + during), c, Run(s, early).taken);
  }

  lemma {:induction false} TicketServed(u: State, c: nat, ticket: nat)
    requires Inv(u) && c < |u.pcs| && u.pcs[c] == Waiting(ticket)
    ensures var v := Step(u, c, Continue);
            if u.served == ticket then v.pcs[c] == Inside(ticket) && v.entries == u.entries + [c] else v == u
  {
    FewOut(u);
    assert HasTicket(u.pcs[c]);
    if Word(u.served) == Word(ticket) {
      SameWord(u.served, ticket);
    }
  }

  /** Unlocking lets the next ticket be served, and nothing else does. */
  lemma {:induction false} UnlockReturns(s: State, schedule: seq<(nat, Op)>, c: nat, op: Op)
    requires OnCpus(schedule, |s.pcs|) && c < |s.pcs|
    ensures var u, v := Run(s, schedule), Run(s, schedule + [(c, op)]);
            && v.served == (if u.pcs[c].Inside? && op == Unlock then u.served + 1 else u.served)
            && (u.pcs[c].Inside? ==> v.pcs[c] == if op == Unlock then Idle else u.pcs[c])
  {
    RunTwo(s, schedule, [(c, op)]);
    OneRun(Run(s, schedule), c, op);
  }

  // ---------------------------------------------------------------------------
  // A stale try_lock
  // ---------------------------------------------------------------------------

  /** CPU 1 takes and releases the lock k times. */
  function Rounds(k: nat): (r: seq<(nat, Op)>)
    ensures forall i :: 0 <= i < |r| ==> r[i].0 == 1
  {
    if k == 0 then [] else [(1, Lock), (1, Continue), (1, Unlock)] + Rounds(k - 1)
  }

  lemma {:induction false} ThreeSteps(s: State, a: (nat, Op), b: (nat, Op), c: (nat, Op))
    requires a.0 < |s.pcs| && b.0 < |s.pcs| && c.0 < |s.pcs|
    ensures Run(s, [a, b, c]) == Step(Step(Step(s, a.0, a.1), b.0, b.1), c.0, c.1)
  {
    hide Step;
    var s1 := Step(s, a.0, a.1);
    var s2 := Step(s1, b.0, b.1);
    assert [a, b, c][1..] == [b, c] && [b, c][1..] == [c] && [c][1..] == [];
    assert Run(s2, [c]) == Step(s2, c.0, c.1);
    assert Run(s1, [b, c]) == Run(s2, [c]);
  }

  /** The lock is free, CPU 0 is about to do the last access of a try_lock, and CPU 1 is idle. */
  ghost predicate Poised(s: State, n: nat) {
    s.taken == s.served == n && s.pcs == [TryCas(0), Idle]
  }

  lemma {:induction false} RoundsRun(s: State, n: nat, k: nat)
    requires Poised(s, n)
    ensures Poised(Run(s, Rounds(k)), n + k)
    decreases k
  {
    if k > 0 {
      ThreeSteps(s, (1, Lock), (1, Continue), (1, Unlock));
      RunTwo(s, [(1, Lock), (1, Continue), (1, Unlock)], Rounds(k - 1));
      var t := Run(s, [(1, Lock), (1, Continue), (1, Unlock)]);
      assert Poised(t, n + 1);
      hide Run, Poised;
      RoundsRun(t, n + 1, k - 1);
    }
  }

  /** With exactly 2^32 tickets taken in between, the compare-exchange of a try_lock succeeds while
      another CPU is inside. */
  lemma {:induction false} StaleTryLock(s: State) returns (schedule: seq<(nat, Op)>)
    requires Init(s) && |s.pcs| == 2
    ensures OnCpus(schedule, |s.pcs|)
    ensures var t := Run(s, schedule); t.taken == TICKETS + 1 && t.pcs[0].Inside? && t.pcs[1].Inside?
  {
    var start, end := [(0, TryLock), (0, Continue), (1, Continue)], [(1, Lock), (1, Continue), (0, Continue)];
    ThreeSteps(s, (0, TryLock), (0, Continue), (1, Continue));
    var s1, n := Run(s, start), TICKETS - 1;
    assert Poised(s1, 0);
    RoundsRun(s1, 0, n);
    schedule := start + Rounds(n) + end;
    RunTwo(s, start + Rounds(n), end);
    RunTwo(s, start, Rounds(n));
    var s2 := Run(s1, Rounds(n));
    LastSteps(s2, end);
    hide Run, Step, Rounds;
    assert Run(s, start + Rounds(n)) == s2;
    assert Run(s, schedule) == Run(s2, end);
  }

  lemma {:induction false} LastSteps(s: State, end: seq<(nat, Op)>)
    requires Poised(s, TICKETS - 1) && end == [(1, Lock), (1, Continue), (0, Continue)]
    ensures var t := Run(s, end);
            t.taken == TICKETS + 1 && t.pcs[0].Inside? && t.pcs[1].Inside?
  {
    ThreeSteps(s, (1, Lock), (1, Continue), (0, Continue));
    assert Word(TICKETS) == Word(0);
  }
}
