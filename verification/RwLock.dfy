/**
 The readers-writer lock as a state machine over its atomic accesses, under sequential consistency.
 `state` is -1 while a writer is inside and the number of readers otherwise; `writeWait` keeps new
 readers out.
 */
module RwLock {
  import opened Common

  const WRITE_LOCKED: int := -1

  /** The access a CPU performs next. A writer remembers how many writers had left when it raised the
      flag; the code does not. */
  datatype Pc =
    | Idle
    | ReadFlag
    | ReadState
    | ReadCas(seen: int)
    | Reading
    | WriteSpin(since: nat)
    | Writing(since: nat)
    | WriteRelease

  datatype Op = Read | Write | Drop | Continue

  datatype State = State(state: int, writeWait: bool, pcs: seq<Pc>, writersLeft: nat)

  function SetPc(s: State, c: nat, pc: Pc): State
    requires c < |s.pcs|
  {
    s.(pcs := s.pcs[c := pc])
  }

  /** One access of CPU c. A spin whose condition does not hold yet leaves the state as it is. */
  function Step(s: State, c: nat, op: Op): (t: State)
    requires c < |s.pcs|
    ensures |t.pcs| == |s.pcs|
  {
    match s.pcs[c]
    case Idle =>
      if op == Read then SetPc(s, c, ReadFlag)
      else if op == Write then SetPc(s.(writeWait := true), c, WriteSpin(s.writersLeft))
      else s
    case ReadFlag => if s.writeWait then s else SetPc(s, c, ReadState)
    case ReadState => SetPc(s, c, if s.state >= 0 then ReadCas(s.state) else ReadFlag)
    case ReadCas(n) =>
      if s.state == n then SetPc(s.(state := n + 1), c, Reading) else SetPc(s, c, ReadFlag)
    case Reading => if op == Drop then SetPc(s.(state := s.state - 1), c, Idle) else s
    case WriteSpin(n) => if s.state == 0 then SetPc(s.(state := WRITE_LOCKED), c, Writing(n)) else s
    case Writing(_) =>
      if op == Drop then SetPc(s.(writeWait := false, writersLeft := s.writersLeft + 1), c, WriteRelease) else s
    case WriteRelease => SetPc(s.(state := 0), c, Idle)
  }

  predicate OnCpus(schedule: seq<(nat, Op)>, n: nat) {
    forall k :: 0 <= k < |schedule| ==> schedule[k].0 < n
  }

  function Run(s: State, schedule: seq<(nat, Op)>): (t: State)
    requires OnCpus(schedule, |s.pcs|)
    ensures |t.pcs| == |s.pcs|
    decreases |schedule|
  {
    if schedule == [] then s else Run(Step(s, schedule[0].0, schedule[0].1), schedule[1..])
  }

  ghost predicate Init(s: State) {
    s.state == 0 && !s.writeWait && forall c :: 0 <= c < |s.pcs| ==> s.pcs[c] == Idle
  }

  // ---------------------------------------------------------------------------
  // The invariant
  // ---------------------------------------------------------------------------

  predicate InWriter(pc: Pc) {
    pc.Writing? || pc.WriteRelease?
  }

  ghost function Readers(pcs: seq<Pc>): set<nat> {
    set c: nat | c < |pcs| && pcs[c].Reading?
  }

  ghost function Writers(pcs: seq<Pc>): set<nat> {
    set c: nat | c < |pcs| && InWriter(pcs[c])
  }

  /** The word counts the readers, or says that the one writer is inside. */
  ghost predicate CountedBy(state: int, readers: set<nat>, writers: set<nat>) {
    if state == WRITE_LOCKED then readers == {} && |writers| == 1 else writers == {} && |readers| == state
  }

  ghost predicate Counted(s: State) {
    CountedBy(s.state, Readers(s.pcs), Writers(s.pcs))
  }

  predicate Raised(pc: Pc) {
    pc.WriteSpin? || pc.Writing?
  }

  /** Some writer has raised the flag since the last one left. */
  predicate RaisedSince(s: State) {
    exists c :: 0 <= c < |s.pcs| && Raised(s.pcs[c]) && s.pcs[c].since == s.writersLeft
  }

  /** That is what the flag says. */
  ghost predicate FlagExact(s: State) {
    && (s.writeWait <==> RaisedSince(s))
    && forall c :: 0 <= c < |s.pcs| && Raised(s.pcs[c]) ==> s.pcs[c].since <= s.writersLeft
  }

  ghost predicate Inv(s: State) {
    Counted(s) && FlagExact(s) && forall c :: 0 <= c < |s.pcs| && s.pcs[c].ReadCas? ==> s.pcs[c].seen >= 0
  }

  /** Who is inside after one CPU has moved. */
  lemma {:induction false} Moved(pcs: seq<Pc>, c: nat, pc: Pc)
    requires c < |pcs|
    ensures Readers(pcs[c := pc]) == if pc.Reading? then Readers(pcs) + {c} else Readers(pcs) - {c}
    ensures Writers(pcs[c := pc]) == if InWriter(pc) then Writers(pcs) + {c} else Writers(pcs) - {c}
  {
  }

  lemma {:induction false} Alone(cpus: set<nat>, c: nat)
    requires |cpus| == 1 && c in cpus
    ensures cpus == {c}
  {
    if x :| x in cpus && x != c {
      Smaller({x, c}, cpus);
    }
  }

  lemma {:induction false} StepInv(s: State, c: nat, op: Op)
    requires Inv(s) && c < |s.pcs|
    ensures Inv(Step(s, c, op))
  {
    StepCounted(s, c, op);
    StepFlag(s, c, op);
    hide Counted, FlagExact;
  }

  lemma {:induction false} StepFlag(s: State, c: nat, op: Op)
    requires FlagExact(s) && c < |s.pcs|
    ensures FlagExact(Step(s, c, op))
  {
    var t := Step(s, c, op);
    if RaisedSince(s) {
      var d :| 0 <= d < |s.pcs| && Raised(s.pcs[d]) && s.pcs[d].since == s.writersLeft;
      assert t.writersLeft == s.writersLeft ==> Raised(t.pcs[d]) && t.pcs[d].since == t.writersLeft;
    }
    assert s.pcs[c].Idle? && op == Write ==> Raised(t.pcs[c]) && t.pcs[c].since == t.writersLeft;
    forall d | 0 <= d < |t.pcs| && Raised(t.pcs[d]) && !(s.pcs[c].Idle? && d == c)
      ensures Raised(s.pcs[d]) && s.pcs[d].since == t.pcs[d].since
    {
    }
  }

  lemma {:induction false} StepCounted(s: State, c: nat, op: Op)
    requires Counted(s) && c < |s.pcs| && (s.pcs[c].ReadCas? ==> s.pcs[c].seen >= 0)
    ensures Counted(Step(s, c, op))
  {
    var t, pc := Step(s, c, op), Step(s, c, op).pcs[c];
    StepMoves(s, c, op);
    Moved(s.pcs, c, pc);
    hide Step, Readers, Writers, CountedBy;
    SetsMove(s.state, t.state, Readers(s.pcs), Writers(s.pcs), s.pcs[c], pc, c);
  }

  /** What a step does to the word and to the place of the CPU. */
  ghost predicate Moves(state: int, state': int, pc: Pc, pc': Pc) {
    if pc'.Reading? && !pc.Reading? then state >= 0 && state' == state + 1 && !InWriter(pc)
    else if pc.Reading? && !pc'.Reading? then state' == state - 1 && !InWriter(pc')
    else if InWriter(pc') && !InWriter(pc) then state == 0 && state' == WRITE_LOCKED && !pc.Reading?
    else if InWriter(pc) && !InWriter(pc') then state' == 0
    else state' == state
  }

  lemma {:induction false} StepMoves(s: State, c: nat, op: Op)
    requires c < |s.pcs| && (s.pcs[c].ReadCas? ==> s.pcs[c].seen >= 0)
    ensures var t := Step(s, c, op); t.pcs == s.pcs[c := t.pcs[c]] && Moves(s.state, t.state, s.pcs[c], t.pcs[c])
    ensures c in Readers(s.pcs) <==> s.pcs[c].Reading?
    ensures c in Writers(s.pcs) <==> InWriter(s.pcs[c])
  {
  }

  lemma {:induction false} SetsMove(state: int, state': int, readers: set<nat>, writers: set<nat>, pc: Pc, pc': Pc,
                                    c: nat)
    requires CountedBy(state, readers, writers) && Moves(state, state', pc, pc')
    requires (c in readers <==> pc.Reading?) && (c in writers <==> InWriter(pc))
    ensures CountedBy(state', if pc'.Reading? then readers + {c} else readers - {c},
                      if InWriter(pc') then writers + {c} else writers - {c})
  {
    hide CountedBy;
    Unmoved(readers, c);
    Unmoved(writers, c);
    if pc'.Reading? && !pc.Reading? {
      ReaderIn(state, readers, writers, c);
    } else if pc.Reading? && !pc'.Reading? {
      ReaderOut(state, readers, writers, c);
    } else if InWriter(pc') && !InWriter(pc) {
      WriterIn(state, readers, writers, c);
    } else if InWriter(pc) && !InWriter(pc') {
      WriterOut(state, readers, writers, c);
    }
  }

  lemma {:induction false} Unmoved(cpus: set<nat>, c: nat)
    ensures c in cpus ==> cpus + {c} == cpus
    ensures c !in cpus ==> cpus - {c} == cpus
  {
  }

  lemma {:induction false} ReaderIn(state: int, readers: set<nat>, writers: set<nat>, c: nat)
    requires CountedBy(state, readers, writers)
    ensures state >= 0 && c !in readers ==> CountedBy(state + 1, readers + {c}, writers)
  {
  }

  lemma {:induction false} ReaderOut(state: int, readers: set<nat>, writers: set<nat>, c: nat)
    requires CountedBy(state, readers, writers)
    ensures c in readers ==> CountedBy(state - 1, readers - {c}, writers)
  {
  }

  lemma {:induction false} WriterIn(state: int, readers: set<nat>, writers: set<nat>, c: nat)
    requires CountedBy(state, readers, writers)
    ensures state == 0 ==> CountedBy(WRITE_LOCKED, readers, writers + {c})
  {
  }

  lemma {:induction false} WriterOut(state: int, readers: set<nat>, writers: set<nat>, c: nat)
    requires CountedBy(state, readers, writers)
    ensures c in writers ==> CountedBy(0, readers, writers - {c})
  {
    if c in writers {
      Alone(writers, c);
    }
  }

  lemma {:induction false} RunInv(s: State, schedule: seq<(nat, Op)>)
    requires Inv(s) && OnCpus(schedule, |s.pcs|)
    ensures Inv(Run(s, schedule))
    decreases |schedule|
  {
    if schedule != [] {
      StepInv(s, schedule[0].0, schedule[0].1);
      hide Inv, Step;
      RunInv(Step(s, schedule[0].0, schedule[0].1), schedule[1..]);
    }
  }

  /** A writer is inside alone. */
  ghost predicate Exclusive(s: State) {
    forall a, b :: 0 <= a < |s.pcs| && 0 <= b < |s.pcs| && a != b && InWriter(s.pcs[a]) ==>
      !InWriter(s.pcs[b]) && !s.pcs[b].Reading?
  }

  lemma {:induction false} InitInv(s: State)
    requires Init(s)
    ensures Inv(s)
  {
    assert Readers(s.pcs) == {} && Writers(s.pcs) == {};
  }

  /** In every interleaving a writer is inside alone, and the flag is up exactly if a writer has raised
      it since the last one left. */
  lemma {:induction false} WritersAlone(s: State, schedule: seq<(nat, Op)>)
    requires Init(s) && OnCpus(schedule, |s.pcs|)
    ensures var t := Run(s, schedule); Exclusive(t) && (t.writeWait <==> RaisedSince(t))
  {
    InitInv(s);
    RunInv(s, schedule);
    hide Run;
    var t := Run(s, schedule);
    forall a, b | 0 <= a < |t.pcs| && 0 <= b < |t.pcs| && a != b && InWriter(t.pcs[a])
      ensures !InWriter(t.pcs[b]) && !t.pcs[b].Reading?
    {
      assert a in Writers(t.pcs);
      Alone(Writers(t.pcs), a);
      assert b !in Writers(t.pcs) && b !in Readers(t.pcs);
    }
  }

  ghost predicate WriterInside(s: State) {
    Writers(s.pcs) != {}
  }

  lemma {:induction false} WordTells(s: State)
    requires Counted(s)
    ensures s.state < 0 <==> WriterInside(s)
    ensures !WriterInside(s) ==> s.state == |Readers(s.pcs)|
  {
    hide Readers, Writers;
  }

  lemma {:induction false} RunOne(s: State, schedule: seq<(nat, Op)>, c: nat, op: Op)
    requires OnCpus(schedule, |s.pcs|) && c < |s.pcs|
    ensures Run(s, schedule + [(c, op)]) == Step(Run(s, schedule), c, op)
    decreases |schedule|
  {
    hide Step;
    if schedule == [] {
      assert ([] + [(c, op)])[1..] == [];
    } else {
      assert (schedule + [(c, op)])[1..] == schedule[1..] + [(c, op)];
      RunOne(Step(s, schedule[0].0, schedule[0].1), schedule[1..], c, op);
    }
  }

  /** In every run: the access of a waiting writer lets it in exactly if nobody is inside, and otherwise
      changes nothing; a reader gets on exactly while no writer is inside, and by its compare-exchange
      exactly if there are as many readers as it has counted. */
  lemma {:induction false} LetIn(s: State, schedule: seq<(nat, Op)>, c: nat)
    requires Init(s) && OnCpus(schedule, |s.pcs|) && c < |s.pcs|
    ensures var t, v := Run(s, schedule), Run(s, schedule + [(c, Continue)]);
            && (t.pcs[c].WriteSpin? ==>
                  if WriterInside(t) || Readers(t.pcs) != {} then v == t else v.pcs[c] == Writing(t.pcs[c].since))
            && (t.pcs[c].ReadState? ==>
                  v.pcs[c] == if WriterInside(t) then ReadFlag else ReadCas(|Readers(t.pcs)|))
            && (t.pcs[c].ReadCas? ==>
                  v.pcs[c] == if !WriterInside(t) && |Readers(t.pcs)| == t.pcs[c].seen then Reading else ReadFlag)
            && (t.pcs[c].WriteRelease? ==> v.pcs[c] == Idle && !WriterInside(v))
  {
    InitInv(s);
    RunInv(s, schedule);
    RunOne(s, schedule, c, Continue);
    var t := Run(s, schedule);
    WordTells(t);
    RunInv(s, schedule + [(c, Continue)]);
    WordTells(Run(s, schedule + [(c, Continue)]));
    hide Run, Counted, FlagExact, Readers, Writers;
  }

  /** And what a CPU asks for is what it does next. */
  lemma {:induction false} Asks(s: State, schedule: seq<(nat, Op)>, c: nat, op: Op)
    requires OnCpus(schedule, |s.pcs|) && c < |s.pcs|
    ensures var t, v := Run(s, schedule), Run(s, schedule + [(c, op)]);
            && (t.pcs[c].Idle? ==>
                  && (op == Read ==> v.pcs[c] == ReadFlag) && (op == Write ==> v.pcs[c].WriteSpin? && v.writeWait))
            && (t.pcs[c].Reading? ==> v.pcs[c] == if op == Drop then Idle else Reading)
            && (t.pcs[c].Writing? ==>
                  if op == Drop then v.pcs[c] == WriteRelease && !v.writeWait else v.pcs[c] == t.pcs[c])
  {
    RunOne(s, schedule, c, op);
  }

  // ---------------------------------------------------------------------------
  // Which readers get in before a waiting writer
  // ---------------------------------------------------------------------------

  /** At any point of any run, while writer w waits: a reader passes the flag test exactly if no writer
      has raised the flag since the last one left; some writer has then left since w began to wait. */
  lemma {:induction false} PassesFlag(s: State, schedule: seq<(nat, Op)>, w: nat, r: nat, op: Op)
    requires Init(s) && OnCpus(schedule, |s.pcs|) && w < |s.pcs| && r < |s.pcs|
    requires var t := Run(s, schedule); t.pcs[w].WriteSpin? && t.pcs[r].ReadFlag?
    ensures var t := Run(s, schedule); Step(t, r, op).pcs[r] == ReadState <==> !RaisedSince(t)
    ensures var t := Run(s, schedule); !RaisedSince(t) ==> t.pcs[w].since < t.writersLeft
  {
    InitInv(s);
    RunInv(s, schedule);
    var t := Run(s, schedule);
    hide Run;
    assert Raised(t.pcs[w]);
  }

  predicate PastFlag(pc: Pc) {
    pc.ReadState? || pc.ReadCas? || pc.Reading?
  }

  /** Writer w waits in every state of the run. */
  ghost predicate WaitsThroughout(s: State, schedule: seq<(nat, Op)>, w: nat)
    requires OnCpus(schedule, |s.pcs|) && w < |s.pcs|
    decreases |schedule|
  {
    s.pcs[w].WriteSpin? &&
    (schedule == [] || WaitsThroughout(Step(s, schedule[0].0, schedule[0].1), schedule[1..], w))
  }

  /** If reader r is past the flag test, another writer has left since w began to wait. */
  predicate Owed(s: State, w: nat, r: nat)
    requires w < |s.pcs| && r < |s.pcs| && s.pcs[w].WriteSpin?
  {
    PastFlag(s.pcs[r]) ==> s.pcs[w].since < s.writersLeft
  }

  lemma {:induction false} StepOwed(s: State, c: nat, op: Op, w: nat, r: nat)
    requires Inv(s) && c < |s.pcs| && w < |s.pcs| && r < |s.pcs| && s.pcs[w].WriteSpin? && Owed(s, w, r)
    requires Step(s, c, op).pcs[w].WriteSpin?
    ensures Step(s, c, op).pcs[w] == s.pcs[w] && Owed(Step(s, c, op), w, r)
  {
    hide Counted;
    assert Raised(s.pcs[w]);
  }

  /** A reader that starts while w waits, and is past the flag test or inside while w still waits, owes it
      to another writer that has left since w began to wait: there is no other way. */
  lemma {:induction false} OvertakesOnly(s: State, schedule: seq<(nat, Op)>, w: nat, r: nat)
    requires Inv(s) && OnCpus(schedule, |s.pcs|) && w < |s.pcs| && r < |s.pcs|
    requires WaitsThroughout(s, schedule, w) && Owed(s, w, r)
    ensures var t := Run(s, schedule); t.pcs[w] == s.pcs[w] && Owed(t, w, r)
    decreases |schedule|
  {
    if schedule != [] {
      var c, op := schedule[0].0, schedule[0].1;
      StepOwed(s, c, op, w, r);
      StepInv(s, c, op);
      hide Inv, Step, Owed;
      OvertakesOnly(Step(s, c, op), schedule[1..], w, r);
    }
  }

  /** Conversely, a reader for which the flag is down can get in while w still waits: it only takes the
      writer inside, if there is one, to leave. */
  lemma {:induction false} CanOvertake(s: State, w: nat, r: nat) returns (schedule: seq<(nat, Op)>)
    requires Inv(s) && w < |s.pcs| && r < |s.pcs| && s.pcs[w].WriteSpin? && s.pcs[r].ReadFlag? && !s.writeWait
    ensures OnCpus(schedule, |s.pcs|) && WaitsThroughout(s, schedule, w) && Run(s, schedule).pcs[r].Reading?
  {
    if s.state >= 0 {
      schedule := ReadIn(s, w, r);
    } else {
      assert |Writers(s.pcs)| == 1;
      var v :| v in Writers(s.pcs);
      if s.pcs[v].Writing? {
        var t := Step(s, v, Drop);
        StepInv(s, v, Drop);
        var rest := LetOut(t, v, w, r);
        schedule := First(s, v, Drop, rest, w);
      } else {
        schedule := LetOut(s, v, w, r);
      }
    }
  }

  lemma {:induction false} LetOut(s: State, v: nat, w: nat, r: nat) returns (schedule: seq<(nat, Op)>)
    requires v < |s.pcs| && s.pcs[v].WriteRelease? && w < |s.pcs| && r < |s.pcs|
    requires s.pcs[w].WriteSpin? && s.pcs[r].ReadFlag? && !s.writeWait
    ensures OnCpus(schedule, |s.pcs|) && WaitsThroughout(s, schedule, w) && Run(s, schedule).pcs[r].Reading?
  {
    var rest := ReadIn(Step(s, v, Continue), w, r);
    schedule := First(s, v, Continue, rest, w);
  }

  lemma {:induction false} ReadIn(s: State, w: nat, r: nat) returns (schedule: seq<(nat, Op)>)
    requires w < |s.pcs| && r < |s.pcs| && s.pcs[w].WriteSpin? && s.pcs[r].ReadFlag? && !s.writeWait && s.state >= 0
    ensures OnCpus(schedule, |s.pcs|) && WaitsThroughout(s, schedule, w) && Run(s, schedule).pcs[r].Reading?
  {
    var s1 := Step(s, r, Continue);
    var s2 := Step(s1, r, Continue);
    var last := First(s2, r, Continue, [], w);
    var two := First(s1, r, Continue, last, w);
    schedule := First(s, r, Continue, two, w);
  }

  lemma {:induction false} First(s: State, c: nat, op: Op, rest: seq<(nat, Op)>, w: nat)
      returns (schedule: seq<(nat, Op)>)
    requires c < |s.pcs| && w < |s.pcs| && s.pcs[w].WriteSpin? && OnCpus(rest, |s.pcs|)
    requires WaitsThroughout(Step(s, c, op), rest, w)
    ensures OnCpus(schedule, |s.pcs|) && WaitsThroughout(s, schedule, w)
    ensures Run(s, schedule) == Run(Step(s, c, op), rest)
  {
    hide Step;
    schedule := [(c, op)] + rest;
    assert schedule[1..] == rest;
  }

  /** A reader that starts while a writer waits can get in before it: the writer ahead takes the flag
      down for both. CPU 0 writes, CPU 1 waits to write, CPU 0 leaves, and CPU 2 reads. */
  lemma {:induction false} ReaderOvertakes(s: State) returns (early: seq<(nat, Op)>, late: seq<(nat, Op)>)
    requires Init(s) && |s.pcs| == 3
    ensures OnCpus(early, |s.pcs|)
    ensures OnCpus(late, |s.pcs|)
    ensures var t := Run(s, early); t.pcs[1].WriteSpin? && t.pcs[2].Idle?
    ensures var t := Run(Run(s, early), late); t.pcs[1].WriteSpin? && t.pcs[2].Reading?
  {
    early := [(0, Write), (0, Continue), (1, Write)];
    late := [(0, Drop), (0, Continue), (2, Read), (2, Continue), (2, Continue), (2, Continue)];
    var s1 := Step(Step(Step(s, 0, Write), 0, Continue), 1, Write);
    assert Run(s, early) == s1 by {
      assert early[1..] == [(0, Continue), (1, Write)] && early[1..][1..] == [(1, Write)] && [(1, Write)][1..] == [];
    }
  }
}
