/**
 What those who use the SCSI drivers see of them over a run: which requests are reported done, by which
 interrupts and with what outcome; which unit gets the chip next; and how much of a request its DMA moves.
 All of it is said in terms of the chip's own codes.
 */
module ScsiRuns {

  import opened Scsi

  // ----- what is queued and what is reported

  /** The requests queued and those reported done, in the order in which it happened. */
  function Dealings(log: seq<Event>): (es: seq<Event>)
  {
    if log == [] then []
    else
      var e := log[|log| - 1];
      Dealings(log[..|log| - 1]) + if e.Queued? || e.Done? then [e] else []
  }

  function QueuedEach(rs: seq<Request>): (es: seq<Event>)
  {
    if rs == [] then [] else [Queued(rs[0])] + QueuedEach(rs[1..])
  }

  /** A request is over when the chip says that select-and-transfer has come to its end (0x16), at whatever
      stage of it the driver is, or that nobody has answered the selection (0x42). */
  predicate Over(phase: Phase, ss: nat)
  {
    if phase == Starting then ss == 0x16 || ss == 0x42 else (phase == Resuming || phase == Ending) && ss == 0x16
  }

  /** It went well if the chip has come to the end of the whole command, phase 0x60. */
  function Told(x: Input): (outcome: Outcome)
  {
    if x.ss == 0x16 && x.cp == 0x60 then Okay(x.ts) else Failed
  }

  /** What a step has to do with the outside. */
  function Dealt(s: State, op: Op): (es: seq<Event>)
    requires Shape(s)
  {
    match op
    case Queue(r, _) => [Queued(r)]
    case Irq(x) => if Over(s.phase, x.ss) then [Done(Head(s, s.cur), Told(x))] + QueuedEach(x.again) else []
  }

  ghost function DealtOver(b: Board, s: State, ops: seq<Op>): (es: seq<Event>)
    requires Shape(s)
    decreases |ops|
  {
    if ops == [] || !Shape(Step(b, s, ops[0])) then [] else Dealt(s, ops[0]) + DealtOver(b, Step(b, s, ops[0]), ops[1..])
  }

  lemma NoteDeals(log: seq<Event>, e: Event)
    ensures Dealings(log + [e]) == Dealings(log) + if e.Queued? || e.Done? then [e] else []
  {
    assert (log + [e])[..|log|] == log;
  }

  lemma {:induction false} DmaDealsNothing(log: seq<Event>, es: seq<Event>)
    requires OfDma(es)
    ensures Dealings(log + es) == Dealings(log)
  {
    if es == [] {
      assert log + es == log;
    } else {
      var n := |es| - 1;
      DmaDealsNothing(log, es[..n]);
      NoteDeals(log + es[..n], es[n]);
      assert log + es[..n] + [es[n]] == log + es;
    }
  }

  /** The log has only grown. */
  ghost predicate Grown(s: State, s': State)
  {
    |s.log| <= |s'.log| && s'.log[..|s.log|] == s.log
  }

  lemma GrownTwice(a: State, b: State, c: State)
    requires Grown(a, b) && Grown(b, c)
    ensures Grown(a, c)
  {
    assert c.log[..|a.log|] == c.log[..|b.log|][..|a.log|];
  }

  lemma StartAnyDeals(b: Board, s: State, mem: int)
    requires Shape(s)
    ensures var s' := StartAny(b, s, mem); Shape(s') && Dealings(s'.log) == Dealings(s.log) && Grown(s, s')
  {
    if s.phase == Idle && s.start != [] {
      var s2 := StartFirst(b, s, mem);
      StartFirstDeals(b, s, mem);
      NoteDeals(s2.log, Began(Head(s, s.start[0])));
    }
  }

  lemma StartFirstDeals(b: Board, s: State, mem: int)
    requires Shape(s) && s.start != []
    ensures var s' := StartFirst(b, s, mem); Shape(s') && Dealings(s'.log) == Dealings(s.log) && Grown(s, s')
  {
    var u := s.start[0];
    var s1 := s.(start := s.start[1..], cur := u, left := s.left[u := Head(s, u).nbyte % 0x1000000]);
    StartDmaOnly(b, s1, u, mem);
    DmaDealsNothing(s.log, StartDma(b, s1, u, mem).log[|s.log|..]);
  }

  lemma EnqueueDeals(b: Board, s: State, r: Request, mem: int)
    requires Shape(s)
    ensures var s' := Enqueue(b, s, r, mem);
            Shape(s') && Dealings(s'.log) == Dealings(s.log) + [Queued(r)] && Grown(s, s')
  {
    NoteDeals(s.log, Queued(r));
    var s1 := Note(s.(pending := s.pending[r.unit := s.pending[r.unit] + [r]]), Queued(r));
    if s.pending[r.unit] == [] && s.start == [] {
      StartAnyDeals(b, s1.(start := [r.unit]), mem);
      GrownTwice(s, s1, StartAny(b, s1.(start := [r.unit]), mem));
    }
  }

  lemma {:induction false} CallbackDeals(b: Board, s: State, rs: seq<Request>, mem: int)
    requires Shape(s)
    ensures var s' := EnqueueAll(b, s, rs, mem); Dealings(s'.log) == Dealings(s.log) + QueuedEach(rs) && Grown(s, s')
    decreases |rs|
  {
    if rs != [] {
      EnqueueDeals(b, s, rs[0], mem);
      CallbackDeals(b, Enqueue(b, s, rs[0], mem), rs[1..], mem);
      GrownTwice(s, Enqueue(b, s, rs[0], mem), EnqueueAll(b, s, rs, mem));
    }
  }

  lemma StopDmaDeals(b: Board, s: State)
    requires Shape(s)
    ensures var s' := StopDma(b, s); Dealings(s'.log) == Dealings(s.log) && Grown(s, s')
  {
    StopDmaOnly(b, s);
    DmaDealsNothing(s.log, StopDma(b, s).log[|s.log|..]);
  }

  lemma WaitDeals(b: Board, s: State, u: Unit, mem: int)
    requires Shape(s)
    ensures var s' := WaitForChip(b, s, u, mem); Shape(s') && Dealings(s'.log) == Dealings(s.log) && Grown(s, s')
  {
    if s.start == [] {
      StartAnyDeals(b, s.(start := [u]), mem);
    }
  }

  lemma RetiredDeals(b: Board, s: State, outcome: Outcome, mem: int)
    requires Shape(s) && s.phase != Idle
    ensures var s' := Note(Retire(b, StopDma(b, s), mem), Done(Head(s, s.cur), outcome));
            Dealings(s'.log) == Dealings(s.log) + [Done(Head(s, s.cur), outcome)] && Grown(s, s')
  {
    StopDmaOnly(b, s);
    StopDmaDeals(b, s);
    var s1 := StopDma(b, s);
    NoteDeals(s1.log, Done(Head(s, s.cur), outcome));
  }

  lemma FinishDeals(b: Board, s: State, outcome: Outcome, again: seq<Request>, mem: int)
    requires Shape(s) && s.phase != Idle
    ensures var s' := FinishRequest(b, s, outcome, again, mem);
            Shape(s') && Dealings(s'.log) == Dealings(s.log) + ([Done(Head(s, s.cur), outcome)] + QueuedEach(again)) && Grown(s, s')
  {
    RetiredDeals(b, s, outcome, mem);
    StopDmaOnly(b, s);
    var s2 := Note(Retire(b, StopDma(b, s), mem), Done(Head(s, s.cur), outcome));
    CallbackDeals(b, s2, again, mem);
    var s3 := Finished(b, s, outcome, again, mem);
    StartAnyDeals(b, s3, mem);
    GrownTwice(s, s2, s3);
    GrownTwice(s, s3, StartAny(b, s3, mem));
    Regroup(Dealings(s.log), [Done(Head(s, s.cur), outcome)], QueuedEach(again));
  }

  lemma Regroup(a: seq<Event>, b: seq<Event>, c: seq<Event>)
    ensures a + b + c == a + (b + c)
  {
  }

  lemma ReselectDeals(b: Board, s: State, si: nat, mem: int)
    requires Shape(s)
    ensures var s' := Reselect(b, s, si, mem); Shape(s') && Dealings(s'.log) == Dealings(s.log) && Grown(s, s')
  {
    var u: Unit := si % UNITS;
    StartDmaOnly(b, s, u, mem);
    DmaDealsNothing(s.log, StartDma(b, s, u, mem).log[|s.log|..]);
  }

  lemma SwapDeals(b: Board, s: State, si: nat, mem: int)
    requires Shape(s)
    ensures var s1 := WaitForChip(b, StopDma(b, s), s.cur, mem);
            Shape(s1) && var s' := Reselect(b, s1, si, mem); Shape(s') && Dealings(s'.log) == Dealings(s.log) && Grown(s, s')
  {
    var s0 := StopDma(b, s);
    StopDmaDeals(b, s);
    StopDmaOnly(b, s);
    WaitDeals(b, s0, s.cur, mem);
    var s1 := WaitForChip(b, s0, s.cur, mem);
    ReselectDeals(b, s1, si, mem);
    GrownTwice(s, s0, s1);
    GrownTwice(s, s1, Reselect(b, s1, si, mem));
  }

  lemma YieldDeals(b: Board, s: State, mem: int)
    requires Shape(s)
    ensures var s' := StartAny(b, StopDma(b, s).(phase := Idle, away := s.away + {s.cur}), mem);
            Shape(s') && Dealings(s'.log) == Dealings(s.log) && Grown(s, s')
  {
    var s1 := StopDma(b, s).(phase := Idle, away := s.away + {s.cur});
    StopDmaDeals(b, s);
    StopDmaOnly(b, s);
    StartAnyDeals(b, s1, mem);
    GrownTwice(s, s1, StartAny(b, s1, mem));
  }

  lemma OverMeans(phase: Phase, ss: nat)
    ensures Over(phase, ss) <==> ActionFor(phase, SignalOf(ss)) in {Complete, Abort}
    ensures ActionFor(phase, SignalOf(ss)) == Complete ==> ss == 0x16 && phase != Idle
    ensures ActionFor(phase, SignalOf(ss)) == Abort ==> ss == 0x42 && phase != Idle
  {
  }

  /** Interrupts that do not end a request deal nothing. */
  lemma QuietDeals(b: Board, s: State, x: Input)
    requires Shape(s) && !Over(s.phase, x.ss)
    ensures var s' := Interrupt(b, s, x); Shape(s') && Dealings(s'.log) == Dealings(s.log) && Grown(s, s')
  {
    OverMeans(s.phase, x.ss);
    match ActionFor(s.phase, SignalOf(x.ss))
    case Swap => SwapDeals(b, s, x.si, x.mem);
    case Reconnect => ReselectDeals(b, s, x.si, x.mem);
    case Yield => YieldDeals(b, s, x.mem);
    case _ =>
  }

  lemma OverDeals(b: Board, s: State, x: Input)
    requires Shape(s) && Over(s.phase, x.ss)
    ensures var s' := Interrupt(b, s, x);
            Shape(s') && Dealings(s'.log) == Dealings(s.log) + ([Done(Head(s, s.cur), Told(x))] + QueuedEach(x.again)) && Grown(s, s')
  {
    OverIsFinish(b, s, x);
    FinishDeals(b, s, Told(x), x.again, x.mem);
  }

  lemma OverIsFinish(b: Board, s: State, x: Input)
    requires Shape(s) && Over(s.phase, x.ss)
    ensures s.phase != Idle && Interrupt(b, s, x) == FinishRequest(b, s, Told(x), x.again, x.mem)
  {
    OverMeans(s.phase, x.ss);
  }

  lemma StepDeals(b: Board, s: State, op: Op)
    requires Shape(s)
    ensures var s' := Step(b, s, op); Shape(s') && Dealings(s'.log) == Dealings(s.log) + Dealt(s, op) && Grown(s, s')
  {
    match op
    case Queue(r, mem) => EnqueueDeals(b, s, r, mem);
    case Irq(x) =>
      if Over(s.phase, x.ss) {
        OverDeals(b, s, x);
      } else {
        QuietDeals(b, s, x);
      }
  }

  lemma {:induction false} RunDeals(b: Board, s: State, ops: seq<Op>, s': State)
    requires Shape(s) && Run(b, s, ops, s')
    ensures Dealings(s'.log) == Dealings(s.log) + DealtOver(b, s, ops)
    decreases |ops|
  {
    if ops != [] {
      StepDeals(b, s, ops[0]);
      RunDeals(b, Step(b, s, ops[0]), ops[1..], s');
    }
  }

  /** Over any run, what is queued is what the calls and the callbacks ask for, and what is reported done is
      the current request at every interrupt that says it is over, with the outcome that the chip gives. */
  lemma ReportsAreTheChips(b: Board, ops: seq<Op>, s: State)
    requires Run(b, Initial(), ops, s)
    ensures Dealings(s.log) == DealtOver(b, Initial(), ops)
  {
    RunDeals(b, Initial(), ops, s);
  }

  lemma SameFront(front: seq<Event>, a: seq<Event>, b: seq<Event>)
    requires front + a == front + b
    ensures a == b
  {
    assert a == (front + a)[|front|..];
    assert b == (front + b)[|front|..];
  }

  lemma {:induction false} DealtIsDealing(log: seq<Event>, more: seq<Event>, es: seq<Event>, i: nat)
    requires Dealings(log + more) == Dealings(log) + es && |log| <= i < |log + more| && (log + more)[i].Done?
    ensures (log + more)[i] in es
  {
    DealingsConcat(log, more);
    SameFront(Dealings(log), Dealings(more), es);
    DealingsHold(more, i - |log|);
  }

  lemma {:induction false} DealingsConcat(log: seq<Event>, more: seq<Event>)
    ensures Dealings(log + more) == Dealings(log) + Dealings(more)
  {
    if more == [] {
      assert log + more == log;
    } else {
      var n := |more| - 1;
      DealingsConcat(log, more[..n]);
      NoteDeals(log + more[..n], more[n]);
      assert log + more[..n] + [more[n]] == log + more;
    }
  }

  lemma {:induction false} DealingsHold(log: seq<Event>, i: nat)
    requires i < |log| && log[i].Done?
    ensures log[i] in Dealings(log)
  {
    if i < |log| - 1 {
      DealingsHold(log[..|log| - 1], i);
    }
  }

  lemma {:induction false} QueuedEachQueues(rs: seq<Request>, e: Event)
    requires e in QueuedEach(rs)
    ensures e.Queued?
  {
    if rs != [] && e != Queued(rs[0]) {
      QueuedEachQueues(rs[1..], e);
    }
  }

  lemma NewDone(b: Board, s: State, op: Op, i: nat)
    requires Shape(s) && |s.log| <= i < |Step(b, s, op).log| && Step(b, s, op).log[i].Done?
    ensures Step(b, s, op).log[i] in Dealt(s, op)
  {
    StepDeals(b, s, op);
    NewIsDealt(s.log, Step(b, s, op).log, Dealt(s, op), i);
  }

  lemma NewIsDealt(log: seq<Event>, log': seq<Event>, es: seq<Event>, i: nat)
    requires |log| <= i < |log'| && log'[..|log|] == log && Dealings(log') == Dealings(log) + es && log'[i].Done?
    ensures log'[i] in es
  {
    var more := log'[|log|..];
    assert log' == log + more;
    DealtIsDealing(log, more, es, i);
  }

  lemma DoneInDealt(s: State, op: Op, e: Event)
    requires Shape(s) && e in Dealt(s, op) && e.Done?
    ensures op.Irq? && Over(s.phase, op.x.ss) && e == Done(Head(s, s.cur), Told(op.x))
  {
    if op.Irq? && e in QueuedEach(op.x.again) {
      QueuedEachQueues(op.x.again, e);
    }
  }

  /** A step of any run that reports a request done is an interrupt; the request is the first one of the
      current unit; and it is reported to be okay, with the status that the target has given, if and only if
      the chip has come to the end of the whole command. */
  lemma DoneMeans(b: Board, ops: seq<Op>, s: State, op: Op, i: nat)
    requires Run(b, Initial(), ops, s) && Possible(s, op) && Shape(s)
    requires |s.log| <= i < |Step(b, s, op).log| && Step(b, s, op).log[i].Done?
    ensures var e := Step(b, s, op).log[i];
            && op.Irq?
            && ((op.x.ss == 0x16 && s.phase in {Starting, Resuming, Ending}) || (op.x.ss == 0x42 && s.phase == Starting))
            && s.pending[s.cur] != [] && e.r == s.pending[s.cur][0]
            && (e.outcome.Okay? <==> op.x.ss == 0x16 && op.x.cp == 0x60)
            && (e.outcome.Okay? ==> e.outcome.status == op.x.ts)
  {
    NewDone(b, s, op, i);
    DoneInDealt(s, op, Step(b, s, op).log[i]);
    InitialInv(b);
    RunKeepsInv(b, Initial(), ops, s);
    assert Placed(s, s.cur, true);
  }

  // ----- which unit is next, and how much is moved

  /** A step has given the chip to a unit that was waiting for it. */
  predicate Begun(s: State, s': State)
  {
    |s'.log| > |s.log| && s'.log[|s'.log| - 1].Began?
  }

  /** Units that wait keep their places, but for the first one when it gets the chip. */
  ghost predicate TurnsKept(s: State, s': State)
  {
    if !Begun(s, s') then s.start <= s'.start else s.start == [] || (s'.cur == s.start[0] && s.start[1..] <= s'.start)
  }

  /** What is still to be moved for each unit: set anew for the one that has begun. */
  ghost predicate CountsKept(s: State, s': State)
    requires Shape(s) && Shape(s')
  {
    forall u: Unit :: s'.left[u] == if Begun(s, s') && u == s'.cur then Head(s', u).nbyte % 0x1000000 else s.left[u]
  }

  /** DMA that was begun since is for the current request, and moves what is still to be moved of it. */
  ghost predicate Moves(s: State, s': State)
    requires Shape(s')
  {
    forall i: nat :: |s.log| <= i < |s'.log| && s'.log[i].DmaOn? ==>
      s'.log[i].r == Head(s', s'.cur) && s'.log[i].size == s'.left[s'.cur]
  }

  /** If anything is still to be moved, DMA has been begun since. */
  ghost predicate DmaBegun(s: State, s': State)
    requires Shape(s')
  {
    s'.left[s'.cur] > 0 ==> exists i: nat :: |s.log| <= i < |s'.log| && s'.log[i].DmaOn?
  }

  /** Only a request or a stop of DMA has been noted, and units may have begun to wait. */
  ghost predicate Prepared(s: State, s': State)
  {
    && Shape(s) && Shape(s') && Grown(s, s') && s.start <= s'.start && s'.left == s.left && s'.cur == s.cur
    && forall i: nat :: |s.log| <= i < |s'.log| ==> !s'.log[i].DmaOn? && !s'.log[i].Began?
  }

  lemma PreparedTwice(a: State, b: State, c: State)
    requires Prepared(a, b) && Prepared(b, c)
    ensures Prepared(a, c)
  {
    GrownTwice(a, b, c);
    forall i: nat | |a.log| <= i < |c.log|
      ensures !c.log[i].DmaOn? && !c.log[i].Began?
    {
      if i < |b.log| {
        assert c.log[i] == c.log[..|b.log|][i];
      }
    }
  }

  lemma StopPrepares(b: Board, s: State)
    requires Shape(s)
    ensures Prepared(s, StopDma(b, s))
  {
  }

  lemma AppendPrepares(s: State, r: Request)
    requires Shape(s)
    ensures Prepared(s, Appended(s, r))
  {
  }

  lemma {:induction false} CallbackPrepares(b: Board, s: State, rs: seq<Request>, mem: int)
    requires Shape(s) && s.phase != Idle
    ensures Prepared(s, EnqueueAll(b, s, rs, mem)) && EnqueueAll(b, s, rs, mem).away == s.away
    decreases |rs|
  {
    if rs != [] {
      EnqueueIsAppended(b, s, rs[0], mem);
      AppendPrepares(s, rs[0]);
      CallbackPrepares(b, Appended(s, rs[0]), rs[1..], mem);
      PreparedTwice(s, Appended(s, rs[0]), EnqueueAll(b, s, rs, mem));
    }
  }

  lemma RetirePrepares(b: Board, s: State, outcome: Outcome, mem: int)
    requires Shape(s) && s.phase != Idle
    ensures Prepared(s, Note(Retire(b, s, mem), Done(Head(s, s.cur), outcome)))
  {
  }

  lemma FinishPrepares(b: Board, s: State, outcome: Outcome, again: seq<Request>, mem: int)
    requires Shape(s) && s.phase != Idle
    ensures Prepared(s, Finished(b, s, outcome, again, mem)) && Finished(b, s, outcome, again, mem).away == s.away
  {
    var s1 := StopDma(b, s);
    var s2 := Note(Retire(b, s1, mem), Done(Head(s1, s.cur), outcome));
    var s3 := EnqueueAll(b, s2, again, mem);
    StopPrepares(b, s);
    StopDmaOnly(b, s);
    RetirePrepares(b, s1, outcome, mem);
    CallbackPrepares(b, s2, again, mem);
    PreparedTwice(s, s1, s2);
    PreparedTwice(s, s2, s3);
  }

  /** A step does three things: it sees to the order of those who wait, to the counts, and to DMA. */
  ghost predicate Fair(s: State, s': State)
  {
    && Shape(s) && Shape(s') && TurnsKept(s, s') && CountsKept(s, s') && Moves(s, s')
    && (Begun(s, s') ==> DmaBegun(s, s'))
  }

  lemma PreparedIsFair(s: State, s': State)
    requires Prepared(s, s')
    ensures Fair(s, s')
  {
  }

  lemma StartDmaMoves(b: Board, s: State, u: Unit, mem: int)
    requires Shape(s)
    ensures var s' := StartDma(b, s, u, mem);
            OnlyDma(s, s') && forall i: nat :: |s.log| <= i < |s'.log| ==>
              (s'.log[i].DmaOn? ==> s'.log[i].r == Head(s, u) && s'.log[i].size == s.left[u]) && !s'.log[i].Began?
    ensures s.left[u] > 0 ==> var log := StartDma(b, s, u, mem).log; |log| > |s.log| && log[|log| - 1].DmaOn?
  {
    StartDmaOnly(b, s, u, mem);
  }

  lemma DmaMovesAfter(s: State, s1: State, s2: State, u: Unit)
    requires Prepared(s, s1) && Grown(s1, s2) && Shape(s2) && s2.cur == u
    requires forall i: nat :: |s1.log| <= i < |s2.log| && s2.log[i].DmaOn? ==>
               s2.log[i].r == Head(s2, u) && s2.log[i].size == s2.left[u]
    ensures Moves(s, s2)
  {
    assert forall i: nat :: |s.log| <= i < |s1.log| ==> s2.log[i] == s1.log[i];
  }

  lemma StartAnyIsFair(b: Board, s: State, s1: State, mem: int)
    requires Prepared(s, s1) && s1.phase == Idle
    ensures var s' := StartAny(b, s1, mem);
            Fair(s, s') && s'.away == s1.away && s'.phase == if Begun(s, s') then Starting else Idle
  {
    if s1.start == [] {
      PreparedIsFair(s, s1);
    } else {
      var u := s1.start[0];
      var s2 := s1.(start := s1.start[1..], cur := u, left := s1.left[u := Head(s1, u).nbyte % 0x1000000]);
      var s3 := StartDma(b, s2, u, mem);
      StartDmaMoves(b, s2, u, mem);
      var s4 := StartAny(b, s1, mem);
      assert s4 == Note(s3.(phase := Starting), Began(Head(s1, u)));
      DmaMovesAfter(s, s1, s4, u);
      assert s4.left[u] > 0 ==> s4.log[|s3.log| - 1].DmaOn?;
      assert s.start != [] ==> s.start[1..] <= s1.start[1..];
    }
  }

  lemma ReselectMoves(b: Board, s: State, si: nat, mem: int)
    requires Shape(s) && s.pending[si % UNITS] != []
    ensures var u, s' := si % UNITS, Reselect(b, s, si, mem);
            && Shape(s') && Grown(s, s') && s'.cur == u && s'.start == s.start && s'.left == s.left
            && (forall i: nat :: |s.log| <= i < |s'.log| ==>
                  (s'.log[i].DmaOn? ==> s'.log[i].r == Head(s', u) && s'.log[i].size == s'.left[u]) && !s'.log[i].Began?)
            && (s'.left[u] > 0 ==> |s'.log| > |s.log| && s'.log[|s'.log| - 1].DmaOn?)
  {
    StartDmaMoves(b, s, si % UNITS, mem);
  }

  lemma ReselectIsFair(b: Board, s: State, s1: State, si: nat, mem: int)
    requires Prepared(s, s1)
    ensures var s' := Reselect(b, s1, si, mem); Fair(s, s') && (s'.phase == Dead || DmaBegun(s, s'))
  {
    var u: Unit := si % UNITS;
    if s1.pending[u] == [] {
      PreparedIsFair(s, s1);
    } else {
      var s2 := Reselect(b, s1, si, mem);
      ReselectMoves(b, s1, si, mem);
      DmaMovesAfter(s, s1, s2, u);
      NotBegun(s, s1, s2);
      assert s2.left[u] > 0 ==> s2.log[|s2.log| - 1].DmaOn?;
    }
  }

  lemma NotBegun(s: State, s1: State, s2: State)
    requires Prepared(s, s1) && Grown(s1, s2) && forall i: nat :: |s1.log| <= i < |s2.log| ==> !s2.log[i].Began?
    ensures !Begun(s, s2)
  {
    if |s2.log| > |s.log| && |s2.log| == |s1.log| {
      assert s2.log == s1.log;
    }
  }

  lemma QueueIsFair(b: Board, s: State, r: Request, mem: int)
    requires Shape(s) && (s.phase == Idle ==> s.start == [])
    ensures Fair(s, Enqueue(b, s, r, mem))
  {
    EnqueueIsAppended(b, s, r, mem);
    AppendPrepares(s, r);
    if s.phase == Idle && s.pending[r.unit] == [] {
      StartAnyIsFair(b, s, Appended(s, r), mem);
    } else {
      PreparedIsFair(s, Appended(s, r));
    }
  }

  lemma SwapIsFair(b: Board, s: State, si: nat, mem: int)
    requires Shape(s) && s.phase != Idle
    ensures var s' := Reselect(b, WaitForChip(b, StopDma(b, s), s.cur, mem), si, mem);
            Fair(s, s') && (s'.phase == Dead || DmaBegun(s, s'))
  {
    var s1 := StopDma(b, s);
    StopPrepares(b, s);
    StopDmaOnly(b, s);
    var s2 := WaitForChip(b, s1, s.cur, mem);
    assert s2 == s1.(start := s1.start + [s.cur]);
    PreparedTwice(s, s1, s2);
    ReselectIsFair(b, s, s2, si, mem);
  }

  lemma YieldIsFair(b: Board, s: State, mem: int)
    requires Shape(s)
    ensures var s' := StartAny(b, StopDma(b, s).(phase := Idle, away := s.away + {s.cur}), mem);
            Fair(s, s') && s'.away == s.away + {s.cur} && s'.phase == if Begun(s, s') then Starting else Idle
  {
    StopPrepares(b, s);
    StartAnyIsFair(b, s, StopDma(b, s).(phase := Idle, away := s.away + {s.cur}), mem);
  }

  /** The counter as an interrupt finds it: saved, when the target says so, for a resumption later. */
  function Saved(s: State, op: Op): (s': State)
    requires Shape(s)
  {
    if op.Irq? && op.x.ss == 0x21 && (s.phase == Starting || s.phase == Resuming) then s.(left := s.left[s.cur := op.x.tc])
    else s
  }

  lemma FinishIsFair(b: Board, s: State, outcome: Outcome, again: seq<Request>, mem: int)
    requires Shape(s) && s.phase != Idle
    ensures var s' := FinishRequest(b, s, outcome, again, mem);
            Fair(s, s') && s'.away == s.away && s'.phase == if Begun(s, s') then Starting else Idle
  {
    FinishPrepares(b, s, outcome, again, mem);
    StartAnyIsFair(b, s, Finished(b, s, outcome, again, mem), mem);
  }

  lemma PlainIsFair(b: Board, s: State, x: Input)
    requires Shape(s) && ActionFor(s.phase, SignalOf(x.ss)) in {Accept, Save, ReadMessage, Finish, Shutdown}
    ensures Fair(Saved(s, Irq(x)), Interrupt(b, s, x))
  {
    SaveMeans(s.phase, x.ss);
  }

  lemma OverIsFair(b: Board, s: State, x: Input)
    requires Shape(s) && Over(s.phase, x.ss)
    ensures Fair(s, Interrupt(b, s, x))
  {
    OverIsFinish(b, s, x);
    FinishIsFair(b, s, Told(x), x.again, x.mem);
  }

  lemma SaveMeans(phase: Phase, ss: nat)
    ensures ActionFor(phase, SignalOf(ss)) == Save <==> ss == 0x21 && (phase == Starting || phase == Resuming)
    ensures ActionFor(phase, SignalOf(ss)) in {Complete, Abort, Swap, Yield} ==> phase != Idle
    ensures ss == 0x81 ==> ActionFor(phase, SignalOf(ss)) in {Swap, Reconnect, Shutdown}
  {
  }

  lemma InterruptIsFair(b: Board, s: State, x: Input)
    requires Shape(s)
    ensures var s' := Interrupt(b, s, x);
            Fair(Saved(s, Irq(x)), s') && (x.ss == 0x81 && s'.phase != Dead ==> DmaBegun(s, s'))
  {
    SaveMeans(s.phase, x.ss);
    OverMeans(s.phase, x.ss);
    match ActionFor(s.phase, SignalOf(x.ss))
    case Complete => OverIsFair(b, s, x);
    case Abort => OverIsFair(b, s, x);
    case Swap => SwapIsFair(b, s, x.si, x.mem);
    case Reconnect =>
      PreparedIsFair(s, s);
      ReselectIsFair(b, s, s, x.si, x.mem);
    case Yield => YieldIsFair(b, s, x.mem);
    case _ => PlainIsFair(b, s, x);
  }

  /** In every step of any run the units that wait get the chip in the order in which they began to wait; a
      request that begins is to be moved as far as the counter of 24 bits can say, one that goes on from where
      the target last had the pointers saved; and then DMA is begun for the current request, and moves just that. */
  lemma ChipIsShared(b: Board, ops: seq<Op>, s: State, op: Op)
    requires Run(b, Initial(), ops, s) && Possible(s, op) && Shape(s)
    ensures var s' := Step(b, s, op);
            Fair(Saved(s, op), s') && (op.Irq? && op.x.ss == 0x81 && s'.phase != Dead ==> DmaBegun(s, s'))
  {
    InitialInv(b);
    RunKeepsInv(b, Initial(), ops, s);
    match op
    case Queue(r, mem) => QueueIsFair(b, s, r, mem);
    case Irq(x) => InterruptIsFair(b, s, x);
  }

  // ----- what the driver takes the chip to be doing

  /** The codes that the driver can do something with. */
  predicate Expected(phase: Phase, ss: nat)
  {
    match phase
    case Idle => ss == 0x81
    case Starting => ss in {0x16, 0x21, 0x42, 0x4B, 0x4F, 0x81, 0x85}
    case Resuming => ss in {0x16, 0x21, 0x4B, 0x4F, 0x85}
    case Messaging => ss == 0x20
    case Ending => ss == 0x16
    case Dead => false
  }

  lemma ExpectedMeans(phase: Phase, ss: nat)
    ensures var action := ActionFor(phase, SignalOf(ss));
            && (Expected(phase, ss) <==> action != Shutdown)
            && (action in {Complete, Abort, Yield} <==> Expected(phase, ss) && ss in {0x16, 0x42, 0x85})
            && (action == Yield <==> Expected(phase, ss) && ss == 0x85)
            && (action == Save <==> Expected(phase, ss) && ss == 0x21)
            && (action == Accept <==> Expected(phase, ss) && ss == 0x20)
            && (action == Finish <==> Expected(phase, ss) && ss == 0x4B)
            && (action == ReadMessage <==> Expected(phase, ss) && ss == 0x4F)
            && (action in {Swap, Reconnect} <==> Expected(phase, ss) && ss == 0x81)
            && (action == Swap ==> phase == Starting)
  {
  }

  /** What a code leads to, if it is expected. */
  ghost predicate Leads(s: State, x: Input, s': State)
  {
    && (x.ss == 0x20 || x.ss == 0x21 ==> s'.phase == Resuming && s'.cur == s.cur)
    && (x.ss == 0x4B ==> s'.phase == Ending && s'.cur == s.cur)
    && (x.ss == 0x4F && x.dr == 0x03 ==> s'.phase == Messaging && s'.cur == s.cur)
    && (x.ss == 0x81 ==> s'.phase == Resuming && s'.cur == x.si % UNITS)
    && (x.ss in {0x16, 0x42, 0x85} ==> s'.phase == if Begun(s, s') then Starting else Idle)
    && s'.away == if x.ss == 0x85 then s.away + {s.cur} else if x.ss == 0x81 then s.away - {x.si % UNITS} else s.away
  }

  lemma ReselectLeads(b: Board, s: State, si: nat, mem: int)
    requires Good(b, s, false, false) && mem != 0 && si % UNITS in s.away
    ensures var s' := Reselect(b, s, si, mem);
            s'.phase == Resuming && s'.cur == si % UNITS && s'.away == s.away - {si % UNITS}
  {
    ReselectKeepsInv(b, s, si, mem);
    StartDmaOnly(b, s, si % UNITS, mem);
  }

  lemma InterruptLeads(b: Board, s: State, x: Input)
    requires Inv(b, s) && Plausible(s, x) && Expected(s.phase, x.ss)
    ensures Leads(s, x, Interrupt(b, s, x))
  {
    ExpectedMeans(s.phase, x.ss);
    match ActionFor(s.phase, SignalOf(x.ss))
    case Complete => FinishIsFair(b, s, Told(x), x.again, x.mem);
    case Abort => FinishIsFair(b, s, Told(x), x.again, x.mem);
    case Swap =>
      SwapKeepsGood(b, s, x.mem);
      ReselectLeads(b, WaitForChip(b, StopDma(b, s), s.cur, x.mem), x.si, x.mem);
    case Reconnect => ReselectLeads(b, s, x.si, x.mem);
    case Yield => YieldIsFair(b, s, x.mem);
    case _ =>
  }

  /** The driver gives up on any other code and on any message but Restore Pointers (0x03).  It goes on when
      pointers are saved (0x21) and when that message has been accepted (0x20), waits for the end once the
      status has come (0x4B), puts the unit aside when it disconnects (0x85), and takes it up again when it
      reselects (0x81). */
  lemma ChipLeads(b: Board, ops: seq<Op>, s: State, x: Input)
    requires Run(b, Initial(), ops, s) && Possible(s, Irq(x)) && Shape(s)
    ensures var s' := Step(b, s, Irq(x));
            && (s'.phase == Dead <==> !Expected(s.phase, x.ss) || (x.ss == 0x4F && x.dr != 0x03))
            && (Expected(s.phase, x.ss) ==> Leads(s, x, s'))
  {
    InitialInv(b);
    RunKeepsInv(b, Initial(), ops, s);
    InterruptKeepsInv(b, s, x);
    ExpectedMeans(s.phase, x.ss);
    if Expected(s.phase, x.ss) {
      InterruptLeads(b, s, x);
    }
  }
}
