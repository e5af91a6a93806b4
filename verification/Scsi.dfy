/**
 The WD33C93A drivers for the A3000's own SCSI bus and for the A2091 card.  Both run the same
 interrupt-driven state machine over per-unit request queues and a queue of units that wait for the chip;
 they differ in how DMA is set up.  A target may disconnect in the middle of a request and reselect the
 driver later.
 */
module Scsi {

  const UNITS: nat := 8

  type Unit = u: nat | u < UNITS

  datatype Board = A3091 | A2091

  /** The first address that an A2091's DMA cannot reach. */
  const BOUNCE_FROM: nat := 0x1000000

  datatype Request = Request(unit: Unit, addr: nat, nbyte: nat, reading: bool, tag: nat)

  datatype Outcome = Failed | Okay(status: nat)

  // ----- the two tables

  datatype Phase = Idle | Starting | Resuming | Dead | Messaging | Ending

  datatype Signal = NoDevice | Illegal | SavePointers | Disconnected | Reconnected | Message | Acceptance | StatusCame
                  | Completed

  datatype Action = Complete | Shutdown | Swap | Reconnect | Accept | Abort | Save | Yield | ReadMessage | Finish

  function SignalOf(ss: nat): Signal
  {
    if ss == 0x42 then NoDevice
    else if ss == 0x21 then SavePointers
    else if ss == 0x85 then Disconnected
    else if ss == 0x81 then Reconnected
    else if ss == 0x4F then Message
    else if ss == 0x20 then Acceptance
    else if ss == 0x4B then StatusCame
    else if ss == 0x16 then Completed
    else Illegal
  }

  function ActionFor(phase: Phase, signal: Signal): Action
  {
    match phase
    case Idle => if signal.Reconnected? then Reconnect else Shutdown
    case Starting =>
      (match signal
       case NoDevice => Abort
       case SavePointers => Save
       case Disconnected => Yield
       case Reconnected => Swap
       case Message => ReadMessage
       case StatusCame => Finish
       case Completed => Complete
       case _ => Shutdown)
    case Resuming =>
      (match signal
       case SavePointers => Save
       case Disconnected => Yield
       case Message => ReadMessage
       case StatusCame => Finish
       case Completed => Complete
       case _ => Shutdown)
    case Dead => Shutdown
    case Messaging => if signal.Acceptance? then Accept else Shutdown
    case Ending => if signal.Completed? then Complete else Shutdown
  }

  // ----- what can be seen from outside

  datatype Event =
    | Queued(r: Request)
    | Began(r: Request)
    | Alloc(at: int, size: nat)
    | CopyIn(r: Request, from: int, size: nat)
    | DmaOn(r: Request, at: int, size: nat)
    | DmaOff
    | CopyOut(r: Request, to: int, size: nat)
    | Free(at: int, size: nat)
    | Done(r: Request, outcome: Outcome)

  /** What the chip's registers hold and the outside world does at an interrupt: `again` are the requests
      that the completion callback queues, `mem` is what the allocator would return. */
  datatype Input = Input(ss: nat, cp: nat, ts: nat, si: nat, tc: nat, dr: nat, again: seq<Request>, mem: int)

  datatype State = State(
    pending: seq<seq<Request>>,  // comhead..comtail of each unit
    left: seq<nat>,              // tc0, tc1, tc2 of each unit
    start: seq<Unit>,            // starthead..starttail
    cur: Unit,
    phase: Phase,
    dmaOn: bool,                 // A3091 only
    tc: nat, chip: int,          // A2091 only
    away: set<Unit>,             // targets that have disconnected and not reselected yet
    log: seq<Event>)

  function Initial(): State
  {
    State(seq(UNITS, _ => []), seq(UNITS, _ => 0), [], 0, Idle, false, 0, 0, {}, [])
  }

  ghost predicate Shape(s: State)
  {
    |s.pending| == |s.left| == UNITS
  }

  function Head(s: State, u: Unit): (r: Request)
    requires Shape(s)
  {
    if s.pending[u] == [] then Request(u, 0, 0, false, 0) else s.pending[u][0]
  }

  function Note(s: State, e: Event): (s': State)
  {
    s.(log := s.log + [e])
  }

  function NoteAll(s: State, es: seq<Event>): (s': State)
  {
    s.(log := s.log + es)
  }

  // ----- the operations, as functions on states

  function StartDma(b: Board, s: State, u: Unit, mem: int): (s': State)
    requires Shape(s)
  {
    var n, r := s.left[u], Head(s, u);
    var at := r.addr + r.nbyte - n;
    match b
    case A3091 => if n == 0 then s else Note(s.(dmaOn := true), DmaOn(r, at, n))
    case A2091 =>
      if n == 0 then s.(tc := 0)
      else if r.addr < BOUNCE_FROM then Note(s.(tc := n), DmaOn(r, at, n))
      else NoteAll(s.(tc := n, chip := mem), BounceStart(r, at, n, mem))
  }

  function BounceStart(r: Request, at: int, n: nat, mem: int): (es: seq<Event>)
  {
    if r.reading then [Alloc(mem, n), DmaOn(r, mem, n)] else [Alloc(mem, n), CopyIn(r, at, n), DmaOn(r, mem, n)]
  }

  function StopDma(b: Board, s: State): (s': State)
    requires Shape(s)
  {
    match b
    case A3091 => if s.dmaOn then Note(s, DmaOff).(dmaOn := false) else s
    case A2091 =>
      if s.tc == 0 then s
      else if s.chip == 0 then Note(s, DmaOff)
      else NoteAll(s, BounceStop(Head(s, s.cur), s.tc, s.chip)).(chip := 0)
  }

  function BounceStop(r: Request, n: nat, mem: int): (es: seq<Event>)
  {
    if r.reading then [DmaOff, CopyOut(r, r.addr + r.nbyte - n, n), Free(mem, n)] else [DmaOff, Free(mem, n)]
  }

  /** The first waiting unit gets the chip. */
  function StartFirst(b: Board, s: State, mem: int): (s': State)
    requires Shape(s) && s.start != []
  {
    var u := s.start[0];
    StartDma(b, s.(start := s.start[1..], cur := u, left := s.left[u := Head(s, u).nbyte % 0x1000000]), u, mem)
  }

  function StartAny(b: Board, s: State, mem: int): (s': State)
    requires Shape(s)
  {
    if s.phase != Idle || s.start == [] then s
    else Note(StartFirst(b, s, mem).(phase := Starting), Began(Head(s, s.start[0])))
  }

  function WaitForChip(b: Board, s: State, u: Unit, mem: int): (s': State)
    requires Shape(s)
  {
    if s.start != [] then s.(start := s.start + [u]) else StartAny(b, s.(start := [u]), mem)
  }

  function Enqueue(b: Board, s: State, r: Request, mem: int): (s': State)
    requires Shape(s)
  {
    var s1 := Note(s.(pending := s.pending[r.unit := s.pending[r.unit] + [r]]), Queued(r));
    if s.pending[r.unit] != [] then s1 else WaitForChip(b, s1, r.unit, mem)
  }

  function EnqueueAll(b: Board, s: State, rs: seq<Request>, mem: int): (s': State)
    requires Shape(s)
    ensures Shape(s')
    decreases |rs|
  {
    if rs == [] then s else EnqueueAll(b, Enqueue(b, s, rs[0], mem), rs[1..], mem)
  }

  /** The current request leaves its unit's queue; the unit waits for the chip again if it has another. */
  function Retire(b: Board, s: State, mem: int): (s': State)
    requires Shape(s)
    ensures Shape(s')
  {
    var rest := if s.pending[s.cur] == [] then [] else s.pending[s.cur][1..];
    var s1 := s.(pending := s.pending[s.cur := rest]);
    if rest == [] then s1 else WaitForChip(b, s1, s.cur, mem)
  }

  /** The state in which the driver looks for the next unit to start. */
  function Finished(b: Board, s: State, outcome: Outcome, again: seq<Request>, mem: int): (s': State)
    requires Shape(s)
    ensures Shape(s')
  {
    var s1 := StopDma(b, s);
    var s2 := Note(Retire(b, s1, mem), Done(Head(s1, s.cur), outcome));
    EnqueueAll(b, s2, again, mem).(phase := Idle)
  }

  function FinishRequest(b: Board, s: State, outcome: Outcome, again: seq<Request>, mem: int): (s': State)
    requires Shape(s)
  {
    StartAny(b, Finished(b, s, outcome, again, mem), mem)
  }

  function Reselect(b: Board, s: State, si: nat, mem: int): (s': State)
    requires Shape(s)
  {
    var u: Unit := si % UNITS;
    if s.pending[u] == [] then s.(phase := Dead)
    else StartDma(b, s, u, mem).(cur := u, phase := Resuming, away := s.away - {u})
  }

  function Interrupt(b: Board, s: State, x: Input): (s': State)
    requires Shape(s)
  {
    match ActionFor(s.phase, SignalOf(x.ss))
    case Complete => FinishRequest(b, s, if x.cp == 0x60 then Okay(x.ts) else Failed, x.again, x.mem)
    case Shutdown => s.(phase := Dead)
    case Swap => Reselect(b, WaitForChip(b, StopDma(b, s), s.cur, x.mem), x.si, x.mem)
    case Reconnect => Reselect(b, s, x.si, x.mem)
    case Accept => s.(phase := Resuming)
    case Abort => FinishRequest(b, s, Failed, x.again, x.mem)
    case Save => s.(left := s.left[s.cur := x.tc], phase := Resuming)
    case Yield => StartAny(b, StopDma(b, s).(phase := Idle, away := s.away + {s.cur}), x.mem)
    case ReadMessage => s.(phase := if x.dr == 0x03 then Messaging else Dead)
    case Finish => s.(phase := Ending)
  }

  // ----- requests of one unit, in the log

  function QueuedOn(log: seq<Event>, u: Unit): (rs: seq<Request>)
  {
    if log == [] then []
    else
      var e := log[|log| - 1];
      QueuedOn(log[..|log| - 1], u) + if e.Queued? && e.r.unit == u then [e.r] else []
  }

  function DoneOn(log: seq<Event>, u: Unit): (rs: seq<Request>)
  {
    if log == [] then []
    else
      var e := log[|log| - 1];
      DoneOn(log[..|log| - 1], u) + if e.Done? && e.r.unit == u then [e.r] else []
  }

  lemma NoteFifo(s: State, e: Event, u: Unit)
    ensures QueuedOn(Note(s, e).log, u) == QueuedOn(s.log, u) + if e.Queued? && e.r.unit == u then [e.r] else []
    ensures DoneOn(Note(s, e).log, u) == DoneOn(s.log, u) + if e.Done? && e.r.unit == u then [e.r] else []
  {
    assert (s.log + [e])[..|s.log|] == s.log;
  }

  // ----- the discipline of DMA and of bounce buffers, as an observer of the log

  /** `running` while DMA is on; a bounce buffer of `size` bytes at `at` is held unless size is 0, and
      `copied` once its contents have been copied from or to the request's own memory. */
  datatype Watch = Bad | Watch(running: bool, at: int, size: nat, copied: bool)

  function Quiet(): Watch
  {
    Watch(false, 0, 0, false)
  }

  /** DMA starts only when it is off, stops only when it is on, and moves the last bytes of the request's
      memory, directly or through a buffer of just that size.  The buffer of a write is filled before, that
      of a read emptied after, and a buffer is freed with the address and size it was allocated with.  No
      request is reported done while DMA is on or a buffer held. */
  function Observe(w: Watch, e: Event): (w': Watch)
  {
    if w.Bad? then Bad
    else
      match e
      case Alloc(at, size) => if w == Quiet() && size > 0 then Watch(false, at, size, false) else Bad
      case CopyIn(r, from, size) =>
        if !w.running && 0 < w.size == size && !w.copied && !r.reading && from + size == r.addr + r.nbyte
        then w.(copied := true) else Bad
      case DmaOn(r, at, size) =>
        if !w.running && size > 0
           && (if w.size == 0 then at + size == r.addr + r.nbyte else at == w.at && size == w.size && (r.reading || w.copied))
        then w.(running := true) else Bad
      case DmaOff => if w.running then w.(running := false) else Bad
      case CopyOut(r, to, size) =>
        if !w.running && 0 < w.size == size && !w.copied && r.reading && to + size == r.addr + r.nbyte
        then w.(copied := true) else Bad
      case Free(at, size) => if !w.running && at == w.at && 0 < w.size == size && w.copied then Quiet() else Bad
      case Done(_, _) => if w == Quiet() then w else Bad
      case _ => w
  }

  function Watched(log: seq<Event>): (w: Watch)
  {
    if log == [] then Quiet() else Observe(Watched(log[..|log| - 1]), log[|log| - 1])
  }

  lemma NoteWatched(log: seq<Event>, e: Event)
    ensures Watched(log + [e]) == Observe(Watched(log), e)
  {
    assert (log + [e])[..|log|] == log;
  }

  lemma NoteTwo(log: seq<Event>, d: Event, e: Event)
    ensures Watched(log + [d, e]) == Observe(Observe(Watched(log), d), e)
  {
    NoteWatched(log, d);
    NoteWatched(log + [d], e);
    assert log + [d] + [e] == log + [d, e];
  }

  lemma NoteThree(log: seq<Event>, c: Event, d: Event, e: Event)
    ensures Watched(log + [c, d, e]) == Observe(Observe(Observe(Watched(log), c), d), e)
  {
    NoteTwo(log, c, d);
    NoteWatched(log + [c, d], e);
    assert log + [c, d] + [e] == log + [c, d, e];
  }

  // ----- the invariant

  ghost predicate OwnRequests(s: State)
    requires Shape(s)
  {
    forall u: Unit, i: nat :: i < |s.pending[u]| ==> s.pending[u][i].unit == u
  }

  /** Every request queued on a unit has been completed or is still queued, in order. */
  ghost predicate Fifo(s: State)
    requires Shape(s)
  {
    forall u: Unit :: QueuedOn(s.log, u) == DoneOn(s.log, u) + s.pending[u]
  }

  ghost predicate Current(s: State, u: Unit, busy: bool)
  {
    busy && u == s.cur
  }

  /** A unit with requests is in exactly one place, a unit without is in none. */
  ghost predicate Placed(s: State, u: Unit, busy: bool)
    requires Shape(s)
  {
    && (s.pending[u] != [] <==> u in s.start || Current(s, u, busy) || u in s.away)
    && !(u in s.start && u in s.away)
    && !(Current(s, u, busy) && (u in s.start || u in s.away))
  }

  ghost predicate NoRepeats(us: seq<Unit>)
  {
    forall i: nat, j: nat :: i < j < |us| ==> us[i] != us[j]
  }

  ghost predicate Places(s: State, busy: bool)
    requires Shape(s)
  {
    NoRepeats(s.start) && forall u: Unit :: Placed(s, u, busy)
  }

  /** What the DMA fields say; `on` between StartDma and StopDma. */
  ghost predicate DmaFields(b: Board, s: State, on: bool)
    requires Shape(s)
  {
    match b
    case A3091 => Watched(s.log) == Watch(s.dmaOn, 0, 0, false) && (s.dmaOn ==> on)
    case A2091 =>
      if !on then s.chip == 0 && Watched(s.log) == Quiet()
      else if s.chip == 0 then Watched(s.log) == Watch(s.tc != 0, 0, 0, false)
      else s.tc != 0 && Watched(s.log) == Watch(true, s.chip, s.tc, !Head(s, s.cur).reading)
  }

  ghost predicate Orderly(s: State)
    requires Shape(s)
  {
    OwnRequests(s) && Fifo(s)
  }

  ghost predicate Inv(b: Board, s: State)
  {
    && Shape(s)
    && Orderly(s)
    && Watched(s.log) != Bad
    && (s.phase != Dead ==> Places(s, s.phase != Idle) && DmaFields(b, s, s.phase != Idle))
    && (s.phase == Idle ==> s.start == [])
  }

  // ----- what the hardware is taken to do

  /** A target that reselects is one that has disconnected; the status is one of the chip's. */
  ghost predicate Plausible(s: State, x: Input)
  {
    && x.ss < 0x90 && x.mem != 0
    && (SignalOf(x.ss).Reconnected? ==> x.si % UNITS in s.away)
  }

  // ----- preservation

  /** Events of DMA say nothing about the queues. */
  ghost predicate OfDma(es: seq<Event>)
  {
    forall i: nat :: i < |es| ==> !es[i].Queued? && !es[i].Done?
  }

  lemma {:induction false} DmaEventsKeepFifo(log: seq<Event>, es: seq<Event>, u: Unit)
    requires OfDma(es)
    ensures QueuedOn(log + es, u) == QueuedOn(log, u) && DoneOn(log + es, u) == DoneOn(log, u)
  {
    if es == [] {
      assert log + es == log;
    } else {
      var n := |es| - 1;
      DmaEventsKeepFifo(log, es[..n], u);
      assert (log + es)[..|log + es| - 1] == log + es[..n];
    }
  }

  /** s' differs from s only in the DMA fields and by events of DMA. */
  ghost predicate OnlyDma(s: State, s': State)
  {
    s'.(log := s.log, dmaOn := s.dmaOn, tc := s.tc, chip := s.chip) == s
    && |s.log| <= |s'.log| && s'.log == s.log + s'.log[|s.log|..] && OfDma(s'.log[|s.log|..])
  }

  lemma StartDmaOnly(b: Board, s: State, u: Unit, mem: int)
    requires Shape(s)
    ensures OnlyDma(s, StartDma(b, s, u, mem))
  {
  }

  lemma StopDmaOnly(b: Board, s: State)
    requires Shape(s)
    ensures OnlyDma(s, StopDma(b, s))
  {
  }

  lemma DmaKeepsQueues(s: State, s': State)
    requires Shape(s) && Orderly(s) && OnlyDma(s, s')
    ensures Orderly(s')
  {
    forall u: Unit
      ensures QueuedOn(s'.log, u) == DoneOn(s'.log, u) + s'.pending[u]
    {
      DmaEventsKeepFifo(s.log, s'.log[|s.log|..], u);
    }
  }

  lemma BounceStartWatched(log: seq<Event>, r: Request, at: int, n: nat, mem: int)
    requires Watched(log) == Quiet() && n > 0 && at + n == r.addr + r.nbyte
    ensures Watched(log + BounceStart(r, at, n, mem)) == Watch(true, mem, n, !r.reading)
  {
    if r.reading {
      NoteTwo(log, Alloc(mem, n), DmaOn(r, mem, n));
    } else {
      NoteThree(log, Alloc(mem, n), CopyIn(r, at, n), DmaOn(r, mem, n));
    }
  }

  lemma BounceStopWatched(log: seq<Event>, r: Request, n: nat, mem: int)
    requires Watched(log) == Watch(true, mem, n, !r.reading) && n > 0
    ensures Watched(log + BounceStop(r, n, mem)) == Quiet()
  {
    if r.reading {
      NoteThree(log, DmaOff, CopyOut(r, r.addr + r.nbyte - n, n), Free(mem, n));
    } else {
      NoteTwo(log, DmaOff, Free(mem, n));
    }
  }

  lemma StartDmaWatched(b: Board, s: State, u: Unit, mem: int)
    requires Shape(s) && mem != 0 && DmaFields(b, s, false)
    ensures DmaFields(b, StartDma(b, s, u, mem).(cur := u), true)
  {
    var n, r := s.left[u], Head(s, u);
    var at := r.addr + r.nbyte - n;
    if n > 0 {
      if b == A2091 && r.addr >= BOUNCE_FROM {
        BounceStartWatched(s.log, r, at, n, mem);
      } else {
        NoteWatched(s.log, DmaOn(r, at, n));
      }
    }
  }

  lemma StopDmaWatched(b: Board, s: State)
    requires Shape(s) && DmaFields(b, s, true)
    ensures DmaFields(b, StopDma(b, s), false)
  {
    if b == A2091 && s.chip != 0 {
      BounceStopWatched(s.log, Head(s, s.cur), s.tc, s.chip);
    } else {
      NoteWatched(s.log, DmaOff);
    }
  }

  /** The invariant while a handler runs: `busy` if the current unit holds the chip, `on` between StartDma
      and StopDma. */
  ghost predicate Good(b: Board, s: State, busy: bool, on: bool)
  {
    Shape(s) && Orderly(s) && Places(s, busy) && DmaFields(b, s, on)
  }

  lemma NoteKeepsOrder(s: State, e: Event)
    requires Shape(s) && Orderly(s) && !e.Queued? && !e.Done?
    ensures Orderly(Note(s, e))
  {
    forall u: Unit
      ensures QueuedOn(Note(s, e).log, u) == DoneOn(Note(s, e).log, u) + s.pending[u]
    {
      NoteFifo(s, e, u);
    }
  }

  lemma StopKeepsGood(b: Board, s: State)
    requires Good(b, s, true, true)
    ensures Good(b, StopDma(b, s), true, false)
  {
    StopDmaOnly(b, s);
    DmaKeepsQueues(s, StopDma(b, s));
    StopDmaWatched(b, s);
    assert forall u: Unit :: Placed(s, u, true) ==> Placed(StopDma(b, s), u, true);
  }

  lemma DmaStarted(b: Board, s: State, u: Unit, mem: int)
    requires Shape(s) && Orderly(s) && DmaFields(b, s, false) && mem != 0
    ensures var s' := StartDma(b, s, u, mem).(cur := u);
            Shape(s') && Orderly(s') && DmaFields(b, s', true) && s'.pending == s.pending && s'.start == s.start
            && s'.away == s.away && s'.phase == s.phase && s'.left == s.left
  {
    StartDmaOnly(b, s, u, mem);
    DmaKeepsQueues(s, StartDma(b, s, u, mem));
    StartDmaWatched(b, s, u, mem);
  }

  lemma BeganKeepsGood(b: Board, s: State, r: Request)
    requires Good(b, s, true, true)
    ensures Good(b, Note(s.(phase := Starting), Began(r)), true, true)
  {
    NoteKeepsOrder(s.(phase := Starting), Began(r));
    NoteWatched(s.log, Began(r));
    PlacesDepend(s, Note(s.(phase := Starting), Began(r)), true);
  }

  /** What becomes of the places when the first waiting unit is started. */
  lemma FirstLeaves(s: State)
    requires Shape(s) && Places(s, false) && s.start != []
    ensures s.pending[s.start[0]] != []
    ensures Places(s.(start := s.start[1..], cur := s.start[0]), true)
  {
    var u, s1 := s.start[0], s.(start := s.start[1..], cur := s.start[0]);
    assert Placed(s, u, false);
    forall v: Unit
      ensures Placed(s1, v, true)
    {
      assert Placed(s, v, false);
      assert v in s.start <==> v == u || v in s1.start;
    }
  }

  lemma StartFirstKeepsGood(b: Board, s: State, mem: int)
    requires Good(b, s, false, false) && s.start != [] && mem != 0
    ensures Good(b, StartFirst(b, s, mem), true, true)
    ensures StartFirst(b, s, mem).phase == s.phase
  {
    var u := s.start[0];
    var s1 := s.(start := s.start[1..], cur := u, left := s.left[u := Head(s, u).nbyte % 0x1000000]);
    var s2 := StartDma(b, s1, u, mem);
    FirstLeaves(s);
    StartDmaOnly(b, s1, u, mem);
    DmaStarted(b, s1, u, mem);
    assert s2.(cur := u) == s2;
    PlacesDepend(s.(start := s.start[1..], cur := u), s2, true);
  }

  lemma StartAnyKeepsInv(b: Board, s: State, mem: int)
    requires Good(b, s, false, false) && s.phase == Idle && mem != 0
    ensures Inv(b, StartAny(b, s, mem))
    ensures StartAny(b, s, mem).phase == if s.start == [] then Idle else Starting
  {
    if s.start != [] {
      StartFirstKeepsGood(b, s, mem);
      BeganKeepsGood(b, StartFirst(b, s, mem), Head(s, s.start[0]));
    }
  }

  /** Places depends on four fields only. */
  lemma PlacesDepend(s: State, s': State, busy: bool)
    requires Shape(s) && Shape(s') && Places(s, busy)
    requires s'.pending == s.pending && s'.start == s.start && s'.away == s.away && (busy ==> s'.cur == s.cur)
    ensures Places(s', busy)
  {
    forall u: Unit
      ensures Placed(s', u, busy)
    {
      assert Placed(s, u, busy);
    }
  }

  // a request arrives

  /** The state once a request has been queued while the chip is not idle. */
  function Appended(s: State, r: Request): (s': State)
    requires Shape(s)
  {
    Note(s.(pending := s.pending[r.unit := s.pending[r.unit] + [r]],
            start := if s.pending[r.unit] == [] then s.start + [r.unit] else s.start), Queued(r))
  }

  lemma {:induction false} AppendedKeepsOrder(s: State, r: Request)
    requires Shape(s) && Orderly(s)
    ensures Orderly(Appended(s, r))
    ensures Watched(Appended(s, r).log) == Watched(s.log)
  {
    var s' := Appended(s, r);
    NoteWatched(s.log, Queued(r));
    AppendedKeepsOwn(s, r);
    forall u: Unit
      ensures QueuedOn(s'.log, u) == DoneOn(s'.log, u) + s'.pending[u]
    {
      NoteFifo(s, Queued(r), u);
    }
  }

  lemma AppendedKeepsOwn(s: State, r: Request)
    requires Shape(s) && OwnRequests(s)
    ensures OwnRequests(Appended(s, r))
  {
  }

  lemma AppendedKeepsPlaces(s: State, r: Request, busy: bool)
    requires Shape(s) && Places(s, busy)
    ensures Places(Appended(s, r), busy)
  {
    var s', u := Appended(s, r), r.unit;
    assert Placed(s, u, busy);
    forall v: Unit
      ensures Placed(s', v, busy)
    {
      assert Placed(s, v, busy);
      assert v in s'.start <==> v in s.start || (v == u && s.pending[u] == []);
    }
  }

  lemma AppendedKeepsGood(b: Board, s: State, r: Request, busy: bool)
    requires Good(b, s, busy, busy)
    ensures Good(b, Appended(s, r), busy, busy)
  {
    AppendedKeepsOrder(s, r);
    AppendedKeepsPlaces(s, r, busy);
    assert Placed(s, s.cur, busy);
  }

  lemma EnqueueIsAppended(b: Board, s: State, r: Request, mem: int)
    requires Shape(s) && (s.phase == Idle ==> s.start == [])
    ensures s.phase != Idle ==> Enqueue(b, s, r, mem) == Appended(s, r)
    ensures s.phase == Idle ==>
              Enqueue(b, s, r, mem) == if s.pending[r.unit] == [] then StartAny(b, Appended(s, r), mem) else Appended(s, r)
  {
    if s.phase == Idle && s.pending[r.unit] == [] {
      assert [] + [r.unit] == [r.unit];
      var s1 := Note(s.(pending := s.pending[r.unit := s.pending[r.unit] + [r]]), Queued(r));
      assert s1.(start := [r.unit]) == Appended(s, r);
    }
  }

  lemma EnqueueKeepsInv(b: Board, s: State, r: Request, mem: int)
    requires Inv(b, s) && mem != 0
    ensures Inv(b, Enqueue(b, s, r, mem))
  {
    EnqueueIsAppended(b, s, r, mem);
    AppendedKeepsOrder(s, r);
    if s.phase != Dead {
      AppendedKeepsGood(b, s, r, s.phase != Idle);
      if s.phase == Idle && s.pending[r.unit] == [] {
        StartAnyKeepsInv(b, Appended(s, r), mem);
      }
    }
  }

  /** What a completion callback queues while the chip is not idle. */
  lemma {:induction false} CallbackKeepsGood(b: Board, s: State, rs: seq<Request>, mem: int)
    requires Good(b, s, false, false) && s.phase != Idle
    ensures var s' := EnqueueAll(b, s, rs, mem); Good(b, s', false, false) && s'.phase == s.phase
    decreases |rs|
  {
    if rs != [] {
      EnqueueIsAppended(b, s, rs[0], mem);
      AppendedKeepsGood(b, s, rs[0], false);
      CallbackKeepsGood(b, Enqueue(b, s, rs[0], mem), rs[1..], mem);
    }
  }

  // a request ends

  lemma RetireKeepsPlaces(b: Board, s: State, mem: int)
    requires Shape(s) && Places(s, true) && s.phase != Idle
    ensures Places(Retire(b, s, mem), false)
    ensures Retire(b, s, mem).(pending := s.pending, start := s.start) == s
    ensures s.pending[s.cur] != [] && Retire(b, s, mem).pending == s.pending[s.cur := s.pending[s.cur][1..]]
  {
    var s' := Retire(b, s, mem);
    assert Placed(s, s.cur, true);
    forall u: Unit
      ensures Placed(s', u, false)
    {
      assert Placed(s, u, true);
      assert u in s'.start <==> u in s.start || (u == s.cur && s'.pending[u] != []);
    }
  }

  lemma RetireKeepsGood(b: Board, s: State, outcome: Outcome, mem: int)
    requires Good(b, s, true, false) && s.phase != Idle
    ensures var s' := Note(Retire(b, s, mem), Done(Head(s, s.cur), outcome)); Good(b, s', false, false) && s'.phase == s.phase
  {
    var r := Head(s, s.cur);
    var s1 := Retire(b, s, mem);
    var s' := Note(s1, Done(r, outcome));
    RetireKeepsPlaces(b, s, mem);
    PlacesDepend(s1, s', false);
    NoteWatched(s.log, Done(r, outcome));
    assert Placed(s, s.cur, true);
    assert r == s.pending[s.cur][0] && r.unit == s.cur;
    forall u: Unit
      ensures QueuedOn(s'.log, u) == DoneOn(s'.log, u) + s'.pending[u]
    {
      NoteFifo(s1, Done(r, outcome), u);
      if u == s.cur {
        assert s.pending[u] == [r] + s'.pending[u];
      }
    }
  }

  lemma FinishedIsGood(b: Board, s: State, outcome: Outcome, again: seq<Request>, mem: int)
    requires Good(b, s, true, true) && s.phase != Idle
    ensures Good(b, Finished(b, s, outcome, again, mem), false, false)
  {
    var s1 := StopDma(b, s);
    StopDmaOnly(b, s);
    StopKeepsGood(b, s);
    RetireKeepsGood(b, s1, outcome, mem);
    var s2 := Note(Retire(b, s1, mem), Done(Head(s1, s.cur), outcome));
    CallbackKeepsGood(b, s2, again, mem);
    var s3 := EnqueueAll(b, s2, again, mem);
    PlacesDepend(s3, s3.(phase := Idle), false);
  }

  lemma FinishKeepsInv(b: Board, s: State, outcome: Outcome, again: seq<Request>, mem: int)
    requires Good(b, s, true, true) && s.phase != Idle && mem != 0
    ensures Inv(b, FinishRequest(b, s, outcome, again, mem))
    ensures FinishRequest(b, s, outcome, again, mem).phase != Dead
  {
    FinishedIsGood(b, s, outcome, again, mem);
    StartAnyKeepsInv(b, Finished(b, s, outcome, again, mem), mem);
  }

  // targets leave and come back

  lemma ReselectKeepsInv(b: Board, s: State, si: nat, mem: int)
    requires Good(b, s, false, false) && mem != 0 && si % UNITS in s.away
    ensures Inv(b, Reselect(b, s, si, mem))
    ensures Reselect(b, s, si, mem).phase == Resuming
  {
    var u: Unit := si % UNITS;
    assert Placed(s, u, false);
    var s1 := StartDma(b, s, u, mem).(cur := u);
    DmaStarted(b, s, u, mem);
    var s2 := s1.(phase := Resuming, away := s.away - {u});
    forall v: Unit
      ensures Placed(s2, v, true)
    {
      assert Placed(s, v, false);
    }
    assert Places(s2, true);
    assert Reselect(b, s, si, mem) == s2;
  }

  lemma SwapKeepsGood(b: Board, s: State, mem: int)
    requires Good(b, s, true, true) && s.phase == Starting
    ensures var s' := WaitForChip(b, StopDma(b, s), s.cur, mem); Good(b, s', false, false) && s'.away == s.away
  {
    StopDmaOnly(b, s);
    StopKeepsGood(b, s);
    var s1 := StopDma(b, s);
    var s2 := WaitForChip(b, s1, s.cur, mem);
    assert s2 == s1.(start := s.start + [s.cur]);
    assert Placed(s, s.cur, true);
    forall v: Unit
      ensures Placed(s2, v, false)
    {
      assert Placed(s, v, true);
    }
  }

  lemma YieldedIsGood(b: Board, s: State)
    requires Good(b, s, true, true)
    ensures Good(b, StopDma(b, s).(phase := Idle, away := s.away + {s.cur}), false, false)
  {
    StopDmaOnly(b, s);
    StopKeepsGood(b, s);
    var s1 := StopDma(b, s).(phase := Idle, away := s.away + {s.cur});
    assert Placed(s, s.cur, true);
    forall v: Unit
      ensures Placed(s1, v, false)
    {
      assert Placed(s, v, true);
    }
  }

  lemma YieldKeepsInv(b: Board, s: State, mem: int)
    requires Good(b, s, true, true) && mem != 0
    ensures Inv(b, StartAny(b, StopDma(b, s).(phase := Idle, away := s.away + {s.cur}), mem))
    ensures StartAny(b, StopDma(b, s).(phase := Idle, away := s.away + {s.cur}), mem).phase != Dead
  {
    YieldedIsGood(b, s);
    StartAnyKeepsInv(b, StopDma(b, s).(phase := Idle, away := s.away + {s.cur}), mem);
  }

  /** The actions that only step the transfer along. */
  lemma PhaseKeepsInv(b: Board, s: State, left: seq<nat>, phase: Phase)
    requires Inv(b, s) && s.phase != Idle && s.phase != Dead && |left| == UNITS && phase != Idle
    ensures Inv(b, s.(left := left, phase := phase))
  {
    PlacesDepend(s, s.(left := left, phase := phase), true);
  }

  /** Every interrupt keeps the invariant, and the driver only gives up when it is told to: the table says so,
      or the message is not Restore Pointers. */
  lemma InterruptKeepsInv(b: Board, s: State, x: Input)
    requires Inv(b, s) && Plausible(s, x)
    ensures Inv(b, Interrupt(b, s, x))
    ensures var action := ActionFor(s.phase, SignalOf(x.ss));
            Interrupt(b, s, x).phase == Dead <==> action == Shutdown || (action == ReadMessage && x.dr != 0x03)
  {
    match ActionFor(s.phase, SignalOf(x.ss))
    case Complete => FinishKeepsInv(b, s, if x.cp == 0x60 then Okay(x.ts) else Failed, x.again, x.mem);
    case Abort => FinishKeepsInv(b, s, Failed, x.again, x.mem);
    case Swap =>
      SwapKeepsGood(b, s, x.mem);
      ReselectKeepsInv(b, WaitForChip(b, StopDma(b, s), s.cur, x.mem), x.si, x.mem);
    case Reconnect => ReselectKeepsInv(b, s, x.si, x.mem);
    case Yield => YieldKeepsInv(b, s, x.mem);
    case Save => PhaseKeepsInv(b, s, s.left[s.cur := x.tc], Resuming);
    case Accept => PhaseKeepsInv(b, s, s.left, Resuming);
    case ReadMessage => PhaseKeepsInv(b, s, s.left, if x.dr == 0x03 then Messaging else Dead);
    case Finish => PhaseKeepsInv(b, s, s.left, Ending);
    case Shutdown =>
  }

  // ----- whole runs

  datatype Op = Queue(r: Request, mem: int) | Irq(x: Input)

  function Step(b: Board, s: State, op: Op): (s': State)
    requires Shape(s)
  {
    match op
    case Queue(r, mem) => Enqueue(b, s, r, mem)
    case Irq(x) => Interrupt(b, s, x)
  }

  ghost predicate Possible(s: State, op: Op)
  {
    match op
    case Queue(_, mem) => mem != 0
    case Irq(x) => Plausible(s, x)
  }

  /** s' can be reached from s by the operations ops, in that order. */
  ghost predicate Run(b: Board, s: State, ops: seq<Op>, s': State)
    decreases |ops|
  {
    if ops == [] then s == s' else Shape(s) && Possible(s, ops[0]) && Run(b, Step(b, s, ops[0]), ops[1..], s')
  }

  lemma {:induction false} RunKeepsInv(b: Board, s: State, ops: seq<Op>, s': State)
    requires Inv(b, s) && Run(b, s, ops, s')
    ensures Inv(b, s')
    decreases |ops|
  {
    if ops != [] {
      match ops[0] {
        case Queue(r, mem) => EnqueueKeepsInv(b, s, r, mem);
        case Irq(x) => InterruptKeepsInv(b, s, x);
      }
      RunKeepsInv(b, Step(b, s, ops[0]), ops[1..], s');
    }
  }

  lemma InitialInv(b: Board)
    ensures Inv(b, Initial())
  {
    assert forall u: Unit :: Placed(Initial(), u, false);
  }

  function Times(us: seq<Unit>, u: Unit): nat
  {
    multiset(us)[u]
  }

  lemma {:induction false} NoRepeatsOnce(us: seq<Unit>, u: Unit)
    requires NoRepeats(us)
    ensures Times(us, u) == if u in us then 1 else 0
  {
    if us != [] {
      var n := |us| - 1;
      NoRepeatsOnce(us[..n], u);
      assert us == us[..n] + [us[n]];
      assert us[n] !in us[..n];
    }
  }

  /** In every reachable state of a driver that has not given up, a unit with requests is in exactly one
      place: once in the start queue, current on the chip, or disconnected.  A unit without is in none.
      And the chip never rests while a unit is waiting for it. */
  lemma OnePlaceEach(b: Board, ops: seq<Op>, s: State, u: Unit)
    requires Run(b, Initial(), ops, s) && s.phase != Dead
    ensures |s.pending| == UNITS
    ensures Times(s.start, u) + (if s.phase != Idle && s.cur == u then 1 else 0) + (if u in s.away then 1 else 0)
            == if s.pending[u] == [] then 0 else 1
    ensures s.phase == Idle ==> s.start == []
    ensures s.phase == Idle && s.pending[u] != [] ==> u in s.away
  {
    InitialInv(b);
    RunKeepsInv(b, Initial(), ops, s);
    assert Placed(s, u, s.phase != Idle);
    NoRepeatsOnce(s.start, u);
  }

  /** Over any run, even one that ends with the driver dead, the requests completed on a unit are a prefix
      of those queued on it: in the order queued, each at most once; the rest are still queued. */
  lemma CompletedInOrder(b: Board, ops: seq<Op>, s: State, u: Unit)
    requires Run(b, Initial(), ops, s)
    ensures |s.pending| == UNITS && QueuedOn(s.log, u) == DoneOn(s.log, u) + s.pending[u]
  {
    InitialInv(b);
    RunKeepsInv(b, Initial(), ops, s);
  }

  /** Once bad, always bad. */
  lemma {:induction false} BadStays(log: seq<Event>, n: nat)
    requires n <= |log| && Watched(log[..n]).Bad?
    ensures Watched(log).Bad?
    decreases |log| - n
  {
    if n < |log| {
      assert log[..n + 1][..n] == log[..n];
      BadStays(log, n + 1);
    } else {
      assert log[..n] == log;
    }
  }

  /** Over any run and at every moment of it, DMA and bounce buffers are used as Observe demands. */
  lemma DmaDisciplined(b: Board, ops: seq<Op>, s: State, n: nat)
    requires Run(b, Initial(), ops, s) && n <= |s.log|
    ensures !Watched(s.log[..n]).Bad?
    ensures s.phase == Idle ==> Watched(s.log) == Quiet()
  {
    InitialInv(b);
    RunKeepsInv(b, Initial(), ops, s);
    if Watched(s.log[..n]).Bad? {
      BadStays(s.log, n);
    }
  }

  // ----- what Observe's discipline comes to

  function Count(log: seq<Event>, on: bool): nat
  {
    if log == [] then 0
    else Count(log[..|log| - 1], on) + if (if on then log[|log| - 1].DmaOn? else log[|log| - 1].DmaOff?) then 1 else 0
  }

  /** The address and size of every buffer allocated, or freed, in order. */
  function Buffers(log: seq<Event>, freed: bool): seq<(int, nat)>
  {
    if log == [] then []
    else
      var e := log[|log| - 1];
      Buffers(log[..|log| - 1], freed)
      + if (if freed then e.Free? else e.Alloc?) then [(e.at, e.size)] else []
  }

  /** Starts and stops alternate; every buffer is freed once, with the size it was allocated with, except the
      one still held. */
  lemma {:induction false} DisciplineMeans(log: seq<Event>)
    requires !Watched(log).Bad?
    ensures var w := Watched(log);
            Count(log, true) == Count(log, false) + (if w.running then 1 else 0)
            && Buffers(log, false) == Buffers(log, true) + if w.size > 0 then [(w.at, w.size)] else []
  {
    if log != [] {
      DisciplineMeans(log[..|log| - 1]);
    }
  }

  // ----- DMA stays inside the request's memory

  /** The transfer counter only counts down from what was loaded into it. */
  ghost predicate CountsDown(s: State, op: Op)
    requires Shape(s)
  {
    op.Irq? && ActionFor(s.phase, SignalOf(op.x.ss)) == Save ==> op.x.tc <= s.left[s.cur]
  }

  ghost predicate RunCountsDown(b: Board, s: State, ops: seq<Op>)
    requires Shape(s)
    decreases |ops|
  {
    ops == [] || (CountsDown(s, ops[0]) && Shape(Step(b, s, ops[0])) && RunCountsDown(b, Step(b, s, ops[0]), ops[1..]))
  }

  ghost predicate FitsEvent(e: Event)
  {
    e.DmaOn? ==> e.size <= e.r.nbyte
  }

  /** What is left of a request that has been started is no more than the whole. */
  ghost predicate Fits(s: State)
    requires Shape(s)
  {
    && (forall u: Unit :: s.pending[u] != [] && u !in s.start ==> s.left[u] <= s.pending[u][0].nbyte)
    && (forall i: nat :: i < |s.log| ==> FitsEvent(s.log[i]))
  }

  lemma StartDmaFits(b: Board, s: State, u: Unit, mem: int)
    requires Shape(s) && Fits(s) && s.left[u] <= Head(s, u).nbyte
    ensures Fits(StartDma(b, s, u, mem))
  {
  }

  lemma StopDmaFits(b: Board, s: State)
    requires Shape(s) && Fits(s)
    ensures Fits(StopDma(b, s))
  {
  }

  lemma StartAnyFits(b: Board, s: State, mem: int)
    requires Shape(s) && Fits(s)
    ensures Shape(StartAny(b, s, mem)) && Fits(StartAny(b, s, mem))
  {
    if s.phase == Idle && s.start != [] {
      var u := s.start[0];
      var s1 := s.(start := s.start[1..], cur := u, left := s.left[u := Head(s, u).nbyte % 0x1000000]);
      assert forall v: Unit :: v in s.start ==> v == u || v in s1.start;
      assert Fits(s1);
      StartDmaFits(b, s1, u, mem);
      StartDmaOnly(b, s1, u, mem);
    }
  }

  lemma WaitFits(b: Board, s: State, u: Unit, mem: int)
    requires Shape(s) && (forall v: Unit :: v != u && s.pending[v] != [] && v !in s.start ==> s.left[v] <= s.pending[v][0].nbyte)
    requires forall i: nat :: i < |s.log| ==> FitsEvent(s.log[i])
    ensures Shape(WaitForChip(b, s, u, mem)) && Fits(WaitForChip(b, s, u, mem))
  {
    if s.start == [] {
      StartAnyFits(b, s.(start := [u]), mem);
    }
  }

  lemma EnqueueFits(b: Board, s: State, r: Request, mem: int)
    requires Shape(s) && Fits(s)
    ensures Shape(Enqueue(b, s, r, mem)) && Fits(Enqueue(b, s, r, mem))
  {
    var s1 := Note(s.(pending := s.pending[r.unit := s.pending[r.unit] + [r]]), Queued(r));
    if s.pending[r.unit] == [] {
      WaitFits(b, s1, r.unit, mem);
    }
  }

  lemma {:induction false} EnqueueAllFits(b: Board, s: State, rs: seq<Request>, mem: int)
    requires Shape(s) && Fits(s)
    ensures Fits(EnqueueAll(b, s, rs, mem))
    decreases |rs|
  {
    if rs != [] {
      EnqueueFits(b, s, rs[0], mem);
      EnqueueAllFits(b, Enqueue(b, s, rs[0], mem), rs[1..], mem);
    }
  }

  lemma FinishFits(b: Board, s: State, outcome: Outcome, again: seq<Request>, mem: int)
    requires Shape(s) && Fits(s)
    ensures var s' := FinishRequest(b, s, outcome, again, mem); Shape(s') && Fits(s')
  {
    StopDmaFits(b, s);
    var s1 := StopDma(b, s);
    var rest := if s1.pending[s.cur] == [] then [] else s1.pending[s.cur][1..];
    WaitFits(b, s1.(pending := s1.pending[s1.cur := rest]), s1.cur, mem);
    var s2 := Note(Retire(b, s1, mem), Done(Head(s1, s.cur), outcome));
    assert Fits(s2);
    EnqueueAllFits(b, s2, again, mem);
    StartAnyFits(b, Finished(b, s, outcome, again, mem), mem);
  }

  lemma ReselectFits(b: Board, s: State, si: nat, mem: int)
    requires Shape(s) && Fits(s) && Placed(s, si % UNITS, false) && si % UNITS in s.away
    ensures Fits(Reselect(b, s, si, mem))
  {
    StartDmaFits(b, s, si % UNITS, mem);
    StartDmaOnly(b, s, si % UNITS, mem);
  }

  lemma SwapFits(b: Board, s: State, si: nat, mem: int)
    requires Good(b, s, true, true) && s.phase == Starting && Fits(s) && si % UNITS in s.away
    ensures var s1 := WaitForChip(b, StopDma(b, s), s.cur, mem);
            Shape(s1) && Shape(Reselect(b, s1, si, mem)) && Fits(Reselect(b, s1, si, mem))
  {
    var s1 := WaitForChip(b, StopDma(b, s), s.cur, mem);
    StopDmaFits(b, s);
    StopDmaOnly(b, s);
    WaitFits(b, StopDma(b, s), s.cur, mem);
    SwapKeepsGood(b, s, mem);
    assert Placed(s1, si % UNITS, false);
    ReselectFits(b, s1, si, mem);
    StartDmaOnly(b, s1, si % UNITS, mem);
  }

  lemma YieldFits(b: Board, s: State, mem: int)
    requires Shape(s) && Fits(s)
    ensures var s' := StartAny(b, StopDma(b, s).(phase := Idle, away := s.away + {s.cur}), mem); Shape(s') && Fits(s')
  {
    StopDmaFits(b, s);
    StopDmaOnly(b, s);
    StartAnyFits(b, StopDma(b, s).(phase := Idle, away := s.away + {s.cur}), mem);
  }

  lemma SaveFits(s: State, s': State)
    requires Shape(s) && Fits(s) && s'.pending == s.pending && s'.start == s.start && s'.log == s.log && Shape(s')
    requires forall u: Unit :: s'.left[u] <= s.left[u]
    ensures Fits(s')
  {
  }

  lemma InterruptFits(b: Board, s: State, x: Input)
    requires Inv(b, s) && Plausible(s, x) && Fits(s) && CountsDown(s, Irq(x))
    ensures Shape(Interrupt(b, s, x)) && Fits(Interrupt(b, s, x))
  {
    InterruptKeepsInv(b, s, x);
    match ActionFor(s.phase, SignalOf(x.ss))
    case Complete => FinishFits(b, s, if x.cp == 0x60 then Okay(x.ts) else Failed, x.again, x.mem);
    case Abort => FinishFits(b, s, Failed, x.again, x.mem);
    case Swap => SwapFits(b, s, x.si, x.mem);
    case Reconnect =>
      assert Placed(s, x.si % UNITS, false);
      ReselectFits(b, s, x.si, x.mem);
    case Yield => YieldFits(b, s, x.mem);
    case Save => SaveFits(s, Interrupt(b, s, x));
    case Accept => SaveFits(s, Interrupt(b, s, x));
    case ReadMessage => SaveFits(s, Interrupt(b, s, x));
    case Finish => SaveFits(s, Interrupt(b, s, x));
    case Shutdown => SaveFits(s, Interrupt(b, s, x));
  }

  lemma {:induction false} RunFits(b: Board, s: State, ops: seq<Op>, s': State)
    requires Inv(b, s) && Fits(s) && Run(b, s, ops, s') && RunCountsDown(b, s, ops)
    ensures Inv(b, s') && Fits(s')
    decreases |ops|
  {
    if ops != [] {
      match ops[0] {
        case Queue(r, mem) =>
          EnqueueKeepsInv(b, s, r, mem);
          EnqueueFits(b, s, r, mem);
        case Irq(x) =>
          InterruptKeepsInv(b, s, x);
          InterruptFits(b, s, x);
      }
      RunFits(b, Step(b, s, ops[0]), ops[1..], s');
    }
  }

  lemma StartMovesSomething(log: seq<Event>, e: Event)
    requires !Watched(log + [e]).Bad? && e.DmaOn?
    ensures e.size > 0
  {
    NoteWatched(log, e);
  }

  /** Over any run in which the chip's counter only counts down, every DMA stays inside the memory of its
      request: it moves a tail of that memory (Observe says which) that is no longer than the whole. */
  lemma DmaStaysInside(b: Board, ops: seq<Op>, s: State, i: nat)
    requires Run(b, Initial(), ops, s) && RunCountsDown(b, Initial(), ops) && i < |s.log| && s.log[i].DmaOn?
    ensures 0 < s.log[i].size <= s.log[i].r.nbyte
  {
    assert FitsEvent(s.log[i]) by {
      InitialInv(b);
      RunFits(b, Initial(), ops, s);
    }
    assert s.log[..i + 1] == s.log[..i] + [s.log[i]];
    DmaDisciplined(b, ops, s, i + 1);
    StartMovesSomething(s.log[..i], s.log[i]);
  }

  /** The counter has 24 bits.  A request of no more bytes is moved from its beginning; one of more bytes is
      not: only its tail is. */
  lemma FirstDmaIsWhole(b: Board, s: State, mem: int)
    requires Shape(s) && s.start != []
    ensures var u := s.start[0]; var r := Head(s, u);
            StartFirst(b, s, mem).left[u] == r.nbyte <==> r.nbyte < 0x1000000
  {
    var u := s.start[0];
    StartDmaOnly(b, s.(start := s.start[1..], cur := u, left := s.left[u := Head(s, u).nbyte % 0x1000000]), u, mem);
  }
}
