/**
 The QIC tape driver: a state machine that works off a queue of buffers, one SCSI command at a time.
 */
module Tape {

  const BSIZE: nat := 512
  const SENSE_SIZE: nat := 14

  datatype State =
    | NormalIdle | NormalRead | NormalSpecial | NormalSeof | NormalReadGetSense | NormalSeofGetSense
    | EodIdle | EodWrite | EodWriteGetSense | EodSpecial
    | EomIdle | EomSpecial
    | EofIdle | EofSpecial
    | DoomIdle | DoomSpecial | DoomMiscGetSense
    | BadRead1 | BadRead2 | BadReadNuls

  /** special.com */
  datatype Order = Init120 | Init150 | Rewind | GetSense | Append | WriteEof | Flush | Seof | Close

  /** A buffer of user data, or the one special buffer. */
  datatype Buf =
    | User(tag: nat, reading: bool, count: nat, resid: int, error: Error, cleared: bool)
    | Special(order: Order, error: Error)

  /** B_ERROR and b_error. */
  datatype Error = Fine | Plain | NoSpace

  /** What is sent to the drive. */
  datatype Com = Io(reading: bool, count: nat) | Order(order: Order)

  datatype Event =
    | Queued(buf: Buf)
    | Sent(com: Com)
    | Answered(okay: bool, status: nat, sense: seq<nat>)
    | Disposed(buf: Buf)
    | Opened

  datatype Drive = Drive(
    state: State,
    queue: seq<Buf>,            // bhead..btail
    okay: bool, status: nat,    // com, as the last command left it
    sense: seq<nat>,
    busy: bool,                 // a command is out
    log: seq<Event>)

  // ----- the steps of the machine

  function Note(d: Drive, e: Event): (d': Drive)
  {
    d.(log := d.log + [e])
  }

  /** dispose, of a head that has become b. */
  function Dispose(d: Drive, b: Buf, st: State): (d': Drive)
    requires d.queue != []
  {
    Note(d, Disposed(b)).(queue := d.queue[1..], state := st)
  }

  function Start(d: Drive, com: Com, st: State): (d': Drive)
  {
    Note(d, Sent(com)).(busy := true, state := st)
  }

  /** setresidue */
  function Residue(sense: seq<nat>, b: Buf): (r: int)
    requires b.User?
  {
    if |sense| == SENSE_SIZE && sense[0] == 0xF0 then
      var blocks := ((sense[3] * 256 + sense[4]) * 256 + sense[5]) * 256 + sense[6];
      var r := (blocks * BSIZE) % 0x1_0000_0000;
      if r <= b.count then r else b.resid
    else b.resid
  }

  function Failing(b: Buf, e: Error): (b': Buf)
  {
    match b
    case User(tag, reading, count, resid, _, cleared) => User(tag, reading, count, resid, e, cleared)
    case Special(order, _) => Special(order, e)
  }

  /** One turn of the loop: on to the next, or return until the drive answers. */
  datatype Turned = Again(d: Drive) | Return(d: Drive)

  /** A command that was sent for the head has been answered. */
  function Answer(d: Drive, good: State, check: State): (t: Turned)
    requires d.queue != []
  {
    if !d.okay then Again(d.(state := DoomMiscGetSense))
    else if d.status == 0 then Again(Dispose(d, d.queue[0], good))
    else if d.status == 2 then Return(Start(d, Order(GetSense), check))
    else Again(d.(state := DoomMiscGetSense))
  }

  /** The residue decides whether the head is finished with. */
  function Partly(d: Drive, st: State): (d': Drive)
    requires d.queue != []
  {
    var b := d.queue[0];
    if b.Special? then d.(state := st)
    else
      var b1 := b.(resid := Residue(d.sense, b));
      if b1.resid < b1.count then Dispose(d, b1, st) else d.(state := st, queue := [b1] + d.queue[1..])
  }

  predicate SenseFailed(d: Drive)
  {
    !d.okay || d.status != 0
  }

  function Key(d: Drive): (key: nat)
  {
    if |d.sense| == SENSE_SIZE then d.sense[2] % 16 else 0
  }

  function NormalTurn(d: Drive): (t: Turned)
    requires d.queue != []
  {
    var b := d.queue[0];
    if b.User? then Return(Start(d, Io(b.reading, b.count), if b.reading then NormalRead else EodWrite))
    else
      match b.order
      case Init120 => Return(Start(d, Order(b.order), NormalSpecial))
      case Init150 => Return(Start(d, Order(b.order), NormalSpecial))
      case GetSense => Return(Start(d, Order(b.order), NormalSpecial))
      case WriteEof => Return(Start(d, Order(b.order), NormalSpecial))
      case Rewind => Return(Start(d, Order(b.order), DoomSpecial))
      case Append => Return(Start(d, Order(b.order), EodSpecial))
      case Seof => Return(Start(d, Order(b.order), NormalSeof))
      case Flush => Again(Dispose(d, b, NormalIdle))
      case Close => Again(Dispose(d, b, NormalIdle))
  }

  function EodTurn(d: Drive): (t: Turned)
    requires d.queue != []
  {
    var b := d.queue[0];
    if b.User? then
      if b.reading then Again(Dispose(d, Failing(b, NoSpace), EodIdle)) else Return(Start(d, Io(false, b.count), EodWrite))
    else
      match b.order
      case Rewind => Return(Start(d, Order(b.order), DoomSpecial))
      case GetSense => Return(Start(d, Order(b.order), EodSpecial))
      case WriteEof => Return(Start(d, Order(b.order), EodSpecial))
      case _ => Again(Dispose(d, b, EodIdle))
  }

  function EomTurn(d: Drive): (t: Turned)
    requires d.queue != []
  {
    var b := d.queue[0];
    if b.User? then Again(Dispose(d, Failing(b, NoSpace), EomIdle))
    else
      match b.order
      case Rewind => Return(Start(d, Order(b.order), DoomSpecial))
      case GetSense => Return(Start(d, Order(b.order), EomSpecial))
      case _ => Again(Dispose(d, b, EomIdle))
  }

  function EofTurn(d: Drive): (t: Turned)
    requires d.queue != []
  {
    var b := d.queue[0];
    if b.User? then Again(Dispose(d, b.(resid := b.count), EofIdle))
    else
      match b.order
      case Rewind => Return(Start(d, Order(b.order), DoomSpecial))
      case GetSense => Return(Start(d, Order(b.order), EofSpecial))
      case Close => Again(Dispose(d, b, NormalIdle))
      case _ => Again(Dispose(d, b, EofIdle))
  }

  function DoomTurn(d: Drive): (t: Turned)
    requires d.queue != []
  {
    var b := d.queue[0];
    if b.User? then Again(Dispose(d, Failing(b, Plain), DoomIdle))
    else
      match b.order
      case Rewind => Return(Start(d, Order(b.order), DoomSpecial))
      case GetSense => Return(Start(d, Order(b.order), DoomSpecial))
      case _ => Again(Dispose(d, Failing(b, Plain), DoomIdle))
  }

  function ReadSenseTurn(d: Drive): (t: Turned)
    requires d.queue != []
  {
    if SenseFailed(d) then Again(d.(state := DoomMiscGetSense))
    else if Key(d) == 0 then Again(Partly(d, EofIdle))
    else if Key(d) == 8 then Again(Partly(d, EodIdle))
    else if Key(d) == 3 then Again(Partly(d, BadRead1))
    else Again(d.(state := DoomIdle))
  }

  function WriteSenseTurn(d: Drive): (t: Turned)
    requires d.queue != []
  {
    if SenseFailed(d) then Again(d.(state := DoomMiscGetSense))
    else if Key(d) == 0 || Key(d) == 0xD then Again(Partly(d, EomIdle))
    else Again(d.(state := DoomIdle))
  }

  /** b_resid is unsigned: it wraps when the buffer is smaller than a block. */
  function NulsResidue(count: nat): (r: int)
  {
    (count - BSIZE) % 0x1_0000_0000
  }

  function Turn(d: Drive): (t: Turned)
    requires d.queue != []
  {
    var b := d.queue[0];
    match d.state
    case NormalIdle => NormalTurn(d)
    case NormalRead => Answer(d, NormalIdle, NormalReadGetSense)
    case NormalReadGetSense => ReadSenseTurn(d)
    case BadRead1 => Again(if b.Special? then d.(state := NormalIdle) else Dispose(d, Failing(b, Plain), BadRead2))
    case BadRead2 => Again(if b.Special? then d.(state := NormalIdle) else Dispose(d, Failing(b, Plain), BadReadNuls))
    case BadReadNuls =>
      Again(if b.Special? then d.(state := NormalIdle)
            else Dispose(d, b.(cleared := true, resid := NulsResidue(b.count)), NormalIdle))
    case NormalSpecial => Answer(d, NormalIdle, DoomMiscGetSense)
    case NormalSeof => Answer(d, EofIdle, NormalSeofGetSense)
    case NormalSeofGetSense =>
      Again(if !SenseFailed(d) && Key(d) == 8 then Dispose(d, b, EodIdle) else d.(state := DoomMiscGetSense))
    case EodIdle => EodTurn(d)
    case EodWrite => Answer(d, EodIdle, EodWriteGetSense)
    case EodWriteGetSense => WriteSenseTurn(d)
    case EodSpecial => Answer(d, EodIdle, DoomMiscGetSense)
    case EomIdle => EomTurn(d)
    case EomSpecial => Answer(d, EomIdle, DoomMiscGetSense)
    case EofIdle => EofTurn(d)
    case EofSpecial => Answer(d, EofIdle, DoomMiscGetSense)
    case DoomIdle => DoomTurn(d)
    case DoomSpecial => Answer(d, DoomIdle, DoomMiscGetSense)
    case DoomMiscGetSense => Again(Dispose(d, Failing(b, Plain), DoomIdle))
  }

  // ----- the loop ends

  /** How many turns a state may take before the head is disposed of or a command sent. */
  function Rank(st: State): (n: nat)
  {
    match st
    case NormalIdle => 0
    case EodIdle => 0
    case EomIdle => 0
    case EofIdle => 0
    case DoomIdle => 0
    case DoomMiscGetSense => 1
    case BadRead1 => 2
    case BadRead2 => 2
    case BadReadNuls => 2
    case _ => 3
  }

  /** The measure: every turn that does not return disposes of the head or lowers the rank of the state. */
  lemma TurnDescends(d: Drive)
    requires d.queue != []
    ensures var t := Turn(d);
            t.Again? ==> |t.d.queue| < |d.queue| || (|t.d.queue| == |d.queue| && Rank(t.d.state) < Rank(d.state))
  {
  }

  function Machine(d: Drive): (d': Drive)
    decreases |d.queue|, Rank(d.state)
  {
    if d.queue == [] then d
    else
      TurnDescends(d);
      match Turn(d)
      case Again(d1) => Machine(d1)
      case Return(d1) => d1
  }

  function Appended(d: Drive, b: Buf): (d': Drive)
  {
    Note(d, Queued(b)).(queue := d.queue + [b])
  }

  /** queue */
  function Enqueue(d: Drive, b: Buf): (d': Drive)
  {
    if d.queue == [] then Machine(Appended(d, b)) else Appended(d, b)
  }

  /** ihandle: the drive has answered.  `sense` is what it has put into the sense bytes. */
  function Interrupt(d: Drive, okay: bool, status: nat, sense: seq<nat>): (d': Drive)
  {
    Machine(Note(d, Answered(okay, status, sense)).(okay := okay, status := status, sense := sense, busy := false))
  }

  /** The part of ctopen that sets the state, when the tape is at its beginning. */
  function Open(d: Drive): (d': Drive)
  {
    Note(d, Opened).(state := NormalIdle)
  }

  // ----- first in, first out, exactly once

  /** What does not change about a buffer while it is worked on. */
  function Id(b: Buf): (id: Buf)
  {
    match b
    case User(tag, reading, count, _, _, _) => User(tag, reading, count, 0, Fine, false)
    case Special(order, _) => Special(order, Fine)
  }

  function Ids(queue: seq<Buf>): (ids: seq<Buf>)
    ensures |ids| == |queue|
  {
    seq(|queue|, i requires 0 <= i < |queue| => Id(queue[i]))
  }

  function QueuedIn(log: seq<Event>): (ids: seq<Buf>)
  {
    if log == [] then []
    else QueuedIn(log[..|log| - 1]) + if log[|log| - 1].Queued? then [Id(log[|log| - 1].buf)] else []
  }

  function DisposedIn(log: seq<Event>): (ids: seq<Buf>)
  {
    if log == [] then []
    else DisposedIn(log[..|log| - 1]) + if log[|log| - 1].Disposed? then [Id(log[|log| - 1].buf)] else []
  }

  ghost predicate Fifo(d: Drive)
  {
    QueuedIn(d.log) == DisposedIn(d.log) + Ids(d.queue)
  }

  // ----- one command at a time, and no read after a write

  datatype Out = Idle | Waiting(com: Com) | Bad

  function OutAfter(o: Out, e: Event): (o': Out)
  {
    match e
    case Sent(com) => if o == Idle then Waiting(com) else Bad
    case Answered(_, _, _) => if o.Waiting? then Idle else Bad
    case _ => o
  }

  /** The command that is out, if commands and answers alternate. */
  function OutOf(log: seq<Event>): (o: Out)
  {
    if log == [] then Idle else OutAfter(OutOf(log[..|log| - 1]), log[|log| - 1])
  }

  datatype Direction = Any | Written | Wrong

  function DirectionAfter(r: Direction, e: Event): (r': Direction)
  {
    match e
    case Sent(Io(reading, _)) => if r == Wrong then Wrong else if !reading then Written else if r == Written then Wrong else r
    case Opened => if r == Wrong then Wrong else Any
    case _ => r
  }

  /** Written from the first write on until an open; Wrong for ever once a read is sent after a write. */
  function DirectionOf(log: seq<Event>): (r: Direction)
  {
    if log == [] then Any else DirectionAfter(DirectionOf(log[..|log| - 1]), log[|log| - 1])
  }

  /** The states that can be reached after a write without an open. */
  predicate AfterWrite(st: State)
  {
    match st
    case EodIdle => true
    case EodWrite => true
    case EodWriteGetSense => true
    case EodSpecial => true
    case EomIdle => true
    case EomSpecial => true
    case DoomIdle => true
    case DoomSpecial => true
    case DoomMiscGetSense => true
    case _ => false
  }

  /** The states in which no command can be out. */
  predicate Quiet(st: State)
  {
    Rank(st) == 0 || Rank(st) == 2
  }

  /** The command that a state waits for. */
  predicate Expects(st: State, b: Buf, com: Com)
  {
    match st
    case NormalRead => b.User? && b.reading && com == Io(true, b.count)
    case EodWrite => b.User? && !b.reading && com == Io(false, b.count)
    case NormalSpecial => b.Special? && com == Order(b.order)
    case NormalSeof => b.Special? && com == Order(b.order) && b.order == Seof
    case EodSpecial => b.Special? && com == Order(b.order)
    case EomSpecial => b.Special? && com == Order(b.order)
    case EofSpecial => b.Special? && com == Order(b.order)
    case DoomSpecial => b.Special? && com == Order(b.order)
    case NormalReadGetSense => b.User? && b.reading && com == Order(GetSense)
    case EodWriteGetSense => b.User? && !b.reading && com == Order(GetSense)
    case NormalSeofGetSense => b.Special? && com == Order(GetSense)
    case DoomMiscGetSense => com == Order(GetSense)
    case _ => false
  }

  /** The head is of the kind that the state is about. */
  predicate Suits(st: State, b: Buf)
  {
    match st
    case NormalRead => b.User? && b.reading
    case NormalReadGetSense => b.User? && b.reading
    case EodWrite => b.User? && !b.reading
    case EodWriteGetSense => b.User? && !b.reading
    case NormalSpecial => b.Special?
    case NormalSeof => b.Special?
    case NormalSeofGetSense => b.Special?
    case EodSpecial => b.Special?
    case EomSpecial => b.Special?
    case EofSpecial => b.Special?
    case DoomSpecial => b.Special?
    case _ => true
  }

  ghost predicate Directed(d: Drive)
  {
    DirectionOf(d.log) != Wrong && (DirectionOf(d.log) == Written ==> AfterWrite(d.state))
  }

  /** Between turns of the loop. */
  ghost predicate Mid(d: Drive)
  {
    && !d.busy && OutOf(d.log) == Idle && Fifo(d) && Directed(d)
    && (if d.queue == [] then Quiet(d.state) else Suits(d.state, d.queue[0]))
  }

  /** Between calls. */
  ghost predicate Inv(d: Drive)
  {
    && Fifo(d) && Directed(d)
    && (d.busy <==> d.queue != [])
    && (if d.busy then OutOf(d.log).Waiting? && Expects(d.state, d.queue[0], OutOf(d.log).com)
        else OutOf(d.log) == Idle && Quiet(d.state))
  }

  lemma NoteKeeps(d: Drive, e: Event)
    ensures var log := Note(d, e).log;
            QueuedIn(log) == QueuedIn(d.log) + (if e.Queued? then [Id(e.buf)] else [])
            && DisposedIn(log) == DisposedIn(d.log) + (if e.Disposed? then [Id(e.buf)] else [])
  {
    assert (d.log + [e])[..|d.log|] == d.log;
  }

  lemma NoteDirects(d: Drive, e: Event)
    ensures OutOf(Note(d, e).log) == OutAfter(OutOf(d.log), e)
    ensures DirectionOf(Note(d, e).log) == DirectionAfter(DirectionOf(d.log), e)
  {
    assert (d.log + [e])[..|d.log|] == d.log;
  }

  lemma DisposeKeepsMid(d: Drive, b: Buf, st: State)
    requires Mid(d) && d.queue != [] && Id(b) == Id(d.queue[0]) && Quiet(st)
    requires AfterWrite(d.state) ==> AfterWrite(st)
    ensures Mid(Dispose(d, b, st))
  {
    NoteKeeps(d, Disposed(b));
    NoteDirects(d, Disposed(b));
    assert Ids(d.queue) == [Id(b)] + Ids(d.queue[1..]);
  }

  lemma StartKeeps(d: Drive, com: Com, st: State)
    requires Mid(d) && d.queue != [] && Expects(st, d.queue[0], com)
    requires AfterWrite(d.state) || (com.Io? && !com.reading) ==> AfterWrite(st)
    requires com.Io? && com.reading ==> !AfterWrite(d.state)
    ensures Inv(Start(d, com, st))
  {
    NoteKeeps(d, Sent(com));
    NoteDirects(d, Sent(com));
  }

  /** The head stays, in another state, perhaps with another residue. */
  lemma StayKeepsMid(d: Drive, b: Buf, st: State)
    requires Mid(d) && d.queue != [] && Id(b) == Id(d.queue[0])
    requires Quiet(st) || st == DoomMiscGetSense
    requires AfterWrite(d.state) ==> AfterWrite(st)
    ensures Mid(d.(state := st, queue := [b] + d.queue[1..]))
  {
    assert Ids(d.queue) == [Id(b)] + Ids(d.queue[1..]);
    assert Ids([b] + d.queue[1..]) == [Id(b)] + Ids(d.queue[1..]);
  }

  lemma MoveKeepsMid(d: Drive, st: State)
    requires Mid(d) && d.queue != [] && (Quiet(st) || st == DoomMiscGetSense)
    requires AfterWrite(d.state) ==> AfterWrite(st)
    ensures Mid(d.(state := st))
  {
    StayKeepsMid(d, d.queue[0], st);
    assert [d.queue[0]] + d.queue[1..] == d.queue;
  }

  ghost predicate Kept(t: Turned)
  {
    if t.Again? then Mid(t.d) else Inv(t.d) && t.d.busy
  }

  lemma AnswerKeeps(d: Drive, good: State, check: State)
    requires Mid(d) && d.queue != [] && Quiet(good) && Expects(check, d.queue[0], Order(GetSense))
    requires AfterWrite(d.state) ==> AfterWrite(good) && AfterWrite(check)
    ensures Kept(Answer(d, good, check))
  {
    if d.okay && d.status == 0 {
      DisposeKeepsMid(d, d.queue[0], good);
    } else if d.okay && d.status == 2 {
      StartKeeps(d, Order(GetSense), check);
    } else {
      MoveKeepsMid(d, DoomMiscGetSense);
    }
  }

  lemma PartlyKeeps(d: Drive, st: State)
    requires Mid(d) && d.queue != [] && Quiet(st) && (AfterWrite(d.state) ==> AfterWrite(st))
    ensures Mid(Partly(d, st))
  {
    var b := d.queue[0];
    if b.Special? {
      MoveKeepsMid(d, st);
    } else {
      var b1 := b.(resid := Residue(d.sense, b));
      DisposeKeepsMid(d, b1, st);
      StayKeepsMid(d, b1, st);
    }
  }

  /** A residue that makes sense to the caller. */
  predicate Fits(b: Buf)
  {
    b.User? ==> 0 <= b.resid <= b.count
  }

  /** A turn that disposes of the head in one way or another. */
  ghost predicate Disposes(d: Drive, t: Turned)
    requires d.queue != []
  {
    t.Again? && exists b: Buf, st: State :: Id(b) == Id(d.queue[0]) && t.d == Dispose(d, b, st) && Quiet(st)
                                            && (AfterWrite(d.state) ==> AfterWrite(st))
                                            && (Fits(d.queue[0]) ==> Fits(b))
  }

  /** A turn that sends the head's command. */
  ghost predicate Sends(d: Drive, t: Turned)
    requires d.queue != []
  {
    var b := d.queue[0];
    var com := if b.User? then Io(b.reading, b.count) else Order(b.order);
    t.Return? && t.d == Start(d, com, t.d.state) && Expects(t.d.state, b, com)
    && (AfterWrite(d.state) || (b.User? && !b.reading) ==> AfterWrite(t.d.state))
    && (b.User? && b.reading ==> !AfterWrite(d.state))
  }

  lemma DisposesOrSendsKeeps(d: Drive, t: Turned)
    requires Mid(d) && d.queue != [] && (Disposes(d, t) || Sends(d, t))
    ensures Kept(t)
  {
    if Sends(d, t) {
      var b := d.queue[0];
      StartKeeps(d, if b.User? then Io(b.reading, b.count) else Order(b.order), t.d.state);
    } else {
      var b: Buf, st: State :| Id(b) == Id(d.queue[0]) && t.d == Dispose(d, b, st) && Quiet(st)
                               && (AfterWrite(d.state) ==> AfterWrite(st)) && (Fits(d.queue[0]) ==> Fits(b));
      DisposeKeepsMid(d, b, st);
    }
  }

  lemma DisposesAs(d: Drive, t: Turned)
    requires d.queue != [] && t.Again? && t.d.log != []
    requires var e, st := t.d.log[|t.d.log| - 1], t.d.state;
             e.Disposed? && t.d == Dispose(d, e.buf, st) && Id(e.buf) == Id(d.queue[0]) && Quiet(st)
             && (AfterWrite(d.state) ==> AfterWrite(st)) && (Fits(d.queue[0]) ==> Fits(e.buf))
    ensures Disposes(d, t)
  {
  }

  lemma NormalTurnIs(d: Drive)
    requires d.queue != [] && d.state == NormalIdle
    ensures Disposes(d, NormalTurn(d)) || Sends(d, NormalTurn(d))
  {
    if NormalTurn(d).Again? {
      DisposesAs(d, NormalTurn(d));
    }
  }

  lemma EodTurnIs(d: Drive)
    requires d.queue != [] && d.state == EodIdle
    ensures Disposes(d, EodTurn(d)) || Sends(d, EodTurn(d))
  {
    if EodTurn(d).Again? {
      DisposesAs(d, EodTurn(d));
    }
  }

  lemma EomTurnIs(d: Drive)
    requires d.queue != [] && d.state == EomIdle
    ensures Disposes(d, EomTurn(d)) || Sends(d, EomTurn(d))
  {
    if EomTurn(d).Again? {
      DisposesAs(d, EomTurn(d));
    }
  }

  lemma EofTurnIs(d: Drive)
    requires d.queue != [] && d.state == EofIdle
    ensures Disposes(d, EofTurn(d)) || Sends(d, EofTurn(d))
  {
    if EofTurn(d).Again? {
      DisposesAs(d, EofTurn(d));
    }
  }

  lemma DoomTurnIs(d: Drive)
    requires d.queue != [] && d.state == DoomIdle
    ensures Disposes(d, DoomTurn(d)) || Sends(d, DoomTurn(d))
  {
    if DoomTurn(d).Again? {
      DisposesAs(d, DoomTurn(d));
    }
  }

  lemma IdleTurnIs(d: Drive)
    requires d.queue != [] && Rank(d.state) == 0
    ensures Disposes(d, Turn(d)) || Sends(d, Turn(d))
  {
    match d.state
    case NormalIdle => NormalTurnIs(d);
    case EodIdle => EodTurnIs(d);
    case EomIdle => EomTurnIs(d);
    case EofIdle => EofTurnIs(d);
    case DoomIdle => DoomTurnIs(d);
  }

  lemma IdleTurnKeeps(d: Drive)
    requires Mid(d) && d.queue != [] && Rank(d.state) == 0
    ensures Kept(Turn(d))
  {
    IdleTurnIs(d);
    DisposesOrSendsKeeps(d, Turn(d));
  }

  lemma BadTurnKeeps(d: Drive)
    requires Mid(d) && d.queue != [] && Rank(d.state) == 2
    ensures Kept(Turn(d))
  {
    var b := d.queue[0];
    if b.Special? {
      MoveKeepsMid(d, NormalIdle);
    } else {
      DisposeKeepsMid(d, Failing(b, Plain), Turn(d).d.state);
      DisposeKeepsMid(d, b.(cleared := true, resid := NulsResidue(b.count)), NormalIdle);
    }
  }

  lemma ReadSenseTurnKeeps(d: Drive)
    requires Mid(d) && d.queue != [] && d.state == NormalReadGetSense
    ensures Kept(Turn(d))
  {
    if SenseFailed(d) {
      MoveKeepsMid(d, DoomMiscGetSense);
    } else if Key(d) in {0, 8, 3} {
      PartlyKeeps(d, if Key(d) == 0 then EofIdle else if Key(d) == 8 then EodIdle else BadRead1);
    } else {
      MoveKeepsMid(d, DoomIdle);
    }
  }

  lemma WriteSenseTurnKeeps(d: Drive)
    requires Mid(d) && d.queue != [] && d.state == EodWriteGetSense
    ensures Kept(Turn(d))
  {
    if SenseFailed(d) {
      MoveKeepsMid(d, DoomMiscGetSense);
    } else if Key(d) in {0, 0xD} {
      PartlyKeeps(d, EomIdle);
    } else {
      MoveKeepsMid(d, DoomIdle);
    }
  }

  lemma OtherSenseTurnKeeps(d: Drive)
    requires Mid(d) && d.queue != [] && d.state in {NormalSeofGetSense, DoomMiscGetSense}
    ensures Kept(Turn(d))
  {
    var b := d.queue[0];
    if d.state == DoomMiscGetSense {
      DisposeKeepsMid(d, Failing(b, Plain), DoomIdle);
    } else if !SenseFailed(d) && Key(d) == 8 {
      DisposeKeepsMid(d, b, EodIdle);
    } else {
      MoveKeepsMid(d, DoomMiscGetSense);
    }
  }

  lemma TurnKeeps(d: Drive)
    requires Mid(d) && d.queue != []
    ensures Kept(Turn(d))
  {
    match d.state
    case NormalRead => AnswerKeeps(d, NormalIdle, NormalReadGetSense);
    case NormalSpecial => AnswerKeeps(d, NormalIdle, DoomMiscGetSense);
    case NormalSeof => AnswerKeeps(d, EofIdle, NormalSeofGetSense);
    case EodWrite => AnswerKeeps(d, EodIdle, EodWriteGetSense);
    case EodSpecial => AnswerKeeps(d, EodIdle, DoomMiscGetSense);
    case EomSpecial => AnswerKeeps(d, EomIdle, DoomMiscGetSense);
    case EofSpecial => AnswerKeeps(d, EofIdle, DoomMiscGetSense);
    case DoomSpecial => AnswerKeeps(d, DoomIdle, DoomMiscGetSense);
    case NormalReadGetSense => ReadSenseTurnKeeps(d);
    case EodWriteGetSense => WriteSenseTurnKeeps(d);
    case _ =>
      if Rank(d.state) == 0 {
        IdleTurnKeeps(d);
      } else if Rank(d.state) == 2 {
        BadTurnKeeps(d);
      } else {
        OtherSenseTurnKeeps(d);
      }
  }

  /** The loop turns a drive without a command out into one with a command out, or with nothing to do. */
  lemma {:induction false} MachineKeeps(d: Drive)
    requires Mid(d)
    ensures Inv(Machine(d))
    decreases |d.queue|, Rank(d.state)
  {
    if d.queue != [] {
      TurnDescends(d);
      TurnKeeps(d);
      if Turn(d).Again? {
        MachineKeeps(Turn(d).d);
      }
    }
  }

  // ----- whole runs

  datatype Op = Queue(b: Buf) | Irq(okay: bool, status: nat, sense: seq<nat>) | Reopen

  /** The drive answers commands that are out; the state is reset by an open when nothing is queued. */
  ghost predicate Possible(d: Drive, op: Op)
  {
    match op
    case Queue(b) => b == Id(b)
    case Irq(_, _, _) => d.busy
    case Reopen => d.queue == []
  }

  function Step(d: Drive, op: Op): (d': Drive)
  {
    match op
    case Queue(b) => Enqueue(d, b)
    case Irq(okay, status, sense) => Interrupt(d, okay, status, sense)
    case Reopen => Open(d)
  }

  lemma AppendedKeeps(d: Drive, b: Buf)
    requires Fifo(d) && Directed(d)
    ensures Fifo(Appended(d, b)) && Directed(Appended(d, b)) && OutOf(Appended(d, b).log) == OutOf(d.log)
  {
    NoteKeeps(d, Queued(b));
    NoteDirects(d, Queued(b));
    assert Ids(d.queue + [b]) == Ids(d.queue) + [Id(b)];
  }

  lemma EnqueueKeeps(d: Drive, b: Buf)
    requires Inv(d)
    ensures Inv(Enqueue(d, b))
  {
    AppendedKeeps(d, b);
    if d.queue == [] {
      MachineKeeps(Appended(d, b));
    }
  }

  lemma InterruptKeeps(d: Drive, okay: bool, status: nat, sense: seq<nat>)
    requires Inv(d) && d.busy
    ensures Inv(Interrupt(d, okay, status, sense))
  {
    NoteKeeps(d, Answered(okay, status, sense));
    NoteDirects(d, Answered(okay, status, sense));
    MachineKeeps(Note(d, Answered(okay, status, sense)).(okay := okay, status := status, sense := sense, busy := false));
  }

  lemma StepKeeps(d: Drive, op: Op)
    requires Inv(d) && Possible(d, op)
    ensures Inv(Step(d, op))
  {
    match op
    case Queue(b) => EnqueueKeeps(d, b);
    case Irq(okay, status, sense) => InterruptKeeps(d, okay, status, sense);
    case Reopen =>
      NoteKeeps(d, Opened);
      NoteDirects(d, Opened);
  }

  function Initial(): Drive
  {
    Drive(NormalIdle, [], false, 0, [], false, [])
  }

  ghost predicate Run(d: Drive, ops: seq<Op>, d': Drive)
    decreases |ops|
  {
    if ops == [] then d == d' else Possible(d, ops[0]) && Run(Step(d, ops[0]), ops[1..], d')
  }

  lemma {:induction false} RunKeeps(d: Drive, ops: seq<Op>, d': Drive)
    requires Inv(d) && Run(d, ops, d')
    ensures Inv(d')
    decreases |ops|
  {
    if ops != [] {
      StepKeeps(d, ops[0]);
      RunKeeps(Step(d, ops[0]), ops[1..], d');
    }
  }

  /** Over any run, buffers are disposed of in the order in which they were queued, each once; those not yet
      disposed of are still in the queue. */
  lemma DisposedInOrder(ops: seq<Op>, d: Drive)
    requires Run(Initial(), ops, d)
    ensures QueuedIn(d.log) == DisposedIn(d.log) + Ids(d.queue)
  {
    RunKeeps(Initial(), ops, d);
  }

  /** Between calls the queue is non-empty exactly when one command is out; it is the command that the state
      waits for; commands and answers have alternated. */
  lemma OneCommandOut(ops: seq<Op>, d: Drive)
    requires Run(Initial(), ops, d)
    ensures OutOf(d.log) != Bad
    ensures d.queue != [] <==> OutOf(d.log).Waiting?
    ensures d.queue != [] ==> Expects(d.state, d.queue[0], OutOf(d.log).com)
  {
    RunKeeps(Initial(), ops, d);
  }

  lemma {:induction false} WrongStays(log: seq<Event>, n: nat)
    requires n <= |log| && DirectionOf(log[..n]) == Wrong
    ensures DirectionOf(log) == Wrong
    decreases |log| - n
  {
    if n < |log| {
      assert log[..n + 1][..n] == log[..n];
      WrongStays(log, n + 1);
    } else {
      assert log[..n] == log;
    }
  }

  lemma {:induction false} WrittenStays(log: seq<Event>, i: nat, j: nat)
    requires i < j <= |log| && log[i].Sent? && log[i].com.Io? && !log[i].com.reading
    requires forall k: nat :: i < k < j ==> !log[k].Opened?
    ensures DirectionOf(log[..j]) != Any
    decreases j
  {
    assert log[..j][..j - 1] == log[..j - 1];
    if i + 1 < j {
      WrittenStays(log, i, j - 1);
    }
  }

  /** Over any run, once a write has been sent to the drive no read is, until the tape is opened again at its
      beginning. */
  lemma NoReadAfterWrite(ops: seq<Op>, d: Drive, i: nat, j: nat)
    requires Run(Initial(), ops, d) && i < j < |d.log|
    requires d.log[i].Sent? && d.log[i].com.Io? && !d.log[i].com.reading
    requires forall k: nat :: i < k < j ==> !d.log[k].Opened?
    ensures !(d.log[j].Sent? && d.log[j].com.Io? && d.log[j].com.reading)
  {
    RunKeeps(Initial(), ops, d);
    WrittenStays(d.log, i, j);
    if DirectionOf(d.log[..j + 1]) == Wrong {
      WrongStays(d.log, j + 1);
    }
    assert d.log[..j + 1][..j] == d.log[..j];
  }

  // ----- residues

  /** The residue of the third buffer after a media error does not, if the buffer is smaller than a block. */
  lemma NulsResidueFits(count: nat)
    requires count < 0x1_0000_0000
    ensures 0 <= NulsResidue(count) <= count <==> BSIZE <= count
  {
  }

  predicate Big(b: Buf)
  {
    b.User? ==> BSIZE <= b.count < 0x1_0000_0000
  }

  ghost predicate Fitting(d: Drive)
  {
    && (forall i: nat :: i < |d.queue| ==> Fits(d.queue[i]) && Big(d.queue[i]))
    && (forall i: nat :: i < |d.log| && d.log[i].Disposed? ==> Fits(d.log[i].buf))
  }

  lemma DisposeFits(d: Drive, b: Buf, st: State)
    requires Fitting(d) && d.queue != [] && Fits(b)
    ensures Fitting(Dispose(d, b, st))
  {
  }

  lemma StartFits(d: Drive, com: Com, st: State)
    requires Fitting(d)
    ensures Fitting(Start(d, com, st))
  {
  }

  lemma PartlyFits(d: Drive, st: State)
    requires Fitting(d) && d.queue != []
    ensures Fitting(Partly(d, st))
  {
    var b := d.queue[0];
    if b.User? && Residue(d.sense, b) < b.count {
      DisposeFits(d, b.(resid := Residue(d.sense, b)), st);
    }
  }

  lemma AnswerFits(d: Drive, good: State, check: State)
    requires Fitting(d) && d.queue != []
    ensures Fitting(Answer(d, good, check).d)
  {
    DisposeFits(d, d.queue[0], good);
    StartFits(d, Order(GetSense), check);
  }

  lemma IdleTurnFits(d: Drive)
    requires Fitting(d) && d.queue != [] && Rank(d.state) == 0
    ensures Fitting(Turn(d).d)
  {
    IdleTurnIs(d);
    var b, t := d.queue[0], Turn(d);
    if Sends(d, t) {
      StartFits(d, if b.User? then Io(b.reading, b.count) else Order(b.order), t.d.state);
    } else {
      var b1: Buf, st: State :| Id(b1) == Id(b) && t.d == Dispose(d, b1, st) && Quiet(st)
                                && (AfterWrite(d.state) ==> AfterWrite(st)) && (Fits(b) ==> Fits(b1));
      DisposeFits(d, b1, st);
    }
  }

  lemma BadTurnFits(d: Drive)
    requires Fitting(d) && d.queue != [] && Rank(d.state) == 2
    ensures Fitting(Turn(d).d)
  {
    var b := d.queue[0];
    if b.User? {
      NulsResidueFits(b.count);
      DisposeFits(d, Failing(b, Plain), Turn(d).d.state);
      DisposeFits(d, b.(cleared := true, resid := NulsResidue(b.count)), NormalIdle);
    }
  }

  lemma SenseTurnFits(d: Drive)
    requires Fitting(d) && d.queue != [] && d.state in {NormalReadGetSense, EodWriteGetSense, NormalSeofGetSense, DoomMiscGetSense}
    ensures Fitting(Turn(d).d)
  {
    match d.state
    case NormalReadGetSense =>
      PartlyFits(d, EofIdle);
      PartlyFits(d, EodIdle);
      PartlyFits(d, BadRead1);
    case EodWriteGetSense => PartlyFits(d, EomIdle);
    case NormalSeofGetSense => DisposeFits(d, d.queue[0], EodIdle);
    case DoomMiscGetSense => DisposeFits(d, Failing(d.queue[0], Plain), DoomIdle);
  }

  lemma TurnFits(d: Drive)
    requires Fitting(d) && d.queue != []
    ensures Fitting(Turn(d).d)
  {
    match d.state
    case NormalRead => AnswerFits(d, NormalIdle, NormalReadGetSense);
    case NormalSpecial => AnswerFits(d, NormalIdle, DoomMiscGetSense);
    case NormalSeof => AnswerFits(d, EofIdle, NormalSeofGetSense);
    case EodWrite => AnswerFits(d, EodIdle, EodWriteGetSense);
    case EodSpecial => AnswerFits(d, EodIdle, DoomMiscGetSense);
    case EomSpecial => AnswerFits(d, EomIdle, DoomMiscGetSense);
    case EofSpecial => AnswerFits(d, EofIdle, DoomMiscGetSense);
    case DoomSpecial => AnswerFits(d, DoomIdle, DoomMiscGetSense);
    case _ =>
      if Rank(d.state) == 0 {
        IdleTurnFits(d);
      } else if Rank(d.state) == 2 {
        BadTurnFits(d);
      } else {
        SenseTurnFits(d);
      }
  }

  lemma {:induction false} MachineFits(d: Drive)
    requires Fitting(d)
    ensures Fitting(Machine(d))
    decreases |d.queue|, Rank(d.state)
  {
    if d.queue != [] {
      TurnDescends(d);
      TurnFits(d);
      if Turn(d).Again? {
        MachineFits(Turn(d).d);
      }
    }
  }

  /** Every op queues buffers of at least one block. */
  ghost predicate QueuesBig(ops: seq<Op>)
  {
    forall i: nat :: i < |ops| && ops[i].Queue? ==> Big(ops[i].b)
  }

  lemma {:induction false} RunFits(d: Drive, ops: seq<Op>, d': Drive)
    requires Fitting(d) && Run(d, ops, d') && QueuesBig(ops)
    ensures Fitting(d')
    decreases |ops|
  {
    if ops != [] {
      match ops[0] {
        case Queue(b) =>
          if d.queue == [] {
            MachineFits(Appended(d, b));
          }
        case Irq(okay, status, sense) =>
          MachineFits(Note(d, Answered(okay, status, sense)).(okay := okay, status := status, sense := sense, busy := false));
        case Reopen =>
      }
      assert forall i: nat :: i < |ops[1..]| ==> ops[1..][i] == ops[i + 1];
      RunFits(Step(d, ops[0]), ops[1..], d');
    }
  }

  /** So over any run in which every buffer holds a block, whatever the drive answers, every buffer is given
      back with a residue that is no more than its size. */
  lemma ResiduesFit(ops: seq<Op>, d: Drive, i: nat)
    requires Run(Initial(), ops, d) && QueuesBig(ops) && i < |d.log| && d.log[i].Disposed?
    ensures Fits(d.log[i].buf)
  {
    RunFits(Initial(), ops, d);
  }
}
