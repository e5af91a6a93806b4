/**
 What a buffer given to the tape driver comes back with.  A reference in big steps: where the tape is taken to
 be, the command that a buffer calls for there, and what the answers to that command make of it.  The state
 machine, with its twenty states and its small steps, does exactly that over every run.
 */
module TapeService {

  import opened Basics
  import opened Tape

  /** Where the tape is taken to be when the next buffer is looked at.  Bad1 to Bad3 follow a media error. */
  datatype Place = Ready | EndOfData | EndOfMedium | EndOfFile | Lost | Bad1 | Bad2 | Bad3

  datatype Result = Result(buf: Buf, place: Place)

  // ----- the reference

  predicate Bad(p: Place)
  {
    p == Bad1 || p == Bad2 || p == Bad3
  }

  /** The command that a buffer calls for. */
  function Command(p: Place, b: Buf): (com: Option<Com>)
  {
    match b
    case User(_, reading, count, _, _, _) =>
      if p == Ready || (p == EndOfData && !reading) then Some(Io(reading, count)) else None
    case Special(order, _) =>
      if order == Rewind || order == GetSense then Some(Order(order))
      else if order == WriteEof && p == EndOfData then Some(Order(order))
      else if order == Flush || order == Close then None
      else if p == Ready || Bad(p) then Some(Order(order))
      else None
  }

  function Erring(b: Buf, e: Error): (b': Buf)
    ensures b'.error == e && Id(b') == Id(b)
    ensures b.User? ==> b'.resid == b.resid && b'.cleared == b.cleared
  {
    match b
    case User(tag, reading, count, resid, _, cleared) => User(tag, reading, count, resid, e, cleared)
    case Special(order, _) => Special(order, e)
  }

  /** A buffer that calls for no command. */
  function Refused(p: Place, b: Buf): (r: Result)
  {
    match b
    case User(_, _, count, _, _, _) =>
      (match p
       case EndOfFile => Result(b.(resid := count), EndOfFile)
       case Lost => Result(Erring(b, Plain), Lost)
       case Bad1 => Result(Erring(b, Plain), Bad2)
       case Bad2 => Result(Erring(b, Plain), Bad3)
       case Bad3 => Result(b.(cleared := true, resid := (count - 512) % 0x1_0000_0000), Ready)
       case _ => Result(Erring(b, NoSpace), p))
    case Special(order, _) =>
      if p == Lost then Result(Erring(b, Plain), Lost)
      else if Bad(p) || (p == EndOfFile && order == Close) then Result(b, Ready)
      else Result(b, p)
  }

  /** The command went well. */
  function Completed(p: Place, b: Buf): (r: Result)
  {
    match b
    case User(_, reading, _, _, _, _) => Result(b, if reading then Ready else EndOfData)
    case Special(order, _) =>
      Result(b, if order == Rewind then Lost
                else if order == Append then EndOfData
                else if order == Seof then EndOfFile
                else if Bad(p) then Ready
                else p)
  }

  /** The number of bytes not moved, as the sense bytes say, if they say so and it is not more than all. */
  function Unmoved(s: seq<nat>, b: Buf): (n: int)
    requires b.User?
  {
    if |s| != 14 || s[0] != 0xF0 then b.resid
    else
      var n := (s[3] * 0x1000000 + s[4] * 0x10000 + s[5] * 0x100 + s[6]) * 512 % 0x1_0000_0000;
      if n <= b.count then n else b.resid
  }

  function SenseKey(s: seq<nat>): (key: nat)
  {
    if |s| == 14 then s[2] % 16 else 0
  }

  /** The command met something, and the drive has been asked what it was. */
  function Explained(b: Buf, okay: bool, status: nat, s: seq<nat>): (r: Result)
  {
    var lost := Result(Erring(b, Plain), Lost);
    var key := SenseKey(s);
    if !okay || status != 0 then lost
    else
      match b
      case User(_, reading, count, _, _, _) =>
        var n := Unmoved(s, b);
        var b' := b.(resid := n);
        if reading && key == 0 then Result(if n < count then b' else b.(resid := count), EndOfFile)
        else if reading && key == 8 then Result(if n < count then b' else Erring(b', NoSpace), EndOfData)
        else if reading && key == 3 then if n < count then Result(b', Bad1) else Result(Erring(b', Plain), Bad2)
        else if !reading && (key == 0 || key == 13) then Result(if n < count then b' else Erring(b', NoSpace), EndOfMedium)
        else lost
      case Special(order, _) => if order == Seof && key == 8 then Result(b, EndOfData) else lost
  }

  /** The commands sent for a buffer and their answers, as they have to be. */
  predicate Proper(p: Place, b: Buf, h: seq<Event>)
  {
    match Command(p, b)
    case None => h == []
    case Some(com) =>
      && (|h| == 2 || |h| == 4) && h[0] == Sent(com) && h[1].Answered?
      && (|h| == 4 <==> h[1].okay && h[1].status == 2)
      && (|h| == 4 ==> h[2] == Sent(Order(GetSense)) && h[3].Answered?)
  }

  /** What becomes of a buffer. */
  function Served(p: Place, b: Buf, h: seq<Event>): (r: Result)
    requires Proper(p, b, h)
  {
    if h == [] then Refused(p, b)
    else if |h| == 4 then Explained(b, h[3].okay, h[3].status, h[3].sense)
    else if h[1].okay && h[1].status == 0 then Completed(p, b)
    else Result(Erring(b, Plain), Lost)
  }

  /** The commands and answers since the last buffer was disposed of. */
  function Own(log: seq<Event>): (h: seq<Event>)
  {
    if log == [] then []
    else
      var h, e := Own(log[..|log| - 1]), log[|log| - 1];
      match e
      case Queued(_) => h
      case Sent(_) => h + [e]
      case Answered(_, _, _) => h + [e]
      case _ => []
  }

  /** Where the tape is taken to be, after all that has happened. */
  function PlaceOf(log: seq<Event>): (p: Place)
  {
    if log == [] then Ready
    else
      var front, e := log[..|log| - 1], log[|log| - 1];
      match e
      case Disposed(b) => if Proper(PlaceOf(front), Id(b), Own(front)) then Served(PlaceOf(front), Id(b), Own(front)).place else Lost
      case Opened => Ready
      case _ => PlaceOf(front)
  }

  /** Entry i of the log, if a buffer is disposed of there, is right. */
  ghost predicate Right(log: seq<Event>, i: nat)
    requires i < |log|
  {
    log[i].Disposed? ==>
      var p, b, h := PlaceOf(log[..i]), Id(log[i].buf), Own(log[..i]);
      Proper(p, b, h) && log[i].buf == Served(p, b, h).buf
  }

  ghost predicate AllRight(log: seq<Event>)
  {
    forall i: nat :: i < |log| ==> Right(log, i)
  }

  // ----- the machine's states, in these terms

  function StateOf(p: Place): (st: State)
  {
    match p
    case Ready => NormalIdle
    case EndOfData => EodIdle
    case EndOfMedium => EomIdle
    case EndOfFile => EofIdle
    case Lost => DoomIdle
    case Bad1 => BadRead1
    case Bad2 => BadRead2
    case Bad3 => BadReadNuls
  }

  /** The state that waits for the buffer's command. */
  function FirstWait(p: Place, b: Buf): (st: State)
  {
    match b
    case User(_, reading, _, _, _, _) => if reading then NormalRead else EodWrite
    case Special(order, _) =>
      if order == Rewind then DoomSpecial
      else if order == Append then EodSpecial
      else if order == Seof then NormalSeof
      else
        match p
        case EndOfData => EodSpecial
        case EndOfMedium => EomSpecial
        case EndOfFile => EofSpecial
        case Lost => DoomSpecial
        case _ => NormalSpecial
  }

  /** The state that waits for the sense bytes. */
  function SenseWait(b: Buf): (st: State)
  {
    match b
    case User(_, reading, _, _, _, _) => if reading then NormalReadGetSense else EodWriteGetSense
    case Special(order, _) => if order == Seof then NormalSeofGetSense else DoomMiscGetSense
  }

  /** The head of the queue is as it was queued. */
  ghost predicate Fresh(d: Drive)
  {
    d.queue != [] && d.queue[0] == Id(d.queue[0])
  }

  ghost predicate Begin(d: Drive)
  {
    var p := PlaceOf(d.log);
    Fresh(d) && Own(d.log) == [] && (d.state == StateOf(p) || (d.queue[0].Special? && Bad(p) && d.state == NormalIdle))
  }

  /** Its command is out (h is [Sent]), or has been answered. */
  ghost predicate Once(d: Drive, h: seq<Event>)
  {
    var p := PlaceOf(d.log);
    && Fresh(d) && d.state == FirstWait(p, d.queue[0])
    && Command(p, d.queue[0]).Some? && h == [Sent(Command(p, d.queue[0]).value)]
  }

  /** The drive has been asked what was wrong. */
  ghost predicate Twice(d: Drive, h: seq<Event>)
  {
    var p := PlaceOf(d.log);
    && Fresh(d) && d.state == SenseWait(d.queue[0]) && Command(p, d.queue[0]).Some? && |h| == 3
    && h[0] == Sent(Command(p, d.queue[0]).value) && h[1].Answered? && h[1].okay && h[1].status == 2
    && h[2] == Sent(Order(GetSense))
  }

  /** What becomes of the head is settled, and the next turn disposes of it. */
  ghost predicate Settled(d: Drive)
  {
    && d.queue != []
    && var p, b, h := PlaceOf(d.log), Id(d.queue[0]), Own(d.log);
       Proper(p, b, h) && var r := Served(p, b, h); Turn(d) == Again(Dispose(d, r.buf, StateOf(r.place)))
  }

  ghost predicate OthersFresh(d: Drive)
  {
    forall i: nat :: 0 < i < |d.queue| ==> d.queue[i] == Id(d.queue[i])
  }

  /** What the drive said last. */
  function Said(d: Drive): (e: Event)
  {
    Answered(d.okay, d.status, d.sense)
  }

  /** No command is out. */
  ghost predicate Serving(d: Drive)
  {
    && !d.busy && AllRight(d.log) && OthersFresh(d)
    && if d.queue == [] then Own(d.log) == [] && d.state == StateOf(PlaceOf(d.log))
       else Begin(d) || Settled(d)
            || (Own(d.log) != [] && var h := Own(d.log)[..|Own(d.log)| - 1];
                                    Own(d.log) == h + [Said(d)] && (Once(d, h) || Twice(d, h)))
  }

  /** A command is out. */
  ghost predicate Asking(d: Drive)
  {
    d.busy && AllRight(d.log) && OthersFresh(d) && (Once(d, Own(d.log)) || Twice(d, Own(d.log)))
  }

  // ----- steps

  lemma NoteServes(d: Drive, e: Event)
    requires AllRight(d.log)
    ensures var log := Note(d, e).log;
            && log[..|d.log|] == d.log && log[|d.log|] == e
            && Own(log) == (match e
                            case Queued(_) => Own(d.log)
                            case Sent(_) => Own(d.log) + [e]
                            case Answered(_, _, _) => Own(d.log) + [e]
                            case _ => [])
            && (!e.Disposed? ==> PlaceOf(log) == if e.Opened? then Ready else PlaceOf(d.log))
            && (Right(log, |d.log|) <==> AllRight(log))
  {
    var log := Note(d, e).log;
    assert log[..|log| - 1] == d.log;
    forall i: nat | i < |d.log|
      ensures Right(log, i)
    {
      assert log[..i] == d.log[..i];
      assert Right(d.log, i);
    }
  }

  lemma ServedIsSame(p: Place, b: Buf, h: seq<Event>)
    requires Proper(p, b, h) && b == Id(b)
    ensures Id(Served(p, b, h).buf) == b
  {
  }

  lemma DisposeServes(d: Drive, r: Result)
    requires !d.busy && d.queue != [] && AllRight(d.log) && OthersFresh(d)
    requires Proper(PlaceOf(d.log), Id(d.queue[0]), Own(d.log))
    requires r == Served(PlaceOf(d.log), Id(d.queue[0]), Own(d.log))
    ensures Serving(Dispose(d, r.buf, StateOf(r.place)))
  {
    var b := Id(d.queue[0]);
    var d' := Dispose(d, r.buf, StateOf(r.place));
    ServedIsSame(PlaceOf(d.log), b, Own(d.log));
    NoteServes(d, Disposed(r.buf));
    assert Right(d'.log, |d.log|);
    assert d'.log[..|d'.log| - 1] == d.log;
    assert PlaceOf(d'.log) == r.place;
  }

  lemma StartServes(d: Drive, com: Com, st: State)
    requires !d.busy && AllRight(d.log) && OthersFresh(d)
    requires Once(d.(state := st), Own(d.log) + [Sent(com)]) || Twice(d.(state := st), Own(d.log) + [Sent(com)])
    ensures Asking(Start(d, com, st))
  {
    NoteServes(d, Sent(com));
  }

  /** A turn goes on serving, or leaves a command out. */
  ghost predicate Serves(t: Turned)
  {
    if t.Again? then Serving(t.d) else Asking(t.d)
  }

  /** The first turn for a buffer: its command is sent, it is refused, or a bad place is left behind. */
  ghost predicate Begins(d: Drive, t: Turned)
    requires d.queue != []
  {
    var p, b := PlaceOf(d.log), d.queue[0];
    if b.Special? && Bad(p) && d.state == StateOf(p) then t == Again(d.(state := NormalIdle))
    else
      match Command(p, b)
      case Some(com) => t == Return(Start(d, com, FirstWait(p, b)))
      case None => var r := Refused(p, b); t == Again(Dispose(d, r.buf, StateOf(r.place)))
  }

  lemma UserBegins(d: Drive)
    requires Begin(d) && d.queue[0].User?
    ensures Begins(d, Turn(d))
  {
  }

  lemma SpecialBegins(d: Drive)
    requires Begin(d) && d.queue[0].Special?
    ensures Begins(d, Turn(d))
  {
  }

  lemma BeginServes(d: Drive)
    requires Serving(d) && Begin(d)
    ensures Serves(Turn(d))
  {
    var p, b := PlaceOf(d.log), d.queue[0];
    if b.User? {
      UserBegins(d);
    } else {
      SpecialBegins(d);
    }
    if !(b.Special? && Bad(p) && d.state == StateOf(p)) {
      match Command(p, b)
      case Some(com) =>
        assert [] + [Sent(com)] == [Sent(com)];
        StartServes(d, com, FirstWait(p, b));
      case None => DisposeServes(d, Refused(p, b));
    }
  }

  /** A state that waits for a first answer, and what it makes of a good one and of a check condition. */
  lemma FirstAnswer(d: Drive)
    requires Fresh(d) && Command(PlaceOf(d.log), d.queue[0]).Some? && d.state == FirstWait(PlaceOf(d.log), d.queue[0])
    ensures var p, b := PlaceOf(d.log), d.queue[0];
            Turn(d) == Answer(d, StateOf(Completed(p, b).place), SenseWait(b)) && Completed(p, b).buf == b
  {
  }

  lemma OnceServes(d: Drive, h: seq<Event>)
    requires Serving(d) && Own(d.log) == h + [Said(d)] && Once(d, h)
    ensures Serves(Turn(d))
  {
    var p, b := PlaceOf(d.log), d.queue[0];
    FirstAnswer(d);
    if d.okay && d.status == 0 {
      DisposeServes(d, Completed(p, b));
    } else if d.okay && d.status == 2 {
      StartServes(d, Order(GetSense), SenseWait(b));
    } else {
      NoteRefused(d);
    }
  }

  lemma NoteRefused(d: Drive)
    requires Fresh(d) && Proper(PlaceOf(d.log), d.queue[0], Own(d.log))
    requires Served(PlaceOf(d.log), d.queue[0], Own(d.log)) == Result(Erring(d.queue[0], Plain), Lost)
    ensures Settled(d.(state := DoomMiscGetSense))
  {
  }

  /** What the sense bytes lead to. */
  ghost predicate Leads(d: Drive, t: Turned, r: Result)
    requires d.queue != []
  {
    t.Again?
    && (t.d == Dispose(d, r.buf, StateOf(r.place))
        || (exists b: Buf, st: State :: Stays(d, b, st, t, r)))
  }

  /** The head stays for one more turn, which disposes of it. */
  ghost predicate Stays(d: Drive, b: Buf, st: State, t: Turned, r: Result)
    requires d.queue != []
  {
    var d' := d.(state := st, queue := [b] + d.queue[1..]);
    t == Again(d') && Id(b) == Id(d.queue[0]) && Turn(d') == Again(Dispose(d', r.buf, StateOf(r.place)))
  }

  lemma UnmovedIsResidue(s: seq<nat>, b: Buf)
    requires b.User?
    ensures Residue(s, b) == Unmoved(s, b)
  {
  }

  lemma ReadExplained(d: Drive)
    requires Fresh(d) && d.state == NormalReadGetSense && d.queue[0].User? && d.queue[0].reading
    ensures Leads(d, Turn(d), Explained(d.queue[0], d.okay, d.status, d.sense))
  {
    var b, r := d.queue[0], Explained(d.queue[0], d.okay, d.status, d.sense);
    UnmovedIsResidue(d.sense, b);
    assert [b] + d.queue[1..] == d.queue;
    if SenseFailed(d) {
      assert Stays(d, b, DoomMiscGetSense, Turn(d), r);
    } else if Key(d) !in {0, 3, 8} {
      assert Stays(d, b, DoomIdle, Turn(d), r);
    } else if Residue(d.sense, b) >= b.count {
      assert Stays(d, b.(resid := Residue(d.sense, b)), Turn(d).d.state, Turn(d), r);
    }
  }

  lemma WriteExplained(d: Drive)
    requires Fresh(d) && d.state == EodWriteGetSense && d.queue[0].User? && !d.queue[0].reading
    ensures Leads(d, Turn(d), Explained(d.queue[0], d.okay, d.status, d.sense))
  {
    var b, r := d.queue[0], Explained(d.queue[0], d.okay, d.status, d.sense);
    UnmovedIsResidue(d.sense, b);
    assert [b] + d.queue[1..] == d.queue;
    if SenseFailed(d) {
      assert Stays(d, b, DoomMiscGetSense, Turn(d), r);
    } else if Key(d) !in {0, 13} {
      assert Stays(d, b, DoomIdle, Turn(d), r);
    } else if Residue(d.sense, b) >= b.count {
      assert Stays(d, b.(resid := Residue(d.sense, b)), Turn(d).d.state, Turn(d), r);
    }
  }

  lemma OrderExplained(d: Drive)
    requires Fresh(d) && d.queue[0].Special? && d.state == SenseWait(d.queue[0])
    ensures Leads(d, Turn(d), Explained(d.queue[0], d.okay, d.status, d.sense))
  {
    var b, r := d.queue[0], Explained(d.queue[0], d.okay, d.status, d.sense);
    assert [b] + d.queue[1..] == d.queue;
    if b.order == Seof && (SenseFailed(d) || Key(d) != 8) {
      assert Stays(d, b, DoomMiscGetSense, Turn(d), r);
    }
  }

  lemma TwiceServes(d: Drive, h: seq<Event>)
    requires Serving(d) && Own(d.log) == h + [Said(d)] && Twice(d, h)
    ensures Serves(Turn(d))
  {
    var p, b := PlaceOf(d.log), d.queue[0];
    var r := Explained(b, d.okay, d.status, d.sense);
    assert Proper(p, b, Own(d.log)) && Served(p, b, Own(d.log)) == r;
    if b.Special? {
      OrderExplained(d);
    } else if b.reading {
      ReadExplained(d);
    } else {
      WriteExplained(d);
    }
    LeadsServes(d, Turn(d), r);
  }

  lemma LeadsServes(d: Drive, t: Turned, r: Result)
    requires !d.busy && d.queue != [] && AllRight(d.log) && OthersFresh(d) && Leads(d, t, r)
    requires Proper(PlaceOf(d.log), Id(d.queue[0]), Own(d.log)) && r == Served(PlaceOf(d.log), Id(d.queue[0]), Own(d.log))
    ensures Serves(t)
  {
    if t.d == Dispose(d, r.buf, StateOf(r.place)) {
      DisposeServes(d, r);
    } else {
      var b: Buf, st: State :| Stays(d, b, st, t, r);
      assert Settled(t.d);
    }
  }

  lemma TurnServes(d: Drive)
    requires Serving(d) && d.queue != []
    ensures Serves(Turn(d))
  {
    if Begin(d) {
      BeginServes(d);
    } else if Settled(d) {
      DisposeServes(d, Served(PlaceOf(d.log), Id(d.queue[0]), Own(d.log)));
    } else {
      var h := Own(d.log)[..|Own(d.log)| - 1];
      if Once(d, h) {
        OnceServes(d, h);
      } else {
        TwiceServes(d, h);
      }
    }
  }

  // ----- runs

  ghost predicate Holding(d: Drive)
  {
    if d.busy then d.queue != [] && Asking(d) else d.queue == [] && Serving(d)
  }

  lemma {:induction false} MachineServes(d: Drive)
    requires Serving(d)
    ensures Holding(Machine(d))
    decreases |d.queue|, Rank(d.state)
  {
    if d.queue != [] {
      TurnDescends(d);
      TurnServes(d);
      if Turn(d).Again? {
        MachineServes(Turn(d).d);
      }
    }
  }

  lemma EnqueueServes(d: Drive, b: Buf)
    requires Holding(d) && b == Id(b)
    ensures Holding(Enqueue(d, b))
  {
    NoteServes(d, Queued(b));
    if d.queue == [] {
      assert Begin(Appended(d, b));
      MachineServes(Appended(d, b));
    }
  }

  lemma InterruptServes(d: Drive, okay: bool, status: nat, sense: seq<nat>)
    requires Holding(d) && d.busy
    ensures Holding(Interrupt(d, okay, status, sense))
  {
    NoteServes(d, Answered(okay, status, sense));
    var d' := Note(d, Answered(okay, status, sense)).(okay := okay, status := status, sense := sense, busy := false);
    assert Own(d'.log)[..|Own(d'.log)| - 1] == Own(d.log);
    MachineServes(d');
  }

  lemma {:induction false} RunServes(d: Drive, ops: seq<Op>, d': Drive)
    requires Holding(d) && Run(d, ops, d')
    ensures Holding(d')
    decreases |ops|
  {
    if ops != [] {
      match ops[0] {
        case Queue(b) => EnqueueServes(d, b);
        case Irq(okay, status, sense) => InterruptServes(d, okay, status, sense);
        case Reopen => NoteServes(d, Opened);
      }
      RunServes(Step(d, ops[0]), ops[1..], d');
    }
  }

  /** Over any run, for every buffer that is disposed of, the commands sent are those that it calls for at the
      place where the tape is, and it comes back with what the reference makes of it. */
  lemma EveryBufferServed(ops: seq<Op>, d: Drive, i: nat)
    requires Run(Initial(), ops, d) && i < |d.log| && d.log[i].Disposed?
    ensures var p, b, h := PlaceOf(d.log[..i]), Id(d.log[i].buf), Own(d.log[..i]);
            Proper(p, b, h) && d.log[i].buf == Served(p, b, h).buf
  {
    RunServes(Initial(), ops, d);
    assert Right(d.log, i);
  }

  /** A user's buffer that comes back without error, with something moved and not merely cleared, had its own
      command.  If that went well nothing is left; otherwise the sense bytes say how much.  Any other buffer
      has an error, or nothing of it was moved, or it is the zeros that follow a media error. */
  lemma MovedMeans(ops: seq<Op>, d: Drive, i: nat)
    requires Run(Initial(), ops, d) && i < |d.log| && d.log[i].Disposed? && d.log[i].buf.User?
    requires var b := d.log[i].buf; b.error == Fine && !b.cleared && b.resid < b.count
    ensures var b, h := d.log[i].buf, Own(d.log[..i]);
            && |h| >= 2 && h[0] == Sent(Io(b.reading, b.count)) && h[1].Answered? && h[1].okay
            && if h[1].status == 0 then |h| == 2 && b.resid == 0
               else
                 && h[1].status == 2 && |h| == 4 && h[2] == Sent(Order(GetSense)) && h[3].Answered?
                 && h[3].okay && h[3].status == 0
                 && var s := h[3].sense;
                    && (SenseKey(s) in if b.reading then {0, 3, 8} else {0, 13})
                    && var n := if |s| == 14 then (s[3] * 0x1000000 + s[4] * 0x10000 + s[5] * 0x100 + s[6]) * 512 % 0x1_0000_0000 else 0;
                       b.resid == if |s| == 14 && s[0] == 0xF0 && n <= b.count then n else 0
  {
    EveryBufferServed(ops, d, i);
  }

  /** A user's buffer for which no command is sent has an error or nothing of it was moved, or it is the third
      one after a media error, which is cleared.  A read at the end of data, and any buffer at the end of the
      medium, finds no space; where the driver is lost there is always an error. */
  lemma RefusedMeans(ops: seq<Op>, d: Drive, i: nat)
    requires Run(Initial(), ops, d) && i < |d.log| && d.log[i].Disposed? && d.log[i].buf.User?
    ensures var b, p := d.log[i].buf, PlaceOf(d.log[..i]);
            && (Own(d.log[..i]) == [] <==> p != Ready && !(p == EndOfData && !b.reading))
            && (Own(d.log[..i]) == [] ==>
                  && (p == EndOfFile <==> b.error == Fine && b.resid == b.count && !b.cleared)
                  && (p == Lost || p == Bad1 || p == Bad2 <==> b.error == Plain)
                  && (p == EndOfData || p == EndOfMedium <==> b.error == NoSpace)
                  && (p == Bad3 <==> b.cleared))
  {
    EveryBufferServed(ops, d, i);
  }

  /** Where the next buffer finds the tape, after one that had a command. */
  lemma PlaceMeans(ops: seq<Op>, d: Drive, i: nat)
    requires Run(Initial(), ops, d) && i < |d.log| && d.log[i].Disposed? && Own(d.log[..i]) != []
    ensures var b, h, p := d.log[i].buf, Own(d.log[..i]), PlaceOf(d.log[..i + 1]);
            && (|h| == 4 ==> h[3].Answered?)
            && (b.error == Plain && p != Bad2 ==> p == Lost)
            && (b.User? && b.error == Fine && |h| == 2 ==> p == if b.reading then Ready else EndOfData)
            && (b.User? && b.error != Plain && |h| == 4 && b.reading ==>
                  p == if SenseKey(h[3].sense) == 0 then EndOfFile else if SenseKey(h[3].sense) == 8 then EndOfData else Bad1)
            && (b.User? && b.error != Plain && |h| == 4 && !b.reading ==> p == EndOfMedium)
  {
    EveryBufferServed(ops, d, i);
    assert d.log[..i + 1][..i] == d.log[..i];
  }
}
