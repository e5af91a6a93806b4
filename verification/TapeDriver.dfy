/**
 The tape driver as it is written: fields changed in place and a loop that runs until a command is out or
 the queue is empty.  It is proved to do what Tape says.
 */
module TapeDriver {

  import opened Tape
  import T = Tape

  class Unit {
    var state: State
    var queue: seq<Buf>
    var okay: bool
    var status: nat
    var sense: seq<nat>
    ghost var busy: bool
    ghost var log: seq<Event>

    ghost function View(): (d: Drive)
      reads this
    {
      Drive(state, queue, okay, status, sense, busy, log)
    }

    constructor ()
      ensures View() == Initial()
    {
      state, queue, okay, status, sense, busy, log := NormalIdle, [], false, 0, [], false, [];
    }

    /** queue */
    method Queue(b: Buf)
      modifies this
      ensures View() == Enqueue(old(View()), b)
    {
      var first := queue == [];
      log := log + [Queued(b)];
      queue := queue + [b];
      if first {
        Machine();
      }
    }

    /** ihandle, when the command is done and has left its okay, status and sense bytes. */
    method Interrupt(okay': bool, status': nat, sense': seq<nat>)
      modifies this
      ensures View() == T.Interrupt(old(View()), okay', status', sense')
    {
      okay, status, sense, busy := okay', status', sense', false;
      log := log + [Answered(okay', status', sense')];
      Machine();
    }

    /** machine */
    method Machine()
      modifies this
      ensures View() == T.Machine(old(View()))
    {
      ghost var before := View();
      while queue != []
        invariant T.Machine(View()) == T.Machine(before)
        decreases |queue|, Rank(state)
      {
        TurnDescends(View());
        var returns' := OneTurn();
        if returns' {
          return;
        }
      }
    }

    /** The switch in machine. */
    method OneTurn() returns (out: bool)
      requires queue != []
      modifies this
      ensures Turn(old(View())) == if out then Return(View()) else Again(View())
    {
      var bp := queue[0];
      out := false;
      match state
      case NormalIdle => out := NormalCase();
      case NormalRead => out := AnswerCase(NormalIdle, NormalReadGetSense);
      case NormalReadGetSense => ReadSenseCase();
      case BadRead1 => BadCase(BadRead2);
      case BadRead2 => BadCase(BadReadNuls);
      case BadReadNuls =>
        if bp.User? {
          queue := [bp.(cleared := true, resid := NulsResidue(bp.count))] + queue[1..];
          Dispose(NormalIdle);
        }
        state := NormalIdle;
      case NormalSpecial => out := AnswerCase(NormalIdle, DoomMiscGetSense);
      case NormalSeof => out := AnswerCase(EofIdle, NormalSeofGetSense);
      case NormalSeofGetSense =>
        var key := SenseKey();
        if okay && status == 0 && key == 8 {
          Dispose(EodIdle);
        } else {
          state := DoomMiscGetSense;
        }
      case EodIdle => out := EodCase();
      case EodWrite => out := AnswerCase(EodIdle, EodWriteGetSense);
      case EodWriteGetSense => WriteSenseCase();
      case EodSpecial => out := AnswerCase(EodIdle, DoomMiscGetSense);
      case EomIdle => out := EomCase();
      case EomSpecial => out := AnswerCase(EomIdle, DoomMiscGetSense);
      case EofIdle => out := EofCase();
      case EofSpecial => out := AnswerCase(EofIdle, DoomMiscGetSense);
      case DoomIdle => out := DoomCase();
      case DoomSpecial => out := AnswerCase(DoomIdle, DoomMiscGetSense);
      case DoomMiscGetSense =>
        SetError(Plain);
        Dispose(DoomIdle);
    }

    /** dispose */
    method Dispose(st: State)
      requires queue != []
      modifies this`queue, this`state, this`log
      ensures View() == T.Dispose(old(View()), old(queue[0]), st)
    {
      log := log + [Disposed(queue[0])];
      queue := queue[1..];
      state := st;
    }

    /** start */
    method Start(com: Com, st: State)
      modifies this`state, this`busy, this`log
      ensures View() == T.Start(old(View()), com, st)
    {
      state := st;
      busy := true;
      log := log + [Sent(com)];
    }

    /** B_ERROR, and perhaps ENOSPC, on the head. */
    method SetError(e: Error)
      requires queue != []
      modifies this`queue
      ensures queue == [Failing(old(queue[0]), e)] + old(queue[1..])
    {
      queue := [Failing(queue[0], e)] + queue[1..];
    }

    method AnswerCase(good: State, check: State) returns (out: bool)
      requires queue != []
      modifies this
      ensures out == (Answer(old(View()), good, check).Return?)
      ensures View() == Answer(old(View()), good, check).d
    {
      out := false;
      if okay && status == 2 {
        Start(Order(GetSense), check);
        out := true;
      } else if okay && status == 0 {
        Dispose(good);
      } else {
        state := DoomMiscGetSense;
      }
    }

    method SenseKey() returns (key: nat)
      ensures key == Key(View())
    {
      key := if |sense| == SENSE_SIZE then sense[2] % 16 else 0;
    }

    /** setresidue, and the decision that follows it. */
    method PartlyCase(st: State)
      requires queue != []
      modifies this
      ensures View() == Partly(old(View()), st)
    {
      var bp := queue[0];
      if bp.User? {
        bp := bp.(resid := Residue(sense, bp));
        queue := [bp] + queue[1..];
        if bp.resid < bp.count {
          Dispose(st);
        }
      }
      state := st;
    }

    method ReadSenseCase()
      requires queue != []
      modifies this
      ensures ReadSenseTurn(old(View())) == Again(View())
    {
      if !okay || status != 0 {
        state := DoomMiscGetSense;
        return;
      }
      var key := SenseKey();
      match key
      case 0 => PartlyCase(EofIdle);
      case 8 => PartlyCase(EodIdle);
      case 3 => PartlyCase(BadRead1);
      case _ => state := DoomIdle;
    }

    method WriteSenseCase()
      requires queue != []
      modifies this
      ensures WriteSenseTurn(old(View())) == Again(View())
    {
      if !okay || status != 0 {
        state := DoomMiscGetSense;
        return;
      }
      var key := SenseKey();
      if key == 0 || key == 0xD {
        PartlyCase(EomIdle);
      } else {
        state := DoomIdle;
      }
    }

    method BadCase(next: State)
      requires queue != [] && ((state == BadRead1 && next == BadRead2) || (state == BadRead2 && next == BadReadNuls))
      modifies this
      ensures Turn(old(View())) == Again(View())
    {
      if queue[0].Special? {
        state := NormalIdle;
      } else {
        SetError(Plain);
        Dispose(next);
      }
    }

    method NormalCase() returns (out: bool)
      requires queue != []
      modifies this
      ensures NormalTurn(old(View())) == if out then Return(View()) else Again(View())
    {
      out := true;
      match queue[0]
      case User(_, reading, count, _, _, _) =>
        if reading {
          Start(Io(true, count), NormalRead);
        } else {
          Start(Io(false, count), EodWrite);
        }
      case Special(order, _) =>
        if order in [Init120, Init150, GetSense, WriteEof] {
          Start(Order(order), NormalSpecial);
        } else if order == Rewind {
          Start(Order(order), DoomSpecial);
        } else if order == Append {
          Start(Order(order), EodSpecial);
        } else if order == Seof {
          Start(Order(order), NormalSeof);
        } else {
          Dispose(NormalIdle);
          out := false;
        }
    }

    method EodCase() returns (out: bool)
      requires queue != []
      modifies this
      ensures EodTurn(old(View())) == if out then Return(View()) else Again(View())
    {
      out := true;
      match queue[0]
      case User(_, reading, count, _, _, _) =>
        if reading {
          SetError(NoSpace);
          Dispose(EodIdle);
          out := false;
        } else {
          Start(Io(false, count), EodWrite);
        }
      case Special(order, _) =>
        if order == Rewind {
          Start(Order(order), DoomSpecial);
        } else if order in [GetSense, WriteEof] {
          Start(Order(order), EodSpecial);
        } else {
          Dispose(EodIdle);
          out := false;
        }
    }

    method EomCase() returns (out: bool)
      requires queue != []
      modifies this
      ensures EomTurn(old(View())) == if out then Return(View()) else Again(View())
    {
      out := true;
      match queue[0]
      case User(_, _, _, _, _, _) =>
        SetError(NoSpace);
        Dispose(EomIdle);
        out := false;
      case Special(order, _) =>
        if order == Rewind {
          Start(Order(order), DoomSpecial);
        } else if order == GetSense {
          Start(Order(order), EomSpecial);
        } else {
          Dispose(EomIdle);
          out := false;
        }
    }

    method EofCase() returns (out: bool)
      requires queue != []
      modifies this
      ensures EofTurn(old(View())) == if out then Return(View()) else Again(View())
    {
      out := true;
      var bp := queue[0];
      match bp
      case User(_, _, _, _, _, _) =>
        queue := [bp.(resid := bp.count)] + queue[1..];
        Dispose(EofIdle);
        out := false;
      case Special(order, _) =>
        if order == Rewind {
          Start(Order(order), DoomSpecial);
        } else if order == GetSense {
          Start(Order(order), EofSpecial);
        } else {
          Dispose(if order == Close then NormalIdle else EofIdle);
          out := false;
        }
    }

    method DoomCase() returns (out: bool)
      requires queue != []
      modifies this
      ensures DoomTurn(old(View())) == if out then Return(View()) else Again(View())
    {
      var bp := queue[0];
      if bp.Special? && (bp.order == Rewind || bp.order == GetSense) {
        Start(Order(bp.order), DoomSpecial);
        out := true;
      } else {
        SetError(Plain);
        Dispose(DoomIdle);
        out := false;
      }
    }
  }
}
