/**
 The two parties of the kernel debugger's protocol as they are written, each proved to do what Kdb says.
 */
module KdbParties {

  import opened Basics
  import opened Kdb

  /** rkdb, and the part of the Ethernet driver that sends its replies. */
  class TargetSide {
    var lastTransmitId: nat
    ghost var lastN: nat
    var wstopId: nat
    var lastResponse: Reply
    var machine: Machine

    ghost function View(): (t: Target)
      reads this
    {
      Target(lastTransmitId, lastN, wstopId, lastResponse, machine)
    }

    constructor (last: nat, m: Machine)
      ensures View() == Target(last, 0, 0, Reply(last, 0, Done), m)
    {
      lastTransmitId, lastN, wstopId, lastResponse, machine := last, 0, 0, Reply(last, 0, Done), m;
    }

    /** Send_KDB_Packet: a frame, if the transmitter has a free buffer. */
    method SendPacket(response: Reply, room: bool) returns (frame: Option<Reply>)
      modifies this`lastTransmitId, this`lastN
      ensures frame == if room then Some(response) else None
      ensures lastTransmitId == response.id && lastN == response.n
    {
      frame := if room then Some(response) else None;
      lastTransmitId := response.id;
      lastN := response.n;
    }

    /** Handle_KDB_Packet */
    method HandlePacket(request: Request, room: bool) returns (runmode: bool, frame: Option<Reply>)
      modifies this
      ensures var h := Handle(old(View()), request);
              View() == h.t && frame == if room then h.reply else None
      ensures runmode <==> request.id != old(lastTransmitId) && old(machine.stopped) && request.command.Run?
    {
      runmode, frame := false, None;
      if request.id != lastTransmitId {
        wstopId := 0;
        var e := Execute(machine, request.command);
        runmode := machine.stopped && request.command.Run?;
        machine := e.m;
        lastResponse := Reply(request.id, request.n, Done);
        if e.answer.None? {
          wstopId := request.id;
          return;
        }
        lastResponse := lastResponse.(answer := e.answer.value);
      }
      frame := SendPacket(lastResponse, room);
    }

    /** kdebug, up to its loop. */
    method StopMachine(cause: Cause, room: bool) returns (frame: Option<Reply>)
      modifies this
      ensures var h := Stopped(old(View()), cause);
              View() == h.t && frame == if room then h.reply else None
    {
      frame := None;
      if machine.stopPosted {
        machine := machine.(stopPosted := false);
      } else {
        match cause
        case Trace =>
          if machine.tracing {
            machine := machine.(tracing := false, regs := machine.regs.(ipl := machine.savedIpl));
          }
          machine := machine.(regs := machine.regs.(trace := 0));
        case Breakpoint => machine := machine.(regs := machine.regs.(pc := machine.regs.pc - 2));
        case _ =>
      }
      machine := machine.(stopped := true);
      if wstopId != 0 {
        lastResponse := Reply(wstopId, lastResponse.n, Done);
        frame := SendPacket(lastResponse, room);
        wstopId := 0;
      }
    }

    /** kdebug's loop: packets are handled until one of them makes the machine run. */
    method Debug(requests: seq<Request>, room: bool) returns (used: nat)
      modifies this
      ensures used <= |requests| && View() == HandleAll(old(View()), requests[..used])
      ensures used < |requests| ==> !machine.stopped
    {
      used := 0;
      assert requests[..0] == [];
      var runmode := false;
      while used < |requests| && !runmode
        invariant used <= |requests| && View() == HandleAll(old(View()), requests[..used])
        invariant runmode ==> !machine.stopped
      {
        assert requests[..used + 1][..used] == requests[..used];
        var frame;
        runmode, frame := HandlePacket(requests[used], room);
        used := used + 1;
      }
    }
  }

  function HandleAll(t: Target, requests: seq<Request>): (t': Target)
  {
    if requests == [] then t
    else Handle(HandleAll(t, requests[..|requests| - 1]), requests[|requests| - 1]).t
  }

  /** rkunit and the state of send_kdb_packet between its sleeps. */
  class DebuggerSide {
    var id: nat
    var request: Request
    var waiting: bool
    var response: Option<Reply>

    /** What of the system this is. */
    ghost predicate Is(s: System)
      reads this
    {
      s.id == id && s.cur == request && s.waiting == waiting && s.arrived == response
    }

    constructor (first: nat, last: nat, m: Machine)
      ensures Is(Opened(first, last, m))
    {
      id, request, waiting, response := (first + 0xFFFF_FFFF) % 0x1_0000_0000, Request(last, 0, Echo), false, None;
    }

    /** send_kdb_packet, up to its first sleep: the message it puts on the link. */
    method BeginSend(command: Command, ghost s: System) returns (message: Request)
      requires Is(s) && !s.waiting
      modifies this
      ensures var s' := Next(s, Begin(command)); Is(s') && s'.toTarget == s.toTarget + [message]
    {
      id := (id + 1) % 0x1_0000_0000;
      request := Request(id, request.n + 1, command);
      waiting := true;
      response := None;
      message := request;
    }

    /** send_kdb_packet after a sleep: it returns with a response or without one, or sends again. */
    method AfterSleep(copied: bool, ghost s: System) returns (message: Option<Request>, result: Option<Reply>)
      requires Is(s) && s.waiting
      modifies this
      ensures var s' := Next(s, Wake(copied));
              Is(s')
              && s'.toTarget == (if message.Some? then s.toTarget + [message.value] else s.toTarget)
              && s'.accepted == (if result.Some? then s.accepted + [Acceptance(request.n, result.value.answer)] else s.accepted)
    {
      message, result := None, None;
      if response.None? && !copied {
        waiting := false;
      } else if response.Some? && response.value.id == request.id {
        waiting := false;
        result := response;
      } else {
        response := None;
        message := Some(request);
      }
    }

    /** rkdrput */
    method Receive(reply: Reply, memory: bool, ghost s: System)
      requires Is(s) && s.toDebugger != [] && reply == s.toDebugger[0]
      modifies this`response
      ensures Is(Next(s, ReplyArrives(memory)))
    {
      response := if memory then Some(reply) else None;
    }
  }
}
