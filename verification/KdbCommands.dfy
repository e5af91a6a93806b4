/**
 What the commands of the kernel debugger do to the machine, and what a debugger may conclude from the replies
 that it accepts.
 */
module KdbCommands {

  import opened Basics
  import opened Kdb

  function ByteAt(memory: map<int, int>, a: int): (b: int)
  {
    if a in memory then memory[a] else 0
  }

  lemma {:induction false} PokeAt(memory: map<int, int>, seek: int, data: seq<int>, a: int)
    ensures a in Poke(memory, seek, data) <==> a in memory || seek <= a < seek + |data|
    ensures ByteAt(Poke(memory, seek, data), a) == if seek <= a < seek + |data| then data[a - seek] else ByteAt(memory, a)
    decreases |data|
  {
    if data != [] {
      PokeAt(memory[seek := data[0]], seek + 1, data[1..], a);
    }
  }

  /** A write puts its bytes where it says, and changes no other byte and nothing else of the machine. */
  lemma WriteWrites(m: Machine, seek: int, data: seq<int>, a: int)
    ensures var e := Execute(m, Write(seek, data));
            && e.answer == Some(Count(|data|)) && e.m.(memory := m.memory) == m
            && (a in e.m.memory <==> a in m.memory || seek <= a < seek + |data|)
            && ByteAt(e.m.memory, a) == if seek <= a < seek + |data| then data[a - seek] else ByteAt(m.memory, a)
  {
    PokeAt(m.memory, seek, data, a);
  }

  /** A read gives the bytes from where it says, four at most, and changes nothing. */
  lemma ReadReads(m: Machine, seek: int, count: nat)
    ensures var e := Execute(m, Read(seek, count));
            && e.m == m && e.answer.Some? && e.answer.value.Data?
            && var bytes := e.answer.value.bytes;
               && |bytes| == (if count < 4 then count else 4)
               && forall i: nat :: i < |bytes| ==> bytes[i] == ByteAt(m.memory, seek + i)
  {
  }

  /** What has been written is read back. */
  lemma ReadAfterWrite(m: Machine, seek: int, data: seq<int>, from: int, count: nat)
    requires count <= 4 && seek <= from && from + count <= seek + |data|
    ensures Execute(Execute(m, Write(seek, data)).m, Read(from, count)).answer == Some(Data(data[from - seek..from - seek + count]))
  {
    var m' := Execute(m, Write(seek, data)).m;
    ReadReads(m', from, count);
    forall a: int | from <= a < from + count
      ensures ByteAt(m'.memory, a) == data[a - seek]
    {
      WriteWrites(m, seek, data, a);
    }
    var bytes, part := Peek(m'.memory, from, count), data[from - seek..from - seek + count];
    forall i: nat | i < count
      ensures bytes[i] == part[i]
    {
      assert bytes[i] == ByteAt(m'.memory, from + i);
    }
    assert bytes == part;
  }

  /** Registers that have been set are got back; the trace bits and the interrupt level cannot be set. */
  lemma RegistersRoundTrip(m: Machine, general: seq<int>, pc: int)
    ensures var m' := Execute(m, SetRegs(general, pc)).m;
            && Execute(m, SetRegs(general, pc)).answer == Some(Done) && m'.(regs := m.regs) == m
            && Execute(m', GetRegs) == Effect(m', Some(RegsAre(Registers(general, pc, m.regs.trace, m.regs.ipl))))
  {
  }

  /** Run starts a machine that is stopped, at a new address if one is given; one that runs is left alone. */
  lemma RunRuns(m: Machine, args: Option<RunArgs>)
    ensures var e := Execute(m, Run(args));
            if !m.stopped then e == Effect(m, Some(Failed(Busy)))
            else
              && e.answer == Some(Done) && !e.m.stopped
              && e.m.memory == m.memory && e.m.stopPosted == m.stopPosted && e.m.regs.general == m.regs.general
              && e.m.regs.pc == (if args.Some? && args.value.pc.Some? then args.value.pc.value else m.regs.pc)
              && if args.Some? && args.value.step
                 then e.m.tracing && e.m.savedIpl == m.regs.ipl && e.m.regs.trace == 2 && e.m.regs.ipl == 7
                 else e.m.(stopped := true, regs := m.regs) == m && e.m.regs.trace == m.regs.trace && e.m.regs.ipl == m.regs.ipl
  {
  }

  /** What a stop does: the machine is stopped; a posted stop is taken back and is then the whole reason; otherwise the
      trace trap ends tracing, and a breakpoint's instruction is to be executed again. */
  lemma HaltHalts(m: Machine, cause: Cause)
    ensures var m' := Halt(m, cause);
            && m'.stopped && !m'.stopPosted && m'.memory == m.memory && m'.regs.general == m.regs.general
            && (m'.regs.pc == if cause == Breakpoint && !m.stopPosted then m.regs.pc - 2 else m.regs.pc)
            && if cause == Trace && !m.stopPosted
               then !m'.tracing && m'.regs.trace == 0 && m'.regs.ipl == if m.tracing then m.savedIpl else m.regs.ipl
               else m'.tracing == m.tracing && m'.regs.trace == m.regs.trace && m'.regs.ipl == m.regs.ipl
  {
  }

  /** A machine that is told to make a single step, perhaps to stop as well, and stops. */
  function Stepped(m: Machine, pc: Option<int>, posted: bool, cause: Cause): (m': Machine)
  {
    var m1 := Execute(m, Run(Some(RunArgs(pc, true)))).m;
    Halt(if posted then Execute(m1, Stop).m else m1, cause)
  }

  /** After a single step interrupts are as they were before, and the machine is no longer traced, if and only if
      it was the trace trap that stopped the machine and no stop had been posted. */
  lemma StepIsUndone(m: Machine, pc: Option<int>, posted: bool, cause: Cause)
    requires m.stopped
    ensures var m' := Stepped(m, pc, posted, cause);
            && m'.stopped
            && (m'.regs.ipl == m.regs.ipl <==> m.regs.ipl == 7 || (cause == Trace && !posted && !m.stopPosted))
            && (!m'.tracing && m'.regs.trace == 0 <==> cause == Trace && !posted && !m.stopPosted)
  {
  }

  /** What a command may change. */
  lemma CommandsKeep(m: Machine, c: Command)
    ensures var m' := Execute(m, c).m;
            && (!c.Write? ==> m'.memory == m.memory)
            && (!c.Run? && !c.SetRegs? ==> m'.regs == m.regs)
            && (m'.stopped != m.stopped <==> c.Run? && m.stopped)
            && (m'.stopPosted != m.stopPosted <==> c.Stop? && !m.stopped && !m.stopPosted)
            && (!c.Run? ==> m'.tracing == m.tracing && m'.savedIpl == m.savedIpl)
  {
  }

  /** What a command is answered: nothing for the time being, if it waits for a machine that runs; an error if it
      is not known, or not possible; and what it asks for. */
  lemma CommandsAnswer(m: Machine, c: Command)
    ensures var a := Execute(m, c).answer;
            && (a == None <==> (c == Stop || c == WaitStop) && !m.stopped)
            && (a == Some(Failed(Busy)) <==> c.Run? && !m.stopped)
            && (a == Some(Failed(NotSupported)) <==> c == FaultSets)
            && (a == Some(Failed(Invalid)) <==> c == Unknown || (c.GetMap? && (c.index < 0 || c.index > 2)))
            && (c == Status ==> a == Some(StatusIs(m.stopped, m.stopPosted, if m.stopped then Some(m.regs) else None)))
            && (c == CountMaps ==> a == Some(Count(3)))
            && (c.GetMap? && 0 <= c.index <= 2 ==> a == Some(Map(c.index)))
            && (c == GetRegs ==> a == Some(RegsAre(m.regs)))
            && (c in {Echo, GetFloat, SetFloat} ==> a == Some(Done))
            && (c in {Stop, WaitStop} && m.stopped ==> a == Some(Done))
  {
  }

  // ----- memory over whole sessions

  /** The byte that was last written to a, by the writes among what has been done; or what was there. */
  function LastWritten(memory: map<int, int>, deeds: seq<Deed>, a: int): (b: int)
  {
    if deeds == [] then ByteAt(memory, a)
    else
      var d, front := deeds[|deeds| - 1], deeds[..|deeds| - 1];
      if d.Did? && d.command.Write? && d.command.seek <= a < d.command.seek + |d.command.data|
      then d.command.data[a - d.command.seek]
      else LastWritten(memory, front, a)
  }

  lemma {:induction false} ReplayWrites(m: Machine, deeds: seq<Deed>, a: int)
    requires forall k: nat :: k < |deeds| && deeds[k].Posted? ==> !deeds[k].command.Write?
    ensures ByteAt(Replay(m, deeds).memory, a) == LastWritten(m.memory, deeds, a)
  {
    if deeds != [] {
      var d, front := deeds[|deeds| - 1], deeds[..|deeds| - 1];
      ReplayWrites(m, front, a);
      var m1 := Replay(m, front);
      if !d.Halted? {
        if d.command.Write? {
          WriteWrites(m1, d.command.seek, d.command.data, a);
        } else {
          CommandsKeep(m1, d.command);
        }
      }
    }
  }

  /** Only requests that wait for a stop are posted. */
  ghost predicate PostedWaits(s: System)
  {
    forall k: nat :: k < |s.deeds| && s.deeds[k].Posted? ==> s.deeds[k].command in {Stop, WaitStop}
  }

  lemma StepPosts(s: System, step: Step)
    requires PostedWaits(s) && Enabled(s, step)
    ensures PostedWaits(Next(s, step))
  {
    if step.RequestArrives? {
      CommandsAnswer(s.t.m, s.toTarget[0].command);
    }
  }

  lemma {:induction false} RunPosts(s: System, steps: seq<Step>, s': System)
    requires PostedWaits(s) && Runs(s, steps, s')
    ensures PostedWaits(s')
    decreases |steps|
  {
    if steps != [] {
      StepPosts(s, steps[0]);
      RunPosts(Next(s, steps[0]), steps[1..], s');
    }
  }

  /** Over any session, whatever is lost and repeated, each byte of the machine's memory is the one that the last
      write done to it put there. */
  lemma MemoryIsLastWritten(first: nat, last: nat, m: Machine, steps: seq<Step>, s: System, k: nat, a: int)
    requires Session(first, last, m, steps, s) && k <= |s.deeds|
    ensures ByteAt(Replay(m, s.deeds[..k]).memory, a) == LastWritten(m.memory, s.deeds[..k], a)
    ensures k == |s.deeds| ==> ByteAt(s.t.m.memory, a) == LastWritten(m.memory, s.deeds, a)
  {
    RunPosts(Opened(first, last, m), steps, s);
    assert forall j: nat :: j < k && s.deeds[..k][j].Posted? ==> !s.deeds[..k][j].command.Write? by {
      assert forall j: nat :: j < k ==> s.deeds[..k][j] == s.deeds[j];
    }
    ReplayWrites(m, s.deeds[..k], a);
    DoneAtMostOnce(first, last, m, steps, s);
    assert s.deeds[..|s.deeds|] == s.deeds;
  }

  /** The reply to a read that was done as deed k is what had been written last by then. */
  ghost predicate ShowsMemory(s: System, m: Machine, n: nat, answer: Answer, k: nat)
    requires n < |s.commands| && s.commands[n].Read? && k <= |s.deeds|
  {
    var c := s.commands[n];
    answer.Data? && |answer.bytes| == (if c.count < 4 then c.count else 4)
    && forall i: nat :: i < |answer.bytes| ==> answer.bytes[i] == LastWritten(m.memory, s.deeds[..k], c.seek + i)
  }

  /** When the debugger accepts the reply to a read, the request was done once, and the reply shows the bytes that had
      been written last when it was. */
  lemma AcceptedReadIsRight(first: nat, last: nat, m: Machine, steps: seq<Step>, s: System, i: nat)
    requires Session(first, last, m, steps, s) && i < |s.accepted| && s.accepted[i].n > 0
    requires s.accepted[i].n < |s.commands| && s.commands[s.accepted[i].n].Read?
    ensures var a := s.accepted[i];
            exists k: nat :: k < |s.deeds| && s.deeds[k] == Did(a.n, s.commands[a.n]) && ShowsMemory(s, m, a.n, a.answer, k)
  {
    AcceptedIsComputed(first, last, m, steps, s, i);
    RunPosts(Opened(first, last, m), steps, s);
    var a := s.accepted[i];
    var k := ReadIsDone(s, m, a.n);
    DoneShows(first, last, m, steps, s, a.n, a.answer, k);
  }

  lemma ReadIsDone(s: System, m: Machine, n: nat) returns (k: nat)
    requires PostedWaits(s) && n in s.computed && n < |s.commands| && s.commands[n].Read? && Explained(s, m, n)
    ensures k < |s.deeds| && s.deeds[k] == Did(n, s.commands[n])
    ensures Execute(Replay(m, s.deeds[..k]), s.commands[n]).answer == Some(s.computed[n])
  {
    assert forall j: nat :: j < |s.deeds| ==> s.deeds[j] != Posted(n, s.commands[n]);
    k :| k < |s.deeds| && s.deeds[k] == Did(n, s.commands[n])
         && Execute(Replay(m, s.deeds[..k]), s.commands[n]).answer == Some(s.computed[n]);
  }

  lemma DoneShows(first: nat, last: nat, m: Machine, steps: seq<Step>, s: System, n: nat, answer: Answer, k: nat)
    requires Session(first, last, m, steps, s) && n < |s.commands| && s.commands[n].Read? && k < |s.deeds|
    requires Execute(Replay(m, s.deeds[..k]), s.commands[n]).answer == Some(answer)
    ensures ShowsMemory(s, m, n, answer, k)
  {
    var c := s.commands[n];
    ReadReads(Replay(m, s.deeds[..k]), c.seek, c.count);
    forall j: nat | j < |answer.bytes|
      ensures answer.bytes[j] == LastWritten(m.memory, s.deeds[..k], c.seek + j)
    {
      MemoryIsLastWritten(first, last, m, steps, s, k, c.seek + j);
    }
  }

  // ----- rounds in which nothing is lost

  /** Nothing is under way, and the target does not remember the next id. */
  ghost predicate Ready(s: System)
  {
    !s.waiting && s.toTarget == [] && s.toDebugger == [] && NextId(s.id) != s.t.lastId
  }

  /** A request that can be answered at once is done, and its answer accepted, if neither message is lost. */
  lemma RoundIsDone(s: System, c: Command, copied: bool)
    requires Ready(s) && Execute(s.t.m, c).answer.Some?
    ensures var s1 := Next(Next(s, Begin(c)), RequestArrives(true));
            Enabled(s1, ReplyArrives(true)) && var s2 := Next(s1, ReplyArrives(true));
            Enabled(s2, Wake(copied)) && var s' := Next(s2, Wake(copied));
            && !s'.waiting && s'.t.m == Execute(s.t.m, c).m
            && s'.deeds == s.deeds + [Did(s.cur.n + 1, c)]
            && s'.accepted == s.accepted + [Acceptance(s.cur.n + 1, Execute(s.t.m, c).answer.value)]
  {
    var r := Request(NextId(s.id), s.cur.n + 1, c);
    assert Next(s, Begin(c)).toTarget == [r];
    var s1 := Next(Next(s, Begin(c)), RequestArrives(true));
    assert s1.toDebugger == [Reply(r.id, r.n, Execute(s.t.m, c).answer.value)];
  }

  /** A request to stop, or to wait for a stop, of a machine that runs is answered when the machine stops. */
  lemma StopIsAnswered(s: System, c: Command, cause: Cause, copied: bool)
    requires Ready(s) && c in {Stop, WaitStop} && !s.t.m.stopped && (cause == Tick ==> c == Stop || s.t.m.stopPosted)
    requires NextId(s.id) != 0
    ensures var s1 := Next(Next(s, Begin(c)), RequestArrives(true));
            s1.toDebugger == [] && (c == Stop ==> s1.t.m.stopPosted)
            && Enabled(s1, MachineStops(cause, true)) && var s2 := Next(s1, MachineStops(cause, true));
            Enabled(s2, ReplyArrives(true)) && var s3 := Next(s2, ReplyArrives(true));
            Enabled(s3, Wake(copied)) && var s' := Next(s3, Wake(copied));
            && !s'.waiting && s'.t.m.stopped && !s'.t.m.stopPosted
            && s'.accepted == s.accepted + [Acceptance(s.cur.n + 1, Done)]
  {
    var r := Request(NextId(s.id), s.cur.n + 1, c);
    assert Next(s, Begin(c)).toTarget == [r];
    var s1 := Next(Next(s, Begin(c)), RequestArrives(true));
    var s2 := Next(s1, MachineStops(cause, true));
    assert s2.toDebugger == [Reply(r.id, r.n, Done)];
  }
}
