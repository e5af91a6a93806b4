/**
 The remote kernel debugger's protocol: a debugger that sends a request over and over until the reply with
 its id comes back, a target that answers a repeated id with the reply it has saved, and between them two
 links that deliver in order but may lose anything.
 */
module Kdb {

  import opened Basics

  // ----- the machine that is debugged

  datatype Registers = Registers(general: seq<int>, pc: int, trace: nat, ipl: nat)

  datatype Machine = Machine(
    stopped: bool,        // PR_STOPPED
    stopPosted: bool,     // PR_DSTOP
    regs: Registers,
    memory: map<int, int>,
    tracing: bool,
    savedIpl: nat)

  datatype RunArgs = RunArgs(pc: Option<int>, step: bool)

  datatype Command =
    | Echo | Status
    | Read(seek: int, count: nat) | Write(seek: int, data: seq<int>)
    | Run(args: Option<RunArgs>)
    | Stop | WaitStop
    | CountMaps | GetMap(index: int)
    | GetRegs | SetRegs(general: seq<int>, pc: int)
    | GetFloat | SetFloat
    | FaultSets
    | Unknown

  datatype Error = Busy | Invalid | NotSupported

  datatype Answer =
    | Done
    | Failed(error: Error)
    | StatusIs(stopped: bool, stopPosted: bool, regs: Option<Registers>)
    | Data(bytes: seq<int>)
    | Count(n: nat)
    | Map(index: int)
    | RegsAre(values: Registers)

  function Peek(memory: map<int, int>, seek: int, count: nat): (bytes: seq<int>)
    ensures |bytes| == count
  {
    seq(count, i requires 0 <= i < count => if seek + i in memory then memory[seek + i] else 0)
  }

  function Poke(memory: map<int, int>, seek: int, data: seq<int>): (memory': map<int, int>)
    decreases |data|
  {
    if data == [] then memory else Poke(memory[seek := data[0]], seek + 1, data[1..])
  }

  function Resume(m: Machine, args: Option<RunArgs>): (m': Machine)
  {
    var regs := m.regs;
    match args
    case None => m.(stopped := false)
    case Some(a) =>
      var regs1 := if a.pc.Some? then regs.(pc := a.pc.value) else regs;
      if a.step then m.(stopped := false, savedIpl := regs.ipl, tracing := true, regs := regs1.(trace := 2, ipl := 7))
      else m.(stopped := false, regs := regs1)
  }

  /** What a command does, and what it answers; nothing yet if it waits for the machine to stop. */
  datatype Effect = Effect(m: Machine, answer: Option<Answer>)

  function Execute(m: Machine, c: Command): (e: Effect)
  {
    match c
    case Echo => Effect(m, Some(Done))
    case Status => Effect(m, Some(StatusIs(m.stopped, m.stopPosted, if m.stopped then Some(m.regs) else None)))
    case Read(seek, count) => Effect(m, Some(Data(Peek(m.memory, seek, if count < 4 then count else 4))))
    case Write(seek, data) => Effect(m.(memory := Poke(m.memory, seek, data)), Some(Count(|data|)))
    case Run(args) => if m.stopped then Effect(Resume(m, args), Some(Done)) else Effect(m, Some(Failed(Busy)))
    case Stop => if m.stopped then Effect(m, Some(Done)) else Effect(m.(stopPosted := true), None)
    case WaitStop => Effect(m, if m.stopped then Some(Done) else None)
    case CountMaps => Effect(m, Some(Count(3)))
    case GetMap(index) => Effect(m, Some(if 0 <= index < 3 then Map(index) else Failed(Invalid)))
    case GetRegs => Effect(m, Some(RegsAre(m.regs)))
    case SetRegs(general, pc) => Effect(m.(regs := m.regs.(general := general, pc := pc)), Some(Done))
    case GetFloat => Effect(m, Some(Done))
    case SetFloat => Effect(m, Some(Done))
    case FaultSets => Effect(m, Some(Failed(NotSupported)))
    case Unknown => Effect(m, Some(Failed(Invalid)))
  }

  // ----- messages; `n` numbers the requests, is not on the wire and decides nothing

  datatype Request = Request(id: nat, n: nat, command: Command)

  datatype Reply = Reply(id: nat, n: nat, answer: Answer)

  // ----- the target

  /** rkdb: wstop is 0 when no stop is waited for; response is what was or is to be sent last. */
  datatype Target = Target(lastId: nat, lastN: nat, wstop: nat, response: Reply, m: Machine)

  /** Handle_KDB_Packet: the new state, and the reply it tries to send. */
  datatype Handled = Handled(t: Target, reply: Option<Reply>)

  function Handle(t: Target, r: Request): (h: Handled)
  {
    if r.id == t.lastId then Send(t, t.response)
    else
      var e := Execute(t.m, r.command);
      match e.answer
      case None => Handled(t.(wstop := r.id, response := Reply(r.id, r.n, Done), m := e.m), None)
      case Some(answer) => Send(t.(wstop := 0, m := e.m), Reply(r.id, r.n, answer))
  }

  /** Send_KDB_Packet: the id counts as answered even when the transmitter has no room. */
  function Send(t: Target, reply: Reply): (h: Handled)
  {
    Handled(t.(lastId := reply.id, lastN := reply.n, response := reply), Some(reply))
  }

  /** Why the machine stops: a clock tick that finds a stop posted, the trace trap, a breakpoint, or another. */
  datatype Cause = Tick | Trace | Breakpoint | Other

  /** What a stop does to the machine.  A posted stop is taken to be the reason, whatever the trap is. */
  function Halt(m: Machine, cause: Cause): (m': Machine)
  {
    if m.stopPosted then m.(stopped := true, stopPosted := false)
    else
      match cause
      case Trace =>
        m.(stopped := true, tracing := false, regs := m.regs.(trace := 0, ipl := if m.tracing then m.savedIpl else m.regs.ipl))
      case Breakpoint => m.(stopped := true, regs := m.regs.(pc := m.regs.pc - 2))
      case _ => m.(stopped := true)
  }

  /** kdebug, when the machine has stopped. */
  function Stopped(t: Target, cause: Cause): (h: Handled)
  {
    var t1 := t.(m := Halt(t.m, cause));
    if t.wstop == 0 then Handled(t1, None)
    else Send(t1.(wstop := 0), Reply(t.wstop, t.response.n, Done))
  }

  // ----- the two parties and the links

  const IDS: nat := 0x1_0000_0000   // transmit ids

  /** What has happened to the machine. */
  datatype Deed = Did(n: nat, command: Command) | Posted(n: nat, command: Command) | Halted(cause: Cause)

  datatype Acceptance = Acceptance(n: nat, answer: Answer)

  datatype System = System(
    id: nat,                    // rkunit.id as it was when the current request took it
    cur: Request, waiting: bool, arrived: Option<Reply>,
    toTarget: seq<Request>, toDebugger: seq<Reply>,
    t: Target,
    // what has happened so far
    ids: seq<nat>, commands: seq<Command>, computed: map<nat, Answer>, accepted: seq<Acceptance>, deeds: seq<Deed>)

  datatype Step =
    | Begin(command: Command)             // send_kdb_packet is called
    | Wake(copied: bool)                  // its sleep ends; copied: copymsg succeeded
    | RequestArrives(room: bool)          // room: the transmitter has a free buffer
    | ReplyArrives(memory: bool)          // rkdrput; memory: kmem_zalloc succeeded
    | RequestLost(i: nat)
    | ReplyLost(i: nat)
    | MachineStops(cause: Cause, room: bool)

  function NextId(id: nat): (id': nat)
  {
    (id + 1) % IDS
  }

  function Without<T>(s: seq<T>, i: nat): (s': seq<T>)
    requires i < |s|
  {
    s[..i] + s[i + 1..]
  }

  function Sent(link: seq<Reply>, reply: Option<Reply>, room: bool): (link': seq<Reply>)
  {
    if reply.Some? && room then link + [reply.value] else link
  }

  ghost predicate Enabled(s: System, step: Step)
  {
    match step
    case Begin(_) => !s.waiting
    case Wake(_) => s.waiting
    case RequestArrives(_) => s.toTarget != []
    case ReplyArrives(_) => s.toDebugger != []
    case RequestLost(i) => i < |s.toTarget|
    case ReplyLost(i) => i < |s.toDebugger|
    case MachineStops(cause, _) => !s.t.m.stopped && (cause.Tick? ==> s.t.m.stopPosted)
  }

  /** The reply that the debugger has, if it is one it accepts. */
  predicate Accepts(s: System)
  {
    s.arrived.Some? && s.arrived.value.id == s.cur.id
  }

  function Deeds(s: System, r: Request): (deeds: seq<Deed>)
  {
    if r.id == s.t.lastId then s.deeds
    else s.deeds + [if Execute(s.t.m, r.command).answer.Some? then Did(r.n, r.command) else Posted(r.n, r.command)]
  }

  function Next(s: System, step: Step): (s': System)
    requires Enabled(s, step)
  {
    match step
    case Begin(command) =>
      var cur := Request(NextId(s.id), s.cur.n + 1, command);
      s.(id := cur.id, cur := cur, waiting := true, arrived := None, toTarget := s.toTarget + [cur],
         ids := s.ids + [cur.id], commands := s.commands + [command])
    case Wake(copied) =>
      if Accepts(s) then
        s.(waiting := false, accepted := s.accepted + [Acceptance(s.cur.n, s.arrived.value.answer)])
      else if s.arrived.None? && !copied then s.(waiting := false)
      else s.(arrived := None, toTarget := s.toTarget + [s.cur])
    case RequestArrives(room) =>
      var r := s.toTarget[0];
      var h := Handle(s.t, r);
      s.(toTarget := s.toTarget[1..], t := h.t, toDebugger := Sent(s.toDebugger, h.reply, room),
         computed := Computed(s, h), deeds := Deeds(s, r))
    case ReplyArrives(memory) =>
      s.(toDebugger := s.toDebugger[1..], arrived := if memory then Some(s.toDebugger[0]) else None)
    case RequestLost(i) => s.(toTarget := Without(s.toTarget, i))
    case ReplyLost(i) => s.(toDebugger := Without(s.toDebugger, i))
    case MachineStops(cause, room) =>
      var h := Stopped(s.t, cause);
      s.(t := h.t, toDebugger := Sent(s.toDebugger, h.reply, room), computed := Computed(s, h), deeds := s.deeds + [Halted(cause)])
  }

  /** The answer computed for each request, when it is first computed. */
  function Computed(s: System, h: Handled): (computed: map<nat, Answer>)
  {
    if h.reply.Some? && h.reply.value.n !in s.computed then s.computed[h.reply.value.n := h.reply.value.answer]
    else s.computed
  }

  // ----- ids

  ghost predicate CarriesRequest(link: seq<Request>, n: nat)
  {
    exists i: nat :: i < |link| && link[i].n == n
  }

  ghost predicate CarriesReply(link: seq<Reply>, n: nat)
  {
    exists i: nat :: i < |link| && link[i].n == n
  }

  /** A request whose id is still remembered: the current one, the target's last, or one under way. */
  ghost predicate Live(s: System, n: nat)
  {
    n == s.cur.n || n == s.t.lastN || n == s.t.response.n || CarriesRequest(s.toTarget, n) || CarriesReply(s.toDebugger, n)
  }

  /** The next id is not one that is still remembered. */
  ghost predicate FreshId(s: System)
  {
    forall n: nat :: n < |s.ids| && Live(s, n) ==> s.ids[n] != NextId(s.id)
  }

  ghost predicate Possible(s: System, step: Step)
  {
    Enabled(s, step) && (step.Begin? ==> FreshId(s))
  }

  /** A debugger just opened and a target whose last id was `last`; request 0 stands for that one. */
  function Opened(first: nat, last: nat, m: Machine): (s: System)
  {
    var none := Request(last, 0, Echo);
    System((first + 0xFFFF_FFFF) % IDS, none, false, None, [], [],
           Target(last, 0, 0, Reply(last, 0, Done), m), [last], [Echo], map[0 := Done], [], [])
  }

  // ----- the machine's history

  function Replay(m: Machine, deeds: seq<Deed>): (m': Machine)
  {
    if deeds == [] then m else After(Replay(m, deeds[..|deeds| - 1]), deeds[|deeds| - 1])
  }

  function After(m: Machine, d: Deed): (m': Machine)
  {
    match d
    case Did(_, c) => Execute(m, c).m
    case Posted(_, c) => Execute(m, c).m
    case Halted(cause) => Halt(m, cause)
  }

  /** Request n was done once, on the machine as it then was, with its answer; or it waited, the machine
      stopped, and then it was answered. */
  ghost predicate Explained(s: System, m0: Machine, n: nat)
    requires n in s.computed && n < |s.commands|
  {
    || (exists k: nat :: k < |s.deeds| && s.deeds[k] == Did(n, s.commands[n])
                         && Execute(Replay(m0, s.deeds[..k]), s.commands[n]).answer == Some(s.computed[n]))
    || (s.computed[n] == Done
        && exists j: nat, k: nat :: j < k < |s.deeds| && s.deeds[j] == Posted(n, s.commands[n]) && s.deeds[k].Halted?)
  }

  // ----- the invariant

  ghost predicate IssuedOk(s: System)
  {
    && |s.ids| == |s.commands| == s.cur.n + 1
    && s.cur.id == s.ids[s.cur.n] && s.cur.command == s.commands[s.cur.n]
    && (s.waiting ==> s.cur.n > 0)
  }

  ghost predicate RequestOk(s: System, r: Request)
    requires IssuedOk(s)
  {
    0 < r.n <= s.cur.n && r.id == s.ids[r.n] && r.command == s.commands[r.n] && s.t.response.n <= r.n
  }

  ghost predicate RequestsOk(s: System)
    requires IssuedOk(s)
  {
    && (forall i: nat :: i < |s.toTarget| ==> RequestOk(s, s.toTarget[i]))
    && (forall i: nat, j: nat :: i <= j < |s.toTarget| ==> s.toTarget[i].n <= s.toTarget[j].n)
  }

  /** A reply carries the id and the computed answer of its request. */
  ghost predicate ReplyOk(s: System, r: Reply)
    requires IssuedOk(s)
  {
    r.n <= s.cur.n && r.id == s.ids[r.n] && r.n in s.computed && s.computed[r.n] == r.answer
  }

  ghost predicate RepliesOk(s: System)
    requires IssuedOk(s)
  {
    && (forall i: nat :: i < |s.toDebugger| ==> ReplyOk(s, s.toDebugger[i]))
    && (s.arrived.Some? ==> ReplyOk(s, s.arrived.value) && (s.arrived.value.id == s.cur.id ==> s.arrived.value.n == s.cur.n))
  }

  /** While nothing is waited for, the saved response is the last answer; a request that waits is newer. */
  ghost predicate TargetOk(s: System)
    requires IssuedOk(s)
  {
    var t := s.t;
    && t.lastN <= t.response.n <= s.cur.n
    && t.lastId == s.ids[t.lastN] && t.response.id == s.ids[t.response.n]
    && (forall n: nat :: n in s.computed ==> n <= t.lastN)
    && (if t.lastN == t.response.n then t.wstop == 0 && t.lastN in s.computed && s.computed[t.lastN] == t.response.answer
        else (t.wstop == 0 || t.wstop == t.response.id) && s.commands[t.response.n] in {Stop, WaitStop}
             && exists j: nat :: j < |s.deeds| && s.deeds[j] == Posted(t.response.n, s.commands[t.response.n]))
  }

  ghost predicate Distinct(s: System)
    requires IssuedOk(s)
  {
    forall a: nat, b: nat :: a < b < |s.ids| && Live(s, a) && Live(s, b) ==> s.ids[a] != s.ids[b]
  }

  ghost predicate DeedOk(s: System, d: Deed)
    requires IssuedOk(s)
  {
    d.Did? ==> d.n <= s.t.lastN && d.n <= s.cur.n && d.command == s.commands[d.n]
  }

  /** No request is done twice; and doing those that were done, in that order, explains the machine. */
  ghost predicate DeedsOk(s: System, m0: Machine)
    requires IssuedOk(s)
  {
    && s.t.m == Replay(m0, s.deeds)
    && (forall k: nat :: k < |s.deeds| ==> DeedOk(s, s.deeds[k]))
    && (forall j: nat, k: nat :: j < k < |s.deeds| && s.deeds[j].Did? && s.deeds[k].Did? ==> s.deeds[j].n < s.deeds[k].n)
  }

  ghost predicate AnswersOk(s: System, m0: Machine)
    requires IssuedOk(s)
  {
    forall n: nat :: n in s.computed && n > 0 ==> n < |s.commands| && Explained(s, m0, n)
  }

  ghost predicate AcceptedOk(s: System)
  {
    && (forall i: nat :: i < |s.accepted| ==>
          s.accepted[i].n in s.computed && s.accepted[i].answer == s.computed[s.accepted[i].n]
          && (if s.waiting then s.accepted[i].n < s.cur.n else s.accepted[i].n <= s.cur.n))
    && (forall i: nat, j: nat :: i < j < |s.accepted| ==> s.accepted[i].n < s.accepted[j].n)
  }

  ghost predicate Inv(s: System, m0: Machine)
  {
    && IssuedOk(s) && RequestsOk(s) && RepliesOk(s) && TargetOk(s) && Distinct(s)
    && DeedsOk(s, m0) && AnswersOk(s, m0) && AcceptedOk(s)
  }

  lemma OpenedInv(first: nat, last: nat, m: Machine)
    ensures Inv(Opened(first, last, m), m)
  {
  }

  // ----- preservation, step by step

  lemma FewerLive(s: System, s': System)
    requires IssuedOk(s) && IssuedOk(s') && Distinct(s) && s'.ids == s.ids
    requires forall n: nat :: Live(s', n) ==> Live(s, n)
    ensures Distinct(s')
  {
  }

  lemma BeginKeepsInv(s: System, m0: Machine, command: Command)
    requires Inv(s, m0) && !s.waiting && FreshId(s)
    ensures Inv(Next(s, Begin(command)), m0)
  {
    BeginKeepsDistinct(s, command);
    ExplanationsStay(s, Next(s, Begin(command)), m0);
  }

  lemma BeginKeepsDistinct(s: System, command: Command)
    requires IssuedOk(s) && Distinct(s) && !s.waiting && FreshId(s)
    ensures Distinct(Next(s, Begin(command)))
  {
    var s' := Next(s, Begin(command));
    forall a: nat, b: nat | a < b < |s'.ids| && Live(s', a) && Live(s', b)
      ensures s'.ids[a] != s'.ids[b]
    {
      assert CarriesRequest(s'.toTarget, a) ==> CarriesRequest(s.toTarget, a) || a == s'.cur.n;
      assert CarriesRequest(s'.toTarget, b) ==> CarriesRequest(s.toTarget, b) || b == s'.cur.n;
      assert Live(s, a);
      assert b < |s.ids| ==> Live(s, b);
    }
  }

  /** What has been explained stays explained. */
  lemma ExplanationsStay(s: System, s': System, m0: Machine)
    requires IssuedOk(s) && IssuedOk(s') && AnswersOk(s, m0)
    requires s.deeds <= s'.deeds && s.commands <= s'.commands
    ensures forall n: nat :: n in s.computed && n in s'.computed && s'.computed[n] == s.computed[n] && n > 0 ==>
              n < |s'.commands| && Explained(s', m0, n)
  {
    forall n: nat | n in s.computed && n in s'.computed && s'.computed[n] == s.computed[n] && n > 0
      ensures n < |s'.commands| && Explained(s', m0, n)
    {
      assert Explained(s, m0, n);
      if k: nat :| k < |s.deeds| && s.deeds[k] == Did(n, s.commands[n])
                   && Execute(Replay(m0, s.deeds[..k]), s.commands[n]).answer == Some(s.computed[n]) {
        assert s'.deeds[..k] == s.deeds[..k] && s'.deeds[k] == s.deeds[k];
      } else {
        var j: nat, k: nat :| j < k < |s.deeds| && s.deeds[j] == Posted(n, s.commands[n]) && s.deeds[k].Halted?;
        assert s'.deeds[j] == s.deeds[j] && s'.deeds[k] == s.deeds[k];
      }
    }
  }

  /** Steps of the links and of the debugger leave the target alone. */
  ghost predicate TargetUntouched(s: System, s': System)
  {
    s'.(toTarget := s.toTarget, toDebugger := s.toDebugger, arrived := s.arrived, waiting := s.waiting, accepted := s.accepted) == s
  }

  lemma HistoryStays(s: System, s': System, m0: Machine)
    requires Inv(s, m0) && TargetUntouched(s, s') && (s'.waiting ==> s.waiting)
    ensures IssuedOk(s') && TargetOk(s') && DeedsOk(s', m0) && AnswersOk(s', m0)
  {
    ExplanationsStay(s, s', m0);
  }

  lemma {:induction false} WakeKeepsInv(s: System, m0: Machine, copied: bool)
    requires Inv(s, m0) && s.waiting
    ensures Inv(Next(s, Wake(copied)), m0)
  {
    var s' := Next(s, Wake(copied));
    HistoryStays(s, s', m0);
    assert forall n: nat :: CarriesRequest(s'.toTarget, n) ==> CarriesRequest(s.toTarget, n) || n == s.cur.n;
    FewerLive(s, s');
    WakeKeepsMessages(s, copied);
  }

  lemma WakeKeepsMessages(s: System, copied: bool)
    requires IssuedOk(s) && RequestsOk(s) && RepliesOk(s) && AcceptedOk(s) && s.waiting && s.t.response.n <= s.cur.n
    ensures var s' := Next(s, Wake(copied)); IssuedOk(s') && RequestsOk(s') && RepliesOk(s') && AcceptedOk(s')
  {
  }

  lemma {:induction false} FewerRequests(link: seq<Request>, link': seq<Request>)
    requires forall k: nat :: k < |link'| ==> link'[k] in link
    ensures forall n: nat :: CarriesRequest(link', n) ==> CarriesRequest(link, n)
  {
  }

  lemma {:induction false} FewerReplies(link: seq<Reply>, link': seq<Reply>)
    requires forall k: nat :: k < |link'| ==> link'[k] in link
    ensures forall n: nat :: CarriesReply(link', n) ==> CarriesReply(link, n)
  {
  }

  lemma WithoutIsPart<T>(link: seq<T>, i: nat)
    requires i < |link|
    ensures forall k: nat :: k < |Without(link, i)| ==> Without(link, i)[k] in link
    ensures forall k: nat :: k < |Without(link, i)| ==> Without(link, i)[k] == link[if k < i then k else k + 1]
  {
  }

  lemma ReplyArrivesKeepsInv(s: System, m0: Machine, memory: bool)
    requires Inv(s, m0) && s.toDebugger != []
    ensures Inv(Next(s, ReplyArrives(memory)), m0)
  {
    var s' := Next(s, ReplyArrives(memory));
    HistoryStays(s, s', m0);
    FewerReplies(s.toDebugger, s'.toDebugger);
    FewerLive(s, s');
    var r := s.toDebugger[0];
    assert CarriesReply(s.toDebugger, r.n) && ReplyOk(s, r);
    assert Live(s, r.n) && Live(s, s.cur.n);
  }

  lemma RequestLostKeepsInv(s: System, m0: Machine, i: nat)
    requires Inv(s, m0) && i < |s.toTarget|
    ensures Inv(Next(s, RequestLost(i)), m0)
  {
    var s' := Next(s, RequestLost(i));
    HistoryStays(s, s', m0);
    WithoutIsPart(s.toTarget, i);
    FewerRequests(s.toTarget, s'.toTarget);
    FewerLive(s, s');
  }

  lemma ReplyLostKeepsInv(s: System, m0: Machine, i: nat)
    requires Inv(s, m0) && i < |s.toDebugger|
    ensures Inv(Next(s, ReplyLost(i)), m0)
  {
    var s' := Next(s, ReplyLost(i));
    HistoryStays(s, s', m0);
    WithoutIsPart(s.toDebugger, i);
    FewerReplies(s.toDebugger, s'.toDebugger);
    FewerLive(s, s');
  }

  /** The request that arrives is no older than what the target has seen; it has the target's last id only
      if it is the target's last request. */
  lemma ArrivingIsNewOrLast(s: System, m0: Machine)
    requires Inv(s, m0) && s.toTarget != []
    ensures var r := s.toTarget[0]; RequestOk(s, r) && s.t.response.n <= r.n && (r.id == s.t.lastId <==> r.n == s.t.lastN)
  {
    var r := s.toTarget[0];
    assert RequestOk(s, r);
    assert CarriesRequest(s.toTarget, r.n);
    assert Live(s, r.n) && Live(s, s.t.lastN);
  }

  /** A repeated request is answered as before, and nothing else happens. */
  lemma DuplicateIsHarmless(s: System, m0: Machine)
    requires Inv(s, m0) && s.toTarget != [] && s.toTarget[0].id == s.t.lastId
    ensures var h := Handle(s.t, s.toTarget[0]); h.t == s.t && h.reply == Some(s.t.response) && ReplyOk(s, s.t.response)
    ensures Computed(s, Handle(s.t, s.toTarget[0])) == s.computed
  {
    ArrivingIsNewOrLast(s, m0);
  }

  /** The links after an arrival. */
  lemma LinksAfterArrival(s: System, s': System, reply: Option<Reply>, room: bool)
    requires IssuedOk(s) && RequestsOk(s) && RepliesOk(s) && Distinct(s) && s.toTarget != []
    requires s'.(toTarget := s.toTarget, toDebugger := s.toDebugger, t := s.t, computed := s.computed, deeds := s.deeds) == s
    requires s'.toTarget == s.toTarget[1..] && s'.toDebugger == Sent(s.toDebugger, reply, room)
    requires s'.t.response.n <= s.toTarget[0].n
    requires s'.t.response.n in {s.t.response.n, s.toTarget[0].n} && s'.t.lastN in {s.t.lastN, s.t.response.n, s.toTarget[0].n}
    requires forall n: nat :: n in s.computed ==> n in s'.computed && s'.computed[n] == s.computed[n]
    requires reply.Some? ==> ReplyOk(s', reply.value) && reply.value.n == s'.t.response.n
    ensures IssuedOk(s') && RequestsOk(s') && RepliesOk(s') && Distinct(s')
  {
    FewerRequests(s.toTarget, s'.toTarget);
    assert CarriesRequest(s.toTarget, s.toTarget[0].n);
    assert forall n: nat :: CarriesReply(s'.toDebugger, n) ==> CarriesReply(s.toDebugger, n) || n == s'.t.response.n;
    FewerLive(s, s');
  }

  lemma ReplaySnoc(m: Machine, deeds: seq<Deed>, d: Deed)
    ensures Replay(m, deeds + [d]) == After(Replay(m, deeds), d)
  {
    assert (deeds + [d])[..|deeds|] == deeds;
  }

  lemma DuplicateKeepsInv(s: System, m0: Machine, room: bool)
    requires Inv(s, m0) && s.toTarget != [] && s.toTarget[0].id == s.t.lastId
    ensures Inv(Next(s, RequestArrives(room)), m0)
  {
    var s' := Next(s, RequestArrives(room));
    DuplicateIsHarmless(s, m0);
    ArrivingIsNewOrLast(s, m0);
    HistoryStays(s, s', m0);
    LinksAfterArrival(s, s', Some(s.t.response), room);
  }

  lemma PostedKeepsInv(s: System, m0: Machine, room: bool)
    requires Inv(s, m0) && s.toTarget != [] && s.toTarget[0].id != s.t.lastId
    requires Execute(s.t.m, s.toTarget[0].command).answer.None?
    ensures Inv(Next(s, RequestArrives(room)), m0)
  {
    var s', r := Next(s, RequestArrives(room)), s.toTarget[0];
    ArrivingIsNewOrLast(s, m0);
    LinksAfterArrival(s, s', None, room);
    ReplaySnoc(m0, s.deeds, Posted(r.n, r.command));
    assert s'.deeds[|s.deeds|] == Posted(r.n, r.command);
    ExplanationsStay(s, s', m0);
  }

  /** What a request that is done changes. */
  ghost predicate IsDone(s: System, s': System, r: Request, answer: Answer, room: bool)
  {
    var reply := Reply(r.id, r.n, answer);
    && s.toTarget != [] && r == s.toTarget[0] && Execute(s.t.m, r.command).answer == Some(answer)
    && r.n !in s.computed && s.t.lastN < r.n && s.t.response.n <= r.n
    && s' == s.(toTarget := s.toTarget[1..], toDebugger := Sent(s.toDebugger, Some(reply), room),
                t := Target(r.id, r.n, 0, reply, Execute(s.t.m, r.command).m),
                computed := s.computed[r.n := answer], deeds := s.deeds + [Did(r.n, r.command)])
  }

  lemma DoneIs(s: System, m0: Machine, room: bool, answer: Answer)
    requires Inv(s, m0) && s.toTarget != [] && s.toTarget[0].id != s.t.lastId
    requires Execute(s.t.m, s.toTarget[0].command).answer == Some(answer)
    ensures IsDone(s, Next(s, RequestArrives(room)), s.toTarget[0], answer, room) && RequestOk(s, s.toTarget[0])
  {
    ArrivingIsNewOrLast(s, m0);
  }

  lemma DoneLinks(s: System, m0: Machine, s': System, r: Request, answer: Answer, room: bool)
    requires Inv(s, m0) && IsDone(s, s', r, answer, room) && RequestOk(s, r)
    ensures IssuedOk(s') && RequestsOk(s') && RepliesOk(s') && Distinct(s')
  {
    LinksAfterArrival(s, s', Some(Reply(r.id, r.n, answer)), room);
  }

  lemma DoneAtTarget(s: System, m0: Machine, s': System, r: Request, answer: Answer, room: bool)
    requires Inv(s, m0) && IsDone(s, s', r, answer, room) && RequestOk(s, r)
    ensures IssuedOk(s') && TargetOk(s') && AcceptedOk(s')
  {
  }

  lemma DoneKeepsInv(s: System, m0: Machine, room: bool)
    requires Inv(s, m0) && s.toTarget != [] && s.toTarget[0].id != s.t.lastId
    requires Execute(s.t.m, s.toTarget[0].command).answer.Some?
    ensures Inv(Next(s, RequestArrives(room)), m0)
  {
    var s', r := Next(s, RequestArrives(room)), s.toTarget[0];
    var answer := Execute(s.t.m, r.command).answer.value;
    DoneIs(s, m0, room, answer);
    DoneLinks(s, m0, s', r, answer, room);
    DoneAtTarget(s, m0, s', r, answer, room);
    DoneIsExplained(s, s', m0, r, answer);
    DoneOnce(s, s', m0, r);
  }

  lemma DoneIsExplained(s: System, s': System, m0: Machine, r: Request, answer: Answer)
    requires IssuedOk(s) && IssuedOk(s') && DeedsOk(s, m0) && AnswersOk(s, m0) && RequestOk(s, r)
    requires s'.commands == s.commands && s'.cur == s.cur && s'.deeds == s.deeds + [Did(r.n, r.command)]
    requires s'.computed == s.computed[r.n := answer] && r.n !in s.computed
    requires Execute(s.t.m, r.command).answer == Some(answer)
    ensures AnswersOk(s', m0)
  {
    var k := |s.deeds|;
    assert s'.deeds[..k] == s.deeds && s'.deeds[k] == Did(r.n, s.commands[r.n]);
    assert Explained(s', m0, r.n);
    ExplanationsStay(s, s', m0);
  }

  lemma DoneOnce(s: System, s': System, m0: Machine, r: Request)
    requires IssuedOk(s) && IssuedOk(s') && DeedsOk(s, m0) && RequestOk(s, r)
    requires s'.commands == s.commands && s'.cur == s.cur && s'.deeds == s.deeds + [Did(r.n, r.command)]
    requires s'.t.m == Execute(s.t.m, r.command).m && s.t.lastN < r.n == s'.t.lastN
    ensures DeedsOk(s', m0)
  {
    ReplaySnoc(m0, s.deeds, Did(r.n, r.command));
  }

  lemma HaltedIsExplained(s: System, s': System, m0: Machine, cause: Cause)
    requires Inv(s, m0) && IssuedOk(s') && s.t.lastN < s.t.response.n
    requires s'.commands == s.commands && s'.deeds == s.deeds + [Halted(cause)]
    requires s'.computed == s.computed[s.t.response.n := Done] && s.t.response.n !in s.computed
    ensures AnswersOk(s', m0)
  {
    var n, k := s.t.response.n, |s.deeds|;
    var j: nat :| j < |s.deeds| && s.deeds[j] == Posted(n, s.commands[n]);
    assert s'.deeds[j] == Posted(n, s'.commands[n]) && s'.deeds[k] == Halted(cause);
    assert Explained(s', m0, n);
    ExplanationsStay(s, s', m0);
  }

  lemma QuietStopKeepsInv(s: System, m0: Machine, cause: Cause, room: bool)
    requires Inv(s, m0) && Enabled(s, MachineStops(cause, room)) && s.t.wstop == 0
    ensures Inv(Next(s, MachineStops(cause, room)), m0)
  {
    var s' := Next(s, MachineStops(cause, room));
    assert s' == s.(t := s.t.(m := Halt(s.t.m, cause)), deeds := s.deeds + [Halted(cause)]);
    HaltedInDeeds(s, s', m0, cause);
    QuietStopElse(s, s');
    ExplanationsStay(s, s', m0);
  }

  lemma HaltedInDeeds(s: System, s': System, m0: Machine, cause: Cause)
    requires IssuedOk(s) && IssuedOk(s') && DeedsOk(s, m0) && s'.deeds == s.deeds + [Halted(cause)]
    requires s'.commands == s.commands && s'.cur == s.cur && s.t.lastN <= s'.t.lastN && s'.t.m == Halt(s.t.m, cause)
    ensures DeedsOk(s', m0)
  {
    ReplaySnoc(m0, s.deeds, Halted(cause));
    forall k: nat | k < |s'.deeds|
      ensures DeedOk(s', s'.deeds[k])
    {
      assert k < |s.deeds| ==> DeedOk(s, s.deeds[k]);
    }
  }

  lemma QuietStopElse(s: System, s': System)
    requires IssuedOk(s) && RequestsOk(s) && RepliesOk(s) && TargetOk(s) && Distinct(s) && AcceptedOk(s)
    requires s'.(t := s.t, deeds := s.deeds) == s && s'.t.(m := s.t.m) == s.t && s.deeds <= s'.deeds
    ensures IssuedOk(s') && RequestsOk(s') && RepliesOk(s') && TargetOk(s') && Distinct(s') && AcceptedOk(s')
  {
    FewerLive(s, s');
    assert forall j: nat :: j < |s.deeds| ==> s'.deeds[j] == s.deeds[j];
    forall i: nat | i < |s'.toTarget|
      ensures RequestOk(s', s'.toTarget[i])
    {
      assert RequestOk(s, s.toTarget[i]);
    }
  }

  lemma AnsweringStopKeepsInv(s: System, m0: Machine, cause: Cause, room: bool)
    requires Inv(s, m0) && Enabled(s, MachineStops(cause, room)) && s.t.wstop != 0
    ensures Inv(Next(s, MachineStops(cause, room)), m0)
  {
    var s', n := Next(s, MachineStops(cause, room)), s.t.response.n;
    assert n !in s.computed;
    assert s' == s.(t := Target(s.t.wstop, n, 0, s'.t.response, Halt(s.t.m, cause)),
                    toDebugger := Sent(s.toDebugger, Some(s'.t.response), room),
                    computed := s.computed[n := Done], deeds := s.deeds + [Halted(cause)]);
    AnsweredAtTarget(s, s');
    HaltedInDeeds(s, s', m0, cause);
    HaltedIsExplained(s, s', m0, cause);
    LinksAfterStop(s, s', s'.t.response, room);
  }

  lemma AnsweredAtTarget(s: System, s': System)
    requires IssuedOk(s) && TargetOk(s) && AcceptedOk(s) && s.t.lastN < s.t.response.n && s.t.wstop != 0
    requires s'.(t := s.t, toDebugger := s.toDebugger, computed := s.computed, deeds := s.deeds) == s
    requires s'.computed == s.computed[s.t.response.n := Done] && s'.t.response == Reply(s.t.wstop, s.t.response.n, Done)
    requires s'.t == Target(s.t.wstop, s.t.response.n, 0, s'.t.response, s'.t.m)
    ensures IssuedOk(s') && TargetOk(s') && AcceptedOk(s')
  {
  }

  lemma LinksAfterStop(s: System, s': System, reply: Reply, room: bool)
    requires IssuedOk(s) && RequestsOk(s) && RepliesOk(s) && Distinct(s)
    requires s'.(toDebugger := s.toDebugger, t := s.t, computed := s.computed, deeds := s.deeds) == s
    requires s'.toDebugger == Sent(s.toDebugger, Some(reply), room)
    requires s'.t.response.n == s'.t.lastN == s.t.response.n == reply.n
    requires forall n: nat :: n in s.computed ==> n in s'.computed && s'.computed[n] == s.computed[n]
    requires ReplyOk(s', reply)
    ensures RequestsOk(s') && RepliesOk(s') && Distinct(s')
  {
    assert forall n: nat :: CarriesReply(s'.toDebugger, n) ==> CarriesReply(s.toDebugger, n) || n == s.t.response.n;
    FewerLive(s, s');
  }

  lemma StepKeepsInv(s: System, m0: Machine, step: Step)
    requires Inv(s, m0) && Possible(s, step)
    ensures Inv(Next(s, step), m0)
  {
    match step
    case Begin(command) => BeginKeepsInv(s, m0, command);
    case Wake(copied) => WakeKeepsInv(s, m0, copied);
    case RequestArrives(room) =>
      if s.toTarget[0].id == s.t.lastId {
        DuplicateKeepsInv(s, m0, room);
      } else if Execute(s.t.m, s.toTarget[0].command).answer.None? {
        PostedKeepsInv(s, m0, room);
      } else {
        DoneKeepsInv(s, m0, room);
      }
    case ReplyArrives(memory) => ReplyArrivesKeepsInv(s, m0, memory);
    case RequestLost(i) => RequestLostKeepsInv(s, m0, i);
    case ReplyLost(i) => ReplyLostKeepsInv(s, m0, i);
    case MachineStops(cause, room) =>
      if s.t.wstop == 0 {
        QuietStopKeepsInv(s, m0, cause, room);
      } else {
        AnsweringStopKeepsInv(s, m0, cause, room);
      }
  }

  // ----- whole runs

  ghost predicate Runs(s: System, steps: seq<Step>, s': System)
    decreases |steps|
  {
    if steps == [] then s == s' else Enabled(s, steps[0]) && Runs(Next(s, steps[0]), steps[1..], s')
  }

  /** A run in which every new id is fresh. */
  ghost predicate FreshRuns(s: System, steps: seq<Step>, s': System)
    decreases |steps|
  {
    if steps == [] then s == s' else Possible(s, steps[0]) && FreshRuns(Next(s, steps[0]), steps[1..], s')
  }

  lemma {:induction false} RunKeepsInv(s: System, m0: Machine, steps: seq<Step>, s': System)
    requires Inv(s, m0) && FreshRuns(s, steps, s')
    ensures Inv(s', m0)
    decreases |steps|
  {
    if steps != [] {
      StepKeepsInv(s, m0, steps[0]);
      RunKeepsInv(Next(s, steps[0]), m0, steps[1..], s');
    }
  }

  // ----- which runs have fresh ids

  /** The requests of a run. */
  function Begins(steps: seq<Step>): (n: nat)
  {
    if steps == [] then 0 else (if steps[0].Begin? then 1 else 0) + Begins(steps[1..])
  }

  /** The id of the k-th request after the first. */
  function IdAt(first: nat, k: nat): (id: nat)
    ensures id < IDS
  {
    (first + k) % IDS
  }

  lemma IdsDiffer(first: nat, j: nat, k: nat)
    requires j < k < j + IDS
    ensures IdAt(first, j) != IdAt(first, k)
  {
  }

  /** How many ids there are from the first one up to the last one that the target answered. */
  function Distance(first: nat, last: nat): (n: nat)
    requires first < IDS && last < IDS
    ensures n < IDS
  {
    if first <= last then last - first else last + IDS - first
  }

  /** The ids of the requests up to now: the one the target remembers from before, and then one after the other. */
  ghost predicate InTurn(s: System, first: nat, last: nat)
  {
    && 0 < |s.ids| && s.ids[0] == last && NextId(s.id) == IdAt(first, |s.ids| - 1)
    && forall k: nat :: 0 < k < |s.ids| ==> s.ids[k] == IdAt(first, k - 1)
  }

  lemma OpenedInTurn(first: nat, last: nat, m: Machine)
    requires first < IDS && last < IDS
    ensures InTurn(Opened(first, last, m), first, last)
  {
  }

  lemma NextInTurn(s: System, step: Step, first: nat, last: nat)
    requires InTurn(s, first, last) && Enabled(s, step)
    ensures InTurn(Next(s, step), first, last)
    ensures |Next(s, step).ids| == |s.ids| + if step.Begin? then 1 else 0
  {
    if step.Begin? {
      var s' := Next(s, step);
      assert s'.ids == s.ids + [IdAt(first, |s.ids| - 1)];
    }
  }

  /** Before the ids come to the one that the target remembers, the next one is fresh. */
  lemma InTurnIsFresh(s: System, first: nat, last: nat)
    requires first < IDS && last < IDS && InTurn(s, first, last) && |s.ids| <= Distance(first, last)
    ensures FreshId(s)
  {
    var id := NextId(s.id);
    forall n: nat | n < |s.ids|
      ensures s.ids[n] != id
    {
      if n == 0 {
        assert IdAt(first, Distance(first, last)) == last;
        IdsDiffer(first, |s.ids| - 1, Distance(first, last));
      } else {
        IdsDiffer(first, n - 1, |s.ids| - 1);
      }
    }
  }

  lemma {:induction false} InTurnRuns(s: System, steps: seq<Step>, s': System, first: nat, last: nat)
    requires first < IDS && last < IDS && InTurn(s, first, last) && Runs(s, steps, s')
    requires |s.ids| - 1 + Begins(steps) <= Distance(first, last)
    ensures FreshRuns(s, steps, s')
    decreases |steps|
  {
    if steps != [] {
      if steps[0].Begin? {
        InTurnIsFresh(s, first, last);
      }
      NextInTurn(s, steps[0], first, last);
      InTurnRuns(Next(s, steps[0]), steps[1..], s', first, last);
    }
  }

  /** A run with no more requests than there are ids before the remembered one. */
  ghost predicate Session(first: nat, last: nat, m: Machine, steps: seq<Step>, s: System)
  {
    first < IDS && last < IDS && Runs(Opened(first, last, m), steps, s) && Begins(steps) <= Distance(first, last)
  }

  lemma SessionKeepsInv(first: nat, last: nat, m: Machine, steps: seq<Step>, s: System)
    requires Session(first, last, m, steps, s)
    ensures Inv(s, m)
  {
    var s0 := Opened(first, last, m);
    OpenedInTurn(first, last, m);
    InTurnRuns(s0, steps, s, first, last);
    OpenedInv(first, last, m);
    RunKeepsInv(s0, m, steps, s);
  }

  /** In any run of requests, repetitions, losses and failures, no request is done twice, they are done in the
      order in which they were made, and the machine is what doing them once each, in that order, makes of
      it. */
  lemma DoneAtMostOnce(first: nat, last: nat, m: Machine, steps: seq<Step>, s: System)
    requires Session(first, last, m, steps, s)
    ensures s.t.m == Replay(m, s.deeds)
    ensures forall j: nat, k: nat :: j < k < |s.deeds| && s.deeds[j].Did? && s.deeds[k].Did? ==> s.deeds[j].n < s.deeds[k].n
    ensures forall k: nat :: k < |s.deeds| && s.deeds[k].Did? ==>
              s.deeds[k].n < |s.commands| && s.deeds[k].command == s.commands[s.deeds[k].n]
  {
    SessionKeepsInv(first, last, m, steps, s);
    assert forall k: nat :: k < |s.deeds| ==> DeedOk(s, s.deeds[k]);
  }

  /** Acceptance i is the answer computed for its request, when that was done (or, for a request that waits for a
      stop, when the machine stopped). */
  ghost predicate RightlyAccepted(s: System, m: Machine, i: nat)
    requires i < |s.accepted|
  {
    var a := s.accepted[i];
    a.n in s.computed && s.computed[a.n] == a.answer && (a.n > 0 ==> a.n < |s.commands| && Explained(s, m, a.n))
  }

  /** A reply that the debugger accepts is the one computed for the request it was waiting with.  Each request gets
      at most one. */
  lemma AcceptedIsComputed(first: nat, last: nat, m: Machine, steps: seq<Step>, s: System, i: nat)
    requires Session(first, last, m, steps, s) && i < |s.accepted|
    ensures RightlyAccepted(s, m, i) && forall j: nat :: j < i ==> s.accepted[j].n < s.accepted[i].n
  {
    SessionKeepsInv(first, last, m, steps, s);
  }

  // ----- and which do not

  lemma {:induction false} RunsOn(s: System, a: seq<Step>, s1: System, b: seq<Step>, s2: System)
    requires Runs(s, a, s1) && Runs(s1, b, s2)
    ensures Runs(s, a + b, s2)
    decreases |a|
  {
    if a == [] {
      assert a + b == b;
    } else {
      assert (a + b)[1..] == a[1..] + b;
      RunsOn(Next(s, a[0]), a[1..], s1, b, s2);
    }
  }

  lemma {:induction false} BeginsAdd(a: seq<Step>, b: seq<Step>)
    ensures Begins(a + b) == Begins(a) + Begins(b)
  {
    if a == [] {
      assert a + b == b;
    } else {
      assert (a + b)[1..] == a[1..] + b;
      BeginsAdd(a[1..], b);
    }
  }

  /** Between requests, with nothing under way. */
  ghost predicate Quiet(s: System, first: nat, last: nat)
  {
    !s.waiting && s.toTarget == [] && s.toDebugger == [] && s.arrived == None && InTurn(s, first, last) && s.cur.n + 1 == |s.ids|
  }

  /** The same, but for the requests made in between. */
  ghost predicate Unmoved(s: System, s': System)
  {
    s'.t == s.t && s'.computed == s.computed && s'.accepted == s.accepted && s'.deeds == s.deeds
  }

  /** A request that is lost and given up. */
  lemma LostRound(s: System, first: nat, last: nat) returns (steps: seq<Step>, s': System)
    requires Quiet(s, first, last)
    ensures Runs(s, steps, s') && Begins(steps) == 1
    ensures Quiet(s', first, last) && |s'.ids| == |s.ids| + 1 && Unmoved(s, s')
    ensures steps[0] == Begin(Echo)
  {
    var b, l, w := Begin(Echo), RequestLost(0), Wake(false);
    var s1 := Next(s, b);
    NextInTurn(s, b, first, last);
    assert s1.toTarget == [s1.cur];
    var s2 := Next(s1, l);
    assert s2.toTarget == [];
    s' := Next(s2, w);
    StepThen(s2, w, s', []);
    StepThen(s1, l, s', [w] + []);
    StepThen(s, b, s', [l] + ([w] + []));
    steps := [b] + ([l] + ([w] + []));
  }

  /** A step before others. */
  lemma StepThen(s: System, x: Step, s': System, more: seq<Step>)
    requires Enabled(s, x) && Runs(Next(s, x), more, s')
    ensures Runs(s, [x] + more, s') && Begins([x] + more) == Begins(more) + if x.Begin? then 1 else 0
    ensures ([x] + more)[0] == x
  {
    assert ([x] + more)[1..] == more;
  }

  lemma {:induction false} LostRounds(s: System, first: nat, last: nat, n: nat) returns (steps: seq<Step>, s': System)
    requires Quiet(s, first, last)
    ensures Runs(s, steps, s') && Begins(steps) == n
    ensures Quiet(s', first, last) && |s'.ids| == |s.ids| + n && Unmoved(s, s')
    decreases n
  {
    if n == 0 {
      steps, s' := [], s;
    } else {
      var a, s1 := LostRound(s, first, last);
      var b;
      b, s' := LostRounds(s1, first, last, n - 1);
      RunsOn(s, a, s1, b, s');
      BeginsAdd(a, b);
      steps := a + b;
    }
  }

  /** A request whose id the target remembers: it is answered with what is remembered, it is never done, and the
      debugger accepts the answer. */
  lemma StaleRound(s: System, first: nat, last: nat) returns (steps: seq<Step>, s': System)
    requires Quiet(s, first, last) && NextId(s.id) == s.t.lastId == s.t.response.id && s.t.lastN == s.t.response.n
    ensures Runs(s, steps, s') && Begins(steps) == 1
    ensures Quiet(s'.(arrived := None), first, last) && s'.t == s.t && s'.deeds == s.deeds
    ensures s'.accepted == s.accepted + [Acceptance(s.cur.n + 1, s.t.response.answer)]
    ensures s.t.response.n in s.computed ==> s'.computed == s.computed
  {
    var b, r, a, w := Begin(Echo), RequestArrives(true), ReplyArrives(true), Wake(true);
    var s1 := Next(s, b);
    NextInTurn(s, b, first, last);
    assert s1.toTarget == [s1.cur];
    var s2 := Next(s1, r);
    assert s2.toDebugger == [s.t.response] && s2.toTarget == [];
    var s3 := Next(s2, a);
    s' := Next(s3, w);
    StepThen(s3, w, s', []);
    StepThen(s2, a, s', [w] + []);
    StepThen(s1, r, s', [a] + ([w] + []));
    StepThen(s, b, s', [r] + ([a] + ([w] + [])));
    steps := [b] + ([r] + ([a] + ([w] + [])));
  }

  /** A run with n requests in which the debugger accepts a reply that was never computed. */
  ghost predicate Misleads(first: nat, last: nat, m: Machine, n: nat, steps: seq<Step>, s: System)
    requires first < IDS && last < IDS
  {
    && Runs(Opened(first, last, m), steps, s) && Begins(steps) == n
    && s.deeds == [] && exists i: nat :: i < |s.accepted| && !RightlyAccepted(s, m, i)
  }

  /** The run: requests are lost until the ids come to the one that is remembered; that one is answered with what is
      remembered; and others are lost. */
  lemma StaleRun(first: nat, last: nat, m: Machine, n: nat) returns (steps: seq<Step>, s: System)
    requires first < IDS && last < IDS && n > Distance(first, last)
    ensures Misleads(first, last, m, n, steps, s)
  {
    var s0, k := Opened(first, last, m), Distance(first, last);
    OpenedInTurn(first, last, m);
    var a, s1 := LostRounds(s0, first, last, k);
    assert IdAt(first, k) == last;
    var b, s2 := StaleRound(s1, first, last);
    assert s2.accepted == [Acceptance(k + 1, Done)] && k + 1 !in s2.computed;
    var c;
    c, s := LostRoundsAfter(s2, first, last, n - k - 1);
    RunsOn(s0, a, s1, b, s2);
    RunsOn(s0, a + b, s2, c, s);
    BeginsAdd(a, b);
    BeginsAdd(a + b, c);
    steps := a + b + c;
    assert !RightlyAccepted(s, m, 0);
  }

  /** A reply that has been accepted is forgotten with the next request. */
  lemma LostRoundsAfter(s: System, first: nat, last: nat, n: nat) returns (steps: seq<Step>, s': System)
    requires Quiet(s.(arrived := None), first, last)
    ensures Runs(s, steps, s') && Begins(steps) == n && Unmoved(s, s')
  {
    if n == 0 {
      steps, s' := [], s;
    } else {
      var rest;
      steps, s' := LostRound(s.(arrived := None), first, last);
      assert Next(s, Begin(Echo)) == Next(s.(arrived := None), Begin(Echo));
      rest, s' := LostAgain(s, steps, s', first, last, n - 1);
      steps := rest;
    }
  }

  lemma LostAgain(s: System, a: seq<Step>, s1: System, first: nat, last: nat, n: nat) returns (steps: seq<Step>, s': System)
    requires Runs(s, a, s1) && Begins(a) == 1 && Quiet(s1, first, last) && Unmoved(s, s1)
    ensures Runs(s, steps, s') && Begins(steps) == n + 1 && Unmoved(s, s')
  {
    var b;
    b, s' := LostRounds(s1, first, last, n);
    RunsOn(s, a, s1, b, s');
    BeginsAdd(a, b);
    steps := a + b;
  }

  /** In every run with no more than n requests, every reply that is accepted is the one computed for its request. */
  ghost predicate Safe(first: nat, last: nat, m: Machine, n: nat)
  {
    forall steps: seq<Step>, s: System, i: nat ::
      Runs(Opened(first, last, m), steps, s) && Begins(steps) <= n && i < |s.accepted| ==> RightlyAccepted(s, m, i)
  }

  /** That is so if and only if n is no more than the number of ids before the one that the target remembers. */
  lemma SafeIff(first: nat, last: nat, m: Machine, n: nat)
    requires first < IDS && last < IDS
    ensures Safe(first, last, m, n) <==> n <= Distance(first, last)
  {
    if n <= Distance(first, last) {
      forall steps: seq<Step>, s: System, i: nat | Runs(Opened(first, last, m), steps, s) && Begins(steps) <= n && i < |s.accepted|
        ensures RightlyAccepted(s, m, i)
      {
        AcceptedIsComputed(first, last, m, steps, s, i);
      }
    } else {
      var steps, s := StaleRun(first, last, m, n);
    }
  }

  /** A request to stop, or to wait for a stop, may be received any number of times while the machine runs:
      once is as good. */
  lemma {:induction false} StopIsIdempotent(t: Target, r: Request, times: nat)
    requires r.command in {Stop, WaitStop} && !t.m.stopped && r.id != t.lastId && times > 0
    ensures Again(t, r, times) == Handle(t, r).t
    ensures Handle(Again(t, r, times), r).reply == None
  {
    if times > 1 {
      StopIsIdempotent(t, r, times - 1);
    }
  }

  function Again(t: Target, r: Request, times: nat): (t': Target)
  {
    if times == 0 then t else Handle(Again(t, r, times - 1), r).t
  }

  /** FreshId is needed already at the start: the first request of a debugger is done if and only if its id,
      taken from the clock, is not the one that the target answered last. */
  lemma FirstIdMatters(first: nat, last: nat, m: Machine, c: Command, s: System)
    requires first < IDS
    requires s == Next(Next(Opened(first, last, m), Begin(c)), RequestArrives(true))
    ensures s.deeds == [] <==> first == last
    ensures first == last ==> s.t.m == m && s.toDebugger == [Reply(last, 0, Done)]
  {
    var s0 := Opened(first, last, m);
    assert NextId(s0.id) == first;
    var s1 := Next(s0, Begin(c));
    assert s1.toTarget == [Request(first, 1, c)];
  }
}
