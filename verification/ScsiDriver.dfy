/**
 The SCSI drivers as they are written: fields updated in place by handlers.  Each handler is proved to do
 what the functions of Scsi say, and keeps the invariant proved there.
 */
module ScsiDriver {

  import opened Scsi
  import S = Scsi

  class Driver {
    const board: Board
    var coms: seq<seq<Request>>
    var tcs: seq<nat>
    var waiting: seq<Unit>
    var curunit: Unit
    var istate: Phase
    var dmaOn: bool
    var tc: nat
    var chipaddr: int
    ghost var away: set<Unit>
    ghost var log: seq<Event>

    ghost function View(): (s: State)
      reads this
    {
      State(coms, tcs, waiting, curunit, istate, dmaOn, tc, chipaddr, away, log)
    }

    ghost predicate Valid()
      reads this
    {
      Inv(board, View())
    }

    constructor (b: Board)
      ensures Valid() && board == b && View() == Initial()
    {
      board := b;
      coms, tcs, waiting, curunit := seq(UNITS, _ => []), seq(UNITS, _ => 0), [], 0;
      istate, dmaOn, tc, chipaddr, away, log := Idle, false, 0, 0, {}, [];
      new;
      InitialInv(b);
    }

    /** a3091queue, a2091queue */
    method Queue(r: Request, mem: int)
      requires Valid() && mem != 0
      modifies this
      ensures View() == Enqueue(board, old(View()), r, mem) && Valid()
    {
      EnqueueKeepsInv(board, View(), r, mem);
      QueueRequest(r, mem);
    }

    method QueueRequest(r: Request, mem: int)
      requires Shape(View()) && (istate == Idle ==> waiting == [])
      modifies this
      ensures View() == Enqueue(board, old(View()), r, mem)
    {
      var first := coms[r.unit] == [];
      coms := coms[r.unit := coms[r.unit] + [r]];
      log := log + [Queued(r)];
      if first {
        UnitWaits(r.unit, mem);
      }
    }

    /** uqueue */
    method UnitWaits(u: Unit, mem: int)
      requires Shape(View()) && (istate == Idle ==> waiting == [] && coms[u] != [])
      modifies this
      ensures View() == WaitForChip(board, old(View()), u, mem)
    {
      if waiting != [] {
        waiting := waiting + [u];
      } else {
        waiting := [u];
        StartAny(mem);
      }
    }

    /** startany */
    method StartAny(mem: int)
      requires Shape(View()) && (istate == Idle && waiting != [] ==> coms[waiting[0]] != [])
      modifies this
      ensures View() == S.StartAny(board, old(View()), mem)
    {
      if istate != Idle || waiting == [] {
        return;
      }
      var u := waiting[0];
      waiting := waiting[1..];
      var r := coms[u][0];
      curunit := u;
      tcs := tcs[u := r.nbyte % 0x1000000];
      StartDma(u, mem);
      istate := Starting;
      log := log + [Began(r)];
    }

    /** startdma */
    method StartDma(u: Unit, mem: int)
      requires Shape(View()) && coms[u] != []
      modifies this`dmaOn, this`tc, this`chipaddr, this`log
      ensures View() == S.StartDma(board, old(View()), u, mem)
    {
      var n := tcs[u];
      if board == A2091 {
        tc := n;
      }
      if n == 0 {
        return;
      }
      var r := coms[u][0];
      if board == A3091 {
        log := log + [DmaOn(r, r.addr + r.nbyte - n, n)];
        dmaOn := true;
      } else if r.addr >= BOUNCE_FROM {
        ghost var before := log;
        chipaddr := mem;
        log := log + [Alloc(mem, n)];
        if !r.reading {
          log := log + [CopyIn(r, r.addr + r.nbyte - n, n)];
        }
        log := log + [DmaOn(r, mem, n)];
        assert log == before + BounceStart(r, r.addr + r.nbyte - n, n, mem);
      } else {
        log := log + [DmaOn(r, r.addr + r.nbyte - n, n)];
      }
    }

    /** stopdma */
    method StopDma()
      requires Shape(View()) && coms[curunit] != []
      modifies this`dmaOn, this`chipaddr, this`log
      ensures View() == S.StopDma(board, old(View()))
    {
      if board == A3091 {
        if dmaOn {
          log := log + [DmaOff];
          dmaOn := false;
        }
        return;
      }
      if tc == 0 {
        return;
      }
      ghost var before := log;
      log := log + [DmaOff];
      if chipaddr != 0 {
        var r := coms[curunit][0];
        if r.reading {
          log := log + [CopyOut(r, r.addr + r.nbyte - tc, tc)];
        }
        log := log + [Free(chipaddr, tc)];
        assert log == before + BounceStop(r, tc, chipaddr);
        chipaddr := 0;
      }
    }

    /** Actions 0 and 5: the current request is over. */
    method EndRequest(outcome: Outcome, again: seq<Request>, mem: int)
      requires Good(board, View(), true, true) && istate != Idle && mem != 0
      modifies this
      ensures View() == FinishRequest(board, old(View()), outcome, again, mem)
    {
      ghost var s := View();
      FinishedIsGood(board, s, outcome, again, mem);
      StopDmaOnly(board, s);
      assert Placed(s, curunit, true);
      StopDma();
      var up := curunit;
      var cp := coms[up][0];
      coms := coms[up := coms[up][1..]];
      if coms[up] != [] {
        UnitWaits(up, mem);
      }
      log := log + [Done(cp, outcome)];
      Callback(again, mem);
      istate := Idle;
      assert View() == Finished(board, s, outcome, again, mem);
      if waiting != [] {
        FirstLeaves(View());
      }
      StartAny(mem);
    }

    /** The completion callback, which may queue more requests. */
    method Callback(again: seq<Request>, mem: int)
      requires Shape(View()) && istate != Idle
      modifies this
      ensures View() == EnqueueAll(board, old(View()), again, mem)
    {
      ghost var s := View();
      for i := 0 to |again|
        invariant Shape(View()) && istate != Idle
        invariant EnqueueAll(board, s, again, mem) == EnqueueAll(board, View(), again[i..], mem)
      {
        assert again[i..][1..] == again[i + 1..];
        EnqueueIsAppended(board, View(), again[i], mem);
        QueueRequest(again[i], mem);
      }
    }

    /** Action 3, and the second part of action 2. */
    method ReselectUnit(si: nat, mem: int)
      requires Shape(View())
      modifies this
      ensures View() == Reselect(board, old(View()), si, mem)
    {
      var up: Unit := si % UNITS;
      if coms[up] == [] {
        istate := Dead;
        return;
      }
      StartDma(up, mem);
      curunit := up;
      istate := Resuming;
      away := away - {up};
    }

    /** a3091intr, service */
    method Interrupt(x: Input)
      requires Valid() && Plausible(View(), x)
      modifies this
      ensures View() == S.Interrupt(board, old(View()), x) && Valid()
    {
      InterruptKeepsInv(board, View(), x);
      assert istate != Idle && istate != Dead ==> Placed(View(), curunit, true);
      match ActionFor(istate, SignalOf(x.ss))
      case Complete => EndRequest(if x.cp == 0x60 then Okay(x.ts) else Failed, x.again, x.mem);
      case Shutdown => istate := Dead;
      case Swap =>
        StopDmaOnly(board, View());
        StopDma();
        UnitWaits(curunit, x.mem);
        ReselectUnit(x.si, x.mem);
      case Reconnect => ReselectUnit(x.si, x.mem);
      case Accept => istate := Resuming;
      case Abort => EndRequest(Failed, x.again, x.mem);
      case Save =>
        tcs := tcs[curunit := x.tc];
        istate := Resuming;
      case Yield => YieldUnit(x.mem);
      case ReadMessage => istate := if x.dr == 0x03 then Messaging else Dead;
      case Finish => istate := Ending;
    }

    /** Action 7: the target has disconnected. */
    method YieldUnit(mem: int)
      requires Good(board, View(), true, true) && istate != Idle && mem != 0
      modifies this
      ensures View() == S.StartAny(board, S.StopDma(board, old(View())).(phase := Idle, away := old(away) + {old(curunit)}), mem)
    {
      ghost var s := View();
      assert Placed(s, curunit, true);
      StopDmaOnly(board, s);
      YieldedIsGood(board, s);
      StopDma();
      istate := Idle;
      away := away + {curunit};
      if waiting != [] {
        FirstLeaves(View());
      }
      StartAny(mem);
    }
  }
}
