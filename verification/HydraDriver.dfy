/**
 The Hydra driver's receive loop, with the controller storing frames behind its back: between any two of the
 driver's accesses to the board.
 */
module HydraDriver {

  import opened Basics
  import opened Hydra

  /** What the controller does: it receives a frame, or gets as far as the first n bytes of one. */
  datatype Event = Arrives(f: Frame) | Partly(f: Frame, n: nat)

  class Board {
    const ram: array<Byte>
    const rxbuff: array<Byte>
    const header: array<Byte>
    var curr: nat          // the controller's CURR and BNRY
    var bnry: nat
    var nextPkt: nat
    var delivered: seq<seq<Byte>>
    var script: seq<seq<Event>>   // what happens before each of the driver's accesses from now on
    ghost var zeroFills: nat      // times the guard of the memory reader was taken
    ghost var head: nat
    ghost var tail: nat
    ghost var waiting: seq<Placed>
    ghost var taken: seq<Frame>   // frames that have left the ring
    ghost var stored: seq<Frame>  // frames that have got into it

    ghost predicate Shape()
    {
      ram.Length == STOP * PAGE && rxbuff.Length == MAX_FRAME && header.Length == 4 && rxbuff != ram && header != ram && header != rxbuff
    }

    /** The ring as the controller has it; its first page is the one after BNRY. */
    ghost predicate Controller()
      reads this, ram
    {
      && Shape() && Ring(ram[..], waiting, head, tail)
      && curr == PageOf(tail) && bnry == Behind(PageOf(head))
      && stored == taken + FramesOf(waiting)
    }

    /** Between two turns of the loop. */
    ghost predicate Valid()
      reads this, ram
    {
      Controller() && nextPkt == PageOf(head) && delivered == Accepted(taken) && zeroFills == 0
    }

    /** In a turn of the loop, with frame p to take. */
    ghost predicate Busy(p: Placed)
      reads this, ram
    {
      Controller() && waiting != [] && waiting[0] == p
    }

    /** Frames may have come; none if there is no more script. */
    ghost predicate Since(before: seq<Placed>, storedBefore: seq<Frame>, scriptBefore: seq<seq<Event>>)
      reads this
    {
      && before <= waiting && storedBefore <= stored
      && (scriptBefore == [] ==> script == [] && waiting == before && stored == storedBefore)
    }

    /** setup_ne2000 */
    constructor (events: seq<seq<Event>>)
      ensures Valid() && stored == [] && taken == [] && delivered == [] && script == events
      ensures fresh(ram) && fresh(rxbuff) && fresh(header)
    {
      nextPkt, bnry, curr := RX_START + 1, RX_START, RX_START + 1;
      delivered, zeroFills, script := [], 0, events;
      head, tail, waiting, taken, stored := 0, 0, [], [], [];
      ram := new Byte[STOP * PAGE](_ => 0);
      rxbuff := new Byte[MAX_FRAME](_ => 0);
      header := new Byte[4](_ => 0);
    }

    // ----- the controller

    /** The controller receives a frame: it stores it if there are pages for it before BNRY. */
    method Arrive(f: Frame)
      requires Controller()
      modifies this`curr, this`tail, this`waiting, this`stored, ram
      ensures Controller()
      ensures var fits := Need(f) <= FreePages(old(curr), bnry);
              waiting == old(waiting) + (if fits then [Placed(old(tail), f)] else [])
              && stored == old(stored) + (if fits then [f] else [])
    {
      FreePagesAre(head, tail);
      if Need(f) > FreePages(curr, bnry) {
        NothingMore(waiting, stored);
        return;
      }
      Accept(f);
    }

    static lemma NothingMore(a: seq<Placed>, b: seq<Frame>)
      ensures a + [] == a && b + [] == b
    {
    }

    static lemma OneMore(ps: seq<Placed>, taken: seq<Frame>, p: Placed)
      ensures taken + FramesOf(ps + [p]) == taken + FramesOf(ps) + [p.f]
    {
      assert FramesOf(ps + [p]) == FramesOf(ps) + [p.f];
    }

    /** A frame for which there is room. */
    method Accept(f: Frame)
      requires Controller() && Fits(f, head, tail)
      modifies this`curr, this`tail, this`waiting, this`stored, ram
      ensures Controller()
      ensures waiting == old(waiting) + [Placed(old(tail), f)] && stored == old(stored) + [f]
    {
      ArrivalKeepsRing(ram[..], waiting, head, tail, f);
      ghost var p := Placed(tail, f);
      OneMore(waiting, taken, p);
      StoreFrame(f, 4 + |f.data|, p);
      PagesWrap(tail, Need(f));
      curr := if curr + Need(f) < STOP then curr + Need(f) else curr + Need(f) - PAGES;
      waiting, stored, tail := waiting + [p], stored + [f], After(p);
    }

    /** A frame that the controller has not finished with. */
    method Begin(f: Frame, n: nat)
      requires Controller()
      modifies ram
      ensures Controller()
    {
      FreePagesAre(head, tail);
      if Need(f) <= FreePages(curr, bnry) && n <= 4 + |f.data| {
        PartKeepsRing(ram[..], waiting, head, tail, f, n);
        StoreFrame(f, n, Placed(tail, f));
      }
    }

    static lemma PagesWrap(v: nat, n: nat)
      requires n < PAGES
      ensures PageOf(v + n) == if PageOf(v) + n < STOP then PageOf(v) + n else PageOf(v) + n - PAGES
    {
    }

    /** The first n of a frame's header and bytes go to consecutive places from CURR on, around the end of the ring. */
    method StoreFrame(f: Frame, n: nat, ghost p: Placed)
      requires Shape() && p.f == f && Need(f) < PAGES && curr == PageOf(p.v) && n <= 4 + |f.data|
      modifies ram
      ensures ram[..] == Write(old(ram[..]), p, n)
    {
      var at := curr * PAGE;
      PageBegins(p.v);
      var next := if curr + Need(f) < STOP then curr + Need(f) else curr + Need(f) - PAGES;
      PagesWrap(p.v, Need(f));
      var image := [next, f.rsr, (4 + |f.data|) % 256, (4 + |f.data|) / 256] + f.data;
      assert image == Image(f, p.v);
      for i := 0 to n
        invariant ram[..] == Write(old(ram[..]), p, i) && at == At(PAGE * p.v + i)
      {
        NextByte(p.v, i);
        ram[at] := image[i];
        at := if at + 1 == STOP * PAGE then RX_START * PAGE else at + 1;
      }
    }

    static lemma NextByte(v: nat, n: nat)
      requires n + 1 < RING
      ensures At(PAGE * v + (n + 1)) == if At(PAGE * v + n) + 1 == STOP * PAGE then RX_START * PAGE else At(PAGE * v + n) + 1
    {
      BytesFollow(v, n);
      BytesFollow(v, n + 1);
    }

    /** One event. */
    method Happen(e: Event)
      requires Controller()
      modifies this`curr, this`tail, this`waiting, this`stored, ram
      ensures Controller() && old(waiting) <= waiting && old(stored) <= stored
    {
      match e
      case Arrives(f) => Arrive(f);
      case Partly(f, n) => Begin(f, n);
    }

    /** What happens before the next access. */
    method Tick()
      requires Controller()
      modifies this`script, this`curr, this`tail, this`waiting, this`stored, ram
      ensures Controller() && Since(old(waiting), old(stored), old(script))
    {
      if script != [] {
        var now := script[0];
        script := script[1..];
        for i := 0 to |now|
          invariant Controller() && old(waiting) <= waiting && old(stored) <= stored
        {
          Happen(now[i]);
        }
      }
    }

    // ----- reading the board's memory

    /** Byte i of what was asked for is that of the frame's image. */
    static ghost predicate ByteIs(bytes: seq<Byte>, to: nat, p: Placed, k: nat, i: nat)
      requires to + i < |bytes| && k + i < 4 + |p.f.data| < RING
    {
      bytes[to + i] == Image(p.f, p.v)[k + i]
    }

    /** So are the first n of them. */
    static ghost predicate Part(bytes: seq<Byte>, to: nat, n: nat, p: Placed, k: nat)
    {
      4 + |p.f.data| < RING && k + n <= 4 + |p.f.data| && to + n <= |bytes| && forall i: nat :: i < n ==> ByteIs(bytes, to, p, k, i)
    }

    /** What lies outside is as before. */
    static ghost predicate Elsewhere(before: seq<Byte>, bytes: seq<Byte>, to: nat, len: int)
    {
      |before| == |bytes| && forall i: nat :: i < |bytes| && !(to <= i < to + len) ==> bytes[i] == before[i]
    }

    ghost predicate Asked(p: Placed, k: nat, len: int, offset: int)
    {
      0 <= len && 0 <= offset && Covers(p, k, len, offset)
    }

    predicate Inside(len: int, offset: int)
    {
      0 <= len && 0 <= offset && offset + (len + 3) / 4 * 4 <= STOP * PAGE
    }

    /** hydra_ram_read_offset: bytes out of the board's memory, a long word at a time; zeros if they are not all
        inside it.  While frame p is being taken its bytes can be read, whatever the controller does between two
        long words. */
    method RamRead(buf: array<Byte>, to: nat, len: int, offset: int, ghost p: Placed, ghost k: nat)
      requires Busy(p) && buf != ram && len <= buf.Length - to && offset % 4 == 0
      modifies buf, this`zeroFills, this`script, this`curr, this`tail, this`waiting, this`stored, ram
      ensures Busy(p) && Since(old(waiting), old(stored), old(script)) && Elsewhere(old(buf[..]), buf[..], to, len)
      ensures zeroFills == old(zeroFills) <==> Inside(len, offset)
      ensures Asked(p, k, len, offset) && len > 0 ==> Inside(len, offset) && Part(buf[..], to, len, p, k)
    {
      var nlongs := (len + 3) / 4;
      if Asked(p, k, len, offset) && len > 0 {
        InsideMemory(p, k, len, offset);
      }
      if len < 0 || offset < 0 || offset + nlongs * 4 > STOP * PAGE {
        zeroFills := zeroFills + 1;
        ZeroFill(buf, to, len);
        return;
      }
      ReadLongs(buf, to, len, offset, nlongs, p, k);
    }

    method ZeroFill(buf: array<Byte>, to: nat, len: int)
      requires Shape() && buf != ram && len <= buf.Length - to
      modifies buf
      ensures Elsewhere(old(buf[..]), buf[..], to, len)
    {
      for i := 0 to if len < 0 then 0 else len
        invariant Elsewhere(old(buf[..]), buf[..], to, len)
      {
        buf[to + i] := 0;
      }
    }

    static lemma InsideMemory(p: Placed, k: nat, len: nat, offset: nat)
      requires Covers(p, k, len, offset) && offset % 4 == 0 && len > 0
      ensures offset + (len + 3) / 4 * 4 <= STOP * PAGE
    {
      assert IsAt(p, k, offset, len - 1);
    }

    /** The loop of RamRead. */
    method ReadLongs(buf: array<Byte>, to: nat, len: nat, offset: nat, nlongs: nat, ghost p: Placed, ghost k: nat)
      requires Busy(p) && buf != ram && to + len <= buf.Length && offset + 4 * nlongs <= STOP * PAGE && len <= 4 * nlongs
      modifies buf, this`script, this`curr, this`tail, this`waiting, this`stored, ram
      ensures Busy(p) && Since(old(waiting), old(stored), old(script)) && Elsewhere(old(buf[..]), buf[..], to, len)
      ensures Covers(p, k, len, offset) ==> Part(buf[..], to, len, p, k)
    {
      for i := 0 to nlongs
        invariant Busy(p) && Since(old(waiting), old(stored), old(script)) && Elsewhere(old(buf[..]), buf[..], to, len)
        invariant Covers(p, k, len, offset) ==> Part(buf[..], to, Least(4 * i, len), p, k)
      {
        TickKeeping(buf, p);
        ReadLong(buf, to, len, offset, i, p, k);
      }
    }

    static function Least(n: nat, len: nat): (m: nat)
    {
      if n < len then n else len
    }

    /** What happens before a long word is read. */
    method TickKeeping(ghost buf: array<Byte>, ghost p: Placed)
      requires Busy(p) && buf != ram
      modifies this`script, this`curr, this`tail, this`waiting, this`stored, ram
      ensures Busy(p) && Since(old(waiting), old(stored), old(script)) && buf[..] == old(buf[..])
    {
      Tick();
    }

    /** One long word of RamRead. */
    method ReadLong(buf: array<Byte>, to: nat, len: nat, offset: nat, i: nat, ghost p: Placed, ghost k: nat)
      requires Busy(p) && buf != ram && to + len <= buf.Length && offset + 4 * i + 4 <= STOP * PAGE
      requires Covers(p, k, len, offset) ==> Part(buf[..], to, Least(4 * i, len), p, k)
      modifies buf
      ensures Busy(p) && Elsewhere(old(buf[..]), buf[..], to, len)
      ensures Covers(p, k, len, offset) ==> Part(buf[..], to, Least(4 * i + 4, len), p, k)
    {
      var o := offset + 4 * i;
      var v := Long(ram[o], ram[o + 1], ram[o + 2], ram[o + 3]);
      LongBytes(ram[o], ram[o + 1], ram[o + 2], ram[o + 3]);
      for j := 0 to 4
        invariant ram[..] == old(ram[..]) && Elsewhere(old(buf[..]), buf[..], to, len)
        invariant Covers(p, k, len, offset) ==> Part(buf[..], to, Least(4 * i + j, len), p, k)
      {
        var n := 4 * i + j;
        if n < len {
          PutByte(buf, to, n, ByteIn(v, 3 - j), len, offset, p, k);
        }
      }
    }

    method PutByte(buf: array<Byte>, to: nat, n: nat, b: Byte, ghost len: nat, ghost offset: nat, ghost p: Placed, ghost k: nat)
      requires Shape() && buf != ram && n < len && to + len <= buf.Length && offset + n < ram.Length && b == ram[offset + n]
      requires Covers(p, k, len, offset) ==> StoredAt(ram[..], p) && Part(buf[..], to, n, p, k)
      modifies buf
      ensures buf[..] == old(buf[..])[to + n := b]
      ensures Covers(p, k, len, offset) ==> Part(buf[..], to, n + 1, p, k)
    {
      if Covers(p, k, len, offset) {
        CoveredByte(ram[..], p, k, len, offset, n);
        PartMore(buf[..], to, n, p, k, b);
      }
      buf[to + n] := b;
    }

    static lemma PartMore(bytes: seq<Byte>, to: nat, n: nat, p: Placed, k: nat, b: Byte)
      requires Part(bytes, to, n, p, k) && to + n < |bytes| && k + n < 4 + |p.f.data| && b == Image(p.f, p.v)[k + n]
      ensures Part(bytes[to + n := b], to, n + 1, p, k)
    {
      var bytes' := bytes[to + n := b];
      forall i: nat | i < n + 1
        ensures ByteIs(bytes', to, p, k, i)
      {
        assert i < n ==> ByteIs(bytes, to, p, k, i);
      }
    }

    /** What the header of a stored frame says. */
    method HeaderOf(ghost p: Placed) returns (nextFrame: nat, rsr: Byte, size: nat)
      requires Busy(p) && nextPkt == PageOf(p.v)
      modifies header, this`zeroFills, this`script, this`curr, this`tail, this`waiting, this`stored, ram
      ensures Busy(p) && Since(old(waiting), old(stored), old(script)) && zeroFills == old(zeroFills)
      ensures nextFrame == PageOf(After(p)) && rsr == p.f.rsr && size == 4 + |p.f.data|
    {
      FramePlaces(p);
      RamRead(header, 0, 4, nextPkt * PAGE, p, 0);
      HeaderSays(header[..], p);
      var low: nat, high: nat := header[2], header[3];
      nextFrame, rsr, size := header[0], header[1], high * 256 + low;
    }

    static lemma HeaderSays(h: seq<Byte>, p: Placed)
      requires |h| == 4 && Part(h, 0, 4, p, 0)
      ensures h[0] == PageOf(After(p)) && h[1] == p.f.rsr
      ensures var low: nat, high: nat := h[2], h[3]; high * 256 + low == 4 + |p.f.data|
    {
      SizeBytes(p.f, p.v);
      assert ByteIs(h, 0, p, 0, 0) && ByteIs(h, 0, p, 0, 1) && ByteIs(h, 0, p, 0, 2) && ByteIs(h, 0, p, 0, 3);
    }

    /** The frame on the page next_pkt copied to rxbuff, in two parts if it goes around the end. */
    method CopyFrame(pktsize: nat, ghost p: Placed)
      requires Busy(p) && 0 < pktsize == |p.f.data| <= MAX_FRAME && nextPkt == PageOf(p.v)
      modifies rxbuff, this`zeroFills, this`script, this`curr, this`tail, this`waiting, this`stored, ram
      ensures Busy(p) && Since(old(waiting), old(stored), old(script)) && zeroFills == old(zeroFills)
      ensures rxbuff[..pktsize] == p.f.data
    {
      FramePlaces(p);
      var offset := nextPkt * PAGE + 4;
      var stop := STOP * PAGE;
      if offset + pktsize > stop {
        CopyAround(stop - offset, pktsize, offset, p);
      } else {
        RamRead(rxbuff, 0, pktsize, offset, p, 4);
        WholeFrame(rxbuff[..], p);
      }
    }

    method CopyAround(semi: nat, pktsize: nat, offset: nat, ghost p: Placed)
      requires Busy(p) && 0 < semi < pktsize == |p.f.data| <= MAX_FRAME && offset % 4 == 0
      requires Covers(p, 4, semi, offset) && Covers(p, 4 + semi, pktsize - semi, RX_START * PAGE)
      modifies rxbuff, this`zeroFills, this`script, this`curr, this`tail, this`waiting, this`stored, ram
      ensures Busy(p) && Since(old(waiting), old(stored), old(script)) && zeroFills == old(zeroFills)
      ensures rxbuff[..pktsize] == p.f.data
    {
      RamRead(rxbuff, 0, semi, offset, p, 4);
      ghost var first := rxbuff[..];
      RamRead(rxbuff, semi, pktsize - semi, RX_START * PAGE, p, 4 + semi);
      TwoParts(first, rxbuff[..], semi, p);
      WholeFrame(rxbuff[..], p);
    }

    static lemma TwoParts(first: seq<Byte>, bytes: seq<Byte>, semi: nat, p: Placed)
      requires semi <= |p.f.data| && Part(first, 0, semi, p, 4) && Part(bytes, semi, |p.f.data| - semi, p, 4 + semi)
      requires Elsewhere(first, bytes, semi, |p.f.data| - semi)
      ensures Part(bytes, 0, |p.f.data|, p, 4)
    {
      forall i: nat | i < |p.f.data|
        ensures ByteIs(bytes, 0, p, 4, i)
      {
        if i < semi {
          assert ByteIs(first, 0, p, 4, i);
        } else {
          assert ByteIs(bytes, semi, p, 4 + semi, i - semi);
        }
      }
    }

    static lemma WholeFrame(bytes: seq<Byte>, p: Placed)
      requires Part(bytes, 0, |p.f.data|, p, 4)
      ensures bytes[..|p.f.data|] == p.f.data
    {
      forall i: nat | i < |p.f.data|
        ensures bytes[i] == p.f.data[i]
      {
        assert ByteIs(bytes, 0, p, 4, i);
      }
    }

    // ----- one turn of the loop

    /** BNRY moves on to the page before the next frame, and with it the ring's first page. */
    method Advance(nextFrame: nat, ghost p: Placed)
      requires Busy(p) && nextFrame == PageOf(After(p))
      modifies this`bnry, this`head, this`waiting, this`taken
      ensures Controller() && bnry == Behind(nextFrame) && nextFrame == PageOf(head)
      ensures waiting == old(waiting)[1..] && taken == old(taken) + [p.f]
    {
      TakingKeepsRing(ram[..], waiting, head, tail);
      FirstTaken(waiting, taken);
      var b := nextFrame - 1;
      if b < RX_START {
        b := STOP - 1;
      }
      bnry := b;
      head, taken, waiting := After(waiting[0]), taken + [waiting[0].f], waiting[1..];
    }

    static lemma FirstTaken(ps: seq<Placed>, taken: seq<Frame>)
      requires ps != []
      ensures taken + FramesOf(ps) == taken + [ps[0].f] + FramesOf(ps[1..])
    {
      assert FramesOf(ps) == [ps[0].f] + FramesOf(ps[1..]);
    }

    static lemma AcceptedMore(taken: seq<Frame>, f: Frame)
      ensures Accepted(taken + [f]) == Accepted(taken) + if Acceptable(f) then [f.data] else []
    {
      assert (taken + [f])[..|taken|] == taken;
    }

    /** One turn of the loop with a frame to take. */
    method TakeFrame()
      requires Valid() && waiting != []
      modifies this, ram, rxbuff, header
      ensures Valid() && old(stored) <= stored
      ensures taken == old(taken) + [old(waiting)[0].f]
      ensures old(script) == [] ==> script == [] && stored == old(stored) && waiting == old(waiting)[1..]
    {
      ghost var p := waiting[0];
      var nextFrame, rsr, size := HeaderOf(p);
      if nextFrame < RX_START || nextFrame >= STOP {
        // the driver's way out of a ring that is not well formed
        assert false;
      }
      TakeData(rsr, size - 4, nextFrame, p);
    }

    /** The rest of the turn, once the header has been found good. */
    method TakeData(rsr: Byte, pktsize: nat, nextFrame: nat, ghost p: Placed)
      requires Valid() && Busy(p) && nextFrame == PageOf(After(p)) && rsr == p.f.rsr && pktsize == |p.f.data|
      modifies this, ram, rxbuff
      ensures Valid() && old(stored) <= stored && taken == old(taken) + [p.f]
      ensures old(script) == [] ==> script == [] && stored == old(stored) && waiting == old(waiting)[1..]
    {
      var good := rsr % 2 == 1 && MIN_FRAME <= pktsize <= MAX_FRAME;
      if good {
        CopyFrame(pktsize, p);
      }
      GiveBack(nextFrame, p);
      Deliver(good, pktsize, p.f);
    }

    /** next_pkt, and then BNRY, are moved on. */
    method GiveBack(nextFrame: nat, ghost p: Placed)
      requires Busy(p) && nextFrame == PageOf(After(p))
      modifies this`nextPkt, this`bnry, this`head, this`waiting, this`taken, this`script, this`curr, this`tail, this`stored, ram
      ensures Controller() && nextPkt == PageOf(head) && old(stored) <= stored && taken == old(taken) + [p.f]
      ensures old(script) == [] ==> script == [] && stored == old(stored) && waiting == old(waiting)[1..]
    {
      nextPkt := nextFrame;
      Tick();
      Advance(nextFrame, p);
    }

    /** toss_packet_up_stream, if the frame is good. */
    method Deliver(good: bool, pktsize: nat, ghost f: Frame)
      requires Controller() && nextPkt == PageOf(head) && zeroFills == 0
      requires taken != [] && taken[|taken| - 1] == f && delivered == Accepted(taken[..|taken| - 1])
      requires good <==> Acceptable(f)
      requires good ==> pktsize == |f.data| && rxbuff[..pktsize] == f.data
      modifies this`delivered
      ensures Valid()
    {
      AcceptedMore(taken[..|taken| - 1], f);
      assert taken == taken[..|taken| - 1] + [f];
      if good {
        delivered := delivered + [rxbuff[..pktsize]];
      }
    }

    // ----- the loop

    /** CURR, as the driver reads it at the beginning of a turn: it is next_pkt if and only if the ring is empty. */
    method ReadCurr() returns (empty: bool)
      requires Valid()
      modifies this`script, this`curr, this`tail, this`waiting, this`stored, ram
      ensures Valid() && Since(old(waiting), old(stored), old(script)) && (!empty ==> waiting != [])
      ensures old(script) == [] ==> (empty <==> waiting == [])
    {
      Tick();
      empty := nextPkt == curr;
      PagesDiffer(head, tail);
      EmptyIff(ram[..], waiting, head, tail);
      Tick();   // BNRY is read, too
    }

    /** receive_interrupt.  The script says what the controller does before each access to the board: before each
        register and each long word that is read, and before BNRY is written.  Frames leave the ring in the order in
        which they got into it, and those that are acceptable are delivered, byte for byte.  The loop stops when it
        finds the ring empty, or after 256 turns. */
    method ReceiveInterrupt()
      requires Valid()
      modifies this, ram, rxbuff, header
      ensures Valid() && old(stored) <= stored && old(taken) <= taken <= stored && old(delivered) <= delivered
      ensures old(script) == [] ==> waiting == [] && taken == stored == old(stored)
    {
      var loopCount := 0;
      ghost var t := taken;
      WaitingFits(ram[..], waiting, head, tail);
      while true
        invariant Valid() && old(stored) <= stored && t <= taken && loopCount <= 256
        invariant old(script) == [] ==> script == [] && stored == old(stored) && |waiting| + loopCount == old(|waiting|)
        decreases 256 - loopCount
      {
        loopCount := loopCount + 1;
        if loopCount > 256 {
          break;
        }
        var empty := ReadCurr();
        if empty {
          break;
        }
        TakeFrame();
      }
      DeliveredGrows(t, taken);
      StoredIsTaken(stored, taken, waiting);
    }

    static lemma EmptyIff(mem: seq<Byte>, ps: seq<Placed>, head: nat, tail: nat)
      requires Ring(mem, ps, head, tail)
      ensures head == tail <==> ps == []
    {
    }

    static lemma WaitingFits(mem: seq<Byte>, ps: seq<Placed>, head: nat, tail: nat)
      requires Ring(mem, ps, head, tail)
      ensures |ps| <= tail - head
      decreases |ps|
    {
      if ps != [] {
        TakingKeepsRing(mem, ps, head, tail);
        WaitingFits(mem, ps[1..], After(ps[0]), tail);
      }
    }

    static lemma {:induction false} DeliveredGrows(a: seq<Frame>, b: seq<Frame>)
      requires a <= b
      ensures Accepted(a) <= Accepted(b)
      decreases |b| - |a|
    {
      if |a| < |b| {
        var c := a + [b[|a|]];
        AcceptedMore(a, b[|a|]);
        DeliveredGrows(c, b);
      } else {
        assert a == b;
      }
    }

    static lemma StoredIsTaken(stored: seq<Frame>, taken: seq<Frame>, ps: seq<Placed>)
      requires stored == taken + FramesOf(ps)
      ensures taken <= stored && (ps == [] ==> taken == stored)
    {
    }
  }
}
