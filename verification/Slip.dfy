/**
 SLIP framing (RFC 1055, section "PROTOCOL"): the encoder of slipxmit and the byte-at-a-time decoder of
 ttyrput, which carries its half-built packet and its escape flag from one tty message to the next.
 */
module Slip {

  import opened Basics

  type byte = x: int | 0 <= x < 256
  type Packet = seq<byte>

  const FRAME_END: byte := 0xC0
  const FRAME_ESCAPE: byte := 0xDB
  const TRANSPOSED_FRAME_END: byte := 0xDC
  const TRANSPOSED_FRAME_ESCAPE: byte := 0xDD
  const SLIP_MAX: nat := 1006

  /** What the stream environment answers while one tty message is processed: canput on the DLPI queue,
      and whether allocb finds memory for the DLPI header and for a fresh packet buffer. */
  datatype Env = Env(canput: bool, header: bool, buffer: bool)

  const AllWell := Env(true, true, true)

  /** slipdev.curblk and slipdev.escaped, with the packets passed upstream so far. */
  datatype Rx = Rx(curblk: Option<Packet>, escaped: bool, upstream: seq<Packet>)

  predicate Special(c: byte)
  {
    c == FRAME_END || c == FRAME_ESCAPE
  }

  function EncodeByte(c: byte): Packet
  {
    if c == FRAME_ESCAPE then [FRAME_ESCAPE, TRANSPOSED_FRAME_ESCAPE]
    else if c == FRAME_END then [FRAME_ESCAPE, TRANSPOSED_FRAME_END]
    else [c]
  }

  function EncodeBytes(p: Packet): Packet
  {
    if p == [] then [] else EncodeBytes(p[..|p| - 1]) + EncodeByte(p[|p| - 1])
  }

  function Encode(p: Packet): Packet
  {
    EncodeBytes(p) + [FRAME_END]
  }

  function EncodeAll(ps: seq<Packet>): Packet
  {
    if ps == [] then [] else EncodeAll(ps[..|ps| - 1]) + Encode(ps[|ps| - 1])
  }

  function Flatten(chain: seq<Packet>): Packet
  {
    if chain == [] then [] else Flatten(chain[..|chain| - 1]) + chain[|chain| - 1]
  }

  /** The decoder's reaction to one byte. */
  function Step(s: Rx, c: byte, env: Env): Rx
  {
    if c == FRAME_END then
      if s.curblk.Some? && s.curblk.value != [] && env.canput then
        s.(curblk := None, upstream := if env.header then s.upstream + [s.curblk.value] else s.upstream)
      else s
    else if c == FRAME_ESCAPE then s.(escaped := true)
    else
      var d := if s.escaped && c == TRANSPOSED_FRAME_ESCAPE then FRAME_ESCAPE
               else if s.escaped && c == TRANSPOSED_FRAME_END then FRAME_END
               else c;
      if s.curblk.None? && !env.buffer then s.(escaped := false)
      else
        var kept := if s.curblk.None? || |s.curblk.value| >= SLIP_MAX then [] else s.curblk.value;
        s.(escaped := false, curblk := Some(kept + [d]))
  }

  function Run(s: Rx, input: seq<byte>, env: Env): Rx
  {
    if input == [] then s else Step(Run(s, input[..|input| - 1], env), input[|input| - 1], env)
  }

  /** Cutting the byte stream into messages anywhere makes no difference. */
  lemma {:induction false} RunConcat(s: Rx, a: seq<byte>, b: seq<byte>, env: Env)
    ensures Run(s, a + b, env) == Run(Run(s, a, env), b, env)
  {
    if b == [] {
      assert a + b == a;
    } else {
      assert (a + b)[..|a + b| - 1] == a + b[..|b| - 1];
      RunConcat(s, a, b[..|b| - 1], env);
    }
  }

  lemma RunOne(s: Rx, c: byte, env: Env)
    ensures Run(s, [c], env) == Step(s, c, env)
  {
    assert [c][..0] == [];
    assert Run(s, [c], env) == Step(Run(s, [], env), c, env);
  }

  lemma RunTwo(s: Rx, c: byte, d: byte, env: Env)
    ensures Run(s, [c, d], env) == Step(Step(s, c, env), d, env)
  {
    RunOne(s, c, env);
    RunOne(Step(s, c, env), d, env);
    RunConcat(s, [c], [d], env);
    assert [c] + [d] == [c, d];
  }

  /** The escape sequence of a byte decodes to that byte. */
  lemma EscapeRoundTrip(s: Rx, c: byte)
    requires !s.escaped
    ensures Run(s, EncodeByte(c), AllWell)
         == s.(curblk := Append(s.curblk, c))
  {
    if c == FRAME_ESCAPE {
      RunTwo(s, FRAME_ESCAPE, TRANSPOSED_FRAME_ESCAPE, AllWell);
    } else if c == FRAME_END {
      RunTwo(s, FRAME_ESCAPE, TRANSPOSED_FRAME_END, AllWell);
    } else {
      RunOne(s, c, AllWell);
    }
  }

  function RunMessages(s: Rx, messages: seq<Packet>, env: Env): Rx
  {
    if messages == [] then s
    else Run(RunMessages(s, messages[..|messages| - 1], env), messages[|messages| - 1], env)
  }

  lemma {:induction false} ChunkingIsIrrelevant(s: Rx, messages: seq<Packet>, env: Env)
    ensures RunMessages(s, messages, env) == Run(s, Flatten(messages), env)
  {
    if messages != [] {
      var init := messages[..|messages| - 1];
      ChunkingIsIrrelevant(s, init, env);
      RunConcat(s, Flatten(init), messages[|messages| - 1], env);
    }
  }

  lemma RunSnoc(s: Rx, p: Packet, c: byte)
    ensures Run(s, EncodeBytes(p + [c]), AllWell) == Run(Run(s, EncodeBytes(p), AllWell), EncodeByte(c), AllWell)
  {
    assert (p + [c])[..|p|] == p;
    RunConcat(s, EncodeBytes(p), EncodeByte(c), AllWell);
  }

  /** What survives of a packet in a buffer of SLIP_MAX bytes that is emptied whenever it is full. */
  function Kept(p: Packet): (r: Packet)
    ensures |p| <= SLIP_MAX ==> r == p
    ensures |p| > SLIP_MAX ==> |r| < |p|
    ensures (r == []) == (p == [])
    ensures |r| <= SLIP_MAX
  {
    if p == [] then [] else p[(|p| - 1) / SLIP_MAX * SLIP_MAX..]
  }

  lemma KeptGrows(p: Packet, c: byte)
    ensures Kept(p + [c]) == (if |Kept(p)| >= SLIP_MAX then [] else Kept(p)) + [c]
  {
    if p != [] {
      var n, q := |p|, (|p| - 1) / SLIP_MAX;
      if n % SLIP_MAX == 0 {
        assert n / SLIP_MAX == q + 1;
        assert n == (q + 1) * SLIP_MAX;
      } else {
        assert n / SLIP_MAX == q;
      }
    }
  }

  function Buffer(p: Packet): Option<Packet>
  {
    if p == [] then None else Some(p)
  }

  function Append(b: Option<Packet>, c: byte): Option<Packet>
  {
    Some((if b.None? || |b.value| >= SLIP_MAX then [] else b.value) + [c])
  }

  lemma BufferGrows(p: Packet, c: byte)
    ensures Buffer(Kept(p + [c])) == Append(Buffer(Kept(p)), c)
  {
    KeptGrows(p, c);
  }

  /** Feeding the escaped bytes of a packet leaves exactly that packet (or what is kept of it) in curblk. */
  lemma {:induction false} BytesRoundTrip(s: Rx, p: Packet)
    requires s.curblk == None && !s.escaped
    ensures Run(s, EncodeBytes(p), AllWell) == s.(curblk := Buffer(Kept(p)))
  {
    if p != [] {
      var init, c := p[..|p| - 1], p[|p| - 1];
      assert p == init + [c];
      BytesRoundTrip(s, init);
      RunSnoc(s, init, c);
      BufferGrows(init, c);
      EscapeRoundTrip(s.(curblk := Buffer(Kept(init))), c);
    }
  }

  /** One frame delivers one packet and leaves the decoder where it was; an empty packet is swallowed. */
  lemma FrameRoundTrip(s: Rx, p: Packet)
    requires s.curblk == None && !s.escaped
    ensures Run(s, Encode(p), AllWell) == if p == [] then s else s.(upstream := s.upstream + [Kept(p)])
  {
    BytesRoundTrip(s, p);
    var e := Encode(p);
    assert e[..|e| - 1] == EncodeBytes(p);
  }

  function Delivered(ps: seq<Packet>): seq<Packet>
  {
    if ps == [] then []
    else
      var p := ps[|ps| - 1];
      Delivered(ps[..|ps| - 1]) + if p == [] then [] else [Kept(p)]
  }

  lemma {:induction false} StreamRoundTrip(s: Rx, ps: seq<Packet>)
    requires s.curblk == None && !s.escaped
    ensures Run(s, EncodeAll(ps), AllWell) == s.(upstream := s.upstream + Delivered(ps))
  {
    if ps != [] {
      var init, p := ps[..|ps| - 1], ps[|ps| - 1];
      StreamRoundTrip(s, init);
      RunConcat(s, EncodeAll(init), Encode(p), AllWell);
      FrameRoundTrip(Run(s, EncodeAll(init), AllWell), p);
    }
  }

  predicate Sized(p: Packet)
  {
    0 < |p| <= SLIP_MAX
  }

  ghost predicate AllSized(ps: seq<Packet>)
  {
    forall i: nat :: i < |ps| ==> Sized(ps[i])
  }

  lemma {:induction false} AllSizedSnoc(ps: seq<Packet>)
    requires ps != []
    ensures AllSized(ps) <==> AllSized(ps[..|ps| - 1]) && Sized(ps[|ps| - 1])
  {
    var init := ps[..|ps| - 1];
    assert forall i: nat :: i < |init| ==> init[i] == ps[i];
  }

  lemma SnocEqual(a: seq<Packet>, x: Packet, b: seq<Packet>, y: Packet)
    ensures a + [x] == b + [y] <==> a == b && x == y
  {
    if a + [x] == b + [y] {
      assert |a + [x]| == |b + [y]|;
      assert (a + [x])[..|a|] == a && (b + [y])[..|b|] == b;
      assert (a + [x])[|a|] == x && (b + [y])[|b|] == y;
    }
  }

  lemma KeptIs(p: Packet)
    requires p != []
    ensures Kept(p) == p <==> Sized(p)
  {
  }

  /** A packet sequence arrives unchanged exactly when every packet is non-empty and within SLIP_MAX. */
  lemma {:induction false} DeliveredUnchanged(ps: seq<Packet>)
    ensures |Delivered(ps)| <= |ps|
    ensures Delivered(ps) == ps <==> AllSized(ps)
  {
    if ps != [] {
      var init, p := ps[..|ps| - 1], ps[|ps| - 1];
      DeliveredUnchanged(init);
      AllSizedSnoc(ps);
      assert ps == init + [p];
      OneMoreDelivered(Delivered(init), init, p);
    }
  }

  lemma OneMoreDelivered(got: seq<Packet>, init: seq<Packet>, p: Packet)
    requires |got| <= |init|
    ensures var more := if p == [] then [] else [Kept(p)];
            |got + more| <= |init + [p]| && (got + more == init + [p] <==> got == init && Sized(p))
  {
    if p == [] {
      assert |got + []| < |init + [p]|;
    } else {
      SnocEqual(got, Kept(p), init, p);
      KeptIs(p);
    }
  }

  /** The framing law: any list of packets of 1 to SLIP_MAX bytes, encoded and delivered in any chunking,
      arrives as that list, and a list with any other packet does not. */
  lemma FramingIsLossless(s: Rx, ps: seq<Packet>, messages: seq<Packet>)
    requires s.curblk == None && !s.escaped && s.upstream == []
    requires Flatten(messages) == EncodeAll(ps)
    ensures RunMessages(s, messages, AllWell).upstream == ps <==> AllSized(ps)
    ensures RunMessages(s, messages, AllWell).curblk == None && !RunMessages(s, messages, AllWell).escaped
  {
    ChunkingIsIrrelevant(s, messages, AllWell);
    StreamRoundTrip(s, ps);
    DeliveredUnchanged(ps);
  }

  ghost predicate AllSpecial(p: Packet)
  {
    forall i: nat :: i < |p| ==> Special(p[i])
  }

  lemma AllSpecialSnoc(p: Packet)
    requires p != []
    ensures AllSpecial(p) <==> AllSpecial(p[..|p| - 1]) && Special(p[|p| - 1])
  {
    var init := p[..|p| - 1];
    assert forall i: nat :: i < |init| ==> init[i] == p[i];
  }

  /** The size of a frame. */
  lemma {:induction false} EncodedSize(p: Packet)
    ensures |p| <= |EncodeBytes(p)| <= 2 * |p|
    ensures |EncodeBytes(p)| == 2 * |p| <==> AllSpecial(p)
  {
    if p != [] {
      EncodedSize(p[..|p| - 1]);
      AllSpecialSnoc(p);
    }
  }

  /** The output block of 2*SLIP_MAX bytes holds the frame of every packet within the MTU but one kind:
      a packet of exactly SLIP_MAX special bytes needs one byte more, contrary to slipxmit's comment. */
  lemma FrameFitsBlock(p: Packet)
    requires |p| <= SLIP_MAX
    ensures |Encode(p)| <= 2 * SLIP_MAX <==> !(|p| == SLIP_MAX && AllSpecial(p))
  {
    EncodedSize(p);
  }

  /** No byte of an encoded packet body is FRAME_END, so frames cannot be split wrongly. */
  lemma {:induction false} BodyHasNoEnd(p: Packet)
    ensures FRAME_END !in EncodeBytes(p)
  {
    if p != [] {
      BodyHasNoEnd(p[..|p| - 1]);
    }
  }

  /** Resynchronisation after line noise: whatever was half received, a FRAME_END followed by a frame
      delivers the frame's packet last, except that an escape pending across the FRAME_END (which does not
      clear the flag) corrupts a packet that starts with one of the two transposed codes. */
  lemma Resynchronises(s: Rx, p: Packet)
    requires 0 < |p| <= SLIP_MAX
    ensures var t := Run(s, [FRAME_END] + Encode(p), AllWell);
            t.curblk == None && !t.escaped && t.upstream != []
            && (t.upstream[|t.upstream| - 1] == p
                <==> !s.escaped || (p[0] != TRANSPOSED_FRAME_END && p[0] != TRANSPOSED_FRAME_ESCAPE))
  {
    RunConcat(s, [FRAME_END], Encode(p), AllWell);
    RunOne(s, FRAME_END, AllWell);
    var r := Run(s, [FRAME_END], AllWell);
    FrameAfterEscape(r, p);
  }

  /** The first byte of p as seen by a decoder whose escape flag is still set. */
  function Misread(c: byte): byte
  {
    if c == TRANSPOSED_FRAME_ESCAPE then FRAME_ESCAPE else if c == TRANSPOSED_FRAME_END then FRAME_END else c
  }

  /** What curblk holds then. */
  function MisreadFirst(s: Rx, p: Packet): (q: Packet)
    requires p != []
    ensures |q| == |p|
  {
    [if s.escaped then Misread(p[0]) else p[0]] + p[1..]
  }

  lemma MisreadSnoc(s: Rx, p: Packet, c: byte)
    requires p != []
    ensures MisreadFirst(s, p + [c]) == MisreadFirst(s, p) + [c]
  {
    assert (p + [c])[1..] == p[1..] + [c];
  }

  lemma {:induction false} BytesAfterEscape(s: Rx, p: Packet)
    requires s.curblk == None || s.curblk == Some([])
    requires 0 < |p| <= SLIP_MAX
    ensures Run(s, EncodeBytes(p), AllWell) == s.(curblk := Some(MisreadFirst(s, p)), escaped := false)
  {
    var init, c := p[..|p| - 1], p[|p| - 1];
    assert p == init + [c];
    RunSnoc(s, init, c);
    if init == [] {
      FirstByte(s, c);
      assert MisreadFirst(s, p) == [if s.escaped then Misread(c) else c];
    } else {
      BytesAfterEscape(s, init);
      EscapeRoundTrip(Run(s, EncodeBytes(init), AllWell), c);
      MisreadSnoc(s, init, c);
    }
  }

  lemma KeepsFirst(s: Rx, d: byte)
    requires s.curblk == None || s.curblk == Some([])
    ensures (if s.curblk.None? || |s.curblk.value| >= SLIP_MAX then [] else s.curblk.value) + [d] == [d]
  {
  }

  lemma {:induction false} FirstByte(s: Rx, c: byte)
    requires s.curblk == None || s.curblk == Some([])
    ensures Run(s, EncodeByte(c), AllWell) == s.(curblk := Some([if s.escaped then Misread(c) else c]), escaped := false)
  {
    if c == FRAME_ESCAPE {
      RunTwo(s, FRAME_ESCAPE, TRANSPOSED_FRAME_ESCAPE, AllWell);
      KeepsFirst(s, c);
    } else if c == FRAME_END {
      RunTwo(s, FRAME_ESCAPE, TRANSPOSED_FRAME_END, AllWell);
      KeepsFirst(s, c);
    } else {
      RunOne(s, c, AllWell);
      KeepsFirst(s, if s.escaped then Misread(c) else c);
    }
  }

  lemma FrameAfterEscape(s: Rx, p: Packet)
    requires s.curblk == None || s.curblk == Some([])
    requires 0 < |p| <= SLIP_MAX
    ensures Run(s, Encode(p), AllWell)
         == Rx(None, false, s.upstream + [MisreadFirst(s, p)])
  {
    BytesAfterEscape(s, p);
    var e := Encode(p);
    assert e[..|e| - 1] == EncodeBytes(p);
  }

  // ----- when there is no room upstream, or no memory

  lemma {:induction false} EncodeJoins(p: Packet, q: Packet)
    ensures EncodeBytes(p + q) == EncodeBytes(p) + EncodeBytes(q)
  {
    if q == [] {
      assert p + q == p;
    } else {
      var init, c := q[..|q| - 1], q[|q| - 1];
      EncodeJoins(p, init);
      EncodeSnoc(p + init, c);
      EncodeSnoc(init, c);
      Regroup(p, init, [c], q);
      Regroup(EncodeBytes(p), EncodeBytes(init), EncodeByte(c), EncodeBytes(q));
    }
  }

  lemma Regroup(a: Packet, b: Packet, c: Packet, bc: Packet)
    requires bc == b + c
    ensures a + b + c == a + bc
  {
  }

  /** Between two ENDs only the memory for the buffer matters. */
  lemma {:induction false} NoEndAlike(s: Rx, input: Packet, env: Env)
    requires FRAME_END !in input && env.buffer
    ensures Run(s, input, env) == Run(s, input, AllWell)
  {
    if input != [] {
      NoEndAlike(s, input[..|input| - 1], env);
    }
  }

  lemma FrameEnds(s: Rx, p: Packet, env: Env)
    requires s.curblk == None && !s.escaped && env.buffer
    ensures Run(s, Encode(p), env) == Step(s.(curblk := Buffer(Kept(p))), FRAME_END, env)
  {
    BodyHasNoEnd(p);
    NoEndAlike(s, EncodeBytes(p), env);
    BytesRoundTrip(s, p);
    var e := Encode(p);
    assert e[..|e| - 1] == EncodeBytes(p);
  }

  /** A frame whose end comes while there is no room upstream is not lost, and not delivered later: it becomes one
      packet with the frame after it. */
  lemma FramesMerge(s: Rx, p: Packet, q: Packet, env: Env)
    requires s.curblk == None && !s.escaped && env.buffer && !env.canput
    ensures Run(Run(s, Encode(p), env), Encode(q), AllWell)
         == if p + q == [] then s else s.(upstream := s.upstream + [Kept(p + q)])
  {
    FrameEnds(s, p, env);
    BytesRoundTrip(s, p);
    FrameJoins(s, p, q);
    FrameRoundTrip(s, p + q);
  }

  lemma FrameJoins(s: Rx, p: Packet, q: Packet)
    ensures Run(Run(s, EncodeBytes(p), AllWell), Encode(q), AllWell) == Run(s, Encode(p + q), AllWell)
  {
    EncodeJoins(p, q);
    Regroup(EncodeBytes(p), EncodeBytes(q), [FRAME_END], Encode(q));
    RunConcat(s, EncodeBytes(p), Encode(q), AllWell);
  }

  lemma {:induction false} BytesLost(s: Rx, p: Packet, env: Env)
    requires s.curblk == None && !s.escaped && !env.buffer
    ensures Run(s, EncodeBytes(p), env) == s
  {
    if p != [] {
      var init, c := p[..|p| - 1], p[|p| - 1];
      BytesLost(s, init, env);
      RunConcat(s, EncodeBytes(init), EncodeByte(c), env);
      if Special(c) {
        RunTwo(s, EncodeByte(c)[0], EncodeByte(c)[1], env);
      } else {
        RunOne(s, c, env);
      }
    }
  }

  /** Without memory for the packet or for its header a frame is lost, and nothing else is. */
  lemma FrameLost(s: Rx, p: Packet, env: Env)
    requires s.curblk == None && !s.escaped && (!env.buffer || (env.canput && !env.header))
    ensures Run(s, Encode(p), env) == s
  {
    if env.buffer {
      FrameEnds(s, p, env);
    } else {
      BytesLost(s, p, env);
      var e := Encode(p);
      assert e[..|e| - 1] == EncodeBytes(p);
    }
  }

  /** One byte of slipxmit's copy. */
  method PutByte(start: Packet, c: byte) returns (out: Packet)
    ensures out == start + EncodeByte(c)
  {
    out := start;
    if c == FRAME_ESCAPE {
      out := out + [FRAME_ESCAPE];
      out := out + [TRANSPOSED_FRAME_ESCAPE];
    } else if c == FRAME_END {
      out := out + [FRAME_ESCAPE];
      out := out + [TRANSPOSED_FRAME_END];
    } else {
      out := out + [c];
    }
  }

  lemma {:induction false} EncodeSnoc(p: Packet, c: byte)
    ensures EncodeBytes(p + [c]) == EncodeBytes(p) + EncodeByte(c)
  {
    assert (p + [c])[..|p|] == p;
  }

  lemma OneMore(before: Packet, block: Packet, i: nat)
    requires i < |block|
    ensures before + block[..i] + [block[i]] == before + block[..i + 1]
  {
  }

  /** One message block of slipxmit's copy. */
  method PutBlock(start: Packet, block: Packet, ghost before: Packet) returns (out: Packet)
    requires start == EncodeBytes(before)
    ensures out == EncodeBytes(before + block)
  {
    out := start;
    ghost var done := before;
    for i := 0 to |block|
      invariant done == before + block[..i] && out == EncodeBytes(done)
    {
      EncodeSnoc(done, block[i]);
      OneMore(before, block, i);
      out := PutByte(out, block[i]);
      done := done + [block[i]];
    }
    assert block[..|block|] == block;
  }

  /** slipxmit copies a chain of message blocks into one output block, escaping as it goes. */
  method Transmit(chain: seq<Packet>) returns (out: Packet)
    ensures out == Encode(Flatten(chain))
  {
    out := [];
    for b := 0 to |chain|
      invariant out == EncodeBytes(Flatten(chain[..b]))
    {
      assert chain[..b + 1][..b] == chain[..b];
      out := PutBlock(out, chain[b], Flatten(chain[..b]));
    }
    assert chain[..|chain|] == chain;
    out := out + [FRAME_END];
  }

  class SlipDevice {
    var curblk: Option<Packet>
    var escaped: bool
    var upstream: seq<Packet>  // packets handed to the DLPI queue

    ghost function View(): Rx
      reads this
    {
      Rx(curblk, escaped, upstream)
    }

    constructor ()
      ensures View() == Rx(None, false, [])
    {
      curblk, escaped, upstream := None, false, [];
    }

    /** ttyrput on one M_DATA message. */
    method Receive(message: Packet, env: Env)
      modifies this
      ensures View() == Run(old(View()), message, env)
    {
      for i := 0 to |message|
        invariant View() == Run(old(View()), message[..i], env)
      {
        assert message[..i + 1][..i] == message[..i];
        var c := message[i];
        if c == FRAME_END {
          if curblk.Some? && |curblk.value| > 0 && env.canput {
            if env.header {
              upstream := upstream + [curblk.value];
            }
            curblk := None;
          }
        } else if c == FRAME_ESCAPE {
          escaped := true;
        } else {
          if escaped {
            escaped := false;
            if c == TRANSPOSED_FRAME_ESCAPE {
              c := FRAME_ESCAPE;
            } else if c == TRANSPOSED_FRAME_END {
              c := FRAME_END;
            }
          }
          if curblk.None? {
            if !env.buffer {
              continue;
            }
            curblk := Some([]);
          } else if |curblk.value| >= SLIP_MAX {
            curblk := Some([]);
          }
          curblk := Some(curblk.value + [c]);
        }
      }
      assert message[..|message|] == message;
    }
  }
}
