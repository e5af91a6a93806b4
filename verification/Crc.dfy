/**
 The 16-bit cyclic redundancy check of the MS-DOS floppy format (generator 0x11021, register preset to
 0xFFFF), computed a byte at a time from two tables of 256 bytes.
 */
module Crc {

  import opened Basics
  import opened Words

  type Byte = b: Bits | |b| == 8 witness Zeros(8)

  /** Coefficient i (highest power first) of the generator without its leading term: 0x1021. */
  predicate Divisor(i: int)
  {
    i == 3 || i == 10 || i == 15
  }

  /** Minus the generator, aligned with a 16-bit string whose preceding bit was a 1. */
  function Reduce(bits: Bits): (r: Bits)
    requires |bits| == 16
    ensures |r| == 16
  {
    seq(16, i requires 0 <= i < 16 => bits[i] != Divisor(i))
  }

  /** The remainder of a bit string divided by 0x11021: while more than 16 bits are left, a leading 1 is
      cancelled by subtracting the generator, and the leading bit is dropped. */
  function Remainder(bits: Bits): (r: Bits)
    requires |bits| >= 16
    ensures |r| == 16
    decreases |bits|
  {
    if |bits| == 16 then bits
    else if bits[0] then Remainder(Reduce(bits[1..17]) + bits[17..])
    else Remainder(bits[1..])
  }

  // ----- the shift register, highest bit first

  function Shift(r: Bits): (s: Bits)
    requires |r| == 16
    ensures |s| == 16
  {
    if r[0] then Reduce(r[1..] + [false]) else r[1..] + [false]
  }

  function Step(r: Bits, d: bool): (s: Bits)
    requires |r| == 16
    ensures |s| == 16
  {
    Shift([r[0] != d] + r[1..])
  }

  function Feed(r: Bits, bits: Bits): (s: Bits)
    requires |r| == 16
    ensures |s| == 16
    decreases |bits|
  {
    if bits == [] then r else Feed(Step(r, bits[0]), bits[1..])
  }

  lemma {:induction false} FeedConcat(r: Bits, a: Bits, b: Bits)
    requires |r| == 16
    ensures Feed(r, a + b) == Feed(Feed(r, a), b)
    decreases |a|
  {
    if a == [] {
      assert a + b == b;
    } else {
      assert (a + b)[1..] == a[1..] + b;
      FeedConcat(Step(r, a[0]), a[1..], b);
    }
  }

  /** A register added to the 16 bits that come next. */
  function Pending(r: Bits, w: Bits): (p: Bits)
    requires |r| == 16 <= |w|
    ensures |p| == |w|
  {
    Xor(r, w[..16]) + w[16..]
  }

  lemma StepAt(r: Bits, d: bool, i: nat)
    requires |r| == 16 && i < 16
    ensures Step(r, d)[i] == ((i < 15 && r[i + 1]) != ((r[0] != d) && Divisor(i)))
  {
  }

  /** One step of the register is one step of the division. */
  lemma StepDivides(r: Bits, d: bool, w: Bits)
    requires |r| == 16 <= |w|
    ensures Remainder(Pending(r, [d] + w)) == Remainder(Pending(Step(r, d), w))
  {
    var now, next := Pending(r, [d] + w), Pending(Step(r, d), w);
    assert now[0] == (r[0] != d);
    if now[0] {
      forall i | 0 <= i < |next|
        ensures (Reduce(now[1..17]) + now[17..])[i] == next[i]
      {
        if i < 16 {
          StepAt(r, d, i);
          assert Reduce(now[1..17])[i] == (now[i + 1] != Divisor(i));
          assert now[i + 1] == ((i < 15 && r[i + 1]) != w[i]);
        }
      }
      assert Reduce(now[1..17]) + now[17..] == next;
    } else {
      assert now[1..] == next;
    }
  }

  /** The register after a string is the remainder of register and string over 16 zero bits. */
  lemma {:induction false} FeedDivides(r: Bits, bits: Bits)
    requires |r| == 16
    ensures Feed(r, bits) == Remainder(Pending(r, bits + Zeros(16)))
    decreases |bits|
  {
    if bits == [] {
      assert Pending(r, bits + Zeros(16)) == r;
    } else {
      FeedDivides(Step(r, bits[0]), bits[1..]);
      StepDivides(r, bits[0], bits[1..] + Zeros(16));
      assert bits + Zeros(16) == [bits[0]] + (bits[1..] + Zeros(16));
    }
  }

  // ----- what the register detects

  function Shifts(r: Bits, n: nat): (s: Bits)
    requires |r| == 16
    ensures |s| == 16
    decreases n
  {
    if n == 0 then r else Shifts(Shift(r), n - 1)
  }

  lemma ShiftInjective(a: Bits, b: Bits)
    requires |a| == |b| == 16 && Shift(a) == Shift(b)
    ensures a == b
  {
    assert Shift(a)[15] == a[0] && Shift(b)[15] == b[0];
    forall i | 0 < i < 16
      ensures a[i] == b[i]
    {
      assert Shift(a)[i - 1] == (a[i] != (a[0] && Divisor(i - 1)));
      assert Shift(b)[i - 1] == (b[i] != (b[0] && Divisor(i - 1)));
    }
  }

  lemma {:induction false} ShiftsInjective(a: Bits, b: Bits, n: nat)
    requires |a| == |b| == 16 && Shifts(a, n) == Shifts(b, n)
    ensures a == b
    decreases n
  {
    if n > 0 {
      ShiftsInjective(Shift(a), Shift(b), n - 1);
      ShiftInjective(a, b);
    }
  }

  lemma {:induction false} FeedInjective(a: Bits, b: Bits, bits: Bits)
    requires |a| == |b| == 16 && Feed(a, bits) == Feed(b, bits)
    ensures a == b
    decreases |bits|
  {
    if bits != [] {
      var d := bits[0];
      FeedInjective(Step(a, d), Step(b, d), bits[1..]);
      var x, y := [a[0] != d] + a[1..], [b[0] != d] + b[1..];
      ShiftInjective(x, y);
      assert x[0] == y[0] && x[1..] == y[1..];
      assert a == [a[0]] + a[1..] && b == [b[0]] + b[1..];
    }
  }

  /** At most 16 bits, padded on the right. */
  function Pad(bits: Bits): (p: Bits)
    requires |bits| <= 16
    ensures |p| == 16
  {
    bits + Zeros(16 - |bits|)
  }

  /** Feeding at most 16 bits is adding them to the register and then shifting. */
  lemma {:induction false} FeedIsAddThenShift(r: Bits, bits: Bits)
    requires |r| == 16 && |bits| <= 16
    ensures Feed(r, bits) == Shifts(Xor(r, Pad(bits)), |bits|)
    decreases |bits|
  {
    if bits == [] {
      assert Xor(r, Pad(bits)) == r;
    } else {
      var d, rest := bits[0], bits[1..];
      FeedIsAddThenShift(Step(r, d), rest);
      assert Shift(Xor(r, Pad(bits))) == Xor(Step(r, d), Pad(rest));
    }
  }

  /** Two bit strings that differ, but only within 16 consecutive bits, leave different registers. */
  lemma BurstChangesRegister(r: Bits, pre: Bits, a: Bits, b: Bits, post: Bits)
    requires |r| == 16 && |a| == |b| <= 16 && a != b
    ensures Feed(r, pre + a + post) != Feed(r, pre + b + post)
  {
    FeedConcat(r, pre + a, post);
    FeedConcat(r, pre + b, post);
    FeedConcat(r, pre, a);
    FeedConcat(r, pre, b);
    var s := Feed(r, pre);
    if Feed(s, a) == Feed(s, b) {
      SameFeedSameBits(s, a, b);
    }
    if Feed(r, pre + a + post) == Feed(r, pre + b + post) {
      FeedInjective(Feed(s, a), Feed(s, b), post);
    }
  }

  lemma SameFeedSameBits(s: Bits, a: Bits, b: Bits)
    requires |s| == 16 && |a| == |b| <= 16 && Feed(s, a) == Feed(s, b)
    ensures a == b
  {
    FeedIsAddThenShift(s, a);
    FeedIsAddThenShift(s, b);
    var x, y := Xor(s, Pad(a)), Xor(s, Pad(b));
    ShiftsInjective(x, y, |a|);
    forall i | 0 <= i < |a|
      ensures a[i] == b[i]
    {
      assert x[i] == y[i];
    }
  }

  lemma {:induction false} ShiftsOfZeros(n: nat)
    ensures Shifts(Zeros(16), n) == Zeros(16)
  {
    if n > 0 {
      assert Shift(Zeros(16)) == Zeros(16);
      ShiftsOfZeros(n - 1);
    }
  }

  /** Feeding the register to itself clears it. */
  lemma FeedItself(r: Bits)
    requires |r| == 16
    ensures Feed(r, r) == Zeros(16)
  {
    FeedIsAddThenShift(r, r);
    assert Xor(r, Pad(r)) == Zeros(16);
    ShiftsOfZeros(16);
  }

  // ----- blocks of bytes

  function BitsOf(bytes: seq<Byte>): (bits: Bits)
    ensures |bits| == 8 * |bytes|
  {
    if bytes == [] then [] else BitsOf(bytes[..|bytes| - 1]) + bytes[|bytes| - 1]
  }

  lemma {:induction false} BitsOfConcat(a: seq<Byte>, b: seq<Byte>)
    ensures BitsOf(a + b) == BitsOf(a) + BitsOf(b)
  {
    if b == [] {
      assert a + b == a;
    } else {
      assert (a + b)[..|a + b| - 1] == a + b[..|b| - 1];
      BitsOfConcat(a, b[..|b| - 1]);
    }
  }

  lemma BitsOfTwo(x: Byte, y: Byte)
    ensures BitsOf([x, y]) == x + y
  {
    assert [x, y][..1] == [x] && [x][..0] == [];
    assert BitsOf([x]) == BitsOf([]) + x;
  }

  /** The register crc leaves after a block: the check to be stored, or the residue of a block that
      includes its stored check. */
  function Register(block: seq<Byte>): (r: Bits)
    ensures |r| == 16
  {
    Feed(Ones(16), BitsOf(block))
  }

  /** What it means: the remainder of the block over 16 zero bits, its first 16 bits inverted. */
  lemma RegisterIsRemainder(block: seq<Byte>)
    ensures Register(block) == Remainder(Pending(Ones(16), BitsOf(block) + Zeros(16)))
  {
    FeedDivides(Ones(16), BitsOf(block));
  }

  /** Any corruption confined to two adjacent bytes, in a block of any length, changes the register. */
  lemma CorruptionIsDetected(pre: seq<Byte>, x: Byte, y: Byte, x': Byte, y': Byte, post: seq<Byte>)
    requires x != x' || y != y'
    ensures Register(pre + [x, y] + post) != Register(pre + [x', y'] + post)
  {
    BitsOfConcat(pre + [x, y], post);
    BitsOfConcat(pre, [x, y]);
    BitsOfConcat(pre + [x', y'], post);
    BitsOfConcat(pre, [x', y']);
    BitsOfTwo(x, y);
    BitsOfTwo(x', y');
    assert (x + y)[..8] == x && (x + y)[8..] == y && (x' + y')[..8] == x' && (x' + y')[8..] == y';
    BurstChangesRegister(Ones(16), BitsOf(pre), x + y, x' + y', BitsOf(post));
  }

  /** A block followed by its own check, high byte first, has residue 0; with other bytes it has not. */
  lemma StoredCheckGivesZero(block: seq<Byte>, h: Byte, l: Byte)
    ensures Register(block + [h, l]) == Zeros(16) <==> h + l == Register(block)
  {
    var r := Register(block);
    var x: Byte, y: Byte := r[..8], r[8..];
    assert x + y == r;
    BitsOfConcat(block, [x, y]);
    BitsOfTwo(x, y);
    FeedConcat(Ones(16), BitsOf(block), x + y);
    FeedItself(r);
    if h + l != r {
      assert h != x || l != y;
      CorruptionIsDetected(block, x, y, h, l, []);
      assert block + [x, y] + [] == block + [x, y] && block + [h, l] + [] == block + [h, l];
    } else {
      assert (h + l)[..8] == h && (h + l)[8..] == l;
    }
  }

  /** So a block that was stored with its check and then corrupted in two adjacent bytes (the check's own
      bytes included) no longer has residue 0: it is rejected on reading. */
  lemma CorruptedBlockIsRejected(pre: seq<Byte>, x: Byte, y: Byte, x': Byte, y': Byte, post: seq<Byte>)
    requires Register(pre + [x, y] + post) == Zeros(16)
    ensures Register(pre + [x', y'] + post) == Zeros(16) <==> x' == x && y' == y
  {
    if x' != x || y' != y {
      CorruptionIsDetected(pre, x, y, x', y', post);
    }
  }

  // ----- the tables

  lemma ShiftIsLinear(a: Bits, b: Bits)
    requires |a| == |b| == 16
    ensures Shift(Xor(a, b)) == Xor(Shift(a), Shift(b))
  {
  }

  lemma {:induction false} ShiftsIsLinear(a: Bits, b: Bits, n: nat)
    requires |a| == |b| == 16
    ensures Shifts(Xor(a, b), n) == Xor(Shifts(a, n), Shifts(b, n))
    decreases n
  {
    if n > 0 {
      ShiftIsLinear(a, b);
      ShiftsIsLinear(Shift(a), Shift(b), n - 1);
    }
  }

  /** Leading zeros are shifted out unchanged. */
  lemma {:induction false} ShiftOutZeros(r: Bits, n: nat)
    requires |r| == 16 && n <= 16 && r[..n] == Zeros(n)
    ensures Shifts(r, n) == r[n..] + Zeros(n)
    decreases n
  {
    if n > 0 {
      assert r[0] == r[..n][0];
      var s := Shift(r);
      assert s == r[1..] + [false];
      forall i | 0 <= i < n - 1
        ensures s[i] == false
      {
        assert s[i] == r[..n][i + 1];
      }
      assert s[..n - 1] == Zeros(n - 1);
      ShiftOutZeros(s, n - 1);
    }
  }

  /** What the two tables hold for byte t: the register after t, starting from zero. */
  function Table(t: Byte): (r: Bits)
    ensures |r| == 16
  {
    Feed(Zeros(16), t)
  }

  /** One table look-up does the work of eight steps. */
  lemma LookupIsEightSteps(h: Byte, l: Byte, c: Byte)
    ensures Feed(h + l, c) == Xor(Table(Xor(h, c)), l + Zeros(8))
  {
    var r, t := h + l, Xor(h, c);
    FeedIsAddThenShift(r, c);
    FeedIsAddThenShift(Zeros(16), t);
    var x, y := Pad(t), Zeros(8) + l;
    assert Xor(Zeros(16), Pad(t)) == x;
    assert Xor(r, Pad(c)) == Xor(x, y);
    ShiftsIsLinear(x, y, 8);
    assert y[..8] == Zeros(8) && y[8..] == l;
    ShiftOutZeros(y, 8);
  }

  /** One turn of crc's loop, with th and tl the table entries for the byte and the register's high byte. */
  lemma CrcTurn(h: Byte, l: Byte, c: Byte, th: Byte, tl: Byte)
    requires th + tl == Table(Xor(h, c))
    ensures Xor(th, l) + tl == Feed(h + l, c)
  {
    LookupIsEightSteps(h, l, c);
    assert Xor(th + tl, l + Zeros(8)) == Xor(th, l) + tl;
  }

  /** The generator without its leading term, as a word. */
  function Generator(): (g: Bits)
    ensures |g| == 16
  {
    seq(16, i requires 0 <= i < 16 => Divisor(i))
  }

  /** 0x11021 and 0x01021 as makecrc's 32-bit constants. */
  function Constant(carry: bool): (c: Bits)
    ensures |c| == 32
  {
    Zeros(15) + [carry] + Generator()
  }

  lemma ConstantIs0x11021()
    ensures Value(Generator()) == 0x1021
    ensures Constant(true) == Word(0x11021, 32) && Constant(false) == Word(0x01021, 32)
  {
    var g := [false, false, false, true, false, false, false, false,
              false, false, true, false, false, false, false, true];
    assert Generator() == g;
    WordAt();
    WordOfValue(g);
    PowersOfTwo();
    ValueOfWord(0x1021, 16);
    ConstantValue(true);
    ConstantValue(false);
    WordOfValue(Constant(true));
    WordOfValue(Constant(false));
  }

  lemma ConstantValue(carry: bool)
    requires Value(Generator()) == 0x1021
    ensures Value(Constant(carry)) == 0x1021 + if carry then 0x10000 else 0
  {
    var high := Zeros(15) + [carry];
    ValueConcat(high, Generator());
    assert high[..15] == Zeros(15);
    ValueOfZeros(15);
    PowersOfTwo();
  }

  lemma PowersOfTwo()
    ensures Pow2(16) == 0x10000
  {
    assert Pow2(4) == 16;
    assert Pow2(8) == 256;
    assert Pow2(12) == 4096;
  }

  /** The successive halves of a number give its bits. */
  lemma WordAt()
    ensures Word(0x1021, 16) == [false, false, false, true, false, false, false, false,
                           false, false, true, false, false, false, false, true]
  {
    assert Word(0, 1) == [false];
    assert Word(0, 2) == [false, false];
    assert Word(0, 3) == [false, false, false];
    assert Word(0x1, 4) == [false, false, false, true];
    assert Word(0x2, 5) == [false, false, false, true, false];
    assert Word(0x4, 6) == [false, false, false, true, false, false];
    assert Word(0x8, 7) == [false, false, false, true, false, false, false];
    assert Word(0x10, 8) == [false, false, false, true, false, false, false, false];
    assert Word(0x20, 9) == Word(0x10, 8) + [false];
    assert Word(0x40, 10) == Word(0x20, 9) + [false];
    assert Word(0x81, 11) == Word(0x40, 10) + [true];
    assert Word(0x102, 12) == Word(0x81, 11) + [false];
    assert Word(0x204, 13) == Word(0x102, 12) + [false];
    assert Word(0x408, 14) == Word(0x204, 13) + [false];
    assert Word(0x810, 15) == Word(0x408, 14) + [false];
    assert Word(0x1021, 16) == Word(0x810, 15) + [true];
  }

  lemma {:induction false} FeedSnoc(r: Bits, bits: Bits, d: bool)
    requires |r| == 16
    ensures Feed(r, bits + [d]) == Step(Feed(r, bits), d)
  {
    FeedConcat(r, bits, [d]);
    assert [d][1..] == [];
    assert Feed(Feed(r, bits), [d]) == Feed(Step(Feed(r, bits), d), []);
  }

  /** One turn of makecrc's inner loop. */
  function Accumulate(res: Bits, d: bool): (res': Bits)
    requires |res| == 32
    ensures |res'| == 32
  {
    var s := Shl(res, 1);
    var t := if s[15] then Xor(s, Constant(true)) else s;
    if d then Xor(t, Constant(false)) else t
  }

  /** On an accumulator below 0x10000 it is a step of the register. */
  lemma AccumulateIsStep(res: Bits, d: bool)
    requires |res| == 32 && res[..16] == Zeros(16)
    ensures Accumulate(res, d) == Zeros(16) + Step(res[16..], d)
  {
    var t, u := Accumulate(res, d), Zeros(16) + Step(res[16..], d);
    forall i | 0 <= i < 32
      ensures t[i] == u[i]
    {
      assert i < 16 ==> res[i] == res[..16][i];
      assert i < 15 ==> res[i + 1] == res[..16][i + 1];
    }
  }

  /** The bit that makecrc tests in turn j. */
  function Probe(j: nat): (p: Byte)
  {
    seq(8, i requires 0 <= i < 8 => i == j)
  }

  lemma ProbeSelects(b: Byte, j: nat)
    ensures And(b, Probe(j)) != Zeros(8) <==> j < 8 && b[j]
    ensures Probe(j) != Zeros(8) <==> j < 8
    ensures Shr(Probe(j), 1) == Probe(j + 1)
  {
    var a := And(b, Probe(j));
    if j < 8 {
      assert Probe(j)[j] && a[j] == b[j];
      if !b[j] {
        assert a == Zeros(8);
      }
    } else {
      assert Probe(j) == Zeros(8) && a == Zeros(8);
    }
  }

  /** makecrc's inner loop. */
  method Entry(b: Byte) returns (res: Bits)
    ensures |res| == 32 && res == Zeros(16) + Table(b)
  {
    res := Zeros(32);
    var bit: Byte := Probe(0);
    ghost var j := 0;
    assert b[..0] == [] && res == Zeros(16) + Zeros(16);
    ProbeSelects(b, 0);
    while bit != Zeros(8)
      invariant j <= 8 && bit == Probe(j) && (bit != Zeros(8) <==> j < 8)
      invariant |res| == 32 && res == Zeros(16) + Feed(Zeros(16), b[..j])
      decreases 8 - j
    {
      ghost var before := res;
      ProbeSelects(b, j);
      ProbeSelects(b, j + 1);
      assert before[..16] == Zeros(16) && before[16..] == Feed(Zeros(16), b[..j]);
      AccumulateIsStep(before, b[j]);
      FeedSnoc(Zeros(16), b[..j], b[j]);
      assert b[..j + 1] == b[..j] + [b[j]];
      res := Shl(res, 1);
      if res[15] {
        res := Xor(res, Constant(true));
      }
      if And(b, bit) != Zeros(8) {
        res := Xor(res, Constant(false));
      }
      assert res == Accumulate(before, b[j]);
      bit := Shr(bit, 1);
      j := j + 1;
    }
    assert b[..8] == b;
  }

  function Join(h: Bits, l: Bits): Bits
  {
    h + l
  }

  ghost predicate TablesMade(htab: seq<Byte>, ltab: seq<Byte>, n: nat)
    requires |htab| == |ltab| && n <= |htab|
  {
    forall t: nat :: t < n ==> Join(htab[t], ltab[t]) == Table(Word(t, 8))
  }

  /** makecrc. */
  method MakeCrc(htab: array<Byte>, ltab: array<Byte>)
    requires htab.Length == ltab.Length == 256 && htab != ltab
    modifies htab, ltab
    ensures TablesMade(htab[..], ltab[..], 256)
  {
    for byte := 0 to 256
      invariant TablesMade(htab[..], ltab[..], byte)
    {
      var res := Entry(Word(byte, 8));
      var high: Byte, low: Byte := Shr(res, 8)[24..], res[24..];
      assert high + low == Table(Word(byte, 8));
      htab[byte] := high;
      ltab[byte] := low;
    }
  }

  /** crc: a byte at a time with the two tables. */
  method CrcOf(block: array<Byte>, htab: array<Byte>, ltab: array<Byte>) returns (check: Bits)
    requires htab.Length == ltab.Length == 256 && TablesMade(htab[..], ltab[..], 256)
    ensures check == Register(block[..])
  {
    var hcrc: Byte, lcrc: Byte := Ones(8), Ones(8);
    assert Ones(8) + Ones(8) == Ones(16);
    for i := 0 to block.Length
      invariant hcrc + lcrc == Feed(Ones(16), BitsOf(block[..i]))
    {
      var c := block[i];
      var tmp: Byte := Xor(hcrc, c);
      Index(tmp);
      var th, tl := htab[Value(tmp)], ltab[Value(tmp)];
      CrcTurn(hcrc, lcrc, c, th, tl);
      FeedConcat(Ones(16), BitsOf(block[..i]), c);
      assert block[..i + 1][..i] == block[..i];
      hcrc := Xor(th, lcrc);
      lcrc := tl;
    }
    assert block[..block.Length] == block[..];
    check := hcrc + lcrc;
  }

  lemma Index(b: Byte)
    ensures Value(b) < 256 && Word(Value(b), 8) == b
  {
    ValueFits(b);
    WordOfValue(b);
    assert Pow2(4) == 16;
  }
}
