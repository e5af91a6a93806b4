/**
 The MS-DOS floppy format's codec.  Each byte becomes a ushort in which every data bit is followed by the
 clock bit between it and the next data bit; the last clock bit of a word is only known when the next byte
 is encoded, and is 0 until then.
 */
module DosFloppy {

  import opened Words
  import opened Mfm
  import Crc

  type Byte = Crc.Byte
  type Ushort = w: Bits | |w| == 16 witness Zeros(16)

  /** The bits of an array of words as they lie on the track. */
  function Flat(words: seq<Ushort>): (bits: Bits)
    ensures |bits| == 16 * |words|
  {
    if words == [] then [] else Flat(words[..|words| - 1]) + words[|words| - 1]
  }

  lemma {:induction false} FlatAt(words: seq<Ushort>, k: nat)
    requires k < |words|
    ensures Flat(words)[16 * k..16 * k + 16] == words[k]
  {
    var n := |words| - 1;
    if k < n {
      FlatAt(words[..n], k);
      assert Flat(words)[16 * k..16 * k + 16] == Flat(words[..n])[16 * k..16 * k + 16];
    }
  }

  // ----- the encoding of one byte

  /** An entry of makemfmtab's table. */
  function Encoded(ch: Byte): (w: Ushort)
  {
    seq(16, i requires 0 <= i < 16 =>
      if i % 2 == 0 then ch[i / 2] else i < 15 && !ch[i / 2] && !ch[i / 2 + 1])
  }

  /** The bit tested in a given turn: 1 << 7, then shifted down. */
  function Probe(j: nat): (p: Byte)
  {
    Crc.Probe(j)
  }

  /** One turn of makemfmtab's inner loop. */
  method EncodeBit(ch: Byte, res: Bits, bit: Byte, ghost j: nat) returns (res': Bits, bit': Byte)
    requires |res| == 32 && j < 8 && bit == Probe(j)
    ensures |res'| == 32 && bit' == Probe(j + 1)
    ensures res' == res[2..] + [ch[j], !ch[j] && (j == 7 || !ch[j + 1])]
  {
    Crc.ProbeSelects(ch, j);
    Crc.ProbeSelects(ch, j + 1);
    res' := Shl(res, 2);
    if And(ch, bit) != Zeros(8) {
      res' := Or(res', Zeros(30) + [true, false]);
      bit' := Shr(bit, 1);
    } else {
      bit' := Shr(bit, 1);
      if And(ch, bit') == Zeros(8) {
        res' := Or(res', Zeros(30) + [false, true]);
      }
    }
    var w := res[2..] + [ch[j], !ch[j] && (j == 7 || !ch[j + 1])];
    forall i | 0 <= i < 32
      ensures res'[i] == w[i]
    {
    }
  }

  /** makemfmtab for one byte. */
  method Entry(ch: Byte) returns (w: Ushort)
    ensures w == Encoded(ch)
  {
    var res := Zeros(32);
    var bit: Byte := Probe(0);
    ghost var j := 0;
    Crc.ProbeSelects(ch, 0);
    while bit != Zeros(8)
      invariant j <= 8 && bit == Probe(j) && |res| == 32 && (bit != Zeros(8) <==> j < 8)
      invariant forall i: nat :: i < 2 * j ==> res[32 - 2 * j + i] == if i % 2 == 0 then ch[i / 2] else !ch[i / 2] && (i / 2 == 7 || !ch[i / 2 + 1])
      decreases 8 - j
    {
      ghost var before := res;
      res, bit := EncodeBit(ch, res, bit, j);
      j := j + 1;
      Crc.ProbeSelects(ch, j);
    }
    ghost var all := res;
    res := res[31 := false];
    w := res[16..];
    forall i: nat | i < 16
      ensures w[i] == Encoded(ch)[i]
    {
      assert all[32 - 2 * 8 + i] == if i % 2 == 0 then ch[i / 2] else !ch[i / 2] && (i / 2 == 7 || !ch[i / 2 + 1]);
      assert i < 14 ==> i / 2 < 7;
    }
  }

  // ----- streams of bytes

  function BitsOf(bytes: seq<Byte>): (bits: Bits)
    ensures |bits| == 8 * |bytes|
  {
    Crc.BitsOf(bytes)
  }

  /** The words of a string of bytes: in each but the last, the final clock bit is settled by the next byte. */
  function EncodedWords(bytes: seq<Byte>): (words: seq<Ushort>)
    ensures |words| == |bytes|
  {
    seq(|bytes|, k requires 0 <= k < |bytes| =>
      if k < |bytes| - 1 then Encoded(bytes[k])[15 := !bytes[k][7] && !bytes[k + 1][0]] else Encoded(bytes[k]))
  }

  lemma EncodedWordsSnoc(bytes: seq<Byte>, c: Byte)
    ensures var n := |bytes|;
            EncodedWords(bytes + [c]) ==
            (if n == 0 then [] else EncodedWords(bytes)[n - 1 := Encoded(bytes[n - 1])[15 := !bytes[n - 1][7] && !c[0]]])
            + [Encoded(c)]
  {
  }

  /** The clock bit left open at the end of the words before, settled by the first byte of what follows. */
  function Settled(before: Ushort, bytes: seq<Byte>): (w: Ushort)
  {
    if bytes == [] then before else before[15 := !before[14] && !bytes[0][0]]
  }

  /** Settled words and new words together form the stream that follows the last data bit before them,
      with the last clock bit still open. */
  lemma {:induction false} EncodedIsStream(before: Ushort, bytes: seq<Byte>)
    requires bytes != []
    ensures [Settled(before, bytes)[15]] + Flat(EncodedWords(bytes)) == Stream(before[14], BitsOf(bytes)) + [false]
  {
    var n := |bytes|;
    var t := [Settled(before, bytes)[15]] + Flat(EncodedWords(bytes));
    var u := t[..16 * n];
    forall j: nat | j < 8 * n
      ensures PairRight(before[14], BitsOf(bytes), u, j)
    {
      assert j == 8 * (j / 8) + j % 8;
      PairAt(before, bytes, t, j / 8, j % 8);
    }
    WordBitAt(bytes, n - 1, 15);
    assert t == u + [false];
    StreamIs(before[14], BitsOf(bytes), u);
  }

  lemma PairAt(before: Ushort, bytes: seq<Byte>, t: Bits, k: nat, i: nat)
    requires k < |bytes| && i < 8
    requires t == [Settled(before, bytes)[15]] + Flat(EncodedWords(bytes))
    ensures var j := 8 * k + i; var d := BitsOf(bytes);
            t[2 * j + 1] == d[j] && t[2 * j] == !((if j == 0 then before[14] else d[j - 1]) || d[j])
  {
    DataBitAt(bytes, k, i);
    WordBitAt(bytes, k, 2 * i);
    if i > 0 {
      ClockInWord(bytes, k, i);
    } else if k > 0 {
      ClockBetweenWords(bytes, k);
    }
  }

  lemma {:induction false} ClockInWord(bytes: seq<Byte>, k: nat, i: nat)
    requires k < |bytes| && 0 < i < 8
    ensures var j := 8 * k + i; var d := BitsOf(bytes);
            Flat(EncodedWords(bytes))[2 * j - 1] == !(d[j - 1] || d[j])
  {
    DataBitAt(bytes, k, i);
    DataBitAt(bytes, k, i - 1);
    WordBitAt(bytes, k, 2 * i - 1);
    InnerClock(bytes, k, i);
    assert 16 * k + (2 * i - 1) == 2 * (8 * k + i) - 1 && 8 * k + (i - 1) == 8 * k + i - 1;
  }

  lemma InnerClock(bytes: seq<Byte>, k: nat, i: nat)
    requires k < |bytes| && 0 < i < 8
    ensures EncodedWords(bytes)[k][2 * i - 1] == !(bytes[k][i - 1] || bytes[k][i])
  {
  }

  lemma {:induction false} ClockBetweenWords(bytes: seq<Byte>, k: nat)
    requires 0 < k < |bytes|
    ensures var j := 8 * k; var d := BitsOf(bytes);
            Flat(EncodedWords(bytes))[2 * j - 1] == !(d[j - 1] || d[j])
  {
    DataBitAt(bytes, k, 0);
    DataBitAt(bytes, k - 1, 7);
    WordBitAt(bytes, k - 1, 15);
    LastClock(bytes, k - 1);
    var p := k - 1;
    assert 16 * p + 15 == 2 * (8 * k) - 1 && 8 * p + 7 == 8 * k - 1 && 8 * k + 0 == 8 * k;
  }

  lemma {:induction false} LastClock(bytes: seq<Byte>, k: nat)
    requires k + 1 < |bytes|
    ensures EncodedWords(bytes)[k][15] == !(bytes[k][7] || bytes[k + 1][0])
  {
  }

  lemma {:induction false} DataBitAt(bytes: seq<Byte>, k: nat, i: nat)
    requires k < |bytes| && i < 8
    ensures BitsOf(bytes)[8 * k + i] == bytes[k][i]
  {
    ByteAt(bytes, k);
    assert BitsOf(bytes)[8 * k..8 * k + 8][i] == bytes[k][i];
  }

  lemma {:induction false} WordBitAt(bytes: seq<Byte>, k: nat, i: nat)
    requires k < |bytes| && i < 16
    ensures Flat(EncodedWords(bytes))[16 * k + i] == EncodedWords(bytes)[k][i]
  {
    FlatAt(EncodedWords(bytes), k);
    assert Flat(EncodedWords(bytes))[16 * k..16 * k + 16][i] == EncodedWords(bytes)[k][i];
  }

  lemma {:induction false} ByteAt(bytes: seq<Byte>, k: nat)
    requires k < |bytes|
    ensures BitsOf(bytes)[8 * k..8 * k + 8] == bytes[k]
  {
    var n := |bytes| - 1;
    assert BitsOf(bytes) == BitsOf(bytes[..n]) + bytes[n];
    if k < n {
      ByteAt(bytes[..n], k);
      assert BitsOf(bytes)[8 * k..8 * k + 8] == BitsOf(bytes[..n])[8 * k..8 * k + 8];
    } else {
      assert (BitsOf(bytes[..n]) + bytes[n])[8 * n..] == bytes[n];
    }
  }

  class Track {
    const trkbuf: array<Ushort>
    var mfmnext: nat  // index of the next word to write

    constructor (buffer: array<Ushort>)
      ensures trkbuf == buffer && mfmnext == 0
    {
      trkbuf, mfmnext := buffer, 0;
    }

    /** The track once the words of `bytes` have been written at `base`. */
    static function Spliced(buf: seq<Ushort>, base: nat, bytes: seq<Byte>): (buf': seq<Ushort>)
      requires 0 < base && base + |bytes| <= |buf|
    {
      buf[..base - 1] + [Settled(buf[base - 1], bytes)] + EncodedWords(bytes) + buf[base + |bytes|..]
    }

    static lemma SplicedMore(buf: seq<Ushort>, base: nat, bytes: seq<Byte>, c: Byte)
      requires 0 < base && base + |bytes| < |buf|
      ensures var b, p := Spliced(buf, base, bytes), base + |bytes|;
              Spliced(buf, base, bytes + [c]) == b[p - 1 := b[p - 1][15 := !b[p - 1][14] && !c[0]]][p := Encoded(c)]
    {
      EncodedWordsSnoc(bytes, c);
      if bytes != [] {
        assert (bytes + [c])[0] == bytes[0];
      }
    }

    /** One byte appended; `last` is the last data bit of the word before it. */
    method PutByte(ch: Byte, last: bool, ghost buf: seq<Ushort>, ghost base: nat, ghost done: seq<Byte>)
      requires 0 < mfmnext < trkbuf.Length == |buf| && 0 < base && mfmnext == base + |done|
      requires trkbuf[..] == Spliced(buf, base, done)
      requires !trkbuf[mfmnext - 1][15] && last == trkbuf[mfmnext - 1][14]
      modifies this`mfmnext, trkbuf
      ensures mfmnext == old(mfmnext) + 1
      ensures trkbuf[mfmnext - 1] == Encoded(ch)
      ensures trkbuf[..] == Spliced(buf, base, done + [ch])
    {
      SplicedMore(buf, base, done, ch);
      Settle(last, ch[0]);
      var w := Entry(ch);
      trkbuf[mfmnext] := w;
      mfmnext := mfmnext + 1;
    }

    /** The last clock bit before a byte that begins with `first`. */
    method Settle(last: bool, first: bool)
      requires 0 < mfmnext <= trkbuf.Length && !trkbuf[mfmnext - 1][15]
      modifies trkbuf
      ensures trkbuf[..] == old(trkbuf[..])[mfmnext - 1 := old(trkbuf[mfmnext - 1])[15 := !last && !first]]
    {
      ghost var w := trkbuf[mfmnext - 1];
      assert w[15 := false] == w;
      if !last && !first {
        trkbuf[mfmnext - 1] := trkbuf[mfmnext - 1][15 := true];
      }
    }

    /** One turn of mfm's loop. */
    method PutNext(from: seq<Byte>, i: nat, last: bool, ghost buf: seq<Ushort>, ghost base: nat) returns (last': bool)
      requires i < |from| && Placed(from, i, last, buf, base) && mfmnext < trkbuf.Length
      modifies this`mfmnext, trkbuf
      ensures Placed(from, i + 1, last', buf, base)
    {
      assert from[..i + 1] == from[..i] + [from[i]];
      PutByte(from[i], last, buf, base, from[..i]);
      last' := from[i][7];
    }

    /** The first i bytes have been written at `base` over `buf`. */
    ghost predicate Placed(from: seq<Byte>, i: nat, last: bool, buf: seq<Ushort>, base: nat)
      reads this, trkbuf
    {
      && i <= |from| && 0 < base && mfmnext == base + i <= trkbuf.Length == |buf|
      && trkbuf[..] == Spliced(buf, base, from[..i])
      && !trkbuf[mfmnext - 1][15] && last == trkbuf[mfmnext - 1][14]
    }

    static lemma SplicedNone(buf: seq<Ushort>, base: nat, from: seq<Byte>)
      requires 0 < base <= |buf|
      ensures Spliced(buf, base, from[..0]) == buf && from[..|from|] == from
    {
    }

    /** mfm: the bytes appended to the encoded stream. */
    method Encode(from: seq<Byte>)
      requires 0 < mfmnext && mfmnext + |from| <= trkbuf.Length
      requires !trkbuf[mfmnext - 1][15]
      modifies this`mfmnext, trkbuf
      ensures mfmnext == old(mfmnext) + |from| && !trkbuf[mfmnext - 1][15]
      ensures trkbuf[..] == Spliced(old(trkbuf[..]), old(mfmnext), from)
    {
      ghost var buf, base := trkbuf[..], mfmnext;
      SplicedNone(buf, base, from);
      var last := trkbuf[mfmnext - 1][14];
      for i := 0 to |from|
        invariant Placed(from, i, last, buf, base)
      {
        last := PutNext(from, i, last, buf, base);
      }
    }

    /** The word of a byte that is followed by the same byte. */
    static function Between(byte: Byte): (w: Ushort)
    {
      Encoded(byte)[15 := !byte[7] && !byte[0]]
    }

    /** The first two copies. */
    method EncodeTwice(byte: Byte)
      requires 0 < mfmnext && mfmnext + 2 <= trkbuf.Length
      requires !trkbuf[mfmnext - 1][15]
      modifies this`mfmnext, trkbuf
      ensures mfmnext == old(mfmnext) + 2
      ensures trkbuf[..] == Spliced(old(trkbuf[..]), old(mfmnext), [byte, byte])
      ensures trkbuf[mfmnext - 2] == Between(byte)
    {
      ghost var buf, base := trkbuf[..], mfmnext;
      Encode([byte]);
      ghost var one := trkbuf[..];
      Encode([byte]);
      TwiceSpliced(buf, one, trkbuf[..], base, byte);
    }

    static lemma TwiceSpliced(buf: seq<Ushort>, one: seq<Ushort>, two: seq<Ushort>, base: nat, byte: Byte)
      requires 0 < base && base + 2 <= |buf| == |one|
      requires one == Spliced(buf, base, [byte]) && two == Spliced(one, base + 1, [byte])
      ensures two == Spliced(buf, base, [byte, byte]) && two[base] == Between(byte)
    {
      SplicedMore(buf, base, [byte], byte);
      SplicedMore(one, base + 1, [], byte);
      assert [byte] + [byte] == [byte, byte] && [] + [byte] == [byte];
      assert Spliced(one, base + 1, []) == one;
      assert one[base] == Encoded(byte);
    }

    /** mfmrep: `cnt` copies of a byte, of which only two are encoded; the rest are copies of the word in
        between.  The words are exactly those that mfm leaves for the same bytes. */
    method Repeat(byte: Byte, cnt: nat)
      requires 0 < mfmnext && mfmnext + cnt <= trkbuf.Length
      requires !trkbuf[mfmnext - 1][15]
      modifies this`mfmnext, trkbuf
      ensures mfmnext == old(mfmnext) + cnt && !trkbuf[mfmnext - 1][15]
      ensures trkbuf[..] == Spliced(old(trkbuf[..]), old(mfmnext), Copies(byte, cnt))
    {
      ghost var buf, base := trkbuf[..], mfmnext;
      if cnt < 2 {
        assert Copies(byte, cnt) == if cnt == 0 then [] else [byte];
        if cnt == 0 {
          assert Spliced(buf, base, []) == buf;
          return;
        }
        Encode([byte]);
        return;
      }
      EncodeTwice(byte);
      FillCopies(byte, cnt, buf, base);
      assert trkbuf[mfmnext - 1] == Encoded(byte);
    }

    /** The loop of mfmrep: a word stored over and over. */
    method StoreCopies(val: Ushort, count: nat)
      requires 0 < mfmnext && mfmnext + count <= trkbuf.Length
      modifies this`mfmnext, trkbuf
      ensures mfmnext == old(mfmnext) + count
      ensures forall k: nat :: k < trkbuf.Length ==>
        trkbuf[k] == if old(mfmnext) <= k < mfmnext then val else old(trkbuf[k])
    {
      ghost var base := mfmnext;
      for left := count downto 0
        invariant mfmnext == base + count - left
        invariant forall k: nat :: k < trkbuf.Length ==> trkbuf[k] == if base <= k < mfmnext then val else old(trkbuf[k])
      {
        trkbuf[mfmnext] := val;
        mfmnext := mfmnext + 1;
      }
    }

    /** The rest of the copies: words stored unchanged, and the last clock bit opened again. */
    method FillCopies(byte: Byte, cnt: nat, ghost buf: seq<Ushort>, ghost base: nat)
      requires 2 <= cnt && 0 < base && base + cnt <= trkbuf.Length == |buf| && mfmnext == base + 2
      requires trkbuf[..] == Spliced(buf, base, [byte, byte]) && trkbuf[mfmnext - 2] == Between(byte)
      modifies this`mfmnext, trkbuf
      ensures mfmnext == base + cnt && trkbuf[mfmnext - 1] == Encoded(byte)
      ensures trkbuf[..] == Spliced(buf, base, Copies(byte, cnt))
    {
      ghost var two := trkbuf[..];
      var val := trkbuf[mfmnext - 2];
      trkbuf[mfmnext - 1] := val;
      StoreCopies(val, cnt - 2);
      trkbuf[mfmnext - 1] := trkbuf[mfmnext - 1][15 := false];
      BetweenIsEncoded(byte);
      CopiesEncoded(buf, two, trkbuf[..], base, byte, cnt);
    }

    static lemma BetweenIsEncoded(byte: Byte)
      ensures Between(byte)[15 := false] == Encoded(byte)
    {
    }

    static lemma CopiesEncoded(buf: seq<Ushort>, two: seq<Ushort>, buf': seq<Ushort>, base: nat, byte: Byte, cnt: nat)
      requires 2 <= cnt && 0 < base && base + cnt <= |buf| == |buf'| && two == Spliced(buf, base, [byte, byte])
      requires forall k: nat :: k < |buf| ==>
        buf'[k] == if base <= k < base + cnt - 1 then Between(byte) else if k == base + cnt - 1 then Encoded(byte) else two[k]
      ensures buf' == Spliced(buf, base, Copies(byte, cnt))
    {
      var t := Spliced(buf, base, Copies(byte, cnt));
      forall k: nat | k < |buf|
        ensures buf'[k] == t[k]
      {
        assert base - 1 <= k < base + cnt || buf'[k] == two[k] == buf[k] == t[k];
      }
    }

    /** The track once encoded words have been copied to `base`. */
    static function Pasted(buf: seq<Ushort>, base: nat, from: seq<Ushort>): (buf': seq<Ushort>)
      requires 0 < base && base + |from| <= |buf|
    {
      var w := buf[base - 1];
      buf[..base - 1] + (if from == [] then [w] else [w[15 := !w[14] && !from[0][0]]]) + from + buf[base + |from|..]
    }

    /** mfmcopy: words that are already encoded, such as address marks. */
    method Copy(from: seq<Ushort>)
      requires 0 < mfmnext && mfmnext + |from| <= trkbuf.Length
      requires !trkbuf[mfmnext - 1][15]
      modifies this`mfmnext, trkbuf
      ensures mfmnext == old(mfmnext) + |from|
      ensures trkbuf[..] == Pasted(old(trkbuf[..]), old(mfmnext), from)
    {
      ghost var buf, base := trkbuf[..], mfmnext;
      if |from| == 0 {
        return;
      }
      assert buf[base - 1][15 := false] == buf[base - 1];
      if !trkbuf[mfmnext - 1][14] && !from[0][0] {
        trkbuf[mfmnext - 1] := trkbuf[mfmnext - 1][15 := true];
      }
      ghost var settled := trkbuf[base - 1];
      for i := 0 to |from|
        invariant mfmnext == base + i
        invariant forall k: nat :: k < trkbuf.Length ==>
          trkbuf[k] == if k == base - 1 then settled else if base <= k < base + i then from[k - base] else buf[k]
      {
        trkbuf[mfmnext] := from[i];
        mfmnext := mfmnext + 1;
      }
    }

    /** The part of dosec that writes an id or data field. */
    method PutField(m: Mark, payload: seq<Byte>)
      requires 0 < mfmnext && mfmnext + |payload| + 6 <= trkbuf.Length
      requires !trkbuf[mfmnext - 1][15]
      modifies this`mfmnext, trkbuf
      ensures mfmnext == old(mfmnext) + |payload| + 6 && !trkbuf[mfmnext - 1][15]
      ensures var check := Crc.Register(m.Magic() + payload);
              trkbuf[old(mfmnext)..mfmnext] == FieldWords(m, payload + [check[..8], check[8..]])
      ensures trkbuf[..old(mfmnext) - 1] == old(trkbuf[..mfmnext - 1])
      ensures trkbuf[mfmnext..] == old(trkbuf[mfmnext + |payload| + 6..])
    {
      ghost var buf, base := trkbuf[..], mfmnext;
      var check := Crc.Register(m.Magic() + payload);
      var bytes := payload + [check[..8], check[8..]];
      MarkWords(m, 3);
      Copy(m.Words());
      ghost var marked := trkbuf[..];
      MarkPasted(buf, base, m);
      Encode(bytes);
      FieldSpliced(buf, marked, base, m, bytes);
    }

    static lemma MarkPasted(buf: seq<Ushort>, base: nat, m: Mark)
      requires 0 < base && base + 4 <= |buf|
      ensures var t := Pasted(buf, base, m.Words());
              t[base..base + 4] == m.Words() && t[base + 3] == m.Words()[3]
              && t[..base - 1] == buf[..base - 1] && t[base + 4..] == buf[base + 4..]
    {
    }

    static lemma FieldSpliced(buf: seq<Ushort>, marked: seq<Ushort>, base: nat, m: Mark, bytes: seq<Byte>)
      requires 0 < base && base + 4 + |bytes| <= |buf| && marked == Pasted(buf, base, m.Words())
      ensures var t := Spliced(marked, base + 4, bytes);
              t[base..base + 4 + |bytes|] == FieldWords(m, bytes)
              && t[..base - 1] == buf[..base - 1]
              && t[base + 4 + |bytes|..] == buf[base + 4 + |bytes|..]
    {
      MarkPasted(buf, base, m);
      assert marked[base..base + 3] == m.Words()[..3];
      assert marked[base + 4..][|bytes|..] == marked[base + 4 + |bytes|..];
      assert buf[base + 4..][|bytes|..] == buf[base + 4 + |bytes|..];
    }
  }

  function Join(a: Bits, b: Bits): Bits
  {
    a + b
  }

  function Copies(byte: Byte, n: nat): (bytes: seq<Byte>)
    ensures |bytes| == n
  {
    seq(n, _ => byte)
  }

  // ----- decoding

  /** The data bits of a word, as a byte. */
  function Stripped(w: Ushort): (b: Byte)
  {
    seq(8, i requires 0 <= i < 8 => w[2 * i])
  }

  /** Entries of makedemtab's tables: the data bits of half a word, in the high or the low half of a byte. */
  function HighStrip(ch: Byte): (b: Byte)
  {
    [ch[0], ch[2], ch[4], ch[6], false, false, false, false]
  }

  function LowStrip(ch: Byte): (b: Byte)
  {
    [false, false, false, false, ch[0], ch[2], ch[4], ch[6]]
  }

  lemma StripsJoin(w: Ushort)
    ensures Or(HighStrip(w[..8]), LowStrip(w[8..])) == Stripped(w)
  {
    var x, y := Or(HighStrip(w[..8]), LowStrip(w[8..])), Stripped(w);
    assert x[0] == y[0] && x[1] == y[1] && x[2] == y[2] && x[3] == y[3];
    assert x[4] == y[4] && x[5] == y[5] && x[6] == y[6] && x[7] == y[7];
  }

  /** makedemtab for one byte. */
  method StripEntry(ch: Byte) returns (high: Byte, low: Byte)
    ensures high == HighStrip(ch) && low == LowStrip(ch)
  {
    var res: Byte := Zeros(8);
    var ibit: Byte, obit: Byte := Probe(0), Probe(4);
    ghost var j := 0;
    Crc.ProbeSelects(ch, 4);
    while obit != Zeros(8)
      invariant j <= 4 && ibit == Probe(2 * j) && obit == Probe(4 + j) && (obit != Zeros(8) <==> j < 4)
      invariant forall i: nat :: i < 8 ==> res[i] == (4 <= i < 4 + j && ch[2 * (i - 4)])
      decreases 4 - j
    {
      res := StripBit(ch, res, ibit, obit, j);
      ShiftTwice(ibit, 2 * j);
      ibit := Shr(ibit, 2);
      Crc.ProbeSelects(ch, 4 + j);
      Crc.ProbeSelects(ch, 5 + j);
      obit := Shr(obit, 1);
      j := j + 1;
    }
    low := res;
    high := Shl(res, 4);
  }

  /** One turn of makedemtab's inner loop. */
  method StripBit(ch: Byte, res: Byte, ibit: Byte, obit: Byte, ghost j: nat) returns (res': Byte)
    requires j < 4 && ibit == Probe(2 * j) && obit == Probe(4 + j) && !res[4 + j]
    ensures res' == res[4 + j := ch[2 * j]]
  {
    Crc.ProbeSelects(ch, 2 * j);
    res' := res;
    if And(ch, ibit) != Zeros(8) {
      res' := Or(res, obit);
    }
    ProbeAt(4 + j);
  }

  lemma ProbeAt(j: nat)
    requires j < 8
    ensures forall i: nat :: i < 8 ==> Probe(j)[i] == (i == j)
  {
  }

  lemma ShiftTwice(b: Byte, j: nat)
    requires j + 1 < 8 && b == Probe(j)
    ensures Shr(b, 2) == Probe(j + 2)
  {
    assert Shr(b, 2) == Shr(Shr(b, 1), 1);
    Crc.ProbeSelects(b, j);
    Crc.ProbeSelects(b, j + 1);
  }

  /** The byte found at a bit position. */
  function StrippedAt(r: Bits, at: nat): (b: Byte)
  {
    if at + 16 <= |r| then Stripped(r[at..at + 16]) else Zeros(8)
  }

  function StrippedBytes(r: Bits, at: nat, n: nat): (bytes: seq<Byte>)
    ensures |bytes| == n
  {
    seq(n, k requires 0 <= k < n => StrippedAt(r, at + 16 * k))
  }

  /** The bits at `at` are those of the words, but for the clock bit that ends the last word: it depends on
      what was written next. */
  ghost predicate Recorded(r: Bits, at: nat, words: seq<Ushort>)
  {
    at + 16 * |words| <= |r|
    && forall k: nat, i: nat :: k < |words| && i < 16 && !(k == |words| - 1 && i == 15) ==> r[at + 16 * k + i] == words[k][i]
  }

  /** What Flat(words) puts on the disk is recorded there, whatever precedes and follows it. */
  lemma FlatIsRecorded(before: Bits, words: seq<Ushort>, settled: seq<Ushort>, after: Bits)
    requires |settled| == |words|
    requires forall k: nat :: k < |words| ==> settled[k] == words[k] || (k == |words| - 1 && settled[k] == words[k][15 := settled[k][15]])
    ensures Recorded(before + Flat(settled) + after, |before|, words)
  {
    var r := before + Flat(settled) + after;
    forall k: nat, i: nat | k < |words| && i < 16 && !(k == |words| - 1 && i == 15)
      ensures r[|before| + 16 * k + i] == words[k][i]
    {
      FlatAt(settled, k);
      assert r[|before| + 16 * k + i] == Flat(settled)[16 * k + i];
      assert Flat(settled)[16 * k..16 * k + 16][i] == Flat(settled)[16 * k + i];
    }
  }

  lemma DataBitsSurvive(w: Ushort, c: Byte, v: Ushort)
    requires forall i: nat :: i < 15 && i % 2 == 0 ==> w[i] == Encoded(c)[i] == v[i]
    ensures Stripped(w) == c && Stripped(v) == c
  {
    forall i: nat | i < 8
      ensures Stripped(w)[i] == c[i] && Stripped(v)[i] == c[i]
    {
      assert w[2 * i] == Encoded(c)[2 * i] == v[2 * i];
    }
  }

  /** A recorded word is stripped as the word itself, at every alignment. */
  lemma RecordedStrips(r: Bits, at: nat, words: seq<Ushort>, k: nat)
    requires Recorded(r, at, words) && k < |words|
    ensures StrippedAt(r, at + 16 * k) == Stripped(words[k])
  {
    var w := r[at + 16 * k..at + 16 * k + 16];
    forall i: nat | i < 8
      ensures Stripped(w)[i] == Stripped(words[k])[i]
    {
      assert w[2 * i] == r[at + 16 * k + 2 * i];
    }
  }

  lemma EncodedWordStrips(bytes: seq<Byte>, k: nat)
    requires k < |bytes|
    ensures Stripped(EncodedWords(bytes)[k]) == bytes[k]
  {
    DataBitsSurvive(EncodedWords(bytes)[k], bytes[k], EncodedWords(bytes)[k]);
  }

  lemma RecordedByte(r: Bits, at: nat, bytes: seq<Byte>, k: nat)
    requires k < |bytes| && Recorded(r, at, EncodedWords(bytes))
    ensures StrippedAt(r, at + 16 * k) == bytes[k]
  {
    RecordedStrips(r, at, EncodedWords(bytes), k);
    EncodedWordStrips(bytes, k);
  }

  lemma StrippedBytesAre(r: Bits, at: nat, bytes: seq<Byte>)
    requires forall k: nat :: k < |bytes| ==> StrippedAt(r, at + 16 * k) == bytes[k]
    ensures StrippedBytes(r, at, |bytes|) == bytes
  {
  }

  /** Decoding undoes encoding, for every string of bytes and every bit position. */
  lemma DecodeUndoesEncode(r: Bits, at: nat, bytes: seq<Byte>)
    requires Recorded(r, at, EncodedWords(bytes))
    ensures StrippedBytes(r, at, |bytes|) == bytes
  {
    forall k: nat | k < |bytes|
      ensures StrippedAt(r, at + 16 * k) == bytes[k]
    {
      RecordedByte(r, at, bytes, k);
    }
    StrippedBytesAre(r, at, bytes);
  }

  // ----- address marks and what follows them

  const A1: Byte := [true, false, true, false, false, false, false, true]
  const FE: Byte := [true, true, true, true, true, true, true, false]
  const FB: Byte := [true, true, true, true, true, false, true, true]

  /** 0x8912: the byte 0xA1 with a clock bit missing. */
  const W8912: Ushort :=
    [true, false, false, false, true, false, false, true, false, false, false, true, false, false, true, false]
  const WAAA8: Ushort :=
    [true, false, true, false, true, false, true, false, true, false, true, false, true, false, false, false]
  const WAA8A: Ushort :=
    [true, false, true, false, true, false, true, false, true, false, false, false, true, false, true, false]

  datatype Mark = IdMark | DataMark {

    /** idamagic and damagic. */
    function Words(): (words: seq<Ushort>)
      ensures |words| == 4
    {
      [W8912, W8912, W8912, if IdMark? then WAAA8 else WAA8A]
    }

    /** The bytes dosec puts in front of a block before it takes the check. */
    function Magic(): (bytes: seq<Byte>)
      ensures |bytes| == 4
    {
      [A1, A1, A1, if IdMark? then FE else FB]
    }
  }

  lemma MarkWords(m: Mark, k: nat)
    requires k < 4
    ensures Stripped(m.Words()[k]) == m.Magic()[k]
    ensures !m.Words()[3][15]
  {
    var b, c := Stripped(m.Words()[k]), m.Magic()[k];
    assert b[0] == c[0] && b[1] == c[1] && b[2] == c[2] && b[3] == c[3];
    assert b[4] == c[4] && b[5] == c[5] && b[6] == c[6] && b[7] == c[7];
  }

  /** The words of an id or data field: its mark, then its bytes. */
  function FieldWords(m: Mark, bytes: seq<Byte>): (words: seq<Ushort>)
    ensures |words| == 4 + |bytes|
  {
    m.Words()[..3] + [Settled(m.Words()[3], bytes)] + EncodedWords(bytes)
  }

  lemma FieldWordStrips(m: Mark, bytes: seq<Byte>, k: nat)
    requires k < 4 + |bytes|
    ensures Stripped(FieldWords(m, bytes)[k]) == (m.Magic() + bytes)[k]
  {
    if k < 4 {
      MarkWords(m, k);
      var w := FieldWords(m, bytes)[k];
      assert w == m.Words()[k][15 := w[15]];
      assert Stripped(w) == Stripped(m.Words()[k]);
    } else {
      EncodedWordStrips(bytes, k - 4);
    }
  }

  /** A field read back at any alignment is the mark's bytes, the payload and its check, and it passes the
      test in findidam and findddam. */
  lemma FieldRoundTrip(r: Bits, at: nat, m: Mark, payload: seq<Byte>, h: Byte, l: Byte)
    requires h + l == Crc.Register(m.Magic() + payload)
    requires Recorded(r, at, FieldWords(m, payload + [h, l]))
    ensures StrippedBytes(r, at, |payload| + 6) == m.Magic() + payload + [h, l]
    ensures Crc.Register(StrippedBytes(r, at, |payload| + 6)) == Zeros(16)
  {
    var bytes := payload + [h, l];
    var all := m.Magic() + bytes;
    forall k: nat | k < |all|
      ensures StrippedAt(r, at + 16 * k) == all[k]
    {
      RecordedStrips(r, at, FieldWords(m, bytes), k);
      FieldWordStrips(m, bytes, k);
    }
    StrippedBytesAre(r, at, all);
    assert all == m.Magic() + payload + [h, l];
    Crc.StoredCheckGivesZero(m.Magic() + payload, h, l);
  }

  /** A position in a raw track: the bit mfmbskip of word mfmnext. */
  class Reader {
    const trkbuf: array<Ushort>
    const mfmlim: nat
    var mfmnext: nat
    var mfmbskip: nat

    ghost predicate Valid()
      reads this
    {
      mfmbskip < 16 && mfmnext <= mfmlim <= trkbuf.Length
    }

    constructor (buffer: array<Ushort>, lim: nat)
      requires lim <= buffer.Length
      ensures Valid() && trkbuf == buffer && mfmlim == lim && mfmnext == 0 && mfmbskip == 0
    {
      trkbuf, mfmlim, mfmnext, mfmbskip := buffer, lim, 0, 0;
    }

    /** left << mfmbskip | next >> 16-mfmbskip: the 16 bits found mfmbskip bits into `left`. */
    static function Window(left: Ushort, next: Ushort, skip: nat): (w: Ushort)
      requires skip < 16
    {
      Or(Shl(left, skip), Shr(next, 16 - skip))
    }

    static lemma WindowIsSlice(r: Bits, at: nat, left: Ushort, next: Ushort, skip: nat)
      requires skip < 16 && at + 32 <= |r| && Join(left, next) == r[at..at + 32]
      ensures Window(left, next, skip) == r[at + skip..at + skip + 16]
    {
      var w := Window(left, next, skip);
      assert w == Join(left, next)[skip..skip + 16];
      PartOfSlice(w, Join(left, next), r, at, skip, 16);
    }

    static lemma TwoWords(words: seq<Ushort>, k: nat)
      requires k + 1 < |words|
      ensures Join(words[k], words[k + 1]) == Flat(words)[16 * k..16 * k + 32]
    {
      FlatAt(words, k);
      FlatAt(words, k + 1);
      SliceJoins(Flat(words), 16 * k, 16 * k + 16, 16 * k + 32);
    }

    /** demfm: `dlen` bytes stripped from the bits at the current position, for every bit alignment, unless
        too few words are left.  When the position is not at a word boundary it moves one word further than
        the bytes take up. */
    method Strip(dlen: nat) returns (ok: bool, dst: seq<Byte>)
      requires Valid()
      modifies this`mfmnext
      ensures Valid()
      ensures ok <==> old(mfmnext) + dlen + (if mfmbskip == 0 then 0 else 1) <= mfmlim
      ensures ok ==> mfmnext == old(mfmnext) + dlen + if mfmbskip == 0 then 0 else 1
      ensures !ok ==> mfmnext == old(mfmnext) && dst == []
      ensures ok ==> dst == StrippedBytes(Flat(trkbuf[..]), 16 * old(mfmnext) + mfmbskip, dlen)
    {
      dst := [];
      ghost var at := 16 * mfmnext + mfmbskip;
      if mfmbskip == 0 {
        if dlen > mfmlim - mfmnext {
          return false, [];
        }
        dst := StripAligned(dlen);
      } else {
        if dlen >= mfmlim - mfmnext {
          return false, [];
        }
        dst := StripShifted(dlen);
      }
      StrippedBytesAre(Flat(trkbuf[..]), at, dst);
      ok := true;
    }

    method StripAligned(dlen: nat) returns (dst: seq<Byte>)
      requires Valid() && mfmbskip == 0 && mfmnext + dlen <= mfmlim
      modifies this`mfmnext
      ensures mfmnext == old(mfmnext) + dlen && |dst| == dlen
      ensures forall i: nat :: i < dlen ==> dst[i] == StrippedAt(Flat(trkbuf[..]), 16 * old(mfmnext) + 16 * i)
    {
      dst := [];
      ghost var r, start := Flat(trkbuf[..]), mfmnext;
      for i := 0 to dlen
        invariant mfmnext == start + i && |dst| == i
        invariant forall k: nat :: k < i ==> dst[k] == StrippedAt(r, 16 * start + 16 * k)
      {
        var w := trkbuf[mfmnext];
        FlatAt(trkbuf[..], mfmnext);
        mfmnext := mfmnext + 1;
        var b := StripWord(w);
        dst := dst + [b];
      }
    }

    method StripShifted(dlen: nat) returns (dst: seq<Byte>)
      requires Valid() && mfmbskip != 0 && mfmnext + dlen < mfmlim
      modifies this`mfmnext
      ensures mfmnext == old(mfmnext) + dlen + 1 && |dst| == dlen
      ensures forall i: nat :: i < dlen ==>
                dst[i] == StrippedAt(Flat(trkbuf[..]), 16 * old(mfmnext) + mfmbskip + 16 * i)
    {
      dst := [];
      ghost var r, start := Flat(trkbuf[..]), mfmnext;
      var left := trkbuf[mfmnext];
      mfmnext := mfmnext + 1;
      for i := 0 to dlen
        invariant mfmnext == start + i + 1 && |dst| == i && left == trkbuf[start + i]
        invariant forall k: nat :: k < i ==> dst[k] == StrippedAt(r, 16 * start + mfmbskip + 16 * k)
      {
        var next := trkbuf[mfmnext];
        var b := StripWindow(left, next, start + i);
        left := next;
        mfmnext := mfmnext + 1;
        dst := dst + [b];
      }
    }

    method StripWindow(left: Ushort, next: Ushort, ghost k: nat) returns (b: Byte)
      requires mfmbskip < 16 && k + 1 < trkbuf.Length && left == trkbuf[k] && next == trkbuf[k + 1]
      ensures b == StrippedAt(Flat(trkbuf[..]), 16 * k + mfmbskip)
    {
      TwoWords(trkbuf[..], k);
      WindowIsSlice(Flat(trkbuf[..]), 16 * k, left, next, mfmbskip);
      b := StripWord(Window(left, next, mfmbskip));
    }

    /** The part of findidam and findddam after the search: a field of n bytes, accepted when its check is
        right. */
    method ReadField(n: nat) returns (ok: bool, field: seq<Byte>)
      requires Valid()
      modifies this`mfmnext
      ensures Valid()
      ensures ok <==> old(mfmnext) + n + (if mfmbskip == 0 then 0 else 1) <= mfmlim
                      && Crc.Register(StrippedBytes(Flat(trkbuf[..]), 16 * old(mfmnext) + mfmbskip, n)) == Zeros(16)
      ensures ok ==> field == StrippedBytes(Flat(trkbuf[..]), 16 * old(mfmnext) + mfmbskip, n)
    {
      ok, field := Strip(n);
      if ok {
        ok := Crc.Register(field) == Zeros(16);
      }
    }

    /** One word through the two tables. */
    method StripWord(w: Ushort) returns (b: Byte)
      ensures b == Stripped(w)
    {
      var high, _ := StripEntry(w[..8]);
      var _, low := StripEntry(w[8..]);
      StripsJoin(w);
      b := Or(high, low);
    }
  }
}
