/**
 The AmigaDOS floppy format's codec: a block is recorded as all its odd data bits, then all its even data
 bits, each with its clock bits in between.
 */
module AmigaFloppy {

  import opened Basics
  import opened Words
  import opened Mfm

  const BPL: nat := 32  // bits per ulong

  type Ulong = w: Bits | |w| == 32 witness Zeros(32)

  /** 0x55555555 */
  function DMASK(): (m: Ulong)
  {
    seq(32, i requires 0 <= i < 32 => i % 2 == 1)
  }

  /** The bits of an array of words as they lie on the track. */
  function Flat(words: seq<Ulong>): (bits: Bits)
    ensures |bits| == 32 * |words|
  {
    if words == [] then [] else Flat(words[..|words| - 1]) + words[|words| - 1]
  }

  lemma {:induction false} FlatConcat(a: seq<Ulong>, b: seq<Ulong>)
    ensures Flat(a + b) == Flat(a) + Flat(b)
  {
    if b == [] {
      assert a + b == a;
    } else {
      assert (a + b)[..|a + b| - 1] == a + b[..|b| - 1];
      FlatConcat(a, b[..|b| - 1]);
    }
  }

  lemma {:induction false} FlatAt(words: seq<Ulong>, k: nat)
    requires k < |words|
    ensures Flat(words)[32 * k..32 * k + 32] == words[k]
  {
    var n := |words| - 1;
    if k < n {
      FlatAt(words[..n], k);
      assert Flat(words)[32 * k..32 * k + 32] == Flat(words[..n])[32 * k..32 * k + 32];
    }
  }

  /** The odd-numbered (high) bits of each pair, and the even-numbered ones. */
  function OddHalf(w: Ulong): (d: Bits)
    ensures |d| == 16
  {
    seq(16, j requires 0 <= j < 16 => w[2 * j])
  }

  function EvenHalf(w: Ulong): (d: Bits)
    ensures |d| == 16
  {
    seq(16, j requires 0 <= j < 16 => w[2 * j + 1])
  }

  function OddBits(block: seq<Ulong>): (d: Bits)
    ensures |d| == 16 * |block|
  {
    if block == [] then [] else OddBits(block[..|block| - 1]) + OddHalf(block[|block| - 1])
  }

  function EvenBits(block: seq<Ulong>): (d: Bits)
    ensures |d| == 16 * |block|
  {
    if block == [] then [] else EvenBits(block[..|block| - 1]) + EvenHalf(block[|block| - 1])
  }

  /** The data bits of a block in the order they are recorded. */
  function Recorded(block: seq<Ulong>): (d: Bits)
    ensures |d| == 32 * |block|
  {
    OddBits(block) + EvenBits(block)
  }

  // ----- encoding

  /** n |= ~ (n<<1 | n>>1 | DMASK), on a word that holds only data bits. */
  function AddClock(n: Ulong): (m: Ulong)
  {
    Or(n, Not(Or(Or(Shl(n, 1), Shr(n, 1)), DMASK())))
  }

  /** The clock bits of one word, then the first of them cleared if the data bit before it is 1. */
  function Clocked(n: Ulong, before: bool): (m: Ulong)
  {
    var c := AddClock(n);
    if c[0] && before then c[0 := false] else c
  }

  lemma ClockedIsStream(n: Ulong, before: bool, data: Bits)
    requires |data| == 16
    requires forall j: nat :: j < 16 ==> !n[2 * j] && n[2 * j + 1] == data[j]
    ensures Clocked(n, before) == Stream(before, data)
    ensures Clocked(n, before)[31] == data[15]
  {
    var m := Clocked(n, before);
    forall j: nat | j < 16
      ensures PairRight(before, data, m, j)
    {
      var c := AddClock(n);
      assert c[2 * j + 1] == n[2 * j + 1];
      assert j > 0 ==> n[2 * j - 1] == n[2 * (j - 1) + 1] == data[j - 1];
      assert c[2 * j] == !((j > 0 && data[j - 1]) || n[2 * j + 1]);
    }
    StreamIs(before, data, m);
    assert m[2 * 15 + 1] == data[15];
  }

  lemma OddWord(w: Ulong, before: bool)
    ensures Clocked(And(Shr(w, 1), DMASK()), before) == Stream(before, OddHalf(w))
    ensures Clocked(And(Shr(w, 1), DMASK()), before)[31] == OddHalf(w)[15]
  {
    ClockedIsStream(And(Shr(w, 1), DMASK()), before, OddHalf(w));
  }

  lemma EvenWord(w: Ulong, before: bool)
    ensures Clocked(And(w, DMASK()), before) == Stream(before, EvenHalf(w))
    ensures Clocked(And(w, DMASK()), before)[31] == EvenHalf(w)[15]
  {
    ClockedIsStream(And(w, DMASK()), before, EvenHalf(w));
  }

  /** The stream's first clock bit is all that depends on the data bit before it. */
  lemma FirstClock(before: bool, after: bool, data: Bits)
    requires data != []
    ensures Stream(after, data) == Stream(before, data)[0 := !(after || data[0])]
  {
  }

  class Track {
    const mfmbuf: array<Ulong>
    var next: nat  // word index of the next word to write

    constructor (buffer: array<Ulong>)
      ensures mfmbuf == buffer && next == 0
    {
      mfmbuf, next := buffer, 0;
    }

    /** One encoded word stored, its first clock bit adjusted to the word before it. */
    method Put(at: nat, n: Ulong)
      requires 0 < at < mfmbuf.Length
      modifies mfmbuf
      ensures mfmbuf[..] == old(mfmbuf[..])[at := Clocked(n, old(mfmbuf[at - 1])[31])]
    {
      var m: Ulong := AddClock(n);
      if m[0] && mfmbuf[at - 1][31] {
        m := m[0 := false];
      }
      mfmbuf[at] := m;
    }

    method PutOdd(at: nat, w: Ulong)
      requires 0 < at < mfmbuf.Length
      modifies mfmbuf
      ensures mfmbuf[..] == old(mfmbuf[..])[at := Stream(old(mfmbuf[at - 1])[31], OddHalf(w))]
    {
      OddWord(w, mfmbuf[at - 1][31]);
      Put(at, And(Shr(w, 1), DMASK()));
    }

    method PutEven(at: nat, w: Ulong)
      requires 0 < at < mfmbuf.Length
      modifies mfmbuf
      ensures mfmbuf[..] == old(mfmbuf[..])[at := Stream(old(mfmbuf[at - 1])[31], EvenHalf(w))]
    {
      EvenWord(w, mfmbuf[at - 1][31]);
      Put(at, And(w, DMASK()));
    }

    /** putslop: encoded zeros at the start of the track. */
    method PutSlop(n: nat)
      requires next == 0 && n <= mfmbuf.Length
      modifies this`next, mfmbuf
      ensures next == n && Flat(mfmbuf[..n]) == Stream(false, Zeros(16 * n))
      ensures forall k :: n <= k < mfmbuf.Length ==> mfmbuf[k] == old(mfmbuf[k])
    {
      var p := 0;
      while p < n
        invariant p <= n
        invariant forall k :: 0 <= k < p ==> mfmbuf[k] == Slop()
        invariant forall k :: p <= k < mfmbuf.Length ==> mfmbuf[k] == old(mfmbuf[k])
      {
        mfmbuf[p] := Slop();
        p := p + 1;
      }
      next := p;
      SlopIsStream(mfmbuf[..n]);
    }

    /** putmagic: encoded zeros and two sync words. */
    method PutMagic()
      requires 0 < next && next + 2 <= mfmbuf.Length
      modifies this`next, mfmbuf
      ensures next == old(next) + 2
      ensures mfmbuf[..] == old(mfmbuf[..])[old(next) := Stream(old(mfmbuf[next - 1])[31], Zeros(16))]
                                           [old(next) + 1 := SYNC + SYNC]
    {
      LeadIsStream(mfmbuf[next - 1][31]);
      mfmbuf[next] := if mfmbuf[next - 1][31] then Lead(true) else Lead(false);
      mfmbuf[next + 1] := SYNC + SYNC;
      next := next + 2;
    }

    /** The first i words of each half are written: each continues the stream of the one before.  `stale` is
        what the even half's first word found in front of it. */
    static ghost predicate Written(buf: seq<Ulong>, base: nat, n: nat, i: nat, first: bool, stale: bool, block: seq<Ulong>)
      requires base + 2 * n <= |buf| && i <= n == |block|
    {
      forall k: nat {:trigger At(k)} :: At(k) && k < i ==>
        && buf[base + k] == Stream(OddBefore(first, block, k), OddHalf(block[k]))
        && buf[base + n + k] == Stream(EvenBefore(stale, block, k), EvenHalf(block[k]))
    }

    static function OddBefore(first: bool, block: seq<Ulong>, k: nat): bool
      requires k <= |block|
    {
      if k == 0 then first else OddHalf(block[k - 1])[15]
    }

    static function EvenBefore(stale: bool, block: seq<Ulong>, k: nat): bool
      requires k <= |block|
    {
      if k == 0 then stale else EvenHalf(block[k - 1])[15]
    }

    static ghost predicate SameOutside(buf: seq<Ulong>, buf': seq<Ulong>, lo: nat, hi: nat)
    {
      |buf'| == |buf| && forall k: nat :: k < |buf| && !(lo <= k < hi) ==> buf'[k] == buf[k]
    }

    static lemma LastOfWord(before: bool, data: Bits)
      requires |data| == 16
      ensures Stream(before, data)[31] == data[15]
    {
      StreamAt(before, data, 15);
      assert Stream(before, data)[2 * 15 + 1] == data[15];
    }

    /** mfm: a block encoded at `next`, which moves on past it.  The first clock bit takes account of the bit
        before the block; the first clock bit of the even half, written before the end of the odd half is
        known, is put right at the end. */
    method Encode(from: array<Ulong>)
      requires from != mfmbuf && 0 < from.Length
      requires 0 < next && next + 2 * from.Length <= mfmbuf.Length
      modifies this`next, mfmbuf
      ensures next == old(next) + 2 * from.Length
      ensures Flat(mfmbuf[old(next)..next]) == Stream(old(mfmbuf[next - 1])[31], Recorded(from[..]))
      ensures SameOutside(old(mfmbuf[..]), mfmbuf[..], old(next), next)
    {
      var n := from.Length;
      ghost var block, base, buf0 := from[..], next, mfmbuf[..];
      ghost var first := mfmbuf[base - 1][31];
      ghost var stale := if n == 1 then OddHalf(block[0])[15] else mfmbuf[base + n - 1][31];
      EncodeWords(from, first, stale);
      Finish(n, buf0, first, stale, block);
      next := next + 2 * n;
    }

    /** The end of mfm. */
    method Finish(n: nat, ghost buf0: seq<Ulong>, ghost first: bool, ghost stale: bool, ghost block: seq<Ulong>)
      requires 0 < next && 0 < n == |block| && next + 2 * n <= mfmbuf.Length
      requires SameOutside(buf0, mfmbuf[..], next, next + 2 * n) && Written(mfmbuf[..], next, n, n, first, stale, block)
      modifies mfmbuf
      ensures Flat(mfmbuf[next..next + 2 * n]) == Stream(first, Recorded(block))
      ensures SameOutside(buf0, mfmbuf[..], next, next + 2 * n)
    {
      ghost var b := mfmbuf[..];
      PutRight(next + n);
      OneMoreInside(buf0, b, mfmbuf[..], next, next + 2 * n, next + n);
      Joined(b, mfmbuf[..], next, n, first, stale, block);
      assert mfmbuf[..][next..next + 2 * n] == mfmbuf[next..next + 2 * n];
    }

    static lemma OneMoreInside(buf0: seq<Ulong>, b: seq<Ulong>, b': seq<Ulong>, lo: nat, hi: nat, at: nat)
      requires SameOutside(buf0, b, lo, hi) && lo <= at < hi && |b'| == |b|
      requires forall k: nat :: k < |b| && k != at ==> b'[k] == b[k]
      ensures SameOutside(buf0, b', lo, hi)
    {
    }

    /** The loop of mfm. */
    method EncodeWords(from: array<Ulong>, ghost first: bool, ghost stale: bool)
      requires from != mfmbuf && 0 < from.Length && 0 < next && next + 2 * from.Length <= mfmbuf.Length
      requires first == mfmbuf[next - 1][31]
      requires stale == if from.Length == 1 then OddHalf(from[0])[15] else mfmbuf[next + from.Length - 1][31]
      modifies mfmbuf
      ensures SameOutside(old(mfmbuf[..]), mfmbuf[..], next, next + 2 * from.Length)
      ensures Written(mfmbuf[..], next, from.Length, from.Length, first, stale, from[..])
    {
      var n := from.Length;
      var odd, even := next, next + n;
      ghost var block, buf0, base := from[..], mfmbuf[..], next;
      var i := 0;
      while i < n
        invariant 0 <= i <= n && odd == base + i && even == base + n + i && from[..] == block
        invariant SameOutside(buf0, mfmbuf[..], base, base + 2 * n)
        invariant i == 0 ==> mfmbuf[..] == buf0
        invariant Written(mfmbuf[..], base, n, i, first, stale, block)
      {
        PutPair(from[i], odd, even, i, base, n, first, stale, block, buf0);
        odd := odd + 1;
        even := even + 1;
        i := i + 1;
      }
    }

    /** The end of mfm: the first clock bit of the even half, now that the bit before it is known. */
    method PutRight(odd: nat)
      requires 0 < odd < mfmbuf.Length
      modifies mfmbuf
      ensures var b := old(mfmbuf[..]);
              mfmbuf[..] == if b[odd][1] then b else b[odd := b[odd][0 := !b[odd - 1][31]]]
    {
      var w := mfmbuf[odd];
      if !w[1] {
        w := w[0 := !mfmbuf[odd - 1][31]];
        mfmbuf[odd] := w;
      }
    }

    /** The stream that began at `start` and has so far recorded `data`, in a buffer that was b1 before it. */
    static ghost predicate Streaming(b1: seq<Ulong>, b: seq<Ulong>, start: nat, end: nat, before: bool, data: Bits)
    {
      && 0 < start <= end <= |b|
      && Flat(b[start..end]) == Stream(before, data)
      && b[end - 1][31] == Last(before, data)
      && SameOutside(b1, b, start, end)
    }

    /** A field appended to the stream. */
    method EncodeField(from: array<Ulong>, ghost b1: seq<Ulong>, ghost start: nat, ghost before: bool, ghost sofar: Bits)
      requires from != mfmbuf && 0 < from.Length && next + 2 * from.Length <= mfmbuf.Length
      requires Streaming(b1, mfmbuf[..], start, next, before, sofar)
      modifies this`next, mfmbuf
      ensures next == old(next) + 2 * from.Length
      ensures Streaming(b1, mfmbuf[..], start, next, before, sofar + Recorded(from[..]))
    {
      ghost var mid, b0 := next, mfmbuf[..];
      Encode(from);
      FieldAppended(b1, b0, mfmbuf[..], start, mid, next, before, sofar, Recorded(from[..]));
    }

    static lemma FieldAppended(b1: seq<Ulong>, b0: seq<Ulong>, b: seq<Ulong>, start: nat, mid: nat, end: nat,
                               before: bool, sofar: Bits, rec: Bits)
      requires mid < end <= |b| && rec != []
      requires Streaming(b1, b0, start, mid, before, sofar)
      requires Flat(b[mid..end]) == Stream(Last(before, sofar), rec)
      requires SameOutside(b0, b, mid, end)
      ensures Streaming(b1, b, start, end, before, sofar + rec)
    {
      assert b[start..mid] == b0[start..mid];
      FieldJoined(b, start, mid, end, before, sofar, rec);
      LastBit(b, mid, end, Last(before, sofar), rec);
      assert Last(before, sofar + rec) == Last(Last(before, sofar), rec);
    }

    static lemma LastBit(b: seq<Ulong>, mid: nat, end: nat, before: bool, rec: Bits)
      requires mid < end <= |b| && rec != [] && Flat(b[mid..end]) == Stream(before, rec)
      ensures b[end - 1][31] == Last(before, rec)
    {
      LastFlatBit(b[mid..end], Stream(before, rec));
      LastOfStream(before, rec);
    }

    static lemma FieldJoined(b: seq<Ulong>, start: nat, mid: nat, end: nat, before: bool, sofar: Bits, rec: Bits)
      requires start <= mid < end <= |b|
      requires Flat(b[start..mid]) == Stream(before, sofar)
      requires Flat(b[mid..end]) == Stream(Last(before, sofar), rec)
      ensures Flat(b[start..end]) == Stream(before, sofar + rec)
    {
      SliceJoins(b, start, mid, end);
      FlatConcat(b[start..mid], b[mid..end]);
      StreamConcat(before, sofar, rec);
    }

    /** The fields of a sector, one after the other. */
    method PutFields(id: array<Ulong>, tag: array<Ulong>, hdrchk: array<Ulong>, datachk: array<Ulong>, data: array<Ulong>)
      requires mfmbuf !in {id, tag, hdrchk, datachk, data}
      requires id.Length == hdrchk.Length == datachk.Length == 1 && tag.Length == 4 && 0 < data.Length
      requires 0 < next && next + 14 + 2 * data.Length <= mfmbuf.Length && mfmbuf[next - 1][31]
      modifies this`next, mfmbuf
      ensures next == old(next) + 14 + 2 * data.Length
      ensures Streaming(old(mfmbuf[..]), mfmbuf[..], old(next), next, true,
                        Recorded(id[..]) + Recorded(tag[..]) + Recorded(hdrchk[..]) + Recorded(datachk[..]) + Recorded(data[..]))
    {
      ghost var start, b1 := next, mfmbuf[..];
      ghost var r1, r2, r3, r4 := Recorded(id[..]), Recorded(tag[..]), Recorded(hdrchk[..]), Recorded(datachk[..]);
      assert mfmbuf[start..start] == [] && Stream(true, []) == [];
      EncodeField(id, b1, start, true, []);
      assert [] + r1 == r1;
      EncodeField(tag, b1, start, true, r1);
      EncodeField(hdrchk, b1, start, true, r1 + r2);
      EncodeField(datachk, b1, start, true, r1 + r2 + r3);
      EncodeField(data, b1, start, true, r1 + r2 + r3 + r4);
    }

    /** putsec: the magic key, then the fields of one sector. */
    method PutSec(track: nat, sec: nat, data: array<Ulong>)
      requires sec < NSEC && data != mfmbuf && 0 < data.Length
      requires 0 < next && next + 16 + 2 * data.Length <= mfmbuf.Length
      modifies this`next, mfmbuf
      ensures next == old(next) + 16 + 2 * data.Length
      ensures Flat(mfmbuf[old(next)..next]) == SectorBits(old(mfmbuf[next - 1])[31], Fields(track, sec, data[..]))
      ensures SameOutside(old(mfmbuf[..]), mfmbuf[..], old(next), next)
    {
      var id, tag, hdrchk, datachk := Header(track, sec, data);
      ghost var base, before := next, mfmbuf[next - 1][31];
      PutMagic();
      ghost var b1 := mfmbuf[..];
      PutFields(id, tag, hdrchk, datachk, data);
      SectorJoined(b1, mfmbuf[..], base, next, before, Fields(track, sec, data[..]));
    }

    /** The header fields as putsec fills them in. */
    method Header(track: nat, sec: nat, data: array<Ulong>)
      returns (id: array<Ulong>, tag: array<Ulong>, hdrchk: array<Ulong>, datachk: array<Ulong>)
      requires sec < NSEC
      ensures fresh(id) && fresh(tag) && fresh(hdrchk) && fresh(datachk)
      ensures id[..] == [IdWord(track, sec)] && tag[..] == Tag()
      ensures hdrchk[..] == [FoldPairs(XorAll(id[..] + tag[..]))] && datachk[..] == [FoldPairs(XorAll(data[..]))]
    {
      id := new Ulong[1](_ => IdWord(track, sec));
      tag := new Ulong[4](_ => Zeros(32));
      var hdr := new Ulong[5](i => if i == 0 then IdWord(track, sec) else Zeros(32));
      assert hdr[..] == id[..] + tag[..];
      var check := Chksum(hdr);
      hdrchk := new Ulong[1](_ => check);
      var check2 := Chksum(data);
      datachk := new Ulong[1](_ => check2);
    }

    static lemma SectorJoined(b1: seq<Ulong>, b: seq<Ulong>, base: nat, end: nat, before: bool, fields: Bits)
      requires base + 2 <= end <= |b| == |b1|
      requires b1[base] == Stream(before, Zeros(16)) && b1[base + 1] == SYNC + SYNC
      requires SameOutside(b1, b, base + 2, end)
      requires Flat(b[base + 2..end]) == Stream(true, fields)
      ensures Flat(b[base..end]) == SectorBits(before, fields)
    {
      assert b[base..end] == [b[base]] + ([b[base + 1]] + b[base + 2..end]);
      FlatConcat([b[base]], [b[base + 1]] + b[base + 2..end]);
      FlatConcat([b[base + 1]], b[base + 2..end]);
      FlatOne(b[base]);
      FlatOne(b[base + 1]);
    }

    static lemma FlatOne(w: Ulong)
      ensures Flat([w]) == w
    {
      assert [w][..0] == [];
      assert Flat([w]) == Flat([]) + w;
    }

    /** One turn of the encoding loop: a word of each half. */
    method PutPair(w: Ulong, odd: nat, even: nat, ghost i: nat, ghost base: nat, ghost n: nat,
                   ghost first: bool, ghost stale: bool, ghost block: seq<Ulong>, ghost buf0: seq<Ulong>)
      requires odd == base + i && even == base + n + i
      requires i < n == |block| && block[i] == w && 0 < base && base + 2 * n <= mfmbuf.Length == |buf0|
      requires SameOutside(buf0, mfmbuf[..], base, base + 2 * n)
      requires Written(mfmbuf[..], base, n, i, first, stale, block)
      requires i == 0 ==> mfmbuf[..] == buf0
      requires first == buf0[base - 1][31]
      requires stale == if n == 1 then OddHalf(w)[15] else buf0[base + n - 1][31]
      modifies mfmbuf
      ensures SameOutside(buf0, mfmbuf[..], base, base + 2 * n)
      ensures Written(mfmbuf[..], base, n, i + 1, first, stale, block)
    {
      ghost var b := mfmbuf[..];
      if i > 0 {
        LastWritten(b, base, n, i, first, stale, block);
      }
      PutOdd(odd, w);
      if i == 0 && n == 1 {
        LastOfWord(first, OddHalf(w));
      }
      PutEven(even, w);
      WrittenMore(b, mfmbuf[..], base, n, i, first, stale, block);
    }

    static lemma WrittenMore(b: seq<Ulong>, b': seq<Ulong>, base: nat, n: nat, i: nat, first: bool, stale: bool,
                             block: seq<Ulong>)
      requires base + 2 * n <= |b| && i < n == |block|
      requires Written(b, base, n, i, first, stale, block)
      requires b' == b[base + i := Stream(OddBefore(first, block, i), OddHalf(block[i]))]
                      [base + n + i := Stream(EvenBefore(stale, block, i), EvenHalf(block[i]))]
      ensures Written(b', base, n, i + 1, first, stale, block)
    {
    }

    static lemma LastWritten(buf: seq<Ulong>, base: nat, n: nat, i: nat, first: bool, stale: bool, block: seq<Ulong>)
      requires base + 2 * n <= |buf| && 0 < i <= n == |block|
      requires Written(buf, base, n, i, first, stale, block)
      ensures buf[base + i - 1][31] == OddHalf(block[i - 1])[15]
      ensures buf[base + n + i - 1][31] == EvenHalf(block[i - 1])[15]
    {
      var k := i - 1;
      assert At(k);
      assert buf[base + k] == Stream(OddBefore(first, block, k), OddHalf(block[k]));
      LastOfWord(OddBefore(first, block, k), OddHalf(block[k]));
      LastOfWord(EvenBefore(stale, block, k), EvenHalf(block[k]));
    }

    static lemma StreamGrows(buf: seq<Ulong>, at: nat, k: nat, before: bool, data: Bits, half: Bits)
      requires at + k < |buf| && Flat(buf[at..at + k]) == Stream(before, data)
      requires buf[at + k] == Stream(Last(before, data), half)
      ensures Flat(buf[at..at + k + 1]) == Stream(before, data + half)
    {
      SliceSnoc(buf, at, k);
      StreamConcat(before, data, half);
    }

    /** The halves as two streams. */
    static lemma {:induction false} OddStream(buf: seq<Ulong>, base: nat, n: nat, i: nat, first: bool, stale: bool, block: seq<Ulong>)
      requires base + 2 * n <= |buf| && i <= n == |block|
      requires Written(buf, base, n, i, first, stale, block)
      ensures Flat(buf[base..base + i]) == Stream(first, OddBits(block[..i]))
      ensures OddBefore(first, block, i) == Last(first, OddBits(block[..i]))
    {
      if i > 0 {
        var k := i - 1;
        OddStream(buf, base, n, k, first, stale, block);
        assert At(k);
        StreamGrows(buf, base, k, first, OddBits(block[..k]), OddHalf(block[k]));
        assert block[..i][..k] == block[..k];
      }
    }

    static lemma {:induction false} EvenStream(buf: seq<Ulong>, base: nat, n: nat, i: nat, first: bool, stale: bool, block: seq<Ulong>)
      requires base + 2 * n <= |buf| && i <= n == |block|
      requires Written(buf, base, n, i, first, stale, block)
      ensures Flat(buf[base + n..base + n + i]) == Stream(stale, EvenBits(block[..i]))
      ensures EvenBefore(stale, block, i) == Last(stale, EvenBits(block[..i]))
    {
      if i > 0 {
        var k := i - 1;
        EvenStream(buf, base, n, k, first, stale, block);
        assert At(k);
        StreamGrows(buf, base + n, k, stale, EvenBits(block[..k]), EvenHalf(block[k]));
        assert block[..i][..k] == block[..k];
      }
    }

    static lemma CorrectedIsWritten(b: seq<Ulong>, b': seq<Ulong>, base: nat, n: nat,
                                    first: bool, stale: bool, after: bool, block: seq<Ulong>)
      requires base + 2 * n <= |b| == |b'| && 0 < n == |block|
      requires Written(b, base, n, n, first, stale, block)
      requires b' == if b[base + n][1] then b else b[base + n := b[base + n][0 := !after]]
      ensures Written(b', base, n, n, first, after, block)
    {
      assert At(0);
      assert b[base + n + 0] == Stream(stale, EvenHalf(block[0]));
      StreamAt(stale, EvenHalf(block[0]), 0);
      FirstClock(stale, after, EvenHalf(block[0]));
      assert b'[base + n] == Stream(after, EvenHalf(block[0]));
    }

    /** Putting the first clock bit of the even half right joins the two halves into one stream. */
    static lemma Joined(b: seq<Ulong>, b': seq<Ulong>, base: nat, n: nat, first: bool, stale: bool, block: seq<Ulong>)
      requires base + 2 * n <= |b| == |b'| && 0 < n == |block|
      requires Written(b, base, n, n, first, stale, block)
      requires b' == if b[base + n][1] then b else b[base + n := b[base + n][0 := !b[base + n - 1][31]]]
      ensures Flat(b'[base..base + 2 * n]) == Stream(first, Recorded(block))
    {
      LastWritten(b, base, n, n, first, stale, block);
      var after := OddHalf(block[n - 1])[15];
      CorrectedIsWritten(b, b', base, n, first, stale, after, block);
      OddStream(b', base, n, n, first, after, block);
      EvenStream(b', base, n, n, first, after, block);
      assert block[..n] == block;
      assert after == Last(first, OddBits(block));
      HalvesJoin(b', base, n, first, OddBits(block), EvenBits(block));
    }

    static lemma HalvesJoin(b: seq<Ulong>, base: nat, n: nat, first: bool, odd: Bits, even: Bits)
      requires base + 2 * n <= |b|
      requires Flat(b[base..base + n]) == Stream(first, odd)
      requires Flat(b[base + n..base + 2 * n]) == Stream(Last(first, odd), even)
      ensures Flat(b[base..base + 2 * n]) == Stream(first, odd + even)
    {
      SliceJoins(b, base, base + n, base + 2 * n);
      FlatConcat(b[base..base + n], b[base + n..base + 2 * n]);
      StreamConcat(first, odd, even);
    }
  }

  // ----- the parts of a track

  /** 0xAAAAAAAA: sixteen encoded zeros that follow a zero. */
  function Slop(): (w: Ulong)
  {
    seq(32, i requires 0 <= i < 32 => i % 2 == 0)
  }

  lemma {:induction false} SlopIsStream(words: seq<Ulong>)
    requires forall k :: 0 <= k < |words| ==> words[k] == Slop()
    ensures Flat(words) == Stream(false, Zeros(16 * |words|))
  {
    if words != [] {
      var n := |words| - 1;
      SlopIsStream(words[..n]);
      StreamIs(false, Zeros(16), Slop());
      StreamConcat(false, Zeros(16 * n), Zeros(16));
      assert Zeros(16 * n) + Zeros(16) == Zeros(16 * |words|);
    }
  }

  /** 0xAAAAAAAA or, after a 1, 0x2AAAAAAA: the first half of the magic key. */
  function Lead(before: bool): (w: Ulong)
  {
    Slop()[0 := !before]
  }

  lemma LeadIsStream(before: bool)
    ensures Lead(before) == Stream(before, Zeros(16))
  {
    StreamIs(before, Zeros(16), Lead(before));
  }

  /** What putsec leaves on the track after data bit `before`: encoded zeros, two sync words, and the data
      bits of the fields in one stream that takes up after the sync words' last bit. */
  function SectorBits(before: bool, fields: Bits): (s: Bits)
  {
    Stream(before, Zeros(16)) + (SYNC + SYNC) + Stream(true, fields)
  }

  /** The exclusive-or of a block's words. */
  function XorAll(block: seq<Ulong>): (w: Ulong)
  {
    if block == [] then Zeros(32) else Xor(XorAll(block[..|block| - 1]), block[|block| - 1])
  }

  /** res>>1 & 0x55555555 ^ res & 0x55555555 */
  function FoldPairs(w: Ulong): (c: Ulong)
  {
    Xor(And(Shr(w, 1), DMASK()), And(w, DMASK()))
  }

  method Chksum(block: array<Ulong>) returns (res: Ulong)
    ensures res == FoldPairs(XorAll(block[..]))
  {
    res := Zeros(32);
    for i := 0 to block.Length
      invariant res == XorAll(block[..i])
    {
      assert block[..i + 1][..i] == block[..i];
      res := Xor(res, block[i]);
    }
    assert block[..block.Length] == block[..];
    res := Xor(And(Shr(res, 1), DMASK()), And(res, DMASK()));
  }

  /** An error confined to one word changes the checksum unless it flips both bits of every pair it
      touches (and so any odd number of wrong bits is noticed). */
  lemma {:induction false} ChecksumDetects(block: seq<Ulong>, i: nat, w: Ulong)
    requires i < |block|
    ensures FoldPairs(XorAll(block[i := w])) == FoldPairs(XorAll(block))
       <==> forall j: nat :: j < 16 ==> (w[2 * j] != block[i][2 * j]) == (w[2 * j + 1] != block[i][2 * j + 1])
  {
    XorAllUpdate(block, i, w);
    var x, y := XorAll(block), XorAll(block[i := w]);
    FoldDiffers(x, y);
    forall j: nat | j < 16
      ensures (x[2 * j] != y[2 * j]) == (w[2 * j] != block[i][2 * j])
      ensures (x[2 * j + 1] != y[2 * j + 1]) == (w[2 * j + 1] != block[i][2 * j + 1])
    {
    }
  }

  lemma {:induction false} XorAllUpdate(block: seq<Ulong>, i: nat, w: Ulong)
    requires i < |block|
    ensures XorAll(block[i := w]) == Xor(XorAll(block), Xor(block[i], w))
  {
    var n := |block| - 1;
    if i < n {
      XorAllUpdate(block[..n], i, w);
      assert block[i := w][..n] == block[..n][i := w];
    } else {
      assert block[i := w][..n] == block[..n];
    }
    var x, y := XorAll(block[i := w]), Xor(XorAll(block), Xor(block[i], w));
    forall k: nat | k < 32
      ensures x[k] == y[k]
    {
    }
  }

  lemma FoldDiffers(x: Ulong, y: Ulong)
    ensures FoldPairs(x) == FoldPairs(y)
       <==> forall j: nat :: j < 16 ==> (x[2 * j] != y[2 * j]) == (x[2 * j + 1] != y[2 * j + 1])
  {
    var f, g := FoldPairs(x), FoldPairs(y);
    forall j: nat | j < 16
      ensures f[2 * j + 1] == (x[2 * j] != x[2 * j + 1]) && g[2 * j + 1] == (y[2 * j] != y[2 * j + 1])
      ensures !f[2 * j] && !g[2 * j]
    {
    }
    if forall j: nat :: j < 16 ==> (x[2 * j] != y[2 * j]) == (x[2 * j + 1] != y[2 * j + 1]) {
      forall i: nat | i < 32
        ensures f[i] == g[i]
      {
        var j := i / 2;
        assert i == 2 * j || i == 2 * j + 1;
        assert (x[2 * j] != y[2 * j]) == (x[2 * j + 1] != y[2 * j + 1]);
      }
    } else {
      var j: nat :| j < 16 && (x[2 * j] != y[2 * j]) != (x[2 * j + 1] != y[2 * j + 1]);
      assert f[2 * j + 1] != g[2 * j + 1];
    }
  }

  const NSEC: nat := 11      // sectors per track
  const TRACKS: nat := 160
  const SECOK: nat := 0xFF   // sector-ok magic value

  function Bytes4(a: nat, b: nat, c: nat, d: nat): (w: Ulong)
  {
    Word(a, 8) + Word(b, 8) + Word(c, 8) + Word(d, 8)
  }

  /** The sector header word: magic, track, sector, sectors until the end of the track. */
  function IdWord(track: nat, sec: nat): (w: Ulong)
    requires sec < NSEC
  {
    Bytes4(SECOK, track, sec, NSEC - sec)
  }

  /** The label, four words of zeros. */
  function Tag(): (t: seq<Ulong>)
    ensures |t| == 4
  {
    seq(4, _ => Zeros(32))
  }

  /** The five fields of a sector as blocks: id, label, header checksum, data checksum, data. */
  function Fields(track: nat, sec: nat, data: seq<Ulong>): (d: Bits)
    requires sec < NSEC
  {
    var id, tag := [IdWord(track, sec)], Tag();
    Recorded(id) + Recorded(tag) + Recorded([FoldPairs(XorAll(id + tag))])
    + Recorded([FoldPairs(XorAll(data))]) + Recorded(data)
  }

  lemma LastFlatBit(words: seq<Ulong>, s: Bits)
    requires words != [] && Flat(words) == s
    ensures s != [] && words[|words| - 1][31] == s[|s| - 1]
  {
  }

  lemma LastOfStream(before: bool, data: Bits)
    requires data != []
    ensures Stream(before, data)[|Stream(before, data)| - 1] == Last(before, data)
  {
    StreamAt(before, data, |data| - 1);
  }

  // ----- decoding

  type Ushort = w: Bits | |w| == 16 witness Zeros(16)

  /** The raw bits of a track as read: an array of ushorts. */
  function Raw(words: seq<Ushort>): (bits: Bits)
    ensures |bits| == 16 * |words|
  {
    if words == [] then [] else Raw(words[..|words| - 1]) + words[|words| - 1]
  }

  lemma {:induction false} RawAt(words: seq<Ushort>, k: nat)
    requires k < |words|
    ensures Raw(words)[16 * k..16 * k + 16] == words[k]
  {
    var n := |words| - 1;
    if k < n {
      RawAt(words[..n], k);
      assert Raw(words)[16 * k..16 * k + 16] == Raw(words[..n])[16 * k..16 * k + 16];
    }
  }

  function Join(high: Bits, low: Bits): (w: Bits)
  {
    high + low
  }

  /** The ulong that starts at ushort k. */
  function UlongAt(words: seq<Ushort>, k: nat): (w: Ulong)
    requires k + 1 < |words|
  {
    Join(words[k], words[k + 1])
  }

  /** w << shift | w' >> BPL-shift, where a shift by BPL gives 0. */
  function Window(w: Ulong, w': Ulong, shift: nat): (v: Ulong)
    requires shift < 16
  {
    Or(Shl(w, shift), Shr(w', BPL - shift))
  }

  /** The window is the 32 bits found `shift` bits into the raw track. */
  lemma WindowOfSlice(r: Bits, at: nat, w: Bits, w': Bits, shift: nat)
    requires shift < 16 && |w| == |w'| == 32 && at + 64 <= |r| && w + w' == r[at..at + 64]
    ensures Window(w, w', shift) == r[at + shift..at + shift + 32]
  {
    WindowOfPair(w, w', shift);
    PartOfSlice(Window(w, w', shift), w + w', r, at, shift, 32);
  }

  lemma WindowOfPair(w: Bits, w': Bits, shift: nat)
    requires shift < 16 && |w| == |w'| == 32
    ensures Window(w, w', shift) == (w + w')[shift..shift + 32]
  {
  }

  lemma FourWords(words: seq<Ushort>, k: nat)
    requires k + 3 < |words|
    ensures UlongAt(words, k) + UlongAt(words, k + 2) == Raw(words)[16 * k..16 * k + 64]
  {
    RawAt(words, k);
    RawAt(words, k + 1);
    RawAt(words, k + 2);
    RawAt(words, k + 3);
    FourSlices(Raw(words), 16 * k, words[k], words[k + 1], words[k + 2], words[k + 3]);
  }

  lemma FourSlices(r: Bits, at: nat, a: Bits, b: Bits, c: Bits, d: Bits)
    requires at + 64 <= |r|
    requires a == r[at..at + 16] && b == r[at + 16..at + 32] && c == r[at + 32..at + 48] && d == r[at + 48..at + 64]
    ensures Join(a, b) + Join(c, d) == r[at..at + 64]
  {
  }

  /** The word with the given odd and even halves. */
  function Interleave(odd: Bits, even: Bits): (w: Ulong)
    requires |odd| == |even| == 16
  {
    seq(32, i requires 0 <= i < 32 => if i % 2 == 0 then odd[i / 2] else even[i / 2])
  }

  /** The first k words of the block of n words recorded as data bits d. */
  function BlockPart(d: Bits, n: nat, k: nat): (block: seq<Ulong>)
    requires |d| == 32 * n && k <= n
    ensures |block| == k
  {
    if k == 0 then []
    else
      var i := k - 1;
      BlockPart(d, n, i) + [Interleave(d[16 * i..16 * i + 16], d[16 * n + 16 * i..16 * n + 16 * i + 16])]
  }

  /** The block recorded as data bits d. */
  function BlockOf(d: Bits, n: nat): (block: seq<Ulong>)
    requires |d| == 32 * n
    ensures |block| == n
  {
    BlockPart(d, n, n)
  }

  lemma {:induction false} BlockPartAt(d: Bits, n: nat, k: nat, i: nat)
    requires |d| == 32 * n && i < k <= n
    ensures BlockPart(d, n, k)[i] == Interleave(d[16 * i..16 * i + 16], d[16 * n + 16 * i..16 * n + 16 * i + 16])
    decreases k
  {
    if i < k - 1 {
      BlockPartAt(d, n, k - 1, i);
    }
  }

  lemma EarlierSlice(a: Bits, b: Bits, k: nat)
    requires k + 16 <= |a|
    ensures (a + b)[k..k + 16] == a[k..k + 16]
  {
  }

  lemma LastSlice(a: Bits, b: Bits, k: nat)
    requires k == |a| && |b| == 16
    ensures (a + b)[k..k + 16] == b
  {
  }

  lemma {:induction false} HalvesAt(block: seq<Ulong>, i: nat)
    requires i < |block|
    ensures OddBits(block)[16 * i..16 * i + 16] == OddHalf(block[i])
    ensures EvenBits(block)[16 * i..16 * i + 16] == EvenHalf(block[i])
  {
    var n := |block| - 1;
    var odd, even := OddBits(block[..n]), EvenBits(block[..n]);
    if i < n {
      HalvesAt(block[..n], i);
      EarlierSlice(odd, OddHalf(block[n]), 16 * i);
      EarlierSlice(even, EvenHalf(block[n]), 16 * i);
    } else {
      LastSlice(odd, OddHalf(block[n]), 16 * n);
      LastSlice(even, EvenHalf(block[n]), 16 * n);
    }
  }

  /** Recording a block loses nothing. */
  lemma {:induction false} BlockOfRecorded(block: seq<Ulong>)
    ensures BlockOf(Recorded(block), |block|) == block
  {
    forall i: nat | i < |block|
      ensures BlockOf(Recorded(block), |block|)[i] == block[i]
    {
      HalvesAt(block, i);
      OneWord(OddBits(block), EvenBits(block), |block|, i, block[i]);
    }
  }

  lemma {:induction false} OneWord(odd: Bits, even: Bits, n: nat, i: nat, w: Ulong)
    requires |odd| == |even| == 16 * n && i < n
    requires odd[16 * i..16 * i + 16] == OddHalf(w) && even[16 * i..16 * i + 16] == EvenHalf(w)
    ensures BlockOf(odd + even, n)[i] == w
  {
    SliceOfSum(odd, even, 16 * i);
    BlockAt(odd, even, n, i, OddHalf(w), EvenHalf(w));
    InterleaveHalves(w);
  }

  lemma BlockAt(odd: Bits, even: Bits, n: nat, i: nat, x: Bits, y: Bits)
    requires |odd| == |even| == 16 * n && i < n
    requires x == (odd + even)[16 * i..16 * i + 16] && y == (odd + even)[16 * n + 16 * i..16 * n + 16 * i + 16]
    ensures BlockOf(odd + even, n)[i] == Interleave(x, y)
  {
    BlockPartAt(odd + even, n, n, i);
  }

  lemma SliceOfSum(a: Bits, b: Bits, k: nat)
    requires k + 16 <= |a| == |b|
    ensures (a + b)[k..k + 16] == a[k..k + 16] && (a + b)[|a| + k..|a| + k + 16] == b[k..k + 16]
  {
  }

  lemma InterleaveHalves(w: Ulong)
    ensures Interleave(OddHalf(w), EvenHalf(w)) == w
  {
  }

  /** demfm of one word: the data bits of an odd and an even window put together. */
  lemma StripIsInterleave(odd: Ulong, even: Ulong)
    ensures Or(Shl(And(odd, DMASK()), 1), And(even, DMASK())) == Interleave(Data(odd), Data(even))
  {
    var w, v := Or(Shl(And(odd, DMASK()), 1), And(even, DMASK())), Interleave(Data(odd), Data(even));
    forall i: nat | i < 32
      ensures w[i] == v[i]
    {
      assert i % 2 == 0 ==> w[i] == odd[i + 1] && 2 * (i / 2) + 1 == i + 1;
      assert i % 2 == 1 ==> w[i] == even[i] && 2 * (i / 2) + 1 == i;
    }
  }

  lemma DataOfSlice(s: Bits, a: nat)
    requires 2 * a + 32 <= |s|
    ensures Data(s[2 * a..2 * a + 32]) == Data(s)[a..a + 16]
  {
    var x, y := Data(s[2 * a..2 * a + 32]), Data(s)[a..a + 16];
    forall j: nat | j < 16
      ensures x[j] == y[j]
    {
      assert s[2 * a..2 * a + 32][2 * j + 1] == s[2 * (a + j) + 1];
    }
  }

  method ReadWindow(raw: array<Ushort>, at: nat, shift: nat) returns (v: Ulong)
    requires shift < 16 && at + 4 <= raw.Length
    ensures v == Raw(raw[..])[16 * at + shift..16 * at + shift + 32]
  {
    var w, w' := UlongAt(raw[..], at), UlongAt(raw[..], at + 2);
    FourWords(raw[..], at);
    WindowOfSlice(Raw(raw[..]), 16 * at, w, w', shift);
    v := Window(w, w', shift);
  }

  /** demfm: the block whose encoding starts `shift` bits into the raw track at ushort pos, for every
      alignment. */
  method Decode(raw: array<Ushort>, pos: nat, shift: nat, to: array<Ulong>)
    requires shift < 16 && 0 < to.Length && pos + 4 * to.Length + 2 <= raw.Length
    modifies to
    ensures to[..] == BlockOf(Data(Raw(raw[..])[16 * pos + shift..16 * pos + shift + 64 * to.Length]), to.Length)
  {
    var n := to.Length;
    ghost var r := Raw(raw[..]);
    ghost var e := r[16 * pos + shift..16 * pos + shift + 64 * n];
    ghost var block := BlockOf(Data(e), n);
    var odd, even := pos, pos + 2 * n;
    var i := 0;
    while i < n
      invariant i <= n && odd == pos + 2 * i && even == pos + 2 * n + 2 * i
      invariant forall k: nat :: k < i ==> to[k] == block[k]
    {
      var x := ReadWindow(raw, odd, shift);
      var y := ReadWindow(raw, even, shift);
      WindowData(r, e, 16 * pos + shift, n, i, x, y);
      StripIsInterleave(x, y);
      to[i] := Or(Shl(And(x, DMASK()), 1), And(y, DMASK()));
      odd := odd + 2;
      even := even + 2;
      i := i + 1;
    }
  }

  lemma WindowData(r: Bits, e: Bits, at: nat, n: nat, i: nat, x: Ulong, y: Ulong)
    requires i < n && at + 64 * n <= |r| && e == r[at..at + 64 * n]
    requires x == r[at + 32 * i..at + 32 * i + 32] && y == r[at + 32 * n + 32 * i..at + 32 * n + 32 * i + 32]
    ensures Interleave(Data(x), Data(y)) == BlockOf(Data(e), n)[i]
  {
    SliceOfSlice(r, at, 64 * n, 32 * i, 32);
    SliceOfSlice(r, at, 64 * n, 32 * n + 32 * i, 32);
    DataOfSlice(e, 16 * i);
    DataOfSlice(e, 16 * n + 16 * i);
    BlockPartAt(Data(e), n, n, i);
  }

  /** Decoding undoes encoding: whatever bit came before the block and wherever its stream lies in the raw
      track, the stripped data bits give the block back. */
  lemma DecodeUndoesEncode(raw: Bits, at: nat, before: bool, block: seq<Ulong>)
    requires at + 64 * |block| <= |raw|
    requires raw[at..at + 64 * |block|] == Stream(before, Recorded(block))
    ensures BlockOf(Data(raw[at..at + 64 * |block|]), |block|) == block
  {
    DataOfStream(before, Recorded(block));
    BlockOfRecorded(block);
  }

  // ----- reading a sector

  /** The block of n words whose encoding starts at bit `at` of the raw track. */
  function FieldAt(r: Bits, at: nat, n: nat): (block: seq<Ulong>)
    requires at + 64 * n <= |r|
    ensures |block| == n
  {
    BlockOf(Data(r[at..at + 64 * n]), n)
  }

  function ByteOf(w: Ulong, i: nat): nat
    requires i < 4
  {
    Value(w[8 * i..8 * i + 8])
  }

  /** The magic key, whose first bit depends on what came before. */
  predicate KeyAt(r: Bits, at: nat)
    requires at + 64 <= |r|
  {
    r[at..at + 32][0 := false] == Slop()[0 := false] && r[at + 32..at + 64] == SYNC + SYNC
  }

  /** gethdr's tests of the id word. */
  predicate IdOk(w: Ulong, track: nat)
  {
    && ByteOf(w, 0) == SECOK && ByteOf(w, 1) < TRACKS && ByteOf(w, 2) < NSEC && ByteOf(w, 3) - 1 < NSEC
    && ByteOf(w, 1) == track
  }

  /** The header that follows the key is for this track and has the right checksum. */
  predicate HeaderAt(r: Bits, at: nat, track: nat)
    requires at + 384 <= |r|
  {
    IdOk(FieldAt(r, at, 1)[0], track) && HeaderSumAt(r, at)
  }

  /** gethdr's tests on the bits at `at`, and the check of the n words of data that follow. */
  predicate Acceptable(r: Bits, at: nat, track: nat, n: nat)
    requires at + 512 + 64 * n <= |r|
  {
    && KeyAt(r, at)
    && HeaderAt(r, at + 64, track)
    && DataAt(r, at + 448, n)
  }

  /** The data checksum found at `at` is that of the n words after it. */
  predicate DataAt(r: Bits, at: nat, n: nat)
    requires at + 64 + 64 * n <= |r|
  {
    FieldAt(r, at, 1)[0] == FoldPairs(XorAll(FieldAt(r, at + 64, n)))
  }

  method CheckKey(raw: array<Ushort>, pos: nat, shift: nat) returns (ok: bool)
    requires shift < 16 && pos + 6 <= raw.Length
    ensures ok <==> KeyAt(Raw(raw[..]), 16 * pos + shift)
  {
    var m := ReadWindow(raw, pos, shift);
    if m[0 := false] != Slop()[0 := false] {
      return false;
    }
    m := ReadWindow(raw, pos + 2, shift);
    return m == SYNC + SYNC;
  }

  /** The header's checksum is right. */
  predicate HeaderSumAt(r: Bits, at: nat)
    requires at + 384 <= |r|
  {
    FieldAt(r, at + 320, 1)[0] == FoldPairs(XorAll(FieldAt(r, at, 1) + FieldAt(r, at + 64, 4)))
  }

  method ReadHeader(raw: array<Ushort>, pos: nat, shift: nat) returns (id: Ulong, sumOk: bool)
    requires shift < 16 && pos + 26 <= raw.Length
    ensures id == FieldAt(Raw(raw[..]), 16 * pos + shift, 1)[0]
    ensures sumOk <==> HeaderSumAt(Raw(raw[..]), 16 * pos + shift)
  {
    var m;
    id, m := ReadIdAndTag(raw, pos, shift);
    assert 16 * (pos + 20) + shift == 16 * pos + shift + 320;
    var hdrchk := new Ulong[1];
    ReadField(raw, pos + 20, shift, hdrchk);
    sumOk := hdrchk[0] == m;
  }

  /** The id, and the sum of id and tag. */
  method ReadIdAndTag(raw: array<Ushort>, pos: nat, shift: nat) returns (id: Ulong, m: Ulong)
    requires shift < 16 && pos + 26 <= raw.Length
    ensures var r, at := Raw(raw[..]), 16 * pos + shift;
            id == FieldAt(r, at, 1)[0] && m == FoldPairs(XorAll(FieldAt(r, at, 1) + FieldAt(r, at + 64, 4)))
  {
    assert 16 * (pos + 4) + shift == 16 * pos + shift + 64;
    var ids, tag := new Ulong[1], new Ulong[4];
    ReadField(raw, pos, shift, ids);
    ReadField(raw, pos + 4, shift, tag);
    id := ids[0];
    m := HeaderSum(ids, tag);
  }

  method CheckHeader(raw: array<Ushort>, pos: nat, shift: nat, track: nat) returns (ok: bool, id: Ulong)
    requires shift < 16 && pos + 26 <= raw.Length
    ensures ok <==> HeaderAt(Raw(raw[..]), 16 * pos + shift, track)
    ensures id == FieldAt(Raw(raw[..]), 16 * pos + shift, 1)[0]
  {
    var sumOk;
    id, sumOk := ReadHeader(raw, pos, shift);
    ok := IdOk(id, track) && sumOk;
  }

  method HeaderSum(id: array<Ulong>, tag: array<Ulong>) returns (m: Ulong)
    requires id.Length == 1 && tag.Length == 4
    ensures m == FoldPairs(XorAll(id[..] + tag[..]))
  {
    var hdr := new Ulong[5](i requires 0 <= i < 5 reads id, tag => if i == 0 then id[0] else tag[i - 1]);
    assert hdr[..] == id[..] + tag[..];
    m := Chksum(hdr);
  }

  /** gethdr, for a sector of n words of data. */
  method GetHdr(raw: array<Ushort>, pos: nat, shift: nat, lim: nat, track: nat, n: nat) returns (ok: bool, id: Ulong)
    requires shift < 16 && pos <= lim && lim + 2 <= raw.Length
    ensures ok <==> pos + 32 + 4 * n + 1 <= lim
                    && KeyAt(Raw(raw[..]), 16 * pos + shift) && HeaderAt(Raw(raw[..]), 16 * pos + shift + 64, track)
    ensures ok ==> id == FieldAt(Raw(raw[..]), 16 * pos + shift + 64, 1)[0]
  {
    ok, id := false, Zeros(32);
    if pos + 32 + 4 * n + 1 <= lim {
      ok := CheckKey(raw, pos, shift);
      if ok {
        ok, id := CheckHeader(raw, pos + 4, shift, track);
      }
    }
  }

  method CheckData(raw: array<Ushort>, pos: nat, shift: nat, to: array<Ulong>) returns (ok: bool)
    requires shift < 16 && 0 < to.Length && pos + 6 + 4 * to.Length <= raw.Length
    modifies to
    ensures ok <==> DataAt(Raw(raw[..]), 16 * pos + shift, to.Length)
    ensures to[..] == FieldAt(Raw(raw[..]), 16 * pos + shift + 64, to.Length)
  {
    var datachk := new Ulong[1];
    ReadField(raw, pos, shift, datachk);
    ReadField(raw, pos + 4, shift, to);
    var m := Chksum(to);
    ok := m == datachk[0];
  }

  method ReadField(raw: array<Ushort>, pos: nat, shift: nat, to: array<Ulong>)
    requires shift < 16 && 0 < to.Length && pos + 4 * to.Length + 2 <= raw.Length
    modifies to
    ensures to[..] == FieldAt(Raw(raw[..]), 16 * pos + shift, to.Length)
  {
    Decode(raw, pos, shift, to);
  }

  /** Within a longer stream every field is still a stream. */
  lemma {:induction false} FieldInStream(r: Bits, at: nat, before: bool, a: Bits, block: seq<Ulong>, c: Bits)
    requires at + 2 * |a + Recorded(block) + c| <= |r|
    requires r[at..at + 2 * |a + Recorded(block) + c|] == Stream(before, a + Recorded(block) + c)
    ensures FieldAt(r, at + 2 * |a|, |block|) == block
  {
    var x, y, z := Stream(before, a), Stream(Last(before, a), Recorded(block)), Stream(Last(before, a + Recorded(block)), c);
    ThreeStreams(before, a, Recorded(block), c);
    StreamSlice(r, at, x, y, z);
    DecodeUndoesEncode(r, at + |x|, Last(before, a), block);
  }

  lemma ThreeStreams(before: bool, a: Bits, f: Bits, c: Bits)
    ensures Stream(before, a + f + c) == Stream(before, a) + Stream(Last(before, a), f) + Stream(Last(before, a + f), c)
  {
    StreamConcat(before, a + f, c);
    StreamConcat(before, a, f);
  }

  lemma StreamSlice(r: Bits, at: nat, x: Bits, y: Bits, z: Bits)
    requires at + |x + y + z| <= |r| && r[at..at + |x + y + z|] == x + y + z
    ensures r[at + |x|..at + |x| + |y|] == y
  {
    MiddlePart(x, y, z);
    SliceOfSlice(r, at, |x + y + z|, |x|, |y|);
  }

  lemma MiddlePart(x: Bits, y: Bits, z: Bits)
    ensures (x + y + z)[|x|..|x| + |y|] == y
  {
  }

  /** Sector round trip: what putsec leaves on the track, at any bit alignment and after any data bit, is
      accepted for its track and gives its data back. */
  lemma SectorRoundTrip(r: Bits, at: nat, before: bool, track: nat, sec: nat, data: seq<Ulong>)
    requires sec < NSEC && track < TRACKS
    requires at + 512 + 64 * |data| <= |r|
    requires r[at..at + 512 + 64 * |data|] == SectorBits(before, Fields(track, sec, data))
    ensures Acceptable(r, at, track, |data|)
    ensures FieldAt(r, at + 512, |data|) == data
    ensures FieldAt(r, at + 64, 1) == [IdWord(track, sec)]
    ensures ByteOf(IdWord(track, sec), 2) == sec && ByteOf(IdWord(track, sec), 3) == NSEC - sec
  {
    var id, tag := [IdWord(track, sec)], Tag();
    SectorParts(r, at, before, Fields(track, sec, data));
    KeyFound(r, at, before);
    FiveFields(r, at + 64, true, id, tag, [FoldPairs(XorAll(id + tag))], [FoldPairs(XorAll(data))], data);
    IdBytes(track, sec);
  }

  lemma FiveFields(r: Bits, at: nat, before: bool, b1: seq<Ulong>, b2: seq<Ulong>, b3: seq<Ulong>, b4: seq<Ulong>, b5: seq<Ulong>)
    requires |b1| == |b3| == |b4| == 1 && |b2| == 4 && at + 448 + 64 * |b5| <= |r|
    requires r[at..at + 448 + 64 * |b5|] == Stream(before, Recorded(b1) + Recorded(b2) + Recorded(b3) + Recorded(b4) + Recorded(b5))
    ensures FieldAt(r, at, 1) == b1 && FieldAt(r, at + 64, 4) == b2 && FieldAt(r, at + 320, 1) == b3
    ensures FieldAt(r, at + 384, 1) == b4 && FieldAt(r, at + 448, |b5|) == b5
  {
    var r1, r2, r3, r4, r5 := Recorded(b1), Recorded(b2), Recorded(b3), Recorded(b4), Recorded(b5);
    var f := r1 + r2 + r3 + r4 + r5;
    OneField(r, at, before, f, [], b1, r2 + r3 + r4 + r5);
    OneField(r, at, before, f, r1, b2, r3 + r4 + r5);
    OneField(r, at, before, f, r1 + r2, b3, r4 + r5);
    OneField(r, at, before, f, r1 + r2 + r3, b4, r5);
    OneField(r, at, before, f, r1 + r2 + r3 + r4, b5, []);
  }

  lemma OneField(r: Bits, at: nat, before: bool, f: Bits, a: Bits, block: seq<Ulong>, c: Bits)
    requires f == a + Recorded(block) + c
    requires at + 2 * |f| <= |r| && r[at..at + 2 * |f|] == Stream(before, f)
    ensures FieldAt(r, at + 2 * |a|, |block|) == block
  {
    FieldInStream(r, at, before, a, block, c);
  }

  lemma SectorParts(r: Bits, at: nat, before: bool, fields: Bits)
    requires at + 64 + 2 * |fields| <= |r|
    requires r[at..at + 64 + 2 * |fields|] == SectorBits(before, fields)
    ensures r[at..at + 32] == Stream(before, Zeros(16)) && r[at + 32..at + 64] == SYNC + SYNC
    ensures r[at + 64..at + 64 + 2 * |fields|] == Stream(true, fields)
  {
    KeyedParts(r, at, Stream(before, Zeros(16)), SYNC + SYNC, Stream(true, fields));
  }

  lemma KeyFound(r: Bits, at: nat, before: bool)
    requires at + 64 <= |r|
    requires r[at..at + 32] == Stream(before, Zeros(16)) && r[at + 32..at + 64] == SYNC + SYNC
    ensures KeyAt(r, at)
  {
    LeadIsStream(before);
    LeadMasked(before);
  }

  lemma KeyedParts(r: Bits, at: nat, lead: Bits, key: Bits, s: Bits)
    requires |lead| == |key| == 32
    requires at + 64 + |s| <= |r| && r[at..at + 64 + |s|] == lead + key + s
    ensures r[at..at + 32] == lead && r[at + 32..at + 64] == key && r[at + 64..at + 64 + |s|] == s
  {
    ThreeParts(r, at, lead, key, s);
  }

  lemma LeadMasked(before: bool)
    ensures Lead(before)[0 := false] == Slop()[0 := false]
  {
  }

  lemma ThreeParts(r: Bits, at: nat, a: Bits, b: Bits, c: Bits)
    requires at + |a| + |b| + |c| <= |r| && r[at..at + |a| + |b| + |c|] == a + b + c
    ensures r[at..at + |a|] == a && r[at + |a|..at + |a| + |b|] == b
    ensures r[at + |a| + |b|..at + |a| + |b| + |c|] == c
  {
    var n := |a| + |b| + |c|;
    SliceOfSlice(r, at, n, 0, |a|);
    SliceOfSlice(r, at, n, |a|, |b|);
    SliceOfSlice(r, at, n, |a| + |b|, |c|);
    assert (a + b + c)[0..|a|] == a;
    MiddlePart(a, b, c);
    assert (a + b + c)[|a| + |b|..n] == c;
  }

  lemma IdBytes(track: nat, sec: nat)
    requires sec < NSEC && track < TRACKS
    ensures var w := IdWord(track, sec);
            ByteOf(w, 0) == SECOK && ByteOf(w, 1) == track && ByteOf(w, 2) == sec && ByteOf(w, 3) == NSEC - sec
  {
    ByteValue(SECOK);
    ByteValue(track);
    ByteValue(sec);
    ByteValue(NSEC - sec);
    FourBytes(Word(SECOK, 8), Word(track, 8), Word(sec, 8), Word(NSEC - sec, 8));
  }

  lemma ByteValue(v: nat)
    requires v < 256
    ensures Value(Word(v, 8)) == v
  {
    assert Pow2(4) == 16;
    assert Pow2(8) == 256;
    ValueOfWord(v, 8);
  }

  lemma FourBytes(a: Bits, b: Bits, c: Bits, d: Bits)
    requires |a| == |b| == |c| == |d| == 8
    ensures var w := a + b + c + d; w[0..8] == a && w[8..16] == b && w[16..24] == c && w[24..32] == d
  {
  }
}
