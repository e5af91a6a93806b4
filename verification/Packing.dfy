/**
 Codes packed into bytes as compressed files hold them, and the whole round trip: the decompressor takes back
 out what a greedy encoder and the packing put in.
 */
module Packing {

  import opened Basics
  import opened Lzw
  import opened Decompress
  import opened Decompressor

  // ----- numbers as bits

  function BitsOf(c: nat, n: nat): (bits: Bits)
    ensures |bits| == n
  {
    if n == 0 then [] else [c % 2 == 1] + BitsOf(c / 2, n - 1)
  }

  lemma {:induction false} NumberOfBits(c: nat, n: nat)
    requires c < Pow2(n)
    ensures Number(BitsOf(c, n)) == c
  {
    if n > 0 {
      NumberOfBits(c / 2, n - 1);
      assert BitsOf(c, n)[1..] == BitsOf(c / 2, n - 1);
    }
  }

  function Zeros(n: nat): (bits: Bits)
    ensures |bits| == n
  {
    seq(n, _ => false)
  }

  function Octets(bits: Bits): (bytes: seq<Octet>)
    requires |bits| % 8 == 0
    ensures Flat(bytes) == bits
  {
    if bits == [] then []
    else
      var more := Octets(bits[8..]);
      assert ([bits[..8]] + more)[1..] == more;
      [bits[..8]] + more
  }

  // ----- the packing

  /** The bits of a number of codes. */
  function Times(count: nat, n: nat): (bits: nat)
  {
    if count == 0 then 0 else n + Times(count - 1, n)
  }

  lemma TimesFit(n: nat)
    ensures Times(8, n) == 8 * n
    ensures forall count: nat :: count < 8 ==> Times(count, n) + n <= 8 * n
  {
    assert Times(1, n) == n;
    assert Times(2, n) == 2 * n;
    assert Times(3, n) == 3 * n;
    assert Times(4, n) == 4 * n;
    assert Times(5, n) == 5 * n;
    assert Times(6, n) == 6 * n;
    assert Times(7, n) == 7 * n;
    forall count: nat | count < 8
      ensures Times(count, n) + n <= 8 * n
    {
      assert count == 0 || count == 1 || count == 2 || count == 3 || count == 4 || count == 5 || count == 6 || count == 7;
    }
  }

  /** These many bits after `count` codes of a group end with a byte. */
  predicate ToByte(bits: nat, count: nat, n: nat)
  {
    (bits + Times(count, n)) % 8 == 0
  }

  /** Where the packing stands: the width, and the codes in the group of eight that has been begun. */
  datatype Place = Place(n: nat, count: nat) {

    predicate Valid(k: Format)
    {
      INIT_BITS <= n <= k.maxbits && count < 8
    }

    function Rest(): (bits: nat)
      requires count < 8
      ensures ToByte(bits, count, n)
    {
      TimesFit(n);
      if count == 0 then 0 else 8 * n - Times(count, n)
    }
  }

  predicate NewGroup(k: Format, s: Decoding, p: Place, clear: bool)
    requires k.Valid()
  {
    clear || Free(k, s.entries) > Maxcode(k, p.n)
  }

  /** A code has the width that the dictionary calls for. */
  function NewWidth(k: Format, s: Decoding, p: Place, clear: bool): (n: nat)
    requires k.Valid() && p.Valid(k) && Free(k, s.entries) <= k.Limit()
    ensures INIT_BITS <= n <= k.maxbits
  {
    if clear then INIT_BITS else if Free(k, s.entries) > Maxcode(k, p.n) then p.n + 1 else p.n
  }

  function NewPlace(k: Format, s: Decoding, p: Place, clear: bool): (p': Place)
    requires k.Valid() && p.Valid(k) && Free(k, s.entries) <= k.Limit()
    ensures p'.Valid(k)
  {
    Place(NewWidth(k, s, p, clear), if NewGroup(k, s, p, clear) then 1 else if p.count == 7 then 0 else p.count + 1)
  }

  /** The codes of one width come in groups of eight; a group that is given up, because the width may change,
      is filled up. */
  function PackedCode(k: Format, s: Decoding, code: nat, p: Place, clear: bool): (bits: Bits)
    requires k.Valid() && p.Valid(k) && Free(k, s.entries) <= k.Limit()
  {
    (if NewGroup(k, s, p, clear) then Zeros(p.Rest()) else []) + BitsOf(code, NewWidth(k, s, p, clear))
  }

  lemma {:induction false} PackedCodeToByte(k: Format, s: Decoding, code: nat, p: Place, clear: bool, more: nat)
    requires k.Valid() && p.Valid(k) && Free(k, s.entries) <= k.Limit()
    requires var p' := NewPlace(k, s, p, clear); ToByte(more, p'.count, p'.n)
    ensures ToByte(|PackedCode(k, s, code, p, clear)| + more, p.count, p.n)
  {
    TimesFit(p.n);
    var p' := NewPlace(k, s, p, clear);
    if NewGroup(k, s, p, clear) {
      assert Times(1, p'.n) == p'.n;
      ByteFilled(p.Rest(), Times(p.count, p.n), p'.n, more);
    } else if p.count == 7 {
      assert Times(8, p.n) == p.n + Times(7, p.n);
      ByteBegun(p.n, Times(7, p.n), more);
    }
  }

  lemma ByteFilled(rest: nat, before: nat, n: nat, more: nat)
    requires (rest + before) % 8 == 0 && (more + n) % 8 == 0
    ensures (rest + n + more + before) % 8 == 0
  {
  }

  lemma ByteBegun(n: nat, before: nat, more: nat)
    requires n + before == 8 * n && more % 8 == 0
    ensures (n + more + before) % 8 == 0
  {
  }

  /** The codes packed, and the last byte filled up. */
  function Packed(k: Format, s: Decoding, codes: seq<nat>, p: Place, clear: bool): (bits: Bits)
    requires k.Valid() && NonEmpty(s) && ValidCodes(k, s, codes) && p.Valid(k) && Free(k, s.entries) <= k.Limit()
    ensures ToByte(|bits|, p.count, p.n)
    decreases |codes|
  {
    if codes == [] then Zeros((8 - Times(p.count, p.n) % 8) % 8)
    else
      var more := Packed(k, Next(k, s, codes[0]), codes[1..], NewPlace(k, s, p, clear), k.Clears(codes[0]));
      var front := PackedCode(k, s, codes[0], p, clear);
      PackedCodeToByte(k, s, codes[0], p, clear, |more|);
      assert |front + more| == |front| + |more|;
      front + more
  }

  // ----- getcode takes the codes out again

  /** The bits got but not yet used, with those that fill up the group. */
  function InBuf(r: Reader): (bits: Bits)
    requires |r.buf| == 16
  {
    if r.size > 0 && r.offset <= End(r) <= 128 then Flat(r.buf)[r.offset..End(r)] else []
  }

  function Raw(r: Reader): (bits: Bits)
    requires |r.buf| == 16
  {
    InBuf(r) + Flat(r.rest)
  }

  lemma NextRaw(k: Format, r: Reader, free: nat)
    requires ReaderOk(k, r) && free <= k.Limit() && !Refills(r, free, false)
    ensures var n, x := r.nBits, Fetch(k, r, free, false);
            |Raw(r)| >= n && x.code == Number(Raw(r)[..n]) && Raw(x.r) == Raw(r)[n..]
  {
    var flat, n := Flat(r.buf), r.nBits;
    SplitField(flat, Flat(r.rest), r.offset, n, End(r));
    var x := Fetch(k, r, free, false);
    assert InBuf(r) == flat[r.offset..End(r)];
    assert InBuf(x.r) == flat[r.offset + n..End(r)];
  }

  lemma FirstRaw(k: Format, r: Reader, free: nat, clear: bool)
    requires ReaderOk(k, r) && free <= k.Limit() && Refills(r, free, clear)
    requires |Flat(r.rest)| >= Width(k, r, free, clear)
    ensures var n, x := Width(k, r, free, clear), Fetch(k, r, free, clear);
            && x.code == Number(Flat(r.rest)[..n]) && Raw(x.r) == Flat(r.rest)[n..]
            && x.r.nBits == n == x.r.offset && x.r.size > 0 && n <= End(x.r) <= 8 * n && (x.r.rest == [] || End(x.r) == 8 * n)
  {
    var n := Width(k, r, free, clear);
    GroupGot(r.rest, r.buf, if |r.rest| < n then |r.rest| else n, n);
  }

  /** Where a reader stands in its group. */
  ghost predicate Stands(r: Reader, p: Place)
    requires |r.buf| == 16
  {
    && r.nBits == p.n
    && if p.count == 0 then r.offset >= r.size && InBuf(r) == []
       else r.size > 0 && r.offset == Times(p.count, p.n) <= End(r) <= 8 * p.n && (r.rest == [] || End(r) == 8 * p.n)
  }

  /** The width is behind the dictionary by one code at most. */
  predicate KeptUp(k: Format, s: Decoding, p: Place, clear: bool)
    requires k.Valid()
  {
    Free(k, s.entries) <= k.Limit() && (clear || Free(k, s.entries) <= Maxcode(k, p.n) + 1)
           && (clear ==> s == Fresh())
  }

  lemma {:induction false} PowersGrow(a: nat, b: nat)
    requires a < b
    ensures 2 * Pow2(a) <= Pow2(b)
  {
    if b > a + 1 {
      PowersGrow(a, b - 1);
    }
  }

  lemma LimitIs(k: Format)
    requires k.Valid()
    ensures k.Limit() == Pow2(k.maxbits)
  {
    Powers();
  }

  lemma StaysKeptUp(k: Format, s: Decoding, code: nat, p: Place, clear: bool)
    requires k.Valid() && NonEmpty(s) && ValidCode(k, s, code) && p.Valid(k) && KeptUp(k, s, p, clear)
    ensures KeptUp(k, Next(k, s, code), NewPlace(k, s, p, clear), k.Clears(code))
    ensures code < Pow2(NewWidth(k, s, p, clear))
  {
    var n := NewWidth(k, s, p, clear);
    Powers();
    LimitIs(k);
    if n < k.maxbits {
      PowersGrow(n, k.maxbits);
    }
    if n > 9 {
      PowersGrow(9, n);
    }
    if n == p.n + 1 {
      assert Pow2(n) == 2 * Pow2(p.n);
    }
    assert Free(k, s.entries) <= Maxcode(k, n);
  }

  /** A width that the largest code that may come next fits, and no wider than that calls for. */
  ghost predicate JustWide(k: Format, s: Decoding, n: nat)
    requires k.Valid()
  {
    && INIT_BITS <= n <= k.maxbits && (n == k.maxbits || Free(k, s.entries) < Pow2(n))
    && (n == INIT_BITS || Pow2(n - 1) <= Free(k, s.entries))
  }

  ghost predicate WidthsRight(k: Format, s: Decoding, codes: seq<nat>, p: Place, clear: bool)
    requires k.Valid() && NonEmpty(s) && ValidCodes(k, s, codes) && p.Valid(k) && Free(k, s.entries) <= k.Limit()
    decreases |codes|
  {
    codes == []
    || (JustWide(k, s, NewWidth(k, s, p, clear)) && codes[0] < Pow2(NewWidth(k, s, p, clear))
        && WidthsRight(k, Next(k, s, codes[0]), codes[1..], NewPlace(k, s, p, clear), k.Clears(codes[0])))
  }

  lemma JustWideNow(k: Format, s: Decoding, p: Place, clear: bool)
    requires k.Valid() && p.Valid(k) && KeptUp(k, s, p, clear)
    requires clear || p.n == INIT_BITS || Pow2(p.n - 1) <= Free(k, s.entries)
    ensures JustWide(k, s, NewWidth(k, s, p, clear))
  {
    var n := NewWidth(k, s, p, clear);
    Powers();
    LimitIs(k);
    if n == p.n + 1 {
      assert Pow2(n) == 2 * Pow2(p.n) && Pow2(n - 1) == Pow2(p.n);
    }
    if n > 9 {
      PowersGrow(9, n);
    }
  }

  /** Over any stream each code has just the width that the dictionary calls for: nine bits at first and after CLEAR,
      and one more only when the codes have got that far. */
  lemma {:induction false} WidthIsLeast(k: Format, s: Decoding, codes: seq<nat>, p: Place, clear: bool)
    requires k.Valid() && NonEmpty(s) && ValidCodes(k, s, codes) && p.Valid(k) && KeptUp(k, s, p, clear)
    requires clear || p.n == INIT_BITS || Pow2(p.n - 1) <= Free(k, s.entries)
    ensures WidthsRight(k, s, codes, p, clear)
    decreases |codes|
  {
    if codes != [] {
      JustWideNow(k, s, p, clear);
      StaysKeptUp(k, s, codes[0], p, clear);
      WidthIsLeast(k, Next(k, s, codes[0]), codes[1..], NewPlace(k, s, p, clear), k.Clears(codes[0]));
    }
  }

  /** The code that comes next is the one that getcode takes out, and then the reader stands after it. */
  ghost predicate TakesOut(k: Format, r: Reader, s: Decoding, code: nat, p: Place, clear: bool, more: Bits)
    requires ReaderOk(k, r) && p.Valid(k) && Free(k, s.entries) <= k.Limit()
  {
    var x := Fetch(k, r, Free(k, s.entries), clear);
    x.code == code && Stands(x.r, NewPlace(k, s, p, clear)) && Raw(x.r) == more
  }

  lemma FrontIs(a: Bits, b: Bits, c: Bits, n: nat)
    requires |a| == n && a + b == c
    ensures c[..n] == a && c[n..] == b
  {
  }

  lemma FirstTaken(k: Format, r: Reader, s: Decoding, code: nat, p: Place, clear: bool, more: Bits)
    requires ReaderOk(k, r) && p.Valid(k) && Free(k, s.entries) <= k.Limit() && Stands(r, p)
    requires Refills(r, Free(k, s.entries), clear) && (p.count == 0 || NewGroup(k, s, p, clear))
    requires code < Pow2(NewWidth(k, s, p, clear))
    requires Flat(r.rest) == BitsOf(code, NewWidth(k, s, p, clear)) + more
    ensures TakesOut(k, r, s, code, p, clear, more)
  {
    var n := NewWidth(k, s, p, clear);
    FirstRaw(k, r, Free(k, s.entries), clear);
    FrontIs(BitsOf(code, n), more, Flat(r.rest), n);
    NumberOfBits(code, n);
    assert Times(1, n) == n;
  }

  lemma NextTaken(k: Format, r: Reader, s: Decoding, code: nat, p: Place, more: Bits)
    requires ReaderOk(k, r) && p.Valid(k) && Free(k, s.entries) <= k.Limit() && Stands(r, p)
    requires p.count > 0 && !NewGroup(k, s, p, false) && code < Pow2(p.n) && Raw(r) == BitsOf(code, p.n) + more
    ensures TakesOut(k, r, s, code, p, false, more)
  {
    var n := p.n;
    TimesFit(n);
    assert Times(p.count + 1, n) == n + Times(p.count, n);
    NextRaw(k, r, Free(k, s.entries));
    FrontIs(BitsOf(code, n), more, Raw(r), n);
    NumberOfBits(code, n);
  }

  /** A group that is given up has only its filling left. */
  lemma GroupGivenUp(k: Format, r: Reader, p: Place, more: Bits)
    requires ReaderOk(k, r) && p.Valid(k) && Stands(r, p) && more != []
    requires Raw(r) == Zeros(p.Rest()) + more
    ensures Flat(r.rest) == more
  {
    TimesFit(p.n);
    if p.count > 0 {
      assert |InBuf(r)| == p.Rest();
    }
    assert Raw(r)[p.Rest()..] == Flat(r.rest);
    FrontIs(Zeros(p.Rest()), more, Raw(r), p.Rest());
  }

  lemma CodeTaken(k: Format, r: Reader, s: Decoding, code: nat, p: Place, clear: bool, more: Bits)
    requires ReaderOk(k, r) && p.Valid(k) && Free(k, s.entries) <= k.Limit() && Stands(r, p)
    requires code < Pow2(NewWidth(k, s, p, clear)) && Raw(r) == PackedCode(k, s, code, p, clear) + more
    ensures TakesOut(k, r, s, code, p, clear, more)
  {
    var bits := BitsOf(code, NewWidth(k, s, p, clear));
    if NewGroup(k, s, p, clear) {
      assert Raw(r) == Zeros(p.Rest()) + (bits + more);
      GroupGivenUp(k, r, p, bits + more);
      FirstTaken(k, r, s, code, p, clear, more);
    } else {
      assert [] + bits == bits;
      if p.count == 0 {
        assert [] + Flat(r.rest) == Flat(r.rest);
        FirstTaken(k, r, s, code, p, clear, more);
      } else {
        NextTaken(k, r, s, code, p, more);
      }
    }
  }

  lemma NothingLeft(k: Format, r: Reader, p: Place, free: nat, clear: bool)
    requires ReaderOk(k, r) && p.Valid(k) && free <= k.Limit() && Stands(r, p) && |Raw(r)| < 8
    ensures Fetch(k, r, free, clear).code == -1
  {
    assert r.rest == [];
  }

  ghost predicate Unpacks(k: Format, r: Reader, s: Decoding, codes: seq<nat>, clear: bool)
    requires ReaderOk(k, r) && NonEmpty(s) && Free(k, s.entries) <= k.Limit()
  {
    Sound(k, r, s, clear) && Codes(k, r, s, clear) == codes
  }

  /** A reader stands before the packed codes. */
  ghost predicate Before(k: Format, r: Reader, s: Decoding, codes: seq<nat>, p: Place, clear: bool)
  {
    && ReaderOk(k, r) && NonEmpty(s) && ValidCodes(k, s, codes) && p.Valid(k) && KeptUp(k, s, p, clear)
    && Stands(r, p) && Raw(r) == Packed(k, s, codes, p, clear)
  }

  lemma {:induction false} PackedUnpacks(k: Format, r: Reader, s: Decoding, codes: seq<nat>, p: Place, clear: bool)
    requires Before(k, r, s, codes, p, clear)
    ensures Unpacks(k, r, s, codes, clear)
    decreases |codes|
  {
    if codes == [] {
      LastUnpacked(k, r, s, p, clear);
    } else {
      var r', s', p' := BeforeNext(k, r, s, codes, p, clear);
      PackedUnpacks(k, r', s', codes[1..], p', k.Clears(codes[0]));
      OneUnpacked(k, r, s, codes, r', s', clear);
    }
  }

  /** The next code is taken out, and the reader stands before the others. */
  lemma {:induction false} BeforeNext(k: Format, r: Reader, s: Decoding, codes: seq<nat>, p: Place, clear: bool)
    returns (r': Reader, s': Decoding, p': Place)
    requires codes != [] && Before(k, r, s, codes, p, clear)
    ensures Follows(k, r, s, codes, clear, r', s') && Before(k, r', s', codes[1..], p', k.Clears(codes[0]))
  {
    StaysKeptUp(k, s, codes[0], p, clear);
    FirstUnpacked(k, r, s, codes, p, clear);
    r', s', p' := Fetch(k, r, Free(k, s.entries), clear).r, Next(k, s, codes[0]), NewPlace(k, s, p, clear);
  }

  /** getcode gives the first of the codes, and after it reader and dictionary are r' and s'. */
  ghost predicate Follows(k: Format, r: Reader, s: Decoding, codes: seq<nat>, clear: bool, r': Reader, s': Decoding)
  {
    && codes != [] && ReaderOk(k, r) && NonEmpty(s) && Free(k, s.entries) <= k.Limit() && ValidCode(k, s, codes[0])
    && Fetch(k, r, Free(k, s.entries), clear) == Fetched(codes[0], r') && s' == Next(k, s, codes[0])
  }

  lemma {:induction false} LastUnpacked(k: Format, r: Reader, s: Decoding, p: Place, clear: bool)
    requires ReaderOk(k, r) && NonEmpty(s) && p.Valid(k) && Free(k, s.entries) <= k.Limit()
    requires Stands(r, p) && Raw(r) == Packed(k, s, [], p, clear)
    ensures Unpacks(k, r, s, [], clear)
  {
    NothingLeft(k, r, p, Free(k, s.entries), clear);
  }

  lemma {:induction false} FirstUnpacked(k: Format, r: Reader, s: Decoding, codes: seq<nat>, p: Place, clear: bool)
    requires ReaderOk(k, r) && NonEmpty(s) && ValidCodes(k, s, codes) && p.Valid(k) && KeptUp(k, s, p, clear)
    requires codes != [] && Stands(r, p) && Raw(r) == Packed(k, s, codes, p, clear)
    ensures var more := Packed(k, Next(k, s, codes[0]), codes[1..], NewPlace(k, s, p, clear), k.Clears(codes[0]));
            TakesOut(k, r, s, codes[0], p, clear, more)
  {
    StaysKeptUp(k, s, codes[0], p, clear);
    var more := Packed(k, Next(k, s, codes[0]), codes[1..], NewPlace(k, s, p, clear), k.Clears(codes[0]));
    CodeTaken(k, r, s, codes[0], p, clear, more);
  }

  lemma {:induction false} OneUnpacked(k: Format, r: Reader, s: Decoding, codes: seq<nat>, r': Reader, s': Decoding, clear: bool)
    requires Follows(k, r, s, codes, clear, r', s') && ReaderOk(k, r') && NonEmpty(s') && Free(k, s'.entries) <= k.Limit()
    requires Unpacks(k, r', s', codes[1..], k.Clears(codes[0]))
    ensures Unpacks(k, r, s, codes, clear)
  {
    assert [codes[0]] + codes[1..] == codes;
  }

  // ----- the whole

  const START := Place(INIT_BITS, 0)

  /** The bytes, after the header, of a file that holds these codes. */
  function File(k: Format, codes: seq<nat>): (bytes: seq<Octet>)
    requires k.Valid() && ValidCodes(k, Fresh(), codes)
  {
    Octets(Packed(k, Fresh(), codes, START, false))
  }

  /** Every sequence of codes that a decoder can follow is what getcode returns for its file. */
  lemma FileUnpacks(k: Format, codes: seq<nat>, r: Reader)
    requires k.Valid() && ValidCodes(k, Fresh(), codes)
    requires ReaderOk(k, r) && r.rest == File(k, codes) && r.nBits == INIT_BITS && r.size == 0
    ensures Unpacks(k, r, Fresh(), codes, false)
  {
    Powers();
    assert [] + Flat(r.rest) == Flat(r.rest);
    PackedUnpacks(k, r, Fresh(), codes, START, false);
  }

  /** A text encoded greedily, with CLEARs put in as `clears` says, and packed. */
  function Compressed(k: Format, text: Text, clears: seq<bool>): (bytes: seq<Octet>)
    requires k.Valid()
  {
    RoundTrip(k, text, clears);
    File(k, Encoded(k, [], text, clears))
  }

  /** What Run puts out for a compressed text is the text. */
  lemma DecompressesToText(k: Format, text: Text, clears: seq<bool>, r: Reader)
    requires ReaderOk(k, r) && r.rest == Compressed(k, text, clears) && r.nBits == INIT_BITS && r.size == 0
    ensures Sound(k, r, Fresh(), false) && Decoder.Result(k, r, Fresh(), false) == text
  {
    RoundTrip(k, text, clears);
    FileUnpacks(k, Encoded(k, [], text, clears), r);
  }
}
