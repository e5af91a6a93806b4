/**
 decompress: the string tables, kept as a prefix code and a last byte for each code, and the stack on which
 a string is recovered backwards.
 */
module Decompressor {

  import opened Basics
  import opened Lzw
  import opened Decompress

  /** hsize: the entries of the hash table whose memory the tables and the stack share. */
  function HashSize(k: Format): (n: nat)
    requires k.Valid()
    ensures k.Limit() < n
  {
    if k.maxbits == 12 then 5003 else if k.maxbits == 13 then 9001 else if k.maxbits == 14 then 18013
    else if k.maxbits == 15 then 35023 else 69001
  }

  // ----- the codes of an input

  /** The codes getcode returns while the dictionary grows with them; `clear` if the last one was a CLEAR. */
  function Codes(k: Format, r: Reader, s: Decoding, clear: bool): (codes: seq<nat>)
    requires ReaderOk(k, r) && NonEmpty(s) && Free(k, s.entries) <= k.Limit()
    decreases |r.rest|, Left(r)
  {
    var x := Fetch(k, r, Free(k, s.entries), clear);
    if x.code < 0 || !ValidCode(k, s, x.code) then []
    else [x.code] + Codes(k, x.r, Next(k, s, x.code), k.Clears(x.code))
  }

  /** Every code of the input is a valid one. */
  ghost predicate Sound(k: Format, r: Reader, s: Decoding, clear: bool)
    requires ReaderOk(k, r) && NonEmpty(s) && Free(k, s.entries) <= k.Limit()
    decreases |r.rest|, Left(r)
  {
    var x := Fetch(k, r, Free(k, s.entries), clear);
    x.code < 0 || (ValidCode(k, s, x.code) && Sound(k, x.r, Next(k, s, x.code), k.Clears(x.code)))
  }

  // ----- what the tables mean

  /** Entry i, as the tables hold it: an earlier code, never CLEAR, and one more byte. */
  ghost predicate EntryHeld(k: Format, entries: seq<Text>, prefix: seq<nat>, suffix: seq<Byte>, i: nat)
    requires i < |entries| && Free(k, entries) <= |prefix| && Free(k, entries) <= |suffix|
  {
    var c := k.Base() + i;
    && prefix[c] < c && Known(k, entries, prefix[c])
    && entries[i] == StringOf(k, entries, prefix[c]) + [suffix[c]]
    && |entries[i]| <= i + 2
  }

  ghost predicate Tables(k: Format, entries: seq<Text>, prefix: seq<nat>, suffix: seq<Byte>)
    requires k.Valid()
  {
    && |prefix| >= k.Limit() && |suffix| == k.Limit() && Free(k, entries) <= k.Limit()
    && (forall c: Byte :: suffix[c] == c)
    && (forall i: nat :: i < |entries| ==> EntryHeld(k, entries, prefix, suffix, i))
  }

  /** One link of a prefix chain: the code decreases, and its string loses its last byte. */
  lemma Link(k: Format, entries: seq<Text>, prefix: seq<nat>, suffix: seq<Byte>, c: nat)
    requires k.Valid() && Tables(k, entries, prefix, suffix) && Known(k, entries, c)
    ensures c < 256 ==> StringOf(k, entries, c) == [suffix[c]]
    ensures c >= 256 ==> prefix[c] < c && Known(k, entries, prefix[c])
                         && StringOf(k, entries, c) == StringOf(k, entries, prefix[c]) + [suffix[c]]
    ensures |StringOf(k, entries, c)| <= k.Limit() - 254
  {
    if c >= 256 {
      assert EntryHeld(k, entries, prefix, suffix, c - k.Base());
    }
  }

  /** An entry that is there stays as it is. */
  lemma EntryStays(k: Format, entries: seq<Text>, prefix: seq<nat>, suffix: seq<Byte>, old': nat, w: Text, b: Byte, i: nat)
    requires k.Valid() && Tables(k, entries, prefix, suffix) && Room(k, entries) && i < |entries|
    ensures Free(k, entries) < |prefix| && Free(k, entries) < |suffix|
    ensures var c := Free(k, entries); EntryHeld(k, entries + [w], prefix[c := old'], suffix[c := b], i)
  {
    assert EntryHeld(k, entries, prefix, suffix, i);
  }

  /** The new one is held as it should be. */
  lemma EntryAdded(k: Format, entries: seq<Text>, prefix: seq<nat>, suffix: seq<Byte>, old': nat, b: Byte)
    requires k.Valid() && Tables(k, entries, prefix, suffix) && Known(k, entries, old') && Room(k, entries)
    ensures Free(k, entries) < |prefix| && Free(k, entries) < |suffix|
    ensures var c, w := Free(k, entries), StringOf(k, entries, old') + [b];
            EntryHeld(k, entries + [w], prefix[c := old'], suffix[c := b], |entries|)
  {
    if old' >= 256 {
      assert EntryHeld(k, entries, prefix, suffix, old' - k.Base());
    }
  }

  /** The tables after a new entry. */
  lemma EntryMade(k: Format, entries: seq<Text>, prefix: seq<nat>, suffix: seq<Byte>, old': nat, b: Byte)
    requires k.Valid() && Tables(k, entries, prefix, suffix) && Known(k, entries, old') && Room(k, entries)
    ensures var c := Free(k, entries);
            Tables(k, entries + [StringOf(k, entries, old') + [b]], prefix[c := old'], suffix[c := b])
  {
    var c, w := Free(k, entries), StringOf(k, entries, old') + [b];
    var entries1, prefix1, suffix1 := entries + [w], prefix[c := old'], suffix[c := b];
    forall i: nat | i < |entries1|
      ensures EntryHeld(k, entries1, prefix1, suffix1, i)
    {
      if i < |entries| {
        EntryStays(k, entries, prefix, suffix, old', w, b, i);
      } else {
        EntryAdded(k, entries, prefix, suffix, old', b);
      }
    }
    assert |prefix1| >= k.Limit() && |suffix1| == k.Limit() && Free(k, entries1) <= k.Limit();
    assert forall x: Byte :: suffix1[x] == suffix[x] == x;
  }

  class Decoder {
    const k: Format
    const codetab: array<nat>   // prefix codes
    const htab: array<Byte>     // last bytes, then the stack
    const buf: array<Octet>
    var input: seq<Octet>
    var nBits: nat
    var maxcode: nat
    var offset: nat
    var size: int
    var clearFlg: bool
    var freeEnt: nat
    var oldcode: nat
    var finchar: Byte
    var out: Text

    ghost predicate Shape()
    {
      k.Valid() && codetab.Length == HashSize(k) && htab.Length == 4 * HashSize(k) && buf.Length == 16
    }

    ghost function Reading(): (r: Reader)
      reads this, buf
    {
      Reader(input, buf[..], nBits, maxcode, offset, size)
    }

    ghost function Suffixes(): (t: seq<Byte>)
      requires Shape()
      reads htab
    {
      htab[..k.Limit()]
    }

    constructor (format: Format, bytes: seq<Octet>)
      requires format.Valid()
      ensures Shape() && k == format && ReaderOk(k, Reading()) && Reading().rest == bytes && Whole(Reading())
      ensures size == 0 && nBits == INIT_BITS && !clearFlg && freeEnt == Free(k, []) && out == []
      ensures Tables(k, [], codetab[..], Suffixes())
      ensures fresh(codetab) && fresh(htab) && fresh(buf)
    {
      k := format;
      input, nBits, maxcode, offset, size := bytes, INIT_BITS, 511, 0, 0;
      clearFlg, freeEnt, oldcode, finchar, out := false, if format.block then FIRST else 256, 0, 0, [];
      buf := new Octet[16](_ => [false, false, false, false, false, false, false, false]);
      var n := HashSize(format);
      codetab := new nat[n](_ => 0);
      htab := new Byte[4 * n](i => if 0 <= i < 256 then i else 0);
      new;
      Powers();
    }

    /** getcode: the bits are taken from up to three bytes. */
    method TakeBits() returns (code: Bits)
      requires buf.Length == 16 && INIT_BITS <= nBits <= 16 && offset + nBits <= 128
      ensures code == Flat(buf[..])[offset..offset + nBits]
    {
      var bp, rOff := offset / 8, offset % 8;
      ghost var flat := Flat(buf[..]);
      assert offset == 8 * bp + rOff;
      FlatAt(buf[..], bp);
      code := buf[bp][rOff..];
      assert code == flat[offset..8 * bp + 8];
      var bits := nBits - (8 - rOff);
      bp := bp + 1;
      if bits >= 8 {
        FlatAt(buf[..], bp);
        Joined(flat, offset, 8 * bp, 8 * bp + 8);
        code := code + buf[bp];
        bits := bits - 8;
        bp := bp + 1;
      }
      if bits > 0 {
        FlatAt(buf[..], bp);
        assert buf[bp][..bits] == flat[8 * bp..8 * bp + bits];
        Joined(flat, offset, 8 * bp, 8 * bp + bits);
        code := code + buf[bp][..bits];
      }
    }

    static lemma Joined(flat: Bits, a: nat, b: nat, c: nat)
      requires a <= b <= c <= |flat|
      ensures flat[a..b] + flat[b..c] == flat[a..c]
    {
    }

    /** The part of getcode that gets a new group of bytes. */
    method Refill() returns (eof: bool)
      requires Shape() && ReaderOk(k, Reading()) && freeEnt <= k.Limit() && Refills(Reading(), freeEnt, clearFlg)
      modifies this`input, this`nBits, this`maxcode, this`offset, this`size, this`clearFlg, buf
      ensures !clearFlg
      ensures var r, n := old(Reading()), old(Width(k, Reading(), freeEnt, clearFlg));
              var got := if |r.rest| < n then |r.rest| else n;
              Reading() == if got == 0 then r.(nBits := n, maxcode := Maxcode(k, n), size := 0)
                           else Reader(r.rest[got..], r.rest[..got] + r.buf[got..], n, Maxcode(k, n), 0, 8 * got - (n - 1))
      ensures eof <==> old(input) == []
    {
      SetWidth();
      GetBytes();
      eof := size == 0;
      if eof {
        return;
      }
      offset := 0;
      size := 8 * size - (nBits - 1);
    }

    method SetWidth()
      requires Shape() && ReaderOk(k, Reading()) && freeEnt <= k.Limit()
      modifies this`nBits, this`maxcode, this`clearFlg
      ensures nBits == old(Width(k, Reading(), freeEnt, clearFlg)) && maxcode == Maxcode(k, nBits) && !clearFlg
      ensures INIT_BITS <= nBits <= k.maxbits
    {
      if freeEnt > maxcode {
        nBits := nBits + 1;
        maxcode := if nBits == k.maxbits then k.Limit() else Pow2(nBits) - 1;
      }
      if clearFlg {
        nBits := INIT_BITS;
        maxcode := Pow2(INIT_BITS) - 1;
        clearFlg := false;
      }
    }

    /** Up to nBits bytes of input. */
    method GetBytes()
      requires buf.Length == 16 && nBits <= 16
      modifies this`input, this`size, buf
      ensures size == if |old(input)| < nBits then |old(input)| else nBits
      ensures input == old(input)[size..]
      ensures buf[..] == old(input)[..size] + old(buf[..])[size..]
    {
      ghost var all, was := input, buf[..];
      size := 0;
      while size < nBits && input != []
        invariant 0 <= size <= nBits && size <= |all| && input == all[size..]
        invariant forall j: nat :: j < 16 ==> buf[j] == if j < size then all[j] else was[j]
      {
        buf[size] := input[0];
        input := input[1..];
        size := size + 1;
      }
      TakenFrom(buf[..], all, was, size);
    }

    static lemma TakenFrom(now: seq<Octet>, all: seq<Octet>, was: seq<Octet>, n: nat)
      requires |now| == |was| == 16 && n <= 16 && n <= |all|
      requires forall j: nat :: j < 16 ==> now[j] == if j < n then all[j] else was[j]
      ensures now == all[..n] + was[n..]
    {
    }

    method GetCode() returns (code: int)
      requires Shape() && ReaderOk(k, Reading()) && freeEnt <= k.Limit()
      modifies this`input, this`nBits, this`maxcode, this`offset, this`size, this`clearFlg, buf
      ensures Fetch(k, old(Reading()), freeEnt, old(clearFlg)) == Fetched(code, Reading())
      ensures !clearFlg
    {
      if clearFlg || offset >= size || freeEnt > maxcode {
        var eof := Refill();
        if eof {
          return -1;
        }
      }
      var bits := TakeBits();
      code := Number(bits);
      offset := offset + nBits;
    }

    /** The tables and the registers describe the decoding s. */
    ghost predicate Describes(s: Decoding)
      reads this, codetab, htab
    {
      && Shape() && NonEmpty(s) && Tables(k, s.entries, codetab[..], Suffixes())
      && freeEnt <= k.Limit()
      && if s.prev == [] then s.entries == [] && freeEnt == CLEAR && k.block
         else freeEnt == Free(k, s.entries) && Known(k, s.entries, oldcode)
              && StringOf(k, s.entries, oldcode) == s.prev && finchar == s.prev[0]
    }

    /** The stack from the bottom to sp holds the end of w, backwards. */
    ghost predicate Stacked(w: Text, sp: nat)
      requires k.Valid()
      reads htab
    {
      && k.Limit() <= sp <= htab.Length && sp - k.Limit() <= |w|
      && forall j: nat :: k.Limit() <= j < sp ==> htab[j] == w[|w| - 1 - (j - k.Limit())]
    }

    method Push(b: Byte, sp: nat, ghost w: Text) returns (sp': nat)
      requires Shape() && Stacked(w, sp) && sp < htab.Length && sp - k.Limit() < |w| && b == w[|w| - 1 - (sp - k.Limit())]
      modifies htab
      ensures sp' == sp + 1 && Stacked(w, sp') && Suffixes() == old(Suffixes())
    {
      htab[sp] := b;
      sp' := sp + 1;
    }

    /** The string of a code, last byte first, on the stack; `w` is that string and what is stacked already. */
    method PushString(start: nat, sp0: nat, ghost s: Decoding, ghost w: Text) returns (sp: nat)
      requires Shape() && Tables(k, s.entries, codetab[..], Suffixes()) && Known(k, s.entries, start)
      requires Stacked(w, sp0) && |w| <= k.Limit() - 253
      requires StringOf(k, s.entries, start) == w[..|w| - (sp0 - k.Limit())]
      modifies htab, this`finchar
      ensures Suffixes() == old(Suffixes())
      ensures Stacked(w, sp) && sp - k.Limit() == |w| && w != [] && finchar == w[0]
    {
      var code := start;
      sp := sp0;
      ghost var suffix := Suffixes();
      Link(k, s.entries, codetab[..], suffix, code);
      while code >= 256
        invariant Suffixes() == suffix && Known(k, s.entries, code) && Stacked(w, sp)
        invariant StringOf(k, s.entries, code) == w[..|w| - (sp - k.Limit())]
      {
        Link(k, s.entries, codetab[..], suffix, code);
        var b := htab[code];
        assert b == suffix[code];
        ghost var t := StringOf(k, s.entries, codetab[code]);
        assert t + [b] == w[..|w| - (sp - k.Limit())];
        assert |t| < |w| && t == w[..|t|] && w[|t|] == b;
        sp := Push(b, sp, w);
        code := codetab[code];
      }
      Link(k, s.entries, codetab[..], suffix, code);
      finchar := htab[code];
      assert finchar == suffix[code] == w[0];
      sp := Push(finchar, sp, w);
    }

    method PopString(sp0: nat, ghost w: Text)
      requires Shape() && Stacked(w, sp0) && sp0 - k.Limit() == |w|
      modifies this`out
      ensures out == old(out) + w
    {
      var sp := sp0;
      ghost var before := out;
      while sp > k.Limit()
        invariant k.Limit() <= sp <= sp0 && out == before + w[..|w| - (sp - k.Limit())]
      {
        sp := sp - 1;
        assert htab[sp] == w[|w| - 1 - (sp - k.Limit())];
        out := out + [htab[sp]];
      }
    }

    /** The string of one code, put out. */
    method Expand(incode: nat, ghost s: Decoding)
      requires Describes(s) && ValidCode(k, s, incode) && !k.Clears(incode)
      modifies htab, this`finchar, this`out
      ensures Suffixes() == old(Suffixes())
      ensures out == old(out) + Meaning(k, s, incode) && finchar == Meaning(k, s, incode)[0]
    {
      ghost var w := Meaning(k, s, incode);
      var code, sp := incode, k.Limit();
      Link(k, s.entries, codetab[..], Suffixes(), if Known(k, s.entries, incode) then incode else oldcode);
      if code >= freeEnt {
        sp := Push(finchar, sp, w);
        code := oldcode;
      }
      sp := PushString(code, sp, s, w);
      PopString(sp, w);
    }

    /** The new entry, which after a CLEAR is a useless one for the code CLEAR itself; and what to remember. */
    method Enter(incode: nat, ghost s: Decoding)
      requires Shape() && NonEmpty(s) && Tables(k, s.entries, codetab[..], Suffixes())
      requires ValidCode(k, s, incode) && !k.Clears(incode) && finchar == Meaning(k, s, incode)[0]
      requires if s.prev == [] then s.entries == [] && freeEnt == CLEAR && k.block
               else freeEnt == Free(k, s.entries) && Known(k, s.entries, oldcode) && StringOf(k, s.entries, oldcode) == s.prev
      modifies this`freeEnt, this`oldcode, codetab, htab
      ensures Describes(Next(k, s, incode))
    {
      if freeEnt < k.Limit() {
        if s.prev != [] {
          EntryMade(k, s.entries, codetab[..], Suffixes(), oldcode, finchar);
        }
        ghost var prefix, suffix := codetab[..], Suffixes();
        codetab[freeEnt] := oldcode;
        htab[freeEnt] := finchar;
        assert codetab[..] == prefix[freeEnt := oldcode] && Suffixes() == suffix[freeEnt := finchar];
        freeEnt := freeEnt + 1;
      }
      oldcode := incode;
    }

    /** The input from here on, decoded from s. */
    static function Result(k: Format, r: Reader, s: Decoding, clear: bool): (t: Text)
      requires ReaderOk(k, r) && NonEmpty(s) && Free(k, s.entries) <= k.Limit()
    {
      CodesAreValid(k, r, s, clear);
      Decoded(k, s, Codes(k, r, s, clear))
    }

    static lemma {:induction false} CodesAreValid(k: Format, r: Reader, s: Decoding, clear: bool)
      requires ReaderOk(k, r) && NonEmpty(s) && Free(k, s.entries) <= k.Limit()
      ensures ValidCodes(k, s, Codes(k, r, s, clear))
      decreases |r.rest|, Left(r)
    {
      var x := Fetch(k, r, Free(k, s.entries), clear);
      if x.code >= 0 && ValidCode(k, s, x.code) {
        CodesAreValid(k, x.r, Next(k, s, x.code), k.Clears(x.code));
        Prepend(k, s, x.code, Codes(k, x.r, Next(k, s, x.code), k.Clears(x.code)));
      }
    }

    /** The string of a code, and the result of the input after it. */
    static function AndThen(k: Format, s: Decoding, code: nat, r: Reader): (t: Text)
      requires ReaderOk(k, r) && NonEmpty(s) && ValidCode(k, s, code) && !k.Clears(code) && Free(k, s.entries) <= k.Limit()
    {
      Meaning(k, s, code) + Result(k, r, Next(k, s, code), false)
    }

    static lemma StepEnd(k: Format, r: Reader, s: Decoding, clear: bool)
      requires ReaderOk(k, r) && NonEmpty(s) && Free(k, s.entries) <= k.Limit()
      requires Fetch(k, r, Free(k, s.entries), clear).code == -1
      ensures Codes(k, r, s, clear) == [] && Result(k, r, s, clear) == []
    {
    }

    static lemma StepCode(k: Format, r: Reader, s: Decoding, clear: bool, code: nat, r': Reader)
      requires ReaderOk(k, r) && NonEmpty(s) && Free(k, s.entries) <= k.Limit() && Sound(k, r, s, clear)
      requires Fetch(k, r, Free(k, s.entries), clear) == Fetched(code, r') && !k.Clears(code)
      ensures ReaderOk(k, r') && ValidCode(k, s, code) && Sound(k, r', Next(k, s, code), false)
      ensures Result(k, r, s, clear) == AndThen(k, s, code, r') && Codes(k, r, s, clear) != []
    {
      CodesAreValid(k, r', Next(k, s, code), false);
      Prepend(k, s, code, Codes(k, r', Next(k, s, code), false));
    }

    static lemma StepClear(k: Format, r: Reader, s: Decoding, clear: bool, code: nat, r': Reader)
      requires ReaderOk(k, r) && NonEmpty(s) && Free(k, s.entries) <= k.Limit() && Sound(k, r, s, clear)
      requires Fetch(k, r, Free(k, s.entries), clear) == Fetched(code, r') && k.Clears(code)
      ensures ReaderOk(k, r') && ValidCode(k, s, code) && Sound(k, r', Fresh(), true)
      ensures Result(k, r, s, clear) == Result(k, r', Fresh(), true)
    {
      CodesAreValid(k, r', Fresh(), true);
      Prepend(k, s, code, Codes(k, r', Fresh(), true));
    }

    /** After a CLEAR the width does not depend on the dictionary. */
    static lemma ClearDecides(k: Format, r: Reader, f: nat, g: nat)
      requires ReaderOk(k, r) && f <= k.Limit() && g <= k.Limit()
      ensures Fetch(k, r, f, true) == Fetch(k, r, g, true)
    {
    }

    /** The dictionary is emptied. */
    method Clear()
      requires Shape()
      modifies this`clearFlg, this`freeEnt, codetab
      ensures clearFlg && freeEnt == CLEAR
    {
      for code := 256 downto 0
      {
        codetab[code] := 0;
      }
      clearFlg := true;
      freeEnt := FIRST - 1;
    }

    /** One string put out and one entry made. */
    method OneString(incode: nat, ghost s: Decoding)
      requires Describes(s) && ValidCode(k, s, incode) && !k.Clears(incode)
      modifies this`freeEnt, this`oldcode, this`finchar, this`out, codetab, htab
      ensures Describes(Next(k, s, incode))
      ensures out == old(out) + Meaning(k, s, incode)
    {
      Expand(incode, s);
      Enter(incode, s);
    }

    /** A CLEAR, and the code after it. */
    method NextAfterClear() returns (code: int)
      requires Shape() && ReaderOk(k, Reading()) && k.block && freeEnt <= k.Limit()
      requires forall c: Byte :: htab[c] == c
      modifies this`clearFlg, this`freeEnt, this`input, this`nBits, this`maxcode, this`offset, this`size, codetab, buf
      ensures Fetch(k, old(Reading()), Free(k, []), true) == Fetched(code, Reading())
      ensures !clearFlg && Describes(Fresh())
    {
      ghost var r := Reading();
      Clear();
      ClearDecides(k, r, CLEAR, Free(k, []));
      code := GetCode();
    }

    /** Code has just been read, by reader r after the codes of s; what has been put out and what the input
        still stands for make up the whole. */
    ghost predicate Between(r: Reader, s: Decoding, code: int, whole: Text)
      reads this, codetab, htab, buf
    {
      && Shape() && ReaderOk(k, r) && ReaderOk(k, Reading()) && !clearFlg
      && Describes(s) && s.prev != [] && Sound(k, r, s, false)
      && Fetch(k, r, freeEnt, false) == Fetched(code, Reading())
      && whole == out + Result(k, r, s, false)
    }

    ghost predicate Less(input': seq<Octet>, left': nat)
      reads this, buf
    {
      |input| < |input'| || (input == input' && Left(Reading()) < left')
    }

    /** A string, and the code after it. */
    method StringAndCode(incode: nat, ghost s: Decoding, ghost whole: Text) returns (code: int, ghost r': Reader, ghost s': Decoding)
      requires Describes(s) && ValidCode(k, s, incode) && !k.Clears(incode) && ReaderOk(k, Reading()) && !clearFlg
      requires Sound(k, Reading(), Next(k, s, incode), false)
      requires Free(k, s.entries) <= k.Limit() && whole == out + AndThen(k, s, incode, Reading())
      modifies this, codetab, htab, buf
      ensures Between(r', s', code, whole)
      ensures code > -1 ==> Less(old(input), old(Left(Reading())))
    {
      s' := Next(k, s, incode);
      r' := Reading();
      Regroup(out, Meaning(k, s, incode), Result(k, r', s', false));
      OneString(incode, s);
      code := GetCode();
    }

    static lemma Regroup(a: Text, b: Text, c: Text)
      ensures a + (b + c) == a + b + c
    {
    }

    /** One turn of the main loop. */
    method Turn(code: nat, ghost r: Reader, ghost s: Decoding, ghost whole: Text)
      returns (code': int, ghost r': Reader, ghost s': Decoding, eof: bool)
      requires Between(r, s, code, whole)
      modifies this, codetab, htab, buf
      ensures if eof then out == whole else Between(r', s', code', whole)
      ensures !eof && code' > -1 ==> Less(old(input), old(Left(Reading())))
    {
      if code == CLEAR && k.block {
        code', r', s', eof := TurnAfterClear(r, s, whole);
      } else {
        eof := false;
        StepCode(k, r, s, false, code, Reading());
        code', r', s' := StringAndCode(code, s, whole);
      }
    }

    method TurnAfterClear(ghost r: Reader, ghost s: Decoding, ghost whole: Text)
      returns (code: int, ghost r': Reader, ghost s': Decoding, eof: bool)
      requires Between(r, s, CLEAR, whole) && k.block
      modifies this, codetab, htab, buf
      ensures if eof then out == whole else Between(r', s', code, whole)
      ensures !eof && code > -1 ==> Less(old(input), old(Left(Reading())))
    {
      StepClear(k, r, s, false, CLEAR, Reading());
      r', s', eof := Reading(), Fresh(), false;
      code := NextAfterClear();
      if code == -1 {
        StepEnd(k, r', Fresh(), true);
        eof := true;
      } else {
        StepCode(k, r', Fresh(), true, code, Reading());
        code, r', s' := StringAndCode(code, Fresh(), whole);
      }
    }

    /** The first code, which has to be a byte. */
    method First(ghost whole: Text) returns (code: int, ghost r: Reader, ghost s: Decoding, eof: bool)
      requires Shape() && ReaderOk(k, Reading()) && !clearFlg && freeEnt == Free(k, []) && out == []
      requires Tables(k, [], codetab[..], Suffixes())
      requires Sound(k, Reading(), Fresh(), false) && whole == Result(k, Reading(), Fresh(), false)
      modifies this, codetab, htab, buf
      ensures if eof then out == whole else Between(r, s, code, whole)
      ensures eof <==> old(Codes(k, Reading(), Fresh(), false)) == []
    {
      r, s, eof := Reading(), Fresh(), false;
      code := GetCode();
      if code == -1 {
        StepEnd(k, r, s, false);
        eof := true;
        return;
      }
      StepCode(k, r, s, false, code, Reading());
      FirstString(code);
      s := Next(k, s, code);
      r := Reading();
      code := GetCode();
    }

    method FirstString(code: Byte)
      requires Shape() && Tables(k, [], codetab[..], Suffixes()) && freeEnt == Free(k, []) && freeEnt <= k.Limit()
      modifies this`finchar, this`oldcode, this`out
      ensures Describes(Next(k, Fresh(), code)) && out == old(out) + Meaning(k, Fresh(), code)
    {
      finchar := code;
      oldcode := code;
      out := out + [finchar];
    }

    /** The whole of decompress after the header: what comes out is what the codes of the input stand for. */
    method Run() returns (ok: bool)
      requires Shape() && ReaderOk(k, Reading()) && !clearFlg && freeEnt == Free(k, []) && out == []
      requires Tables(k, [], codetab[..], Suffixes())
      requires Sound(k, Reading(), Fresh(), false)
      modifies this, codetab, htab, buf
      ensures out == Result(k, old(Reading()), Fresh(), false)
      ensures ok <==> old(Codes(k, Reading(), Fresh(), false)) != []
    {
      ghost var whole := Result(k, Reading(), Fresh(), false);
      var code, r, s, eof := First(whole);
      ok := !eof;
      while !eof && code > -1
        invariant if eof then out == whole else Between(r, s, code, whole)
        decreases !eof, code > -1, |input|, Left(Reading())
      {
        code, r, s, eof := Turn(code, r, s, whole);
      }
      if !eof {
        StepEnd(k, r, s, false);
      }
    }
  }
}
