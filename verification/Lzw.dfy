/**
 LZW as codes: the dictionary that a sequence of codes builds, the strings it stands for, and a greedy
 encoder.
 */
module Lzw {

  import opened Basics

  type Text = seq<Byte>

  const FIRST: nat := 257
  const CLEAR: nat := 256

  /** The third byte of the header. */
  datatype Format = Format(maxbits: nat, block: bool) {

    predicate Valid()
    {
      12 <= maxbits <= 16
    }

    /** maxmaxcode: the first code that will never be generated. */
    function Limit(): (n: nat)
      requires Valid()
      ensures 4096 <= n <= 65536
    {
      if maxbits == 12 then 4096 else if maxbits == 13 then 8192 else if maxbits == 14 then 16384
      else if maxbits == 15 then 32768 else 65536
    }

    /** The first code that does not stand for one byte, or for CLEAR. */
    function Base(): (n: nat)
      ensures 256 <= n <= 257
    {
      if block then FIRST else 256
    }

    predicate Clears(code: nat)
    {
      block && code == CLEAR
    }
  }

  /** The strings of the codes from Base() on, and the string of the code before; that is empty at the start
      and after a CLEAR. */
  datatype Decoding = Decoding(entries: seq<Text>, prev: Text)

  function Fresh(): Decoding
  {
    Decoding([], [])
  }

  function Free(k: Format, entries: seq<Text>): (n: nat)
  {
    k.Base() + |entries|
  }

  predicate Known(k: Format, entries: seq<Text>, code: nat)
  {
    code < 256 || k.Base() <= code < Free(k, entries)
  }

  function StringOf(k: Format, entries: seq<Text>, code: nat): (w: Text)
    requires Known(k, entries, code)
  {
    if code < 256 then [code] else entries[code - k.Base()]
  }

  predicate Room(k: Format, entries: seq<Text>)
    requires k.Valid()
  {
    Free(k, entries) < k.Limit()
  }

  /** A code that a stream may have next.  The first one, and the one after a CLEAR, is a byte. */
  predicate ValidCode(k: Format, s: Decoding, code: nat)
    requires k.Valid()
  {
    if s.prev == [] then code < 256
    else k.Clears(code) || Known(k, s.entries, code) || (code == Free(k, s.entries) && Room(k, s.entries))
  }

  /** What a code stands for; the next code to be entered stands for the string it is about to be given. */
  function Meaning(k: Format, s: Decoding, code: nat): (w: Text)
    requires k.Valid() && ValidCode(k, s, code) && !k.Clears(code)
  {
    if Known(k, s.entries, code) then StringOf(k, s.entries, code) else s.prev + [s.prev[0]]
  }

  function Next(k: Format, s: Decoding, code: nat): (s': Decoding)
    requires k.Valid() && ValidCode(k, s, code) && NonEmpty(s)
    ensures NonEmpty(s')
  {
    if k.Clears(code) then Fresh()
    else
      var w := Meaning(k, s, code);
      Decoding(if s.prev != [] && Room(k, s.entries) then s.entries + [s.prev + [w[0]]] else s.entries, w)
  }

  ghost predicate NonEmpty(s: Decoding)
  {
    forall i: nat :: i < |s.entries| ==> s.entries[i] != []
  }

  ghost predicate ValidCodes(k: Format, s: Decoding, codes: seq<nat>)
    requires k.Valid() && NonEmpty(s)
    decreases |codes|
  {
    codes == [] || (ValidCode(k, s, codes[0]) && ValidCodes(k, Next(k, s, codes[0]), codes[1..]))
  }

  /** The concatenation of the strings of the codes. */
  function Decoded(k: Format, s: Decoding, codes: seq<nat>): (t: Text)
    requires k.Valid() && NonEmpty(s) && ValidCodes(k, s, codes)
    decreases |codes|
  {
    if codes == [] then []
    else
      (if k.Clears(codes[0]) then [] else Meaning(k, s, codes[0])) + Decoded(k, Next(k, s, codes[0]), codes[1..])
  }

  // ----- the encoder

  /** The code of the longest string among the bytes and the first n entries with which the input begins. */
  function Longest(k: Format, entries: seq<Text>, input: Text, n: nat): (code: nat)
    requires input != [] && n <= |entries|
    ensures Known(k, entries, code)
  {
    if n == 0 then input[0]
    else
      var c := Longest(k, entries, input, n - 1);
      if entries[n - 1] <= input && |entries[n - 1]| > |StringOf(k, entries, c)| then k.Base() + n - 1 else c
  }

  lemma {:induction false} LongestIsLongest(k: Format, entries: seq<Text>, input: Text, n: nat)
    requires input != [] && n <= |entries|
    ensures var w := StringOf(k, entries, Longest(k, entries, input, n));
            w != [] && w <= input
            && forall i: nat :: i < n && entries[i] <= input ==> |entries[i]| <= |w|
  {
    if n > 0 {
      LongestIsLongest(k, entries, input, n - 1);
    }
  }

  /** Greedy LZW. */
  function Encoded(k: Format, entries: seq<Text>, input: Text, clears: seq<bool>): (codes: seq<nat>)
    requires k.Valid()
    decreases |input|, 0
  {
    if input == [] then []
    else
      var c := Longest(k, entries, input, |entries|);
      var w := StringOf(k, entries, c);
      LongestIsLongest(k, entries, input, |entries|);
      [c] + EncodedAfter(k, entries, w, input[|w|..], clears)
  }

  /** What follows the code of w: w and the byte after it become an entry, if there is room; or, where
      `clears` says so, a CLEAR is put out and the dictionary is empty again. */
  function EncodedAfter(k: Format, entries: seq<Text>, w: Text, rest: Text, clears: seq<bool>): (codes: seq<nat>)
    requires k.Valid()
    decreases |rest|, 1
  {
    var later := if clears == [] then [] else clears[1..];
    if rest == [] then []
    else if k.block && clears != [] && clears[0] then [CLEAR] + Encoded(k, [], rest, later)
    else Encoded(k, if Room(k, entries) then entries + [w + [rest[0]]] else entries, rest, later)
  }

  /** The encoder is one entry ahead of the decoder: it has seen the byte after the last string. */
  ghost predicate InStep(k: Format, s: Decoding, entries: seq<Text>, input: Text)
    requires k.Valid()
  {
    && NonEmpty(s) && input != []
    && if s.prev == [] then s.entries == [] == entries
       else entries == if Room(k, s.entries) then s.entries + [s.prev + [input[0]]] else s.entries
  }

  /** The code that the encoder picks is one the decoder understands, although it may be the very one that
      the decoder has not entered yet. */
  lemma PickIsUnderstood(k: Format, s: Decoding, entries: seq<Text>, input: Text)
    requires k.Valid() && InStep(k, s, entries, input)
    ensures var c := Longest(k, entries, input, |entries|); var w := StringOf(k, entries, c);
            ValidCode(k, s, c) && !k.Clears(c) && Meaning(k, s, c) == w && w != [] && w <= input
            && Next(k, s, c) == Decoding(entries, w)
  {
    LongestIsLongest(k, entries, input, |entries|);
    var c := Longest(k, entries, input, |entries|);
    var w := StringOf(k, entries, c);
    assert w[0] == input[0];
    if !Known(k, s.entries, c) {
      assert c == Free(k, s.entries) && w == s.prev + [input[0]];
    }
  }

  lemma Prepend(k: Format, s: Decoding, c: nat, more: seq<nat>)
    requires k.Valid() && NonEmpty(s) && ValidCode(k, s, c) && ValidCodes(k, Next(k, s, c), more)
    ensures ValidCodes(k, s, [c] + more)
    ensures Decoded(k, s, [c] + more) == (if k.Clears(c) then [] else Meaning(k, s, c)) + Decoded(k, Next(k, s, c), more)
  {
    assert ([c] + more)[1..] == more;
  }

  ghost predicate Follows(k: Format, s: Decoding, codes: seq<nat>, input: Text)
    requires k.Valid() && NonEmpty(s)
  {
    ValidCodes(k, s, codes) && Decoded(k, s, codes) == input
  }

  /** The decoder, once it has read a code and a CLEAR. */
  lemma ClearFollows(k: Format, s: Decoding, more: seq<nat>, rest: Text)
    requires k.Valid() && k.block && NonEmpty(s) && s.prev != [] && Follows(k, Fresh(), more, rest)
    ensures Follows(k, s, [CLEAR] + more, rest)
  {
    Prepend(k, s, CLEAR, more);
  }

  lemma {:induction false} DecoderFollows(k: Format, s: Decoding, entries: seq<Text>, input: Text, clears: seq<bool>)
    requires k.Valid() && InStep(k, s, entries, input)
    ensures Follows(k, s, Encoded(k, entries, input, clears), input)
    decreases |input|, 0
  {
    var c := Longest(k, entries, input, |entries|);
    var w := StringOf(k, entries, c);
    PickIsUnderstood(k, s, entries, input);
    var rest := input[|w|..];
    assert input == w + rest;
    DecoderFollowsOn(k, Next(k, s, c), entries, w, rest, clears);
    Prepend(k, s, c, EncodedAfter(k, entries, w, rest, clears));
  }

  lemma {:induction false} DecoderFollowsOn(k: Format, s: Decoding, entries: seq<Text>, w: Text, rest: Text, clears: seq<bool>)
    requires k.Valid() && w != [] && s == Decoding(entries, w) && NonEmpty(s)
    ensures Follows(k, s, EncodedAfter(k, entries, w, rest, clears), rest)
    decreases |rest|, 1
  {
    if rest != [] {
      var later := if clears == [] then [] else clears[1..];
      if k.block && clears != [] && clears[0] {
        DecoderFollows(k, Fresh(), [], rest, later);
        ClearFollows(k, s, Encoded(k, [], rest, later), rest);
      } else {
        DecoderFollows(k, s, if Room(k, entries) then entries + [w + [rest[0]]] else entries, rest, later);
      }
    }
  }

  /** Decoding inverts greedy encoding, for every input and every placing of CLEAR codes. */
  lemma RoundTrip(k: Format, input: Text, clears: seq<bool>)
    requires k.Valid()
    ensures var codes := Encoded(k, [], input, clears);
            ValidCodes(k, Fresh(), codes) && Decoded(k, Fresh(), codes) == input
  {
    assert Follows(k, Fresh(), [], []);
    if input != [] {
      DecoderFollows(k, Fresh(), [], input, clears);
    }
  }
}
