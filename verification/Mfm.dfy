/**
 Modified frequency modulation, as a relation between a string of data bits and the stream of clock and
 data bits on the disk: every data bit is preceded by a clock bit, which is 1 exactly when the data bits on
 both its sides are 0.
 */
module Mfm {

  import opened Words

  /** The stream for a string of data bits that follows a data bit `prev`. */
  function Stream(prev: bool, data: Bits): (s: Bits)
    ensures |s| == 2 * |data|
    decreases |data|
  {
    if data == [] then [] else [!(prev || data[0]), data[0]] + Stream(data[0], data[1..])
  }

  function Last(prev: bool, data: Bits): bool
  {
    if data == [] then prev else data[|data| - 1]
  }

  lemma {:induction false} StreamAt(prev: bool, data: Bits, j: nat)
    requires j < |data|
    ensures Stream(prev, data)[2 * j + 1] == data[j]
    ensures Stream(prev, data)[2 * j] == !((if j == 0 then prev else data[j - 1]) || data[j])
    decreases j
  {
    if j > 0 {
      StreamAt(data[0], data[1..], j - 1);
    }
  }

  lemma {:induction false} StreamConcat(prev: bool, a: Bits, b: Bits)
    ensures Stream(prev, a + b) == Stream(prev, a) + Stream(Last(prev, a), b)
    decreases |a|
  {
    if a == [] {
      assert a + b == b;
    } else {
      assert (a + b)[1..] == a[1..] + b;
      StreamConcat(a[0], a[1..], b);
    }
  }

  /** Clock and data bit number j are what they should be. */
  ghost predicate PairRight(prev: bool, data: Bits, s: Bits, j: nat)
    requires |s| == 2 * |data| && j < |data|
  {
    s[2 * j + 1] == data[j] && s[2 * j] == !((if j == 0 then prev else data[j - 1]) || data[j])
  }

  /** A stream is determined bit by bit. */
  lemma StreamIs(prev: bool, data: Bits, s: Bits)
    requires |s| == 2 * |data|
    requires forall j: nat :: j < |data| ==> PairRight(prev, data, s, j)
    ensures s == Stream(prev, data)
  {
    forall i: nat | i < |s|
      ensures s[i] == Stream(prev, data)[i]
    {
      StreamAt(prev, data, i / 2);
      assert PairRight(prev, data, s, i / 2);
      assert i == 2 * (i / 2) || i == 2 * (i / 2) + 1;
    }
  }

  /** The data bits of a stream. */
  function Data(s: Bits): (d: Bits)
    ensures |d| == |s| / 2
  {
    seq(|s| / 2, j requires 0 <= j < |s| / 2 => s[2 * j + 1])
  }

  lemma DataOfStream(prev: bool, data: Bits)
    ensures Data(Stream(prev, data)) == data
  {
    forall j: nat | j < |data|
      ensures Data(Stream(prev, data))[j] == data[j]
    {
      StreamAt(prev, data, j);
    }
  }

  /** The bit at p is the right clock bit for the data bits on its two sides. */
  ghost predicate ClockRight(s: Bits, p: nat)
    requires 0 < p < |s| - 1
  {
    s[p] <==> !s[p - 1] && !s[p + 1]
  }

  /** The rule itself, with clock bits at the positions of the given parity. */
  ghost predicate ObeysRule(s: Bits, phase: nat)
  {
    forall p: nat :: 0 < p < |s| - 1 && p % 2 == phase ==> ClockRight(s, p)
  }

  /** A stream obeys the rule, together with the data bit before it. */
  lemma StreamObeysRule(prev: bool, data: Bits)
    ensures ObeysRule([prev] + Stream(prev, data), 1)
  {
    var t := [prev] + Stream(prev, data);
    forall p: nat | 0 < p < |t| - 1 && p % 2 == 1
      ensures ClockRight(t, p)
    {
      var j := (p - 1) / 2;
      assert p == 2 * j + 1;
      StreamAt(prev, data, j);
      if j > 0 {
        StreamAt(prev, data, j - 1);
      }
    }
  }

  /** The sync word 0x4489, which has a clock bit missing. */
  const SYNC: Bits :=
    [false, true, false, false, false, true, false, false, true, false, false, false, true, false, false, true]

  /** No stream that obeys the rule contains the sync word, at any bit offset. */
  lemma SyncBreaksRule(s: Bits, phase: nat, o: nat)
    requires phase <= 1 && ObeysRule(s, phase) && o + 16 <= |s|
    ensures s[o..o + 16] != SYNC
  {
    var w := s[o..o + 16];
    assert w[2] == s[o + 2] && w[3] == s[o + 3] && w[4] == s[o + 4];
    assert w[9] == s[o + 9] && w[10] == s[o + 10] && w[11] == s[o + 11];
    var p, q := o + 3, o + 10;
    assert p % 2 == phase ==> ClockRight(s, p);
    assert q % 2 == phase ==> ClockRight(s, q);
  }
}
