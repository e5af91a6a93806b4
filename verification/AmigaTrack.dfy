/**
 Reading a whole AmigaDOS track: the search for a sector's key at any bit alignment, and the loop that takes
 the sectors in the order in which they pass.
 */
module AmigaTrack {

  import opened Basics
  import opened Words
  import opened Mfm
  import opened AmigaFloppy

  // ----- the tables of find

  function Digit(d: nat): (bits: Bits)
    ensures |bits| == 4
  {
    [8 <= d, 4 <= d < 8 || 12 <= d, d == 2 || d == 3 || d == 6 || d == 7 || d == 10 || d == 11 || 14 <= d,
     d == 1 || d == 3 || d == 5 || d == 7 || d == 9 || d == 11 || d == 13 || d == 15]
  }

  /** A word written as four hexadecimal digits. */
  function Hex(a: nat, b: nat, c: nat, d: nat): (w: Ushort)
  {
    Digit(a) + Digit(b) + Digit(c) + Digit(d)
  }

  datatype Row = Row(word0: Ushort, word1: Ushort, word2: Ushort, mask: Ushort, shift: nat)

  function EvenRows(): (rows: seq<Row>)
    ensures |rows| == 8
  {
    [Row(Hex(0x4, 0x4, 0x8, 0x9), Hex(0x4, 0x4, 0x8, 0x9), Hex(0x0, 0x0, 0x0, 0x0), Hex(0x0, 0x0, 0x0, 0x0), 0),
     Row(Hex(0xA, 0x4, 0x4, 0x8), Hex(0x9, 0x4, 0x4, 0x8), Hex(0x9, 0x0, 0x0, 0x0), Hex(0xF, 0x0, 0x0, 0x0), 4),
     Row(Hex(0xA, 0xA, 0x4, 0x4), Hex(0x8, 0x9, 0x4, 0x4), Hex(0x8, 0x9, 0x0, 0x0), Hex(0xF, 0xF, 0x0, 0x0), 8),
     Row(Hex(0xA, 0xA, 0xA, 0x4), Hex(0x4, 0x8, 0x9, 0x4), Hex(0x4, 0x8, 0x9, 0x0), Hex(0xF, 0xF, 0xF, 0x0), 12),
     Row(Hex(0x9, 0x1, 0x2, 0x2), Hex(0x5, 0x1, 0x2, 0x2), Hex(0x4, 0x0, 0x0, 0x0), Hex(0xC, 0x0, 0x0, 0x0), 2),
     Row(Hex(0xA, 0x9, 0x1, 0x2), Hex(0x2, 0x5, 0x1, 0x2), Hex(0x2, 0x4, 0x0, 0x0), Hex(0xF, 0xC, 0x0, 0x0), 6),
     Row(Hex(0xA, 0xA, 0x9, 0x1), Hex(0x2, 0x2, 0x5, 0x1), Hex(0x2, 0x2, 0x4, 0x0), Hex(0xF, 0xF, 0xC, 0x0), 10),
     Row(Hex(0xA, 0xA, 0xA, 0x9), Hex(0x1, 0x2, 0x2, 0x5), Hex(0x1, 0x2, 0x2, 0x4), Hex(0xF, 0xF, 0xF, 0xC), 14)]
  }

  function OddRows(): (rows: seq<Row>)
    ensures |rows| == 8
  {
    [Row(Hex(0x4, 0x8, 0x9, 0x1), Hex(0x2, 0x8, 0x9, 0x1), Hex(0x2, 0x0, 0x0, 0x0), Hex(0xE, 0x0, 0x0, 0x0), 3),
     Row(Hex(0x5, 0x4, 0x8, 0x9), Hex(0x1, 0x2, 0x8, 0x9), Hex(0x1, 0x2, 0x0, 0x0), Hex(0xF, 0xE, 0x0, 0x0), 7),
     Row(Hex(0x5, 0x5, 0x4, 0x8), Hex(0x9, 0x1, 0x2, 0x8), Hex(0x9, 0x1, 0x2, 0x0), Hex(0xF, 0xF, 0xE, 0x0), 11),
     Row(Hex(0x5, 0x5, 0x5, 0x4), Hex(0x8, 0x9, 0x1, 0x2), Hex(0x8, 0x9, 0x1, 0x2), Hex(0xF, 0xF, 0xF, 0xE), 15),
     Row(Hex(0x2, 0x2, 0x4, 0x4), Hex(0xA, 0x2, 0x4, 0x4), Hex(0x8, 0x0, 0x0, 0x0), Hex(0x8, 0x0, 0x0, 0x0), 1),
     Row(Hex(0x5, 0x2, 0x2, 0x4), Hex(0x4, 0xA, 0x2, 0x4), Hex(0x4, 0x8, 0x0, 0x0), Hex(0xF, 0x8, 0x0, 0x0), 5),
     Row(Hex(0x5, 0x5, 0x2, 0x2), Hex(0x4, 0x4, 0xA, 0x2), Hex(0x4, 0x4, 0x8, 0x0), Hex(0xF, 0xF, 0x8, 0x0), 9),
     Row(Hex(0x5, 0x5, 0x5, 0x2), Hex(0x2, 0x4, 0x4, 0xA), Hex(0x2, 0x4, 0x4, 0x8), Hex(0xF, 0xF, 0xF, 0x8), 13)]
  }

  /** 0xAAAA, or else 0x5555. */
  function Idle(even: bool): (w: Ushort)
  {
    seq(16, i requires 0 <= i < 16 => (i % 2 == 0) == even)
  }

  function Rows(even: bool): (rows: seq<Row>)
    ensures |rows| == 8
  {
    if even then EvenRows() else OddRows()
  }

  /** Bit i of the pattern, followed by zeros. */
  function PatternAt(even: bool, shift: nat, i: nat): (bit: bool)
  {
    if i < shift then (i % 2 == 0) == even
    else if i < shift + 16 then SYNC[i - shift]
    else if i < shift + 32 then SYNC[i - shift - 16]
    else false
  }

  /** The hexadecimal digits of the two sync words, shifted by up to three bits of the idle pattern. */
  function SyncDigits(shift: nat): (ds: seq<nat>)
    requires shift < 4
    ensures |ds| == 9
  {
    if shift == 0 then [0x4, 0x4, 0x8, 0x9, 0x4, 0x4, 0x8, 0x9, 0x0]
    else if shift == 1 then [0x2, 0x2, 0x4, 0x4, 0xA, 0x2, 0x4, 0x4, 0x8]
    else if shift == 2 then [0x9, 0x1, 0x2, 0x2, 0x5, 0x1, 0x2, 0x2, 0x4]
    else [0x4, 0x8, 0x9, 0x1, 0x2, 0x8, 0x9, 0x1, 0x2]
  }

  function DigitAt(even: bool, shift: nat, k: nat): (d: nat)
  {
    if k < shift / 4 then (if even then 0xA else 0x5)
    else if k < shift / 4 + 9 then SyncDigits(shift % 4)[k - shift / 4]
    else 0
  }

  function MaskDigit(shift: nat, k: nat): (d: nat)
  {
    if k < shift / 4 then 0xF
    else if k > shift / 4 || shift % 4 == 0 then 0
    else if shift % 4 == 1 then 0x8
    else if shift % 4 == 2 then 0xC
    else 0xE
  }

  ghost predicate RowRight(row: Row, even: bool)
  {
    && row.shift < 16 && (row.shift % 2 == 0) == even
    && row.word0 == Hex(DigitAt(even, row.shift, 0), DigitAt(even, row.shift, 1), DigitAt(even, row.shift, 2), DigitAt(even, row.shift, 3))
    && row.word1 == Hex(DigitAt(even, row.shift, 4), DigitAt(even, row.shift, 5), DigitAt(even, row.shift, 6), DigitAt(even, row.shift, 7))
    && row.word2 == Hex(DigitAt(even, row.shift, 8), DigitAt(even, row.shift, 9), DigitAt(even, row.shift, 10), DigitAt(even, row.shift, 11))
    && row.mask == Hex(MaskDigit(row.shift, 0), MaskDigit(row.shift, 1), MaskDigit(row.shift, 2), MaskDigit(row.shift, 3))
  }

  lemma FirstEvenRows(i: nat)
    requires i < 4
    ensures RowRight(EvenRows()[i], true)
  {
  }

  lemma LastEvenRows(i: nat)
    requires 4 <= i < 8
    ensures RowRight(EvenRows()[i], true)
  {
  }

  lemma FirstOddRows(i: nat)
    requires i < 4
    ensures RowRight(OddRows()[i], false)
  {
  }

  lemma LastOddRows(i: nat)
    requires 4 <= i < 8
    ensures RowRight(OddRows()[i], false)
  {
  }

  /** Every row of the tables is the pattern for its shift, and the mask leaves out what follows it. */
  lemma RowsRight(even: bool, i: nat)
    requires i < 8
    ensures RowRight(Rows(even)[i], even)
  {
    if even {
      if i < 4 {
        FirstEvenRows(i);
      } else {
        LastEvenRows(i);
      }
    } else {
      if i < 4 {
        FirstOddRows(i);
      } else {
        LastOddRows(i);
      }
    }
  }

  /** Four bits of the pattern. */
  function Four(even: bool, shift: nat, i: nat): (bits: Bits)
  {
    [PatternAt(even, shift, i), PatternAt(even, shift, i + 1), PatternAt(even, shift, i + 2), PatternAt(even, shift, i + 3)]
  }

  lemma SyncFour0(shift: nat, k: nat)
    requires shift == 0 && k < 9
    ensures Digit(SyncDigits(shift)[k]) == Four(shift % 2 == 0, shift, 4 * k)
  {
  }

  lemma SyncFour1(shift: nat, k: nat)
    requires shift == 1 && k < 9
    ensures Digit(SyncDigits(shift)[k]) == Four(shift % 2 == 0, shift, 4 * k)
  {
  }

  lemma SyncFour2(shift: nat, k: nat)
    requires shift == 2 && k < 9
    ensures Digit(SyncDigits(shift)[k]) == Four(shift % 2 == 0, shift, 4 * k)
  {
  }

  lemma SyncFour3(shift: nat, k: nat)
    requires shift == 3 && k < 9
    ensures Digit(SyncDigits(shift)[k]) == Four(shift % 2 == 0, shift, 4 * k)
  {
  }

  lemma {:induction false} SyncFour(shift: nat, k: nat)
    requires shift < 4 && k < 9
    ensures Digit(SyncDigits(shift)[k]) == Four(shift % 2 == 0, shift, 4 * k)
  {
    if shift == 0 {
      SyncFour0(shift, k);
    } else if shift == 1 {
      SyncFour1(shift, k);
    } else if shift == 2 {
      SyncFour2(shift, k);
    } else {
      SyncFour3(shift, k);
    }
  }

  /** The pattern and zeros, three words in all. */
  function Padded(even: bool, shift: nat): (bits: Bits)
    ensures |bits| == 48
  {
    seq(48, i requires 0 <= i < 48 => PatternAt(even, shift, i))
  }

  lemma FourBits(d: Bits, s: Bits, at: nat)
    requires |d| == 4 && at + 4 <= |s| && d[0] == s[at] && d[1] == s[at + 1] && d[2] == s[at + 2] && d[3] == s[at + 3]
    ensures d == s[at..at + 4]
  {
  }

  lemma IdleDigit(d: nat, even: bool, shift: nat, k: nat)
    requires shift < 16 && k < shift / 4 && d == if even then 0xA else 0x5
    ensures Digit(d) == Padded(even, shift)[4 * k..4 * k + 4]
  {
    FourBits(Digit(d), Padded(even, shift), 4 * k);
  }

  lemma {:induction false} PaddedFour(even: bool, shift: nat, i: nat)
    requires i + 4 <= 48
    ensures Four(even, shift, i) == Padded(even, shift)[i..i + 4]
  {
    FourBits(Four(even, shift, i), Padded(even, shift), i);
  }

  lemma {:induction false} BaseDigit(shift: nat, k: nat)
    requires shift < 4 && k < 9
    ensures Digit(SyncDigits(shift)[k]) == Padded(shift % 2 == 0, shift)[4 * k..4 * k + 4]
  {
    SyncFour(shift, k);
    PaddedFour(shift % 2 == 0, shift, 4 * k);
  }

  lemma {:induction false} PaddedLater(even: bool, shift: nat, k: nat)
    requires shift < 16 && shift / 4 <= k < 12
    ensures var j := k - shift / 4; Padded(even, shift % 4)[4 * j..4 * j + 4] == Padded(even, shift)[4 * k..4 * k + 4]
  {
    var a := shift / 4;
    var p, q := Padded(even, shift % 4), Padded(even, shift);
    forall i: nat | 4 * k <= i < 4 * k + 4
      ensures p[i - 4 * a] == q[i]
    {
      PatternLater(even, shift, a, i);
    }
    SlicesEqual(p, q, 4 * (k - a), 4 * k);
  }

  lemma SlicesEqual(p: Bits, q: Bits, i: nat, j: nat)
    requires i + 4 <= |p| && j + 4 <= |q|
    requires forall l: nat :: j <= l < j + 4 ==> p[l - j + i] == q[l]
    ensures p[i..i + 4] == q[j..j + 4]
  {
    var x, y := p[i..i + 4], q[j..j + 4];
    forall m: nat | m < 4
      ensures x[m] == y[m]
    {
      assert x[m] == p[(j + m) - j + i] && y[m] == q[j + m];
    }
  }

  lemma {:induction false} SyncDigit(d: nat, even: bool, shift: nat, k: nat)
    requires shift < 16 && (shift % 2 == 0) == even && k < 12 && shift / 4 <= k < shift / 4 + 9
    requires d == SyncDigits(shift % 4)[k - shift / 4]
    ensures Digit(d) == Padded(even, shift)[4 * k..4 * k + 4]
  {
    var low, j := shift % 4, k - shift / 4;
    ParityOfLow(shift);
    calc {
      Digit(SyncDigits(low)[j]);
    ==  { BaseDigit(low, j); }
      Padded(even, low)[4 * j..4 * j + 4];
    ==  { PaddedLater(even, shift, k); }
      Padded(even, shift)[4 * k..4 * k + 4];
    }
  }

  lemma ParityOfLow(shift: nat)
    ensures shift % 4 % 2 == shift % 2
  {
  }

  lemma {:induction false} SameParity(i: nat, j: nat, a: nat)
    requires i == j + 4 * a
    ensures i % 2 == j % 2
    decreases a
  {
    if a > 0 {
      SameParity(i - 4, j, a - 1);
    }
  }

  lemma {:induction false} PatternLater(even: bool, shift: nat, a: nat, i: nat)
    requires shift == 4 * a + shift % 4 && 4 * a <= i
    ensures PatternAt(even, shift, i) == PatternAt(even, shift % 4, i - 4 * a)
  {
    var j, low: nat := i - 4 * a, shift % 4;
    SameParity(i, j, a);
    assert i - shift == j - low;
  }

  lemma ZeroDigit(d: nat, even: bool, shift: nat, k: nat)
    requires shift < 16 && k < 12 && shift / 4 + 9 <= k && d == 0
    ensures Digit(d) == Padded(even, shift)[4 * k..4 * k + 4]
  {
    assert shift + 32 <= 4 * k;
  }

  /** A digit holds four bits of the pattern. */
  lemma {:induction false} DigitBits(even: bool, shift: nat, k: nat)
    requires shift < 16 && (shift % 2 == 0) == even && k < 12
    ensures Digit(DigitAt(even, shift, k)) == Padded(even, shift)[4 * k..4 * k + 4]
  {
    var d := DigitAt(even, shift, k);
    if k < shift / 4 {
      IdleDigit(d, even, shift, k);
    } else if k < shift / 4 + 9 {
      SyncDigit(d, even, shift, k);
    } else {
      ZeroDigit(d, even, shift, k);
    }
  }

  lemma FourSlices(s: Bits, a: nat)
    requires a + 16 <= |s|
    ensures s[a..a + 16] == s[a..a + 4] + s[a + 4..a + 8] + s[a + 8..a + 12] + s[a + 12..a + 16]
  {
    assert s[a..a + 8] == s[a..a + 4] + s[a + 4..a + 8];
    assert s[a..a + 12] == s[a..a + 8] + s[a + 8..a + 12];
    assert s[a..a + 16] == s[a..a + 12] + s[a + 12..a + 16];
  }

  /** Four digits hold a word of it. */
  lemma WordBits(even: bool, shift: nat, k: nat)
    requires shift < 16 && (shift % 2 == 0) == even && k < 9
    ensures Hex(DigitAt(even, shift, k), DigitAt(even, shift, k + 1), DigitAt(even, shift, k + 2), DigitAt(even, shift, k + 3))
         == Padded(even, shift)[4 * k..4 * k + 16]
  {
    DigitBits(even, shift, k);
    DigitBits(even, shift, k + 1);
    DigitBits(even, shift, k + 2);
    DigitBits(even, shift, k + 3);
    FourSlices(Padded(even, shift), 4 * k);
  }

  function MaskOf(n: nat): (mask: Ushort)
  {
    seq(16, j => j < n)
  }

  lemma MaskDigitBits(shift: nat, k: nat)
    requires shift < 16 && k < 4
    ensures Digit(MaskDigit(shift, k)) == MaskOf(shift)[4 * k..4 * k + 4]
  {
  }

  lemma MaskBits(shift: nat)
    requires shift < 16
    ensures Hex(MaskDigit(shift, 0), MaskDigit(shift, 1), MaskDigit(shift, 2), MaskDigit(shift, 3)) == MaskOf(shift)
  {
    MaskDigitBits(shift, 0);
    MaskDigitBits(shift, 1);
    MaskDigitBits(shift, 2);
    MaskDigitBits(shift, 3);
    FourSlices(MaskOf(shift), 0);
  }

  ghost predicate RowIs(row: Row, even: bool, bits: Bits)
    requires |bits| == 48
  {
    && row.shift < 16 && (row.shift % 2 == 0) == even && row.mask == MaskOf(row.shift)
    && row.word0 == bits[0..16] && row.word1 == bits[16..32] && row.word2 == bits[32..48]
  }

  lemma RowBits(row: Row, even: bool)
    requires RowRight(row, even)
    ensures RowIs(row, even, Padded(even, row.shift))
  {
    WordBits(even, row.shift, 0);
    WordBits(even, row.shift, 4);
    WordBits(even, row.shift, 8);
    MaskBits(row.shift);
  }

  /** The row for a shift. */
  function RowOf(shift: nat): (i: nat)
    requires shift < 16
    ensures i < 8
  {
    if shift % 4 == 0 then shift / 4
    else if shift % 4 == 2 then 4 + shift / 4
    else if shift % 4 == 3 then shift / 4
    else 4 + shift / 4
  }

  lemma RowOfShift(shift: nat)
    requires shift < 16
    ensures Rows(shift % 2 == 0)[RowOf(shift)].shift == shift
  {
  }

  // ----- a key in the raw track

  predicate Matches(ws: seq<Ushort>, q: nat, row: Row)
    requires q + 2 < |ws|
  {
    ws[q] == row.word0 && ws[q + 1] == row.word1 && And(ws[q + 2], row.mask) == row.word2
  }

  function Words3(ws: seq<Ushort>, q: nat): (bits: Bits)
    requires q + 2 < |ws|
    ensures |bits| == 48
  {
    Join(Join(ws[q], ws[q + 1]), ws[q + 2])
  }

  /** From word q on the track holds the pattern for this shift. */
  ghost predicate Holds(ws: seq<Ushort>, q: nat, even: bool, shift: nat)
    requires q + 2 < |ws| && shift < 16
  {
    Words3(ws, q)[..shift + 32] == Padded(even, shift)[..shift + 32]
  }

  lemma MatchesMeans(ws: seq<Ushort>, q: nat, row: Row, even: bool)
    requires q + 2 < |ws| && RowRight(row, even)
    ensures Matches(ws, q, row) <==> Holds(ws, q, even, row.shift)
  {
    RowBits(row, even);
    ThreeWordsMatch(ws[q], ws[q + 1], ws[q + 2], Padded(even, row.shift), row.shift, row.mask);
    PaddedEnds(even, row.shift);
  }

  lemma PaddedEnds(even: bool, shift: nat)
    requires shift < 16
    ensures forall i: nat :: shift + 32 <= i < 48 ==> !Padded(even, shift)[i]
  {
  }

  lemma ThreeWordsMatch(a: Ushort, b: Ushort, c: Ushort, p: Bits, n: nat, mask: Ushort)
    requires |p| == 48 && n < 16 && mask == MaskOf(n)
    requires forall i: nat :: n + 32 <= i < 48 ==> !p[i]
    ensures a == p[0..16] && b == p[16..32] && And(c, mask) == p[32..48] <==> (a + b + c)[..n + 32] == p[..n + 32]
  {
    var t := a + b + c;
    if a == p[0..16] && b == p[16..32] && And(c, mask) == p[32..48] {
      forall i: nat | i < n + 32
        ensures t[i] == p[i]
      {
        assert i < 16 ==> t[i] == a[i];
        assert 16 <= i < 32 ==> t[i] == b[i - 16];
        assert 32 <= i ==> t[i] == c[i - 32] == And(c, mask)[i - 32];
      }
    }
    if t[..n + 32] == p[..n + 32] {
      forall j: nat | j < 16
        ensures a[j] == p[j] && b[j] == p[16 + j]
        ensures And(c, mask)[j] == p[32 + j]
      {
        assert a[j] == t[..n + 32][j] && b[j] == t[..n + 32][16 + j];
        assert j < n ==> c[j] == t[..n + 32][32 + j];
      }
    }
  }
  /** What find looks for at word q: an idle word, its pattern going on for `shift` bits, two sync words. */
  ghost predicate Key(ws: seq<Ushort>, q: nat, shift: nat)
    requires 0 < q && q + 2 < |ws|
  {
    shift < 16 && ws[q - 1] == Idle(shift % 2 == 0) && Holds(ws, q, shift % 2 == 0, shift)
  }

  lemma HeldBit(ws: seq<Ushort>, q: nat, even: bool, shift: nat, i: nat)
    requires q + 2 < |ws| && shift < 16 && Holds(ws, q, even, shift) && i < 16
    ensures ws[q][i] == PatternAt(even, shift, i)
  {
    assert Words3(ws, q)[..shift + 32][i] == ws[q][i];
  }

  lemma IdleTells(even: bool, even': bool)
    requires Idle(even) == Idle(even')
    ensures even == even'
  {
    assert Idle(even)[0] == even && Idle(even')[0] == even';
  }

  /** An idle word that goes on is not yet the key. */
  lemma IdleIsNoKey(ws: seq<Ushort>, q: nat, shift: nat, even: bool)
    requires 0 < q && q + 2 < |ws| && Key(ws, q, shift) && ws[q - 1] == Idle(even)
    ensures ws[q] != Idle(even)
  {
    IdleTells(even, shift % 2 == 0);
    HeldBit(ws, q, even, shift, shift);
    assert PatternAt(even, shift, shift) == false;
    assert Idle(even)[shift] == true;
  }

  lemma KeyUnique(ws: seq<Ushort>, q: nat, s: nat, t: nat)
    requires 0 < q && q + 2 < |ws| && Key(ws, q, s) && Key(ws, q, t)
    ensures s == t
  {
    IdleTells(s % 2 == 0, t % 2 == 0);
    if s < t {
      KeysClash(ws, q, s, t);
    } else if t < s {
      KeysClash(ws, q, t, s);
    }
  }

  /** The first bit of a sync word does not go on with the idle pattern. */
  lemma KeysClash(ws: seq<Ushort>, q: nat, s: nat, t: nat)
    requires 0 < q && q + 2 < |ws| && s < t < 16 && s % 2 == t % 2 && Holds(ws, q, s % 2 == 0, s)
    ensures !Holds(ws, q, s % 2 == 0, t)
  {
    HeldBit(ws, q, s % 2 == 0, s, s);
    assert PatternAt(s % 2 == 0, s, s) == false && PatternAt(s % 2 == 0, t, s) == true;
    if Holds(ws, q, s % 2 == 0, t) {
      HeldBit(ws, q, s % 2 == 0, t, s);
    }
  }

  // ----- find

  /** A bit position in the raw track: a word, and the bits of it to throw out. */
  datatype Place = Place(pos: nat, shift: nat) {

    function Bit(): nat
    {
      16 * pos + shift
    }
  }

  /** Where the first key is whose sync words begin at word q or later. */
  ghost function Found(ws: seq<Ushort>, q: nat, lim: nat): (f: Option<Place>)
    requires 2 <= q && lim <= |ws|
    ensures f.Some? ==> f.value.shift < 16 && f.value.pos + 4 < lim && q <= f.value.pos + 2
    decreases |ws| - q
  {
    if q + 2 >= lim then None
    else if exists s: nat :: Key(ws, q, s) then
      var s: nat :| Key(ws, q, s);
      Some(Place(q - 2, s))
    else Found(ws, q + 1, lim)
  }

  lemma FoundHere(ws: seq<Ushort>, q: nat, lim: nat, s: nat)
    requires 2 <= q && q + 2 < lim <= |ws| && Key(ws, q, s)
    ensures Found(ws, q, lim) == Some(Place(q - 2, s))
  {
    forall t: nat | Key(ws, q, t)
      ensures t == s
    {
      KeyUnique(ws, q, s, t);
    }
  }

  lemma FoundLater(ws: seq<Ushort>, q: nat, lim: nat)
    requires 2 <= q && lim <= |ws|
    requires q + 2 < lim ==> forall s: nat :: !Key(ws, q, s)
    ensures Found(ws, q, lim) == Found(ws, q + 1, lim)
  {
  }

  /** The first row that matches. */
  method TryRows(raw: array<Ushort>, fwa: nat, rows: seq<Row>) returns (f: Option<Row>)
    requires fwa + 2 < raw.Length
    ensures if f.Some? then f.value in rows && Matches(raw[..], fwa, f.value)
            else forall i: nat :: i < |rows| ==> !Matches(raw[..], fwa, rows[i])
  {
    for n := 0 to |rows|
      invariant forall i: nat :: i < n ==> !Matches(raw[..], fwa, rows[i])
    {
      var tp := rows[n];
      if raw[fwa] == tp.word0 && raw[fwa + 1] == tp.word1 && And(raw[fwa + 2], tp.mask) == tp.word2 {
        return Some(tp);
      }
    }
    f := None;
  }

  lemma RowIsKey(ws: seq<Ushort>, q: nat, even: bool, row: Row)
    requires 0 < q && q + 2 < |ws| && ws[q - 1] == Idle(even) && row in Rows(even) && Matches(ws, q, row)
    ensures Key(ws, q, row.shift)
  {
    var i: nat :| i < 8 && row == Rows(even)[i];
    RowsRight(even, i);
    MatchesMeans(ws, q, row, even);
  }

  lemma NoRowNoKey(ws: seq<Ushort>, q: nat, even: bool, s: nat)
    requires 0 < q && q + 2 < |ws| && ws[q - 1] == Idle(even)
    requires forall i: nat :: i < 8 ==> !Matches(ws, q, Rows(even)[i])
    ensures !Key(ws, q, s)
  {
    if Key(ws, q, s) {
      IdleTells(even, s % 2 == 0);
      RowOfShift(s);
      RowsRight(even, RowOf(s));
      MatchesMeans(ws, q, Rows(even)[RowOf(s)], even);
    }
  }

  lemma NoRowsNoKey(ws: seq<Ushort>, q: nat, even: bool)
    requires 0 < q && q + 2 < |ws| && ws[q - 1] == Idle(even)
    requires forall i: nat :: i < 8 ==> !Matches(ws, q, Rows(even)[i])
    ensures forall s: nat :: !Key(ws, q, s)
  {
    forall s: nat
      ensures !Key(ws, q, s)
    {
      NoRowNoKey(ws, q, even, s);
    }
  }

  /** The run of equal idle words. */
  method SkipIdle(raw: array<Ushort>, start: nat, lim: nat, even: bool) returns (fwa: nat, ended: bool)
    requires 2 <= start <= lim <= raw.Length && raw[start - 1] == Idle(even)
    ensures start <= fwa <= lim && raw[fwa - 1] == Idle(even) && ended == (fwa + 2 >= lim)
    ensures Found(raw[..], fwa, lim) == Found(raw[..], start, lim)
  {
    fwa := start;
    ghost var ws := raw[..];
    while true
      invariant start <= fwa <= lim && raw[fwa - 1] == Idle(even)
      invariant Found(ws, fwa, lim) == Found(ws, start, lim)
      decreases lim - fwa
    {
      if fwa + 2 >= lim {
        return fwa, true;
      }
      if raw[fwa] != raw[fwa - 1] {
        return fwa, false;
      }
      forall s: nat
        ensures !Key(ws, fwa, s)
      {
        if Key(ws, fwa, s) {
          IdleIsNoKey(ws, fwa, s, even);
        }
      }
      FoundLater(ws, fwa, lim);
      fwa := fwa + 1;
    }
  }

  /** find: the first key after word `pos`. */
  method Find(raw: array<Ushort>, pos: nat, lim: nat) returns (f: Option<Place>)
    requires pos <= lim <= raw.Length
    ensures f == Found(raw[..], pos + 2, lim)
  {
    if pos == lim {
      return None;
    }
    var fwa := pos + 1;
    while fwa != lim
      invariant pos < fwa <= lim
      invariant Found(raw[..], pos + 2, lim) == Found(raw[..], fwa + 1, lim)
      decreases lim - fwa
    {
      var w := raw[fwa];
      fwa := fwa + 1;
      if w == Idle(true) || w == Idle(false) {
        var ended;
        fwa, ended := SkipIdle(raw, fwa, lim, w == Idle(true));
        if ended {
          return None;
        }
        var even := w == Idle(true);
        var row := TryRows(raw, fwa, if even then EvenRows() else OddRows());
        if row.Some? {
          RowIsKey(raw[..], fwa, even, row.value);
          FoundHere(raw[..], fwa, lim, row.value.shift);
          return Some(Place(fwa - 2, row.value.shift));
        }
        NoRowsNoKey(raw[..], fwa, even);
      }
      FoundLater(raw[..], fwa, lim);
    }
    return None;
  }

  // ----- what find finds

  lemma RawBit(ws: seq<Ushort>, k: nat, j: nat)
    requires k < |ws| && j < 16
    ensures Raw(ws)[16 * k + j] == ws[k][j]
  {
    RawAt(ws, k);
    assert Raw(ws)[16 * k..16 * k + 16][j] == ws[k][j];
  }

  ghost predicate SyncPair(r: Bits, at: nat)
    requires at + 32 <= |r|
  {
    r[at..at + 32] == SYNC + SYNC
  }

  /** A key that is found ends in two sync words. */
  lemma KeyHasSync(ws: seq<Ushort>, q: nat, s: nat)
    requires 0 < q && q + 2 < |ws| && Key(ws, q, s)
    ensures 16 * q + s + 32 <= |Raw(ws)| && SyncPair(Raw(ws), 16 * q + s)
  {
    var r, sync := Raw(ws), SYNC + SYNC;
    forall i: nat | i < 32
      ensures r[16 * q + s + i] == sync[i]
    {
      var k := s + i;
      Words3At(ws, q, k);
      assert Words3(ws, q)[..s + 32][k] == Padded(s % 2 == 0, s)[..s + 32][k];
      assert PatternAt(s % 2 == 0, s, k) == sync[i];
    }
    SliceIs(r, 16 * q + s, sync);
  }

  lemma SliceIs(r: Bits, at: nat, part: Bits)
    requires at + |part| <= |r| && forall i: nat :: i < |part| ==> r[at + i] == part[i]
    ensures r[at..at + |part|] == part
  {
  }

  lemma Words3Is(ws: seq<Ushort>, q: nat)
    requires q + 2 < |ws|
    ensures Words3(ws, q) == Raw(ws)[16 * q..16 * q + 48]
  {
    var r := Raw(ws);
    RawAt(ws, q);
    RawAt(ws, q + 1);
    RawAt(ws, q + 2);
    SliceJoins(r, 16 * q, 16 * q + 16, 16 * q + 32);
    SliceJoins(r, 16 * q, 16 * q + 32, 16 * q + 48);
  }

  lemma Words3At(ws: seq<Ushort>, q: nat, k: nat)
    requires q + 2 < |ws| && k < 48
    ensures Words3(ws, q)[k] == Raw(ws)[16 * q + k]
  {
    Words3Is(ws, q);
  }

  /** Bit i of a sector's key, except for the first. */
  lemma KeyBit(r: Bits, at: nat, i: nat)
    requires at + 64 <= |r| && KeyAt(r, at) && 0 < i < 64
    ensures r[at + i] == if i < 32 then i % 2 == 0 else (SYNC + SYNC)[i - 32]
  {
    if i < 32 {
      assert r[at..at + 32][0 := false][i] == Slop()[0 := false][i];
    } else {
      assert r[at + 32..at + 64][i - 32] == r[at + i];
    }
  }

  /** The same, hidden from a proof until it asks for bit i. */
  ghost predicate KeyBitIs(r: Bits, at: nat, i: nat)
    requires at + 64 <= |r| && 0 < i < 64
  {
    r[at + i] == if i < 32 then i % 2 == 0 else (SYNC + SYNC)[i - 32]
  }

  ghost predicate KeyBits(r: Bits, at: nat)
    requires at + 64 <= |r|
  {
    forall i: nat :: 0 < i < 64 ==> KeyBitIs(r, at, i)
  }

  lemma KeyHasBits(r: Bits, at: nat)
    requires at + 64 <= |r| && KeyAt(r, at)
    ensures KeyBits(r, at)
  {
    forall i: nat | 0 < i < 64
      ensures KeyBitIs(r, at, i)
    {
      KeyBit(r, at, i);
    }
  }

  ghost predicate BitAgrees(r: Bits, ws: seq<Ushort>, k: nat, j: nat)
    requires |r| == 16 * |ws| && k < |ws| && j < 16
  {
    r[16 * k + j] == ws[k][j]
  }

  /** r is the words' bits in order. */
  ghost predicate Spells(r: Bits, ws: seq<Ushort>)
  {
    |r| == 16 * |ws| && forall k: nat, j: nat :: k < |ws| && j < 16 ==> BitAgrees(r, ws, k, j)
  }

  lemma RawSpells(ws: seq<Ushort>)
    ensures Spells(Raw(ws), ws)
  {
    forall k: nat, j: nat | k < |ws| && j < 16
      ensures BitAgrees(Raw(ws), ws, k, j)
    {
      RawBit(ws, k, j);
    }
  }

  ghost predicate Keyed(r: Bits, ws: seq<Ushort>, p: Place)
  {
    Spells(r, ws) && p.shift < 16 && p.pos + 4 < |ws| && KeyBits(r, p.Bit())
  }

  lemma IdleBit(r: Bits, ws: seq<Ushort>, p: Place, j: nat)
    requires Keyed(r, ws, p) && j < 16
    ensures ws[p.pos + 1][j] == ((j % 2 == 0) == (p.shift % 2 == 0))
  {
    assert BitAgrees(r, ws, p.pos + 1, j);
    assert KeyBitIs(r, p.Bit(), 16 - p.shift + j);
    assert 16 * (p.pos + 1) + j == p.Bit() + (16 - p.shift + j);
    Parity(p.shift, j);
  }

  lemma Parity(s: nat, j: nat)
    requires s < 16
    ensures (16 - s + j) % 2 == 0 <==> (j % 2 == 0) == (s % 2 == 0)
  {
  }

  lemma LeadIsIdle(r: Bits, ws: seq<Ushort>, p: Place)
    requires Keyed(r, ws, p)
    ensures ws[p.pos + 1] == Idle(p.shift % 2 == 0)
  {
    var w := ws[p.pos + 1];
    forall j: nat | j < 16
      ensures w[j] == ((j % 2 == 0) == (p.shift % 2 == 0))
    {
      IdleBit(r, ws, p, j);
    }
  }

  lemma LeadBit(r: Bits, ws: seq<Ushort>, p: Place, k: nat)
    requires Keyed(r, ws, p) && k < p.shift + 32
    ensures Words3(ws, p.pos + 2)[k] == PatternAt(p.shift % 2 == 0, p.shift, k)
  {
    var q := p.pos + 2;
    assert BitAgrees(r, ws, q + k / 16, k % 16);
    assert Words3(ws, q)[k] == r[16 * q + k];
    assert KeyBitIs(r, p.Bit(), 32 - p.shift + k);
    PatternIs(p.shift % 2 == 0, p.shift, k);
  }

  lemma LeadHolds(r: Bits, ws: seq<Ushort>, p: Place)
    requires Keyed(r, ws, p)
    ensures Holds(ws, p.pos + 2, p.shift % 2 == 0, p.shift)
  {
    var q, s, even := p.pos + 2, p.shift, p.shift % 2 == 0;
    var w := Words3(ws, q);
    forall k: nat | k < s + 32
      ensures w[k] == PatternAt(even, s, k)
    {
      LeadBit(r, ws, p, k);
    }
    PrefixIsPadded(w, even, s);
  }

  lemma PrefixIsPadded(w: Bits, even: bool, s: nat)
    requires |w| == 48 && s < 16 && forall k: nat :: k < s + 32 ==> w[k] == PatternAt(even, s, k)
    ensures w[..s + 32] == Padded(even, s)[..s + 32]
  {
  }

  /** The key of a sector, at any alignment, is one that find looks for. */
  lemma LeadIsKey(ws: seq<Ushort>, p: Place)
    requires p.shift < 16 && p.pos + 4 < |ws| && KeyAt(Raw(ws), p.Bit())
    ensures Key(ws, p.pos + 2, p.shift)
  {
    RawSpells(ws);
    LeadIsKeyed(Raw(ws), ws, p);
    KeyedIsKey(Raw(ws), ws, p);
  }

  lemma LeadIsKeyed(r: Bits, ws: seq<Ushort>, p: Place)
    requires Spells(r, ws) && p.shift < 16 && p.pos + 4 < |ws| && KeyAt(r, p.Bit())
    ensures Keyed(r, ws, p)
  {
    KeyHasBits(r, p.Bit());
  }

  lemma KeyedIsKey(r: Bits, ws: seq<Ushort>, p: Place)
    requires Keyed(r, ws, p)
    ensures Key(ws, p.pos + 2, p.shift)
  {
    LeadIsIdle(r, ws, p);
    LeadHolds(r, ws, p);
  }

  lemma PatternIs(even: bool, s: nat, k: nat)
    requires s < 16 && k < s + 32 && (s % 2 == 0) == even
    ensures PatternAt(even, s, k) == if k < s then (32 - s + k) % 2 == 0 else (SYNC + SYNC)[k - s]
  {
  }

  /** No pair of sync words begins at one of these bits. */
  ghost predicate Quiet(r: Bits, from: nat, to: nat)
    requires to + 32 <= |r| + 1
  {
    forall o: nat :: from <= o < to ==> !SyncPair(r, o)
  }

  /** If there is nothing but the key of p from word q on, it is found. */
  lemma FindsKey(ws: seq<Ushort>, lim: nat, q: nat, p: Place)
    requires p.shift < 16 && 2 <= q <= p.pos + 2 && p.pos + 4 < lim <= |ws| && KeyAt(Raw(ws), p.Bit())
    requires Quiet(Raw(ws), 16 * q, p.Bit() + 32)
    ensures Found(ws, q, lim) == Some(p)
    decreases p.pos + 2 - q
  {
    if q == p.pos + 2 {
      LeadIsKey(ws, p);
      FoundHere(ws, q, lim, p.shift);
    } else {
      forall s: nat
        ensures !Key(ws, q, s)
      {
        if Key(ws, q, s) {
          KeyHasSync(ws, q, s);
        }
      }
      FoundLater(ws, q, lim);
      FindsKey(ws, lim, q + 1, p);
    }
  }

  /** Before a sector's key, bits that obey the rule up to the key's sync words hold no pair of sync words,
      and none overlaps the key's own. */
  lemma RuleIsQuiet(r: Bits, from: nat, at: nat, phase: nat)
    requires from <= at && at + 64 <= |r| && phase <= 1 && KeyAt(r, at) && ObeysRule(r[from..at + 32], phase)
    ensures Quiet(r, from, at + 32)
  {
    forall o: nat | from <= o < at + 32
      ensures !SyncPair(r, o)
    {
      if SyncPair(r, o) {
        assert (SYNC + SYNC)[..16] == SYNC;
        assert r[o..o + 32][..16] == r[o..o + 16];
        if o <= at + 16 {
          SyncBreaksRule(r[from..at + 32], phase, o - from);
          SliceOfSlice(r, from, at + 32 - from, o - from, 16);
        } else {
          NoOverlap(r, at, o);
        }
      }
    }
  }

  lemma NoOverlap(r: Bits, at: nat, o: nat)
    requires at + 64 <= |r| && KeyAt(r, at) && at + 16 < o < at + 32
    ensures r[o..o + 16] != SYNC
  {
    var w := r[o..o + 16];
    KeyBit(r, at, o - at);
    KeyBit(r, at, o - at + 1);
    KeyBit(r, at, o - at + 2);
    KeyBit(r, at, o - at + 3);
    KeyBit(r, at, o - at + 4);
    assert w[0] == r[o] && w[1] == r[o + 1] && w[2] == r[o + 2] && w[3] == r[o + 3] && w[4] == r[o + 4];
  }

  // ----- get

  const WORDS: nat := 128      // ulongs of data in a sector
  const SECTOR: nat := 544     // ushorts of a recorded sector

  datatype Id = Id(sec: nat, ord: int)

  /** What can be seen on a raw track: the acceptable sectors, and the keys find would stop at. */
  datatype Disk = Disk(sector: Place -> Option<Id>, found: nat -> Option<Place>)

  /** Sectors pass in order of their numbers, 0 after the last. */
  function After(sec: nat): nat
  {
    if sec + 1 == NSEC then 0 else sec + 1
  }

  function Following(d: Disk, p: Place, n: int): Option<Place>
  {
    if n == 0 then d.found(p.pos + SECTOR + 2) else Some(Place(p.pos + SECTOR, p.shift))
  }

  function Joined(a: seq<Place>, b: Option<seq<Place>>): Option<seq<Place>>
  {
    if b.None? then None else Some(a + b.value)
  }

  /** The sectors still to come are counted down, from eleven again after the last that was written. */
  function Count(n: int): int
  {
    if n == 1 then NSEC else n - 1
  }

  /** The places of `left` sectors, the first of them at f; None if one of them is not acceptable or not the
      one that should come next. */
  function Taken(d: Disk, f: Option<Place>, id: Id, left: nat): (ps: Option<seq<Place>>)
    requires 0 < left
    decreases left
  {
    if f.None? || d.sector(f.value) != Some(id) then None
    else if left == 1 then Some([f.value])
    else Joined([f.value], Taken(d, Following(d, f.value, id.ord - 1), Id(After(id.sec), Count(id.ord)), left - 1))
  }

  function Gets(d: Disk): (ps: Option<seq<Place>>)
  {
    var f := d.found(2);
    if f.None? || d.sector(f.value).None? then None else Taken(d, f, d.sector(f.value).value, NSEC)
  }

  /** Which sector is the i-th to pass. */
  function Nth(first: nat, i: nat): nat
  {
    if first + i < NSEC then first + i else first + i - NSEC
  }

  /** Place i of ps holds the sector that it should, before the next place. */
  ghost predicate TakenAt(d: Disk, ps: seq<Place>, sec: nat, i: nat)
    requires i < |ps|
  {
    && d.sector(ps[i]).Some? && d.sector(ps[i]).value.sec == Nth(sec, i)
    && (i + 1 < |ps| ==> ps[i].pos + SECTOR <= ps[i + 1].pos)
  }

  /** The search goes forward. */
  ghost predicate Forward(d: Disk)
  {
    forall q: nat :: 2 <= q && d.found(q).Some? ==> q <= d.found(q).value.pos + 2
  }

  lemma {:induction false} TakenAre(d: Disk, f: Option<Place>, id: Id, left: nat)
    requires Forward(d) && 0 < left <= NSEC && id.sec < NSEC && Taken(d, f, id, left).Some?
    ensures var ps := Taken(d, f, id, left).value;
            |ps| == left && f == Some(ps[0]) && forall i: nat :: i < left ==> TakenAt(d, ps, id.sec, i)
    decreases left
  {
    if left > 1 {
      var g, id' := Following(d, f.value, id.ord - 1), Id(After(id.sec), Count(id.ord));
      TakenAre(d, g, id', left - 1);
      var more := Taken(d, g, id', left - 1).value;
      var ps := [f.value] + more;
      assert Taken(d, f, id, left) == Some(ps);
      forall i: nat | i < left
        ensures TakenAt(d, ps, id.sec, i)
      {
        if i > 0 {
          assert TakenAt(d, more, After(id.sec), i - 1);
          assert ps[i] == more[i - 1] && (i + 1 < left ==> ps[i + 1] == more[i]);
        }
      }
    }
  }

  ghost predicate HasSector(d: Disk, ps: seq<Place>, sec: nat)
  {
    exists i: nat :: i < |ps| && d.sector(ps[i]).Some? && d.sector(ps[i]).value.sec == sec
  }

  /** When get succeeds it has taken every sector of the track once, from eleven places that do not overlap. */
  lemma EverySectorOnce(d: Disk)
    requires Forward(d) && Gets(d).Some? && forall p :: d.sector(p).Some? ==> d.sector(p).value.sec < NSEC
    ensures var ps := Gets(d).value;
            && |ps| == NSEC && (forall p :: p in ps ==> d.sector(p).Some?)
            && (forall sec: nat :: sec < NSEC ==> HasSector(d, ps, sec))
            && forall i: nat :: i + 1 < NSEC ==> ps[i].pos + SECTOR <= ps[i + 1].pos
  {
    var id := d.sector(d.found(2).value).value;
    TakenAre(d, d.found(2), id, NSEC);
    var ps := Gets(d).value;
    forall i: nat | i < NSEC
      ensures d.sector(ps[i]).Some? && d.sector(ps[i]).value.sec == Nth(id.sec, i)
      ensures i + 1 < NSEC ==> ps[i].pos + SECTOR <= ps[i + 1].pos
    {
      assert TakenAt(d, ps, id.sec, i);
    }
    forall sec: nat | sec < NSEC
      ensures HasSector(d, ps, sec)
    {
      var i: nat := if id.sec <= sec then sec - id.sec else sec + NSEC - id.sec;
      assert d.sector(ps[i]).value.sec == Nth(id.sec, i) == sec;
    }
  }

  lemma TakenLast(d: Disk, ps: seq<Place>, p: Place, id: Id)
    requires d.sector(p) == Some(id)
    ensures Joined(ps, Taken(d, Some(p), id, 1)) == Some(ps + [p])
  {
  }

  lemma TakenMore(d: Disk, ps: seq<Place>, p: Place, id: Id, left: nat)
    requires d.sector(p) == Some(id) && 1 < left
    ensures Joined(ps, Taken(d, Some(p), id, left))
         == Joined(ps + [p], Taken(d, Following(d, p, id.ord - 1), Id(After(id.sec), Count(id.ord)), left - 1))
  {
    var more := Taken(d, Following(d, p, id.ord - 1), Id(After(id.sec), Count(id.ord)), left - 1);
    if more.Some? {
      assert ps + ([p] + more.value) == ps + [p] + more.value;
    }
  }

  lemma JoinedNone(b: Option<seq<Place>>)
    ensures Joined([], b) == b
  {
    if b.Some? {
      assert [] + b.value == b.value;
    }
  }

  // ----- the disk that the words hold

  ghost predicate HeaderFits(ws: seq<Ushort>, lim: nat, track: nat, p: Place)
    requires lim <= |ws|
  {
    p.shift < 16 && p.pos + SECTOR + 1 <= lim && KeyAt(Raw(ws), p.Bit()) && HeaderAt(Raw(ws), p.Bit() + 64, track)
  }

  /** There is an acceptable sector at p. */
  ghost predicate SectorAt(ws: seq<Ushort>, lim: nat, track: nat, p: Place)
    requires lim <= |ws|
  {
    HeaderFits(ws, lim, track, p) && DataAt(Raw(ws), p.Bit() + 448, WORDS)
  }

  ghost predicate InTrack(ws: seq<Ushort>, p: Place)
  {
    p.shift < 16 && p.pos + SECTOR < |ws|
  }

  ghost function IdAt(ws: seq<Ushort>, p: Place): Id
    requires InTrack(ws, p)
  {
    var w := FieldAt(Raw(ws), p.Bit() + 64, 1)[0];
    Id(ByteOf(w, 2), ByteOf(w, 3))
  }

  ghost function DataOf(ws: seq<Ushort>, p: Place): seq<Ulong>
    requires InTrack(ws, p)
  {
    FieldAt(Raw(ws), p.Bit() + 512, WORDS)
  }

  ghost function SectorId(ws: seq<Ushort>, lim: nat, track: nat, p: Place): Option<Id>
    requires lim + 2 <= |ws|
  {
    if SectorAt(ws, lim, track, p) then Some(IdAt(ws, p)) else None
  }

  ghost function Seen(ws: seq<Ushort>, lim: nat, track: nat): (d: Disk)
    requires lim + 2 <= |ws|
  {
    Disk((p: Place) => SectorId(ws, lim, track, p), (q: nat) => if 2 <= q then Found(ws, q, lim) else None)
  }

  /** So get's success means eleven different sectors, all of them acceptable. */
  lemma SeenEverySectorOnce(ws: seq<Ushort>, lim: nat, track: nat)
    requires lim + 2 <= |ws| && Gets(Seen(ws, lim, track)).Some?
    ensures var d := Seen(ws, lim, track); var ps := Gets(d).value;
            && |ps| == NSEC && (forall p :: p in ps ==> SectorAt(ws, lim, track, p))
            && (forall sec: nat :: sec < NSEC ==> HasSector(d, ps, sec))
            && forall i: nat :: i + 1 < NSEC ==> ps[i].pos + SECTOR <= ps[i + 1].pos
  {
    var d := Seen(ws, lim, track);
    forall p | d.sector(p).Some?
      ensures d.sector(p).value.sec < NSEC
    {
      SectorSec(ws, lim, track, p);
    }
    EverySectorOnce(d);
  }

  lemma SectorSec(ws: seq<Ushort>, lim: nat, track: nat, p: Place)
    requires lim + 2 <= |ws| && HeaderFits(ws, lim, track, p)
    ensures InTrack(ws, p) && IdAt(ws, p).sec < NSEC
  {
  }

  // ----- the method

  /** gethdr at a place. */
  method HeaderOf(raw: array<Ushort>, p: Place, lim: nat, track: nat) returns (ok: bool, id: Id)
    requires p.shift < 16 && p.pos <= lim && lim + 2 <= raw.Length
    ensures ok <==> HeaderFits(raw[..], lim, track, p)
    ensures ok ==> id == IdAt(raw[..], p) && id.sec < NSEC
  {
    var w;
    ok, w := GetHdr(raw, p.pos, p.shift, lim, track, WORDS);
    id := Id(ByteOf(w, 2), ByteOf(w, 3));
  }

  /** A sector's data, taken into its place in the buffer. */
  method DataInto(raw: array<Ushort>, p: Place, to: array<Ulong>) returns (ok: bool)
    requires to.Length == WORDS && p.shift < 16 && p.pos + SECTOR + 2 <= raw.Length
    modifies to
    ensures ok <==> DataAt(Raw(raw[..]), p.Bit() + 448, WORDS)
    ensures to[..] == FieldAt(Raw(raw[..]), p.Bit() + 512, WORDS)
  {
    assert 16 * (p.pos + 28) + p.shift == p.Bit() + 448;
    ok := CheckData(raw, p.pos + 28, p.shift, to);
  }

  /** gethdr has accepted the header at p. */
  ghost predicate HeaderIs(ws: seq<Ushort>, lim: nat, track: nat, p: Place, id: Id)
    requires lim + 2 <= |ws|
  {
    InTrack(ws, p) && HeaderFits(ws, lim, track, p) && IdAt(ws, p) == id && p.pos + SECTOR < lim && id.sec < NSEC
  }

  /** gethdr for the sector that should come next. */
  method NextHeader(raw: array<Ushort>, f: Option<Place>, lim: nat, track: nat, id: Id) returns (ok: bool)
    requires lim + 2 <= raw.Length && id.sec < NSEC && (f.Some? ==> f.value.shift < 16 && f.value.pos <= lim)
    ensures ok <==> f.Some? && HeaderIs(raw[..], lim, track, f.value, id)
  {
    if f.None? {
      return false;
    }
    var id';
    ok, id' := HeaderOf(raw, f.value, lim, track);
    ok := ok && id' == id;
  }

  /** Where the next sector is: right after the last one, or, after the last one that was written, where its
      key is found. */
  method Advance(raw: array<Ushort>, p: Place, lim: nat, ghost track: nat, n: int) returns (f: Option<Place>)
    requires p.pos + SECTOR <= lim && lim + 2 <= raw.Length && p.shift < 16
    ensures f == Following(Seen(raw[..], lim, track), p, n)
    ensures f.Some? ==> f.value.shift < 16 && f.value.pos <= lim
  {
    f := Some(Place(p.pos + SECTOR, p.shift));
    if n == 0 {
      f := Find(raw, p.pos + SECTOR, lim);
    }
  }

  ghost predicate Going(d: Disk, ps: seq<Place>, first: nat, p: Place, id: Id)
  {
    first < NSEC && |ps| < NSEC && id.sec == Nth(first, |ps|) && Gets(d) == Joined(ps, Taken(d, Some(p), id, NSEC - |ps|))
  }

  /** A header that is not there, or a sector whose data are wrong, ends it. */
  lemma Stops(d: Disk, ps: seq<Place>, f: Option<Place>, id: Id)
    requires |ps| < NSEC && Gets(d) == Joined(ps, Taken(d, f, id, NSEC - |ps|)) && (f.None? || d.sector(f.value) != Some(id))
    ensures Gets(d).None?
  {
  }

  lemma NoSectorHere(ws: seq<Ushort>, lim: nat, track: nat, p: Place, id: Id)
    requires lim + 2 <= |ws| && (HeaderIs(ws, lim, track, p, id) ==> !DataAt(Raw(ws), p.Bit() + 448, WORDS)) && id.sec < NSEC
    ensures SectorId(ws, lim, track, p) != Some(id)
  {
  }

  lemma SectorHere(ws: seq<Ushort>, lim: nat, track: nat, p: Place, id: Id)
    requires lim + 2 <= |ws| && HeaderIs(ws, lim, track, p, id) && DataAt(Raw(ws), p.Bit() + 448, WORDS)
    ensures SectorId(ws, lim, track, p) == Some(id)
  {
  }

  lemma GoesOn(d: Disk, ps: seq<Place>, first: nat, p: Place, id: Id)
    requires |ps| + 1 < NSEC && Going(d, ps, first, p, id) && d.sector(p) == Some(id)
    ensures var id' := Id(After(id.sec), Count(id.ord));
            Gets(d) == Joined(ps + [p], Taken(d, Following(d, p, id.ord - 1), id', NSEC - |ps| - 1)) && id'.sec == Nth(first, |ps| + 1)
  {
    TakenMore(d, ps, p, id, NSEC - |ps|);
  }

  predicate Buffers(buffer: seq<array<Ulong>>)
  {
    |buffer| == NSEC && (forall i: nat :: i < NSEC ==> buffer[i].Length == WORDS)
    && forall i: nat, j: nat :: i < j < NSEC ==> buffer[i] != buffer[j]
  }

  /** The data of the sectors at ps are in the buffer. */
  ghost predicate Stored(ws: seq<Ushort>, ps: seq<Place>, first: nat, buffer: seq<array<Ulong>>)
    requires |buffer| == NSEC && first < NSEC && |ps| <= NSEC
    reads buffer
  {
    forall i: nat :: i < |ps| ==> InTrack(ws, ps[i]) && buffer[Nth(first, i)][..] == DataOf(ws, ps[i])
  }

  /** What get answers: the sectors from number `first` on, all in their places, or FALSE. */
  ghost predicate Answers(ws: seq<Ushort>, lim: nat, track: nat, ok: bool, buffer: seq<array<Ulong>>)
    requires lim + 2 <= |ws| && |buffer| == NSEC
    reads buffer
  {
    var d := Seen(ws, lim, track);
    if ok then
      var ps := Gets(d);
      ps.Some? && |ps.value| == NSEC && d.sector(ps.value[0]).Some? && d.sector(ps.value[0]).value.sec < NSEC
      && Stored(ws, ps.value, d.sector(ps.value[0]).value.sec, buffer)
    else Gets(d).None?
  }

  /** One turn of get's loop, up to the count of the sectors. */
  method TakeSector(raw: array<Ushort>, lim: nat, track: nat, buffer: seq<array<Ulong>>, p: Place, id: Id,
                    ghost ps: seq<Place>, ghost first: nat) returns (ok: bool)
    requires lim + 2 <= raw.Length && Buffers(buffer)
    requires HeaderIs(raw[..], lim, track, p, id)
    requires first < NSEC && |ps| < NSEC && id.sec == Nth(first, |ps|) && Stored(raw[..], ps, first, buffer)
    modifies buffer
    ensures ok <==> SectorId(raw[..], lim, track, p) == Some(id)
    ensures ok ==> Stored(raw[..], ps + [p], first, buffer)
  {
    ok := DataInto(raw, p, buffer[id.sec]);
    if ok {
      SectorHere(raw[..], lim, track, p, id);
    } else {
      NoSectorHere(raw[..], lim, track, p, id);
    }
  }

  method Follow(raw: array<Ushort>, lim: nat, track: nat, p: Place, id: Id)
    returns (ok: bool, p': Place, id': Id, ghost f: Option<Place>)
    requires lim + 2 <= raw.Length && p.shift < 16 && p.pos + SECTOR <= lim && id.sec < NSEC
    ensures f == Following(Seen(raw[..], lim, track), p, id.ord - 1) && id' == Id(After(id.sec), Count(id.ord))
    ensures ok <==> f.Some? && HeaderIs(raw[..], lim, track, f.value, id')
    ensures ok ==> f == Some(p')
  {
    var sec := if id.sec + 1 == NSEC then 0 else id.sec + 1;
    var g := Advance(raw, p, lim, track, id.ord - 1);
    id' := Id(sec, if id.ord - 1 == 0 then NSEC else id.ord - 1);
    ok := NextHeader(raw, g, lim, track, id');
    p' := if ok then g.value else p;
    f := g;
  }

  /** The next sector is there, or get's answer is FALSE. */
  lemma MovesOrStops(d: Disk, ps: seq<Place>, first: nat, p: Place, id: Id, f: Option<Place>, id': Id, there: bool)
    requires |ps| + 1 < NSEC && Going(d, ps, first, p, id) && d.sector(p) == Some(id)
    requires f == Following(d, p, id.ord - 1) && id' == Id(After(id.sec), Count(id.ord))
    requires if there then f.Some? else f.None? || d.sector(f.value) != Some(id')
    ensures if there then Going(d, ps + [p], first, f.value, id') else Gets(d).None?
  {
    GoesOn(d, ps, first, p, id);
    if !there {
      Stops(d, ps + [p], f, id');
    }
  }

  lemma NotThere(ws: seq<Ushort>, lim: nat, track: nat, f: Option<Place>, id: Id)
    requires lim + 2 <= |ws| && id.sec < NSEC && !(f.Some? && HeaderIs(ws, lim, track, f.value, id))
    ensures f.None? || SectorId(ws, lim, track, f.value) != Some(id)
  {
    if f.Some? {
      NoSectorHere(ws, lim, track, f.value, id);
    }
  }

  /** The rest of the turn: on to the next sector. */
  method MoveOn(raw: array<Ushort>, lim: nat, track: nat, p: Place, id: Id, ghost ps: seq<Place>, ghost first: nat)
    returns (ok: bool, p': Place, id': Id)
    requires lim + 2 <= raw.Length && |ps| + 1 < NSEC && HeaderIs(raw[..], lim, track, p, id)
    requires Going(Seen(raw[..], lim, track), ps, first, p, id) && SectorId(raw[..], lim, track, p) == Some(id)
    ensures if ok then Going(Seen(raw[..], lim, track), ps + [p], first, p', id') && HeaderIs(raw[..], lim, track, p', id')
            else Gets(Seen(raw[..], lim, track)).None?
  {
    ghost var f;
    ok, p', id', f := Follow(raw, lim, track, p, id);
    if !ok {
      NotThere(raw[..], lim, track, f, id');
    }
    MovesOrStops(Seen(raw[..], lim, track), ps, first, p, id, f, id', ok);
  }

  lemma StartsGoing(d: Disk, p: Place, id: Id)
    requires d.found(2) == Some(p) && id.sec < NSEC && (d.sector(p).Some? ==> d.sector(p).value == id)
    ensures Going(d, [], id.sec, p, id)
  {
    JoinedNone(Taken(d, Some(p), id, NSEC));
  }

  lemma NeverStarts(ws: seq<Ushort>, lim: nat, track: nat)
    requires lim + 2 <= |ws| && (Found(ws, 2, lim).None? || !HeaderFits(ws, lim, track, Found(ws, 2, lim).value))
    ensures Gets(Seen(ws, lim, track)).None?
  {
  }

  lemma StartsHere(ws: seq<Ushort>, lim: nat, track: nat, p: Place, id: Id)
    requires lim + 2 <= |ws| && Found(ws, 2, lim) == Some(p) && HeaderIs(ws, lim, track, p, id)
    ensures Going(Seen(ws, lim, track), [], id.sec, p, id)
  {
    StartsGoing(Seen(ws, lim, track), p, id);
  }

  method FirstHeader(raw: array<Ushort>, lim: nat, track: nat) returns (ok: bool, p: Place, id: Id)
    requires lim + 2 <= raw.Length
    ensures ok ==> Found(raw[..], 2, lim) == Some(p) && HeaderIs(raw[..], lim, track, p, id)
    ensures !ok ==> Found(raw[..], 2, lim).None? || !HeaderFits(raw[..], lim, track, Found(raw[..], 2, lim).value)
  {
    p, id := Place(0, 0), Id(0, 0);
    var f := Find(raw, 0, lim);
    if f.None? {
      return false, p, id;
    }
    p := f.value;
    ok, id := HeaderOf(raw, p, lim, track);
  }

  /** get, after the track has been read: TRUE exactly if the sectors could be taken one after the other. */
  method Get(raw: array<Ushort>, lim: nat, track: nat, buffer: seq<array<Ulong>>) returns (ok: bool)
    requires lim + 2 <= raw.Length && Buffers(buffer)
    modifies buffer
    ensures Answers(raw[..], lim, track, ok, buffer)
  {
    var p, id;
    ok, p, id := FirstHeader(raw, lim, track);
    if !ok {
      NeverStarts(raw[..], lim, track);
      return false;
    }
    StartsHere(raw[..], lim, track, p, id);
    ok := GetFrom(raw, lim, track, buffer, p, id);
  }

  method GetFrom(raw: array<Ushort>, lim: nat, track: nat, buffer: seq<array<Ulong>>, start: Place, startId: Id) returns (ok: bool)
    requires lim + 2 <= raw.Length && Buffers(buffer)
    requires HeaderIs(raw[..], lim, track, start, startId) && Going(Seen(raw[..], lim, track), [], startId.sec, start, startId)
    modifies buffer
    ensures Answers(raw[..], lim, track, ok, buffer)
  {
    ghost var ws, ps, first := raw[..], [], startId.sec;
    ghost var d := Seen(ws, lim, track);
    var p, id, nsec := start, startId, 0;
    while true
      invariant |ps| == nsec < NSEC && raw[..] == ws
      invariant Going(d, ps, first, p, id) && HeaderIs(ws, lim, track, p, id) && Stored(ws, ps, first, buffer)
      invariant if nsec == 0 then p == start && id == startId else ps[0] == start && d.sector(start) == Some(startId)
      decreases NSEC - nsec
    {
      ok := TakeSector(raw, lim, track, buffer, p, id, ps, first);
      if !ok {
        Stops(d, ps, Some(p), id);
        return false;
      }
      nsec := nsec + 1;
      if nsec == NSEC {
        TakenLast(d, ps, p, id);
        return true;
      }
      ghost var taken := ps + [p];
      ok, p, id := MoveOn(raw, lim, track, p, id, ps, first);
      if !ok {
        return false;
      }
      ps := taken;
    }
  }

  // ----- a track that was written is read

  const TRKSLOP: nat := 415    // ulongs of slop before the first sector

  function Start(sec: nat): nat
  {
    TRKSLOP + 272 * sec
  }

  /** Sector sec of a track as it is written. */
  ghost predicate PutAt(words: seq<Ulong>, track: nat, sec: nat, data: seq<Ulong>)
    requires sec < NSEC && Start(sec + 1) <= |words|
  {
    exists before: bool :: Flat(words[Start(sec)..Start(sec + 1)]) == SectorBits(before, Fields(track, sec, data))
  }

  /** Slop, and the first n sectors. */
  ghost predicate PutUpTo(words: seq<Ulong>, track: nat, datas: seq<seq<Ulong>>, n: nat)
    requires n <= NSEC == |datas| && Start(NSEC) <= |words|
  {
    && Flat(words[..TRKSLOP]) == Stream(false, Zeros(16 * TRKSLOP))
    && forall sec: nat :: sec < n ==> PutAt(words, track, sec, datas[sec])
  }

  lemma PutMore(was: seq<Ulong>, now: seq<Ulong>, track: nat, datas: seq<seq<Ulong>>, n: nat)
    requires n < NSEC == |datas| && Start(NSEC) <= |was| == |now| && PutUpTo(was, track, datas, n)
    requires forall k: nat :: k < Start(n) ==> now[k] == was[k]
    requires PutAt(now, track, n, datas[n])
    ensures PutUpTo(now, track, datas, n + 1)
  {
    assert now[..TRKSLOP] == was[..TRKSLOP];
    forall sec: nat | sec < n
      ensures PutAt(now, track, sec, datas[sec])
    {
      PutStays(was, now, track, sec, datas[sec]);
    }
  }

  lemma PutStays(was: seq<Ulong>, now: seq<Ulong>, track: nat, sec: nat, data: seq<Ulong>)
    requires sec < NSEC && Start(sec + 1) <= |was| == |now| && PutAt(was, track, sec, data)
    requires forall k: nat :: k < Start(sec + 1) ==> now[k] == was[k]
    ensures PutAt(now, track, sec, data)
  {
    assert now[Start(sec)..Start(sec + 1)] == was[Start(sec)..Start(sec + 1)];
  }

  method PutNext(t: Track, track: nat, n: nat, data: array<Ulong>, ghost datas: seq<seq<Ulong>>)
    requires n < NSEC == |datas| && t.next == Start(n) && t.mfmbuf.Length >= Start(NSEC)
    requires data.Length == WORDS && data[..] == datas[n] && data != t.mfmbuf
    requires PutUpTo(t.mfmbuf[..], track, datas, n)
    modifies t`next, t.mfmbuf
    ensures t.next == Start(n + 1) && PutUpTo(t.mfmbuf[..], track, datas, n + 1)
  {
    ghost var was := t.mfmbuf[..];
    t.PutSec(track, n, data);
    assert t.mfmbuf[..][Start(n)..Start(n + 1)] == t.mfmbuf[Start(n)..Start(n + 1)];
    PutMore(was, t.mfmbuf[..], track, datas, n);
  }

  /** The last word of slop: zeros after the last data bit, but with the last clock bit left 0. */
  function LastSlop(before: bool): (w: Ushort)
  {
    if before then Hex(0x2, 0xA, 0xA, 0x8) else Hex(0xA, 0xA, 0xA, 0x8)
  }

  lemma LastSlopIs(before: bool)
    ensures LastSlop(before) == Stream(before, Zeros(8))[14 := false]
  {
    var w, s := LastSlop(before), Stream(before, Zeros(8))[14 := false];
    forall i: nat | i < 16
      ensures w[i] == s[i]
    {
      SlopBits(before, i / 2, s);
      assert i == 2 * (i / 2) || i == 2 * (i / 2) + 1;
    }
  }

  lemma SlopBits(before: bool, j: nat, s: Bits)
    requires j < 8 && s == Stream(before, Zeros(8))[14 := false]
    ensures LastSlop(before)[2 * j] == s[2 * j] && LastSlop(before)[2 * j + 1] == s[2 * j + 1]
  {
    StreamAt(before, Zeros(8), j);
    SlopBit(before, j);
  }

  lemma SlopBit(before: bool, j: nat)
    requires j < 8
    ensures LastSlop(before)[2 * j] == (j != 7 && !(j == 0 && before)) && LastSlop(before)[2 * j + 1] == false
  {
  }

  /** fdputaml: slop, the sectors in order, and one more word of slop. */
  method PutTrack(t: Track, track: nat, buffer: seq<array<Ulong>>, ghost datas: seq<seq<Ulong>>) returns (last: Ushort)
    requires t.next == 0 && t.mfmbuf.Length >= Start(NSEC) && |buffer| == |datas| == NSEC
    requires forall i: nat :: i < NSEC ==> buffer[i] != t.mfmbuf && buffer[i].Length == WORDS && buffer[i][..] == datas[i]
    modifies t`next, t.mfmbuf
    ensures t.next == Start(NSEC) && PutUpTo(t.mfmbuf[..], track, datas, NSEC)
    ensures last == Stream(t.mfmbuf[Start(NSEC) - 1][31], Zeros(8))[14 := false]
  {
    t.PutSlop(TRKSLOP);
    assert t.mfmbuf[..][..TRKSLOP] == t.mfmbuf[..TRKSLOP];
    for n := 0 to NSEC
      invariant t.next == Start(n) && PutUpTo(t.mfmbuf[..], track, datas, n)
    {
      PutNext(t, track, n, buffer[n], datas);
    }
    var before := t.mfmbuf[t.next - 1][31];
    LastSlopIs(before);
    last := if before then Hex(0x2, 0xA, 0xA, 0x8) else Hex(0xA, 0xA, 0xA, 0x8);
  }

  /** putsec's bits for this sector and this data lie at p. */
  ghost predicate WrittenAt(ws: seq<Ushort>, lim: nat, track: nat, p: Place, sec: nat, data: seq<Ulong>)
    requires lim + 2 <= |ws| && sec < NSEC && |data| == WORDS
  {
    && p.shift < 16 && p.pos + SECTOR + 1 <= lim
    && exists before: bool :: IsSector(Raw(ws), p.Bit(), before, Fields(track, sec, data))
  }

  ghost predicate IsSector(r: Bits, at: nat, before: bool, fields: Bits)
    requires at + 16 * SECTOR <= |r|
  {
    r[at..at + 16 * SECTOR] == SectorBits(before, fields)
  }

  /** The disk shows sector `first` first, and the others one right after the other; after the last one its
      search finds the next. */
  ghost predicate Passing(d: Disk, first: nat, ps: seq<Place>)
  {
    && first < NSEC && |ps| == NSEC && d.found(2) == Some(ps[0])
    && forall i: nat :: i < NSEC ==> Passes(d, first, ps, i)
  }

  ghost predicate Passes(d: Disk, first: nat, ps: seq<Place>, i: nat)
    requires i < |ps|
  {
    && d.sector(ps[i]) == Some(Id(Nth(first, i), NSEC - Nth(first, i)))
    && (i + 1 < |ps| ==> if Nth(first, i) == NSEC - 1 then d.found(ps[i].pos + SECTOR + 2) == Some(ps[i + 1])
                         else ps[i + 1] == Place(ps[i].pos + SECTOR, ps[i].shift))
  }

  lemma {:induction false} PassingTaken(d: Disk, first: nat, ps: seq<Place>, i: nat)
    requires Passing(d, first, ps) && i < NSEC
    ensures var sec := Nth(first, i); Taken(d, Some(ps[i]), Id(sec, NSEC - sec), NSEC - i) == Some(ps[i..])
    decreases NSEC - i
  {
    var sec := Nth(first, i);
    assert Passes(d, first, ps, i);
    if i + 1 == NSEC {
      assert ps[i..] == [ps[i]];
    } else {
      PassingTaken(d, first, ps, i + 1);
      assert ps[i..] == [ps[i]] + ps[i + 1..];
      assert After(sec) == Nth(first, i + 1);
    }
  }

  lemma PassingIsGot(d: Disk, first: nat, ps: seq<Place>)
    requires Passing(d, first, ps)
    ensures Gets(d) == Some(ps)
  {
    PassingTaken(d, first, ps, 0);
    assert Passes(d, first, ps, 0);
    assert ps[0..] == ps;
  }

  lemma WrittenIsSeen(ws: seq<Ushort>, lim: nat, track: nat, p: Place, sec: nat, data: seq<Ulong>)
    requires lim + 2 <= |ws| && sec < NSEC && |data| == WORDS && track < TRACKS && WrittenAt(ws, lim, track, p, sec, data)
    ensures InTrack(ws, p) && SectorId(ws, lim, track, p) == Some(Id(sec, NSEC - sec)) && DataOf(ws, p) == data
    ensures KeyAt(Raw(ws), p.Bit())
  {
    var before: bool :| IsSector(Raw(ws), p.Bit(), before, Fields(track, sec, data));
    SectorRoundTrip(Raw(ws), p.Bit(), before, track, sec, data);
  }

  /** Sector i, and how the next one follows it: right after it, or after a gap. */
  ghost predicate Lies(ws: seq<Ushort>, lim: nat, track: nat, first: nat, ps: seq<Place>, datas: seq<seq<Ulong>>, i: nat)
    requires lim + 2 <= |ws| && first < NSEC && |ps| == |datas| == NSEC && i < NSEC
  {
    var sec := Nth(first, i);
    && |datas[sec]| == WORDS && WrittenAt(ws, lim, track, ps[i], sec, datas[sec])
    && (i + 1 < NSEC ==> if sec == NSEC - 1 then Gap(ws, lim, ps[i].pos + SECTOR, ps[i + 1])
                         else ps[i + 1] == Place(ps[i].pos + SECTOR, ps[i].shift))
  }

  /** Between word `end` and the key at p there is no pair of sync words. */
  ghost predicate Gap(ws: seq<Ushort>, lim: nat, end: nat, p: Place)
    requires lim + 2 <= |ws|
  {
    p.shift < 16 && end <= p.pos && p.pos + SECTOR + 1 <= lim && Quiet(Raw(ws), 16 * (end + 2), p.Bit() + 32)
  }

  /** What the head has read: the sectors that putsec wrote, in order from some sector on, with gaps before the
      first of them and after the last that was written. */
  ghost predicate TrackLies(ws: seq<Ushort>, lim: nat, track: nat, first: nat, ps: seq<Place>, datas: seq<seq<Ulong>>)
  {
    && lim + 2 <= |ws| && first < NSEC && |ps| == |datas| == NSEC && track < TRACKS
    && Gap(ws, lim, 0, ps[0])
    && forall i: nat :: i < NSEC ==> Lies(ws, lim, track, first, ps, datas, i)
  }

  lemma LiesShown(ws: seq<Ushort>, lim: nat, track: nat, first: nat, ps: seq<Place>, datas: seq<seq<Ulong>>, i: nat)
    requires TrackLies(ws, lim, track, first, ps, datas) && i < NSEC
    ensures InTrack(ws, ps[i]) && DataOf(ws, ps[i]) == datas[Nth(first, i)]
    ensures SectorId(ws, lim, track, ps[i]) == Some(Id(Nth(first, i), NSEC - Nth(first, i)))
  {
    LiesWritten(ws, lim, track, first, ps, datas, i);
    WrittenIsSeen(ws, lim, track, ps[i], Nth(first, i), datas[Nth(first, i)]);
  }

  lemma LiesWritten(ws: seq<Ushort>, lim: nat, track: nat, first: nat, ps: seq<Place>, datas: seq<seq<Ulong>>, i: nat)
    requires TrackLies(ws, lim, track, first, ps, datas) && i < NSEC
    ensures var sec := Nth(first, i); |datas[sec]| == WORDS && WrittenAt(ws, lim, track, ps[i], sec, datas[sec])
  {
    assert Lies(ws, lim, track, first, ps, datas, i);
  }

  lemma LiesThen(ws: seq<Ushort>, lim: nat, track: nat, first: nat, ps: seq<Place>, datas: seq<seq<Ulong>>, i: nat)
    requires TrackLies(ws, lim, track, first, ps, datas) && i + 1 < NSEC
    ensures if Nth(first, i) == NSEC - 1 then Gap(ws, lim, ps[i].pos + SECTOR, ps[i + 1])
            else ps[i + 1] == Place(ps[i].pos + SECTOR, ps[i].shift)
  {
    assert Lies(ws, lim, track, first, ps, datas, i);
  }

  lemma FoundAfterGap(ws: seq<Ushort>, lim: nat, track: nat, end: nat, p: Place, sec: nat, data: seq<Ulong>)
    requires lim + 2 <= |ws| && sec < NSEC && |data| == WORDS && track < TRACKS && WrittenAt(ws, lim, track, p, sec, data)
    requires Gap(ws, lim, end, p)
    ensures Found(ws, end + 2, lim) == Some(p)
  {
    WrittenIsSeen(ws, lim, track, p, sec, data);
    FindsKey(ws, lim, end + 2, p);
  }

  lemma {:induction false} GapThen(ws: seq<Ushort>, lim: nat, track: nat, end: nat, p: Place, sec: nat, datas: seq<seq<Ulong>>)
    requires lim + 2 <= |ws| && sec < NSEC == |datas| && track < TRACKS
    requires |datas[sec]| == WORDS && WrittenAt(ws, lim, track, p, sec, datas[sec]) && Gap(ws, lim, end, p)
    ensures Found(ws, end + 2, lim) == Some(p)
  {
    FoundAfterGap(ws, lim, track, end, p, sec, datas[sec]);
  }

  lemma {:induction false} LiesNext(ws: seq<Ushort>, lim: nat, track: nat, first: nat, ps: seq<Place>, datas: seq<seq<Ulong>>, i: nat)
    requires TrackLies(ws, lim, track, first, ps, datas) && i + 1 < NSEC
    ensures if Nth(first, i) == NSEC - 1 then Found(ws, ps[i].pos + SECTOR + 2, lim) == Some(ps[i + 1])
            else ps[i + 1] == Place(ps[i].pos + SECTOR, ps[i].shift)
  {
    LiesThen(ws, lim, track, first, ps, datas, i);
    if Nth(first, i) == NSEC - 1 {
      LiesWritten(ws, lim, track, first, ps, datas, i + 1);
      GapThen(ws, lim, track, ps[i].pos + SECTOR, ps[i + 1], Nth(first, i + 1), datas);
    }
  }

  lemma LiesPasses(ws: seq<Ushort>, lim: nat, track: nat, first: nat, ps: seq<Place>, datas: seq<seq<Ulong>>, i: nat)
    requires TrackLies(ws, lim, track, first, ps, datas) && i < NSEC
    ensures Passes(Seen(ws, lim, track), first, ps, i)
  {
    LiesShown(ws, lim, track, first, ps, datas, i);
    if i + 1 < NSEC {
      LiesNext(ws, lim, track, first, ps, datas, i);
    }
  }

  lemma FirstGap(ws: seq<Ushort>, lim: nat, track: nat, first: nat, ps: seq<Place>, datas: seq<seq<Ulong>>)
    requires TrackLies(ws, lim, track, first, ps, datas)
    ensures Gap(ws, lim, 0, ps[0])
  {
  }

  lemma FirstIsFound(ws: seq<Ushort>, lim: nat, track: nat, first: nat, ps: seq<Place>, datas: seq<seq<Ulong>>)
    requires TrackLies(ws, lim, track, first, ps, datas)
    ensures Found(ws, 2, lim) == Some(ps[0])
  {
    FirstGap(ws, lim, track, first, ps, datas);
    LiesWritten(ws, lim, track, first, ps, datas, 0);
    var sec := Nth(first, 0);
    FoundAfterGap(ws, lim, track, 0, ps[0], sec, datas[sec]);
  }

  lemma LiesPassing(ws: seq<Ushort>, lim: nat, track: nat, first: nat, ps: seq<Place>, datas: seq<seq<Ulong>>)
    requires TrackLies(ws, lim, track, first, ps, datas)
    ensures Passing(Seen(ws, lim, track), first, ps)
  {
    FirstIsFound(ws, lim, track, first, ps, datas);
    forall i: nat | i < NSEC
      ensures Passes(Seen(ws, lim, track), first, ps, i)
    {
      LiesPasses(ws, lim, track, first, ps, datas, i);
    }
  }

  /** A track whose sectors lie as they were written, at any bit alignment, beginning with any of them, is
      read, and the data of every sector are what was written. */
  lemma TrackRoundTrip(ws: seq<Ushort>, lim: nat, track: nat, first: nat, ps: seq<Place>, datas: seq<seq<Ulong>>)
    requires TrackLies(ws, lim, track, first, ps, datas)
    ensures Gets(Seen(ws, lim, track)) == Some(ps)
    ensures forall i: nat :: i < NSEC ==> InTrack(ws, ps[i]) && DataOf(ws, ps[i]) == datas[Nth(first, i)]
  {
    LiesPassing(ws, lim, track, first, ps, datas);
    PassingIsGot(Seen(ws, lim, track), first, ps);
    forall i: nat | i < NSEC
      ensures InTrack(ws, ps[i]) && DataOf(ws, ps[i]) == datas[Nth(first, i)]
    {
      LiesShown(ws, lim, track, first, ps, datas, i);
    }
  }
}
