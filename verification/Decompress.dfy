/**
 The boot loader's decompressor: codes of changing width taken out of the input, and the tables and the
 stack from which their strings are recovered.
 */
module Decompress {

  import opened Basics
  import opened Lzw

  /** Bits and bytes with the least significant bit first, as compressed files are packed. */
  type Bits = seq<bool>

  type Octet = o: Bits | |o| == 8 witness [false, false, false, false, false, false, false, false]

  const INIT_BITS: nat := 9

  function Number(bits: Bits): (n: nat)
  {
    if bits == [] then 0 else (if bits[0] then 1 else 0) + 2 * Number(bits[1..])
  }

  function Flat(bytes: seq<Octet>): (bits: Bits)
    ensures |bits| == 8 * |bytes|
  {
    if bytes == [] then [] else bytes[0] + Flat(bytes[1..])
  }

  lemma {:induction false} NumberFits(bits: Bits)
    ensures Number(bits) < Pow2(|bits|)
  {
    if bits != [] {
      NumberFits(bits[1..]);
    }
  }

  lemma Powers()
    ensures Pow2(9) == 512 && Pow2(12) == 4096 && Pow2(13) == 8192 && Pow2(14) == 16384 && Pow2(15) == 32768 && Pow2(16) == 65536
  {
    assert Pow2(3) == 8;
    assert Pow2(6) == 64;
    assert Pow2(9) == 512;
    assert Pow2(12) == 4096;
    assert Pow2(15) == 32768;
  }

  lemma {:induction false} FlatConcat(a: seq<Octet>, b: seq<Octet>)
    ensures Flat(a + b) == Flat(a) + Flat(b)
  {
    if a == [] {
      assert a + b == b;
    } else {
      assert (a + b)[1..] == a[1..] + b;
      FlatConcat(a[1..], b);
    }
  }

  lemma {:induction false} FlatAt(bytes: seq<Octet>, i: nat)
    requires i < |bytes|
    ensures Flat(bytes)[8 * i..8 * i + 8] == bytes[i]
  {
    if i > 0 {
      FlatAt(bytes[1..], i - 1);
      assert Flat(bytes)[8 * i..8 * i + 8] == Flat(bytes[1..])[8 * (i - 1)..8 * (i - 1) + 8];
    }
  }

  // ----- one code out of the input

  /** What getcode keeps between calls, and the input it has not yet got. */
  datatype Reader = Reader(rest: seq<Octet>, buf: seq<Octet>, nBits: nat, maxcode: nat, offset: nat, size: int)

  ghost predicate ReaderOk(k: Format, r: Reader)
  {
    && k.Valid() && |r.buf| == 16 && INIT_BITS <= r.nBits <= k.maxbits
    && r.maxcode == Maxcode(k, r.nBits)
    && r.size + r.nBits <= 8 * 16 + 1
  }

  /** The largest code of a width, after which the width has to grow; at full width it never does. */
  function Maxcode(k: Format, nBits: nat): (m: nat)
    requires k.Valid()
  {
    if nBits == k.maxbits then k.Limit() else Pow2(nBits) - 1
  }

  predicate Refills(r: Reader, free: nat, clear: bool)
  {
    clear || r.offset >= r.size || free > r.maxcode
  }

  function Width(k: Format, r: Reader, free: nat, clear: bool): (n: nat)
  {
    if clear then INIT_BITS else if free > r.maxcode then r.nBits + 1 else r.nBits
  }

  datatype Fetched = Fetched(code: int, r: Reader)

  /** getcode: the code, or -1 at the end of the input. */
  function Fetch(k: Format, r: Reader, free: nat, clear: bool): (res: Fetched)
    requires ReaderOk(k, r) && free <= k.Limit()
    ensures ReaderOk(k, res.r) && res.code >= -1
    ensures res.code >= 0 ==> |res.r.rest| < |r.rest| || (res.r.rest == r.rest && Left(res.r) < Left(r))
  {
    if Refills(r, free, clear) then
      var n := Width(k, r, free, clear);
      var got := if |r.rest| < n then |r.rest| else n;
      if got == 0 then Fetched(-1, r.(nBits := n, maxcode := Maxcode(k, n), size := 0))
      else
        var buf := r.rest[..got] + r.buf[got..];
        Fetched(Number(Flat(buf)[..n]), Reader(r.rest[got..], buf, n, Maxcode(k, n), n, 8 * got - (n - 1)))
    else Fetched(Number(Flat(r.buf)[r.offset..r.offset + r.nBits]), r.(offset := r.offset + r.nBits))
  }

  /** A bound on the calls of getcode before it needs more input. */
  function Left(r: Reader): nat
  {
    if r.offset < r.size then r.size - r.offset else 0
  }

  // ----- the codes are consecutive bit fields

  function End(r: Reader): int
  {
    r.size + r.nBits - 1
  }

  /** The bits of whole codes that have been got but not used, and the bits still to be got. */
  function Unread(r: Reader): (bits: Bits)
    requires |r.buf| == 16
  {
    (if r.offset < r.size && End(r) <= 128 then Flat(r.buf)[r.offset..End(r)] else []) + Flat(r.rest)
  }

  function Fields(bits: Bits, n: nat): (codes: seq<int>)
    requires n > 0
  {
    if |bits| < n then [] else [Number(bits[..n])] + Fields(bits[n..], n)
  }

  predicate Multiple(x: nat, n: nat)
    requires n > 0
  {
    x == 0 || (x >= n && Multiple(x - n, n))
  }

  lemma SevenTimes(n: nat)
    requires n > 0
    ensures Multiple(7 * n, n)
  {
    assert Multiple(n, n);
    assert Multiple(2 * n, n);
    assert Multiple(3 * n, n);
    assert Multiple(4 * n, n);
    assert Multiple(5 * n, n);
    assert Multiple(6 * n, n);
  }

  /** A group is nBits bytes, used up code by code, or it was cut short by the end of the input. */
  ghost predicate Whole(r: Reader)
    requires r.nBits > 0
  {
    r.size > 0 ==> r.offset <= End(r) && (r.rest == [] || (End(r) == 8 * r.nBits && Multiple(End(r) - r.offset, r.nBits)))
  }

  /** A code in the middle of a group. */
  lemma NextField(k: Format, r: Reader, free: nat)
    requires ReaderOk(k, r) && Whole(r) && free <= r.maxcode && free <= k.Limit() && r.offset < r.size
    ensures var n, x := r.nBits, Fetch(k, r, free, false);
            Fields(Unread(r), n) == [x.code] + Fields(Unread(x.r), n) && Whole(x.r)
  {
    var n, flat := r.nBits, Flat(r.buf);
    SplitField(flat, Flat(r.rest), r.offset, n, End(r));
    var x := Fetch(k, r, free, false);
    var after := flat[r.offset + n..End(r)] + Flat(r.rest);
    assert Fields(Unread(r), n) == [x.code] + Fields(after, n);
    if x.r.offset >= r.size {
      if r.rest == [] {
        assert |after| < n && |Unread(x.r)| < n;
      } else {
        assert Multiple(End(r) - x.r.offset, n);
        assert after == Unread(x.r);
      }
    }
  }

  lemma SplitField(flat: Bits, more: Bits, at: nat, n: nat, end: nat)
    requires at + n <= end <= |flat|
    ensures var all := flat[at..end] + more;
            all[..n] == flat[at..at + n] && all[n..] == flat[at + n..end] + more
  {
    var all := flat[at..end] + more;
    assert flat[at..end] == flat[at..at + n] + flat[at + n..end];
    assert all == flat[at..at + n] + (flat[at + n..end] + more);
  }

  lemma {:induction false} FrontOf(a: Bits, b: Bits, c: Bits, n: nat)
    requires n <= |a|
    ensures (a + b)[..n] == (a + c)[..n] && (a + c)[n..|a|] + b == (a + b)[n..]
  {
    assert (a + b)[n..] == a[n..] + b && (a + c)[n..|a|] == a[n..];
  }

  /** What a new group brings. */
  lemma {:induction false} GroupGot(rest: seq<Octet>, buf: seq<Octet>, got: nat, n: nat)
    requires |buf| == 16 && got <= |rest| && got <= n <= 16 && n <= 8 * got
    ensures var flat := Flat(rest[..got] + buf[got..]);
            flat[..n] == Flat(rest)[..n] && flat[n..8 * got] + Flat(rest[got..]) == Flat(rest)[n..]
  {
    GroupFlats(rest, got, rest[..got], rest[got..], buf[got..]);
    FrontOf(Flat(rest[..got]), Flat(rest[got..]), Flat(buf[got..]), n);
  }

  lemma {:induction false} GroupFlats(rest: seq<Octet>, got: nat, a: seq<Octet>, b: seq<Octet>, c: seq<Octet>)
    requires got <= |rest| && a == rest[..got] && b == rest[got..]
    ensures Flat(rest) == Flat(a) + Flat(b) && Flat(a + c) == Flat(a) + Flat(c) && |Flat(a)| == 8 * got
  {
    assert rest == a + b;
    FlatConcat(a, b);
    FlatConcat(a, c);
  }

  /** The first code of a group, whatever the width is then. */
  lemma FirstField(k: Format, r: Reader, free: nat, clear: bool)
    requires ReaderOk(k, r) && free <= k.Limit() && Refills(r, free, clear)
    requires 8 * |r.rest| >= Width(k, r, free, clear)
    ensures var n, x := Width(k, r, free, clear), Fetch(k, r, free, clear);
            x.r.nBits == n && Fields(Flat(r.rest), n) == [x.code] + Fields(Unread(x.r), n) && Whole(x.r)
  {
    var n := Width(k, r, free, clear);
    var got := if |r.rest| < n then |r.rest| else n;
    var x := Fetch(k, r, free, clear);
    GroupGot(r.rest, r.buf, got, n);
    if x.r.offset < x.r.size {
      assert Unread(x.r) == Flat(r.rest)[n..];
    } else {
      assert 8 * got < 2 * n && |r.rest| == got;
      assert Unread(x.r) == [];
      assert |Flat(r.rest)[n..]| < n;
    }
    SevenTimes(n);
  }

  /** As long as the width stays, each code is the next field of that many bits, across groups as well. */
  lemma CodeIsNextField(k: Format, r: Reader, free: nat)
    requires ReaderOk(k, r) && Whole(r) && free <= r.maxcode && free <= k.Limit()
    requires Fields(Unread(r), r.nBits) != []
    ensures var x := Fetch(k, r, free, false);
            x.r.nBits == r.nBits && Whole(x.r)
            && Fields(Unread(r), r.nBits) == [x.code] + Fields(Unread(x.r), r.nBits)
  {
    if r.offset < r.size {
      NextField(k, r, free);
    } else {
      assert [] + Flat(r.rest) == Flat(r.rest);
      FirstField(k, r, free, false);
    }
  }

  /** The codes of successive calls while the dictionary grows as `frees` says. */
  function Fetches(k: Format, r: Reader, frees: seq<nat>): (codes: seq<int>)
    requires ReaderOk(k, r) && forall i: nat :: i < |frees| ==> frees[i] <= k.Limit()
    decreases |frees|
  {
    if frees == [] then []
    else var x := Fetch(k, r, frees[0], false); [x.code] + Fetches(k, x.r, frees[1..])
  }

  /** So while the dictionary stays within the width, the codes are the consecutive fields of the bits. */
  lemma {:induction false} ConsecutiveFields(k: Format, r: Reader, frees: seq<nat>)
    requires ReaderOk(k, r) && Whole(r) && |frees| <= |Fields(Unread(r), r.nBits)|
    requires forall i: nat :: i < |frees| ==> frees[i] <= r.maxcode && frees[i] <= k.Limit()
    ensures Fetches(k, r, frees) == Fields(Unread(r), r.nBits)[..|frees|]
    decreases |frees|
  {
    if frees != [] {
      CodeIsNextField(k, r, frees[0]);
      var x := Fetch(k, r, frees[0], false);
      ConsecutiveFields(k, x.r, frees[1..]);
      assert ([x.code] + Fields(Unread(x.r), r.nBits))[..|frees|] == [x.code] + Fields(Unread(x.r), r.nBits)[..|frees| - 1];
    }
  }

  lemma {:induction false} FieldAt(bits: Bits, n: nat, i: nat)
    requires n > 0 && i < |Fields(bits, n)|
    ensures i * n + n <= |bits| && Fields(bits, n)[i] == Number(bits[i * n..i * n + n])
    decreases i
  {
    if i > 0 {
      FieldAt(bits[n..], n, i - 1);
      assert i * n == n + (i - 1) * n;
      assert bits[n..][(i - 1) * n..(i - 1) * n + n] == bits[i * n..i * n + n];
    } else {
      assert 0 * n == 0;
    }
  }

  /** The width changes only when the dictionary has outgrown it, by one, up to maxbits; or goes back to its
      first value after a CLEAR. */
  lemma WidthChanges(k: Format, r: Reader, free: nat, clear: bool)
    requires ReaderOk(k, r) && free <= k.Limit()
    ensures var n := Fetch(k, r, free, clear).r.nBits;
            INIT_BITS <= n <= k.maxbits
            && (n != r.nBits ==> if clear then n == INIT_BITS else free > r.maxcode && n == r.nBits + 1)
            && (!clear && free > r.maxcode ==> n == r.nBits + 1)
  {
  }
}
