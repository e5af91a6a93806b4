/**
 Machine words as their bits, most significant first.  The C operators used by the floppy code are the
 evident operations on such strings.
 */
module Words {

  import opened Basics

  type Bits = seq<bool>

  /** Names an index, so that a quantifier over it is instantiated only where a proof asks for it. */
  ghost predicate At(k: int)
  {
    true
  }

  function Zeros(n: nat): (z: Bits)
    ensures |z| == n
  {
    seq(n, _ => false)
  }

  function Ones(n: nat): (z: Bits)
    ensures |z| == n
  {
    seq(n, _ => true)
  }

  function Xor(a: Bits, b: Bits): (c: Bits)
    requires |a| == |b|
    ensures |c| == |a|
  {
    seq(|a|, i requires 0 <= i < |a| => a[i] != b[i])
  }

  function And(a: Bits, b: Bits): (c: Bits)
    requires |a| == |b|
    ensures |c| == |a|
  {
    seq(|a|, i requires 0 <= i < |a| => a[i] && b[i])
  }

  function Or(a: Bits, b: Bits): (c: Bits)
    requires |a| == |b|
    ensures |c| == |a|
  {
    seq(|a|, i requires 0 <= i < |a| => a[i] || b[i])
  }

  function Not(a: Bits): (c: Bits)
    ensures |c| == |a|
  {
    seq(|a|, i requires 0 <= i < |a| => !a[i])
  }

  /** a << n */
  function Shl(a: Bits, n: nat): (c: Bits)
    requires n <= |a|
    ensures |c| == |a|
  {
    a[n..] + Zeros(n)
  }

  /** a >> n, on unsigned words */
  function Shr(a: Bits, n: nat): (c: Bits)
    requires n <= |a|
    ensures |c| == |a|
  {
    Zeros(n) + a[..|a| - n]
  }

  /** The unsigned number a word stands for. */
  function Value(a: Bits): (v: nat)
  {
    if a == [] then 0 else 2 * Value(a[..|a| - 1]) + if a[|a| - 1] then 1 else 0
  }

  /** The n-bit word of a number, which is truncated if need be. */
  function Word(v: nat, n: nat): (a: Bits)
    ensures |a| == n
  {
    if n == 0 then [] else Word(v / 2, n - 1) + [v % 2 == 1]
  }

  lemma {:induction false} ValueFits(a: Bits)
    ensures Value(a) < Pow2(|a|)
  {
    if a != [] {
      ValueFits(a[..|a| - 1]);
    }
  }

  lemma {:induction false} WordOfValue(a: Bits)
    ensures Word(Value(a), |a|) == a
  {
    if a != [] {
      WordOfValue(a[..|a| - 1]);
    }
  }

  lemma {:induction false} ValueOfWord(v: nat, n: nat)
    requires v < Pow2(n)
    ensures Value(Word(v, n)) == v
  {
    if n > 0 {
      ValueOfWord(v / 2, n - 1);
      assert Word(v, n)[..n - 1] == Word(v / 2, n - 1);
    }
  }

  lemma {:induction false} ValueConcat(a: Bits, b: Bits)
    ensures Value(a + b) == Value(a) * Pow2(|b|) + Value(b)
  {
    if b == [] {
      assert a + b == a;
    } else {
      var c := b[..|b| - 1];
      assert (a + b)[..|a + b| - 1] == a + c;
      ValueConcat(a, c);
      Doubles(Value(a), Pow2(|c|), Pow2(|b|));
    }
  }

  lemma Doubles(v: nat, p: nat, q: nat)
    requires q == 2 * p
    ensures 2 * (v * p) == v * q
  {
  }

  lemma {:induction false} ValueOfZeros(n: nat)
    ensures Value(Zeros(n)) == 0
  {
    if n > 0 {
      assert Zeros(n)[..n - 1] == Zeros(n - 1);
      ValueOfZeros(n - 1);
    }
  }

  lemma SliceOfSlice<T>(s: seq<T>, a: nat, n: nat, b: nat, m: nat)
    requires a + n <= |s| && b + m <= n
    ensures s[a..a + n][b..b + m] == s[a + b..a + b + m]
  {
    var t, u := s[a..a + n][b..b + m], s[a + b..a + b + m];
    forall i: nat | i < m
      ensures t[i] == u[i]
    {
      assert t[i] == s[a..a + n][b + i];
    }
  }

  /** The same for a string known only to be equal to the slice. */
  lemma PartOfSlice<T>(v: seq<T>, f: seq<T>, s: seq<T>, a: nat, b: nat, m: nat)
    requires a + |f| <= |s| && b + m <= |f| && f == s[a..a + |f|] && v == f[b..b + m]
    ensures v == s[a + b..a + b + m]
  {
    SliceOfSlice(s, a, |f|, b, m);
  }

  lemma SliceSnoc<T>(s: seq<T>, a: nat, k: nat)
    requires a + k < |s|
    ensures s[a..a + k + 1][..k] == s[a..a + k] && s[a..a + k + 1][k] == s[a + k]
  {
  }

  lemma SliceJoins<T>(s: seq<T>, a: nat, b: nat, c: nat)
    requires a <= b <= c <= |s|
    ensures s[a..c] == s[a..b] + s[b..c]
  {
  }
}
