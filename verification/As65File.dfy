/**
 The whole assembler: relaxation, sorting, the check for overlaps and linking together, and what is then known
 of the file.
 */
module As65File {

  import opened Basics
  import opened Word32
  import opened Expr
  import opened As65

  // ----- sorting

  /** compseg: differences of unsigned words, taken as signed ones. */
  function CompSeg(addr: Word, len: Word, addr': Word, len': Word): (order: int)
  {
    if addr == addr' then Difference(len, len') else Difference(addr, addr')
  }

  function Difference(a: Word, b: Word): (d: int)
  {
    Signed(Add(a, Negative(b)))
  }

  /** The comparison is right if and only if the numbers are less than half the address space apart. */
  lemma DifferenceOrders(a: Word, b: Word)
    ensures (Difference(a, b) < 0 <==> a < b) <==> -0x8000_0000 <= a - b < 0x8000_0000
  {
  }

  /** Segments in the lower half of the address space, even with every operand long. */
  ghost predicate LowHalf(segs: seq<Segment>)
  {
    forall i: nat :: i < |segs| ==> segs[i].addr + 3 * |segs[i].code| < 0x8000_0000
  }

  lemma LengthFits(g: Segment)
    ensures Length(g.code) <= 3 * |g.code|
  {
    LengthGrows(g.code, 0, |g.code|);
    assert g.code[..|g.code|] == g.code;
  }

  // ----- what relaxation makes of the instructions

  /** An instruction is as it was, or its operand has become long, and it has the opcode for that. */
  predicate Grown(n: Instr, n': Instr)
  {
    n' == n || (n.kind == Varies && n' == Instr(Long, n.opcode2, n.opcode2, n.expr))
  }

  ghost predicate SameCode(p: Program, q: Program)
  {
    SameShape(p, q) && forall s: nat, k: nat :: s < |p.segs| && k < |p.segs[s].code| ==> Grown(p.segs[s].code[k], q.segs[s].code[k])
  }

  lemma {:induction false} SegmentKeepsCode(p: Program, s: nat, k: nat)
    requires s < |p.segs| && k <= |p.segs[s].code|
    ensures SameCode(p, ExpandedSeg(p, s, k))
  {
    if k > 0 {
      SegmentKeepsCode(p, s, k - 1);
      TurnKeepsCode(ExpandedSeg(p, s, k - 1), s, k - 1);
      CodeKeptTwice(p, ExpandedSeg(p, s, k - 1), ExpandedSeg(p, s, k));
    }
  }

  lemma TurnKeepsCode(p: Program, s: nat, k: nat)
    requires s < |p.segs| && k < |p.segs[s].code|
    ensures SameCode(p, Expanded1(p, s, k))
  {
  }

  lemma CodeKeptTwice(p: Program, q: Program, r: Program)
    requires SameCode(p, q) && SameCode(q, r)
    ensures SameCode(p, r)
  {
    forall s: nat, k: nat | s < |p.segs| && k < |p.segs[s].code|
      ensures Grown(p.segs[s].code[k], r.segs[s].code[k])
    {
      assert Grown(p.segs[s].code[k], q.segs[s].code[k]) && Grown(q.segs[s].code[k], r.segs[s].code[k]);
    }
  }

  lemma {:induction false} SweepKeepsCode(p: Program, n: nat)
    requires n <= |p.segs|
    ensures SameCode(p, Swept(p, n))
  {
    if n > 0 {
      var q := Swept(p, n - 1);
      var r := ExpandedSeg(q, n - 1, |q.segs[n - 1].code|);
      SweepKeepsCode(p, n - 1);
      SegmentKeepsCode(q, n - 1, |q.segs[n - 1].code|);
      CodeKeptTwice(p, q, r);
      assert r == Swept(p, n);
    } else {
      assert Swept(p, 0) == p;
    }
  }

  /** Relaxation only makes operands long that may be either, and gives their instructions the other opcode. */
  lemma {:induction false} RelaxedKeepsCode(p: Program)
    ensures SameCode(p, Relaxed(p))
    decreases AllOpen(p.segs)
  {
    var q := Swept(p, |p.segs|);
    SweepDescends(p, |p.segs|);
    SweepKeepsCode(p, |p.segs|);
    if q != p {
      RelaxedKeepsCode(q);
      CodeKeptTwice(p, q, Relaxed(p));
    }
  }

  /** One operand that had a value of more than a byte has become long, and nothing else but values of labels. */
  ghost predicate OneLonger(p: Program, q: Program)
  {
    SameShape(p, q) && exists s: nat, k: nat :: LongerAt(p, q, s, k)
  }

  ghost predicate LongerAt(p: Program, q: Program, s: nat, k: nat)
  {
    && s < |p.segs| && k < |p.segs[s].code|
    && var g := p.segs[s];
       var n := g.code[k];
       n.kind == Varies && Evaluate(n.expr, Env(p)).Some? && Evaluate(n.expr, Env(p)).value >= 0x100
       && q.segs == p.segs[s := Segment(g.addr, g.code[k := Instr(Long, n.opcode2, n.opcode2, n.expr)])]
  }

  ghost predicate Chain(ps: seq<Program>, p: Program, q: Program)
  {
    && |ps| > 0 && ps[0] == p && ps[|ps| - 1] == q
    && forall i: nat {:trigger ps[i]} :: i + 1 < |ps| ==> OneLonger(ps[i], ps[i + 1])
  }

  lemma ChainsJoin(a: seq<Program>, b: seq<Program>, p: Program, q: Program, r: Program) returns (c: seq<Program>)
    requires Chain(a, p, q) && Chain(b, q, r)
    ensures Chain(c, p, r)
  {
    c := a + b[1..];
    forall i: nat {:trigger c[i]} | i + 1 < |c|
      ensures OneLonger(c[i], c[i + 1])
    {
      if i + 1 < |a| {
        assert OneLonger(a[i], a[i + 1]);
      } else {
        assert c[i] == b[i + 1 - |a|] && c[i + 1] == b[i + 1 - |a| + 1];
      }
    }
  }

  lemma {:induction false} SegmentByNeed(p: Program, s: nat, k: nat) returns (ps: seq<Program>)
    requires s < |p.segs| && k <= |p.segs[s].code|
    ensures Chain(ps, p, ExpandedSeg(p, s, k))
  {
    ps := [p];
    if k > 0 {
      var q, r := ExpandedSeg(p, s, k - 1), ExpandedSeg(p, s, k);
      ps := SegmentByNeed(p, s, k - 1);
      if TooLong(q, q.segs[s].code[k - 1]) {
        assert LongerAt(q, r, s, k - 1);
        ps := ChainsJoin(ps, [q, r], p, q, r);
      }
    }
  }

  lemma {:induction false} SweepByNeed(p: Program, n: nat) returns (ps: seq<Program>)
    requires n <= |p.segs|
    ensures Chain(ps, p, Swept(p, n))
  {
    ps := [p];
    if n > 0 {
      var q := Swept(p, n - 1);
      ps := SweepByNeed(p, n - 1);
      var more := SegmentByNeed(q, n - 1, |q.segs[n - 1].code|);
      ps := ChainsJoin(ps, more, p, q, Swept(p, n));
    }
  }

  /** No operand becomes long without need: relaxation is a chain of steps, each of which makes one operand long whose
      value, with the labels as they then are, does not fit a byte. */
  lemma {:induction false} RelaxedByNeed(p: Program) returns (ps: seq<Program>)
    ensures Chain(ps, p, Relaxed(p))
    decreases AllOpen(p.segs)
  {
    var q := Swept(p, |p.segs|);
    SweepDescends(p, |p.segs|);
    ps := SweepByNeed(p, |p.segs|);
    if q != p {
      var more := RelaxedByNeed(q);
      ps := ChainsJoin(ps, more, p, q, Relaxed(p));
    }
  }

  // ----- segments in any order

  ghost predicate SameSegments(a: seq<Segment>, b: seq<Segment>)
  {
    multiset(a) == multiset(b)
  }

  lemma Elsewhere(a: seq<Segment>, b: seq<Segment>, i: nat) returns (j: nat)
    requires SameSegments(a, b) && i < |a|
    ensures j < |b| && b[j] == a[i]
  {
    assert a[i] in multiset(b);
    j :| j < |b| && b[j] == a[i];
  }

  lemma WithoutOne<T>(s: seq<T>, i: nat)
    requires i < |s|
    ensures multiset(s[..i] + s[i + 1..]) == multiset(s) - multiset{s[i]}
  {
    assert s == s[..i] + [s[i]] + s[i + 1..];
  }

  /** Two segments of one table are, in another with the same segments, two segments again. */
  lemma TwoElsewhere(a: seq<Segment>, b: seq<Segment>, i: nat, j: nat) returns (k: nat, l: nat)
    requires SameSegments(a, b) && i < j < |a|
    ensures k < |b| && l < |b| && k != l && b[k] == a[i] && b[l] == a[j]
  {
    k := Elsewhere(a, b, i);
    var a', b' := a[..i] + a[i + 1..], b[..k] + b[k + 1..];
    WithoutOne(a, i);
    WithoutOne(b, k);
    assert a'[j - 1] == a[j];
    var m := Elsewhere(a', b', j - 1);
    l := if m < k then m else m + 1;
  }

  lemma DisjointElsewhere(a: seq<Segment>, b: seq<Segment>)
    requires SameSegments(a, b) && AllDisjoint(b)
    ensures AllDisjoint(a)
  {
    forall i: nat, j: nat | i < j < |a|
      ensures Disjoint(a[i], a[j])
    {
      var k, l := TwoElsewhere(a, b, i, j);
      assert if k < l then Disjoint(b[k], b[l]) else Disjoint(b[l], b[k]);
    }
  }

  // ----- linking

  ghost predicate Emits(g: Segment, env: seq<Word>)
  {
    EmittedCode(g.code, g.addr, env, |g.code|).Some?
  }

  ghost predicate AllEmit(segs: seq<Segment>, env: seq<Word>)
  {
    forall i: nat :: i < |segs| ==> Emits(segs[i], env)
  }

  lemma {:induction false} LinkedStops(segs: seq<Segment>, env: seq<Word>, n: nat, i: nat)
    requires i < n <= |segs| && !Emits(segs[i], env)
    ensures Linked(segs, env, n).None?
    decreases n
  {
    if i < n - 1 {
      LinkedStops(segs, env, n - 1, i);
    }
  }

  lemma {:induction false} LinkedGoesOn(segs: seq<Segment>, env: seq<Word>, n: nat)
    requires n <= |segs| && AllEmit(segs, env)
    ensures Linked(segs, env, n).Some?
  {
    if n > 0 {
      LinkedGoesOn(segs, env, n - 1);
      assert Emits(segs[n - 1], env);
    }
  }

  /** Linking succeeds if and only if every segment can be put out. */
  lemma LinkedIffEmits(segs: seq<Segment>, env: seq<Word>)
    ensures Linked(segs, env, |segs|).Some? <==> AllEmit(segs, env)
  {
    if AllEmit(segs, env) {
      LinkedGoesOn(segs, env, |segs|);
    } else {
      var i: nat :| i < |segs| && !Emits(segs[i], env);
      LinkedStops(segs, env, |segs|, i);
    }
  }

  lemma EmitElsewhere(a: seq<Segment>, b: seq<Segment>, env: seq<Word>)
    requires SameSegments(a, b) && AllEmit(b, env)
    ensures AllEmit(a, env)
  {
    forall i: nat | i < |a|
      ensures Emits(a[i], env)
    {
      var j := Elsewhere(a, b, i);
      assert Emits(b[j], env);
    }
  }

  // ----- the file

  /** Where instruction k of segment s is, and where it ends if k is one more. */
  function AddressOf(q: Program, s: nat, k: nat): (at: nat)
    requires s < |q.segs| && k <= |q.segs[s].code|
  {
    q.segs[s].addr + Length(q.segs[s].code[..k])
  }

  /** Where a label stands. */
  function PlaceOf(q: Program, id: nat): (at: nat)
    requires id < |q.syms| && Standing(q, q.syms[id])
  {
    AddressOf(q, q.syms[id].seg, q.syms[id].pos)
  }

  /** The displacement in the file, added to the address of the next instruction, is where the label stands. */
  ghost predicate Lands(q: Program, file: seq<Byte>, s: nat, k: nat, id: nat)
    requires s < |q.segs| && k < |q.segs[s].code| && id < |q.syms| && Standing(q, q.syms[id])
  {
    var at, next := AddressOf(q, s, k), AddressOf(q, s, k + 1);
    at + 1 < |file| && (next + SignedByte(file[at + 1]) + M) % M == PlaceOf(q, id)
  }

  /** The value of an operand, if there is one. */
  function Operand(n: Instr, env: seq<Word>): (w: Option<Word>)
  {
    Evaluate(n.expr, env)
  }

  /** A value that one byte can hold, signed or unsigned. */
  predicate OneByte(w: Word)
  {
    w < 0x100 || w >= M - 0x80
  }

  /** The displacement of a branch. */
  predicate Near(w: Word, next: nat)
  {
    var d := w - next % M;
    -0x80 <= d < 0x80 || -0x80 <= d + M < 0x80 || -0x80 <= d - M < 0x80
  }

  /** An instruction can be put out if its operand has a value, and that fits. */
  predicate Encodable(n: Instr, next: nat, env: seq<Word>)
  {
    n.kind == NoArg
    || (Operand(n, env).Some?
        && var w := Operand(n, env).value;
           match n.kind
           case Branch => Near(w, next)
           case Long => true
           case Data2 => true
           case _ => OneByte(w))
  }

  /** Two bytes, the low one first. */
  function Joined(lo: nat, hi: nat): (w: nat)
  {
    lo + 0x100 * hi
  }

  /** The bytes are those of an instruction that ends at `next`: its opcode, and its operand with the low byte first. */
  ghost predicate Spells(bytes: seq<Byte>, n: Instr, next: nat, env: seq<Word>)
  {
    && |bytes| == Size(n.kind)
    && (!n.kind.Data1? && !n.kind.Data2? ==> bytes[0] == n.opcode)
    && (n.kind != NoArg ==> Operand(n, env).Some? && Holds(bytes, n.kind, next, Operand(n, env).value))
  }

  predicate Holds(bytes: seq<Byte>, kind: Kind, next: nat, w: Word)
    requires |bytes| == Size(kind)
  {
    match kind
    case NoArg => true
    case Short => OneByte(w) && bytes[1] == w % 0x100
    case Varies => OneByte(w) && bytes[1] == w % 0x100
    case Branch => (next + SignedByte(bytes[1]) + M) % M == w
    case Long => Joined(bytes[1], bytes[2]) == w % 0x1_0000
    case Data1 => OneByte(w) && bytes[0] == w % 0x100
    case Data2 => Joined(bytes[0], bytes[1]) == w % 0x1_0000
  }

  /** Negative values have the low bytes of their complement. */
  lemma SignedLow(w: Word)
    ensures Signed(w) % 0x100 == w % 0x100
    ensures Signed(w) / 0x100 % 0x100 == w / 0x100 % 0x100
    ensures -128 <= Signed(w) <= 255 <==> OneByte(w)
  {
    assert M == 0x100 * 0x100_0000;
    assert w >= 0x8000_0000 ==> Signed(w) / 0x100 == w / 0x100 - 0x100_0000;
  }

  lemma TwoBytes(w: Word)
    ensures Joined(w % 0x100, w / 0x100 % 0x100) == w % 0x1_0000
  {
    var h := w / 0x100;
    assert w == 0x100 * h + w % 0x100;
    assert h == 0x100 * (h / 0x100) + h % 0x100;
    assert w == 0x1_0000 * (h / 0x100) + Joined(w % 0x100, h % 0x100);
  }

  /** What is put out for an instruction spells it; and it is put out if and only if it can be. */
  lemma EmittedSpells(n: Instr, next: Word, env: seq<Word>)
    requires Emitted(n, next, env).Some?
    ensures Spells(Emitted(n, next, env).value, n, next, env)
  {
    if n.kind == Branch {
      BranchReaches(n, next, env);
    } else if n.kind != NoArg {
      var w := Operand(n, env).value;
      SignedLow(w);
      TwoBytes(w);
      EmittedHolds(n, next, w);
    }
  }

  lemma EmittedHolds(n: Instr, next: nat, w: Word)
    requires EmittedWith(n, next, w).Some? && n.kind != Branch
    requires Signed(w) % 0x100 == w % 0x100 && Signed(w) / 0x100 % 0x100 == w / 0x100 % 0x100
    requires -128 <= Signed(w) <= 255 <==> OneByte(w)
    requires Joined(w % 0x100, w / 0x100 % 0x100) == w % 0x1_0000
    ensures Holds(EmittedWith(n, next, w).value, n.kind, next, w)
  {
  }

  lemma EmittedIffEncodable(n: Instr, next: nat, env: seq<Word>)
    ensures Emitted(n, next, env).Some? <==> Encodable(n, next, env)
  {
    if n.kind != NoArg && Operand(n, env).Some? {
      SignedLow(Operand(n, env).value);
    }
  }

  predicate BranchesTo(n: Instr, id: nat)
  {
    n.kind == Branch && n.expr == Postfix(Leaf(id))
  }

  /** Its bytes are at its own address; if its operand is still short, that is not too long; and if it branches to a
      label, it lands on the instruction before which the label stands. */
  ghost predicate InstrRight(q: Program, file: seq<Byte>, s: nat, k: nat)
    requires s < |q.segs| && k < |q.segs[s].code| && AllStanding(q)
  {
    && var n, at := q.segs[s].code[k], AddressOf(q, s, k);
    && at + Size(n.kind) <= |file| && Spells(file[at..at + Size(n.kind)], n, at + Size(n.kind), Env(q)) && !TooLong(q, n)
    && forall id: nat :: id < |q.syms| && BranchesTo(q.segs[s].code[k], id) ==> Lands(q, file, s, k, id)
  }

  ghost predicate Outside(segs: seq<Segment>, a: nat)
  {
    forall s: nat :: s < |segs| ==> a < segs[s].addr || Ends(segs[s]) <= a
  }

  /** The file has the segments at their addresses, zeros in between, and nothing after them. */
  ghost predicate Extent(segs: seq<Segment>, file: seq<Byte>)
  {
    && (forall s: nat :: s < |segs| ==> Ends(segs[s]) <= |file|)
    && (file == [] || exists s: nat :: s < |segs| && Ends(segs[s]) == |file|)
    && (forall a: nat :: a < |file| && Outside(segs, a) ==> file[a] == 0)
  }

  /** The file is that of program p, of which relaxation has made q. */
  ghost predicate FileRight(p: Program, q: Program, file: seq<Byte>)
  {
    && AllStanding(q) && SameCode(p, q) && Extent(q.segs, file)
    && forall s: nat, k: nat :: s < |q.segs| && k < |q.segs[s].code| ==> InstrRight(q, file, s, k)
  }

  lemma InGap(before: seq<Byte>, gap: nat, more: seq<Byte>, a: nat)
    requires a < |before| + gap
    ensures (before + Zeros(gap) + more)[a] == if a < |before| then before[a] else 0
  {
  }

  lemma {:induction false} GapsAreZero(segs: seq<Segment>, env: seq<Word>, n: nat, a: nat)
    requires Checked(segs) && n <= |segs| && Linked(segs, env, n).Some? && a < |Linked(segs, env, n).value|
    requires forall s: nat :: s < n ==> a < segs[s].addr || Ends(segs[s]) <= a
    ensures Linked(segs, env, n).value[a] == 0
  {
    LinkedStep(segs, env, n);
    var g, before := segs[n - 1], Linked(segs, env, n - 1).value;
    var bytes := EmittedCode(g.code, g.addr, env, |g.code|).value;
    assert a < g.addr;
    InGap(before, g.addr - |before|, bytes, a);
    if a < |before| {
      GapsAreZero(segs, env, n - 1, a);
    }
  }

  lemma LinkedExtent(q: Program, segs: seq<Segment>, env: seq<Word>)
    requires SameSegments(q.segs, segs) && Checked(segs) && Linked(segs, env, |segs|).Some?
    ensures Extent(q.segs, Linked(segs, env, |segs|).value)
  {
    var file := Linked(segs, env, |segs|).value;
    LinkedLength(segs, env, |segs|);
    forall s: nat | s < |q.segs|
      ensures Ends(q.segs[s]) <= |file|
    {
      var i := Elsewhere(q.segs, segs, s);
      SegmentInFile(segs, env, |segs|, i);
    }
    if segs != [] {
      var s := Elsewhere(segs, q.segs, |segs| - 1);
    }
    forall a: nat | a < |file| && Outside(q.segs, a)
      ensures file[a] == 0
    {
      forall i: nat | i < |segs|
        ensures a < segs[i].addr || Ends(segs[i]) <= a
      {
        var s := Elsewhere(segs, q.segs, i);
      }
      GapsAreZero(segs, env, |segs|, a);
    }
  }

  lemma InstrInItsPlace(q: Program, segs: seq<Segment>, s: nat, k: nat)
    requires s < |q.segs| && k < |q.segs[s].code| && SameSegments(q.segs, segs)
    requires Checked(segs) && Linked(segs, Env(q), |segs|).Some?
    ensures InstrAt(Linked(segs, Env(q), |segs|).value, q.segs[s], Env(q), k)
  {
    var i := Elsewhere(q.segs, segs, s);
    InstrInFile(segs, Env(q), i, k);
  }

  lemma BranchInItsPlace(q: Program, file: seq<Byte>, s: nat, k: nat, id: nat)
    requires Fits(q) && AllStanding(q) && s < |q.segs| && k < |q.segs[s].code| && id < |q.syms|
    requires BranchesTo(q.segs[s].code[k], id) && InstrAt(file, q.segs[s], Env(q), k)
    ensures Lands(q, file, s, k, id)
  {
    var code, next := q.segs[s].code, AddressOf(q, s, k + 1);
    LengthGrows(code, 0, k + 1);
    BranchLandsOnLabel(q, code[k], next, id);
    assert Emitted(code[k], next, Env(q)).value == file[AddressOf(q, s, k)..next];
  }

  lemma SpelledInItsPlace(q: Program, file: seq<Byte>, s: nat, k: nat)
    requires Fits(q) && s < |q.segs| && k < |q.segs[s].code| && InstrAt(file, q.segs[s], Env(q), k)
    ensures var n, at := q.segs[s].code[k], AddressOf(q, s, k);
            at + Size(n.kind) <= |file| && at + Size(n.kind) == AddressOf(q, s, k + 1)
            && Spells(file[at..at + Size(n.kind)], n, at + Size(n.kind), Env(q))
  {
    var code := q.segs[s].code;
    assert code[..k + 1][..k] == code[..k];
    LengthGrows(code, 0, k + 1);
    EmittedSpells(code[k], AddressOf(q, s, k + 1), Env(q));
  }

  /** If the check and the linking of some order of the relaxed segments succeed, the file is right. */
  lemma LinkedFileIsRight(p: Program, segs: seq<Segment>)
    requires Fits(p) && AllStanding(p) && SameSegments(Relaxed(p).segs, segs)
    requires Checked(segs) && Linked(segs, Env(Relaxed(p)), |segs|).Some?
    ensures FileRight(p, Relaxed(p), Linked(segs, Env(Relaxed(p)), |segs|).value)
  {
    var q := Relaxed(p);
    var file := Linked(segs, Env(q), |segs|).value;
    RelaxedKeepsLabels(p);
    RelaxedKeepsCode(p);
    LinkedExtent(q, segs, Env(q));
    forall s: nat, k: nat | s < |q.segs| && k < |q.segs[s].code|
      ensures InstrRight(q, file, s, k)
    {
      InstrInItsPlace(q, segs, s, k);
      RelaxedIsShort(p, s, k);
      SpelledInItsPlace(q, file, s, k);
      forall id: nat | id < |q.syms| && BranchesTo(q.segs[s].code[k], id)
        ensures Lands(q, file, s, k, id)
      {
        BranchInItsPlace(q, file, s, k, id);
      }
    }
  }

  ghost predicate AllEncodable(q: Program)
  {
    forall s: nat, k: nat :: s < |q.segs| && k < |q.segs[s].code| ==> EncodableAt(q.segs[s], Env(q), k)
  }

  predicate EncodableAt(g: Segment, env: seq<Word>, k: nat)
    requires k < |g.code|
  {
    Encodable(g.code[k], g.addr + Length(g.code[..k + 1]), env)
  }

  lemma {:induction false} CodeEmits(g: Segment, env: seq<Word>, n: nat)
    requires n <= |g.code|
    ensures EmittedCode(g.code, g.addr, env, n).Some? <==> forall k: nat :: k < n ==> EncodableAt(g, env, k)
  {
    if n > 0 {
      CodeEmits(g, env, n - 1);
      EmittedIffEncodable(g.code[n - 1], g.addr + Length(g.code[..n]), env);
      assert EncodableAt(g, env, n - 1) <==> Emitted(g.code[n - 1], g.addr + Length(g.code[..n]), env).Some?;
    }
  }

  lemma AllEmitIffEncodable(q: Program)
    ensures AllEmit(q.segs, Env(q)) <==> AllEncodable(q)
  {
    forall s: nat | s < |q.segs|
      ensures Emits(q.segs[s], Env(q)) <==> forall k: nat :: k < |q.segs[s].code| ==> EncodableAt(q.segs[s], Env(q), k)
    {
      CodeEmits(q.segs[s], Env(q), |q.segs[s].code|);
    }
  }

  /** What it takes to assemble a program: relaxation comes to no operand without a value, and after it the segments
      are apart, and every operand has a value that its instruction can hold. */
  ghost predicate Assembles(p: Program)
  {
    RelaxSound(p) && AllDisjoint(Relaxed(p).segs) && AllEncodable(Relaxed(p))
  }

  /** With the segments sorted, check and linking succeed if and only if the program assembles. */
  lemma SucceedsIffAssembles(p: Program, segs: seq<Segment>)
    requires RelaxSound(p) && SameSegments(Relaxed(p).segs, segs) && Sorted(segs)
    ensures Checked(segs) && Linked(segs, Env(Relaxed(p)), |segs|).Some? <==> Assembles(p)
  {
    var q := Relaxed(p);
    CheckFindsOverlaps(segs);
    AllEmitIffEncodable(q);
    LinkedIffEmits(segs, Env(q));
    if Checked(segs) && Linked(segs, Env(q), |segs|).Some? {
      DisjointElsewhere(q.segs, segs);
      EmitElsewhere(q.segs, segs, Env(q));
    }
    if Assembles(p) {
      DisjointElsewhere(segs, q.segs);
      EmitElsewhere(segs, q.segs, Env(q));
    }
  }

  predicate Comes(addr: nat, len: nat, addr': nat, len': nat)
  {
    addr < addr' || (addr == addr' && len <= len')
  }

  /** In the lower half of the address space compseg compares rightly; beyond, see DifferenceOrders. */
  lemma CompSegOrders(addr: nat, len: nat, addr': nat, len': nat)
    requires addr < 0x8000_0000 && len < 0x8000_0000 && addr' < 0x8000_0000 && len' < 0x8000_0000
    ensures CompSeg(addr, len, addr', len') < 0 ==> Comes(addr, len, addr', len')
    ensures CompSeg(addr, len, addr', len') >= 0 ==> Comes(addr', len', addr, len)
  {
    DifferenceOrders(addr, addr');
    DifferenceOrders(len, len');
  }
}
