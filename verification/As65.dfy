/**
 The back end of the 6502 assembler: operands that may be short or long are lengthened until all fit, labels
 move along, and then the segments are written out, each instruction at its own address.
 */
module As65 {

  import opened Basics
  import opened Word32
  import opened Expr

  // ----- programs

  datatype Kind = NoArg | Short | Branch | Long | Varies | Data1 | Data2

  function Size(kind: Kind): (n: nat)
    ensures 1 <= n <= 3
  {
    match kind
    case NoArg => 1
    case Short => 2
    case Branch => 2
    case Long => 3
    case Varies => 2
    case Data1 => 1
    case Data2 => 2
  }

  datatype Instr = Instr(kind: Kind, opcode: Byte, opcode2: Byte, expr: seq<Token>)

  /** The length of a stretch of code. */
  function Length(code: seq<Instr>): (n: nat)
  {
    if code == [] then 0 else Length(code[..|code| - 1]) + Size(code[|code| - 1].kind)
  }

  datatype Segment = Segment(addr: nat, code: seq<Instr>)

  /** A label stands before instruction `pos` of its segment; only its value is kept by the program. */
  datatype Symbol = Symbol(seg: nat, pos: nat, value: Word)

  datatype Program = Program(segs: seq<Segment>, syms: seq<Symbol>)

  function Env(p: Program): (env: seq<Word>)
    ensures |env| == |p.syms|
  {
    seq(|p.syms|, i requires 0 <= i < |p.syms| => p.syms[i].value)
  }

  /** Even with every operand long the segments end below 2 to the 32. */
  ghost predicate Fits(p: Program)
  {
    forall s: nat :: s < |p.segs| ==> p.segs[s].addr + 3 * |p.segs[s].code| < M
  }

  /** The value of a label is where it stands. */
  ghost predicate Standing(p: Program, y: Symbol)
  {
    && y.seg < |p.segs| && y.pos <= |p.segs[y.seg].code|
    && y.value == p.segs[y.seg].addr + Length(p.segs[y.seg].code[..y.pos])
  }

  ghost predicate AllStanding(p: Program)
  {
    forall i: nat :: i < |p.syms| ==> Standing(p, p.syms[i])
  }

  lemma {:induction false} LengthGrows(code: seq<Instr>, i: nat, j: nat)
    requires i <= j <= |code|
    ensures Length(code[..i]) + (j - i) <= Length(code[..j]) <= Length(code[..i]) + 3 * (j - i)
    decreases j - i
  {
    if i < j {
      LengthGrows(code, i, j - 1);
      assert code[..j][..j - 1] == code[..j - 1];
    }
  }

  lemma {:induction false} LengthRetyped(code: seq<Instr>, k: nat, n: Instr, j: nat)
    requires k < |code| && j <= |code|
    ensures Length(code[k := n][..j]) == Length(code[..j]) + if k < j then Size(n.kind) - Size(code[k].kind) else 0
  {
    var code' := code[k := n];
    if j > 0 {
      LengthRetyped(code, k, n, j - 1);
      assert code[..j][..j - 1] == code[..j - 1] && code'[..j][..j - 1] == code'[..j - 1];
    }
  }

  // ----- relaxation

  /** sadjust: the labels of the segment that lie beyond addr. */
  function Adjusted(syms: seq<Symbol>, seg: nat, addr: nat): (syms': seq<Symbol>)
    ensures |syms'| == |syms|
  {
    seq(|syms|, i requires 0 <= i < |syms| =>
      if syms[i].seg == seg && syms[i].value > addr then syms[i].(value := (syms[i].value + 1) % M) else syms[i])
  }

  predicate TooLong(p: Program, n: Instr)
  {
    n.kind == Varies && Evaluate(n.expr, Env(p)).Some? && Evaluate(n.expr, Env(p)).value > 0xFF
  }

  function Lengthened(n: Instr): (n': Instr)
  {
    n.(kind := Long, opcode := n.opcode2)
  }

  function Retyped(p: Program, s: nat, k: nat): (q: Program)
    requires s < |p.segs| && k < |p.segs[s].code|
  {
    var g := p.segs[s];
    Program(p.segs[s := g.(code := g.code[k := Lengthened(g.code[k])])], Adjusted(p.syms, s, g.addr + Length(g.code[..k])))
  }

  /** One turn of cexpand's loop. */
  function Expanded1(p: Program, s: nat, k: nat): (q: Program)
    requires s < |p.segs| && k < |p.segs[s].code|
  {
    if TooLong(p, p.segs[s].code[k]) then Retyped(p, s, k) else p
  }

  /** What no relaxation changes. */
  ghost predicate SameShape(p: Program, q: Program)
  {
    && |q.segs| == |p.segs| && |q.syms| == |p.syms|
    && (forall s: nat :: s < |p.segs| ==> q.segs[s].addr == p.segs[s].addr && |q.segs[s].code| == |p.segs[s].code|)
    && (forall i: nat :: i < |p.syms| ==> q.syms[i].seg == p.syms[i].seg && q.syms[i].pos == p.syms[i].pos)
  }

  /** cexpand, after the first k instructions of segment s. */
  function ExpandedSeg(p: Program, s: nat, k: nat): (q: Program)
    requires s < |p.segs| && k <= |p.segs[s].code|
    ensures SameShape(p, q)
  {
    if k == 0 then p else Expanded1(ExpandedSeg(p, s, k - 1), s, k - 1)
  }

  /** One round of longcheck, after the first n segments. */
  function Swept(p: Program, n: nat): (q: Program)
    requires n <= |p.segs|
    ensures SameShape(p, q)
  {
    if n == 0 then p
    else var q := Swept(p, n - 1); ExpandedSeg(q, n - 1, |q.segs[n - 1].code|)
  }

  // whether every operand that is looked at has a value

  predicate HasValue(p: Program, n: Instr)
  {
    n.kind == Varies ==> Evaluate(n.expr, Env(p)).Some?
  }

  ghost predicate SegmentSound(p: Program, s: nat, k: nat)
    requires s < |p.segs| && k <= |p.segs[s].code|
  {
    k == 0 || (SegmentSound(p, s, k - 1)
               && var q := ExpandedSeg(p, s, k - 1); HasValue(q, q.segs[s].code[k - 1]))
  }

  ghost predicate SweepSound(p: Program, n: nat)
    requires n <= |p.segs|
  {
    n == 0 || (SweepSound(p, n - 1) && var q := Swept(p, n - 1); SegmentSound(q, n - 1, |q.segs[n - 1].code|))
  }

  lemma {:induction false} SegmentUnsound(p: Program, s: nat, k: nat, n: nat)
    requires s < |p.segs| && k <= n <= |p.segs[s].code| && !SegmentSound(p, s, k)
    ensures !SegmentSound(p, s, n)
  {
    if k < n {
      SegmentUnsound(p, s, k, n - 1);
    }
  }

  lemma {:induction false} SweepUnsound(p: Program, k: nat, n: nat)
    requires k <= n <= |p.segs| && !SweepSound(p, k)
    ensures !SweepSound(p, n)
  {
    if k < n {
      SweepUnsound(p, k, n - 1);
    }
  }

  // how many operands may still become longer

  function Open(code: seq<Instr>): (n: nat)
  {
    if code == [] then 0 else Open(code[..|code| - 1]) + if code[|code| - 1].kind == Varies then 1 else 0
  }

  function AllOpen(segs: seq<Segment>): (n: nat)
  {
    if segs == [] then 0 else AllOpen(segs[..|segs| - 1]) + Open(segs[|segs| - 1].code)
  }

  lemma {:induction false} OpenRetyped(code: seq<Instr>, k: nat, n: Instr)
    requires k < |code|
    ensures Open(code[k := n]) == Open(code) - (if code[k].kind == Varies then 1 else 0) + if n.kind == Varies then 1 else 0
  {
    var m := |code| - 1;
    if k < m {
      OpenRetyped(code[..m], k, n);
      assert code[k := n][..m] == code[..m][k := n];
    } else {
      assert code[k := n][..m] == code[..m];
    }
  }

  lemma {:induction false} AllOpenRetyped(segs: seq<Segment>, s: nat, g: Segment)
    requires s < |segs|
    ensures AllOpen(segs[s := g]) == AllOpen(segs) - Open(segs[s].code) + Open(g.code)
  {
    var m := |segs| - 1;
    if s < m {
      AllOpenRetyped(segs[..m], s, g);
      assert segs[s := g][..m] == segs[..m][s := g];
    } else {
      assert segs[s := g][..m] == segs[..m];
    }
  }

  /** A turn that changes anything leaves one operand less to be lengthened. */
  lemma TurnDescends(p: Program, s: nat, k: nat)
    requires s < |p.segs| && k < |p.segs[s].code|
    ensures var q := Expanded1(p, s, k);
            AllOpen(q.segs) == AllOpen(p.segs) - (if TooLong(p, p.segs[s].code[k]) then 1 else 0)
  {
    if TooLong(p, p.segs[s].code[k]) {
      var g := p.segs[s];
      var g' := g.(code := g.code[k := Lengthened(g.code[k])]);
      OpenRetyped(g.code, k, Lengthened(g.code[k]));
      AllOpenRetyped(p.segs, s, g');
    }
  }

  /** Nothing is left to be lengthened where nothing has been. */
  ghost predicate Descends(p: Program, q: Program)
  {
    AllOpen(q.segs) <= AllOpen(p.segs) && (AllOpen(q.segs) == AllOpen(p.segs) ==> q == p)
  }

  lemma {:induction false} SegmentDescends(p: Program, s: nat, k: nat)
    requires s < |p.segs| && k <= |p.segs[s].code|
    ensures Descends(p, ExpandedSeg(p, s, k))
  {
    if k > 0 {
      SegmentDescends(p, s, k - 1);
      TurnDescends(ExpandedSeg(p, s, k - 1), s, k - 1);
    }
  }

  lemma LastTurn(p: Program, s: nat, k: nat, q: Program)
    requires s < |p.segs| && 0 < k <= |p.segs[s].code| && q == ExpandedSeg(p, s, k - 1)
    ensures ExpandedSeg(p, s, k) == Expanded1(q, s, k - 1)
    ensures AllOpen(ExpandedSeg(p, s, k).segs) <= AllOpen(q.segs)
    ensures TooLong(q, q.segs[s].code[k - 1]) ==> AllOpen(ExpandedSeg(p, s, k).segs) < AllOpen(q.segs)
  {
    TurnDescends(q, s, k - 1);
  }

  /** An operand that is too long is found: fewer are open when its segment has been gone over. */
  lemma {:induction false} SegmentShrinks(p: Program, s: nat, k: nat, j: nat)
    requires s < |p.segs| && j < k <= |p.segs[s].code| && TooLong(p, p.segs[s].code[j])
    ensures AllOpen(ExpandedSeg(p, s, k).segs) < AllOpen(p.segs)
    decreases k
  {
    var q := ExpandedSeg(p, s, k - 1);
    LastTurn(p, s, k, q);
    if j < k - 1 {
      SegmentShrinks(p, s, k - 1, j);
    } else {
      SegmentDescends(p, s, k - 1);
      if AllOpen(q.segs) == AllOpen(p.segs) {
        assert q == p;
      }
    }
  }

  lemma {:induction false} SweepDescends(p: Program, n: nat)
    requires n <= |p.segs|
    ensures Descends(p, Swept(p, n))
  {
    if n > 0 {
      SweepDescends(p, n - 1);
      var q := Swept(p, n - 1);
      SegmentDescends(q, n - 1, |q.segs[n - 1].code|);
    }
  }

  lemma {:induction false} SweepShrinks(p: Program, n: nat, s: nat, j: nat)
    requires s < n <= |p.segs| && j < |p.segs[s].code| && TooLong(p, p.segs[s].code[j])
    ensures AllOpen(Swept(p, n).segs) < AllOpen(p.segs)
    decreases n
  {
    var q := Swept(p, n - 1);
    SweepDescends(p, n - 1);
    SegmentDescends(q, n - 1, |q.segs[n - 1].code|);
    if s < n - 1 {
      SweepShrinks(p, n - 1, s, j);
    } else if q == p {
      SegmentShrinks(p, s, |p.segs[s].code|, j);
    }
  }

  /** longcheck: rounds until nothing changes. */
  function Relaxed(p: Program): (q: Program)
    ensures SameShape(p, q)
    decreases AllOpen(p.segs)
  {
    var q := Swept(p, |p.segs|);
    SweepDescends(p, |p.segs|);
    if q == p then p else Relaxed(q)
  }

  /** In no round does longcheck come to an operand without a value. */
  ghost predicate RelaxSound(p: Program)
    decreases AllOpen(p.segs)
  {
    var q := Swept(p, |p.segs|);
    SweepDescends(p, |p.segs|);
    SweepSound(p, |p.segs|) && (q == p || RelaxSound(q))
  }

  /** At the end every operand that is still short has a value of one byte. */
  lemma {:induction false} RelaxedIsShort(p: Program, s: nat, k: nat)
    requires s < |p.segs| && k < |p.segs[s].code|
    ensures var q := Relaxed(p); !TooLong(q, q.segs[s].code[k])
    decreases AllOpen(p.segs)
  {
    SweepDescends(p, |p.segs|);
    var q := Swept(p, |p.segs|);
    if q != p {
      RelaxedIsShort(q, s, k);
    } else if TooLong(p, p.segs[s].code[k]) {
      SweepShrinks(p, |p.segs|, s, k);
    }
  }

  // ----- labels keep their places

  /** A label moves if it lies beyond the instruction that becomes longer, and by one. */
  lemma LabelMoves(code: seq<Instr>, k: nat, pos: nat)
    requires k < |code| && pos <= |code| && code[k].kind == Varies
    ensures Length(code[k := Lengthened(code[k])][..pos])
            == Length(code[..pos]) + if Length(code[..pos]) > Length(code[..k]) then 1 else 0
    ensures Length(code[k := Lengthened(code[k])][..pos]) <= 3 * |code|
  {
    LengthRetyped(code, k, Lengthened(code[k]), pos);
    LengthGrows(code[k := Lengthened(code[k])], 0, pos);
    if k < pos {
      LengthGrows(code, k, pos);
    } else {
      LengthGrows(code, pos, k);
    }
  }

  lemma TurnKeepsLabel(p: Program, s: nat, k: nat, i: nat)
    requires s < |p.segs| && k < |p.segs[s].code| && i < |p.syms|
    requires p.segs[s].addr + 3 * |p.segs[s].code| < M && Standing(p, p.syms[i]) && p.segs[s].code[k].kind == Varies
    ensures Standing(Retyped(p, s, k), Retyped(p, s, k).syms[i])
  {
    if p.syms[i].seg == s {
      LabelMoves(p.segs[s].code, k, p.syms[i].pos);
    }
  }

  lemma TurnKeepsLabels(p: Program, s: nat, k: nat)
    requires s < |p.segs| && k < |p.segs[s].code| && Fits(p) && AllStanding(p)
    ensures Fits(Expanded1(p, s, k)) && AllStanding(Expanded1(p, s, k))
  {
    if TooLong(p, p.segs[s].code[k]) {
      forall i: nat {:trigger p.syms[i]} | i < |p.syms|
        ensures Standing(Retyped(p, s, k), Retyped(p, s, k).syms[i])
      {
        TurnKeepsLabel(p, s, k, i);
      }
    }
  }

  lemma {:induction false} SegmentKeepsLabels(p: Program, s: nat, k: nat)
    requires s < |p.segs| && k <= |p.segs[s].code| && Fits(p) && AllStanding(p)
    ensures Fits(ExpandedSeg(p, s, k)) && AllStanding(ExpandedSeg(p, s, k))
  {
    if k > 0 {
      SegmentKeepsLabels(p, s, k - 1);
      var q := ExpandedSeg(p, s, k - 1);
      assert ExpandedSeg(p, s, k) == Expanded1(q, s, k - 1);
      TurnKeepsLabels(q, s, k - 1);
    }
  }

  lemma {:induction false} SweepKeepsLabels(p: Program, n: nat)
    requires n <= |p.segs| && Fits(p) && AllStanding(p)
    ensures Fits(Swept(p, n)) && AllStanding(Swept(p, n))
  {
    if n > 0 {
      SweepKeepsLabels(p, n - 1);
      var q := Swept(p, n - 1);
      SegmentKeepsLabels(q, n - 1, |q.segs[n - 1].code|);
    }
  }

  /** After relaxation every label still has the address at which it stands. */
  lemma {:induction false} RelaxedKeepsLabels(p: Program)
    requires Fits(p) && AllStanding(p)
    ensures Fits(Relaxed(p)) && AllStanding(Relaxed(p))
    decreases AllOpen(p.segs)
  {
    SweepDescends(p, |p.segs|);
    SweepKeepsLabels(p, |p.segs|);
    var q := Swept(p, |p.segs|);
    if q != p {
      RelaxedKeepsLabels(q);
    }
  }

  // ----- emission

  function Signed(w: Word): (i: int)
    ensures -0x8000_0000 <= i < 0x8000_0000
  {
    if w < 0x8000_0000 then w else w - M
  }

  /** putchar */
  function Low(i: int): (b: Byte)
  {
    i % 256
  }

  /** putchar of hibyte */
  function High(i: int): (b: Byte)
  {
    i / 256 % 256
  }

  /** What cemit puts out for an instruction whose operand has the value w; None where it croaks. */
  function EmittedWith(n: Instr, next: nat, w: Word): (bytes: Option<seq<Byte>>)
    ensures bytes.Some? ==> |bytes.value| == Size(n.kind)
  {
    var i := Signed(w);
    match n.kind
    case NoArg => Some([n.opcode])
    case Short => if -128 <= i <= 255 then Some([n.opcode, Low(i)]) else None
    case Varies => if -128 <= i <= 255 then Some([n.opcode, Low(i)]) else None
    case Branch =>
      var d := Signed(Add(w, Negative(next % M)));
      if -128 <= d <= 127 then Some([n.opcode, Low(d)]) else None
    case Long => Some([n.opcode, Low(i), High(i)])
    case Data1 => if -128 <= i <= 255 then Some([Low(i)]) else None
    case Data2 => Some([Low(i), High(i)])
  }

  /** What it puts out for an instruction that ends at `next`: nothing if the operand has no value. */
  function Emitted(n: Instr, next: nat, env: seq<Word>): (bytes: Option<seq<Byte>>)
    ensures bytes.Some? ==> |bytes.value| == Size(n.kind)
  {
    var w := if n.kind == NoArg then Some(0) else Evaluate(n.expr, env);
    if w.None? then None else EmittedWith(n, next, w.value)
  }

  /** cemit, after the first k instructions. */
  function EmittedCode(code: seq<Instr>, addr: nat, env: seq<Word>, k: nat): (bytes: Option<seq<Byte>>)
    requires k <= |code|
    ensures bytes.Some? ==> |bytes.value| == Length(code[..k])
  {
    if k == 0 then Some([])
    else
      assert code[..k][..k - 1] == code[..k - 1];
      var before, n := EmittedCode(code, addr, env, k - 1), code[k - 1];
      var more := Emitted(n, addr + Length(code[..k]), env);
      if before.None? || more.None? then None else Some(before.value + more.value)
  }

  function Zeros(n: nat): (bytes: seq<Byte>)
    ensures |bytes| == n
  {
    seq(n, _ => 0)
  }

  /** link, after the first n segments: up to each segment's address there are zeros. */
  function Linked(segs: seq<Segment>, env: seq<Word>, n: nat): (file: Option<seq<Byte>>)
    requires n <= |segs|
  {
    if n == 0 then Some([])
    else
      var g := segs[n - 1];
      var before := Linked(segs, env, n - 1);
      var bytes := EmittedCode(g.code, g.addr, env, |g.code|);
      if before.None? || bytes.None? then None
      else
        var gap := if |before.value| < g.addr then g.addr - |before.value| else 0;
        Some(before.value + Zeros(gap) + bytes.value)
  }

  function Ends(g: Segment): (e: nat)
  {
    g.addr + Length(g.code)
  }

  /** What segcheck makes sure of, for the sorted table. */
  predicate Checked(segs: seq<Segment>)
  {
    forall i: nat :: i + 1 < |segs| ==> Ends(segs[i]) <= segs[i + 1].addr
  }

  predicate Disjoint(g: Segment, h: Segment)
  {
    Ends(g) <= h.addr || Ends(h) <= g.addr
  }

  lemma {:induction false} CheckedInOrder(segs: seq<Segment>, i: nat, j: nat)
    requires Checked(segs) && i < j < |segs|
    ensures Ends(segs[i]) <= segs[j].addr
    decreases j - i
  {
    if i + 1 < j {
      CheckedInOrder(segs, i, j - 1);
      assert Ends(segs[j - 1]) <= segs[j - 1 + 1].addr;
    }
  }

  /** The order of compseg: by address, and then by length. */
  predicate Sorted(segs: seq<Segment>)
  {
    forall i: nat :: i + 1 < |segs| ==> Before(segs[i], segs[i + 1])
  }

  predicate Before(g: Segment, h: Segment)
  {
    g.addr < h.addr || (g.addr == h.addr && Length(g.code) <= Length(h.code))
  }

  ghost predicate AllDisjoint(segs: seq<Segment>)
  {
    forall i: nat, j: nat :: i < j < |segs| ==> Disjoint(segs[i], segs[j])
  }

  lemma OverlapIsFound(segs: seq<Segment>)
    requires Sorted(segs) && AllDisjoint(segs)
    ensures Checked(segs)
  {
    forall i: nat {:trigger segs[i]} | i + 1 < |segs|
      ensures Ends(segs[i]) <= segs[i + 1].addr
    {
      var j := i + 1;
      assert Before(segs[i], segs[j]) && Disjoint(segs[i], segs[j]);
    }
  }

  /** Sorted segments pass the check exactly when no two of them, in whatever places, overlap. */
  lemma CheckFindsOverlaps(segs: seq<Segment>)
    requires Sorted(segs)
    ensures Checked(segs) <==> AllDisjoint(segs)
  {
    if Checked(segs) {
      forall i: nat, j: nat | i < j < |segs|
        ensures Disjoint(segs[i], segs[j])
      {
        CheckedInOrder(segs, i, j);
      }
    } else if AllDisjoint(segs) {
      OverlapIsFound(segs);
    }
  }

  lemma {:induction false} LinkedLength(segs: seq<Segment>, env: seq<Word>, n: nat)
    requires Checked(segs) && n <= |segs| && Linked(segs, env, n).Some?
    ensures |Linked(segs, env, n).value| == if n == 0 then 0 else Ends(segs[n - 1])
  {
    if n > 0 {
      LinkedLength(segs, env, n - 1);
      var g := segs[n - 1];
      assert g.code[..|g.code|] == g.code;
      assert n > 1 ==> Ends(segs[n - 2]) <= segs[n - 2 + 1].addr;
    }
  }

  lemma SliceOfFront(before: seq<Byte>, gap: seq<Byte>, more: seq<Byte>, from: nat, to: nat)
    requires from <= to <= |before|
    ensures (before + gap + more)[from..to] == before[from..to]
  {
  }

  /** How segment n - 1 is appended. */
  lemma LinkedStep(segs: seq<Segment>, env: seq<Word>, n: nat)
    requires Checked(segs) && 0 < n <= |segs| && Linked(segs, env, n).Some?
    ensures var g := segs[n - 1];
            var before, bytes := Linked(segs, env, n - 1), EmittedCode(g.code, g.addr, env, |g.code|);
            before.Some? && bytes.Some? && |before.value| <= g.addr && |bytes.value| == Length(g.code)
            && Linked(segs, env, n) == Some(before.value + Zeros(g.addr - |before.value|) + bytes.value)
  {
    LinkedLength(segs, env, n - 1);
    assert segs[n - 1].code[..|segs[n - 1].code|] == segs[n - 1].code;
    assert n > 1 ==> Ends(segs[n - 2]) <= segs[n - 2 + 1].addr;
  }

  /** The code of segment s lies at its address in the file. */
  ghost predicate InFile(file: seq<Byte>, g: Segment, env: seq<Word>)
  {
    Ends(g) <= |file| && EmittedCode(g.code, g.addr, env, |g.code|) == Some(file[g.addr..Ends(g)])
  }

  lemma StaysInFile(before: seq<Byte>, file: seq<Byte>, g: Segment, env: seq<Word>)
    requires InFile(before, g, env) && |before| <= |file| && file[g.addr..Ends(g)] == before[g.addr..Ends(g)]
    ensures InFile(file, g, env)
  {
  }

  lemma LastInFile(before: seq<Byte>, gap: seq<Byte>, bytes: seq<Byte>, g: Segment, env: seq<Word>)
    requires |before| + |gap| == g.addr && |bytes| == Length(g.code)
    requires EmittedCode(g.code, g.addr, env, |g.code|) == Some(bytes)
    ensures InFile(before + gap + bytes, g, env)
  {
    assert (before + gap + bytes)[g.addr..Ends(g)] == bytes;
  }

  lemma LastSegmentInFile(segs: seq<Segment>, env: seq<Word>, n: nat)
    requires Checked(segs) && 0 < n <= |segs| && Linked(segs, env, n).Some?
    ensures InFile(Linked(segs, env, n).value, segs[n - 1], env)
  {
    LinkedStep(segs, env, n);
    var g := segs[n - 1];
    var before := Linked(segs, env, n - 1).value;
    LastInFile(before, Zeros(g.addr - |before|), EmittedCode(g.code, g.addr, env, |g.code|).value, g, env);
  }

  lemma EarlierSegmentInFile(segs: seq<Segment>, env: seq<Word>, n: nat, g: Segment)
    requires Checked(segs) && 0 < n <= |segs| && Linked(segs, env, n).Some? && Linked(segs, env, n - 1).Some?
    requires InFile(Linked(segs, env, n - 1).value, g, env)
    ensures InFile(Linked(segs, env, n).value, g, env)
  {
    LinkedStep(segs, env, n);
    var h, before := segs[n - 1], Linked(segs, env, n - 1).value;
    var gap, bytes := Zeros(h.addr - |before|), EmittedCode(h.code, h.addr, env, |h.code|).value;
    SliceOfFront(before, gap, bytes, g.addr, Ends(g));
    StaysInFile(before, before + gap + bytes, g, env);
  }

  lemma {:induction false} SegmentInFile(segs: seq<Segment>, env: seq<Word>, n: nat, s: nat)
    requires Checked(segs) && s < n <= |segs| && Linked(segs, env, n).Some?
    ensures InFile(Linked(segs, env, n).value, segs[s], env)
    decreases n
  {
    if s < n - 1 {
      SegmentInFile(segs, env, n - 1, s);
      EarlierSegmentInFile(segs, env, n, segs[s]);
    } else {
      LastSegmentInFile(segs, env, n);
    }
  }

  ghost predicate InCode(bytes: seq<Byte>, code: seq<Instr>, addr: nat, env: seq<Word>, k: nat)
    requires k < |code|
  {
    var from, to := Length(code[..k]), Length(code[..k + 1]);
    from <= to <= |bytes| && Emitted(code[k], addr + to, env) == Some(bytes[from..to])
  }

  lemma StaysInCode(before: seq<Byte>, more: seq<Byte>, code: seq<Instr>, addr: nat, env: seq<Word>, k: nat)
    requires k < |code| && InCode(before, code, addr, env, k)
    ensures InCode(before + more, code, addr, env, k)
  {
    var from, to := Length(code[..k]), Length(code[..k + 1]);
    assert (before + more)[from..to] == before[from..to];
  }

  lemma EmittedStep(code: seq<Instr>, addr: nat, env: seq<Word>, n: nat)
    requires 0 < n <= |code| && EmittedCode(code, addr, env, n).Some?
    ensures var before, more := EmittedCode(code, addr, env, n - 1), Emitted(code[n - 1], addr + Length(code[..n]), env);
            before.Some? && more.Some? && EmittedCode(code, addr, env, n) == Some(before.value + more.value)
            && |before.value| == Length(code[..n - 1]) && |before.value + more.value| == Length(code[..n])
  {
  }

  lemma {:induction false} InstrInCode(code: seq<Instr>, addr: nat, env: seq<Word>, n: nat, k: nat)
    requires k < n <= |code| && EmittedCode(code, addr, env, n).Some?
    ensures InCode(EmittedCode(code, addr, env, n).value, code, addr, env, k)
    decreases n
  {
    EmittedStep(code, addr, env, n);
    var before := EmittedCode(code, addr, env, n - 1).value;
    var more := Emitted(code[n - 1], addr + Length(code[..n]), env).value;
    if k < n - 1 {
      InstrInCode(code, addr, env, n - 1, k);
      StaysInCode(before, more, code, addr, env, k);
    } else {
      assert (before + more)[|before|..|before + more|] == more;
    }
  }

  /** The bytes of instruction k lie at its address, which is the segment's and the sizes of those before it. */
  ghost predicate InstrAt(file: seq<Byte>, g: Segment, env: seq<Word>, k: nat)
    requires k < |g.code|
  {
    var at, to := g.addr + Length(g.code[..k]), g.addr + Length(g.code[..k + 1]);
    at <= to <= |file| && Emitted(g.code[k], to, env) == Some(file[at..to])
  }

  /** In a file that has been linked without a complaint, every instruction's bytes are at its own address. */
  lemma {:induction false} InstrInFile(segs: seq<Segment>, env: seq<Word>, s: nat, k: nat)
    requires Checked(segs) && s < |segs| && k < |segs[s].code| && Linked(segs, env, |segs|).Some?
    ensures InstrAt(Linked(segs, env, |segs|).value, segs[s], env, k)
  {
    SegmentInFile(segs, env, |segs|, s);
    InstrInSegment(Linked(segs, env, |segs|).value, segs[s], env, k);
  }

  lemma InCodeIsInFile(file: seq<Byte>, bytes: seq<Byte>, g: Segment, env: seq<Word>, k: nat)
    requires k < |g.code| && InCode(bytes, g.code, g.addr, env, k) && Ends(g) <= |file| && bytes == file[g.addr..Ends(g)]
    ensures InstrAt(file, g, env, k)
  {
    SliceWithin(file, g.addr, Ends(g), Length(g.code[..k]), Length(g.code[..k + 1]));
  }

  lemma InstrInSegment(file: seq<Byte>, g: Segment, env: seq<Word>, k: nat)
    requires k < |g.code| && InFile(file, g, env)
    ensures InstrAt(file, g, env, k)
  {
    InstrInCode(g.code, g.addr, env, |g.code|, k);
    InCodeIsInFile(file, file[g.addr..Ends(g)], g, env, k);
  }

  lemma SliceWithin(file: seq<Byte>, a: nat, b: nat, from: nat, to: nat)
    requires a <= b <= |file| && from <= to <= b - a
    ensures file[a..b][from..to] == file[a + from..a + to]
  {
    var x, y := file[a..b][from..to], file[a + from..a + to];
    forall i: nat | i < to - from
      ensures x[i] == y[i]
    {
      assert x[i] == file[a..b][from + i];
    }
  }

  // ----- what the operands mean

  function SignedByte(b: Byte): (i: int)
  {
    if b < 128 then b else b - 256
  }

  /** A branch that is emitted reaches its target: the address of the next instruction and the displacement,
      taken as a signed byte, make the value of the operand. */
  lemma BranchReaches(n: Instr, next: Word, env: seq<Word>)
    requires n.kind == Branch
    ensures var e, w := Emitted(n, next, env), Evaluate(n.expr, env);
            (e.Some? <==> w.Some? && var d := w.value - next; -128 <= d <= 127 || -128 <= d + M <= 127 || -128 <= d - M <= 127)
            && (e.Some? ==> (next + SignedByte(e.value[1]) + M) % M == w.value)
  {
    var w := Evaluate(n.expr, env);
    assert next % M == next;
  }

  /** In particular a branch to a label lands on the instruction before which the label stands. */
  lemma BranchLandsOnLabel(p: Program, n: Instr, next: Word, id: nat)
    requires AllStanding(p) && id < |p.syms| && n.kind == Branch && n.expr == Postfix(Leaf(id))
    requires Emitted(n, next, Env(p)).Some?
    ensures var y := p.syms[id];
            var target := p.segs[y.seg].addr + Length(p.segs[y.seg].code[..y.pos]);
            (next + SignedByte(Emitted(n, next, Env(p)).value[1]) + M) % M == target
  {
    BranchReaches(n, next, Env(p));
    EvaluateIsMeaning(Leaf(id), Env(p));
    assert Standing(p, p.syms[id]);
  }

  /** A one-byte operand that has survived relaxation is emitted as it is, without a complaint. */
  lemma ShortIsEmitted(p: Program, n: Instr, next: nat)
    requires n.kind == Varies && !TooLong(p, n)
    ensures var w := Evaluate(n.expr, Env(p));
            Emitted(n, next, Env(p)) == if w.Some? then Some([n.opcode, w.value]) else None
  {
  }
}
