/**
 The assembler's back end as it is written: a table of segments, one of which is unpacked into variables, and
 a list of symbols whose values are changed in place.
 */
module Assembler {

  import opened Basics
  import opened Word32
  import opened Expr
  import opened As65
  import opened As65File

  datatype Entry = Entry(addr: nat, len: nat, code: seq<Instr>)

  function SegmentOf(e: Entry): (g: Segment)
  {
    Segment(e.addr, e.code)
  }

  function SegmentsOf(table: seq<Entry>): (segs: seq<Segment>)
    ensures |segs| == |table|
  {
    seq(|table|, i requires 0 <= i < |table| => SegmentOf(table[i]))
  }

  // ----- qsort, with compseg

  predicate EntryFits(e: Entry)
  {
    e.addr < M && e.len < M
  }

  predicate EntriesFit(t: seq<Entry>)
  {
    forall s: nat :: s < |t| ==> EntryFits(t[s])
  }

  predicate LowEntries(t: seq<Entry>)
  {
    forall s: nat :: s < |t| ==> t[s].addr < 0x8000_0000 && t[s].len < 0x8000_0000
  }

  predicate InOrder(t: seq<Entry>)
  {
    forall s: nat :: s + 1 < |t| ==> Comes(t[s].addr, t[s].len, t[s + 1].addr, t[s + 1].len)
  }

  /** One entry put into its place, as compseg has it. */
  method Insert(t: seq<Entry>, e: Entry) returns (t': seq<Entry>)
    requires EntriesFit(t) && EntryFits(e)
    ensures multiset(t') == multiset(t) + multiset{e} && EntriesFit(t')
    ensures LowEntries(t + [e]) && InOrder(t) ==> InOrder(t')
  {
    var i: nat := |t|;
    while i > 0 && CompSeg(e.addr, e.len, t[i - 1].addr, t[i - 1].len) < 0
      invariant i <= |t|
      invariant i < |t| ==> EntryFits(t[i]) && CompSeg(e.addr, e.len, t[i].addr, t[i].len) < 0
    {
      i := i - 1;
    }
    t' := t[..i] + [e] + t[i..];
    InsertedSame(t, e, i);
    if LowEntries(t + [e]) && InOrder(t) {
      InsertedInOrder(t, e, i);
    }
  }

  lemma InsertedSame(t: seq<Entry>, e: Entry, i: nat)
    requires i <= |t| && EntriesFit(t) && EntryFits(e)
    ensures multiset(t[..i] + [e] + t[i..]) == multiset(t) + multiset{e} && EntriesFit(t[..i] + [e] + t[i..])
  {
    assert t == t[..i] + t[i..];
  }

  lemma InsertedInOrder(t: seq<Entry>, e: Entry, i: nat)
    requires i <= |t| && LowEntries(t + [e]) && InOrder(t) && EntriesFit(t) && EntryFits(e)
    requires i < |t| ==> CompSeg(e.addr, e.len, t[i].addr, t[i].len) < 0
    requires i > 0 ==> CompSeg(e.addr, e.len, t[i - 1].addr, t[i - 1].len) >= 0
    ensures InOrder(t[..i] + [e] + t[i..])
  {
    var t1 := t[..i] + [e] + t[i..];
    assert (t + [e])[|t|] == e;
    forall s: nat | s + 1 < |t1|
      ensures Comes(t1[s].addr, t1[s].len, t1[s + 1].addr, t1[s + 1].len)
    {
      if s + 1 < i {
        assert t1[s] == t[s] && t1[s + 1] == t[s + 1];
      } else if s + 1 == i {
        assert t1[s] == t[s] == (t + [e])[s] && t1[s + 1] == e;
        CompSegOrders(e.addr, e.len, t[s].addr, t[s].len);
      } else if s == i {
        assert t1[s] == e && t1[s + 1] == t[s] == (t + [e])[s];
        CompSegOrders(e.addr, e.len, t[s].addr, t[s].len);
      } else {
        assert t1[s] == t[s - 1] && t1[s + 1] == t[s - 1 + 1];
      }
    }
  }

  /** qsort, on which only this is asked: the same entries, and in order if compseg is one. */
  method QSort(t: seq<Entry>) returns (sorted: seq<Entry>)
    requires EntriesFit(t)
    ensures multiset(sorted) == multiset(t)
    ensures LowEntries(t) ==> InOrder(sorted)
  {
    sorted := [];
    for i := 0 to |t|
      invariant multiset(sorted) == multiset(t[..i]) && EntriesFit(sorted)
      invariant LowEntries(t) ==> InOrder(sorted)
    {
      assert t[..i + 1] == t[..i] + [t[i]];
      if LowEntries(t) {
        StaysLow(t, sorted, i);
      }
      sorted := Insert(sorted, t[i]);
    }
    assert t[..|t|] == t;
  }

  lemma StaysLow(t: seq<Entry>, sorted: seq<Entry>, i: nat)
    requires i < |t| && LowEntries(t) && multiset(sorted) == multiset(t[..i])
    ensures LowEntries(sorted + [t[i]])
  {
    forall s: nat | s < |sorted + [t[i]]|
      ensures (sorted + [t[i]])[s] in multiset(t)
    {
      assert t == t[..i] + t[i..];
      if s < |sorted| {
        assert sorted[s] in multiset(t[..i]);
      }
    }
    forall s: nat {:trigger (sorted + [t[i]])[s]} | s < |sorted + [t[i]]|
      ensures (sorted + [t[i]])[s].addr < 0x8000_0000 && (sorted + [t[i]])[s].len < 0x8000_0000
    {
      var j: nat :| j < |t| && t[j] == (sorted + [t[i]])[s];
    }
  }

  lemma {:induction false} SameEntries(a: seq<Entry>, b: seq<Entry>)
    requires multiset(a) == multiset(b)
    ensures SameSegments(SegmentsOf(a), SegmentsOf(b))
    decreases |a|
  {
    if a == [] {
      assert |b| == |multiset(b)| == 0;
    } else {
      assert a[0] in multiset(b);
      var k: nat :| k < |b| && b[k] == a[0];
      EntriesWithout(a, b, k);
      SameEntries(a[1..], b[..k] + b[k + 1..]);
      SameAgain(a, b, k);
    }
  }

  lemma {:induction false} EntriesWithout(a: seq<Entry>, b: seq<Entry>, k: nat)
    requires multiset(a) == multiset(b) && a != [] && k < |b| && b[k] == a[0]
    ensures multiset(a[1..]) == multiset(b[..k] + b[k + 1..])
  {
    WithoutFirst(a);
    WithoutOne(b, k);
  }

  lemma {:induction false} WithoutFirst(a: seq<Entry>)
    requires a != []
    ensures multiset(a[1..]) == multiset(a) - multiset{a[0]}
  {
    assert a == [a[0]] + a[1..];
  }

  lemma SameAgain(a: seq<Entry>, b: seq<Entry>, k: nat)
    requires a != [] && k < |b| && b[k] == a[0] && SameSegments(SegmentsOf(a[1..]), SegmentsOf(b[..k] + b[k + 1..]))
    ensures SameSegments(SegmentsOf(a), SegmentsOf(b))
  {
    SegmentsWithout(a, 0);
    SegmentsWithout(b, k);
    assert a[1..] == a[..0] + a[1..];
  }

  lemma SegmentsWithout(t: seq<Entry>, k: nat)
    requires k < |t|
    ensures multiset(SegmentsOf(t)) == multiset(SegmentsOf(t[..k] + t[k + 1..])) + multiset{SegmentOf(t[k])}
  {
    var segs := SegmentsOf(t);
    WithoutOne(segs, k);
    assert segs[..k] + segs[k + 1..] == SegmentsOf(t[..k] + t[k + 1..]);
  }

  class Backend {
    var segtab: seq<Entry>
    var segment: nat
    var segaddr: nat
    var seglen: nat
    var segcode: seq<Instr>
    var syms: seq<Symbol>     // `pos` is not kept by the source
    var out: seq<Byte>

    /** The table as it is once the current segment has been put back. */
    ghost function Flushed(): (t: seq<Entry>)
      requires segment < |segtab|
      reads this
    {
      segtab[segment := Entry(segtab[segment].addr, seglen, segcode)]
    }

    ghost predicate LengthRight(e: Entry)
    {
      e.len == Length(e.code)
    }

    ghost predicate LengthsRight(t: seq<Entry>)
    {
      forall s: nat :: s < |t| ==> LengthRight(t[s])
    }

    ghost predicate Valid()
      reads this
    {
      segment < |segtab| && segaddr == segtab[segment].addr && LengthsRight(Flushed())
    }

    ghost function View(): (p: Program)
      requires Valid()
      reads this
    {
      Program(SegmentsOf(Flushed()), syms)
    }

    constructor ()
      ensures Valid() && View() == Program([Segment(0, [])], []) && out == []
    {
      segtab, segment, segaddr, seglen, segcode := [Entry(0, 0, [])], 0, 0, 0, [];
      syms, out := [], [];
      new;
      assert SegmentsOf(Flushed()) == [Segment(0, [])];
    }

    // ----- segments

    /** flushseg */
    method FlushSeg()
      requires Valid()
      modifies this`segtab
      ensures Valid() && segtab == old(Flushed()) && View() == old(View())
    {
      segtab := segtab[segment := segtab[segment].(len := seglen, code := segcode)];
      assert Flushed() == segtab;
    }

    /** selectseg */
    method SelectSeg(s: nat)
      requires s < |segtab| && LengthsRight(segtab)
      modifies this`segment, this`segaddr, this`seglen, this`segcode
      ensures Valid() && segment == s && Flushed() == segtab && segcode == segtab[s].code
    {
      segment := s;
      segaddr, seglen, segcode := segtab[s].addr, segtab[s].len, segtab[s].code;
      assert Flushed() == segtab;
    }

    /** segselect */
    method SegSelect(s: nat) returns (there: bool)
      requires Valid()
      modifies this`segtab, this`segment, this`segaddr, this`seglen, this`segcode
      ensures Valid() && View() == old(View()) && |segtab| == old(|segtab|)
      ensures there <==> s < |segtab|
      ensures there ==> segment == s
    {
      if s >= |segtab| {
        return false;
      }
      FlushSeg();
      SelectSeg(s);
      there := true;
    }

    /** segcreate; the table has room for nine segments. */
    method SegCreate(addr: nat) returns (ok: bool)
      requires Valid()
      modifies this`segtab, this`segment, this`segaddr, this`seglen, this`segcode
      ensures Valid()
      ensures ok <==> old(|segtab|) < 9
      ensures View() == if ok then Program(old(View()).segs + [Segment(addr, [])], syms) else old(View())
      ensures ok ==> segment == old(|segtab|)
    {
      FlushSeg();
      ok := |segtab| < 9;
      if ok {
        var n := |segtab|;
        segtab := segtab + [Entry(addr, 0, [])];
        SelectSeg(n);
        assert SegmentsOf(segtab) == old(View()).segs + [Segment(addr, [])];
      }
    }

    // ----- code and labels, as they are parsed

    /** newinstr, and what its callers fill in. */
    method NewInstr(n: Instr)
      requires Valid() && Fits(View()) && AllStanding(View())
      modifies this`seglen, this`segcode
      ensures Valid() && AllStanding(View())
      ensures var g := old(View()).segs[segment];
              View() == Program(old(View()).segs[segment := g.(code := g.code + [n])], syms)
    {
      ghost var p := View();
      segcode := segcode + [n];
      seglen := seglen + Size(n.kind);
      assert segcode[..|segcode| - 1] == p.segs[segment].code;
      assert forall s: nat :: s < |segtab| && s != segment ==> LengthRight(segtab[s]) by {
        assert forall s: nat :: s < |segtab| && s != segment ==> old(Flushed())[s] == segtab[s];
      }
      assert View().segs == p.segs[segment := p.segs[segment].(code := p.segs[segment].code + [n])];
      AppendKeepsLabels(p, segment, n);
    }

    static lemma AppendKeepsLabels(p: Program, s: nat, n: Instr)
      requires AllStanding(p) && s < |p.segs|
      ensures AllStanding(Program(p.segs[s := p.segs[s].(code := p.segs[s].code + [n])], p.syms))
    {
      var q := Program(p.segs[s := p.segs[s].(code := p.segs[s].code + [n])], p.syms);
      forall i: nat {:trigger q.syms[i]} | i < |q.syms|
        ensures Standing(q, q.syms[i])
      {
        var y := p.syms[i];
        assert Standing(p, y);
        if y.seg == s {
          assert q.segs[s].code[..y.pos] == p.segs[s].code[..y.pos];
        }
      }
    }

    /** sdefine, sdeflocal: a label for what comes next. */
    method Define()
      requires Valid() && Fits(View()) && AllStanding(View())
      modifies this`syms
      ensures Valid() && AllStanding(View())
      ensures View().segs == old(View()).segs && |syms| == old(|syms|) + 1 && syms[..|syms| - 1] == old(syms)
      ensures syms[|syms| - 1].seg == segment && syms[|syms| - 1].pos == |segcode|
    {
      ghost var p := View();
      assert p.segs[segment] == Segment(segaddr, segcode) && seglen == Length(segcode);
      assert segcode[..|segcode|] == segcode;
      LengthGrows(segcode, 0, |segcode|);
      assert p.segs[segment].addr + 3 * |p.segs[segment].code| < M;
      syms := syms + [Symbol(segment, |segcode|, segaddr + seglen)];
      forall i: nat {:trigger syms[i]} | i < |syms|
        ensures Standing(View(), syms[i])
      {
        assert i < |p.syms| ==> Standing(p, p.syms[i]);
      }
    }

    // ----- relaxation

    /** sadjust */
    method Adjust(addr: nat)
      modifies this`syms
      ensures syms == Adjusted(old(syms), segment, addr)
    {
      ghost var before := syms;
      for i := 0 to |syms|
        invariant |syms| == |before|
        invariant forall j: nat :: j < |syms| ==> syms[j] == if j < i then Adjusted(before, segment, addr)[j] else before[j]
      {
        if syms[i].seg == segment && syms[i].value > addr {
          syms := syms[i := syms[i].(value := (syms[i].value + 1) % M)];
        }
      }
      assert syms == Adjusted(before, segment, addr);
    }

    static lemma RetypedLength(code: seq<Instr>, k: nat)
      requires k < |code| && code[k].kind == Varies
      ensures Length(code[k := Lengthened(code[k])]) == Length(code) + 1
    {
      LengthRetyped(code, k, Lengthened(code[k]), |code|);
      assert code[k := Lengthened(code[k])][..|code|] == code[k := Lengthened(code[k])] && code[..|code|] == code;
    }

    /** The part of cexpand's loop that makes an instruction longer. */
    method Retype(k: nat, addr: nat)
      requires Valid() && k < |segcode| && addr == segaddr + Length(segcode[..k]) && segcode[k].kind == Varies
      modifies this`segcode, this`seglen, this`syms
      ensures Valid() && View() == Retyped(old(View()), segment, k)
      ensures segcode == old(segcode)[k := Lengthened(old(segcode[k]))]
    {
      ghost var p, code := View(), segcode;
      RetypedLength(segcode, k);
      var n := segcode[k];
      segcode := segcode[k := n.(kind := Long, opcode := n.opcode2)];
      var i := Size(Long) - Size(Varies);
      Adjust(addr);
      seglen := seglen + i;
      assert p.segs[segment] == Segment(segaddr, code);
      assert forall s: nat :: s < |segtab| && s != segment ==> LengthRight(segtab[s]) by {
        assert forall s: nat :: s < |segtab| && s != segment ==> old(Flushed())[s] == segtab[s];
      }
      assert View().segs == Retyped(p, segment, k).segs;
    }

    ghost function Code(): (code: seq<Instr>)
      requires Valid()
      reads this
      ensures code == segcode
    {
      View().segs[segment].code
    }

    /** The body of cexpand's loop; not ok if the operand has no value. */
    method ExpandInstr(k: nat, addr: nat) returns (ok: bool, changed: bool)
      requires Valid() && k < |segcode| && addr == segaddr + Length(segcode[..k])
      modifies this`segcode, this`seglen, this`syms
      ensures ok <==> HasValue(old(View()), old(segcode[k]))
      ensures Valid() && View() == Expanded1(old(View()), segment, k)
      ensures |segcode| == old(|segcode|) && segcode[..k] == old(segcode[..k])
      ensures changed <==> TooLong(old(View()), old(segcode[k]))
    {
      assert Env(Program([], syms)) == Env(View());
      assert Code() == segcode;
      ok, changed := true, false;
      if segcode[k].kind == Varies {
        var w := EvaluateInPlace(segcode[k].expr, Env(Program([], syms)));
        ok, changed := w.Some?, w.Some? && w.value > 0xFF;
      }
      if changed {
        Retype(k, addr);
      }
    }

    /** Something has changed exactly when fewer operands are open. */
    ghost predicate Marks(changed: bool, p: Program, q: Program)
    {
      AllOpen(q.segs) <= AllOpen(p.segs) && (changed <==> AllOpen(q.segs) < AllOpen(p.segs))
    }

    /** The first k instructions of the segment have been gone over, and the next one is at addr. */
    ghost predicate ExpandedUpTo(p: Program, k: nat, addr: nat, changed: bool)
      reads this
    {
      && Valid() && segment < |p.segs| && k <= |segcode| == |p.segs[segment].code|
      && addr == segaddr + Length(segcode[..k])
      && View() == ExpandedSeg(p, segment, k) && Marks(changed, p, View()) && SegmentSound(p, segment, k)
    }

    method ExpandNext(ghost p: Program, k: nat, addr: nat, changed: bool) returns (ok: bool, addr': nat, changed': bool)
      requires ExpandedUpTo(p, k, addr, changed) && k < |segcode|
      modifies this`segcode, this`seglen, this`syms
      ensures |segcode| == old(|segcode|) == |p.segs[segment].code| && Valid()
      ensures if ok then ExpandedUpTo(p, k + 1, addr', changed') else !SegmentSound(p, segment, k + 1)
    {
      assert Code() == segcode;
      TurnDescends(View(), segment, k);
      var c;
      ok, c := ExpandInstr(k, addr);
      assert segcode[..k + 1][..k] == segcode[..k];
      addr' := addr + Size(segcode[k].kind);
      changed' := changed || c;
    }

    /** cexpand, for the current segment; not ok where it cannot go on. */
    method Expand() returns (ok: bool, changed: bool)
      requires Valid()
      modifies this`segcode, this`seglen, this`syms
      ensures Valid() && |segcode| == old(|segcode|) && |segcode| == |old(View()).segs[segment].code|
      ensures ok <==> SegmentSound(old(View()), segment, |segcode|)
      ensures ok ==> segcode == View().segs[segment].code
      ensures ok ==> View() == ExpandedSeg(old(View()), segment, |segcode|) && Marks(changed, old(View()), View())
    {
      ghost var p := View();
      assert Code() == segcode;
      ok, changed := ExpandFrom(p);
      assert Code() == segcode;
    }

    /** The loop of cexpand. */
    method ExpandFrom(ghost p: Program) returns (ok: bool, changed: bool)
      requires ExpandedUpTo(p, 0, segaddr, false)
      modifies this`segcode, this`seglen, this`syms
      ensures Valid() && |segcode| == old(|segcode|)
      ensures if ok then exists addr: nat :: ExpandedUpTo(p, |segcode|, addr, changed)
              else |segcode| == |p.segs[segment].code| && !SegmentSound(p, segment, |segcode|)
    {
      ok, changed := true, false;
      var addr, k, n := segaddr, 0, |segcode|;
      while ok && k < n
        invariant k <= n && ExpandAt(p, k, n, ok, addr, changed)
      {
        ok, addr, changed := ExpandNext(p, k, addr, changed);
        k := k + 1;
        if !ok {
          SegmentUnsound(p, segment, k, n);
        }
      }
    }

    /** Where the expansion of a segment of n instructions stands: in order so far, or given up. */
    ghost predicate ExpandAt(p: Program, k: nat, n: nat, ok: bool, addr: nat, changed: bool)
      reads this
    {
      && Valid() && |segcode| == n
      && if ok then ExpandedUpTo(p, k, addr, changed)
         else segment < |p.segs| && n == |p.segs[segment].code| && !SegmentSound(p, segment, n)
    }

    /** What is left to do after a round that went well is what was left before. */
    ghost predicate Leads(p: Program, q: Program)
    {
      Relaxed(q) == Relaxed(p) && (RelaxSound(q) <==> RelaxSound(p))
    }

    lemma RoundRelaxes(p: Program, q: Program, changed: bool)
      requires q == Swept(p, |p.segs|) && Marks(changed, p, q)
      ensures Relaxed(q) == Relaxed(p) && (!changed ==> q == Relaxed(p))
    {
      SweepDescends(p, |p.segs|);
    }

    lemma RoundLeads(first: Program, p: Program, q: Program, changed: bool)
      requires Leads(first, p) && q == Swept(p, |p.segs|) && Marks(changed, p, q) && SweepSound(p, |p.segs|)
      ensures AllOpen(q.segs) <= AllOpen(p.segs) && (changed ==> AllOpen(q.segs) < AllOpen(p.segs))
      ensures if changed then Leads(first, q) else q == Relaxed(first) && RelaxSound(first)
    {
      RoundRelaxes(p, q, changed);
      RoundSound(p, q, changed);
    }

    lemma RoundSound(p: Program, q: Program, changed: bool)
      requires q == Swept(p, |p.segs|) && Marks(changed, p, q) && SweepSound(p, |p.segs|)
      ensures if changed then RelaxSound(p) <==> RelaxSound(q) else RelaxSound(p)
    {
      SweepDescends(p, |p.segs|);
    }

    lemma RoundFails(first: Program, p: Program)
      requires Leads(first, p) && !SweepSound(p, |p.segs|)
      ensures !RelaxSound(first)
    {
    }

    /** A round, and what it means for the whole. */
    method RoundOf(ghost first: Program, ghost p: Program) returns (ok: bool, changed: bool)
      requires Valid() && View() == p && Leads(first, p)
      modifies this`segtab, this`segment, this`segaddr, this`seglen, this`segcode, this`syms
      ensures if ok then Valid() && (changed ==> Leads(first, View()) && AllOpen(View().segs) < AllOpen(p.segs))
              else !RelaxSound(first)
      ensures ok && !changed ==> View() == Relaxed(first) && RelaxSound(first)
    {
      ok, changed := OneRound(p);
      if ok {
        RoundLeads(first, p, View(), changed);
      } else {
        RoundFails(first, p);
      }
    }

    /** Rounds are still to be done, or everything has been. */
    ghost predicate Relaxing(first: Program, changed: bool)
      reads this
    {
      Valid() && if changed then Leads(first, View()) else View() == Relaxed(first) && RelaxSound(first)
    }

    ghost function OpenNow(): (n: nat)
      requires Valid()
      reads this
    {
      AllOpen(View().segs)
    }

    method NextRound(ghost first: Program) returns (ok: bool, changed: bool)
      requires Relaxing(first, true)
      modifies this`segtab, this`segment, this`segaddr, this`seglen, this`segcode, this`syms
      ensures if ok then Relaxing(first, changed) && (changed ==> OpenNow() < old(OpenNow())) else !RelaxSound(first)
    {
      ok, changed := RoundOf(first, View());
    }

    /** longcheck; not ok if it comes to an operand without a value. */
    method LongCheck(ghost first: Program) returns (ok: bool)
      requires Valid() && View() == first
      modifies this
      ensures ok <==> RelaxSound(first)
      ensures ok ==> Valid() && View() == Relaxed(first) && out == old(out)
    {
      var changed := true;
      ok := true;
      while ok && changed
        invariant if ok then Relaxing(first, changed) && out == old(out) else !RelaxSound(first)
        decreases ok, changed, if ok then OpenNow() else 0
      {
        ok, changed := NextRound(first);
      }
    }

    /** The first s segments of p have been gone over, and segment s is selected. */
    ghost predicate SweptUpTo(p: Program, s: nat, there: bool, changed: bool)
      reads this
    {
      && Valid() && |segtab| == |p.segs| && s <= |segtab|
      && (there <==> s < |segtab|) && (there ==> segment == s)
      && View() == Swept(p, s) && Marks(changed, p, View()) && SweepSound(p, s)
    }

    method StartRound(ghost p: Program) returns (there: bool)
      requires Valid() && View() == p
      modifies this`segtab, this`segment, this`segaddr, this`seglen, this`segcode
      ensures SweptUpTo(p, 0, there, false) && (there <==> 0 < |p.segs|)
    {
      there := SegSelect(0);
    }

    /** All segments have been gone over. */
    ghost predicate RoundDone(p: Program, changed: bool)
      reads this
    {
      Valid() && View() == Swept(p, |p.segs|) && Marks(changed, p, View()) && SweepSound(p, |p.segs|)
    }

    lemma RoundEnds(p: Program, s: nat, changed: bool)
      requires SweptUpTo(p, s, false, changed)
      ensures RoundDone(p, changed)
    {
    }

    /** The body of longcheck's inner loop. */
    method SweepNext(ghost p: Program, s: nat, changed: bool) returns (ok: bool, there: bool, changed': bool)
      requires SweptUpTo(p, s, true, changed)
      modifies this`segtab, this`segment, this`segaddr, this`seglen, this`segcode, this`syms
      ensures s + 1 <= |p.segs|
      ensures if ok then SweptUpTo(p, s + 1, there, changed') && (there <==> s + 1 < |p.segs|) else !SweepSound(p, s + 1)
    {
      var c;
      ok, c := Expand();
      there, changed' := false, changed || c;
      if ok {
        there := SegSelect(s + 1);
      }
    }

    /** Where a round stands: in order so far, or given up. */
    ghost predicate RoundAt(p: Program, s: nat, ok: bool, there: bool, changed: bool)
      reads this
    {
      if ok then SweptUpTo(p, s, there, changed) && s <= |p.segs| && (there <==> s < |p.segs|)
      else !SweepSound(p, |p.segs|)
    }

    method RoundNext(ghost p: Program, s: nat, changed: bool) returns (ok: bool, there: bool, changed': bool)
      requires RoundAt(p, s, true, true, changed)
      modifies this`segtab, this`segment, this`segaddr, this`seglen, this`segcode, this`syms
      ensures RoundAt(p, s + 1, ok, there, changed')
    {
      ok, there, changed' := SweepNext(p, s, changed);
      if !ok {
        SweepUnsound(p, s + 1, |p.segs|);
      }
    }

    /** One round of longcheck's loop. */
    method OneRound(ghost p: Program) returns (ok: bool, changed: bool)
      requires Valid() && View() == p
      modifies this`segtab, this`segment, this`segaddr, this`seglen, this`segcode, this`syms
      ensures if ok then RoundDone(p, changed) else !SweepSound(p, |p.segs|)
    {
      var s := 0;
      var there := StartRound(p);
      ok, changed := true, false;
      while ok && there
        invariant RoundAt(p, s, ok, there, changed)
        decreases |p.segs| - s
      {
        ok, there, changed := RoundNext(p, s, changed);
        s := s + 1;
      }
      if ok {
        RoundEnds(p, s, changed);
      }
    }

    // ----- checking and writing

    /** segcheck */
    method SegCheck() returns (ok: bool)
      requires Valid() && EntriesFit(Flushed())
      modifies this`segtab, this`segment, this`segaddr, this`seglen, this`segcode
      ensures Valid() && SameSegments(old(View()).segs, View().segs)
      ensures ok <==> Checked(View().segs)
      ensures old(LowEntries(Flushed())) ==> Sorted(View().segs)
    {
      FlushSeg();
      ghost var t := segtab;
      var sorted := QSort(segtab);
      SortedLengths(sorted, t);
      SameEntries(t, sorted);
      segtab := sorted;
      ok := NoOverlap();
      SelectSeg(segment);
      if LowEntries(t) {
        InOrderSorts(sorted);
      }
    }

    lemma InOrderSorts(t: seq<Entry>)
      requires LengthsRight(t) && InOrder(t)
      ensures Sorted(SegmentsOf(t))
    {
      var segs := SegmentsOf(t);
      forall i: nat {:trigger segs[i]} | i + 1 < |segs|
        ensures Before(segs[i], segs[i + 1])
      {
        assert LengthRight(t[i]) && LengthRight(t[i + 1]);
        assert Comes(t[i].addr, t[i].len, t[i + 1].addr, t[i + 1].len);
      }
    }

    /** The loop of segcheck. */
    method NoOverlap() returns (ok: bool)
      requires LengthsRight(segtab) && segtab != []
      ensures ok <==> Checked(SegmentsOf(segtab))
    {
      ghost var segs := SegmentsOf(segtab);
      for i := 1 to |segtab|
        invariant forall j: nat :: j + 1 < i && j + 1 < |segs| ==> Ends(segs[j]) <= segs[j + 1].addr
      {
        assert LengthRight(segtab[i - 1]) && Ends(segs[i - 1]) == segtab[i - 1].addr + segtab[i - 1].len;
        if segtab[i - 1].addr + segtab[i - 1].len > segtab[i].addr {
          ghost var j := i - 1;
          assert Ends(segs[j]) > segs[j + 1].addr;
          return false;
        }
      }
      ok := true;
    }

    lemma SortedLengths(sorted: seq<Entry>, t: seq<Entry>)
      requires multiset(sorted) == multiset(t) && LengthsRight(t)
      ensures |sorted| == |t| && LengthsRight(sorted)
    {
      assert |sorted| == |multiset(sorted)| == |multiset(t)| == |t|;
      forall s: nat | s < |sorted|
        ensures LengthRight(sorted[s])
      {
        assert sorted[s] in multiset(t);
        var i :| 0 <= i < |t| && t[i] == sorted[s];
      }
    }

    static lemma {:induction false} CroakStays(code: seq<Instr>, addr: nat, env: seq<Word>, k: nat, n: nat)
      requires k <= n <= |code| && EmittedCode(code, addr, env, k).None?
      ensures EmittedCode(code, addr, env, n).None?
    {
      if k < n {
        CroakStays(code, addr, env, k, n - 1);
      }
    }

    static lemma OneMore(code: seq<Instr>, addr: nat, env: seq<Word>, k: nat)
      requires k < |code| && EmittedCode(code, addr, env, k).Some?
      ensures Length(code[..k + 1]) == Length(code[..k]) + Size(code[k].kind)
      ensures var more := Emitted(code[k], addr + Length(code[..k + 1]), env);
              EmittedCode(code, addr, env, k + 1)
              == if more.None? then None else Some(EmittedCode(code, addr, env, k).value + more.value)
    {
      assert code[..k + 1][..k] == code[..k];
    }

    ghost function EnvNow(): (env: seq<Word>)
      reads this
    {
      Env(Program([], syms))
    }

    /** The first k instructions have been put out, and the next one is at addr. */
    ghost predicate EmittedUpTo(k: nat, addr: nat, start: seq<Byte>)
      reads this
    {
      && k <= |segcode| && addr == segaddr + Length(segcode[..k])
      && EmittedCode(segcode, segaddr, EnvNow(), k).Some?
      && out == start + EmittedCode(segcode, segaddr, EnvNow(), k).value
    }

    /** The body of cemit's loop. */
    method EmitNext(k: nat, addr: nat, ghost start: seq<Byte>) returns (ok: bool, addr': nat)
      requires EmittedUpTo(k, addr, start) && k < |segcode|
      modifies this`out
      ensures ok ==> EmittedUpTo(k + 1, addr', start)
      ensures !ok ==> EmittedCode(segcode, segaddr, EnvNow(), k + 1).None?
    {
      OneMore(segcode, segaddr, EnvNow(), k);
      addr' := addr + Size(segcode[k].kind);
      ok := EmitInstr(segcode[k], addr');
    }

    /** cemit; not ok where it croaks. */
    method Emit() returns (ok: bool)
      modifies this`out
      ensures var e := EmittedCode(segcode, segaddr, EnvNow(), |segcode|);
              (ok <==> e.Some?) && (ok ==> out == old(out) + e.value)
    {
      var addr := segaddr;
      for k := 0 to |segcode|
        invariant EmittedUpTo(k, addr, old(out))
      {
        ok, addr := EmitNext(k, addr, old(out));
        if !ok {
          CroakStays(segcode, segaddr, EnvNow(), k + 1, |segcode|);
          return;
        }
      }
      ok := true;
    }

    /** The switch in cemit; `addr` is where the instruction ends. */
    method EmitInstr(n: Instr, addr: nat) returns (ok: bool)
      modifies this`out
      ensures var e := Emitted(n, addr, EnvNow());
              (ok <==> e.Some?) && (ok ==> out == old(out) + e.value)
    {
      var w := Some(0);
      if n.kind != NoArg {
        w := EvaluateInPlace(n.expr, Env(Program([], syms)));
      }
      if w.None? {
        return false;
      }
      ok := EmitWith(n, addr, w.value);
    }

    method EmitWith(n: Instr, addr: nat, w: Word) returns (ok: bool)
      modifies this`out
      ensures var e := EmittedWith(n, addr, w); (ok <==> e.Some?) && (ok ==> out == old(out) + e.value)
    {
      ok := true;
      var i := Signed(w);
      match n.kind
      case NoArg => out := out + [n.opcode];
      case Branch =>
        i := Signed(Add(w, Negative(addr % M)));
        ok := -128 <= i <= 127;
        out := out + [n.opcode, Low(i)];
      case Long => out := out + [n.opcode, Low(i), High(i)];
      case Data1 =>
        ok := -128 <= i <= 255;
        out := out + [Low(i)];
      case Data2 => out := out + [Low(i), High(i)];
      case _ =>
        ok := -128 <= i <= 255;
        out := out + [n.opcode, Low(i)];
    }

    /** The padding in link: zeros until the file is as long as the segment's address. */
    method Pad(a: nat) returns (a': nat)
      requires a == |out|
      modifies this`out
      ensures out == old(out) + Zeros(if a < segaddr then segaddr - a else 0) && a' == |out|
    {
      a' := a;
      while a' < segaddr
        invariant a <= a' && (a < segaddr ==> a' <= segaddr) && (a >= segaddr ==> a' == a)
        invariant out == old(out) + Zeros(a' - a)
      {
        out := out + [0];
        a' := a' + 1;
      }
    }

    /** One segment of link. */
    method LinkSegment(a: nat) returns (ok: bool, a': nat)
      requires Valid() && a == |out|
      modifies this`out
      ensures var e := EmittedCode(segcode, segaddr, EnvNow(), |segcode|);
              (ok <==> e.Some?)
              && (ok ==> out == old(out) + Zeros(if a < segaddr then segaddr - a else 0) + e.value && a' == |out|)
    {
      a' := Pad(a);
      ok := Emit();
      assert segcode[..|segcode|] == segcode && LengthRight(Flushed()[segment]);
      a' := a' + seglen;
    }

    static lemma {:induction false} LinkStops(segs: seq<Segment>, env: seq<Word>, k: nat, n: nat)
      requires k <= n <= |segs| && Linked(segs, env, k).None?
      ensures Linked(segs, env, n).None?
    {
      if k < n {
        LinkStops(segs, env, k, n - 1);
      }
    }

    /** The first s segments of p have been written, and segment s is selected. */
    ghost predicate LinkedUpTo(p: Program, s: nat, a: nat, there: bool)
      reads this
    {
      && Valid() && View() == p && |segtab| == |p.segs| && s <= |segtab| && a == |out|
      && (there <==> s < |segtab|) && (there ==> segment == s)
      && Linked(p.segs, Env(p), s) == Some(out)
    }

    /** Where the linking stands: in order so far, or given up. */
    ghost predicate LinkAt(p: Program, s: nat, a: nat, ok: bool, there: bool)
      reads this
    {
      && s <= |p.segs|
      && if ok then LinkedUpTo(p, s, a, there) else Valid() && View() == p && Linked(p.segs, Env(p), |p.segs|).None?
    }

    /** The body of link's loop. */
    method LinkNext(ghost p: Program, s: nat, a: nat) returns (ok: bool, a': nat, there: bool)
      requires LinkedUpTo(p, s, a, true)
      modifies this
      ensures LinkAt(p, s + 1, a', ok, there)
    {
      assert p.segs[s] == Segment(segaddr, segcode) && EnvNow() == Env(p);
      ok, a' := LinkSegment(a);
      there := SegSelect(s + 1);
      if !ok {
        LinkStops(p.segs, Env(p), s + 1, |p.segs|);
      }
    }

    /** link */
    method Link() returns (ok: bool)
      requires Valid() && out == []
      modifies this
      ensures Valid() && View() == old(View())
      ensures var f := Linked(View().segs, Env(View()), |View().segs|);
              (ok <==> f.Some?) && (ok ==> out == f.value)
    {
      ghost var p := View();
      var a, s := 0, 0;
      var there := SegSelect(s);
      ok := true;
      while ok && there
        invariant LinkAt(p, s, a, ok, there)
        decreases |p.segs| - s
      {
        ok, a, there := LinkNext(p, s, a);
        s := s + 1;
      }
    }

    lemma RelaxedFits(p: Program)
      requires Valid() && Fits(p) && AllStanding(p) && View() == Relaxed(p)
      ensures EntriesFit(Flushed()) && (LowHalf(p.segs) ==> LowEntries(Flushed()))
    {
      RelaxedKeepsLabels(p);
      var q, t := View(), Flushed();
      forall s: nat | s < |t|
        ensures t[s].addr == p.segs[s].addr && t[s].len <= 3 * |p.segs[s].code| && EntryFits(t[s])
      {
        assert q.segs[s] == SegmentOf(t[s]) && LengthRight(t[s]);
        LengthFits(q.segs[s]);
        assert q.segs[s].addr + 3 * |q.segs[s].code| < M;
      }
    }

    /** main, once the program has been parsed: if it succeeds the file is right; and if the segments lie in the
        lower half of the address space, where qsort's order can be relied on, it succeeds if and only if relaxation
        comes to no operand without a value, they are apart, and every instruction can be put out. */
    method Assemble() returns (ok: bool)
      requires Valid() && Fits(View()) && AllStanding(View()) && out == []
      modifies this
      ensures ok ==> FileRight(old(View()), Relaxed(old(View())), out)
      ensures LowHalf(old(View()).segs) ==> (ok <==> Assembles(old(View())))
    {
      ghost var p := View();
      ok := LongCheck(p);
      if !ok {
        return;
      }
      RelaxedFits(p);
      ok := SegCheck();
      ghost var segs := View().segs;
      assert Env(View()) == Env(Relaxed(p));
      if LowHalf(p.segs) {
        SucceedsIffAssembles(p, segs);
      }
      if ok {
        ok := Link();
        if ok {
          LinkedFileIsRight(p, segs);
        }
      }
    }
  }
}
