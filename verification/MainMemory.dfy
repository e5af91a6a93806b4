/**
 The main-memory sizer of the kernel's config routine.  Starting from the address `end` of the loaded
 kernel it repeatedly scans the boot loader's table of memory regions, pulling MAINSTORE down and pushing
 MAINSTORE+VSIZOFMEM up, until a whole scan changes nothing.
 */
module MainMemory {

  /** One entry of bootinfo.memory; an unused entry is (0, 0). */
  datatype Region = Region(lower: nat, upper: nat)

  const U32_MAX: nat := 0xFFFF_FFFF

  /** Some region of the table holds the address x. */
  ghost predicate Covered(regions: seq<Region>, x: nat)
  {
    exists r :: r in regions && r.lower <= x < r.upper
  }

  /** No region touches [base, top] and reaches beyond it. */
  ghost predicate Closed(regions: seq<Region>, base: nat, top: nat)
  {
    forall r :: r in regions ==> !(r.lower < base <= r.upper) && !(r.lower <= top < r.upper)
  }

  /** [base, top) is a run of covered addresses around `end` (possibly empty). */
  ghost predicate Run(regions: seq<Region>, end: nat, base: nat, top: nat)
  {
    base <= end <= top && forall x: nat :: base <= x < top ==> Covered(regions, x)
  }

  /** What the scan promises: a run around `end` that cannot be extended. */
  ghost predicate Settled(regions: seq<Region>, end: nat, base: nat, top: nat)
  {
    Run(regions, end, base, top) && Closed(regions, base, top)
  }

  /** A settled run contains every run around `end`, so it is the maximal one. */
  lemma SettledIsMaximal(regions: seq<Region>, end: nat, base: nat, top: nat, b: nat, t: nat)
    requires Settled(regions, end, base, top)
    requires Run(regions, end, b, t)
    ensures base <= b && t <= top
  {
    assert b < base ==> Covered(regions, base - 1);
    assert top < t ==> Covered(regions, top);
  }

  /** The result depends only on which regions are listed: neither their order nor repetitions matter. */
  lemma SettledIsOrderIndependent(rs: seq<Region>, rs': seq<Region>, end: nat,
                                  base: nat, top: nat, base': nat, top': nat)
    requires forall r :: r in rs <==> r in rs'
    requires Settled(rs, end, base, top) && Settled(rs', end, base', top')
    ensures base == base' && top == top'
  {
    forall x: nat ensures Covered(rs, x) == Covered(rs', x) {
    }
    SettledIsMaximal(rs, end, base, top, base', top');
    SettledIsMaximal(rs', end, base', top', base, top);
  }

  /** An upper bound for MAINSTORE+VSIZOFMEM. */
  ghost function Ceiling(regions: seq<Region>, end: nat): (c: nat)
    ensures end <= c
    ensures forall r :: r in regions ==> r.upper <= c
  {
    if regions == [] then end
    else
      var c := Ceiling(regions[1..], end);
      assert forall r :: r in regions ==> r == regions[0] || r in regions[1..];
      if regions[0].upper > c then regions[0].upper else c
  }

  class MemoryMap {
    var memory: array<Region>
    var mainstore: nat
    var vsizofmem: nat

    constructor (table: array<Region>)
      ensures memory == table && mainstore == 0 && vsizofmem == 0
    {
      memory, mainstore, vsizofmem := table, 0, 0;
    }

    /** MAINSTORE and VSIZOFMEM end up describing the maximal run of memory around `end`, and no
        intermediate sum ever leaves the 32-bit range. */
    method Configure(end: nat)
      requires end <= U32_MAX
      requires forall r :: r in memory[..] ==> r.upper <= U32_MAX
      modifies this`mainstore, this`vsizofmem
      ensures Settled(memory[..], end, mainstore, mainstore + vsizofmem)
      ensures mainstore + vsizofmem <= U32_MAX
    {
      mainstore := end;
      vsizofmem := 0;
      ghost var rs := memory[..];
      ghost var ceiling := Ceiling(rs, end);
      var found := true;
      while found
        invariant memory[..] == rs
        invariant mainstore <= end && mainstore + vsizofmem <= ceiling && mainstore + vsizofmem <= U32_MAX
        invariant forall x: nat :: mainstore <= x < mainstore + vsizofmem || mainstore <= x < end ==> Covered(rs, x)
        invariant !found ==> Closed(rs, mainstore, mainstore + vsizofmem)
        decreases mainstore, ceiling - (mainstore + vsizofmem), found
      {
        ghost var base0, top0 := mainstore, mainstore + vsizofmem;
        found := false;
        for i := 0 to memory.Length
          invariant memory[..] == rs
          invariant mainstore <= end && mainstore + vsizofmem <= ceiling && mainstore + vsizofmem <= U32_MAX
          invariant forall x: nat :: mainstore <= x < mainstore + vsizofmem || mainstore <= x < end ==> Covered(rs, x)
          invariant mainstore < base0 || (mainstore == base0 && mainstore + vsizofmem >= top0)
          invariant found ==> mainstore < base0 || mainstore + vsizofmem > top0
          invariant !found ==> mainstore == base0 && mainstore + vsizofmem == top0
          invariant !found ==> Closed(rs[..i], mainstore, mainstore + vsizofmem)
        {
          var l, u := memory[i].lower, memory[i].upper;
          assert memory[i] == rs[i] && rs[i] in rs;
          if l < mainstore && u >= mainstore {
            found := true;
            mainstore := l;
          }
          if l <= mainstore + vsizofmem && u > mainstore + vsizofmem {
            found := true;
            vsizofmem := u - mainstore;
          }
          assert rs[..i + 1] == rs[..i] + [rs[i]];
        }
        assert rs[..|rs|] == rs;
      }
      assert mainstore + vsizofmem < end ==> Covered(rs, mainstore + vsizofmem);
    }
  }
}
