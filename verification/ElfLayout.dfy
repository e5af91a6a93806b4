/**
 What the loaded kernel looks like: where COMMON symbols are laid out, what address every symbol stands for, and
 what the words are that have been relocated.
 */
module ElfLayout {

  import opened Basics
  import opened Word32
  import opened Elf

  // ----- alignment

  /** Rounding up gives the least multiple that is not below, if there is one below 2 to the 32. */
  lemma AlignUpIsLeast(x: Word, a: Word)
    requires a > 0 && x + a - 1 < M
    ensures var y := AlignUp(x, a); x <= y < x + a && y % a == 0
    ensures forall m: nat :: m >= x && m % a == 0 ==> m >= AlignUp(x, a)
  {
    var z := x + a - 1;
    RoundedIsMultiple(z, a);
    ModAtMost(z, a);
    forall m: nat | m >= x && m % a == 0
      ensures m >= z - z % a
    {
      if m < z - z % a {
        MultiplesApart(m, z - z % a, a);
      }
    }
  }

  /** Multiples that differ do so by as much at least. */
  lemma MultiplesApart(m: nat, y: nat, a: nat)
    requires a > 0 && m % a == 0 && y % a == 0 && m < y
    ensures m + a <= y
  {
    assert m == a * (m / a) && y == a * (y / a);
    if m / a >= y / a {
      Monotone(a, y / a, m / a);
    }
    Distribute(a, m / a, 1);
    Monotone(a, m / a + 1, y / a);
  }

  // ----- the layout of COMMON symbols

  /** What comes before them: the three sections of the image, and .bss. */
  function Base(f: File): (n: nat)
  {
    |f.text| + |f.rodata| + |f.data| + f.bss
  }

  /** As much as the first n symbols can take at most. */
  function Room(f: File, n: nat): (r: nat)
    requires n <= |f.syms|
  {
    if n == 0 then Base(f)
    else Room(f, n - 1) + if f.syms[n - 1].place == Common then f.syms[n - 1].value + f.syms[n - 1].size else 0
  }

  /** There is room below 2 to the 32, from vaddr on. */
  ghost predicate Spacious(f: File, vaddr: Word)
  {
    && FitsWords(f) && vaddr + Room(f, |f.syms|) < M
    && forall i: nat :: i < |f.syms| && f.syms[i].place == Common ==> f.syms[i].value > 0
  }

  function EndAfter(f: File, n: nat): (end: Word)
    requires n <= |f.syms|
  {
    CompactEnd(SizesOf(f), f.hasRodata, f.syms, n)
  }

  /** Where the compactor puts a COMMON symbol, from the beginning of the image. */
  function CommonAt(f: File, i: nat): (at: Word)
    requires i < |f.syms|
  {
    CompactSymbol(SizesOf(f), f.hasRodata, f.syms[i], EndAfter(f, i)).sym.value
  }

  lemma {:induction false} RoomGrows(f: File, n: nat, m: nat)
    requires n <= m <= |f.syms|
    ensures Room(f, n) <= Room(f, m)
  {
    if n < m {
      RoomGrows(f, n, m - 1);
    }
  }

  lemma {:induction false} EndsInRoom(f: File, vaddr: Word, n: nat)
    requires Spacious(f, vaddr) && n <= |f.syms|
    ensures Base(f) <= EndAfter(f, n) <= Room(f, n)
  {
    RoomGrows(f, n, |f.syms|);
    if n == 0 {
      FirstEnd(f);
    } else {
      EndsInRoom(f, vaddr, n - 1);
      EndStep(f, n - 1);
      if f.syms[n - 1].place == Common {
        AlignUpIsLeast(EndAfter(f, n - 1), f.syms[n - 1].value);
      }
    }
  }

  lemma FirstEnd(f: File)
    requires FitsWords(f) && Base(f) < M
    ensures EndAfter(f, 0) == Base(f)
  {
  }

  lemma EndStep(f: File, n: nat)
    requires n < |f.syms| && (f.syms[n].place == Common ==> f.syms[n].value > 0)
    ensures var s, end := f.syms[n], EndAfter(f, n);
            EndAfter(f, n + 1) == if s.place == Common then Add(AlignUp(end, s.value), s.size) else end
    ensures f.syms[n].place == Common ==> CommonAt(f, n) == AlignUp(EndAfter(f, n), f.syms[n].value)
  {
  }

  /** It gets the first multiple of its alignment that is free. */
  lemma CommonGets(f: File, vaddr: Word, i: nat)
    requires Spacious(f, vaddr) && i < |f.syms| && f.syms[i].place == Common
    ensures var s, at := f.syms[i], CommonAt(f, i);
            && at % s.value == 0 && EndAfter(f, i) <= at < EndAfter(f, i) + s.value
            && EndAfter(f, i + 1) == at + s.size
  {
    EndsInRoom(f, vaddr, i);
    EndStep(f, i);
    RoomGrows(f, i + 1, |f.syms|);
    AlignUpIsLeast(EndAfter(f, i), f.syms[i].value);
  }

  lemma {:induction false} EndsGrow(f: File, vaddr: Word, n: nat, m: nat)
    requires Spacious(f, vaddr) && n <= m <= |f.syms|
    ensures EndAfter(f, n) <= EndAfter(f, m)
  {
    if n < m {
      EndsGrow(f, vaddr, n, m - 1);
      EndStep(f, m - 1);
      if f.syms[m - 1].place == Common {
        CommonGets(f, vaddr, m - 1);
      }
    }
  }

  /** At a multiple of its alignment, after .bss, and within the end. */
  ghost predicate WellLaid(f: File, i: nat, at: nat, start: nat, end: nat)
    requires i < |f.syms|
  {
    f.syms[i].value > 0 && at % f.syms[i].value == 0 && start + Base(f) <= at && at + f.syms[i].size <= end
  }

  /** In the compact image every COMMON symbol lies at a multiple of its alignment, after .bss and before `end`, and the
      one laid out later lies after it. */
  lemma CommonsApart(f: File, vaddr: Word, i: nat)
    requires Spacious(f, vaddr) && i < |f.syms| && f.syms[i].place == Common
    ensures WellLaid(f, i, CommonAt(f, i), 0, EndAfter(f, |f.syms|))
    ensures forall j: nat :: i < j < |f.syms| && f.syms[j].place == Common ==> CommonAt(f, i) + f.syms[i].size <= CommonAt(f, j)
  {
    CommonGets(f, vaddr, i);
    EndsInRoom(f, vaddr, i);
    EndsGrow(f, vaddr, i + 1, |f.syms|);
    forall j: nat | i < j < |f.syms| && f.syms[j].place == Common
      ensures CommonAt(f, i) + f.syms[i].size <= CommonAt(f, j)
    {
      EndsGrow(f, vaddr, i + 1, j);
      CommonGets(f, vaddr, j);
    }
  }

  predicate Ordinary(s: Symbol)
  {
    s.name != "etext" && s.name != "edata" && s.name != "end"
  }

  /** Where the direct loader puts a COMMON symbol. */
  function DirectAt(f: File, vaddr: Word, i: nat): (at: Option<Word>)
    requires i < |f.syms|
  {
    Vaddr(f, vaddr, DirectSym(f, vaddr, i))
  }

  /** Loaded directly they lie at the same places from vaddr on, which are multiples of their alignments, after .bss,
      before the value of `end`, and apart. */
  lemma CommonsApartInMemory(f: File, vaddr: Word, i: nat)
    requires Loadable(f, vaddr) && Spacious(f, vaddr) && i < |f.syms| && f.syms[i].place == Common
    requires Ordinary(f.syms[i]) && SectionThere(f, vaddr, i)
    ensures DirectAt(f, vaddr, i) == Some(vaddr + CommonAt(f, i))
    ensures WellLaid(f, i, vaddr + CommonAt(f, i), vaddr, LastEnd(f, vaddr)) && LastEnd(f, vaddr) == vaddr + EndAfter(f, |f.syms|)
  {
    EndsInRoom(f, vaddr, |f.syms|);
    CommonsApart(f, vaddr, i);
    CommonBound(f, vaddr, i);
    LastEndIs(f, vaddr);
    MovedMultiple(vaddr, CommonAt(f, i), f.syms[i].value);
  }

  lemma CommonBound(f: File, vaddr: Word, i: nat)
    requires Loadable(f, vaddr) && i < |f.syms| && f.syms[i].place == Common
    requires Ordinary(f.syms[i]) && SectionThere(f, vaddr, i) && vaddr + CommonAt(f, i) < M
    ensures DirectAt(f, vaddr, i) == Some(vaddr + CommonAt(f, i)) && vaddr % f.syms[i].value == 0
  {
    SymbolsAgree(f, vaddr, i);
    CompactCommon(f, i);
  }

  lemma LastEndIs(f: File, vaddr: Word)
    requires Loadable(f, vaddr) && vaddr + EndAfter(f, |f.syms|) < M
    ensures LastEnd(f, vaddr) == vaddr + EndAfter(f, |f.syms|)
  {
    EndsAgree(f, vaddr, |f.syms|);
  }

  /** The value of `end` when loaded directly. */
  function LastEnd(f: File, vaddr: Word): (end: Word)
  {
    DirectEnd(SizesOf(f), Bound(SizesOf(f), vaddr), f.syms, |f.syms|)
  }

  lemma CompactCommon(f: File, i: nat)
    requires i < |f.syms| && f.syms[i].place == Common && Ordinary(f.syms[i])
    ensures CompactSym(f, i).place == Text && CompactSym(f, i).value == CommonAt(f, i)
  {
  }

  lemma MovedMultiple(vaddr: nat, at: nat, a: nat)
    requires a > 0 && vaddr % a == 0 && at % a == 0
    ensures (vaddr + at) % a == 0
  {
    assert vaddr == a * (vaddr / a);
    ModShift(at, a, vaddr / a);
  }

  // ----- what symbols stand for

  /** Where a section begins in the image. */
  function StartOf(f: File, place: Place): (at: nat)
  {
    match place
    case Rodata => |f.text|
    case Data => |f.text| + |f.rodata|
    case Bss => |f.text| + |f.rodata| + |f.data|
    case _ => 0
  }

  /** The address that a symbol stands for in a kernel loaded at vaddr. */
  function Meant(f: File, vaddr: Word, i: nat): (w: nat)
    requires i < |f.syms|
  {
    var s := f.syms[i];
    if s.name == "etext" then (vaddr + |f.text|) % M
    else if s.name == "edata" then (vaddr + |f.text| + |f.rodata| + |f.data|) % M
    else if s.name == "end" then (vaddr + EndAfter(f, |f.syms|)) % M
    else if s.place == Absolute then s.value
    else if s.place == Common then (vaddr + CommonAt(f, i)) % M
    else (vaddr + StartOf(f, s.place) + s.value) % M
  }

  lemma AddIsSum(a: Word, b: Word)
    ensures Add(a, b) == (a + b) % M
  {
  }

  lemma SumOfThree(a: Word, b: Word, c: Word)
    ensures Add(a, Add(b, c)) == (a + b + c) % M
  {
  }

  /** Every symbol that the compactor binds stands for what it is meant to. */
  lemma SymbolMeans(f: File, vaddr: Word, i: nat)
    requires FitsWords(f) && i < |f.syms| && CompactSym(f, i).place in {Text, Absolute}
    ensures CompactVaddr(vaddr, CompactSym(f, i)) == Some(Meant(f, vaddr, i))
  {
    if Ordinary(f.syms[i]) {
      OrdinaryMeans(f, vaddr, i);
    } else {
      SpecialMeans(f, vaddr, i);
    }
  }

  lemma SpecialMeans(f: File, vaddr: Word, i: nat)
    requires FitsWords(f) && i < |f.syms| && !Ordinary(f.syms[i])
    ensures CompactVaddr(vaddr, CompactSym(f, i)) == Some(Meant(f, vaddr, i))
  {
    NamesDiffer();
    SpecialIs(f, i);
    AddIsSum(vaddr, CompactSym(f, i).value);
  }

  lemma SpecialIs(f: File, i: nat)
    requires FitsWords(f) && i < |f.syms| && !Ordinary(f.syms[i])
    ensures var s, t := f.syms[i], CompactSym(f, i);
            t.place == Text
            && t.value == if s.name == "etext" then |f.text|
                          else if s.name == "edata" then |f.text| + |f.rodata| + |f.data|
                          else EndAfter(f, |f.syms|)
  {
    NamesDiffer();
    StartsAre(f);
  }

  lemma NotSpecial(f: File, i: nat)
    requires i < |f.syms| && Ordinary(f.syms[i])
    ensures CompactSym(f, i) == CompactSymbol(SizesOf(f), f.hasRodata, f.syms[i], EndAfter(f, i)).sym
  {
  }

  lemma OrdinaryIs(f: File, i: nat)
    requires FitsWords(f) && i < |f.syms| && CompactSym(f, i).place in {Text, Absolute} && Ordinary(f.syms[i])
    ensures var s, t := f.syms[i], CompactSym(f, i);
            && (t.place == Absolute <==> s.place == Absolute)
            && t.value == if s.place == Common then CommonAt(f, i)
                          else if s.place == Absolute then s.value
                          else Add(s.value, StartOf(f, s.place))
  {
    NotSpecial(f, i);
    if f.syms[i].place in {Data, Bss} {
      StartsAre(f);
    }
  }

  lemma StartsAre(f: File)
    requires FitsWords(f)
    ensures var z := SizesOf(f);
            && Add(z.text, z.rodata) == StartOf(f, Data) && Add(Add(z.text, z.rodata), z.data) == StartOf(f, Bss)
  {
  }

  lemma OrdinaryMeans(f: File, vaddr: Word, i: nat)
    requires FitsWords(f) && i < |f.syms| && CompactSym(f, i).place in {Text, Absolute} && Ordinary(f.syms[i])
    ensures CompactVaddr(vaddr, CompactSym(f, i)) == Some(Meant(f, vaddr, i))
  {
    var s, t := f.syms[i], CompactSym(f, i);
    OrdinaryIs(f, i);
    AddIsSum(vaddr, t.value);
    SumOfThree(vaddr, s.value, StartOf(f, s.place));
  }

  /** The compactor gives up on relocations of another type, and of symbols that are not bound: those that are in a section
      that is not loaded or not there, unless they are etext, edata or end. */
  lemma ConvertibleMeans(f: File, r: Rela)
    ensures Convertible(f, r) <==>
              r.kind == R68K32 && r.sym < |f.syms|
              && var s := f.syms[r.sym]; !Ordinary(s) || (s.place != Elsewhere && (s.place == Rodata ==> f.hasRodata))
  {
    if r.sym < |f.syms| {
      NamesDiffer();
    }
  }

  // ----- what is in memory

  /** The word at an address, most significant byte first. */
  function WordAt(image: seq<Byte>, at: nat): (w: nat)
    requires at + 4 <= |image|
  {
    var h: nat, i: nat, j: nat, k: nat := image[at], image[at + 1], image[at + 2], image[at + 3];
    0x100 * (0x100 * (0x100 * h + i) + j) + k
  }

  lemma BytesMean(w: Word)
    ensures WordAt(Bytes(w), 0) == w
  {
    var h := w / 0x100;
    var g := h / 0x100;
    assert w == 0x100 * h + w % 0x100;
    assert h == 0x100 * g + h % 0x100;
    assert g == 0x100 * (g / 0x100) + g % 0x100;
    assert w / 0x1_0000 == g && w / 0x100_0000 == g / 0x100;
  }

  lemma PutMeans(image: seq<Byte>, at: nat, w: Word)
    requires at + 4 <= |image|
    ensures WordAt(Put(image, at, w), at) == w
    ensures forall b: nat :: b < |image| && !(at <= b < at + 4) ==> Put(image, at, w)[b] == image[b]
  {
    var image' := Put(image, at, w);
    assert forall i: nat :: i < 4 ==> image'[at + i] == Bytes(w)[i];
    BytesMean(w);
  }

  predicate Overlap(a: nat, b: nat)
  {
    a < b + 4 && b < a + 4
  }

  /** No later relocation overwrites the one at j. */
  ghost predicate LastThere(rs: seq<Rela>, j: nat)
    requires j < |rs|
  {
    forall k: nat :: j < k < |rs| ==> !Overlap(rs[k].offset, rs[j].offset)
  }

  ghost predicate Covered(rs: seq<Rela>, b: nat)
  {
    exists k: nat :: k < |rs| && rs[k].offset <= b < rs[k].offset + 4
  }

  /** The relocated word holds the address of its symbol and the addend. */
  ghost predicate WordRight(f: File, vaddr: Word, r: Rela, memory: seq<Byte>)
  {
    r.offset + 4 <= |memory| && r.sym < |f.syms| && WordAt(memory, r.offset) == (Meant(f, vaddr, r.sym) + r.addend) % M
  }

  ghost predicate WordsRight(f: File, vaddr: Word, rs: seq<Rela>, memory: seq<Byte>)
  {
    forall j: nat :: j < |rs| && LastThere(rs, j) ==> WordRight(f, vaddr, rs[j], memory)
  }

  ghost predicate RestRight(rs: seq<Rela>, section: seq<Byte>, memory: seq<Byte>)
  {
    |memory| == |section| && forall b: nat :: b < |section| && !Covered(rs, b) ==> memory[b] == section[b]
  }

  /** A section as it should be in memory: where a relocation says so, the address of its symbol and the addend; and
      everything else as it is in the file. */
  ghost predicate SectionRight(f: File, vaddr: Word, section: seq<Byte>, rs: seq<Rela>, memory: seq<Byte>)
  {
    WordsRight(f, vaddr, rs, memory) && RestRight(rs, section, memory)
  }

  lemma ValueMeans(f: File, vaddr: Word, r: Rela)
    requires Loadable(f, vaddr) && Usable(f, vaddr, r)
    ensures DirectValue(f, vaddr, r) == (Meant(f, vaddr, r.sym) + r.addend) % M
  {
    SymbolMeans(f, vaddr, r.sym);
    SymbolsAgree(f, vaddr, r.sym);
    AddIsSum(Meant(f, vaddr, r.sym), r.addend);
  }

  lemma {:induction false} SectionLoadsRight(f: File, vaddr: Word, section: seq<Byte>, rs: seq<Rela>)
    requires Loadable(f, vaddr) && AllUsable(f, vaddr, rs) && InSection(rs, |section|)
    ensures SectionRight(f, vaddr, section, rs, DirectLoaded(f, vaddr, section, rs))
    decreases |rs|
  {
    if rs == [] {
      NothingLoaded(f, vaddr, section);
    } else {
      UsableFront(f, vaddr, section, rs);
      SectionLoadsRight(f, vaddr, section, rs[..|rs| - 1]);
      SectionStep(f, vaddr, section, rs, DirectLoaded(f, vaddr, section, rs[..|rs| - 1]));
    }
  }

  lemma UsableFront(f: File, vaddr: Word, section: seq<Byte>, rs: seq<Rela>)
    requires rs != [] && AllUsable(f, vaddr, rs) && InSection(rs, |section|)
    ensures AllUsable(f, vaddr, rs[..|rs| - 1]) && InSection(rs[..|rs| - 1], |section|)
    ensures Usable(f, vaddr, rs[|rs| - 1]) && rs[|rs| - 1].offset + 4 <= |section|
  {
  }

  lemma SectionStep(f: File, vaddr: Word, section: seq<Byte>, rs: seq<Rela>, before: seq<Byte>)
    requires Loadable(f, vaddr) && rs != [] && Usable(f, vaddr, rs[|rs| - 1]) && rs[|rs| - 1].offset + 4 <= |section|
    requires before == DirectLoaded(f, vaddr, section, rs[..|rs| - 1]) && SectionRight(f, vaddr, section, rs[..|rs| - 1], before)
    ensures SectionRight(f, vaddr, section, rs, DirectLoaded(f, vaddr, section, rs))
  {
    var w := StepWord(f, vaddr, section, rs);
    OneMoreRight(f, vaddr, section, rs, before, w);
  }

  lemma StepWord(f: File, vaddr: Word, section: seq<Byte>, rs: seq<Rela>) returns (w: Word)
    requires Loadable(f, vaddr) && rs != [] && Usable(f, vaddr, rs[|rs| - 1])
    ensures var r := rs[|rs| - 1]; r.sym < |f.syms| && w == (Meant(f, vaddr, r.sym) + r.addend) % M
    ensures DirectLoaded(f, vaddr, section, rs) == Put(DirectLoaded(f, vaddr, section, rs[..|rs| - 1]), rs[|rs| - 1].offset, w)
  {
    ValueMeans(f, vaddr, rs[|rs| - 1]);
    LastLoaded(f, vaddr, section, rs);
    w := DirectValue(f, vaddr, rs[|rs| - 1]);
  }

  lemma NothingLoaded(f: File, vaddr: Word, section: seq<Byte>)
    ensures SectionRight(f, vaddr, section, [], DirectLoaded(f, vaddr, section, []))
  {
  }

  lemma LastLoaded(f: File, vaddr: Word, section: seq<Byte>, rs: seq<Rela>)
    requires rs != [] && Usable(f, vaddr, rs[|rs| - 1])
    ensures var n := |rs| - 1;
            DirectLoaded(f, vaddr, section, rs)
            == Put(DirectLoaded(f, vaddr, section, rs[..n]), rs[n].offset, DirectValue(f, vaddr, rs[n]))
  {
  }

  lemma OneMoreRight(f: File, vaddr: Word, section: seq<Byte>, rs: seq<Rela>, before: seq<Byte>, w: Word)
    requires rs != [] && var r := rs[|rs| - 1];
             r.sym < |f.syms| && r.offset + 4 <= |section| && w == (Meant(f, vaddr, r.sym) + r.addend) % M
    requires SectionRight(f, vaddr, section, rs[..|rs| - 1], before)
    ensures SectionRight(f, vaddr, section, rs, Put(before, rs[|rs| - 1].offset, w))
  {
    var r := rs[|rs| - 1];
    var after := Put(before, r.offset, w);
    PutMeans(before, r.offset, w);
    forall j: nat | j < |rs| && LastThere(rs, j)
      ensures WordRight(f, vaddr, rs[j], after)
    {
      if j < |rs| - 1 {
        EarlierWord(f, vaddr, rs, before, after, j);
      }
    }
    OneMoreRest(section, rs, before, after);
  }

  lemma EarlierWord(f: File, vaddr: Word, rs: seq<Rela>, before: seq<Byte>, after: seq<Byte>, j: nat)
    requires j + 1 < |rs| && LastThere(rs, j) && WordsRight(f, vaddr, rs[..|rs| - 1], before) && |after| == |before|
    requires var at := rs[|rs| - 1].offset; forall b: nat :: b < |before| && !(at <= b < at + 4) ==> after[b] == before[b]
    ensures WordRight(f, vaddr, rs[j], after)
  {
    EarlierLast(rs, j);
    assert rs[..|rs| - 1][j] == rs[j];
    assert WordRight(f, vaddr, rs[j], before);
    SameWord(before, after, rs[|rs| - 1].offset, rs[j].offset);
  }

  lemma OneMoreRest(section: seq<Byte>, rs: seq<Rela>, before: seq<Byte>, after: seq<Byte>)
    requires rs != [] && RestRight(rs[..|rs| - 1], section, before) && |after| == |before|
    requires var at := rs[|rs| - 1].offset; forall b: nat :: b < |before| && !(at <= b < at + 4) ==> after[b] == before[b]
    ensures RestRight(rs, section, after)
  {
    forall b: nat | b < |section| && !Covered(rs, b)
      ensures after[b] == section[b]
    {
      NotCovered(rs, b);
    }
  }

  lemma EarlierLast(rs: seq<Rela>, j: nat)
    requires j + 1 < |rs| && LastThere(rs, j)
    ensures LastThere(rs[..|rs| - 1], j) && !Overlap(rs[|rs| - 1].offset, rs[j].offset)
  {
  }

  lemma NotCovered(rs: seq<Rela>, b: nat)
    requires rs != [] && !Covered(rs, b)
    ensures !Covered(rs[..|rs| - 1], b) && !(rs[|rs| - 1].offset <= b < rs[|rs| - 1].offset + 4)
  {
    var front := rs[..|rs| - 1];
    assert forall k: nat :: k < |front| ==> front[k] == rs[k];
  }

  lemma SameWord(before: seq<Byte>, after: seq<Byte>, at: nat, a: nat)
    requires |after| == |before| && a + 4 <= |before| && !Overlap(at, a)
    requires forall b: nat :: b < |before| && !(at <= b < at + 4) ==> after[b] == before[b]
    ensures WordAt(after, a) == WordAt(before, a)
  {
  }

  /** The three sections, one after the other. */
  ghost predicate ImageRight(f: File, vaddr: Word, image: seq<Byte>)
  {
    var t, r, d := |f.text|, |f.text| + |f.rodata|, |f.text| + |f.rodata| + |f.data|;
    && |image| == d
    && SectionRight(f, vaddr, f.text, f.relText, image[..t])
    && SectionRight(f, vaddr, f.rodata, f.relRodata, image[t..r])
    && SectionRight(f, vaddr, f.data, f.relData, image[r..])
  }

  /** Whichever way a kernel is loaded, its memory is the sections of the file, and every word that is to be relocated
      holds the address of its symbol, wherever that has been laid out, and the addend. */
  lemma LoadedRight(f: File, vaddr: Word)
    requires Loadable(f, vaddr) && Relocatable(f) && UsesBound(f, vaddr)
    ensures ImageRight(f, vaddr, DirectImage(f, vaddr))
    ensures ImageRight(f, vaddr, CompactImage(Compacted(f), vaddr))
  {
    var a, b := DirectLoaded(f, vaddr, f.text, f.relText), DirectLoaded(f, vaddr, f.rodata, f.relRodata);
    var c := DirectLoaded(f, vaddr, f.data, f.relData);
    SectionLoadsRight(f, vaddr, f.text, f.relText);
    SectionLoadsRight(f, vaddr, f.rodata, f.relRodata);
    SectionLoadsRight(f, vaddr, f.data, f.relData);
    ThreeSlices(a, b, c);
    SameImage(f, vaddr);
  }

  lemma ThreeSlices(a: seq<Byte>, b: seq<Byte>, c: seq<Byte>)
    ensures var s := a + b + c; s[..|a|] == a && s[|a|..|a| + |b|] == b && s[|a| + |b|..] == c
  {
  }
}
