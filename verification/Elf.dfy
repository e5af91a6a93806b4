/**
 Relocatable kernels.  One file can be loaded in two ways: directly, by binding its sections and symbols to
 addresses and relocating each section; or by compacting it first, into one section and one table of
 offsets and values, and relocating that.  Both give the same memory.  Words have 32 bits; the relocation
 type is R_68K_32 of the System V ABI, chapter 4, "Relocation".
 */
module Elf {

  import opened Basics
  import opened Word32

  /** Differences wrap. */
  function Sub(a: Word, b: Word): (c: Word)
  {
    if a >= b then a - b else a + M - b
  }

  // ----- files

  /** Where a symbol is defined: a section, the COMMON block, nowhere in particular (an absolute value), or
      in a section that is not loaded or not there. */
  datatype Place = Text | Rodata | Data | Bss | Common | Absolute | Elsewhere

  /** Of a COMMON symbol, the value is its alignment. */
  datatype Symbol = Symbol(name: string, place: Place, value: Word, size: Word)

  datatype Kind = R68K32 | OtherKind

  datatype Rela = Rela(offset: Word, kind: Kind, sym: nat, addend: Word)

  /** A relocatable file.  There may be no .rodata section; then both its parts are empty. */
  datatype File = File(
    text: seq<Byte>, rodata: seq<Byte>, data: seq<Byte>, bss: Word,
    hasRodata: bool,
    syms: seq<Symbol>,
    relText: seq<Rela>, relRodata: seq<Rela>, relData: seq<Rela>)

  // ----- words in memory, most significant byte first

  function Bytes(w: Word): (bs: seq<Byte>)
    ensures |bs| == 4
  {
    [w / 0x100_0000, w / 0x1_0000 % 256, w / 0x100 % 256, w % 256]
  }

  /** A word stored in memory, if there is memory for it. */
  function Put(image: seq<Byte>, at: nat, w: Word): (image': seq<Byte>)
    ensures |image'| == |image|
  {
    if at + 4 <= |image| then image[..at] + Bytes(w) + image[at + 4..] else image
  }

  // ----- alignment

  ghost predicate IsAlignment(a: nat)
  {
    exists k: nat :: k < 32 && a == Pow2(k)
  }

  /** x rounded up to a multiple of a: x += a-1; x &= ~(a-1). */
  function AlignUp(x: Word, a: Word): (y: Word)
    requires a > 0
  {
    var z := Add(x, a - 1);
    z - z % a
  }

  lemma {:induction false} Pow2Splits(k: nat, n: nat)
    requires k <= n
    ensures Pow2(n) == Pow2(k) * Pow2(n - k)
    decreases n - k
  {
    if k < n {
      Pow2Splits(k, n - 1);
      Doubled(Pow2(k), Pow2(n - 1 - k));
    }
  }

  lemma Doubled(a: nat, b: nat)
    ensures 2 * (a * b) == a * (2 * b)
  {
  }

  lemma AlignmentDividesM(a: nat)
    requires IsAlignment(a)
    ensures 0 < a < M && exists q: nat :: M == a * q
  {
    var k: nat :| k < 32 && a == Pow2(k);
    Pow2Splits(k, 32);
    assert Pow2(8) == 256;
    assert Pow2(16) == 65536 by {
      assert Pow2(12) == 4096;
    }
    assert Pow2(24) == 0x100_0000 by {
      assert Pow2(20) == 0x10_0000;
    }
    assert Pow2(32) == M by {
      assert Pow2(28) == 0x1000_0000;
    }
    assert M == a * Pow2(32 - k);
    Pow2Splits(1, 32 - k);
    Half(a, Pow2(32 - k));
  }

  lemma Half(a: nat, q: nat)
    requires M == a * q && q >= 2 && a > 0
    ensures a < M
  {
  }

  lemma ModShift(y: int, a: nat, t: int)
    requires a > 0
    ensures (y + a * t) % a == y % a
  {
    var q, r := y / a, y % a;
    assert y == a * q + r;
    assert y + a * t == a * (q + t) + r by {
      Distribute(a, q, t);
    }
    RemainderIs(y + a * t, a, q + t, r);
  }

  lemma Distribute(a: int, q: int, t: int)
    ensures a * q + a * t == a * (q + t)
  {
  }

  lemma RemainderIs(x: int, a: nat, q: int, r: nat)
    requires a > 0 && x == a * q + r && r < a
    ensures x % a == r
  {
    var q1, r1 := x / a, x % a;
    assert x == a * q1 + r1;
    if q1 < q {
      assert a * q1 + a <= a * q by {
        Distribute(a, q1, 1);
        Monotone(a, q1 + 1, q);
      }
    } else if q1 > q {
      assert a * q + a <= a * q1 by {
        Distribute(a, q, 1);
        Monotone(a, q + 1, q1);
      }
    }
  }

  lemma Monotone(a: nat, p: int, q: int)
    requires p <= q
    ensures a * p <= a * q
  {
  }

  /** Alignment does not depend on where the image starts if that is aligned itself, and only then. */
  lemma AlignmentIsRelative(v: Word, x: Word, a: Word)
    requires IsAlignment(a)
    ensures AlignUp(Add(v, x), a) == Add(v, AlignUp(x, a)) <==> v % a == 0
  {
    AlignmentDividesM(a);
    var q: nat :| M == a * q;
    var y := Add(x, a - 1);
    AddThrice(v, x, a - 1);
    if v % a == 0 {
      SameRemainder(v, y, a, q);
      ModAtMost(y, a);
      ModAtMost(Add(v, y), a);
      RoundedDown(v, y, y % a);
    } else {
      RoundedIsMultiple(y, a);
      RoundedIsMultiple(Add(v, y), a);
      SameRemainder(AlignUp(x, a), v, a, q);
      assert Add(AlignUp(x, a), v) == Add(v, AlignUp(x, a));
    }
  }

  lemma RoundedIsMultiple(x: nat, a: nat)
    requires a > 0
    ensures (x - x % a) % a == 0
  {
    assert x - x % a == 0 + a * (x / a);
    ModShift(0, a, x / a);
  }

  lemma ModAtMost(x: nat, a: nat)
    requires a > 0
    ensures x % a <= x
  {
    assert x == a * (x / a) + x % a;
    Monotone(a, 0, x / a);
  }

  lemma AddThrice(v: Word, x: Word, b: Word)
    ensures Add(Add(v, x), b) == Add(v, Add(x, b))
  {
  }

  lemma SameRemainder(v: Word, y: Word, a: nat, q: nat)
    requires a > 0 && M == a * q && v % a == 0
    ensures Add(v, y) % a == y % a
  {
    var p := v / a;
    assert v == a * p;
    if v + y < M {
      ModShift(y, a, p);
    } else {
      ModShift(y, a, p - q);
      Distribute(a, p - q, q);
      assert Add(v, y) == y + a * (p - q);
    }
  }

  lemma RoundedDown(v: Word, y: Word, r: nat)
    requires r <= y && r <= Add(v, y)
    ensures Add(v, y) - r == Add(v, y - r)
  {
  }

  // ----- the compact form

  datatype Sizes = Sizes(text: Word, rodata: Word, data: Word, bss: Word)

  function SizesOf(f: File): (z: Sizes)
  {
    Sizes(|f.text| % M, |f.rodata| % M, |f.data| % M, f.bss)
  }

  /** The image is small enough for offsets of 31 bits. */
  predicate FitsWords(f: File)
  {
    |f.text| + |f.rodata| + |f.data| <= 0x8000_0000
  }

  datatype Laid = Laid(sym: Symbol, end: Word)

  /** One turn of ProcessSymtab's first loop. */
  function CompactSymbol(z: Sizes, hasRodata: bool, s: Symbol, end: Word): (l: Laid)
  {
    match s.place
    case Common =>
      var at := if s.value > 0 then AlignUp(end, s.value) else 0;
      Laid(s.(place := Text, value := at), Add(at, s.size))
    case Rodata => Laid(if hasRodata then s.(place := Text, value := Add(s.value, z.text)) else s, end)
    case Data => Laid(s.(place := Text, value := Add(s.value, Add(z.text, z.rodata))), end)
    case Bss => Laid(s.(place := Text, value := Add(s.value, Add(Add(z.text, z.rodata), z.data))), end)
    case _ => Laid(s, end)
  }

  /** The end of what the first n symbols have been given. */
  function CompactEnd(z: Sizes, hasRodata: bool, syms: seq<Symbol>, n: nat): (end: Word)
    requires n <= |syms|
  {
    if n == 0 then Add(Add(Add(z.text, z.rodata), z.data), z.bss)
    else CompactSymbol(z, hasRodata, syms[n - 1], CompactEnd(z, hasRodata, syms, n - 1)).end
  }

  /** etext, edata and end. */
  function CompactSpecial(z: Sizes, s: Symbol, end: Word): (s': Symbol)
  {
    if s.name == "etext" then s.(place := Text, value := z.text)
    else if s.name == "edata" then s.(place := Text, value := Add(Add(z.text, z.rodata), z.data))
    else if s.name == "end" then s.(place := Text, value := end)
    else s
  }

  /** Symbol i after ProcessSymtab. */
  function CompactSym(f: File, i: nat): (s: Symbol)
    requires i < |f.syms|
  {
    var z := SizesOf(f);
    var l := CompactSymbol(z, f.hasRodata, f.syms[i], CompactEnd(z, f.hasRodata, f.syms, i));
    CompactSpecial(z, l.sym, CompactEnd(z, f.hasRodata, f.syms, |f.syms|))
  }

  /** An entry of the new table: the flag is the top bit of the offset. */
  datatype NewRel = NewRel(offset: Word, value: Word)

  const ABSOLUTE_FLAG: nat := 0x8000_0000

  predicate Convertible(f: File, r: Rela)
  {
    r.sym < |f.syms| && CompactSym(f, r.sym).place in {Text, Absolute} && r.kind == R68K32
  }

  /** DoRelEntry, and the adjustment of its offset. */
  function NewEntry(f: File, r: Rela, base: Word): (n: NewRel)
    requires r.sym < |f.syms|
  {
    var s := CompactSym(f, r.sym);
    NewRel(Add(if s.place == Absolute && r.offset < ABSOLUTE_FLAG then r.offset + ABSOLUTE_FLAG else r.offset, base),
           Add(r.addend, s.value))
  }

  function NewEntries(f: File, rs: seq<Rela>, base: Word): (ns: seq<NewRel>)
    ensures |ns| == |rs|
  {
    if rs == [] then []
    else
      var n := |rs| - 1;
      NewEntries(f, rs[..n], base) + [if rs[n].sym < |f.syms| then NewEntry(f, rs[n], base) else NewRel(0, 0)]
  }

  /** Every relocation is of the one known type and uses a symbol that is bound. */
  ghost predicate AllConvertible(f: File, rs: seq<Rela>)
  {
    forall i: nat :: i < |rs| ==> Convertible(f, rs[i])
  }

  datatype CompactFile = CompactFile(image: seq<Byte>, rels: seq<NewRel>)

  function Compacted(f: File): (c: CompactFile)
    requires FitsWords(f)
  {
    CompactFile(f.text + f.rodata + f.data,
                NewEntries(f, f.relText, 0) + NewEntries(f, f.relRodata, |f.text|)
                + NewEntries(f, f.relData, |f.text| + |f.rodata|))
  }

  // ----- loading the compact form

  predicate Flagged(offset: Word)
  {
    offset >= ABSOLUTE_FLAG
  }

  function Slot(offset: Word): (at: nat)
  {
    offset % ABSOLUTE_FLAG
  }

  function LoadedValue(r: NewRel, vaddr: Word): (w: Word)
  {
    if Flagged(r.offset) then r.value else Add(r.value, vaddr)
  }

  /** compactreloc */
  function CompactLoaded(image: seq<Byte>, rels: seq<NewRel>, vaddr: Word): (image': seq<Byte>)
    ensures |image'| == |image|
    decreases |rels|
  {
    if rels == [] then image
    else
      var n := |rels| - 1;
      Put(CompactLoaded(image, rels[..n], vaddr), Slot(rels[n].offset), LoadedValue(rels[n], vaddr))
  }

  /** The memory that loading a compact file makes of its one section. */
  function CompactImage(c: CompactFile, vaddr: Word): (image: seq<Byte>)
  {
    CompactLoaded(c.image, c.rels, vaddr)
  }

  // ----- loading directly

  /** sh_addr of the sections; 0 for one that is not bound, because it is empty. */
  datatype Addresses = Addresses(text: Word, rodata: Word, data: Word, bss: Word, end: Word)

  /** bindsections */
  function Bound(z: Sizes, vaddr: Word): (a: Addresses)
  {
    var e1 := Add(vaddr, z.text);
    var e2 := Add(e1, z.rodata);
    var e3 := Add(e2, z.data);
    Addresses(if z.text > 0 then vaddr else 0, if z.rodata > 0 then e1 else 0, if z.data > 0 then e2 else 0,
              if z.bss > 0 then e3 else 0, Add(e3, z.bss))
  }

  /** One turn of allocbss: `end` is also the end of .bss.  Without a .bss nothing is laid out. */
  function DirectSymbol(z: Sizes, a: Addresses, s: Symbol, end: Word): (l: Laid)
  {
    if s.place == Common && z.bss > 0 then
      var at := if s.value > 0 then AlignUp(end, s.value) else 0;
      Laid(s.(place := Bss, value := Sub(at, a.bss)), Add(at, s.size))
    else Laid(s, end)
  }

  function DirectEnd(z: Sizes, a: Addresses, syms: seq<Symbol>, n: nat): (end: Word)
    requires n <= |syms|
  {
    if n == 0 then a.end else DirectSymbol(z, a, syms[n - 1], DirectEnd(z, a, syms, n - 1)).end
  }

  /** specialsyms.  It looks for the addresses in the headers of .text and .data even if there are none; what it then
      finds is no address. */
  function DirectSpecial(z: Sizes, a: Addresses, s: Symbol, end: Word): (s': Symbol)
  {
    if s.name == "etext" then
      if z.text == 0 then s.(place := Elsewhere) else s.(place := Absolute, value := Add(a.text, z.text))
    else if s.name == "edata" then
      if z.data == 0 then s.(place := Elsewhere) else s.(place := Absolute, value := Add(a.data, z.data))
    else if s.name == "end" then s.(place := Absolute, value := end)
    else s
  }

  function DirectSym(f: File, vaddr: Word, i: nat): (s: Symbol)
    requires i < |f.syms|
  {
    var z, a := SizesOf(f), Bound(SizesOf(f), vaddr);
    DirectSpecial(z, a, DirectSymbol(z, a, f.syms[i], DirectEnd(z, a, f.syms, i)).sym, DirectEnd(z, a, f.syms, |f.syms|))
  }

  /** symvaddr: the address, unless the symbol is in an unbound section. */
  function Vaddr(f: File, vaddr: Word, s: Symbol): (w: Option<Word>)
  {
    var a := Bound(SizesOf(f), vaddr);
    match s.place
    case Text => if a.text == 0 then None else Some(Add(a.text, s.value))
    case Rodata => if !f.hasRodata || a.rodata == 0 then None else Some(Add(a.rodata, s.value))
    case Data => if a.data == 0 then None else Some(Add(a.data, s.value))
    case Bss => if a.bss == 0 then None else Some(Add(a.bss, s.value))
    case Absolute => Some(s.value)
    case _ => None
  }

  predicate Resolvable(f: File, vaddr: Word, r: Rela)
  {
    r.sym < |f.syms| && Vaddr(f, vaddr, DirectSym(f, vaddr, r.sym)).Some? && r.kind == R68K32
  }

  /** What is stored for a relocation; symvaddr gives 0 for an address that there is not. */
  function DirectValue(f: File, vaddr: Word, r: Rela): (w: Word)
    requires r.sym < |f.syms|
  {
    var v := Vaddr(f, vaddr, DirectSym(f, vaddr, r.sym));
    Add(if v.Some? then v.value else 0, r.addend)
  }

  /** relocsection; relocations of other types are passed over. */
  function DirectLoaded(f: File, vaddr: Word, section: seq<Byte>, rs: seq<Rela>): (section': seq<Byte>)
    ensures |section'| == |section|
    decreases |rs|
  {
    if rs == [] then section
    else
      var n := |rs| - 1;
      var before := DirectLoaded(f, vaddr, section, rs[..n]);
      if rs[n].kind == R68K32 && rs[n].sym < |f.syms| then Put(before, rs[n].offset, DirectValue(f, vaddr, rs[n]))
      else before
  }

  // ----- when both ways give a symbol the same address

  /** What is said of a .rodata section that is not there; and COMMON symbols have a .bss to be laid out in, at
      addresses that do not depend on where the image is. */
  ghost predicate Loadable(f: File, vaddr: Word)
  {
    && FitsWords(f)
    && (!f.hasRodata ==> f.rodata == [] && f.relRodata == [])
    && (forall i: nat :: i < |f.syms| ==> Aligned(f.syms[i], vaddr) && (f.syms[i].place == Common ==> f.bss > 0))
  }

  ghost predicate Aligned(s: Symbol, vaddr: Word)
  {
    s.place == Common ==> IsAlignment(s.value) && vaddr % s.value == 0
  }

  /** The section that symbol i lies in is bound: it is not empty, and not at address 0. */
  predicate OrdinaryThere(f: File, vaddr: Word, i: nat)
    requires i < |f.syms|
  {
    var a := Bound(SizesOf(f), vaddr);
    match f.syms[i].place
    case Text => a.text != 0
    case Rodata => f.hasRodata ==> a.rodata != 0
    case Data => a.data != 0
    case Bss => a.bss != 0
    case Common => a.bss != 0
    case _ => true
  }

  /** So is the one that etext or edata is the end of. */
  predicate SectionThere(f: File, vaddr: Word, i: nat)
    requires i < |f.syms|
  {
    var s := f.syms[i];
    if s.name == "etext" then |f.text| > 0
    else if s.name == "edata" then |f.data| > 0
    else if s.name == "end" then true
    else OrdinaryThere(f, vaddr, i)
  }

  lemma AddAssociates(a: Word, b: Word, c: Word)
    ensures Add(Add(a, b), c) == Add(a, Add(b, c))
  {
  }

  lemma AddCommutes(a: Word, b: Word)
    ensures Add(a, b) == Add(b, a)
  {
  }

  lemma AddOfSub(a: Word, b: Word)
    ensures Add(b, Sub(a, b)) == a
  {
  }

  lemma AlignmentPositive(s: Symbol, vaddr: Word)
    requires Aligned(s, vaddr) && s.place == Common
    ensures s.value > 0
  {
    AlignmentDividesM(s.value);
  }

  /** The addresses of the sections that are bound are those of the compact image. */
  lemma BoundIsRelative(f: File, vaddr: Word)
    requires FitsWords(f)
    ensures var z, a := SizesOf(f), Bound(SizesOf(f), vaddr);
            (z.text > 0 ==> a.text == vaddr)
            && (z.rodata > 0 ==> a.rodata == Add(vaddr, z.text))
            && (z.data > 0 ==> a.data == Add(vaddr, Add(z.text, z.rodata)))
            && (z.bss > 0 ==> a.bss == Add(vaddr, Add(Add(z.text, z.rodata), z.data)))
            && a.end == Add(vaddr, Add(Add(Add(z.text, z.rodata), z.data), z.bss))
  {
    var z := SizesOf(f);
    var tr := Add(z.text, z.rodata);
    AddAssociates(vaddr, z.text, z.rodata);
    AddAssociates(vaddr, tr, z.data);
    AddAssociates(vaddr, Add(tr, z.data), z.bss);
  }

  lemma CommonAgrees(vaddr: Word, end: Word, s: Symbol)
    requires s.place == Common && Aligned(s, vaddr)
    ensures s.value > 0 && AlignUp(Add(vaddr, end), s.value) == Add(vaddr, AlignUp(end, s.value))
  {
    AlignmentPositive(s, vaddr);
    AlignmentIsRelative(vaddr, end, s.value);
  }

  lemma {:induction false} EndsAgree(f: File, vaddr: Word, n: nat)
    requires Loadable(f, vaddr) && n <= |f.syms|
    ensures var z, a := SizesOf(f), Bound(SizesOf(f), vaddr);
            DirectEnd(z, a, f.syms, n) == Add(vaddr, CompactEnd(z, f.hasRodata, f.syms, n))
  {
    if n == 0 {
      BoundIsRelative(f, vaddr);
    } else {
      EndsAgree(f, vaddr, n - 1);
      var s, end := f.syms[n - 1], CompactEnd(SizesOf(f), f.hasRodata, f.syms, n - 1);
      if s.place == Common {
        CommonAgrees(vaddr, end, s);
        AddAssociates(vaddr, AlignUp(end, s.value), s.size);
      }
    }
  }

  /** A compact symbol stands for an address: of the image, or absolute. */
  function CompactVaddr(vaddr: Word, s: Symbol): (w: Option<Word>)
  {
    match s.place
    case Text => Some(Add(vaddr, s.value))
    case Absolute => Some(s.value)
    case _ => None
  }

  /** Before etext, edata and end are looked at. */
  lemma OrdinaryAgrees(f: File, vaddr: Word, i: nat)
    requires Loadable(f, vaddr) && i < |f.syms|
    ensures var z, a := SizesOf(f), Bound(SizesOf(f), vaddr);
            var d := Vaddr(f, vaddr, DirectSymbol(z, a, f.syms[i], DirectEnd(z, a, f.syms, i)).sym);
            var c := CompactVaddr(vaddr, CompactSymbol(z, f.hasRodata, f.syms[i], CompactEnd(z, f.hasRodata, f.syms, i)).sym);
            if OrdinaryThere(f, vaddr, i) then d == c else d.None? && c.Some?
  {
    var z, a, s := SizesOf(f), Bound(SizesOf(f), vaddr), f.syms[i];
    BoundIsRelative(f, vaddr);
    match s.place
    case Common =>
      EndsAgree(f, vaddr, i);
      CommonAgrees(vaddr, CompactEnd(z, f.hasRodata, f.syms, i), s);
      AddOfSub(AlignUp(DirectEnd(z, a, f.syms, i), s.value), a.bss);
    case Rodata =>
      AddCommutes(s.value, z.text);
      AddAssociates(vaddr, z.text, s.value);
    case Data =>
      AddCommutes(s.value, Add(z.text, z.rodata));
      AddAssociates(vaddr, Add(z.text, z.rodata), s.value);
    case Bss =>
      AddCommutes(s.value, Add(Add(z.text, z.rodata), z.data));
      AddAssociates(vaddr, Add(Add(z.text, z.rodata), z.data), s.value);
    case _ =>
  }

  ghost predicate AgreesIffThere(f: File, vaddr: Word, i: nat)
    requires i < |f.syms|
  {
    var d, c := Vaddr(f, vaddr, DirectSym(f, vaddr, i)), CompactVaddr(vaddr, CompactSym(f, i));
    if SectionThere(f, vaddr, i) then d == c else d.None? && c.Some?
  }

  /** A symbol has the same address either way, or has none either way, if and only if its section is bound;
      otherwise only the compact way gives it one. */
  lemma SymbolsAgree(f: File, vaddr: Word, i: nat)
    requires Loadable(f, vaddr) && i < |f.syms|
    ensures AgreesIffThere(f, vaddr, i)
  {
    if f.syms[i].name == "etext" {
      EtextAgrees(f, vaddr, i);
    } else if f.syms[i].name == "edata" {
      EdataAgrees(f, vaddr, i);
    } else if f.syms[i].name == "end" {
      EndAgrees(f, vaddr, i);
    } else {
      OrdinaryAgrees(f, vaddr, i);
    }
  }

  lemma EtextAgrees(f: File, vaddr: Word, i: nat)
    requires Loadable(f, vaddr) && i < |f.syms| && f.syms[i].name == "etext"
    ensures AgreesIffThere(f, vaddr, i)
  {
    var z := SizesOf(f);
    BoundIsRelative(f, vaddr);
    EndsAgree(f, vaddr, |f.syms|);
    AddAssociates(vaddr, Add(z.text, z.rodata), z.data);
    NamesDiffer();
  }

  lemma EdataAgrees(f: File, vaddr: Word, i: nat)
    requires Loadable(f, vaddr) && i < |f.syms| && f.syms[i].name == "edata"
    ensures AgreesIffThere(f, vaddr, i)
  {
    var z := SizesOf(f);
    BoundIsRelative(f, vaddr);
    EndsAgree(f, vaddr, |f.syms|);
    AddAssociates(vaddr, Add(z.text, z.rodata), z.data);
    NamesDiffer();
  }

  lemma EndAgrees(f: File, vaddr: Word, i: nat)
    requires Loadable(f, vaddr) && i < |f.syms| && f.syms[i].name == "end"
    ensures AgreesIffThere(f, vaddr, i)
  {
    var z := SizesOf(f);
    BoundIsRelative(f, vaddr);
    EndsAgree(f, vaddr, |f.syms|);
    AddAssociates(vaddr, Add(z.text, z.rodata), z.data);
    NamesDiffer();
  }

  lemma NamesDiffer()
    ensures "etext" != "edata" && "etext" != "end" && "edata" != "end"
  {
    assert "etext"[1] == 't' && "edata"[1] == 'd' && "end"[1] == 'n';
  }

  /** The direct loader resolves exactly the relocations that the compactor accepts and whose symbols' sections are
      bound. */
  lemma ConvertibleIffResolvable(f: File, vaddr: Word, r: Rela)
    requires Loadable(f, vaddr)
    ensures Resolvable(f, vaddr, r) <==> Convertible(f, r) && SectionThere(f, vaddr, r.sym)
  {
    if r.sym < |f.syms| {
      SymbolsAgree(f, vaddr, r.sym);
    }
  }

  // ----- and every slot the same value

  /** The flag does not get in the way of the offset, nor the offset of the flag. */
  lemma FlagAndOffset(offset: nat, base: nat, absolute: bool)
    requires offset + base < 0x8000_0000
    ensures var o := Add(if absolute && offset < ABSOLUTE_FLAG then offset + ABSOLUTE_FLAG else offset, base);
            Slot(o) == base + offset && (Flagged(o) <==> absolute)
  {
  }

  /** A relocation that the compactor accepts, of a symbol whose section is bound. */
  ghost predicate Usable(f: File, vaddr: Word, r: Rela)
  {
    Convertible(f, r) && SectionThere(f, vaddr, r.sym)
  }

  ghost predicate AllUsable(f: File, vaddr: Word, rs: seq<Rela>)
  {
    forall i: nat :: i < |rs| ==> Usable(f, vaddr, rs[i])
  }

  lemma ValueAgrees(f: File, vaddr: Word, r: Rela)
    requires Loadable(f, vaddr) && Usable(f, vaddr, r)
    ensures Resolvable(f, vaddr, r)
    ensures var s := CompactSym(f, r.sym);
            DirectValue(f, vaddr, r) == if s.place == Absolute then Add(r.addend, s.value) else Add(Add(r.addend, s.value), vaddr)
  {
    ConvertibleIffResolvable(f, vaddr, r);
    SymbolsAgree(f, vaddr, r.sym);
    var s := CompactSym(f, r.sym);
    AddCommutes(r.addend, s.value);
    AddCommutes(Add(r.addend, s.value), vaddr);
    AddAssociates(vaddr, s.value, r.addend);
  }

  lemma EntryAgrees(f: File, vaddr: Word, r: Rela, base: nat, size: nat)
    requires Loadable(f, vaddr) && Usable(f, vaddr, r) && r.offset + 4 <= size && base + size <= 0x8000_0000
    ensures var n := NewEntry(f, r, base); Slot(n.offset) == base + r.offset && LoadedValue(n, vaddr) == DirectValue(f, vaddr, r)
  {
    ValueAgrees(f, vaddr, r);
    FlagAndOffset(r.offset, base, CompactSym(f, r.sym).place == Absolute);
  }

  lemma PutInside(pre: seq<Byte>, s: seq<Byte>, post: seq<Byte>, at: nat, w: Word)
    requires at + 4 <= |s|
    ensures Put(pre + s + post, |pre| + at, w) == pre + Put(s, at, w) + post
  {
    var image := pre + s + post;
    assert image[..|pre| + at] == pre + s[..at];
    assert image[|pre| + at + 4..] == s[at + 4..] + post;
  }

  ghost predicate InSection(rs: seq<Rela>, size: nat)
  {
    forall i: nat :: i < |rs| ==> rs[i].offset + 4 <= size
  }

  lemma OnePutAgrees(f: File, vaddr: Word, pre: seq<Byte>, s: seq<Byte>, post: seq<Byte>, r: Rela)
    requires Loadable(f, vaddr) && |pre + s + post| <= 0x8000_0000 && Usable(f, vaddr, r) && r.offset + 4 <= |s|
    ensures var n := NewEntry(f, r, |pre|);
            Put(pre + s + post, Slot(n.offset), LoadedValue(n, vaddr)) == pre + Put(s, r.offset, DirectValue(f, vaddr, r)) + post
  {
    EntryAgrees(f, vaddr, r, |pre|, |s|);
    PutInside(pre, s, post, r.offset, DirectValue(f, vaddr, r));
  }

  /** The entries of one section relocate it as it would be by itself, wherever it lies in the image. */
  lemma {:induction false} SectionAgrees(f: File, vaddr: Word, pre: seq<Byte>, s: seq<Byte>, post: seq<Byte>, rs: seq<Rela>)
    requires Loadable(f, vaddr) && |pre + s + post| <= 0x8000_0000 && AllUsable(f, vaddr, rs) && InSection(rs, |s|)
    ensures CompactLoaded(pre + s + post, NewEntries(f, rs, |pre|), vaddr) == pre + DirectLoaded(f, vaddr, s, rs) + post
    decreases |rs|
  {
    if rs != [] {
      var n := |rs| - 1;
      SectionAgrees(f, vaddr, pre, s, post, rs[..n]);
      OnePutAgrees(f, vaddr, pre, DirectLoaded(f, vaddr, s, rs[..n]), post, rs[n]);
      assert NewEntries(f, rs, |pre|)[..n] == NewEntries(f, rs[..n], |pre|);
    }
  }

  /** A table in two parts. */
  lemma {:induction false} LoadedInParts(image: seq<Byte>, a: seq<NewRel>, b: seq<NewRel>, vaddr: Word)
    ensures CompactLoaded(image, a + b, vaddr) == CompactLoaded(CompactLoaded(image, a, vaddr), b, vaddr)
    decreases |b|
  {
    if b == [] {
      assert a + b == a;
    } else {
      var n := |b| - 1;
      LoadedInParts(image, a, b[..n], vaddr);
      assert (a + b)[..|a| + n] == a + b[..n];
    }
  }

  ghost predicate Relocatable(f: File)
  {
    && AllConvertible(f, f.relText) && AllConvertible(f, f.relRodata) && AllConvertible(f, f.relData)
    && InSection(f.relText, |f.text|) && InSection(f.relRodata, |f.rodata|) && InSection(f.relData, |f.data|)
  }

  /** And their symbols' sections are bound. */
  ghost predicate UsesBound(f: File, vaddr: Word)
  {
    AllUsable(f, vaddr, f.relText) && AllUsable(f, vaddr, f.relRodata) && AllUsable(f, vaddr, f.relData)
  }

  ghost predicate AllResolvable(f: File, vaddr: Word, rs: seq<Rela>)
  {
    forall i: nat :: i < |rs| ==> Resolvable(f, vaddr, rs[i])
  }

  /** The memory that loading directly makes of text, rodata and data. */
  function DirectImage(f: File, vaddr: Word): (image: seq<Byte>)
  {
    DirectLoaded(f, vaddr, f.text, f.relText) + DirectLoaded(f, vaddr, f.rodata, f.relRodata)
    + DirectLoaded(f, vaddr, f.data, f.relData)
  }

  ghost predicate Loads(image: seq<Byte>, rels: seq<NewRel>, vaddr: Word, image': seq<Byte>)
  {
    CompactLoaded(image, rels, vaddr) == image'
  }

  lemma SectionLoads(f: File, vaddr: Word, pre: seq<Byte>, s: seq<Byte>, post: seq<Byte>, rs: seq<Rela>,
                     image: seq<Byte>, image': seq<Byte>)
    requires Loadable(f, vaddr) && |pre + s + post| <= 0x8000_0000 && AllUsable(f, vaddr, rs) && InSection(rs, |s|)
    requires image == pre + s + post && image' == pre + DirectLoaded(f, vaddr, s, rs) + post
    ensures Loads(image, NewEntries(f, rs, |pre|), vaddr, image')
  {
    SectionAgrees(f, vaddr, pre, s, post, rs);
  }

  lemma NothingAfter(s: seq<Byte>)
    ensures s + [] == s
  {
  }

  lemma NothingBefore(a: seq<Byte>, b: seq<Byte>, c: seq<Byte>)
    ensures [] + a + (b + c) == a + b + c
  {
    assert [] + a == a;
  }

  lemma TextAgrees(f: File, vaddr: Word, t1: seq<Byte>)
    requires Loadable(f, vaddr) && AllUsable(f, vaddr, f.relText) && InSection(f.relText, |f.text|)
    requires t1 == DirectLoaded(f, vaddr, f.text, f.relText)
    ensures Loads(f.text + f.rodata + f.data, NewEntries(f, f.relText, 0), vaddr, t1 + f.rodata + f.data)
  {
    var post := f.rodata + f.data;
    NothingBefore(f.text, f.rodata, f.data);
    NothingBefore(t1, f.rodata, f.data);
    SectionLoads(f, vaddr, [], f.text, post, f.relText, f.text + f.rodata + f.data, t1 + f.rodata + f.data);
  }

  lemma DataAgrees(f: File, vaddr: Word, pre: seq<Byte>, d1: seq<Byte>)
    requires Loadable(f, vaddr) && AllUsable(f, vaddr, f.relData) && InSection(f.relData, |f.data|)
    requires |pre| == |f.text| + |f.rodata| && d1 == DirectLoaded(f, vaddr, f.data, f.relData)
    ensures Loads(pre + f.data, NewEntries(f, f.relData, |f.text| + |f.rodata|), vaddr, pre + d1)
  {
    NothingAfter(pre + f.data);
    NothingAfter(pre + d1);
    SectionLoads(f, vaddr, pre, f.data, [], f.relData, pre + f.data, pre + d1);
  }

  lemma ThreeParts(i0: seq<Byte>, i1: seq<Byte>, i2: seq<Byte>, i3: seq<Byte>,
                   t: seq<NewRel>, r: seq<NewRel>, d: seq<NewRel>, vaddr: Word)
    requires Loads(i0, t, vaddr, i1) && Loads(i1, r, vaddr, i2) && Loads(i2, d, vaddr, i3)
    ensures CompactImage(CompactFile(i0, t + r + d), vaddr) == i3
  {
    LoadedInParts(i0, t + r, d, vaddr);
    LoadedInParts(i0, t, r, vaddr);
  }

  lemma StretchesAgree(f: File, vaddr: Word, i0: seq<Byte>, t: seq<NewRel>, r: seq<NewRel>, d: seq<NewRel>,
                       t1: seq<Byte>, r1: seq<Byte>, d1: seq<Byte>)
    requires Loadable(f, vaddr) && Relocatable(f) && UsesBound(f, vaddr)
    requires i0 == f.text + f.rodata + f.data && t1 == DirectLoaded(f, vaddr, f.text, f.relText)
    requires r1 == DirectLoaded(f, vaddr, f.rodata, f.relRodata) && d1 == DirectLoaded(f, vaddr, f.data, f.relData)
    requires t == NewEntries(f, f.relText, 0) && r == NewEntries(f, f.relRodata, |f.text|)
    requires d == NewEntries(f, f.relData, |f.text| + |f.rodata|)
    ensures Loads(i0, t, vaddr, t1 + f.rodata + f.data) && Loads(t1 + f.rodata + f.data, r, vaddr, t1 + r1 + f.data)
    ensures Loads(t1 + r1 + f.data, d, vaddr, t1 + r1 + d1)
  {
    TextAgrees(f, vaddr, t1);
    SectionLoads(f, vaddr, t1, f.rodata, f.data, f.relRodata, t1 + f.rodata + f.data, t1 + r1 + f.data);
    DataAgrees(f, vaddr, t1 + r1, d1);
  }

  lemma BothImagesAre(f: File, vaddr: Word, i0: seq<Byte>, t: seq<NewRel>, r: seq<NewRel>, d: seq<NewRel>,
                      t1: seq<Byte>, r1: seq<Byte>, d1: seq<Byte>)
    requires FitsWords(f)
    requires i0 == f.text + f.rodata + f.data && t1 == DirectLoaded(f, vaddr, f.text, f.relText)
    requires r1 == DirectLoaded(f, vaddr, f.rodata, f.relRodata) && d1 == DirectLoaded(f, vaddr, f.data, f.relData)
    requires t == NewEntries(f, f.relText, 0) && r == NewEntries(f, f.relRodata, |f.text|)
    requires d == NewEntries(f, f.relData, |f.text| + |f.rodata|)
    ensures Compacted(f) == CompactFile(i0, t + r + d) && DirectImage(f, vaddr) == t1 + r1 + d1
  {
  }

  /** Compacting a file and loading the result gives exactly the memory that loading the file directly does. */
  lemma SameImage(f: File, vaddr: Word)
    requires Loadable(f, vaddr) && Relocatable(f) && UsesBound(f, vaddr)
    ensures CompactImage(Compacted(f), vaddr) == DirectImage(f, vaddr)
  {
    var i0 := f.text + f.rodata + f.data;
    var t1, r1 := DirectLoaded(f, vaddr, f.text, f.relText), DirectLoaded(f, vaddr, f.rodata, f.relRodata);
    var d1 := DirectLoaded(f, vaddr, f.data, f.relData);
    var t, r := NewEntries(f, f.relText, 0), NewEntries(f, f.relRodata, |f.text|);
    var d := NewEntries(f, f.relData, |f.text| + |f.rodata|);
    StretchesAgree(f, vaddr, i0, t, r, d, t1, r1, d1);
    ThreeParts(i0, t1 + f.rodata + f.data, t1 + r1 + f.data, t1 + r1 + d1, t, r, d, vaddr);
    BothImagesAre(f, vaddr, i0, t, r, d, t1, r1, d1);
  }

  lemma UsableIffResolvable(f: File, vaddr: Word, rs: seq<Rela>)
    requires Loadable(f, vaddr)
    ensures AllUsable(f, vaddr, rs) <==> AllResolvable(f, vaddr, rs)
  {
    forall i: nat | i < |rs|
      ensures Usable(f, vaddr, rs[i]) <==> Resolvable(f, vaddr, rs[i])
    {
      ConvertibleIffResolvable(f, vaddr, rs[i]);
    }
  }

  /** Of a file that the compactor accepts, the direct loader resolves every relocation if and only if no symbol that
      is used lies in an unbound section; and then both ways make the same memory. */
  lemma SameImageIffBound(f: File, vaddr: Word)
    requires Loadable(f, vaddr) && Relocatable(f)
    ensures UsesBound(f, vaddr) <==>
              AllResolvable(f, vaddr, f.relText) && AllResolvable(f, vaddr, f.relRodata) && AllResolvable(f, vaddr, f.relData)
    ensures UsesBound(f, vaddr) ==> CompactImage(Compacted(f), vaddr) == DirectImage(f, vaddr)
  {
    UsableIffResolvable(f, vaddr, f.relText);
    UsableIffResolvable(f, vaddr, f.relRodata);
    UsableIffResolvable(f, vaddr, f.relData);
    if UsesBound(f, vaddr) {
      SameImage(f, vaddr);
    }
  }

  /** Four bytes of text that are to hold the address of a symbol in a .rodata section that is empty. */
  function EmptyRodata(): (f: File)
  {
    File([0, 0, 0, 0], [], [0], 1, true, [Symbol("x", Rodata, 0, 0)], [Rela(0, R68K32, 0, 0)], [], [])
  }

  /** The compactor accepts that file, and the two images differ unless it is loaded so that .rodata would be at
      address 0. */
  lemma EmptyRodataDiffers(vaddr: Word)
    ensures var f := EmptyRodata();
            Loadable(f, vaddr) && Relocatable(f) && !UsesBound(f, vaddr)
            && (CompactImage(Compacted(f), vaddr) == DirectImage(f, vaddr) <==> Add(vaddr, 4) == 0)
  {
    var f := EmptyRodata();
    assert f.syms[0].place == Rodata && CompactSym(f, 0) == Symbol("x", Text, 4, 0);
    assert Convertible(f, f.relText[0]);
    assert !Usable(f, vaddr, f.relText[0]);
    DirectOfOne(f, vaddr);
    CompactOfOne(f, vaddr);
    BytesTell(Add(4, vaddr), 0);
    FirstFour(Bytes(Add(4, vaddr)), Bytes(0));
  }

  lemma FirstFour(a: seq<Byte>, b: seq<Byte>)
    requires |a| == |b| == 4
    ensures a + [] + [0] == b + [] + [0] <==> a == b
  {
    assert (a + [] + [0])[..4] == a && (b + [] + [0])[..4] == b;
  }

  lemma DirectOfOne(f: File, vaddr: Word)
    requires f == EmptyRodata()
    ensures DirectImage(f, vaddr) == Bytes(0) + [] + [0]
  {
    assert f.relText[..0] == [];
    assert Vaddr(f, vaddr, DirectSym(f, vaddr, 0)) == None;
    assert DirectLoaded(f, vaddr, f.text, f.relText) == Put(f.text, 0, 0) == Bytes(0);
  }

  lemma CompactOfOne(f: File, vaddr: Word)
    requires f == EmptyRodata() && FitsWords(f) && CompactSym(f, 0) == Symbol("x", Text, 4, 0)
    ensures CompactImage(Compacted(f), vaddr) == Bytes(Add(4, vaddr)) + [] + [0]
  {
    EntriesOfOne(f);
    LoadOfOne(vaddr);
    assert f.text + f.rodata + f.data == [0, 0, 0, 0, 0];
  }

  lemma EntriesOfOne(f: File)
    requires f == EmptyRodata() && CompactSym(f, 0) == Symbol("x", Text, 4, 0)
    ensures NewEntries(f, f.relText, 0) == [NewRel(0, 4)]
    ensures NewEntries(f, f.relRodata, 4) == [] && NewEntries(f, f.relData, 4) == []
  {
    assert f.relText[..0] == [];
    assert NewEntry(f, f.relText[0], 0) == NewRel(0, 4);
  }

  lemma LoadOfOne(vaddr: Word)
    ensures CompactLoaded([0, 0, 0, 0, 0], [NewRel(0, 4)], vaddr) == Bytes(Add(4, vaddr)) + [] + [0]
  {
    var n, image: seq<Byte> := NewRel(0, 4), [0, 0, 0, 0, 0];
    assert [n][..0] == [];
    assert Slot(n.offset) == 0 && LoadedValue(n, vaddr) == Add(4, vaddr);
    assert image[..0] == [] && image[4..] == [0];
  }

  lemma BytesTell(a: Word, b: Word)
    ensures Bytes(a) == Bytes(b) <==> a == b
  {
    if Bytes(a) == Bytes(b) {
      assert Bytes(a)[0] == Bytes(b)[0] && Bytes(a)[1] == Bytes(b)[1] && Bytes(a)[2] == Bytes(b)[2] && Bytes(a)[3] == Bytes(b)[3];
      OfBytes(a);
      OfBytes(b);
    }
  }

  lemma OfBytes(a: Word)
    ensures var h: nat, i: nat, j: nat, k: nat := Bytes(a)[0], Bytes(a)[1], Bytes(a)[2], Bytes(a)[3];
            a == ((h * 256 + i) * 256 + j) * 256 + k
  {
    var b, c := a / 0x100, a / 0x1_0000;
    assert b / 0x100 == c && c / 0x100 == a / 0x100_0000;
    assert a == b * 0x100 + a % 0x100 && b == c * 0x100 + b % 0x100;
  }
}
