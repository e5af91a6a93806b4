/**
 The two programs that work on relocatable kernels, as they are written: elf2brel rewrites the symbol table
 and fills a new relocation table; the boot loader's rel overwrites words of the image.
 */
module ElfTools {

  import opened Basics
  import opened Word32
  import opened Elf

  /** A 32-bit word stored at an address in the image. */
  method PutWord(image: array<Byte>, at: nat, w: Word)
    requires at + 4 <= image.Length
    modifies image
    ensures image[..] == Put(old(image[..]), at, w)
  {
    image[at], image[at + 1], image[at + 2], image[at + 3] := Bytes(w)[0], Bytes(w)[1], Bytes(w)[2], Bytes(w)[3];
  }

  /** No relocation makes the converter give up. */
  ghost predicate Accepted(f: File)
  {
    AllConvertible(f, f.relText) && AllConvertible(f, f.relRodata) && AllConvertible(f, f.relData)
  }

  lemma CompactedIs(f: File, rels: seq<NewRel>, textsize: Word, rodatasize: Word)
    requires FitsWords(f) && textsize == |f.text| && rodatasize == |f.rodata|
    requires rels == NewEntries(f, f.relText, 0) + NewEntries(f, f.relRodata, textsize)
                     + NewEntries(f, f.relData, Add(textsize, rodatasize))
    ensures CompactFile(f.text + f.rodata + f.data, rels) == Compacted(f)
  {
  }

  /** elf2brel */
  class Converter {
    const f: File
    const symtab: array<Symbol>
    const textsize: Word
    const rodatasize: Word
    const datasize: Word
    var bsssize: Word
    var nreltab: seq<NewRel>

    ghost predicate Shape()
    {
      && FitsWords(f) && symtab.Length == |f.syms|
      && SizesOf(f) == Sizes(textsize, rodatasize, datasize, f.bss)
    }

    constructor (file: File)
      requires FitsWords(file)
      ensures Shape() && f == file && bsssize == file.bss && symtab[..] == file.syms && fresh(symtab) && nreltab == []
    {
      f := file;
      textsize, rodatasize, datasize, bsssize := |file.text|, |file.rodata|, |file.data|, file.bss;
      nreltab := [];
      symtab := new Symbol[|file.syms|](i requires 0 <= i < |file.syms| => file.syms[i]);
    }

    /** Symbol i after the first loop. */
    ghost function Laid(i: nat): (s: Symbol)
      requires Shape() && i < |f.syms|
    {
      CompactSymbol(SizesOf(f), f.hasRodata, f.syms[i], CompactEnd(SizesOf(f), f.hasRodata, f.syms, i)).sym
    }

    /** The body of ProcessSymtab's first loop. */
    method LaySymbol(symidx: nat, end: Word) returns (end': Word)
      requires Shape() && symidx < symtab.Length
      requires end == Add(Add(Add(textsize, rodatasize), datasize), bsssize)
      modifies symtab, this`bsssize
      ensures var l := CompactSymbol(SizesOf(f), f.hasRodata, old(symtab[symidx]), end);
              symtab[..] == old(symtab[..])[symidx := l.sym] && end' == l.end
      ensures end' == Add(Add(Add(textsize, rodatasize), datasize), bsssize)
    {
      var sym := symtab[symidx];
      end' := end;
      if sym.place == Common {
        end' := if sym.value > 0 then AlignUp(end, sym.value) else 0;
        symtab[symidx] := sym.(place := Text, value := end');
        end' := Add(end', sym.size);
        bsssize := Sub(Sub(Sub(end', textsize), rodatasize), datasize);
      } else if sym.place == Rodata && f.hasRodata {
        symtab[symidx] := sym.(place := Text, value := Add(sym.value, textsize));
      } else if sym.place == Data {
        symtab[symidx] := sym.(place := Text, value := Add(sym.value, Add(textsize, rodatasize)));
      } else if sym.place == Bss {
        symtab[symidx] := sym.(place := Text, value := Add(sym.value, Add(Add(textsize, rodatasize), datasize)));
      }
    }

    /** ProcessSymtab */
    method ProcessSymtab()
      requires Shape() && symtab[..] == f.syms && bsssize == f.bss
      modifies symtab, this`bsssize
      ensures SymbolsReady()
    {
      LaySymbols();
      SetSpecials();
    }

    method LaySymbols()
      requires Shape() && symtab[..] == f.syms && bsssize == f.bss
      modifies symtab, this`bsssize
      ensures Add(Add(Add(textsize, rodatasize), datasize), bsssize) == CompactEnd(SizesOf(f), f.hasRodata, f.syms, |f.syms|)
      ensures forall i: nat :: i < |f.syms| ==> symtab[i] == Laid(i)
    {
      var end := Add(Add(Add(textsize, rodatasize), datasize), bsssize);
      for symidx := 0 to symtab.Length
        invariant end == CompactEnd(SizesOf(f), f.hasRodata, f.syms, symidx)
        invariant end == Add(Add(Add(textsize, rodatasize), datasize), bsssize)
        invariant forall i: nat :: i < |f.syms| ==> symtab[i] == if i < symidx then Laid(i) else f.syms[i]
      {
        end := LaySymbol(symidx, end);
      }
    }

    method SetSpecials()
      requires Shape() && forall i: nat :: i < |f.syms| ==> symtab[i] == Laid(i)
      requires Add(Add(Add(textsize, rodatasize), datasize), bsssize) == CompactEnd(SizesOf(f), f.hasRodata, f.syms, |f.syms|)
      modifies symtab
      ensures SymbolsReady()
    {
      ghost var end := Add(Add(Add(textsize, rodatasize), datasize), bsssize);
      for symidx := 0 to symtab.Length
        invariant forall i: nat :: i < |f.syms| ==> symtab[i] == if i < symidx then CompactSym(f, i) else Laid(i)
      {
        SetSpecial(symidx, end);
      }
    }

    /** The body of the second loop. */
    method SetSpecial(symidx: nat, ghost end: Word)
      requires Shape() && symidx < symtab.Length
      requires end == Add(Add(Add(textsize, rodatasize), datasize), bsssize)
      modifies symtab
      ensures symtab[..] == old(symtab[..])[symidx := CompactSpecial(SizesOf(f), old(symtab[symidx]), end)]
    {
      var sym := symtab[symidx];
      if sym.name == "etext" {
        symtab[symidx] := sym.(place := Text, value := textsize);
      } else if sym.name == "edata" {
        symtab[symidx] := sym.(place := Text, value := Add(Add(textsize, rodatasize), datasize));
      } else if sym.name == "end" {
        symtab[symidx] := sym.(place := Text, value := Add(Add(Add(textsize, rodatasize), datasize), bsssize));
      }
    }

    ghost predicate SymbolsReady()
      reads symtab
    {
      Shape() && forall i: nat :: i < |f.syms| ==> symtab[i] == CompactSym(f, i)
    }

    /** DoRelEntry, and the adjustment of the offset; not ok where the program gives up. */
    method DoRelEntry(rel: Rela, base: Word) returns (ok: bool, n: NewRel)
      requires SymbolsReady() && rel.sym < |f.syms|
      ensures ok <==> Convertible(f, rel)
      ensures ok ==> n == NewEntry(f, rel, base)
    {
      var sym := symtab[rel.sym];
      n := NewRel(0, 0);
      ok := (sym.place == Text || sym.place == Absolute) && rel.kind == R68K32;
      if ok {
        var offset := rel.offset;
        if sym.place == Absolute && offset < ABSOLUTE_FLAG {
          offset := offset + ABSOLUTE_FLAG;
        }
        n := NewRel(Add(offset, base), Add(rel.addend, sym.value));
      }
    }

    /** One of GenRelocTable's loops. */
    method ConvertRels(rels: seq<Rela>, base: Word) returns (ok: bool)
      requires SymbolsReady() && forall i: nat :: i < |rels| ==> rels[i].sym < |f.syms|
      modifies this`nreltab
      ensures ok <==> AllConvertible(f, rels)
      ensures ok ==> nreltab == old(nreltab) + NewEntries(f, rels, base)
    {
      ok := true;
      assert rels[..0] == [];
      for k := 0 to |rels|
        invariant ok ==> AllConvertible(f, rels[..k]) && nreltab == old(nreltab) + NewEntries(f, rels[..k], base)
        invariant !ok ==> !AllConvertible(f, rels)
      {
        if ok {
          var n;
          assert rels[..k + 1][..k] == rels[..k];
          ok, n := DoRelEntry(rels[k], base);
          nreltab := nreltab + [n];
        }
      }
      assert rels[..|rels|] == rels;
    }

    ghost predicate SymbolsInTable()
    {
      && (forall i: nat :: i < |f.relText| ==> f.relText[i].sym < |f.syms|)
      && (forall i: nat :: i < |f.relRodata| ==> f.relRodata[i].sym < |f.syms|)
      && (forall i: nat :: i < |f.relData| ==> f.relData[i].sym < |f.syms|)
    }

    /** GenRelocTable: it gives up exactly when some relocation cannot be converted. */
    method GenRelocTable() returns (ok: bool)
      requires SymbolsReady() && nreltab == [] && SymbolsInTable()
      modifies this`nreltab
      ensures ok <==> Accepted(f)
      ensures ok ==> nreltab == NewEntries(f, f.relText, 0) + NewEntries(f, f.relRodata, textsize)
                                + NewEntries(f, f.relData, Add(textsize, rodatasize))
    {
      ok := ConvertRels(f.relText, 0);
      if ok {
        ok := ConvertRels(f.relRodata, textsize);
        if ok {
          ok := ConvertRels(f.relData, Add(textsize, rodatasize));
        }
      }
    }

    /** WriteElfFile: what the new file holds. */
    method WriteFile() returns (c: CompactFile)
      requires Shape()
      requires nreltab == NewEntries(f, f.relText, 0) + NewEntries(f, f.relRodata, textsize)
                          + NewEntries(f, f.relData, Add(textsize, rodatasize))
      ensures c == Compacted(f)
    {
      CompactedIs(f, nreltab, textsize, rodatasize);
      c := CompactFile(f.text + f.rodata + f.data, nreltab);
    }

    /** The whole program. */
    method Convert() returns (ok: bool, c: CompactFile)
      requires Shape() && symtab[..] == f.syms && bsssize == f.bss && nreltab == [] && SymbolsInTable()
      modifies this, symtab
      ensures ok <==> Accepted(f)
      ensures ok ==> c == Compacted(f)
    {
      c := CompactFile([], []);
      ProcessSymtab();
      ok := GenRelocTable();
      if ok {
        c := WriteFile();
      }
    }
  }

  /** compactreloc */
  method CompactReloc(image: array<Byte>, rels: seq<NewRel>, vaddr: Word)
    requires forall i: nat :: i < |rels| ==> Slot(rels[i].offset) + 4 <= image.Length
    modifies image
    ensures image[..] == CompactLoaded(old(image[..]), rels, vaddr)
  {
    assert rels[..0] == [];
    for k := 0 to |rels|
      invariant image[..] == CompactLoaded(old(image[..]), rels[..k], vaddr)
    {
      var relvalue, offset := rels[k].value, rels[k].offset;
      if offset < 0x8000_0000 {
        relvalue := Add(relvalue, vaddr);
      }
      assert rels[..k + 1][..k] == rels[..k];
      PutWord(image, offset % 0x8000_0000, relvalue);
    }
    assert rels[..|rels|] == rels;
  }

  lemma BoundByTurns(f: File, vaddr: Word)
    requires FitsWords(f)
    ensures var e1 := Add(vaddr, |f.text|); var e2 := Add(e1, |f.rodata|); var e3 := Add(e2, |f.data|);
            Bound(SizesOf(f), vaddr) == Addresses(if |f.text| > 0 then vaddr else 0, if |f.rodata| > 0 then e1 else 0,
                                                  if |f.data| > 0 then e2 else 0, if f.bss > 0 then e3 else 0, Add(e3, f.bss))
  {
    assert SizesOf(f) == Sizes(|f.text|, |f.rodata|, |f.data|, f.bss);
  }

  /** rel, for a file that has not been compacted. */
  class Loader {
    const f: File
    const syms: array<Symbol>
    var addresses: Addresses
    var end: Word

    constructor (file: File)
      requires FitsWords(file)
      ensures f == file && syms[..] == file.syms && fresh(syms)
    {
      f := file;
      addresses, end := Addresses(0, 0, 0, 0, 0), 0;
      syms := new Symbol[|file.syms|](i requires 0 <= i < |file.syms| => file.syms[i]);
    }

    /** One section of bindsections; an empty one has not been found. */
    method BindSection(size: Word) returns (addr: Word)
      modifies this`end
      ensures addr == if size > 0 then old(end) else 0
      ensures end == Add(old(end), size)
    {
      addr := 0;
      if size > 0 {
        addr := end;
        end := Add(end, size);
      }
    }

    /** bindsections */
    method BindSections(vaddr: Word)
      requires FitsWords(f)
      modifies this
      ensures addresses == Bound(SizesOf(f), vaddr) && end == addresses.end
    {
      BoundByTurns(f, vaddr);
      end := vaddr;
      var t := BindSection(|f.text|);
      var r := BindSection(|f.rodata|);
      var d := BindSection(|f.data|);
      var b := BindSection(f.bss);
      addresses := Addresses(t, r, d, b, end);
    }

    ghost function Laid(vaddr: Word, i: nat): (s: Symbol)
      requires i < |f.syms|
    {
      var z, a := SizesOf(f), Bound(SizesOf(f), vaddr);
      DirectSymbol(z, a, f.syms[i], DirectEnd(z, a, f.syms, i)).sym
    }

    /** The body of allocbss's loop; .bss ends where everything ends.  Without a .bss the loop is left. */
    method AllocSymbol(symidx: nat) returns (ok: bool)
      requires symidx < syms.Length && FitsWords(f)
      modifies syms, this`end
      ensures var l := DirectSymbol(SizesOf(f), addresses, old(syms[symidx]), old(end));
              syms[..] == old(syms[..])[symidx := l.sym] && end == l.end
      ensures !ok ==> f.bss == 0
    {
      var sym := syms[symidx];
      ok := true;
      if sym.place == Common {
        if f.bss == 0 {
          return false;
        }
        var vaddr := if sym.value > 0 then AlignUp(end, sym.value) else 0;
        syms[symidx] := sym.(place := Bss, value := Sub(vaddr, addresses.bss));
        end := Add(vaddr, sym.size);
      }
    }

    method SetSpecial(symidx: nat)
      requires symidx < syms.Length && FitsWords(f)
      modifies syms
      ensures syms[..] == old(syms[..])[symidx := DirectSpecial(SizesOf(f), addresses, old(syms[symidx]), end)]
    {
      var sym := syms[symidx];
      if sym.name == "etext" {
        syms[symidx] := if |f.text| == 0 then sym.(place := Elsewhere)
                        else sym.(place := Absolute, value := Add(addresses.text, |f.text|));
      } else if sym.name == "edata" {
        syms[symidx] := if |f.data| == 0 then sym.(place := Elsewhere)
                        else sym.(place := Absolute, value := Add(addresses.data, |f.data|));
      } else if sym.name == "end" {
        syms[symidx] := sym.(place := Absolute, value := end);
      }
    }

    static lemma {:induction false} NothingLaidOut(f: File, a: Addresses, n: nat)
      requires f.bss == 0 && n <= |f.syms|
      ensures DirectEnd(SizesOf(f), a, f.syms, n) == a.end
    {
      if n > 0 {
        NothingLaidOut(f, a, n - 1);
      }
    }

    /** allocbss */
    method AllocBss(ghost vaddr: Word)
      requires FitsWords(f) && syms[..] == f.syms && addresses == Bound(SizesOf(f), vaddr) && end == addresses.end
      modifies syms, this`end
      ensures end == DirectEnd(SizesOf(f), addresses, f.syms, |f.syms|)
      ensures syms.Length == |f.syms| && forall i: nat :: i < |f.syms| ==> syms[i] == Laid(vaddr, i)
    {
      for symidx := 0 to syms.Length
        invariant end == DirectEnd(SizesOf(f), addresses, f.syms, symidx)
        invariant forall i: nat :: i < |f.syms| ==> syms[i] == if i < symidx then Laid(vaddr, i) else f.syms[i]
      {
        var ok := AllocSymbol(symidx);
        if !ok {
          NothingLaidOut(f, addresses, symidx + 1);
          NothingLaidOut(f, addresses, |f.syms|);
          break;
        }
      }
    }

    /** specialsyms */
    method SpecialSyms(ghost vaddr: Word)
      requires FitsWords(f) && addresses == Bound(SizesOf(f), vaddr) && end == DirectEnd(SizesOf(f), addresses, f.syms, |f.syms|)
      requires syms.Length == |f.syms| && forall i: nat :: i < |f.syms| ==> syms[i] == Laid(vaddr, i)
      modifies syms
      ensures forall i: nat :: i < |f.syms| ==> syms[i] == DirectSym(f, vaddr, i)
    {
      for symidx := 0 to syms.Length
        invariant forall i: nat :: i < |f.syms| ==> syms[i] == if i < symidx then DirectSym(f, vaddr, i) else Laid(vaddr, i)
      {
        SetSpecial(symidx);
      }
    }

    /** symvaddr */
    method SymVaddr(sym: Symbol, ghost vaddr: Word) returns (w: Option<Word>)
      requires FitsWords(f) && addresses == Bound(SizesOf(f), vaddr)
      ensures w == Vaddr(f, vaddr, sym)
    {
      var base := 0;
      match sym.place {
        case Text => base := addresses.text;
        case Rodata => base := if f.hasRodata then addresses.rodata else 0;
        case Data => base := addresses.data;
        case Bss => base := addresses.bss;
        case Absolute => return Some(sym.value);
        case _ => return None;
      }
      w := if base == 0 then None else Some(Add(base, sym.value));
    }

    /** relocsection: 0 stands for an address that there is not, and unknown types are passed over. */
    method RelocSection(section: array<Byte>, rels: seq<Rela>, ghost vaddr: Word)
      requires FitsWords(f) && addresses == Bound(SizesOf(f), vaddr)
      requires syms.Length == |f.syms| && forall i: nat :: i < |f.syms| ==> syms[i] == DirectSym(f, vaddr, i)
      requires forall i: nat :: i < |rels| ==> rels[i].sym < |f.syms| && rels[i].offset + 4 <= section.Length
      modifies section
      ensures section[..] == DirectLoaded(f, vaddr, old(section[..]), rels)
    {
      assert rels[..0] == [];
      for k := 0 to |rels|
        invariant forall i: nat :: i < |f.syms| ==> syms[i] == DirectSym(f, vaddr, i)
        invariant section[..] == DirectLoaded(f, vaddr, old(section[..]), rels[..k])
      {
        var rel := rels[k];
        var w := SymVaddr(syms[rel.sym], vaddr);
        assert rels[..k + 1][..k] == rels[..k];
        if rel.kind == R68K32 {
          PutWord(section, rel.offset, Add(if w.Some? then w.value else 0, rel.addend));
        }
      }
      assert rels[..|rels|] == rels;
    }
  }
}
