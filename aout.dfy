/** The a.out pseudo object that `write_a_import` builds for one import
    (emximp.c:605-711): fixed-size tables for the string table, the symbol
    table, the text segment and its relocations, filled through counters.

    The C struct layouts are kept abstract: a symbol, a relocation and the
    header are records here, and their sizes in the file are the constants
    of defs.h:112-147 (32, 8 and 12 bytes). */
module Aout {
  import opened Common

  const N_EXT: Byte := 0x01
  const N_ABS: Byte := 0x02
  const N_TEXT: Byte := 0x04
  const N_IMP1: Byte := 0x68
  const N_IMP2: Byte := 0x6a

  /** sizeof (struct a_out_header), sizeof (struct reloc), sizeof (struct nlist). */
  const HEADER_SIZE: nat := 32
  const RELOC_SIZE: nat := 8
  const NLIST_SIZE: nat := 12

  /** The capacities of the four static tables. */
  const STR_TAB_SIZE: nat := 2048
  const SYM_TAB_SIZE: nat := 6
  const TEXT_SIZE: nat := 64
  const TRELOC_TAB_SIZE: nat := 2

  /** The `nop` opcode the text segment is padded with. */
  const NOP: Byte := 0x90

  const MAGIC: nat := 0x107  // 0407

  /** One `struct nlist`: string-table offset, type, other, desc, value. */
  datatype Symbol = Symbol(str: nat, stype: Byte, other: Byte, desc: nat, value: nat)

  /** One `struct reloc`, its bit fields already cut to their widths. */
  datatype Reloc = Reloc(address: nat, symbolNum: nat, pcrel: nat, length: nat, ext: nat)

  datatype AoutHeader = AoutHeader(magic: nat, machType: nat, flags: nat, textSize: nat,
                                   dataSize: nat, bssSize: nat, symSize: nat, entry: nat,
                                   trSize: nat, drSize: nat)

  /** What `aout_write` puts into the file: the header, the text, the
      relocations, the symbols and the string table. */
  datatype AoutImage = AoutImage(header: AoutHeader, text: seq<Byte>, relocs: seq<Reloc>,
                                 syms: seq<Symbol>, strTab: string)

  /** The fatal errors of the builder. */
  datatype AoutError = StringTableOverflow | SymbolTableOverflow | TextOverflow | RelocationOverflow

  datatype Status = Ok | Fatal(error: AoutError)

  /** The number of bytes the image takes in the file. */
  function ImageSize(img: AoutImage): nat
  {
    HEADER_SIZE + |img.text| + RELOC_SIZE * |img.relocs| + NLIST_SIZE * |img.syms| + |img.strTab|
  }

  /** The names of the string table, each followed by its NUL. */
  function Joined(names: seq<string>): string
  {
    if names == [] then [] else Joined(names[..|names| - 1]) + names[|names| - 1] + "\0"
  }

  lemma {:induction false} JoinedAppend(a: seq<string>, b: seq<string>)
    ensures Joined(a + b) == Joined(a) + Joined(b)
    decreases |b|
  {
    if b == [] {
      assert a + b == a;
    } else {
      var b' := b[..|b| - 1];
      assert (a + b)[..|a + b| - 1] == a + b';
      JoinedAppend(a, b');
    }
  }

  /** The C string that starts at offset `off` of a table. */
  lemma JoinedSnoc(names: seq<string>, name: string)
    ensures Joined(names + [name]) == Joined(names) + name + "\0"
    ensures forall k :: 0 <= k <= |names| ==> (names + [name])[..k] == names[..k]
  {
    assert (names + [name])[..|names|] == names;
  }

  function CStringAt(tab: string, off: nat): string
    decreases |tab| - off
  {
    if off >= |tab| || tab[off] == '\0' then [] else [tab[off]] + CStringAt(tab, off + 1)
  }

  lemma {:induction false} CStringAtName(pre: string, name: string, post: string)
    requires '\0' !in name
    ensures CStringAt(pre + name + "\0" + post, |pre|) == name
    decreases |name|
  {
    var tab := pre + name + "\0" + post;
    if name == [] {
      assert tab[|pre|] == '\0';
    } else {
      assert tab[|pre|] == name[0];
      assert tab == (pre + [name[0]]) + name[1..] + "\0" + post;
      CStringAtName(pre + [name[0]], name[1..], post);
    }
  }

  /** The string table hands back every name at its recorded offset: the
      k-th symbol's name starts after the four size bytes and the names
      before it, each with its NUL. */
  lemma StringTableLookup(head: string, names: seq<string>, k: nat)
    requires |head| == 4 && k < |names|
    requires forall j :: 0 <= j < |names| ==> '\0' !in names[j]
    ensures CStringAt(head + Joined(names), 4 + |Joined(names[..k])|) == names[k]
  {
    assert names == names[..k] + [names[k]] + names[k + 1..];
    JoinedAppend(names[..k] + [names[k]], names[k + 1..]);
    JoinedAppend(names[..k], [names[k]]);
    assert Joined([names[k]]) == names[k] + "\0" by { assert [names[k]][..0] == []; }
    assert head + Joined(names) == (head + Joined(names[..k])) + names[k] + "\0" + Joined(names[k + 1..]);
    CStringAtName(head + Joined(names[..k]), names[k], Joined(names[k + 1..]));
  }

  /** The four bytes `aout_text_dword` stores: little-endian. */
  function DwordBytes(d: nat): (r: seq<Byte>)
    ensures |r| == 4
  {
    [d % 256, (d / 256) % 256, (d / 65536) % 256, (d / 16777216) % 256]
  }

  function DwordValue(b: seq<Byte>): nat
    requires |b| == 4
  {
    b[0] as int + 256 * (b[1] as int + 256 * (b[2] as int + 256 * b[3] as int))
  }

  lemma DivMod256(d: nat)
    ensures d == 256 * (d / 256) + d % 256
  {
  }

  /** The four bytes give back the value, for anything that fits in 32 bits. */
  lemma DwordRoundTrip(d: nat)
    requires d < 0x1_0000_0000
    ensures DwordValue(DwordBytes(d)) == d
  {
    var d1, d2, d3 := d / 256, d / 65536, d / 16777216;
    DivMod256(d);
    DivMod256(d1);
    assert d1 / 256 == d2;
    DivMod256(d2);
    assert d2 / 256 == d3;
    assert d3 < 256;
  }

  /** An unsigned 32-bit `dword`: C's conversion keeps the value modulo 2^32. */
  function Wrap32(x: int): (r: nat)
    ensures r < 0x1_0000_0000
  {
    x % 0x1_0000_0000
  }

  /** The four bytes of the string table's size, as the characters that
      `*(dword *)aout_str_tab = aout_str_size` stores. */
  function SizeChars(n: nat): (r: string)
    ensures |r| == 4
  {
    var b := DwordBytes(n);
    [b[0] as char, b[1] as char, b[2] as char, b[3] as char]
  }

  /** The image `aout_write` emits for the given tables: the header, the
      text, the relocations, the symbols and the string table, which starts
      with its own size. */
  function ImageOf(names: seq<string>, syms: seq<Symbol>, code: seq<Byte>, relocs: seq<Reloc>): AoutImage
  {
    AoutImage(AoutHeader(MAGIC, 0, 0, |code|, 0, 0, NLIST_SIZE * |syms|, 0, RELOC_SIZE * |relocs|, 0),
              code, relocs, syms, SizeChars(4 + |Joined(names)|) + Joined(names))
  }

  /** The size stored at the head of the string table reads back as the
      table's length, and the header's sizes match the sections. */
  lemma ImageOfConsistent(names: seq<string>, syms: seq<Symbol>, code: seq<Byte>, relocs: seq<Reloc>)
    requires 4 + |Joined(names)| < 0x1_0000_0000
    ensures var img := ImageOf(names, syms, code, relocs);
            var t := img.strTab;
            DwordValue([t[0] as int, t[1] as int, t[2] as int, t[3] as int]) == |t| &&
            img.header.textSize == |img.text| && img.header.symSize == NLIST_SIZE * |img.syms| &&
            img.header.trSize == RELOC_SIZE * |img.relocs| && t[4..] == Joined(names)
  {
    var n := 4 + |Joined(names)|;
    var t := ImageOf(names, syms, code, relocs).strTab;
    assert [t[0] as int, t[1] as int, t[2] as int, t[3] as int] == DwordBytes(n);
    DwordRoundTrip(n);
  }

  /** `aout_str_tab`, `aout_sym_tab`, `aout_text`, `aout_treloc_tab` and
      their counters, with `aout_size`. */
  class AoutBuilder {
    const strTab: array<char>
    var strSize: nat
    const symTab: array<Symbol>
    var symCount: nat
    const text: array<Byte>
    var textSize: nat
    const trelocTab: array<Reloc>
    var trelocCount: nat
    var size: nat
    /** The names entered so far, in order. */
    ghost var names: seq<string>
    /** What the filled parts of the symbol, text and relocation tables hold. */
    ghost var syms: seq<Symbol>
    ghost var code: seq<Byte>
    ghost var relocs: seq<Reloc>

    /** The filled part of each table holds its contents; the string table
        holds the names after its four size bytes, and each symbol's string
        offset is where its name starts. */
    ghost predicate Valid()
      reads this, strTab, symTab, text, trelocTab
    {
      strTab.Length == STR_TAB_SIZE && symTab.Length == SYM_TAB_SIZE &&
      text.Length == TEXT_SIZE && trelocTab.Length == TRELOC_TAB_SIZE &&
      strSize == 4 + |Joined(names)| <= STR_TAB_SIZE &&
      symCount == |syms| == |names| <= SYM_TAB_SIZE &&
      textSize == |code| <= TEXT_SIZE &&
      trelocCount == |relocs| <= TRELOC_TAB_SIZE &&
      (forall j :: 0 <= j < |names| ==> '\0' !in names[j]) &&
      (forall k :: 0 <= k < |syms| ==> syms[k].str == 4 + |Joined(names[..k])|) &&
      (forall i :: 4 <= i < strSize ==> strTab[i] == Joined(names)[i - 4]) &&
      (forall k :: 0 <= k < symCount ==> symTab[k] == syms[k]) &&
      (forall i :: 0 <= i < textSize ==> text[i] == code[i]) &&
      (forall k :: 0 <= k < trelocCount ==> trelocTab[k] == relocs[k])
    }

    ghost function Symbols(): seq<Symbol>
      reads this
    {
      syms
    }

    ghost function Text(): seq<Byte>
      reads this
    {
      code
    }

    ghost function Relocs(): seq<Reloc>
      reads this
    {
      relocs
    }

    /** The size every table gives the image so far. */
    function ComputedSize(): nat
      reads this
    {
      HEADER_SIZE + textSize + RELOC_SIZE * trelocCount + NLIST_SIZE * symCount + strSize
    }

    constructor ()
      ensures Valid() && fresh(strTab) && fresh(symTab) && fresh(text) && fresh(trelocTab)
      ensures names == [] && Symbols() == [] && Text() == [] && Relocs() == [] && strSize == 4
    {
      strTab := new char[STR_TAB_SIZE];
      symTab := new Symbol[SYM_TAB_SIZE];
      text := new Byte[TEXT_SIZE];
      trelocTab := new Reloc[TRELOC_TAB_SIZE];
      strSize, symCount, textSize, trelocCount, size := 4, 0, 0, 0, 0;
      names, syms, code, relocs := [], [], [], [];
    }

    /** emximp.c:619-625: empty tables; the string table starts after its
        four size bytes. */
    method Init()
      requires strTab.Length == STR_TAB_SIZE && symTab.Length == SYM_TAB_SIZE
      requires text.Length == TEXT_SIZE && trelocTab.Length == TRELOC_TAB_SIZE
      modifies this
      ensures Valid()
      ensures names == [] && Symbols() == [] && Text() == [] && Relocs() == [] && strSize == 4
    {
      strSize := 4;
      symCount := 0;
      textSize := 0;
      trelocCount := 0;
      names, syms, code, relocs := [], [], [], [];
    }

    /** emximp.c:627-645: a new symbol whose name goes at the end of the
        string table; its number is returned. */
    method Sym(name: string, stype: Byte, other: Byte, desc: nat, value: nat)
      returns (status: Status, index: nat)
      requires Valid() && '\0' !in name
      modifies this, strTab, symTab
      ensures Valid()
      ensures status == (if old(strSize) + |name| + 1 > STR_TAB_SIZE then Fatal(StringTableOverflow)
                         else if old(symCount) >= SYM_TAB_SIZE then Fatal(SymbolTableOverflow)
                         else Ok)
      ensures status == Ok ==>
                index == old(symCount) && names == old(names) + [name] &&
                Symbols() == old(Symbols()) + [Symbol(old(strSize), stype, other, desc, value)]
      ensures status != Ok ==> names == old(names) && Symbols() == old(Symbols())
      ensures Text() == old(Text()) && Relocs() == old(Relocs())
    {
      index := symCount;
      if strSize + |name| + 1 > STR_TAB_SIZE {
        return Fatal(StringTableOverflow), index;
      }
      if symCount >= SYM_TAB_SIZE {
        return Fatal(SymbolTableOverflow), index;
      }
      Append(name, Symbol(strSize, stype, other, desc, value));
      status := Ok;
    }

    /** The part of `aout_sym` past its overflow checks: the entry goes into
        the symbol table and the name after the strings. */
    method Append(name: string, sym: Symbol)
      requires Valid() && '\0' !in name && sym.str == strSize
      requires strSize + |name| + 1 <= STR_TAB_SIZE && symCount < SYM_TAB_SIZE
      modifies this, strTab, symTab
      ensures Valid() && names == old(names) + [name] && syms == old(syms) + [sym]
      ensures code == old(code) && relocs == old(relocs)
    {
      symTab[symCount] := sym;
      StrCpyAt(name);
      JoinedSnoc(names, name);
      ghost var joined := Joined(names);
      forall i | 4 <= i < strSize + |name| + 1
        ensures strTab[i] == (joined + name + "\0")[i - 4]
      {
        if i >= strSize && i < strSize + |name| {
          assert (joined + name + "\0")[i - 4] == name[i - strSize];
        }
      }
      names := names + [name];
      syms := syms + [sym];
      strSize := strSize + |name| + 1;
      symCount := symCount + 1;
    }

    /** `strcpy (aout_str_tab + aout_str_size, name)`. */
    method StrCpyAt(name: string)
      requires strTab.Length == STR_TAB_SIZE && 4 <= strSize
      requires strSize + |name| + 1 <= strTab.Length
      modifies strTab
      ensures forall i :: 0 <= i < strSize ==> strTab[i] == old(strTab[i])
      ensures forall j :: 0 <= j < |name| ==> strTab[strSize + j] == name[j]
      ensures strTab[strSize + |name|] == '\0'
    {
      var j := 0;
      while j < |name|
        invariant j <= |name|
        invariant forall i :: 0 <= i < strSize ==> strTab[i] == old(strTab[i])
        invariant forall i :: 0 <= i < j ==> strTab[strSize + i] == name[i]
      {
        strTab[strSize + j] := name[j];
        j := j + 1;
      }
      strTab[strSize + j] := '\0';
    }

    /** emximp.c:648-653: one more byte of text. */
    method TextByte(b: Byte) returns (status: Status)
      requires Valid()
      modifies this, text
      ensures Valid() && names == old(names) && Symbols() == old(Symbols()) && Relocs() == old(Relocs())
      ensures status == (if old(textSize) >= TEXT_SIZE then Fatal(TextOverflow) else Ok)
      ensures Text() == if status == Ok then old(Text()) + [b] else old(Text())
    {
      if textSize >= TEXT_SIZE {
        return Fatal(TextOverflow);
      }
      text[textSize] := b;
      textSize := textSize + 1;
      code := code + [b];
      status := Ok;
    }

    /** emximp.c:656-662: a 32-bit word of text, low byte first. A word
        that does not fit stops the program partway. */
    method TextDword(d: nat) returns (status: Status)
      requires Valid() && d < 0x1_0000_0000
      modifies this, text
      ensures Valid() && names == old(names) && Symbols() == old(Symbols()) && Relocs() == old(Relocs())
      ensures status == (if old(textSize) + 4 > TEXT_SIZE then Fatal(TextOverflow) else Ok)
      ensures status == Ok ==> Text() == old(Text()) + DwordBytes(d)
    {
      var bytes := DwordBytes(d);
      var k := 0;
      while k < 4
        invariant k <= 4 && Valid() && names == old(names)
        invariant Symbols() == old(Symbols()) && Relocs() == old(Relocs())
        invariant Text() == old(Text()) + bytes[..k]
      {
        status := TextByte(bytes[k]);
        if status != Ok {
          return;
        }
        assert bytes[..k + 1] == bytes[..k] + [bytes[k]];
        k := k + 1;
      }
      assert bytes[..4] == bytes;
      status := Ok;
    }

    /** emximp.c:665-677: one text relocation; the bit fields keep 24, 1, 2
        and 1 bits. */
    method TReloc(address: nat, symbolNum: nat, pcrel: nat, length: nat, ext: nat)
      returns (status: Status)
      requires Valid()
      modifies this, trelocTab
      ensures Valid() && names == old(names) && Symbols() == old(Symbols()) && Text() == old(Text())
      ensures status == (if old(trelocCount) >= TRELOC_TAB_SIZE then Fatal(RelocationOverflow) else Ok)
      ensures Relocs() == if status == Ok
                          then old(Relocs()) + [Reloc(address, symbolNum % 0x100_0000, pcrel % 2, length % 4, ext % 2)]
                          else old(Relocs())
    {
      if trelocCount >= TRELOC_TAB_SIZE {
        return Fatal(RelocationOverflow);
      }
      var r := Reloc(address, symbolNum % 0x100_0000, pcrel % 2, length % 4, ext % 2);
      trelocTab[trelocCount] := r;
      trelocCount := trelocCount + 1;
      relocs := relocs + [r];
      status := Ok;
    }

    /** emximp.c:680-688: pad the text with `nop` to a multiple of four
        (this never overflows) and compute the size of the image. */
    method Finish()
      requires Valid()
      modifies this, text
      ensures Valid() && names == old(names) && Symbols() == old(Symbols()) && Relocs() == old(Relocs())
      ensures Text() == old(Text()) + Nops((4 - |old(Text())| % 4) % 4)
      ensures textSize % 4 == 0 && size == ComputedSize()
    {
      PadText();
      size := ComputedSize();
    }

    /** The `nop` loop of `aout_finish`. */
    method PadText()
      requires Valid()
      modifies this, text
      ensures Valid() && names == old(names) && syms == old(syms) && relocs == old(relocs)
      ensures code == old(code) + Nops(PadTo4(old(textSize))) && textSize % 4 == 0
    {
      ghost var start := textSize;
      ghost var pad := PadTo4(start);
      while textSize % 4 != 0
        invariant Valid() && names == old(names) && syms == old(syms) && relocs == old(relocs)
        invariant start <= textSize <= start + pad
        invariant code == old(code) + Nops(textSize - start)
        decreases start + pad - textSize
      {
        var status := TextByte(NOP);
        NopsSnoc(textSize - 1 - start);
      }
    }

    /** emximp.c:691-711: the image, with the string table's size stored in
        its first four bytes. */
    method Write() returns (img: AoutImage)
      requires Valid() && textSize % 4 == 0
      modifies strTab
      ensures Valid()
      ensures img == ImageOf(names, syms, code, relocs)
      ensures ImageSize(img) == ComputedSize()
    {
      var b := DwordBytes(strSize);
      strTab[0] := b[0] as char;
      strTab[1] := b[1] as char;
      strTab[2] := b[2] as char;
      strTab[3] := b[3] as char;
      img := AoutImage(AoutHeader(MAGIC, 0, 0, textSize, 0, 0, NLIST_SIZE * symCount, 0,
                                  RELOC_SIZE * trelocCount, 0),
                       text[..textSize], trelocTab[..trelocCount], symTab[..symCount], strTab[..strSize]);
      assert img.text == code && img.relocs == relocs && img.syms == syms;
      assert strTab[..strSize] == SizeChars(strSize) + Joined(names);
    }

    /** The name of the k-th symbol, read back at its string offset. */
    lemma SymbolName(k: nat)
      requires Valid() && k < symCount
      ensures CStringAt(strTab[..strSize], symTab[k].str) == names[k]
    {
      assert strTab[..strSize] == strTab[..4] + Joined(names);
      StringTableLookup(strTab[..4], names, k);
    }
  }

  /** The padding that brings a text size to a multiple of four, never
      past the capacity of the text segment. */
  function PadTo4(t: nat): (pad: nat)
    requires t <= TEXT_SIZE
    ensures pad < 4 && (t + pad) % 4 == 0 && t + pad <= TEXT_SIZE
    ensures forall u :: t <= u < t + pad ==> u % 4 != 0
  {
    (4 - t % 4) % 4
  }

  /** n bytes of `nop`. */
  function Nops(n: nat): (r: seq<Byte>)
    ensures |r| == n && forall i :: 0 <= i < n ==> r[i] == NOP
  {
    seq(n, _ => NOP)
  }

  lemma NopsSnoc(n: nat)
    ensures Nops(n + 1) == Nops(n) + [NOP]
  {
  }
}
