/** `write_a_import` (emximp.c:714-761): one archive member per import, an
    a.out object holding the import symbols and, when profiling, a small
    thunk that calls `_mcount` before jumping to the real function. */
module AImport {
  import opened Common
  import opened Aout
  import opened Archive

  const PROFILE_PREFIX: string := "__$U_"
  const MEMBER_PREFIX: string := "IMPORT#"

  /** Whether the profiling thunk is built for this function. */
  predicate Profiled(profile: bool, func: string)
  {
    profile && !HasFar16Prefix(func)
  }

  /** The symbol the import defines: "_func", or "__$U_func" behind the thunk. */
  function ImportSymbol(profile: bool, func: string): string
  {
    if Profiled(profile, func) then PROFILE_PREFIX + func else "_" + func
  }

  /** What the import refers to: "S=module.ordinal" or "S=module.name". */
  function ImportTarget(sym: string, modName: string, ordinal: int, procName: Option<string>): string
  {
    sym + "=" + modName + "." + (if procName.None? then IntToDecimal(ordinal) else procName.value)
  }

  /** The names of the symbols, in the order they are entered. */
  function ImportNames(profile: bool, func: string, modName: string, ordinal: int,
                       procName: Option<string>): seq<string>
  {
    var s := ImportSymbol(profile, func);
    ThunkNames(profile, func) + [s, ImportTarget(s, modName, ordinal, procName)]
  }

  /** The symbols of the profiling thunk, if there is one: its entry point,
      `__mcount` and the import symbol it jumps to. */
  function ThunkNames(profile: bool, func: string): seq<string>
  {
    if Profiled(profile, func) then ["_" + func, "__mcount", PROFILE_PREFIX + func] else []
  }

  /** The types of the thunk's symbols. */
  function ThunkTypes(profiled: bool): seq<Byte>
  {
    if profiled then [N_TEXT + N_EXT, N_EXT, N_EXT] else []
  }

  /** The types of all symbols of an import. */
  function ImportTypes(profiled: bool): seq<Byte>
  {
    ThunkTypes(profiled) + [N_IMP1 + N_EXT, N_IMP2 + N_EXT]
  }

  /** The thunk: push ebp; mov ebp, esp; call _mcount; pop ebp; jmp S;
      then two `nop`s of padding. The call and jump displacements are
      -8 and -14, those of a target at address 0, which the relocations
      then move. */
  function ProfileText(): seq<Byte>
  {
    [0x55, 0x89, 0xe5, 0xe8, 0xf8, 0xff, 0xff, 0xff, 0x5d, 0xe9, 0xf2, 0xff, 0xff, 0xff, NOP, NOP]
  }

  /** The two pc-relative 4-byte relocations of the thunk, against symbols 1
      (`__mcount`) and 2 (the imported function). */
  function ProfileRelocs(): seq<Reloc>
  {
    [Reloc(4, 1, 1, 2, 1), Reloc(10, 2, 1, 2, 1)]
  }

  /** The symbol table entries of a member: each name's offset in the
      string table, its type, and zero `other`, `desc` and `value`. */
  function ExpectedSymbols(names: seq<string>, types: seq<Byte>): (r: seq<Symbol>)
    requires |names| == |types|
    ensures |r| == |names|
  {
    seq(|names|, k requires 0 <= k < |names| => Symbol(4 + |Joined(names[..k])|, types[k], 0, 0, 0))
  }

  lemma ExpectedSymbolsSnoc(names: seq<string>, types: seq<Byte>, name: string, t: Byte)
    requires |names| == |types|
    ensures ExpectedSymbols(names + [name], types + [t]) ==
            ExpectedSymbols(names, types) + [Symbol(4 + |Joined(names)|, t, 0, 0, 0)]
  {
    assert (names + [name])[..|names|] == names;
    forall k | 0 <= k < |names|
      ensures (names + [name])[..k] == names[..k]
    {
    }
  }

  /** `aout_text_dword (0 - (aout_text_size + 4))` at offsets 4 and 10. */
  lemma NegativeDisplacements()
    ensures ProfileText()[..8] == [0x55, 0x89, 0xe5, 0xe8] + DwordBytes(Wrap32(0 - (4 + 4)))
    ensures ProfileText()[..14] == ProfileText()[..8] + [0x5d, 0xe9] + DwordBytes(Wrap32(0 - (10 + 4)))
  {
    assert Wrap32(0 - 8) == 0xffff_fff8;
    assert Wrap32(0 - 14) == 0xffff_fff2;
    assert DwordBytes(Wrap32(0 - 8)) == [0xf8, 0xff, 0xff, 0xff];
    assert DwordBytes(Wrap32(0 - 14)) == [0xf2, 0xff, 0xff, 0xff];
  }

  /** `aout_finish` pads the 14-byte thunk with two `nop`s, and an empty
      text with none. */
  lemma PaddedThunk(profiled: bool, thunk: seq<Byte>)
    requires thunk == if profiled then ProfileText()[..14] else []
    ensures thunk + Nops((4 - |thunk| % 4) % 4) == if profiled then ProfileText() else []
  {
    assert Nops(2) == [NOP, NOP];
    assert Nops(0) == [];
  }

  /** A name that fits the 256-byte arrays in which `read_imp` and
      `read_lib` hold it: no NUL, at most 255 characters. With profiling,
      the symbol "__$U_" + name needs 5 more bytes than `tmp2[257]` leaves
      for names of 252 to 255 characters; the model gives such names the
      symbol in full. */
  predicate FitsBuffer(s: string)
  {
    '\0' !in s && |s| <= 255
  }

  // ---- Properties of the specification ----

  /** Every member defines the import symbol and the import reference, as
      its last two symbols. */
  lemma TwoImportSymbols(profile: bool, func: string, modName: string, ordinal: int,
                         procName: Option<string>)
    ensures var names, s := ImportNames(profile, func, modName, ordinal, procName), ImportSymbol(profile, func);
            var types := ImportTypes(Profiled(profile, func));
            |names| == |types| >= 2 &&
            names[|names| - 2] == s && types[|types| - 2] == N_IMP1 + N_EXT &&
            names[|names| - 1] == s + "=" + modName + "." +
              (if procName.None? then IntToDecimal(ordinal) else procName.value) &&
            types[|types| - 1] == N_IMP2 + N_EXT
  {
  }

  /** Profiling adds exactly three symbols, 16 bytes of text and two relocations. */
  lemma ProfileShape(profile: bool, func: string, modName: string, ordinal: int, procName: Option<string>)
    ensures |ImportNames(profile, func, modName, ordinal, procName)| == if Profiled(profile, func) then 5 else 2
    ensures |ProfileText()| == 16 && |ProfileText()| % 4 == 0
    ensures ProfileText()[3] == 0xe8 && ProfileText()[9] == 0xe9
    ensures forall r :: r in ProfileRelocs() ==> r.pcrel == 1 && r.length == 2 && r.ext == 1
  {
  }

  /** Each displacement of the thunk, added to the address that follows it,
      gives 0 modulo 2^32: the call and the jump reach the relocated symbol. */
  lemma ThunkDisplacements()
    ensures var t := ProfileText();
            (DwordValue(t[4..8]) + 8) % 0x1_0000_0000 == 0 &&
            (DwordValue(t[10..14]) + 14) % 0x1_0000_0000 == 0
    ensures ProfileRelocs()[0].address == 4 && ProfileRelocs()[1].address == 10
  {
    var t := ProfileText();
    assert t[4..8] == [0xf8, 0xff, 0xff, 0xff];
    assert t[10..14] == [0xf2, 0xff, 0xff, 0xff];
  }

  lemma JoinedCons(x: string, rest: seq<string>)
    ensures |Joined([x] + rest)| == |x| + 1 + |Joined(rest)|
  {
    JoinedAppend([x], rest);
    assert [x][..0] == [];
  }

  /** Names that fit the readers' 256-byte arrays never overflow the 2048-byte
      string table, so `aout_sym` never reports its overflow for them. */
  lemma StringTableFits(profile: bool, func: string, modName: string, ordinal: int, procName: Option<string>)
    requires FitsBuffer(func) && FitsBuffer(modName) && (procName.None? ==> 0 <= ordinal < 65536)
    requires procName.Some? ==> FitsBuffer(procName.value)
    ensures 4 + |Joined(ImportNames(profile, func, modName, ordinal, procName))| <= STR_TAB_SIZE
  {
    var s := ImportSymbol(profile, func);
    var t := ImportTarget(s, modName, ordinal, procName);
    assert |t| <= 260 + 1 + 255 + 1 + 255 by {
      if procName.None? { DecimalLength(ordinal); }
    }
    var l1 := [t];
    var l2 := [s] + l1;
    JoinedCons(t, []);
    JoinedCons(s, l1);
    if Profiled(profile, func) {
      var l3 := [s] + l2;
      var l4 := ["__mcount"] + l3;
      var l5 := ["_" + func] + l4;
      JoinedCons(s, l2);
      JoinedCons("__mcount", l3);
      JoinedCons("_" + func, l4);
      assert ImportNames(profile, func, modName, ordinal, procName) == l5;
    } else {
      assert ImportNames(profile, func, modName, ordinal, procName) == l2;
    }
  }

  function Pow10(k: nat): nat
  {
    if k == 0 then 1 else 10 * Pow10(k - 1)
  }

  /** A number below 10^k prints in at most k digits. */
  lemma {:induction false} DigitCount(n: nat, k: nat)
    requires 1 <= k && n < Pow10(k)
    ensures |NatToDecimal(n)| <= k
  {
    if n >= 10 {
      DigitCount(n / 10, k - 1);
    }
  }

  /** An ordinal below 65536 prints in at most five digits. */
  lemma DecimalLength(n: nat)
    requires n < 65536
    ensures |IntToDecimal(n)| <= 5
  {
    DigitCount(n, 5);
  }

  /** The process state `write_a_import` uses: the a.out builder, the
      archive being written, the member counter `seq_no` and `-p`. */
  class ImportWriter {
    const aout: AoutBuilder
    const ar: ArchiveOut
    var seqNo: int
    const profile: bool

    ghost predicate Valid()
      reads this, aout
    {
      aout.strTab.Length == STR_TAB_SIZE && aout.symTab.Length == SYM_TAB_SIZE &&
      aout.text.Length == TEXT_SIZE && aout.trelocTab.Length == TRELOC_TAB_SIZE &&
      seqNo >= 1
    }

    constructor (profile: bool)
      ensures Valid() && this.profile == profile && seqNo == 1 && ar.out == [Chars(ARMAG)]
      ensures fresh(aout) && fresh(aout.strTab) && fresh(aout.symTab) && fresh(aout.text)
      ensures fresh(aout.trelocTab) && fresh(ar)
    {
      aout := new AoutBuilder();
      ar := new ArchiveOut();
      seqNo := 1;
      this.profile := profile;
    }

    /** emximp.c:714-761, with `time (NULL)` as `now` and the stack
        contents under the member header as `stack`. */
    method WriteAImport(func: string, modName: string, ordinal: int, procName: Option<string>,
                        now: int, stack: string)
      requires Valid() && |stack| == AR_HDR_SIZE
      requires FitsBuffer(func) && FitsBuffer(modName) && (procName.None? ==> 0 <= ordinal < 65536)
      requires procName.Some? ==> FitsBuffer(procName.value)
      modifies this, aout, aout.strTab, aout.symTab, aout.text, aout.trelocTab, ar
      ensures Valid() && seqNo == old(seqNo) + 1
      ensures aout.names == ImportNames(profile, func, modName, ordinal, procName)
      ensures aout.Symbols() == ExpectedSymbols(aout.names, ImportTypes(Profiled(profile, func)))
      ensures aout.Text() == if Profiled(profile, func) then ProfileText() else []
      ensures aout.Relocs() == if Profiled(profile, func) then ProfileRelocs() else []
      ensures ar.out == old(ar.out) + MemberPieces(MEMBER_PREFIX + IntToDecimal(old(seqNo)), now,
                                                   stack[MODE_AT + 6..MODE_AT + MODE_LEN],
                                                   ImageOf(aout.names, aout.syms, aout.code, aout.relocs))
    {
      BuildObject(aout, profile, func, modName, ordinal, procName);
      var tmp1 := MEMBER_PREFIX + IntToDecimal(seqNo);
      var img := WriteMember(aout, ar, tmp1, now, stack);
      seqNo := seqNo + 1;
    }
  }

  /** The pieces one member adds to the archive: its header, the image and
      the pad byte of an odd size. */
  function MemberPieces(name: string, now: int, stale: string, img: AoutImage): seq<Piece>
  {
    var size := ImageSize(img);
    [Header(name, now, size, stale), Image(img)] + (if size % 2 == 1 then [Chars("\0")] else [])
  }

  /** Every member takes an even number of bytes: the header, the image and
      its pad byte. */
  lemma MemberPiecesEven(name: string, now: int, stale: string, img: AoutImage)
    ensures OutSize(MemberPieces(name, now, stale, img)) == AR_HDR_SIZE + ImageSize(img) + ImageSize(img) % 2
    ensures OutSize(MemberPieces(name, now, stale, img)) % 2 == 0
  {
    var size := ImageSize(img);
    var hdr := Header(name, now, size, stale);
    assert [] + [hdr] == [hdr];
    OutSizeSnoc([], hdr);
    OutSizeSnoc([hdr], Image(img));
    assert [hdr] + [Image(img)] == [hdr, Image(img)];
    if size % 2 == 1 {
      OutSizeSnoc([hdr, Image(img)], Chars("\0"));
    } else {
      assert MemberPieces(name, now, stale, img) == [hdr, Image(img)];
    }
  }

  /** emximp.c:755-757: the member header, the image and the pad byte.
      `Write` only fills in the size word of the string table, so it is
      called first; the archive receives the pieces in the source's order. */
  method WriteMember(aout: AoutBuilder, ar: ArchiveOut, name: string, now: int, stack: string)
      returns (img: AoutImage)
    requires aout.Valid() && aout.textSize % 4 == 0 && aout.size == aout.ComputedSize()
    requires '\0' !in name && |stack| == AR_HDR_SIZE
    modifies aout.strTab, ar
    ensures img == ImageOf(aout.names, aout.syms, aout.code, aout.relocs)
    ensures ar.out == old(ar.out) + MemberPieces(name, now, stack[MODE_AT + 6..MODE_AT + MODE_LEN], img)
  {
    img := aout.Write();
    ghost var before := ar.out;
    ar.WriteAr(name, aout.size, now, stack);
    ar.WriteImage(img);
    ghost var written := ar.out;
    ar.FinishAr();
    assert written == before + [Header(name, now, ImageSize(img), stack[MODE_AT + 6..MODE_AT + MODE_LEN]), Image(img)];
  }

  /** emximp.c:721-754: the a.out object of one import, up to
      `aout_finish`. The tables never overflow for names that meet
      `FitsBuffer`. */
  method BuildObject(aout: AoutBuilder, profile: bool, func: string, modName: string, ordinal: int,
                     procName: Option<string>)
    requires aout.strTab.Length == STR_TAB_SIZE && aout.symTab.Length == SYM_TAB_SIZE
    requires aout.text.Length == TEXT_SIZE && aout.trelocTab.Length == TRELOC_TAB_SIZE
    requires FitsBuffer(func) && FitsBuffer(modName) && (procName.None? ==> 0 <= ordinal < 65536)
    requires procName.Some? ==> FitsBuffer(procName.value)
    modifies aout, aout.strTab, aout.symTab, aout.text, aout.trelocTab
    ensures aout.Valid() && aout.textSize % 4 == 0 && aout.size == aout.ComputedSize()
    ensures aout.names == ImportNames(profile, func, modName, ordinal, procName)
    ensures aout.Symbols() == ExpectedSymbols(aout.names, ImportTypes(Profiled(profile, func)))
    ensures aout.Text() == if Profiled(profile, func) then ProfileText() else []
    ensures aout.Relocs() == if Profiled(profile, func) then ProfileRelocs() else []
  {
    var tmp2 := StartObject(aout, profile, func);
    var tmp3 := ImportTarget(tmp2, modName, ordinal, procName);
    assert '\0' !in tmp3 by {
      if procName.None? { assert AllDigits(IntToDecimal(ordinal)); }
    }
    StringTableFits(profile, func, modName, ordinal, procName);
    var symImport, symRef := EnterPair(aout, tmp2, N_IMP1 + N_EXT, tmp3, N_IMP2 + N_EXT,
                                       ThunkTypes(Profiled(profile, func)));
    FinishObject(aout, Profiled(profile, func));
  }

  /** emximp.c:754: `aout_finish` pads the thunk, if any, to 16 bytes. */
  method FinishObject(aout: AoutBuilder, ghost profiled: bool)
    requires aout.Valid() && aout.Text() == if profiled then ProfileText()[..14] else []
    modifies aout, aout.text
    ensures aout.Valid() && aout.textSize % 4 == 0 && aout.size == aout.ComputedSize()
    ensures aout.names == old(aout.names) && aout.Symbols() == old(aout.Symbols())
    ensures aout.Relocs() == old(aout.Relocs())
    ensures aout.Text() == if profiled then ProfileText() else []
  {
    ghost var thunk := aout.Text();
    PaddedThunk(profiled, thunk);
    aout.Finish();
  }

  /** emximp.c:721-746: an empty object, then for a profiled import the
      thunk's symbols, code and relocations; the name of the import symbol
      is returned. */
  method StartObject(aout: AoutBuilder, profile: bool, func: string) returns (tmp2: string)
    requires aout.strTab.Length == STR_TAB_SIZE && aout.symTab.Length == SYM_TAB_SIZE
    requires aout.text.Length == TEXT_SIZE && aout.trelocTab.Length == TRELOC_TAB_SIZE
    requires FitsBuffer(func)
    modifies aout, aout.strTab, aout.symTab, aout.text, aout.trelocTab
    ensures aout.Valid() && tmp2 == ImportSymbol(profile, func) && '\0' !in tmp2
    ensures aout.names == ThunkNames(profile, func)
    ensures aout.Symbols() == ExpectedSymbols(aout.names, ThunkTypes(Profiled(profile, func)))
    ensures aout.Text() == (if Profiled(profile, func) then ProfileText()[..14] else [])
    ensures aout.Relocs() == (if Profiled(profile, func) then ProfileRelocs() else [])
  {
    aout.Init();
    tmp2 := "_" + func;
    if profile && !HasFar16Prefix(func) {
      var symMcount, symImport := ProfileSymbols(aout, func);
      tmp2 := PROFILE_PREFIX + func;
      ProfileThunk(aout, symMcount, symImport);
    }
  }

  /** Two consecutive `aout_sym (name, t, 0, 0, 0)` calls that fit; the
      indexes of the two new symbols are returned. */
  method EnterPair(aout: AoutBuilder, name1: string, t1: Byte, name2: string, t2: Byte, ghost types: seq<Byte>)
      returns (index1: nat, index2: nat)
    requires aout.Valid() && '\0' !in name1 && '\0' !in name2 && |types| == |aout.names|
    requires aout.Symbols() == ExpectedSymbols(aout.names, types)
    requires 4 + |Joined(aout.names + [name1, name2])| <= STR_TAB_SIZE && aout.symCount + 2 <= SYM_TAB_SIZE
    modifies aout, aout.strTab, aout.symTab
    ensures aout.Valid() && aout.names == old(aout.names) + [name1, name2]
    ensures aout.Symbols() == ExpectedSymbols(aout.names, types + [t1, t2])
    ensures aout.Text() == old(aout.Text()) && aout.Relocs() == old(aout.Relocs())
    ensures index1 == old(aout.symCount) && index2 == index1 + 1
  {
    JoinedAppend(aout.names, [name1, name2]);
    JoinedCons(name1, [name2]);
    JoinedCons(name2, []);
    index1 := Enter(aout, name1, t1, types);
    index2 := Enter(aout, name2, t2, types + [t1]);
    assert old(aout.names) + [name1] + [name2] == old(aout.names) + [name1, name2];
    assert types + [t1] + [t2] == types + [t1, t2];
  }

  /** `aout_sym (name, t, 0, 0, 0)` when it fits: the symbol table keeps
      the shape `ExpectedSymbols` gives it. */
  method Enter(aout: AoutBuilder, name: string, t: Byte, ghost types: seq<Byte>) returns (index: nat)
    requires aout.Valid() && '\0' !in name && |types| == |aout.names|
    requires aout.Symbols() == ExpectedSymbols(aout.names, types)
    requires 4 + |Joined(aout.names)| + |name| + 1 <= STR_TAB_SIZE && aout.symCount < SYM_TAB_SIZE
    modifies aout, aout.strTab, aout.symTab
    ensures aout.Valid() && aout.names == old(aout.names) + [name] && index == old(aout.symCount)
    ensures aout.Symbols() == ExpectedSymbols(aout.names, types + [t])
    ensures aout.Text() == old(aout.Text()) && aout.Relocs() == old(aout.Relocs())
  {
    var status;
    status, index := aout.Sym(name, t, 0, 0, 0);
    ExpectedSymbolsSnoc(old(aout.names), types, name, t);
  }

  /** emximp.c:725-731: the thunk's own symbol at text offset 0,
      `__mcount`, and the non-profiled function it jumps to. */
  method ProfileSymbols(aout: AoutBuilder, func: string) returns (symMcount: nat, symImport: nat)
    requires aout.Valid() && FitsBuffer(func)
    requires aout.names == [] && aout.Text() == [] && aout.Relocs() == []
    modifies aout, aout.strTab, aout.symTab
    ensures aout.Valid() && aout.names == ["_" + func, "__mcount", PROFILE_PREFIX + func]
    ensures aout.Symbols() == ExpectedSymbols(aout.names, [N_TEXT + N_EXT, N_EXT, N_EXT])
    ensures aout.Text() == [] && aout.Relocs() == [] && symMcount == 1 && symImport == 2
  {
    var symEntry := Enter(aout, "_" + func, N_TEXT + N_EXT, []);
    JoinedCons("_" + func, []);
    JoinedAppend(["_" + func], ["__mcount", PROFILE_PREFIX + func]);
    JoinedCons("__mcount", [PROFILE_PREFIX + func]);
    JoinedCons(PROFILE_PREFIX + func, []);
    symMcount, symImport := EnterPair(aout, "__mcount", N_EXT, PROFILE_PREFIX + func, N_EXT, [N_TEXT + N_EXT]);
  }

  /** emximp.c:733-745: the thunk's code and its two relocations, written
      into an empty text segment. */
  method ProfileThunk(aout: AoutBuilder, symMcount: nat, symImport: nat)
    requires aout.Valid() && aout.Text() == [] && aout.Relocs() == []
    requires symMcount == 1 && symImport == 2
    modifies aout, aout.text, aout.trelocTab
    ensures aout.Valid() && aout.names == old(aout.names) && aout.Symbols() == old(aout.Symbols())
    ensures aout.Text() == ProfileText()[..14] && aout.Relocs() == ProfileRelocs()
  {
    var fixupMcount := ThunkCall(aout);
    var fixupImport := ThunkJump(aout);
    ThunkRelocs(aout, fixupMcount, symMcount, fixupImport, symImport);
  }

  /** emximp.c:744-745: the call is relocated against `__mcount`, the jump
      against the import symbol, both PC-relative 32-bit external. */
  method ThunkRelocs(aout: AoutBuilder, fixupMcount: nat, symMcount: nat, fixupImport: nat, symImport: nat)
    requires aout.Valid() && aout.Relocs() == []
    requires fixupMcount == 4 && symMcount == 1 && fixupImport == 10 && symImport == 2
    modifies aout, aout.trelocTab
    ensures aout.Valid() && aout.names == old(aout.names) && aout.Symbols() == old(aout.Symbols())
    ensures aout.Text() == old(aout.Text()) && aout.Relocs() == ProfileRelocs()
  {
    var status := aout.TReloc(fixupMcount, symMcount, 1, 2, 1);
    status := aout.TReloc(fixupImport, symImport, 1, 2, 1);
  }

  /** push ebp; mov ebp, esp; call _mcount: the displacement's offset is
      returned. */
  method ThunkCall(aout: AoutBuilder) returns (fixup: nat)
    requires aout.Valid() && aout.Text() == []
    modifies aout, aout.text
    ensures aout.Valid() && aout.names == old(aout.names) && aout.Symbols() == old(aout.Symbols())
    ensures aout.Relocs() == old(aout.Relocs())
    ensures aout.Text() == ProfileText()[..8] && fixup == 4
  {
    TextPair(aout, 0x55, 0x89);
    TextPair(aout, 0xe5, 0xe8);
    assert aout.Text() == [0x55, 0x89, 0xe5, 0xe8];
    fixup := aout.textSize;
    NegativeDisplacements();
    var status := aout.TextDword(Wrap32(0 - (aout.textSize + 4)));
  }

  /** pop ebp; jmp S, after the call: the displacement's offset is returned. */
  method ThunkJump(aout: AoutBuilder) returns (fixup: nat)
    requires aout.Valid() && aout.Text() == ProfileText()[..8]
    modifies aout, aout.text
    ensures aout.Valid() && aout.names == old(aout.names) && aout.Symbols() == old(aout.Symbols())
    ensures aout.Relocs() == old(aout.Relocs())
    ensures aout.Text() == ProfileText()[..14] && fixup == 10
  {
    TextPair(aout, 0x5d, 0xe9);
    fixup := aout.textSize;
    NegativeDisplacements();
    var status := aout.TextDword(Wrap32(0 - (aout.textSize + 4)));
  }

  /** Two `aout_text_byte` calls that fit. */
  method TextPair(aout: AoutBuilder, b1: Byte, b2: Byte)
    requires aout.Valid() && |aout.Text()| + 2 <= TEXT_SIZE
    modifies aout, aout.text
    ensures aout.Valid() && aout.names == old(aout.names) && aout.Symbols() == old(aout.Symbols())
    ensures aout.Relocs() == old(aout.Relocs())
    ensures aout.Text() == old(aout.Text()) + [b1, b2]
  {
    var status := aout.TextByte(b1);
    status := aout.TextByte(b2);
  }
}
