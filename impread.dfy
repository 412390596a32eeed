/** What `read_imp` does with the lines of an `.imp` file (emximp.c:337-559):
    each accepted descriptor becomes, by the conversion, an export line of
    a `.def` file, a call of `write_a_import` or `write_lib_import`, or an
    assembler thunk in the current output file; a `+` line starts a new
    output file, and so does every descriptor under `-b`. */
module ImpRead {
  import opened Common
  import opened Modes
  import opened Omf
  import opened ImpParse
  import opened Thunks
  import opened AImport

  /** The settings `read_imp` reads: the conversion, `-b`, `-s`, the `-p`
      names (the last given at the end), and the file name stem of `-b`:
      a fixed text, or the first `baseLen` characters of the module name. */
  datatype ReaderConfig = ReaderConfig(mode: Mode, optB: bool, optS: bool, predefs: seq<string>,
                                       outBase: Option<string>, baseLen: nat)

  /** The conversions that read `.imp` files. */
  predicate FromImp(mode: Mode)
  {
    mode == ImpToS || mode == ImpToDef || mode == ImpToA || mode == ImpToLib
  }

  /** An assembler file that was finished. */
  datatype AsmFile = AsmFile(name: string, asm: seq<Asm>)

  /** The state `read_imp` works on: whether an output file is open, its
      name and contents, the files finished before it, the label table
      (`libs`, `mod_lbl`), the module of the `.def` output (`first_module`)
      and its lines, the writer calls made, `seq_no` and the warning count. */
  datatype ReaderState = ReaderState(outOpen: bool, outName: string, asm: seq<Asm>, files: seq<AsmFile>,
                                     libs: seq<ModLabel>, modLbl: int, firstModule: Option<string>,
                                     defText: seq<string>, calls: seq<WriterCall>, seqNo: int,
                                     warnings: nat)

  datatype ReadError = BadLine(error: ParseError) | NotSameModule

  /** The end of a run: the state after the last line, or the number of the
      line that stopped it and why. */
  datatype Run = Read(st: ReaderState) | Stopped(lineNo: nat, error: ReadError)

  // ---- IMP_TO_DEF (emximp.c:465-481) ----

  /** The line of an export: with its ordinal, alone when its name is the
      function's, or as `name = function`. */
  function ExportLine(e: ImpEntry): string
  {
    if e.ord >= 0 then "  " + PadRight(e.func, 32) + " @" + IntToDecimal(e.ord)
    else if e.func == e.name then "  " + PadRight(e.func, 32)
    else "  " + PadRight(e.name, 32) + " = " + e.func
  }

  datatype DefStep = DefLines(first: string, lines: seq<string>) | OtherModule

  /** The first export names the module in a `LIBRARY` statement and opens
      the `EXPORTS`; every later one must be in the same module, compared
      with case. */
  function DefEntry(firstModule: Option<string>, e: ImpEntry): DefStep
  {
    if firstModule.None? then DefLines(e.modName, ["LIBRARY " + e.modName, "EXPORTS", ExportLine(e)])
    else if firstModule.value != e.modName then OtherModule
    else DefLines(firstModule.value, [ExportLine(e)])
  }

  // ---- IMP_TO_A and IMP_TO_LIB (emximp.c:482-490) ----

  /** The call of `write_a_import`: the export name only for an import
      without an ordinal. */
  function AImportOf(e: ImpEntry): WriterCall
  {
    AImportCall(e.func, e.modName, e.ord, if e.ord < 1 then Some(e.name) else None)
  }

  function LibImportOf(e: ImpEntry): WriterCall
  {
    LibImportCall(e.func, e.modName, e.ord, e.name)
  }

  // ---- Output files of IMP_TO_S ----

  /** `out_flush`: the open file, if any, is finished. */
  function Flushed(st: ReaderState): ReaderState
  {
    if st.outOpen then st.(outOpen := false, files := st.files + [AsmFile(st.outName, st.asm)], asm := [])
    else st
  }

  /** `out_start` on a new name: the header is written and the label
      table emptied. */
  function Started(st: ReaderState, name: string): ReaderState
  {
    st.(outOpen := true, outName := name, asm := FileHeader(name), libs := [], modLbl := 1)
  }

  /** The name of the file of one import under `-b` (emximp.c:499-503):
      the stem, the file number and ".s". */
  function BatchName(cfg: ReaderConfig, fileNo: int, modName: string): string
  {
    var stem := if cfg.outBase.Some? then cfg.outBase.value
                else modName[..if cfg.baseLen < |modName| then cfg.baseLen else |modName|];
    stem + IntToDecimal(fileNo) + ".s"
  }

  /** The stem `-b` sets (emximp.c:1063-1073): an argument that is a number
      above 1 and nothing else takes that many characters of the module
      name; any other argument is the stem itself. */
  function BatchOption(cfg: ReaderConfig, arg: string): ReaderConfig
  {
    var (v, end) := Strtol(arg, 0);
    if v > 1 && end == |arg| then cfg.(optB := true, outBase := None, baseLen := v)
    else cfg.(optB := true, outBase := Some(arg), baseLen := 0)
  }

  /** `-b` with a number above 1 cuts the module name to that many
      characters; any argument that is not such a number is a fixed stem. */
  lemma BatchOptionNumber(cfg: ReaderConfig, n: nat, modName: string, fileNo: int)
    requires 1 < n <= LONG_MAX
    ensures var c := BatchOption(cfg, NatToDecimal(n));
            c.optB && c.outBase.None? && c.baseLen == n &&
            BatchName(c, fileNo, modName)
              == modName[..if n < |modName| then n else |modName|] + IntToDecimal(fileNo) + ".s"
  {
    StrtolDecimal("", n, "");
    assert "" + NatToDecimal(n) + "" == NatToDecimal(n);
  }

  lemma BatchOptionStem(cfg: ReaderConfig, arg: string, modName: string, fileNo: int)
    requires Strtol(arg, 0).0 <= 1 || Strtol(arg, 0).1 != |arg|
    ensures var c := BatchOption(cfg, arg);
            c.optB && BatchName(c, fileNo, modName) == arg + IntToDecimal(fileNo) + ".s"
  {
  }

  /** Under `-b`, each import gets a file of its own (emximp.c:492-505),
      numbered by `seq_no` under `-s` and by its ordinal otherwise. */
  function BatchStart(cfg: ReaderConfig, st: ReaderState, e: ImpEntry): ReaderState
  {
    if !cfg.optB then st
    else if cfg.optS then Started(Flushed(st.(seqNo := st.seqNo + 1)), BatchName(cfg, st.seqNo, e.modName))
    else Started(Flushed(st), BatchName(cfg, e.ord, e.modName))
  }

  /** The module reference of an import (emximp.c:506-531) and the table
      after it. */
  function RefOf(cfg: ReaderConfig, libs: seq<ModLabel>, modLbl: int, modName: string): ModRef
  {
    match PredefFor(cfg.predefs, modName)
    case Some(p) => Predef(p)
    case None =>
      match FindLib(libs, modName)
      case None => Labelled(modLbl, true)
      case Some(i) => Labelled(libs[i].lbl, false)
  }

  /** The thunk of one import, written to the current file (emximp.c:492-547). */
  function ThunkStep(cfg: ReaderConfig, st: ReaderState, e: ImpEntry): ReaderState
  {
    var st1 := BatchStart(cfg, st, e);
    Emit(st1, e, RefOf(cfg, st1.libs, st1.modLbl, e.modName))
  }

  /** The thunk written with module reference `r`; a new label enters the table. */
  function Emit(st: ReaderState, e: ImpEntry, r: ModRef): ReaderState
  {
    var st' := if r.Labelled? && r.isNew
               then st.(libs := [ModLabel(e.modName, st.modLbl)] + st.libs, modLbl := st.modLbl + 1)
               else st;
    st'.(asm := st'.asm + Thunk(e, r))
  }

  // ---- One line, one file ----

  /** What an accepted descriptor does, by the conversion (emximp.c:463-551). */
  function EntryStep(cfg: ReaderConfig, st: ReaderState, e: ImpEntry): Option<ReaderState>
    requires FromImp(cfg.mode)
  {
    match cfg.mode
    case ImpToDef =>
      (match DefEntry(st.firstModule, e)
       case OtherModule => None
       case DefLines(first, lines) => Some(st.(firstModule := Some(first), defText := st.defText + lines)))
    case ImpToA => Some(st.(calls := st.calls + [AImportOf(e)]))
    case ImpToLib => Some(st.(calls := st.calls + [LibImportOf(e)]))
    case ImpToS => Some(ThunkStep(cfg, st, e))
  }

  datatype LineOutcome = Next(st: ReaderState) | Bad(error: ReadError)

  /** What the parse of a line knows of the reader. `main` creates the
      output file before calling `read_imp` in the `.def` and `.a`
      conversions (emximp.c:1202, emximp.c:1220), so there the output is
      open from the start; in assembler mode it is the file the last `+`
      line started. */
  function LineContext(cfg: ReaderConfig, st: ReaderState): Context
  {
    Context(cfg.mode, cfg.optB, cfg.optS, st.outOpen || cfg.mode == ImpToDef || cfg.mode == ImpToA)
  }

  /** One line of the loop of emximp.c:352-552. */
  function LineStep(cfg: ReaderConfig, st: ReaderState, line: string): LineOutcome
    requires FromImp(cfg.mode)
  {
    Apply(cfg, st, LineSpec(line, LineContext(cfg, st)))
  }

  /** What the reading of one line does: a warning counts before the
      descriptor is used. */
  function Apply(cfg: ReaderConfig, st: ReaderState, res: LineResult): LineOutcome
    requires FromImp(cfg.mode)
  {
    match res
    case Skip => Next(st)
    case NewOutput(fname) => Next(Started(Flushed(st), fname))
    case Entry(e, w) =>
      (match EntryStep(cfg, Warned(st, w), e)
       case None => Bad(NotSameModule)
       case Some(st') => Next(st'))
    case Failed(err) => Bad(BadLine(err))
  }

  function Warned(st: ReaderState, w: Option<LineWarning>): ReaderState
  {
    if w.Some? then st.(warnings := st.warnings + 1) else st
  }

  /** The lines from number `lineNo` on. */
  function ReadLines(cfg: ReaderConfig, st: ReaderState, lines: seq<string>, lineNo: nat): Run
    requires FromImp(cfg.mode)
    decreases |lines|
  {
    if lines == [] then Read(st)
    else
      match LineStep(cfg, st, lines[0])
      case Bad(err) => Stopped(lineNo, err)
      case Next(st') => ReadLines(cfg, st', lines[1..], lineNo + 1)
  }

  /** One input file (emximp.c:337-559): the label table starts empty, and
      the last assembler file is finished at the end. */
  function ReadImpSpec(cfg: ReaderConfig, st: ReaderState, lines: seq<string>): Run
    requires FromImp(cfg.mode)
  {
    match ReadLines(cfg, st.(libs := [], modLbl := 1), lines, 1)
    case Read(st') => Read(if cfg.mode == ImpToS then Flushed(st') else st')
    case Stopped(n, err) => Stopped(n, err)
  }

  /** The input files in order, as `main` reads them (emximp.c:1197-1225):
      the state carries over from one file to the next. A stopped run
      reports the line number and the reason; the file name appears only in
      the text of the message, which is not modelled. */
  function ReadImpFiles(cfg: ReaderConfig, st: ReaderState, inputs: seq<seq<string>>): Run
    requires FromImp(cfg.mode)
    decreases |inputs|
  {
    if inputs == [] then Read(st)
    else
      match ReadImpSpec(cfg, st, inputs[0])
      case Stopped(n, err) => Stopped(n, err)
      case Read(st') => ReadImpFiles(cfg, st', inputs[1..])
  }

  /** The state before the first input file (emximp.c:78-93). */
  function Initial(): ReaderState
  {
    ReaderState(false, "", [], [], [], 1, None, [], [], 1, 0)
  }

  // ---- IMP_TO_S: each module is named once per file ----

  /** The statements of a file that name a module, in order. */
  function Declared(asm: seq<Asm>): seq<Asm>
  {
    if asm == [] then []
    else (if asm[0].AscizModule? then [asm[0]] else []) + Declared(asm[1..])
  }

  /** The modules of a label table in the order of their first use. */
  function FirstUses(libs: seq<ModLabel>): seq<string>
  {
    seq(|libs|, k requires 0 <= k < |libs| => libs[|libs| - 1 - k].name)
  }

  /** The module statements a file holds after using `names` in that order. */
  function Decls(names: seq<string>): seq<Asm>
  {
    seq(|names|, k requires 0 <= k < |names| => AscizModule("L" + IntToDecimal(k + 1), names[k]))
  }

  /** A finished assembler file names each module at most once, ignoring
      case, under the labels L1, L2, ... in the order of first use. */
  ghost predicate FileOk(asm: seq<Asm>)
  {
    var d := Declared(asm);
    (forall k :: 0 <= k < |d| ==> d[k].AscizModule? && d[k].ref == "L" + IntToDecimal(k + 1)) &&
    (forall i, j :: 0 <= i < j < |d| ==> !EqualsIgnoreCase(d[i].modName, d[j].modName))
  }

  /** What holds between the lines of `read_imp` in assembler mode: the
      label table is the one of its modules' first uses, the open file
      declares exactly those modules, and every finished file is `FileOk`. */
  ghost predicate AsmInv(st: ReaderState)
  {
    TableOf(st.libs, FirstUses(st.libs), st.modLbl) &&
    (st.outOpen ==> Declared(st.asm) == Decls(FirstUses(st.libs))) &&
    (!st.outOpen ==> st.asm == []) &&
    (forall k :: 0 <= k < |st.files| ==> FileOk(st.files[k].asm))
  }

  lemma {:induction false} DeclaredAppend(a: seq<Asm>, b: seq<Asm>)
    ensures Declared(a + b) == Declared(a) + Declared(b)
    decreases |a|
  {
    if a == [] {
      assert a + b == b;
    } else {
      var h := if a[0].AscizModule? then [a[0]] else [];
      assert (a + b)[0] == a[0] && (a + b)[1..] == a[1..] + b;
      assert Declared(a + b) == h + Declared(a[1..] + b);
      DeclaredAppend(a[1..], b);
      assert h + (Declared(a[1..]) + Declared(b)) == (h + Declared(a[1..])) + Declared(b);
    }
  }

  lemma {:induction false} DeclaredNone(s: seq<Asm>)
    requires forall k :: 0 <= k < |s| ==> !s[k].AscizModule?
    ensures Declared(s) == []
    decreases |s|
  {
    if s != [] {
      DeclaredNone(s[1..]);
    }
  }

  /** A thunk declares its module exactly when its label is new. */
  lemma DeclaredThunk(e: ImpEntry, r: ModRef)
    ensures Declared(Thunk(e, r)) == ModulePart(r, e.modName)
  {
    ThunkParts(e, r);
    var a := ThunkEntry(e.func) + ParmsPart(e.parms) + [JmpBad, Descriptor(e, r)];
    var m := ModulePart(r, e.modName);
    var b := NamePart(e.ord, e.name) + [Stabs];
    assert Thunk(e, r) == a + m + b;
    DeclaredAppend(a + m, b);
    DeclaredAppend(a, m);
    DeclaredNone(a);
    DeclaredNone(b);
    if m != [] {
      assert m[1..] == [];
    }
  }

  lemma FirstUsesCons(m: string, lbl: int, libs: seq<ModLabel>)
    ensures FirstUses([ModLabel(m, lbl)] + libs) == FirstUses(libs) + [m]
  {
  }

  lemma DeclsSnoc(names: seq<string>, m: string)
    ensures Decls(names + [m]) == Decls(names) + [AscizModule("L" + IntToDecimal(|names| + 1), m)]
  {
  }

  /** A file declaring the modules of a valid table is `FileOk`. */
  lemma DeclsOk(asm: seq<Asm>, libs: seq<ModLabel>, modLbl: int)
    requires TableOf(libs, FirstUses(libs), modLbl) && Declared(asm) == Decls(FirstUses(libs))
    ensures FileOk(asm)
  {
  }

  /** Finishing the open file and starting another keeps `AsmInv`. */
  lemma RestartInv(st: ReaderState, name: string)
    requires AsmInv(st)
    ensures AsmInv(Started(Flushed(st), name))
  {
    var st' := Started(Flushed(st), name);
    DeclaredNone(FileHeader(name));
    if st.outOpen {
      DeclsOk(st.asm, st.libs, st.modLbl);
    }
    assert FirstUses(st'.libs) == [];
  }

  lemma BatchStartInv(cfg: ReaderConfig, st: ReaderState, e: ImpEntry)
    requires AsmInv(st)
    ensures AsmInv(BatchStart(cfg, st, e))
    ensures cfg.optB ==> BatchStart(cfg, st, e).outOpen
    ensures !cfg.optB ==> BatchStart(cfg, st, e) == st
  {
    if cfg.optB {
      if cfg.optS {
        RestartInv(st.(seqNo := st.seqNo + 1), BatchName(cfg, st.seqNo, e.modName));
      } else {
        RestartInv(st, BatchName(cfg, e.ord, e.modName));
      }
    }
  }

  /** A thunk written to an open file keeps `AsmInv`: a module met for the
      first time is declared under the next label. */
  lemma ThunkStepInv(cfg: ReaderConfig, st: ReaderState, e: ImpEntry)
    requires AsmInv(st) && (cfg.optB || st.outOpen)
    ensures AsmInv(ThunkStep(cfg, st, e))
  {
    var st1 := BatchStart(cfg, st, e);
    BatchStartInv(cfg, st, e);
    var r := RefOf(cfg, st1.libs, st1.modLbl, e.modName);
    if r.Labelled? && r.isNew {
      EmitNewInv(st1, e, r);
    } else {
      EmitOldInv(st1, e, r);
    }
  }

  lemma EmitNewInv(st: ReaderState, e: ImpEntry, r: ModRef)
    requires AsmInv(st) && st.outOpen
    requires r == Labelled(st.modLbl, true) && FindLib(st.libs, e.modName).None?
    ensures AsmInv(Emit(st, e, r))
  {
    var fu := FirstUses(st.libs);
    DeclaredAppend(st.asm, Thunk(e, r));
    DeclaredThunk(e, r);
    TableEnter(st.libs, fu, st.modLbl, e.modName);
    FirstUsesCons(e.modName, st.modLbl, st.libs);
    DeclsSnoc(fu, e.modName);
  }

  lemma EmitOldInv(st: ReaderState, e: ImpEntry, r: ModRef)
    requires AsmInv(st) && st.outOpen && !(r.Labelled? && r.isNew)
    ensures AsmInv(Emit(st, e, r))
  {
    DeclaredAppend(st.asm, Thunk(e, r));
    DeclaredThunk(e, r);
  }

  /** An accepted descriptor always has somewhere to go. */
  lemma EntryHasOutput(line: string, ctx: Context)
    requires LineSpec(line, ctx).Entry?
    ensures ctx.optB || ctx.outputOpen || ctx.mode == ImpToLib
  {
    AcceptedShape(line, ctx);
  }

  /** Every accepted or skipped line keeps `AsmInv` in assembler mode. */
  lemma LineStepInv(cfg: ReaderConfig, st: ReaderState, line: string)
    requires cfg.mode == ImpToS && AsmInv(st) && LineStep(cfg, st, line).Next?
    ensures AsmInv(LineStep(cfg, st, line).st)
  {
    var ctx := LineContext(cfg, st);
    var res := LineSpec(line, ctx);
    if res.Entry? {
      EntryHasOutput(line, ctx);
    }
    ApplyInv(cfg, st, res);
  }

  lemma ApplyInv(cfg: ReaderConfig, st: ReaderState, res: LineResult)
    requires cfg.mode == ImpToS && AsmInv(st) && Apply(cfg, st, res).Next?
    requires res.Entry? ==> cfg.optB || st.outOpen
    ensures AsmInv(Apply(cfg, st, res).st)
  {
    match res
    case Skip =>
    case NewOutput(fname) =>
      RestartInv(st, fname);
    case Entry(e, w) =>
      ApplyEntryInv(cfg, st, e, w);
  }

  lemma ApplyEntryInv(cfg: ReaderConfig, st: ReaderState, e: ImpEntry, w: Option<LineWarning>)
    requires cfg.mode == ImpToS && AsmInv(st) && (cfg.optB || st.outOpen)
    ensures Apply(cfg, st, Entry(e, w)).Next? && AsmInv(Apply(cfg, st, Entry(e, w)).st)
  {
    var st' := Warned(st, w);
    CountedInv(st, st');
    ThunkStepInv(cfg, st', e);
    assert EntryStep(cfg, st', e) == Some(ThunkStep(cfg, st', e));
  }

  /** The warning count plays no part in `AsmInv`. */
  lemma CountedInv(st: ReaderState, st': ReaderState)
    requires AsmInv(st) && st' == st.(warnings := st'.warnings)
    ensures AsmInv(st')
  {
  }

  lemma {:induction false} ReadLinesInv(cfg: ReaderConfig, st: ReaderState, lines: seq<string>, lineNo: nat)
    requires cfg.mode == ImpToS && AsmInv(st) && ReadLines(cfg, st, lines, lineNo).Read?
    ensures AsmInv(ReadLines(cfg, st, lines, lineNo).st)
    decreases |lines|
  {
    if lines != [] {
      LineStepInv(cfg, st, lines[0]);
      ReadLinesInv(cfg, LineStep(cfg, st, lines[0]).st, lines[1..], lineNo + 1);
    }
  }

  /** After an `.imp` file read in assembler mode, no file is open and
      every assembler file written so far names each module at most once,
      ignoring case, under the labels L1, L2, ... in the order of first use. */
  lemma ReadImpFilesOk(cfg: ReaderConfig, st: ReaderState, lines: seq<string>)
    requires cfg.mode == ImpToS && AsmInv(st) && !st.outOpen
    requires ReadImpSpec(cfg, st, lines).Read?
    ensures var st' := ReadImpSpec(cfg, st, lines).st;
            AsmInv(st') && !st'.outOpen &&
            forall k :: 0 <= k < |st'.files| ==> FileOk(st'.files[k].asm)
  {
    var st0 := st.(libs := [], modLbl := 1);
    assert FirstUses(st0.libs) == [];
    ReadLinesInv(cfg, st0, lines, 1);
    var st1 := ReadLines(cfg, st0, lines, 1).st;
    if st1.outOpen {
      DeclsOk(st1.asm, st1.libs, st1.modLbl);
    }
  }

  /** However many `.imp` files are read in assembler mode, every
      assembler file written names each module at most once, ignoring
      case, under the labels L1, L2, ... in the order of first use. */
  lemma {:induction false} AllFilesOk(cfg: ReaderConfig, st: ReaderState, inputs: seq<seq<string>>)
    requires cfg.mode == ImpToS && AsmInv(st) && !st.outOpen
    requires ReadImpFiles(cfg, st, inputs).Read?
    ensures var st' := ReadImpFiles(cfg, st, inputs).st;
            !st'.outOpen && forall k :: 0 <= k < |st'.files| ==> FileOk(st'.files[k].asm)
    decreases |inputs|
  {
    if inputs != [] {
      ReadImpFilesOk(cfg, st, inputs[0]);
      AllFilesOk(cfg, ReadImpSpec(cfg, st, inputs[0]).st, inputs[1..]);
    }
  }

  lemma InitialInv()
    ensures AsmInv(Initial()) && !Initial().outOpen
  {
    assert FirstUses([]) == [];
  }

  // ---- IMP_TO_DEF: one module ----

  /** A line of the `.def` output that exports a function of module `m`. */
  ghost predicate ExportOf(line: string, m: string)
  {
    exists e: ImpEntry :: e.modName == m && line == ExportLine(e)
  }

  /** The `.def` output is empty before the first export; after it, a
      `LIBRARY` statement naming the first export's module, `EXPORTS`, and
      one line per export, every one of them of that module. */
  ghost predicate DefText(firstModule: Option<string>, text: seq<string>)
  {
    (firstModule.None? ==> text == []) &&
    (firstModule.Some? ==>
       |text| >= 3 && text[0] == "LIBRARY " + firstModule.value && text[1] == "EXPORTS" &&
       forall i :: 2 <= i < |text| ==> ExportOf(text[i], firstModule.value))
  }

  ghost predicate DefInv(st: ReaderState)
  {
    DefText(st.firstModule, st.defText)
  }

  /** `DefEntry` keeps `DefText`: it refuses exactly a module other than
      the first (compared with case), and otherwise adds the export's line. */
  lemma DefEntryText(firstModule: Option<string>, text: seq<string>, e: ImpEntry)
    requires DefText(firstModule, text)
    ensures DefEntry(firstModule, e).OtherModule? <==> firstModule.Some? && firstModule.value != e.modName
    ensures DefEntry(firstModule, e).DefLines? ==>
              var d := DefEntry(firstModule, e);
              d.first == e.modName && DefText(Some(d.first), text + d.lines) &&
              d.lines[|d.lines| - 1] == ExportLine(e)
  {
    assert ExportOf(ExportLine(e), e.modName);
    var d := DefEntry(firstModule, e);
    if d.DefLines? {
      var t := text + d.lines;
      assert forall i :: 2 <= i < |t| ==> t[i] == ExportLine(e) || t[i] == text[i];
    }
  }

  /** An accepted descriptor stops the `.def` conversion exactly when an
      earlier one named another module (compared with case); otherwise
      its export line is added at the end and `DefInv` is kept. */
  lemma DefApply(cfg: ReaderConfig, st: ReaderState, e: ImpEntry, w: Option<LineWarning>)
    requires cfg.mode == ImpToDef && DefInv(st)
    ensures Apply(cfg, st, Entry(e, w)).Bad? <==> st.firstModule.Some? && st.firstModule.value != e.modName
    ensures Apply(cfg, st, Entry(e, w)).Next? ==>
              var st' := Apply(cfg, st, Entry(e, w)).st;
              DefInv(st') && st'.firstModule == Some(e.modName) &&
              |st'.defText| > |st.defText| && st'.defText[..|st.defText|] == st.defText &&
              st'.defText[|st'.defText| - 1] == ExportLine(e)
  {
    DefEntryText(st.firstModule, st.defText, e);
    var d := DefEntry(st.firstModule, e);
    if d.DefLines? {
      var t := st.defText + d.lines;
      assert t[..|st.defText|] == st.defText;
    }
  }

  lemma DefApplyAny(cfg: ReaderConfig, st: ReaderState, res: LineResult)
    requires cfg.mode == ImpToDef && DefInv(st) && Apply(cfg, st, res).Next?
    ensures DefInv(Apply(cfg, st, res).st)
  {
    if res.Entry? {
      DefApply(cfg, st, res.entry, res.warning);
    }
  }

  /** Every line read in `.def` mode keeps `DefInv`, across input files too. */
  lemma {:induction false} ReadLinesDef(cfg: ReaderConfig, st: ReaderState, lines: seq<string>, lineNo: nat)
    requires cfg.mode == ImpToDef && DefInv(st) && ReadLines(cfg, st, lines, lineNo).Read?
    ensures DefInv(ReadLines(cfg, st, lines, lineNo).st)
    decreases |lines|
  {
    if lines != [] {
      var ctx := LineContext(cfg, st);
      DefApplyAny(cfg, st, LineSpec(lines[0], ctx));
      ReadLinesDef(cfg, LineStep(cfg, st, lines[0]).st, lines[1..], lineNo + 1);
    }
  }

  lemma ReadImpDef(cfg: ReaderConfig, st: ReaderState, lines: seq<string>)
    requires cfg.mode == ImpToDef && DefInv(st) && ReadImpSpec(cfg, st, lines).Read?
    ensures DefInv(ReadImpSpec(cfg, st, lines).st)
  {
    ReadLinesDef(cfg, st.(libs := [], modLbl := 1), lines, 1);
  }

  /** All the `.imp` files converted to one `.def` file export functions of
      a single module, named by its `LIBRARY` statement. */
  lemma {:induction false} AllFilesDef(cfg: ReaderConfig, st: ReaderState, inputs: seq<seq<string>>)
    requires cfg.mode == ImpToDef && DefInv(st)
    requires ReadImpFiles(cfg, st, inputs).Read?
    ensures DefInv(ReadImpFiles(cfg, st, inputs).st)
    decreases |inputs|
  {
    if inputs != [] {
      ReadImpDef(cfg, st, inputs[0]);
      AllFilesDef(cfg, ReadImpSpec(cfg, st, inputs[0]).st, inputs[1..]);
    }
  }

  /** The first descriptor of a conversion to `.def` is accepted without a
      `+` line, the output being open already, and its export follows the
      `LIBRARY` and `EXPORTS` statements of its module. */
  lemma DefFirstLine(cfg: ReaderConfig, line: string)
    requires cfg.mode == ImpToDef && LineSpec(line, LineContext(cfg, Initial())).Entry?
    ensures LineStep(cfg, Initial(), line).Next?
    ensures var e := LineSpec(line, LineContext(cfg, Initial())).entry;
            LineStep(cfg, Initial(), line).st.firstModule == Some(e.modName) &&
            LineStep(cfg, Initial(), line).st.defText == ["LIBRARY " + e.modName, "EXPORTS", ExportLine(e)]
  {
    var e := LineSpec(line, LineContext(cfg, Initial())).entry;
    assert [] + ["LIBRARY " + e.modName, "EXPORTS", ExportLine(e)] == ["LIBRARY " + e.modName, "EXPORTS", ExportLine(e)];
  }

  /** The line a library import is listed with, read first in a conversion
      to `.def`, gives the `.def` text of that import's module. */
  lemma DefFromLibLine(cfg: ReaderConfig, e: ImportEntry)
    requires cfg.mode == ImpToDef
    requires IsToken(LeadField(e.func)) && IsToken(e.modName) && (HasFar16Prefix(e.func) ==> |e.func| < 256)
    requires LeadField(e.func)[0] != '+' && LeadField(e.func)[0] != ';'
    requires SelOk(e.sel, LineContext(cfg, Initial()))
    ensures var x := ImpEntry(e.func, e.modName, SelOrd(e.sel), SelName(e.sel),
                              if HasFar16Prefix(e.func) then PARMS_FAR16 else 0);
            LineStep(cfg, Initial(), LibImpLine(e))
              == Next(Initial().(firstModule := Some(e.modName),
                                 defText := ["LIBRARY " + e.modName, "EXPORTS", ExportLine(x)]))
  {
    LibImpRoundTrip(e, LineContext(cfg, Initial()));
    DefFirstLine(cfg, LibImpLine(e));
  }

  // ---- IMP_TO_A and IMP_TO_LIB: the calls made ----

  /** A call as `read_imp` makes it: function and module are tokens, and
      the import is by an ordinal in 1..65535 or, with ordinal -1, by a
      name that is a token. */
  predicate CallReady(c: WriterCall)
  {
    match c
    case AImportCall(f, m, ord, p) =>
      IsToken(f) && IsToken(m) && (p.None? ==> 1 <= ord <= 65535) && (p.Some? ==> ord == -1 && IsToken(p.value))
    case LibImportCall(f, m, ord, n) =>
      IsToken(f) && IsToken(m) && ((1 <= ord <= 65535 && n == "") || (ord == -1 && IsToken(n)))
  }

  predicate AllReady(calls: seq<WriterCall>)
  {
    forall k :: 0 <= k < |calls| ==> CallReady(calls[k])
  }

  lemma Far16Token(f: string)
    requires HasFar16Prefix(f) && IsToken(f[4..])
    ensures IsToken(f)
  {
    assert f == f[..4] + f[4..];
    forall i | 0 <= i < |f|
      ensures !IsDelim(f[i])
    {
      if i >= 4 {
        assert f[i] == f[4..][i - 4];
      } else {
        assert f[i] == FAR16_PREFIX[i];
      }
    }
  }

  /** The descriptor of an accepted line makes a call `CallReady` in
      either conversion. */
  lemma AcceptedCalls(line: string, ctx: Context)
    requires LineSpec(line, ctx).Entry?
    ensures CallReady(AImportOf(LineSpec(line, ctx).entry)) && CallReady(LibImportOf(LineSpec(line, ctx).entry))
  {
    AcceptedShape(line, ctx);
    var e := LineSpec(line, ctx).entry;
    if e.parms == PARMS_FAR16 {
      Far16Token(e.func);
    }
  }

  lemma ApplyCalls(cfg: ReaderConfig, st: ReaderState, res: LineResult)
    requires (cfg.mode == ImpToA || cfg.mode == ImpToLib) && AllReady(st.calls) && Apply(cfg, st, res).Next?
    requires res.Entry? ==> CallReady(AImportOf(res.entry)) && CallReady(LibImportOf(res.entry))
    ensures AllReady(Apply(cfg, st, res).st.calls)
  {
  }

  /** Every call made while reading `.imp` files for an archive or a
      library is `CallReady`. */
  lemma {:induction false} ReadLinesCalls(cfg: ReaderConfig, st: ReaderState, lines: seq<string>, lineNo: nat)
    requires (cfg.mode == ImpToA || cfg.mode == ImpToLib) && AllReady(st.calls)
    requires ReadLines(cfg, st, lines, lineNo).Read?
    ensures AllReady(ReadLines(cfg, st, lines, lineNo).st.calls)
    decreases |lines|
  {
    if lines != [] {
      var ctx := LineContext(cfg, st);
      var res := LineSpec(lines[0], ctx);
      if res.Entry? {
        AcceptedCalls(lines[0], ctx);
      }
      ApplyCalls(cfg, st, res);
      ReadLinesCalls(cfg, LineStep(cfg, st, lines[0]).st, lines[1..], lineNo + 1);
    }
  }

  lemma ReadImpCalls(cfg: ReaderConfig, st: ReaderState, lines: seq<string>)
    requires (cfg.mode == ImpToA || cfg.mode == ImpToLib) && AllReady(st.calls)
    requires ReadImpSpec(cfg, st, lines).Read?
    ensures AllReady(ReadImpSpec(cfg, st, lines).st.calls)
  {
    ReadLinesCalls(cfg, st.(libs := [], modLbl := 1), lines, 1);
  }

  /** Every call made for an archive or a library, over all the input
      files, is `CallReady`. */
  lemma {:induction false} AllFilesCalls(cfg: ReaderConfig, st: ReaderState, inputs: seq<seq<string>>)
    requires (cfg.mode == ImpToA || cfg.mode == ImpToLib) && AllReady(st.calls)
    requires ReadImpFiles(cfg, st, inputs).Read?
    ensures AllReady(ReadImpFiles(cfg, st, inputs).st.calls)
    decreases |inputs|
  {
    if inputs != [] {
      ReadImpCalls(cfg, st, inputs[0]);
      AllFilesCalls(cfg, ReadImpSpec(cfg, st, inputs[0]).st, inputs[1..]);
    }
  }

  /** In a conversion to `.a` the output is open before the first line
      (emximp.c:1220): the line a library import is listed with makes the
      `write_a_import` call for that import, whatever was read before. */
  lemma AFromLibLine(cfg: ReaderConfig, st: ReaderState, e: ImportEntry)
    requires cfg.mode == ImpToA
    requires IsToken(LeadField(e.func)) && IsToken(e.modName) && (HasFar16Prefix(e.func) ==> |e.func| < 256)
    requires LeadField(e.func)[0] != '+' && LeadField(e.func)[0] != ';'
    requires SelOk(e.sel, LineContext(cfg, st))
    ensures LineStep(cfg, st, LibImpLine(e))
              == Next(st.(calls := st.calls + [match e.sel
                                                 case ByOrdinal(o) => AImportCall(e.func, e.modName, o, None)
                                                 case ByName(n) => AImportCall(e.func, e.modName, -1, Some(n))]))
  {
    LibImpRoundTrip(e, LineContext(cfg, st));
  }

  /** A `write_a_import` call of `read_imp` meets that function's demand on
      the ordinal, and its import symbol names the module and the ordinal,
      or the export name when there is none. */
  lemma AImportCallTarget(profile: bool, c: WriterCall)
    requires c.AImportCall? && CallReady(c)
    ensures c.procName.None? ==> 0 <= c.ordinal < 65536
    ensures var names := ImportNames(profile, c.func, c.modName, c.ordinal, c.procName);
            |names| >= 2 &&
            names[|names| - 1] == ImportSymbol(profile, c.func) + "=" + c.modName + "." +
              (if c.ordinal >= 1 then IntToDecimal(c.ordinal) else c.procName.value)
  {
    TwoImportSymbols(profile, c.func, c.modName, c.ordinal, c.procName);
  }

  /** The IMPDEF comment of a `write_lib_import` call of `read_imp`, once
      written, decodes to the same import: by ordinal, or by name when the
      ordinal is -1. */
  lemma LibImportCallDecodes(c: WriterCall, buf: seq<Byte>, i: nat, next: nat, hdrLen: nat)
    requires c.LibImportCall? && CallReady(c)
    requires Storable(c.func) && Storable(c.modName) && Storable(c.name) && hdrLen >= 11
    requires var P := ImpDefPayload(c.func, c.modName, c.ord, c.name);
             next == i + |P| + 1 && next <= |buf| && buf[i..i + |P|] == P
    ensures DecodeComent(buf, i, next, hdrLen)
              == ImpDef(ImportEntry(c.func, c.modName, if c.ord == -1 then ByName(c.name) else ByOrdinal(c.ord)))
  {
    ImpDefRoundTrip(c.func, c.modName, c.ord, c.name, buf, i, next, hdrLen);
  }

  // ---- Names of the files of -b ----

  lemma IntToDecimalInjective(a: int, b: int)
    requires IntToDecimal(a) == IntToDecimal(b)
    ensures a == b
  {
    if a < 0 && b < 0 {
      assert NatToDecimal(-a) == IntToDecimal(a)[1..];
      DecimalInjective(-a, -b);
    } else if a >= 0 && b >= 0 {
      DecimalInjective(a, b);
    }
  }

  /** Two imports of one module, or any two under a fixed stem, get
      different `-b` file names when their numbers differ. */
  lemma BatchNamesDiffer(cfg: ReaderConfig, n1: int, n2: int, m1: string, m2: string)
    requires cfg.outBase.Some? || m1 == m2
    requires n1 != n2
    ensures BatchName(cfg, n1, m1) != BatchName(cfg, n2, m2)
  {
    var x, y := BatchName(cfg, n1, m1), BatchName(cfg, n2, m2);
    if x == y {
      var stem := if cfg.outBase.Some? then cfg.outBase.value
                  else m1[..if cfg.baseLen < |m1| then cfg.baseLen else |m1|];
      var d1, d2 := IntToDecimal(n1), IntToDecimal(n2);
      assert x == stem + d1 + ".s" && y == stem + d2 + ".s";
      assert |d1| == |d2|;
      assert d1 == x[|stem|..|stem| + |d1|];
      assert d2 == y[|stem|..|stem| + |d2|];
      IntToDecimalInjective(n1, n2);
    }
  }

  // ---- The reader as the program runs it ----

  /** Where a run stopped: the line number and the reason. */
  datatype Halt = Halt(lineNo: nat, error: ReadError)

  /** The global state of emximp.c:78-93 that `read_imp` updates, with the
      label table as an object of its own. */
  class ImpReader {
    const cfg: ReaderConfig
    var outOpen: bool
    var outName: string
    var asm: seq<Asm>
    var files: seq<AsmFile>
    const labels: LabelTable
    var firstModule: Option<string>
    var defText: seq<string>
    var calls: seq<WriterCall>
    var seqNo: int
    var warnings: nat

    ghost predicate Valid()
      reads this, labels
    {
      FromImp(cfg.mode) && labels.Valid()
    }

    /** The state as a value. */
    function State(): ReaderState
      reads this, labels
    {
      ReaderState(outOpen, outName, asm, files, labels.libs, labels.modLbl, firstModule,
                  defText, calls, seqNo, warnings)
    }

    constructor (cfg: ReaderConfig)
      requires FromImp(cfg.mode)
      ensures Valid() && this.cfg == cfg && State() == Initial()
    {
      this.cfg := cfg;
      outOpen, outName, asm, files := false, "", [], [];
      labels := new LabelTable();
      firstModule, defText, calls, seqNo, warnings := None, [], [], 1, 0;
    }

    /** `out_flush` (emximp.c:211-253). */
    method Flush()
      requires Valid()
      modifies this
      ensures Valid() && State() == Flushed(old(State()))
    {
      if outOpen {
        files := files + [AsmFile(outName, asm)];
        asm := [];
        outOpen := false;
      }
    }

    /** `out_start` (emximp.c:256-285). */
    method Start(name: string)
      requires Valid()
      modifies this, labels
      ensures Valid() && State() == Started(old(State()), name)
    {
      outOpen := true;
      outName := name;
      asm := FileHeader(name);
      labels.Reset();
    }

    /** The search of the `-p` list (emximp.c:506-508). */
    method FindPredef(modName: string) returns (r: Option<string>)
      ensures r == PredefFor(cfg.predefs, modName)
    {
      var i := |cfg.predefs|;
      assert cfg.predefs[..i] == cfg.predefs;
      while i > 0
        invariant 0 <= i <= |cfg.predefs|
        invariant PredefFor(cfg.predefs, modName) == PredefFor(cfg.predefs[..i], modName)
        decreases i
      {
        assert cfg.predefs[..i][..i - 1] == cfg.predefs[..i - 1];
        if EqualsIgnoreCase(modName, cfg.predefs[i - 1]) {
          return Some(cfg.predefs[i - 1]);
        }
        i := i - 1;
      }
      return None;
    }

    /** The file of one import under `-b` (emximp.c:492-505). */
    method StartBatch(e: ImpEntry)
      requires Valid()
      modifies this, labels
      ensures Valid() && State() == BatchStart(cfg, old(State()), e)
    {
      if cfg.optB {
        Flush();
        var fileNo;
        if cfg.optS {
          fileNo := seqNo;
          seqNo := seqNo + 1;
        } else {
          fileNo := e.ord;
        }
        Start(BatchName(cfg, fileNo, e.modName));
      }
    }

    /** The thunk of one import (emximp.c:492-547). */
    method WriteThunk(e: ImpEntry)
      requires Valid()
      modifies this, labels
      ensures Valid() && State() == ThunkStep(cfg, old(State()), e)
    {
      StartBatch(e);
      ghost var st1 := State();
      var p := FindPredef(e.modName);
      var r: ModRef;
      if p.Some? {
        r := Predef(p.value);
      } else {
        var isNew, lbl := labels.Use(e.modName);
        r := Labelled(lbl, isNew);
      }
      assert r == RefOf(cfg, st1.libs, st1.modLbl, e.modName);
      asm := asm + Thunk(e, r);
    }

    /** What an accepted descriptor does, by the conversion (emximp.c:463-551). */
    method UseEntry(e: ImpEntry) returns (err: Option<ReadError>)
      requires Valid()
      modifies this, labels
      ensures Valid()
      ensures EntryStep(cfg, old(State()), e) == (if err.None? then Some(State()) else None)
      ensures err.None? || err == Some(NotSameModule)
    {
      err := None;
      match cfg.mode
      case ImpToDef =>
        if firstModule.None? {
          firstModule := Some(e.modName);
          defText := defText + ["LIBRARY " + e.modName, "EXPORTS"];
          assert defText + [ExportLine(e)] == old(defText) + ["LIBRARY " + e.modName, "EXPORTS", ExportLine(e)];
        } else if firstModule.value != e.modName {
          return Some(NotSameModule);
        }
        defText := defText + [ExportLine(e)];
      case ImpToA =>
        calls := calls + [AImportOf(e)];
      case ImpToLib =>
        calls := calls + [LibImportOf(e)];
      case ImpToS =>
        WriteThunk(e);
    }

    /** One line of the loop of emximp.c:352-552. */
    method ReadLine(line: string) returns (err: Option<ReadError>)
      requires Valid()
      modifies this, labels
      ensures Valid()
      ensures LineStep(cfg, old(State()), line) == (if err.None? then Next(State()) else Bad(err.value))
    {
      var res := ParseLine(line, LineContext(cfg, State()));
      err := ApplyResult(res);
    }

    /** What the reading of a line does with its result. */
    method ApplyResult(res: LineResult) returns (err: Option<ReadError>)
      requires Valid()
      modifies this, labels
      ensures Valid()
      ensures Apply(cfg, old(State()), res) == (if err.None? then Next(State()) else Bad(err.value))
    {
      match res
      case Skip =>
        err := None;
      case NewOutput(fname) =>
        Flush();
        Start(fname);
        err := None;
      case Entry(e, w) =>
        err := Accept(e, w);
      case Failed(x) =>
        err := Some(BadLine(x));
    }

    /** An accepted descriptor: its warning counts, then it is used. */
    method Accept(e: ImpEntry, w: Option<LineWarning>) returns (err: Option<ReadError>)
      requires Valid()
      modifies this, labels
      ensures Valid()
      ensures Apply(cfg, old(State()), Entry(e, w)) == (if err.None? then Next(State()) else Bad(err.value))
    {
      if w.Some? {
        warnings := warnings + 1;
      }
      assert State() == Warned(old(State()), w);
      err := UseEntry(e);
    }

    /** `read_imp` on the lines of one file (emximp.c:337-559). */
    method ReadImp(lines: seq<string>) returns (halt: Option<Halt>)
      requires Valid()
      modifies this, labels
      ensures Valid()
      ensures ReadImpSpec(cfg, old(State()), lines)
                == (if halt.None? then Read(State()) else Stopped(halt.value.lineNo, halt.value.error))
    {
      labels.Reset();
      ghost var st0 := State();
      assert st0 == old(State()).(libs := [], modLbl := 1);
      var i := 0;
      while i < |lines|
        invariant 0 <= i <= |lines| && Valid()
        invariant ReadLines(cfg, st0, lines, 1) == ReadLines(cfg, State(), lines[i..], i + 1)
        decreases |lines| - i
      {
        assert lines[i..][0] == lines[i] && lines[i..][1..] == lines[i + 1..];
        var err := ReadLine(lines[i]);
        if err.Some? {
          return Some(Halt(i + 1, err.value));
        }
        i := i + 1;
      }
      assert lines[i..] == [];
      if cfg.mode == ImpToS {
        Flush();
      }
      return None;
    }

    /** The loop of `main` over the input files (emximp.c:1197-1225). */
    method ReadImps(inputs: seq<seq<string>>) returns (halt: Option<Halt>)
      requires Valid()
      modifies this, labels
      ensures Valid()
      ensures ReadImpFiles(cfg, old(State()), inputs)
                == (if halt.None? then Read(State()) else Stopped(halt.value.lineNo, halt.value.error))
    {
      var k := 0;
      while k < |inputs|
        invariant 0 <= k <= |inputs| && Valid()
        invariant ReadImpFiles(cfg, old(State()), inputs) == ReadImpFiles(cfg, State(), inputs[k..])
        decreases |inputs| - k
      {
        assert inputs[k..][0] == inputs[k] && inputs[k..][1..] == inputs[k + 1..];
        halt := ReadImp(inputs[k]);
        if halt.Some? {
          return;
        }
        k := k + 1;
      }
      assert inputs[k..] == [];
      return None;
    }
  }
}
