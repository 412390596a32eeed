/** `read_def` and `md_export` (emximp.c:963-1037): the module-definition
    parser reports the statements of a `.def` file one by one, and
    `md_export` turns each export into a line of an `.imp` file, an a.out
    import or an import library module, under the name of the module the
    `LIBRARY` statement gave. */
module MdExport {
  import opened Common
  import opened Modes
  import opened Omf
  import opened ImpParse
  import opened AImport

  /** The statements `md_export` tells apart: `LIBRARY name`, an export
      (its entry name, its internal name, empty when none was given, its
      ordinal and whether `@ordinal` was given), a syntax error the parser
      found, and the rest. */
  datatype Stmt =
    | Library(name: string)
    | Export(entryName: string, internalName: string, ordinal: nat, hasOrdinal: bool)
    | SyntaxError(code: int)
    | OtherStmt

  /** What an export becomes: a line of the `.imp` file, or a writer call. */
  datatype Output = ImpText(line: string) | Call(call: WriterCall)

  datatype DefError = NoModuleName | DefSyntax(code: int)

  /** The output of a whole file, or the error that ended the run. */
  datatype DefRun = Written(out: seq<Output>) | Halted(error: DefError)

  /** The outcome of one statement: the module name from then on and what
      was written, or the error that ends the run. */
  datatype StepResult = Next(moduleName: Option<string>, out: seq<Output>) | Stopped(error: DefError)

  /** The conversions that read `.def` files. */
  predicate FromDef(mode: Mode)
  {
    mode == DefToImp || mode == DefToA || mode == DefToLib
  }

  /** The name an export is known by inside the module: the internal name,
      or the entry name when there is none (emximp.c:976-979). */
  function Internal(entryName: string, internalName: string): string
  {
    if internalName != "" then internalName else entryName
  }

  /** emximp.c:968-1015 for one statement. */
  function MdExportStep(mode: Mode, moduleName: Option<string>, stmt: Stmt): StepResult
    requires FromDef(mode)
  {
    match stmt
    case Library(name) => Next(Some(name), [])
    case Export(entry, internalName, ordinal, hasOrdinal) =>
      if moduleName.None? then Stopped(NoModuleName)
      else
        var modName, internal := moduleName.value, Internal(entry, internalName);
        if mode == DefToImp then
          if hasOrdinal then Next(moduleName, [ImpText(ImpLineOf(entry, modName, PadLeft(NatToDecimal(ordinal), 3), '?'))])
          else Next(moduleName, [ImpText(ImpLineOf(entry, modName, PadRight(internal, 23), '?'))])
        else if mode == DefToA then
          if hasOrdinal then Next(moduleName, [Call(AImportCall(entry, modName, ordinal, None))])
          else Next(moduleName, [Call(AImportCall(entry, modName, 0, Some(internal)))])
        else
          Next(moduleName, [Call(LibImportCall(entry, modName, ordinal, internal))])
    case SyntaxError(code) => Stopped(DefSyntax(code))
    case OtherStmt => Next(moduleName, [])
  }

  /** The whole output of `read_def` for one file, or the error it stops
      with: the module name starts unset (emximp.c:1024), and the `.imp`
      output opens with a comment line naming the file (emximp.c:1028-1033). */
  function ReadDef(mode: Mode, fname: string, stmts: seq<Stmt>): DefRun
    requires FromDef(mode)
  {
    var head := if mode == DefToImp then [ImpText("; -------- " + fname + " --------")] else [];
    match Parse(mode, None, stmts)
    case Written(out) => Written(head + out)
    case Halted(err) => Halted(err)
  }

  /** The statements from some point on, with the module name so far. */
  function Parse(mode: Mode, moduleName: Option<string>, stmts: seq<Stmt>): DefRun
    requires FromDef(mode)
    decreases |stmts|
  {
    if stmts == [] then Written([])
    else
      match MdExportStep(mode, moduleName, stmts[0])
      case Stopped(err) => Halted(err)
      case Next(name', out) =>
        match Parse(mode, name', stmts[1..])
        case Written(rest) => Written(out + rest)
        case Halted(err) => Halted(err)
  }

  // ---- Properties ----

  /** The number of exports among the statements. */
  function ExportCount(stmts: seq<Stmt>): nat
  {
    if stmts == [] then 0 else (if stmts[0].Export? then 1 else 0) + ExportCount(stmts[1..])
  }

  /** Each export writes exactly one line or makes exactly one call, and
      nothing else does. */
  lemma {:induction false} OneOutputPerExport(mode: Mode, moduleName: Option<string>, stmts: seq<Stmt>)
    requires FromDef(mode) && Parse(mode, moduleName, stmts).Written?
    ensures |Parse(mode, moduleName, stmts).out| == ExportCount(stmts)
    decreases |stmts|
  {
    if stmts != [] {
      var step := MdExportStep(mode, moduleName, stmts[0]);
      OneOutputPerExport(mode, step.moduleName, stmts[1..]);
    }
  }

  /** An export comes before any `LIBRARY` statement or syntax error. */
  predicate ExportBeforeLibrary(stmts: seq<Stmt>)
  {
    exists i :: 0 <= i < |stmts| && stmts[i].Export? && forall j :: 0 <= j < i ==> stmts[j].OtherStmt?
  }

  /** A file stops with "No module name given" exactly when an export
      comes before the first `LIBRARY` statement (and before any syntax
      error), as the module name starts unset. */
  lemma {:induction false} NoModuleNameIff(mode: Mode, stmts: seq<Stmt>)
    requires FromDef(mode)
    ensures Parse(mode, None, stmts) == Halted(NoModuleName) <==> ExportBeforeLibrary(stmts)
    decreases |stmts|
  {
    if stmts == [] {
    } else if stmts[0].OtherStmt? {
      NoModuleNameIff(mode, stmts[1..]);
      if ExportBeforeLibrary(stmts[1..]) {
        var i :| 0 <= i < |stmts[1..]| && stmts[1..][i].Export? &&
                 forall j :: 0 <= j < i ==> stmts[1..][j].OtherStmt?;
        assert stmts[i + 1].Export?;
        forall j | 0 <= j < i + 1
          ensures stmts[j].OtherStmt?
        {
          if j > 0 {
            assert stmts[j] == stmts[1..][j - 1];
          }
        }
      }
      if ExportBeforeLibrary(stmts) {
        var i :| 0 <= i < |stmts| && stmts[i].Export? && forall j :: 0 <= j < i ==> stmts[j].OtherStmt?;
        assert i > 0;
        assert stmts[1..][i - 1].Export?;
        forall j | 0 <= j < i - 1
          ensures stmts[1..][j].OtherStmt?
        {
          assert stmts[1..][j] == stmts[j + 1];
        }
      }
    } else if stmts[0].Export? {
      FirstIsExport(stmts);
    } else {
      forall i | 0 <= i < |stmts| && stmts[i].Export?
        ensures !stmts[0].OtherStmt? && 0 < i
      {
      }
      if stmts[0].Library? {
        LibraryNeverMissing(mode, stmts[0].name, stmts[1..]);
      }
    }
  }

  lemma FirstIsExport(stmts: seq<Stmt>)
    requires |stmts| > 0 && stmts[0].Export?
    ensures ExportBeforeLibrary(stmts)
  {
    var i := 0;
    assert 0 <= i < |stmts| && stmts[i].Export?;
  }

  /** Once a module name is known, it stays known. */
  lemma {:induction false} LibraryNeverMissing(mode: Mode, name: string, stmts: seq<Stmt>)
    requires FromDef(mode)
    ensures Parse(mode, Some(name), stmts) != Halted(NoModuleName)
    decreases |stmts|
  {
    if stmts != [] {
      match stmts[0]
      case Library(n) => LibraryNeverMissing(mode, n, stmts[1..]);
      case Export(_, _, _, _) => LibraryNeverMissing(mode, name, stmts[1..]);
      case SyntaxError(_) =>
      case OtherStmt => LibraryNeverMissing(mode, name, stmts[1..]);
    }
  }

  /** `%-23s` of the internal name: the name, then blanks. */
  lemma PadRightPieces(s: string)
    ensures PadRight(s, 23) == Spaces(0) + s + Spaces(Gap(s, 23) - 1)
  {
    assert Spaces(0) == [];
  }

  /** The `.imp` line of an export with an ordinal is its fields and blanks. */
  lemma OrdinalLineFields(entry: string, modName: string, ordinal: nat)
    requires IsToken(entry) && IsToken(modName)
    ensures var t := NatToDecimal(ordinal);
            Fields(ImpLineOf(entry, modName, PadLeft(t, 3), '?'), entry, Gap(entry, 23),
                   modName, Gap(modName, 8) + Gap(t, 3) - 1, t, 1, '?')
  {
    var t := NatToDecimal(ordinal);
    var p := Gap(t, 3) - 1;
    PadLeftPieces(t);
    DigitsToken(ordinal);
    ImpLineFields(entry, modName, p, t, 0, '?');
    // The padded ordinal is the third field with its blanks before it.
    assert ImpLineOf(entry, modName, PadLeft(t, 3), '?')
        == entry + Spaces(Gap(entry, 23)) + modName + Spaces(Gap(modName, 8) + p) + t + Spaces(1) + ['?'];
  }

  /** The `.imp` line of an export without an ordinal is its fields and blanks. */
  lemma NameLineFields(entry: string, modName: string, internal: string)
    requires IsToken(entry) && IsToken(modName) && IsToken(internal)
    ensures Fields(ImpLineOf(entry, modName, PadRight(internal, 23), '?'), entry, Gap(entry, 23),
                   modName, Gap(modName, 8), internal, Gap(internal, 23), '?')
  {
    PadRightPieces(internal);
    ImpLineFields(entry, modName, 0, internal, Gap(internal, 23) - 1, '?');
  }

  /** The line `md_export` writes for an export reads back, in `read_imp`,
      as that export: the entry name, the module, and the ordinal or the
      internal name (the entry name when there is none), with `?` for the
      argument count. The ordinal must be one `read_imp` accepts, the names
      fields of a line, and the internal name must not look like an ordinal. */
  lemma DefImpRoundTrip(moduleName: string, entry: string, internalName: string, ordinal: nat,
                        hasOrdinal: bool, ctx: Context)
    requires IsToken(entry) && entry[0] != '+' && entry[0] != ';' && IsToken(moduleName)
    requires hasOrdinal ==> 1 <= ordinal <= 65535
    requires !hasOrdinal ==> var n := Internal(entry, internalName);
                             IsToken(n) && !IsDigit(n[0]) && (!ctx.optB || ctx.optS)
    requires ctx.optB || ctx.outputOpen || ctx.mode == ImpToLib
    ensures MdExportStep(DefToImp, Some(moduleName), Export(entry, internalName, ordinal, hasOrdinal))
            == Next(Some(moduleName), [ImpText(MdImpLine(moduleName, entry, internalName, ordinal, hasOrdinal))])
    ensures LineSpec(MdImpLine(moduleName, entry, internalName, ordinal, hasOrdinal), ctx)
            == Entry(if hasOrdinal then ImpEntry(entry, moduleName, ordinal, "", 0)
                     else ImpEntry(entry, moduleName, -1, Internal(entry, internalName), 0),
                     if ctx.mode == ImpToS then Some(UnknownArgs) else None)
  {
    var line := MdImpLine(moduleName, entry, internalName, ordinal, hasOrdinal);
    if hasOrdinal {
      var t := NatToDecimal(ordinal);
      OrdinalLineFields(entry, moduleName, ordinal);
      FieldsParse(line, entry, Gap(entry, 23), moduleName, Gap(moduleName, 8) + Gap(t, 3) - 1,
                  ByOrdinal(ordinal), 1, '?', ctx);
    } else {
      var n := Internal(entry, internalName);
      NameLineFields(entry, moduleName, n);
      FieldsParse(line, entry, Gap(entry, 23), moduleName, Gap(moduleName, 8), ByName(n), Gap(n, 23), '?', ctx);
    }
  }

  /** The `.imp` line written for an export (emximp.c:983-989). */
  function MdImpLine(moduleName: string, entry: string, internalName: string, ordinal: nat,
                     hasOrdinal: bool): string
  {
    if hasOrdinal then ImpLineOf(entry, moduleName, PadLeft(NatToDecimal(ordinal), 3), '?')
    else ImpLineOf(entry, moduleName, PadRight(Internal(entry, internalName), 23), '?')
  }

  /** The import library module made for an export holds an IMPDEF record
      that decodes to the export: by ordinal when one above 0 was given,
      otherwise by the internal name (the entry name when there is none). */
  lemma DefLibRoundTrip(moduleName: string, entry: string, internalName: string, ordinal: nat,
                        hasOrdinal: bool, buf: seq<Byte>, i: nat, next: nat, hdrLen: nat)
    requires Storable(entry) && Storable(moduleName) && Storable(Internal(entry, internalName))
    requires ordinal < 1 ==> entry != "" || internalName != ""
    requires hdrLen >= 11
    requires var P := ImpDefPayload(entry, moduleName, ordinal, Internal(entry, internalName));
             next == i + |P| + 1 && next <= |buf| && buf[i..i + |P|] == P
    ensures var c := MdExportStep(DefToLib, Some(moduleName), Export(entry, internalName, ordinal, hasOrdinal));
            c.Next? && c.out == [Call(LibImportCall(entry, moduleName, ordinal, Internal(entry, internalName)))]
    ensures DecodeComent(buf, i, next, hdrLen)
            == ImpDef(ImportEntry(entry, moduleName,
                                  if ordinal < 1 then ByName(Internal(entry, internalName))
                                  else ByOrdinal(ordinal % 65536)))
  {
    ImpDefRoundTrip(entry, moduleName, ordinal, Internal(entry, internalName), buf, i, next, hdrLen);
  }

  /** The a.out import made for an export refers to "module.ordinal" when an
      ordinal was given and to "module.name" with the internal name (the
      entry name when there is none) otherwise. */
  lemma DefATarget(moduleName: string, entry: string, internalName: string, ordinal: nat,
                   hasOrdinal: bool, profile: bool)
    ensures var c := MdExportStep(DefToA, Some(moduleName), Export(entry, internalName, ordinal, hasOrdinal));
            c.Next? && |c.out| == 1 && c.out[0].Call? && c.out[0].call.AImportCall? &&
            var call := c.out[0].call;
            var names := ImportNames(profile, call.func, call.modName, call.ordinal, call.procName);
            names[|names| - 1] == ImportSymbol(profile, entry) + "=" + moduleName + "." +
              (if hasOrdinal then NatToDecimal(ordinal) else Internal(entry, internalName))
  {
    var c := MdExportStep(DefToA, Some(moduleName), Export(entry, internalName, ordinal, hasOrdinal));
    var call := c.out[0].call;
    TwoImportSymbols(profile, call.func, call.modName, call.ordinal, call.procName);
  }
}
