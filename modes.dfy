/** How `main` picks the conversion (emximp.c:1099-1181): each input file is
    classified by its extension, all inputs must be of one kind, and the
    extension of the `-o` file (or its absence) selects the target. Options
    that only make sense for one conversion are refused elsewhere. */
module Modes {
  import opened Common
  import opened Getext

  /** The kinds of input file. */
  datatype InputKind = Lib | Imp | Def

  /** `enum modes` without `M_NONE`, which `main` never keeps. */
  datatype Mode = LibToImp | ImpToS | ImpToDef | LibToA | ImpToA | ImpToLib | DefToImp | DefToA | DefToLib

  /** The options of the command line that bear on the choice: `-a`, `-b`,
      `-s`, the `-p` arguments in the order given, `-m` and `-o`. */
  datatype Options = Options(asName: bool, optB: bool, optS: bool, predefs: seq<string>,
                             profile: bool, output: Option<string>)

  /** How many inputs there are of each kind. */
  datatype Counts = Counts(imp: nat, lib: nat, def: nat)

  /** The reasons `main` stops: an input with an unknown extension, the usage
      message, inputs of several kinds, a conversion it cannot do (from the
      input kind to the named extension), or an output extension it does not
      know. */
  datatype ModeError = UnknownExtension(file: string) | Usage | MixedInputs
                     | CannotConvert(from: InputKind, to: string) | UnsupportedOutput

  datatype Classified = Classified(counts: Counts) | Unclassified(error: ModeError)

  /** The conversion chosen and the page size of a library output. */
  datatype Setup = Setup(mode: Mode, pageSize: int)

  datatype Choice = Chosen(setup: Setup) | Refused(error: ModeError)

  const DEFAULT_PAGE_SIZE: int := 16

  /** A call a conversion makes to one of the import writers:
      `write_a_import (func, module, ordinal, proc_name)`, with `proc_name`
      NULL as `None`, or `write_lib_import (func, module, ord, name)`. */
  datatype WriterCall =
    | AImportCall(func: string, modName: string, ordinal: int, procName: Option<string>)
    | LibImportCall(func: string, modName: string, ord: int, name: string)

  /** The extension `_getext` finds, as a string. */
  function ExtOf(path: string): (r: Option<string>)
    ensures r.Some? ==> |r.value| >= 1 && r.value[0] == '.'
  {
    match ExtDot(path)
    case Some(d) => Some(path[d..])
    case None => None
  }

  /** `stricmp (ext, e) == 0` for an extension that may be missing. */
  predicate ExtIs(ext: Option<string>, e: string)
  {
    ext.Some? && EqualsIgnoreCase(ext.value, e)
  }

  /** The kind of an input file, by its extension (emximp.c:1103-1111). */
  function KindOf(path: string): Option<InputKind>
  {
    var ext := ExtOf(path);
    if ExtIs(ext, ".lib") then Some(Lib)
    else if ExtIs(ext, ".imp") then Some(Imp)
    else if ExtIs(ext, ".def") then Some(Def)
    else None
  }

  function Count(c: Counts, k: InputKind): nat
  {
    match k
    case Imp => c.imp
    case Lib => c.lib
    case Def => c.def
  }

  function Add(c: Counts, k: InputKind): (r: Counts)
    ensures Count(r, k) == Count(c, k) + 1
    ensures forall k' :: k' != k ==> Count(r, k') == Count(c, k')
  {
    match k
    case Imp => c.(imp := c.imp + 1)
    case Lib => c.(lib := c.lib + 1)
    case Def => c.(def := c.def + 1)
  }

  /** The kind of each input, in order. */
  function KindsOf(files: seq<string>): (r: seq<Option<InputKind>>)
    ensures |r| == |files|
    ensures forall i :: 0 <= i < |files| ==> r[i] == KindOf(files[i])
  {
    seq(|files|, i requires 0 <= i < |files| => KindOf(files[i]))
  }

  /** The counts of a list of inputs, or the first input whose extension is
      unknown. */
  function Classify(files: seq<string>): Classified
  {
    ClassifyBy(files, KindsOf(files))
  }

  /** `Classify` once the kind of each input is known. */
  function ClassifyBy(files: seq<string>, kinds: seq<Option<InputKind>>): Classified
    requires |kinds| == |files|
  {
    if files == [] then Classified(Counts(0, 0, 0))
    else
      match ClassifyBy(files[..|files| - 1], kinds[..|files| - 1])
      case Unclassified(e) => Unclassified(e)
      case Classified(c) =>
        match kinds[|files| - 1]
        case None => Unclassified(UnknownExtension(files[|files| - 1]))
        case Some(k) => Classified(Add(c, k))
  }

  /** An independent count: the number of inputs of kind k. */
  function CountKind(kinds: seq<Option<InputKind>>, k: InputKind): nat
  {
    if kinds == [] then 0
    else CountKind(kinds[..|kinds| - 1], k) + (if kinds[|kinds| - 1] == Some(k) then 1 else 0)
  }

  /** The loop of emximp.c:1099-1110. */
  method ClassifyInputs(files: seq<string>) returns (r: Classified)
    ensures r == Classify(files)
  {
    ghost var kinds := KindsOf(files);
    var c := Counts(0, 0, 0);
    var i := 0;
    while i < |files|
      invariant i <= |files| && ClassifyBy(files[..i], kinds[..i]) == Classified(c)
    {
      assert files[..i + 1][..i] == files[..i];
      assert kinds[..i + 1][..i] == kinds[..i];
      var k := KindOf(files[i]);
      assert k == kinds[i];
      if k.None? {
        ClassifyStopsAtError(files, kinds, i + 1);
        return Unclassified(UnknownExtension(files[i]));
      }
      c := Add(c, k.value);
      i := i + 1;
    }
    assert files[..i] == files && kinds[..i] == kinds;
    return Classified(c);
  }

  /** Once one prefix of the inputs fails, every longer one fails the same way. */
  lemma {:induction false} ClassifyStopsAtError(files: seq<string>, kinds: seq<Option<InputKind>>, n: nat)
    requires |kinds| == |files| && 0 < n <= |files| && ClassifyBy(files[..n], kinds[..n]).Unclassified?
    ensures ClassifyBy(files, kinds) == ClassifyBy(files[..n], kinds[..n])
    decreases |files| - n
  {
    var m := |files| - 1;
    if n < |files| {
      assert files[..m][..n] == files[..n] && kinds[..m][..n] == kinds[..n];
      ClassifyStopsAtError(files[..m], kinds[..m], n);
    } else {
      assert files[..n] == files && kinds[..n] == kinds;
    }
  }

  /** Classification succeeds exactly when every kind is known, and then
      it counts the inputs of each kind. */
  lemma {:induction false} ClassifyByCounts(files: seq<string>, kinds: seq<Option<InputKind>>)
    requires |kinds| == |files|
    ensures ClassifyBy(files, kinds).Classified? <==> forall i :: 0 <= i < |kinds| ==> kinds[i].Some?
    ensures ClassifyBy(files, kinds).Classified? ==>
            forall k :: Count(ClassifyBy(files, kinds).counts, k) == CountKind(kinds, k)
  {
    if files != [] {
      var m := |files| - 1;
      ClassifyByCounts(files[..m], kinds[..m]);
      assert forall i :: 0 <= i < m ==> kinds[..m][i] == kinds[i];
    }
  }

  /** Classification succeeds exactly when every extension is known, and then
      it counts the inputs of each kind. */
  lemma ClassifyCounts(files: seq<string>)
    ensures Classify(files).Classified? <==> forall i :: 0 <= i < |files| ==> KindOf(files[i]).Some?
    ensures Classify(files).Classified? ==>
            forall k :: Count(Classify(files).counts, k) == CountKind(KindsOf(files), k)
  {
    ClassifyByCounts(files, KindsOf(files));
  }

  /** The first input with an unknown kind is the one reported. */
  lemma {:induction false} ClassifyByFirstUnknown(files: seq<string>, kinds: seq<Option<InputKind>>)
    requires |kinds| == |files| && ClassifyBy(files, kinds).Unclassified?
    ensures exists i :: 0 <= i < |files| && kinds[i].None? &&
                        ClassifyBy(files, kinds).error == UnknownExtension(files[i]) &&
                        forall j :: 0 <= j < i ==> kinds[j].Some?
  {
    var m := |files| - 1;
    if ClassifyBy(files[..m], kinds[..m]).Unclassified? {
      ClassifyByFirstUnknown(files[..m], kinds[..m]);
      var i :| 0 <= i < m && kinds[..m][i].None? &&
               ClassifyBy(files[..m], kinds[..m]).error == UnknownExtension(files[..m][i]) &&
               forall j :: 0 <= j < i ==> kinds[..m][j].Some?;
      assert files[..m][i] == files[i] && kinds[..m][i] == kinds[i];
      assert forall j :: 0 <= j < i ==> kinds[..m][j] == kinds[j];
    } else {
      ClassifyByCounts(files[..m], kinds[..m]);
      assert forall j :: 0 <= j < m ==> kinds[..m][j] == kinds[j];
    }
  }

  /** The first input with an unknown extension is the one reported. */
  lemma ClassifyReportsFirstUnknown(files: seq<string>)
    requires Classify(files).Unclassified?
    ensures exists i :: 0 <= i < |files| && KindOf(files[i]).None? &&
                        Classify(files).error == UnknownExtension(files[i]) &&
                        forall j :: 0 <= j < i ==> KindOf(files[j]).Some?
  {
    ClassifyByFirstUnknown(files, KindsOf(files));
  }

  /** The name a conversion to assembler output is reported under. */
  function AsmExt(o: Options): string
  {
    if o.asName then ".o" else ".s"
  }

  /** The kind of input a conversion reads. */
  function SourceKind(m: Mode): InputKind
  {
    match m
    case LibToImp => Lib
    case LibToA => Lib
    case ImpToS => Imp
    case ImpToDef => Imp
    case ImpToA => Imp
    case ImpToLib => Imp
    case DefToImp => Def
    case DefToA => Def
    case DefToLib => Def
  }

  /** The extension of the file a conversion writes; assembler output has none. */
  function TargetExt(m: Mode): Option<string>
  {
    match m
    case ImpToS => None
    case LibToImp => Some(".imp")
    case DefToImp => Some(".imp")
    case LibToA => Some(".a")
    case ImpToA => Some(".a")
    case DefToA => Some(".a")
    case ImpToDef => Some(".def")
    case ImpToLib => Some(".lib")
    case DefToLib => Some(".lib")
  }

  predicate ToLib(m: Mode)
  {
    m == ImpToLib || m == DefToLib
  }

  predicate ToArchive(m: Mode)
  {
    m == LibToA || m == ImpToA || m == DefToA
  }

  /** The page size a library output takes from a single `-p` argument, the
      whole of which must be a number of at least 1. */
  function PageSizeOf(predefs: seq<string>): Option<int>
  {
    if predefs == [] then Some(DEFAULT_PAGE_SIZE)
    else if |predefs| > 1 then None
    else
      var (v, end) := Strtol(predefs[0], 0);
      if v < 1 || end != |predefs[0]| then None else Some(v)
  }

  /** The target and its own refusals, from the counts and the output name
      (emximp.c:1112-1171). */
  function PickMode(c: Counts, o: Options): Choice
  {
    if o.output.None? then
      if c.lib != 0 then Refused(CannotConvert(Lib, AsmExt(o)))
      else if c.def != 0 then Refused(CannotConvert(Def, AsmExt(o)))
      else Chosen(Setup(ImpToS, DEFAULT_PAGE_SIZE))
    else
      var ext := ExtOf(o.output.value);
      if ExtIs(ext, ".imp") then
        if c.imp != 0 then Refused(CannotConvert(Imp, ".imp"))
        else if c.lib != 0 then Chosen(Setup(LibToImp, DEFAULT_PAGE_SIZE))
        else Chosen(Setup(DefToImp, DEFAULT_PAGE_SIZE))
      else if ExtIs(ext, ".a") then
        if c.def != 0 then Chosen(Setup(DefToA, DEFAULT_PAGE_SIZE))
        else if c.imp != 0 then Chosen(Setup(ImpToA, DEFAULT_PAGE_SIZE))
        else Chosen(Setup(LibToA, DEFAULT_PAGE_SIZE))
      else if ExtIs(ext, ".def") then
        if c.def != 0 then Refused(CannotConvert(Def, ".def"))
        else if c.lib != 0 then Refused(CannotConvert(Lib, ".def"))
        else Chosen(Setup(ImpToDef, DEFAULT_PAGE_SIZE))
      else if ExtIs(ext, ".lib") then
        if c.lib != 0 then Refused(CannotConvert(Lib, ".lib"))
        else
          var m := if c.def != 0 then DefToLib else ImpToLib;
          match PageSizeOf(o.predefs)
          case None => Refused(Usage)
          case Some(ps) => Chosen(Setup(m, ps))
      else Refused(UnsupportedOutput)
  }

  /** The `-p` arguments left once a library output has taken its page size. */
  function PredefsLeft(m: Mode, o: Options): seq<string>
  {
    if ToLib(m) then [] else o.predefs
  }

  /** The whole choice of emximp.c:1112-1185 for classified inputs. */
  function SelectMode(c: Counts, o: Options): (r: Choice)
  {
    if c.imp == 0 && c.lib == 0 && c.def == 0 then Refused(Usage)
    else if (c.imp != 0 && c.lib != 0) || (c.imp != 0 && c.def != 0) || (c.lib != 0 && c.def != 0) then Refused(MixedInputs)
    else
      match PickMode(c, o)
      case Refused(e) => Refused(e)
      case Chosen(s) =>
        if s.mode != ImpToS && (o.asName || o.optB || o.optS || PredefsLeft(s.mode, o) != []) then Refused(Usage)
        else if o.profile && !ToArchive(s.mode) then Refused(Usage)
        else Chosen(s)
  }

  /** From the inputs and the options to the conversion. */
  function ChooseMode(files: seq<string>, o: Options): Choice
  {
    match Classify(files)
    case Unclassified(e) => Refused(e)
    case Classified(c) => SelectMode(c, o)
  }

  // ---- What the choice guarantees ----

  /** A conversion reads one kind of input, and only inputs of that kind are given. */
  lemma ModeMatchesInputs(c: Counts, o: Options)
    requires SelectMode(c, o).Chosen?
    ensures var m := SelectMode(c, o).setup.mode;
            Count(c, SourceKind(m)) > 0 && forall k :: k != SourceKind(m) ==> Count(c, k) == 0
  {
  }

  /** The conversion writes what the output name asks for: assembler output
      exactly when there is no `-o`, and otherwise the file's extension. */
  lemma ModeMatchesOutput(c: Counts, o: Options)
    requires SelectMode(c, o).Chosen?
    ensures var m := SelectMode(c, o).setup.mode;
            (o.output.None? <==> m == ImpToS) &&
            (o.output.Some? ==> ExtIs(ExtOf(o.output.value), TargetExt(m).value))
  {
  }

  /** `-a`, `-b`, `-s` and `-p` belong to assembler output (a single `-p`
      also sets the page size of a library); `-m` belongs to archives. */
  lemma OptionsFitMode(c: Counts, o: Options)
    requires SelectMode(c, o).Chosen?
    ensures var m := SelectMode(c, o).setup.mode;
            (m != ImpToS ==> !o.asName && !o.optB && !o.optS && (o.predefs == [] || ToLib(m))) &&
            (o.profile ==> ToArchive(m))
  {
  }

  /** The page size is 16 unless a library output got one from `-p`, in
      which case it is the whole `-p` argument read as a number, at least 1. */
  lemma PageSizeChoice(c: Counts, o: Options)
    requires SelectMode(c, o).Chosen?
    ensures var s := SelectMode(c, o).setup;
            (!ToLib(s.mode) || o.predefs == [] ==> s.pageSize == DEFAULT_PAGE_SIZE) &&
            (ToLib(s.mode) && o.predefs != [] ==>
               |o.predefs| == 1 && s.pageSize >= 1 &&
               Strtol(o.predefs[0], 0) == (s.pageSize, |o.predefs[0]|))
  {
  }

  /** The pairs of input kind and output the tool converts between. */
  predicate Supported(k: InputKind, target: Option<string>)
  {
    match target
    case None => k == Imp
    case Some(e) =>
      (e == ".imp" && k != Imp) || e == ".a" || (e == ".def" && k == Imp) || (e == ".lib" && k != Lib)
  }

  /** Inputs of one kind, an output it can be converted to, and no stray
      options: the conversion is chosen, and it is the one for that pair. */
  lemma SupportedPairChosen(c: Counts, o: Options, k: InputKind)
    requires Count(c, k) > 0 && forall k' :: k' != k ==> Count(c, k') == 0
    requires o.output.Some? ==> ExtOf(o.output.value).Some?
    requires var t := if o.output.None? then None else ExtOf(o.output.value);
             t.None? || t.value in {".imp", ".a", ".def", ".lib"}
    requires Supported(k, if o.output.None? then None else ExtOf(o.output.value))
    requires o.output.Some? ==> !o.asName && !o.optB && !o.optS && o.predefs == [] && !o.profile
    requires o.output.None? ==> !o.profile
    ensures SelectMode(c, o).Chosen?
    ensures var m := SelectMode(c, o).setup.mode;
            SourceKind(m) == k && SelectMode(c, o).setup.pageSize == DEFAULT_PAGE_SIZE &&
            (o.output.None? ==> m == ImpToS) &&
            (o.output.Some? ==> TargetExt(m) == ExtOf(o.output.value))
  {
    assert Count(c, Imp) == c.imp && Count(c, Lib) == c.lib && Count(c, Def) == c.def;
    if o.output.Some? {
      var e := ExtOf(o.output.value).value;
      assert EqualsIgnoreCase(e, e);
      if e == ".imp" {
        assert !EqualsIgnoreCase(e, ".a") && !EqualsIgnoreCase(e, ".def");
      } else if e == ".a" {
        assert !EqualsIgnoreCase(e, ".imp");
      } else if e == ".def" {
        assert !EqualsIgnoreCase(e, ".imp") && !EqualsIgnoreCase(e, ".a");
      } else {
        assert !EqualsIgnoreCase(e, ".imp") && !EqualsIgnoreCase(e, ".a") && !EqualsIgnoreCase(e, ".def");
      }
    }
  }
}
