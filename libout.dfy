/** What `read_lib` writes for one library file: in LIB_TO_IMP a comment
    line naming the file (emximp.c:784-785) and then, for each import it
    finds (emximp.c:876-898), a line of `.imp` text; in LIB_TO_A a call of
    `write_a_import` per import, by ordinal or, with ordinal -1, by name. */
module LibOutput {
  import opened Common
  import opened Modes
  import opened Omf
  import opened LibReader
  import opened ImpParse
  import opened AImport
  import opened ImpRead

  datatype LibOut = ImpText(line: string) | ACall(call: WriterCall)

  predicate FromLib(mode: Mode)
  {
    mode == LibToImp || mode == LibToA
  }

  /** The output for one import. */
  function LibImportOut(mode: Mode, e: ImportEntry): LibOut
    requires FromLib(mode)
  {
    if mode == LibToImp then ImpText(LibImpLine(e))
    else match e.sel
      case ByOrdinal(o) => ACall(AImportCall(e.func, e.modName, o, None))
      case ByName(n) => ACall(AImportCall(e.func, e.modName, -1, Some(n)))
  }

  /** The imports among the events of a walk. */
  function Imports(events: seq<LibEvent>): seq<ImportEntry>
  {
    if events == [] then []
    else (if events[0].Import? then [events[0].entry] else []) + Imports(events[1..])
  }

  /** The outputs of a walk, one per import, in order. */
  function LibOutputs(mode: Mode, events: seq<LibEvent>): seq<LibOut>
    requires FromLib(mode)
  {
    if events == [] then []
    else (if events[0].Import? then [LibImportOut(mode, events[0].entry)] else []) + LibOutputs(mode, events[1..])
  }

  /** The comment line that opens the `.imp` text of a library file. */
  function FileBanner(fname: string): string
  {
    "; -------- " + fname + " --------"
  }

  /** The output for one library file and the events of its walk. The
      banner is written before the file is opened, so a file that turns out
      malformed has it too. */
  function LibFileOutputs(mode: Mode, fname: string, events: seq<LibEvent>): seq<LibOut>
    requires FromLib(mode)
  {
    (if mode == LibToImp then [ImpText(FileBanner(fname))] else []) + LibOutputs(mode, events)
  }

  /** In LIB_TO_IMP the file's output is the banner and then one line per
      import; the banner is a comment, which `read_imp` skips when the text
      is read back. In LIB_TO_A there is no banner, only the calls. */
  lemma FileOutputsShape(mode: Mode, fname: string, events: seq<LibEvent>, ctx: Context)
    requires FromLib(mode)
    ensures var out := LibFileOutputs(mode, fname, events);
            mode == LibToImp ==>
              |out| == 1 + |Imports(events)| && out[0] == ImpText(FileBanner(fname)) &&
              LineSpec(FileBanner(fname), ctx) == Skip &&
              forall k :: 0 <= k < |Imports(events)| ==> out[k + 1] == LibImportOut(mode, Imports(events)[k])
    ensures mode == LibToA ==> LibFileOutputs(mode, fname, events) == LibOutputs(mode, events)
  {
    OneOutputPerImport(mode, events);
    var line := FileBanner(fname);
    assert line[0] == ';';
    assert SkipSpaces(line, 0) == 0;
    SkippedLines(line, ctx);
  }

  /** Each import of the walk gives exactly its own output, in order. */
  lemma {:induction false} OneOutputPerImport(mode: Mode, events: seq<LibEvent>)
    requires FromLib(mode)
    ensures |LibOutputs(mode, events)| == |Imports(events)|
    ensures forall k :: 0 <= k < |Imports(events)| ==>
              LibOutputs(mode, events)[k] == LibImportOut(mode, Imports(events)[k])
    decreases |events|
  {
    if events != [] {
      OneOutputPerImport(mode, events[1..]);
      var out, imps := LibOutputs(mode, events[1..]), Imports(events[1..]);
      if events[0].Import? {
        assert LibOutputs(mode, events) == [LibImportOut(mode, events[0].entry)] + out;
        assert Imports(events) == [events[0].entry] + imps;
      } else {
        assert LibOutputs(mode, events) == [] + out && [] + out == out;
        assert Imports(events) == [] + imps && [] + imps == imps;
      }
    }
  }

  /** A LIB_TO_A call meets the demand of `write_a_import` on the ordinal,
      and its import symbol names the module and the ordinal or the export
      name the library holds. */
  lemma LibACallTarget(profile: bool, e: ImportEntry)
    requires e.sel.ByOrdinal? ==> e.sel.ordinal < 65536
    ensures var c := LibImportOut(LibToA, e).call;
            (c.procName.None? ==> 0 <= c.ordinal < 65536) &&
            var names := ImportNames(profile, c.func, c.modName, c.ordinal, c.procName);
            |names| >= 2 &&
            names[|names| - 1] == ImportSymbol(profile, e.func) + "=" + e.modName + "." +
              (match e.sel case ByOrdinal(o) => IntToDecimal(o) case ByName(n) => n)
  {
    var c := LibImportOut(LibToA, e).call;
    TwoImportSymbols(profile, c.func, c.modName, c.ordinal, c.procName);
  }

  /** Going from `.imp` to a library and from the library to an archive
      makes the same `write_a_import` call as going from `.imp` to an
      archive directly. */
  lemma ViaLibrarySameCall(e: ImpEntry, buf: seq<Byte>, i: nat, next: nat, hdrLen: nat)
    requires CallReady(LibImportOf(e))
    requires Storable(e.func) && Storable(e.modName) && Storable(e.name) && hdrLen >= 11
    requires var P := ImpDefPayload(e.func, e.modName, e.ord, e.name);
             next == i + |P| + 1 && next <= |buf| && buf[i..i + |P|] == P
    ensures DecodeComent(buf, i, next, hdrLen).ImpDef?
    ensures LibImportOut(LibToA, DecodeComent(buf, i, next, hdrLen).entry) == ACall(AImportOf(e))
  {
    LibImportCallDecodes(LibImportOf(e), buf, i, next, hdrLen);
  }
}
