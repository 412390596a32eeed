/** `read_lib` (emximp.c:764-934): walking the records of an OMF import
    library held in memory.

    The library starts with a LIBHDR record whose length field fixes the page
    size, followed by the dictionary offset. The walk visits the records of
    the region before the dictionary one by one: THEADR names the current
    module, an IMPDEF comment describes one import, MODEND is followed by
    padding up to the next page, and LIBEND ends the walk. Any record that
    would need more bytes than the region holds makes the library malformed.

    The model records what the walk does as a list of events: the imports
    it hands on, the "not a pure import library" notices it prints, and the
    module headers it sees. */
module LibReader {
  import opened Common
  import opened Omf

  /** What the walk does on the way. `ModuleHeader` is a THEADR record: it
      prints nothing, but it is the point where the notice is re-armed. */
  datatype LibEvent =
    | ModuleHeader(name: seq<Byte>)
    | Import(entry: ImportEntry)
    | Impure(moduleName: seq<Byte>)

  /** How the walk ends: at LIBEND, or with one of the fatal errors of the source. */
  datatype Outcome = Done | ReadError | NotLibrary | NoMemory | Malformed

  datatype LibScan = LibScan(events: seq<LibEvent>, outcome: Outcome)

  /** The cursor and the two variables the walk carries between records. */
  datatype WalkState = WalkState(i: nat, warned: bool, theadr: seq<Byte>)

  /** What one record does: the walk goes on from a new state, or stops. */
  datatype StepResult =
    | Continue(next: WalkState, emitted: seq<LibEvent>)
    | Stop(emitted: seq<LibEvent>, outcome: Outcome)

  /** A 16-bit little-endian field, as `unsigned short` on the i386. */
  function LE16(buf: seq<Byte>, k: nat): nat
    requires k + 2 <= |buf|
  {
    buf[k] as int + 256 * buf[k + 1] as int
  }

  /** A 32-bit little-endian field read into a `long`: two's complement. */
  function LE32(buf: seq<Byte>, k: nat): int
    requires k + 4 <= |buf|
  {
    var u := buf[k] as int + 256 * buf[k + 1] as int + 65536 * buf[k + 2] as int
             + 16777216 * buf[k + 3] as int;
    if u >= 0x8000_0000 then u - 0x1_0000_0000 else u
  }

  /** EXTDEF, PUBDEF, SEGDEF, COMDEF and COMDAT records, in the variants the
      source lists (emximp.c:902-909): a pure import library has none. */
  predicate IsImpureType(t: Byte)
  {
    t == EXTDEF || t == PUBDEF || t == PUBDEF + REC32 || t == SEGDEF || t == SEGDEF + REC32
    || t == COMDEF || t == COMDAT || t == COMDAT + REC32
  }

  /** One record at cursor `st.i` (emximp.c:811-925). */
  function Step(buf: seq<Byte>, hdrLen: nat, pageSize: nat, quiet: bool, st: WalkState): (r: StepResult)
    requires pageSize >= 1
    // the walk advances past the three-byte record header at least
    ensures r.Continue? ==> st.i + 3 <= |buf| && r.next.i >= st.i + 3
    // only a THEADR record re-arms the notice
    ensures r.Continue? && st.warned && !r.next.warned ==> buf[st.i] == THEADR
    // a notice is printed only when armed and not quiet, and disarms it
    ensures forall e :: e in r.emitted && e.Impure? ==>
              e == Impure(st.theadr) && !quiet && !st.warned && r.Continue? && r.next.warned
    // a record that does not fit the region is malformed
    ensures st.i + 3 > |buf| ==> r == Stop([], Malformed)
    ensures st.i + 3 <= |buf| && st.i + 3 + LE16(buf, st.i + 1) > |buf| ==> r == Stop([], Malformed)
    // the walk stops without error exactly at a LIBEND record that fits
    ensures r.Stop? && r.outcome == Done <==>
              st.i + 3 <= |buf| && st.i + 3 + LE16(buf, st.i + 1) <= |buf| && buf[st.i] == LIBEND
    // the notice never stops the walk
    ensures st.i + 3 <= |buf| && st.i + 3 + LE16(buf, st.i + 1) <= |buf| && IsImpureType(buf[st.i]) ==> r.Continue?
  {
    var i := st.i + 3;
    if i > |buf| then Stop([], Malformed)
    else
      var next := i + LE16(buf, st.i + 1);
      var t := buf[st.i];
      if next > |buf| then Stop([], Malformed)
      else if t == MODEND || t == MODEND + REC32 then
        Continue(st.(i := AlignNext(next, pageSize)), [])
      else if t == THEADR then
        match ReadCounted(buf, i, next)
        case None => Stop([], Malformed)
        case Some((name, _)) => Continue(WalkState(next, false, name), [ModuleHeader(name)])
      else if t == COMENT then ComentStep(buf, i, next, hdrLen, st)
      else if IsImpureType(t) then
        if !quiet && !st.warned then Continue(st.(i := next, warned := true), [Impure(st.theadr)])
        else Continue(st.(i := next), [])
      else if t == LIBEND then Stop([], Done)
      else Continue(st.(i := next), [])
  }

  /** A COMENT record with body from `i` to `next` (emximp.c:833-898): an
      IMPDEF comment hands on its import, a malformed one stops the walk,
      any other comment is passed over. The notice is left as it was. */
  function ComentStep(buf: seq<Byte>, i: nat, next: nat, hdrLen: nat, st: WalkState): (r: StepResult)
    requires next <= |buf|
    ensures r.Stop? <==> DecodeComent(buf, i, next, hdrLen) == BadImpDef
    ensures r.Stop? ==> r == Stop([], Malformed)
    ensures r.Continue? ==> r.next == st.(i := next) &&
                            r.emitted == if DecodeComent(buf, i, next, hdrLen).ImpDef?
                                         then [Import(DecodeComent(buf, i, next, hdrLen).entry)] else []
  {
    match DecodeComent(buf, i, next, hdrLen)
    case NotImpDef => Continue(st.(i := next), [])
    case BadImpDef => Stop([], Malformed)
    case ImpDef(e) => Continue(st.(i := next), [Import(e)])
  }

  /** How far the walk is from running off the region. */
  function Room(buf: seq<Byte>, i: nat): nat
  {
    if i <= |buf| then |buf| - i + 1 else 0
  }

  /** The walk from state `st` to its end. */
  function Walk(buf: seq<Byte>, hdrLen: nat, pageSize: nat, quiet: bool, st: WalkState): LibScan
    requires pageSize >= 1
    decreases Room(buf, st.i)
  {
    match Step(buf, hdrLen, pageSize, quiet, st)
    case Stop(ev, o) => LibScan(ev, o)
    case Continue(st', ev) =>
      var rest := Walk(buf, hdrLen, pageSize, quiet, st');
      LibScan(ev + rest.events, rest.outcome)
  }

  /** One step of the walk, after the events `before`. */
  lemma WalkUnfold(buf: seq<Byte>, hdrLen: nat, pageSize: nat, quiet: bool, st: WalkState,
                   before: seq<LibEvent>)
    requires pageSize >= 1
    ensures var w, s := Walk(buf, hdrLen, pageSize, quiet, st), Step(buf, hdrLen, pageSize, quiet, st);
            s.Stop? ==> w == LibScan(s.emitted, s.outcome)
    ensures var w, s := Walk(buf, hdrLen, pageSize, quiet, st), Step(buf, hdrLen, pageSize, quiet, st);
            s.Continue? ==>
              var rest := Walk(buf, hdrLen, pageSize, quiet, s.next);
              Room(buf, s.next.i) < Room(buf, st.i) && w.outcome == rest.outcome &&
              before + w.events == (before + s.emitted) + rest.events
  {
  }

  /** The library header checks of emximp.c:790-808 and the walk over the
      region before the dictionary. An offset below zero, read into a signed
      `long`, makes the allocation of the buffer fail. */
  function ReadLibSpec(file: seq<Byte>, quiet: bool): LibScan
  {
    if |file| < 3 then LibScan([], ReadError)
    else if file[0] != LIBHDR || LE16(file, 1) < 5 then LibScan([], NotLibrary)
    else if |file| < 7 then LibScan([], ReadError)
    else
      var pos := LE32(file, 3);
      var size := if pos < |file| then pos else |file|;
      if size < 0 then LibScan([], NoMemory)
      else if size == 0 then LibScan([], ReadError)
      else Walk(file[..size], LE16(file, 1), LE16(file, 1) + 3, quiet, WalkState(0, false, []))
  }

  /** A counted string at `k` (a length byte, then that many bytes) that
      must end by `next`: `ok` is false where the source jumps to `bad`. */
  method ReadField(buf: seq<Byte>, k: nat, next: nat) returns (ok: bool, s: seq<Byte>, k': nat)
    requires next <= |buf|
    ensures ok == ReadCounted(buf, k, next).Some?
    ensures ok ==> ReadCounted(buf, k, next).value == (s, k')
  {
    s, k' := [], k;
    if k + 1 > next { return false, s, k'; }
    var n := buf[k];
    k' := k + 1;
    if k' + n > next { return false, s, k'; }
    s := UpToNul(buf[k'..k' + n]);
    k' := k' + n;
    ok := true;
  }

  /** emximp.c:833-875: the IMPDEF comment at `i`, read field by field. */
  method ReadComent(buf: seq<Byte>, i: nat, next: nat, hdrLen: nat) returns (c: Comment)
    requires next <= |buf|
    ensures c == DecodeComent(buf, i, next, hdrLen)
  {
    if !(hdrLen >= 11 && i + 3 <= |buf| && buf[i] == 0x00 && buf[i + 1] == 0xa0 && buf[i + 2] == 0x01) {
      return NotImpDef;
    }
    var ordFlag := if i + 3 < |buf| then buf[i + 3] else 0;
    var ok, funcName, k := ReadField(buf, i + 4, next);
    if !ok { return BadImpDef; }
    var modName;
    ok, modName, k := ReadField(buf, k, next);
    if !ok { return BadImpDef; }
    var sel: Selector;
    if ordFlag == 0 {
      var q := k;
      var procName;
      ok, procName, k := ReadField(buf, k, next);
      if !ok { return BadImpDef; }
      if buf[q] == 0 {
        procName := funcName;
      }
      sel := ByName(BytesToChars(procName));
    } else {
      if k + 2 > next { return BadImpDef; }
      var lo: nat, hi: nat := buf[k], buf[k + 1];
      sel := ByOrdinal(lo + 256 * hi);
      k := k + 2;
    }
    k := k + 1;  // the checksum
    if k != next { return BadImpDef; }
    c := ImpDef(ImportEntry(BytesToChars(funcName), BytesToChars(modName), sel));
  }

  /** emximp.c:811-925: the body of the record loop, for the record at `st.i`. */
  method ReadRecord(buf: seq<Byte>, hdrLen: nat, pageSize: nat, quiet: bool, st: WalkState)
    returns (r: StepResult)
    requires pageSize >= 1
    ensures r == Step(buf, hdrLen, pageSize, quiet, st)
  {
    var i := st.i + 3;
    if i > |buf| {
      return Stop([], Malformed);
    }
    var next := i + LE16(buf, st.i + 1);
    if next > |buf| {
      return Stop([], Malformed);
    }
    var t := buf[st.i];
    if t == MODEND || t == MODEND + REC32 {
      next := PageAlign(next, pageSize);
      r := Continue(st.(i := next), []);
    } else if t == THEADR {
      var ok, name, _ := ReadField(buf, i, next);
      if !ok {
        return Stop([], Malformed);
      }
      r := Continue(WalkState(next, false, name), [ModuleHeader(name)]);
    } else if t == COMENT {
      var c := ReadComent(buf, i, next, hdrLen);
      if c.BadImpDef? {
        r := Stop([], Malformed);
      } else if c.ImpDef? {
        r := Continue(st.(i := next), [Import(c.entry)]);
      } else {
        r := Continue(st.(i := next), []);
      }
    } else if IsImpureType(t) {
      if !quiet && !st.warned {
        r := Continue(st.(i := next, warned := true), [Impure(st.theadr)]);
      } else {
        r := Continue(st.(i := next), []);
      }
    } else if t == LIBEND {
      r := Stop([], Done);
    } else {
      r := Continue(st.(i := next), []);
    }
  }

  /** emximp.c:821-822: the end of a MODEND record, moved on to the next page. */
  method PageAlign(next: nat, pageSize: nat) returns (n: nat)
    requires pageSize >= 1
    ensures n == AlignNext(next, pageSize)
  {
    n := next;
    if BitAnd(next, pageSize - 1) != 0 {
      n := BitOr(next, pageSize - 1) + 1;
    }
  }

  /** emximp.c:809-926: the record loop over the region `buf`, from the
      first record with the notice armed and no module name yet. */
  method WalkLib(buf: seq<Byte>, hdrLen: nat, pageSize: nat, quiet: bool) returns (r: LibScan)
    requires pageSize >= 1
    ensures r == Walk(buf, hdrLen, pageSize, quiet, WalkState(0, false, []))
  {
    var st := WalkState(0, false, []);
    var events: seq<LibEvent> := [];
    ghost var total := Walk(buf, hdrLen, pageSize, quiet, st);
    var more := true;
    r := LibScan([], Done);
    while more
      invariant more ==> total == LibScan(events + Walk(buf, hdrLen, pageSize, quiet, st).events,
                                          Walk(buf, hdrLen, pageSize, quiet, st).outcome)
      invariant !more ==> total == r
      decreases more, Room(buf, st.i)
    {
      var step := ReadRecord(buf, hdrLen, pageSize, quiet, st);
      WalkUnfold(buf, hdrLen, pageSize, quiet, st, events);
      if step.Stop? {
        r := LibScan(events + step.emitted, step.outcome);
        more := false;
      } else {
        events := events + step.emitted;
        st := step.next;
      }
    }
  }

  /** emximp.c:788-934, with the file's contents as input. */
  method ReadLib(file: seq<Byte>, quiet: bool) returns (r: LibScan)
    ensures r == ReadLibSpec(file, quiet)
  {
    if |file| < 3 {
      return LibScan([], ReadError);
    }
    var recType, recLength := file[0], LE16(file, 1);
    if recType != LIBHDR || recLength < 5 {
      return LibScan([], NotLibrary);
    }
    var pageSize := recLength + 3;
    if |file| < 7 {
      return LibScan([], ReadError);
    }
    var pos := LE32(file, 3);
    var size: int := |file|;
    if pos < size {
      size := pos;
    }
    if size < 0 {
      return LibScan([], NoMemory);
    }
    if size == 0 {
      return LibScan([], ReadError);
    }
    r := WalkLib(file[..size], recLength, pageSize, quiet);
  }

  // ---- Properties of the walk ----

  predicate NoNotices(ev: seq<LibEvent>)
  {
    forall k :: 0 <= k < |ev| ==> !ev[k].Impure?
  }

  /** With -q the walk prints no notice at all. */
  lemma {:induction false} QuietNoNotices(buf: seq<Byte>, hdrLen: nat, pageSize: nat, st: WalkState)
    requires pageSize >= 1
    ensures NoNotices(Walk(buf, hdrLen, pageSize, true, st).events)
    decreases Room(buf, st.i)
  {
    var step := Step(buf, hdrLen, pageSize, true, st);
    if step.Continue? {
      QuietNoNotices(buf, hdrLen, pageSize, step.next);
      var rest := Walk(buf, hdrLen, pageSize, true, step.next).events;
      var ev := Walk(buf, hdrLen, pageSize, true, st).events;
      assert ev == step.emitted + rest;
      forall k | 0 <= k < |ev|
        ensures !ev[k].Impure?
      {
        if k >= |step.emitted| {
          assert ev[k] == rest[k - |step.emitted|];
        } else {
          assert ev[k] == step.emitted[k];
          assert step.emitted[k] in step.emitted;
        }
      }
    }
  }

  /** The notices of an event list, read left to right: a module header
      re-arms the notice and names the module, a notice needs it armed,
      names the current module and disarms it. */
  predicate NoticesOk(ev: seq<LibEvent>, warned: bool, theadr: seq<Byte>)
    decreases |ev|
  {
    |ev| == 0 ||
    match ev[0]
    case ModuleHeader(n) => NoticesOk(ev[1..], false, n)
    case Import(_) => NoticesOk(ev[1..], warned, theadr)
    case Impure(n) => !warned && n == theadr && NoticesOk(ev[1..], true, theadr)
  }

  lemma NoticesOkAppend(ev: seq<LibEvent>, rest: seq<LibEvent>, w: bool, t: seq<Byte>, w': bool, t': seq<Byte>)
    requires |ev| <= 1
    requires ev == [] ==> w' == w && t' == t
    requires |ev| == 1 && ev[0].ModuleHeader? ==> !w' && t' == ev[0].name
    requires |ev| == 1 && ev[0].Import? ==> w' == w && t' == t
    requires |ev| == 1 && ev[0].Impure? ==> !w && ev[0].moduleName == t && w' && t' == t
    requires NoticesOk(rest, w', t')
    ensures NoticesOk(ev + rest, w, t)
  {
    if |ev| == 0 {
      assert ev + rest == rest;
    } else {
      assert (ev + rest)[0] == ev[0] && (ev + rest)[1..] == rest;
    }
  }

  /** The walk's notices follow `NoticesOk` from its state on. */
  lemma {:induction false} WalkNoticesOk(buf: seq<Byte>, hdrLen: nat, pageSize: nat, quiet: bool, st: WalkState)
    requires pageSize >= 1
    ensures NoticesOk(Walk(buf, hdrLen, pageSize, quiet, st).events, st.warned, st.theadr)
    decreases Room(buf, st.i)
  {
    var step := Step(buf, hdrLen, pageSize, quiet, st);
    if step.Continue? {
      WalkNoticesOk(buf, hdrLen, pageSize, quiet, step.next);
      var rest := Walk(buf, hdrLen, pageSize, quiet, step.next).events;
      NoticesOkAppend(step.emitted, rest, st.warned, st.theadr, step.next.warned, step.next.theadr);
    }
  }

  /** A module header stands somewhere in `ev[lo..hi]`. */
  predicate HeaderBetween(ev: seq<LibEvent>, lo: nat, hi: nat)
  {
    exists m :: lo <= m < hi && m < |ev| && ev[m].ModuleHeader?
  }

  /** What `NoticesOk` means: between two notices there is a module header,
      and while the notice is disarmed none comes before the first header. */
  lemma {:induction false} NoticesOkOnce(ev: seq<LibEvent>, w: bool, t: seq<Byte>)
    requires NoticesOk(ev, w, t)
    ensures w ==> forall k :: 0 <= k < |ev| && ev[k].Impure? ==> HeaderBetween(ev, 0, k)
    ensures forall j, k :: 0 <= j < k < |ev| && ev[j].Impure? && ev[k].Impure? ==> HeaderBetween(ev, j + 1, k)
    decreases |ev|
  {
    if |ev| > 0 {
      var tail := ev[1..];
      var w' := if ev[0].ModuleHeader? then false else if ev[0].Import? then w else true;
      var t' := if ev[0].ModuleHeader? then ev[0].name else t;
      NoticesOkOnce(tail, w', t');
      if w {
        forall k | 0 <= k < |ev| && ev[k].Impure?
          ensures HeaderBetween(ev, 0, k)
        {
          if ev[0].ModuleHeader? {
            assert 0 < k;
          } else {
            assert ev[k] == tail[k - 1];
            var m :| 0 <= m < k - 1 && tail[m].ModuleHeader?;
            assert ev[m + 1] == tail[m];
          }
        }
      }
      forall j, k | 0 <= j < k < |ev| && ev[j].Impure? && ev[k].Impure?
        ensures HeaderBetween(ev, j + 1, k)
      {
        assert ev[k] == tail[k - 1];
        if j == 0 {
          var m :| 0 <= m < k - 1 && tail[m].ModuleHeader?;
          assert ev[m + 1] == tail[m];
        } else {
          assert ev[j] == tail[j - 1];
          var m :| j <= m < k - 1 && m < |tail| && tail[m].ModuleHeader?;
          assert ev[m + 1] == tail[m];
        }
      }
    }
  }

  /** The notice fires at most once per module: over the whole walk, two
      notices always have a THEADR record between them. */
  lemma NoticeOncePerModule(buf: seq<Byte>, hdrLen: nat, pageSize: nat, quiet: bool)
    requires pageSize >= 1
    ensures var ev := Walk(buf, hdrLen, pageSize, quiet, WalkState(0, false, [])).events;
            forall j, k :: 0 <= j < k < |ev| && ev[j].Impure? && ev[k].Impure? ==> HeaderBetween(ev, j + 1, k)
  {
    var st := WalkState(0, false, []);
    WalkNoticesOk(buf, hdrLen, pageSize, quiet, st);
    NoticesOkOnce(Walk(buf, hdrLen, pageSize, quiet, st).events, false, []);
  }

  /** After a MODEND record the cursor moves to the next page boundary, or
      stays on the record end when it is one (page sizes that are powers of two). */
  lemma ModendAligns(buf: seq<Byte>, hdrLen: nat, pageSize: nat, quiet: bool, st: WalkState)
    requires pageSize >= 1 && IsPowerOfTwo(pageSize)
    requires st.i + 3 <= |buf| && st.i + 3 + LE16(buf, st.i + 1) <= |buf|
    requires buf[st.i] == MODEND || buf[st.i] == MODEND + REC32
    ensures var r, end := Step(buf, hdrLen, pageSize, quiet, st), st.i + 3 + LE16(buf, st.i + 1);
            r.Continue? && r.emitted == [] && r.next.i % pageSize == 0 &&
            end <= r.next.i < end + pageSize && (end % pageSize == 0 ==> r.next.i == end)
  {
    AlignNextRoundsUp(st.i + 3 + LE16(buf, st.i + 1), pageSize);
  }

  /** The count byte at `p` and the bytes it counts end by `next`: the two
      bound checks `read_lib` makes before copying a counted string. */
  predicate CountedFits(buf: seq<Byte>, p: nat, next: nat)
  {
    p + 1 <= next <= |buf| && p + 1 + buf[p] <= next
  }

  /** A THEADR record (emximp.c:825-831): a name whose count runs past the
      record end makes the library malformed; otherwise the name becomes the
      module's, the notice is re-armed and the walk goes on after the record. */
  lemma TheadrName(buf: seq<Byte>, hdrLen: nat, pageSize: nat, quiet: bool, st: WalkState)
    requires pageSize >= 1
    requires st.i + 3 <= |buf| && st.i + 3 + LE16(buf, st.i + 1) <= |buf| && buf[st.i] == THEADR
    ensures var next := st.i + 3 + LE16(buf, st.i + 1);
            !CountedFits(buf, st.i + 3, next) ==> Step(buf, hdrLen, pageSize, quiet, st) == Stop([], Malformed)
    ensures var next, n := st.i + 3 + LE16(buf, st.i + 1), if st.i + 3 < |buf| then buf[st.i + 3] else 0;
            CountedFits(buf, st.i + 3, next) ==>
              var name := UpToNul(buf[st.i + 4..st.i + 4 + n]);
              Step(buf, hdrLen, pageSize, quiet, st) == Continue(WalkState(next, false, name), [ModuleHeader(name)])
  {
  }

  /** A COMENT record that fits the region and carries the IMPDEF signature
      (emximp.c:834-835), `hdrLen` being the LIBHDR length the source tests. */
  predicate ImpDefAt(buf: seq<Byte>, hdrLen: nat, st: WalkState)
  {
    st.i + 7 <= |buf| && st.i + 3 + LE16(buf, st.i + 1) <= |buf| && buf[st.i] == COMENT &&
    hdrLen >= 11 && buf[st.i + 3] == 0x00 && buf[st.i + 4] == 0xa0 && buf[st.i + 5] == 0x01
  }

  /** One of the fields of an IMPDEF comment whose body starts at `i` runs
      past the record end `next`: the function name, the module name, or,
      by the ordinal flag, the entry name or the two ordinal bytes
      (emximp.c:839-873). */
  predicate FieldOverrun(buf: seq<Byte>, i: nat, next: nat)
    requires i + 4 <= |buf|
  {
    var p := i + 4;
    !CountedFits(buf, p, next) ||
    var q := p + 1 + buf[p];
    !CountedFits(buf, q, next) ||
    var r := q + 1 + buf[q];
    if buf[i + 3] == 0 then !CountedFits(buf, r, next) else r + 2 > next
  }

  /** An IMPDEF comment with a field past the record end makes the library
      malformed. */
  lemma ImpDefFieldOverrun(buf: seq<Byte>, hdrLen: nat, pageSize: nat, quiet: bool, st: WalkState)
    requires pageSize >= 1 && ImpDefAt(buf, hdrLen, st)
    requires FieldOverrun(buf, st.i + 3, st.i + 3 + LE16(buf, st.i + 1))
    ensures Step(buf, hdrLen, pageSize, quiet, st) == Stop([], Malformed)
  {
    var next := st.i + 3 + LE16(buf, st.i + 1);
    ImpDefFieldsBad(buf, st.i + 3, next, hdrLen);
    BadComentStops(buf, hdrLen, pageSize, quiet, st, next);
  }

  /** The same at the level of the comment's decoding. */
  lemma ImpDefFieldsBad(buf: seq<Byte>, i: nat, next: nat, hdrLen: nat)
    requires next <= |buf| && i + 4 <= |buf| && hdrLen >= 11
    requires buf[i] == 0x00 && buf[i + 1] == 0xa0 && buf[i + 2] == 0x01
    requires FieldOverrun(buf, i, next)
    ensures DecodeComent(buf, i, next, hdrLen) == BadImpDef
  {
    var p := i + 4;
    if CountedFits(buf, p, next) {
      ReadCountedAt(buf, p, next);
      var q := p + 1 + buf[p];
      if CountedFits(buf, q, next) {
        ReadCountedAt(buf, q, next);
      }
    }
  }

  /** A COMENT record that decodes as a bad IMPDEF stops the walk. */
  lemma BadComentStops(buf: seq<Byte>, hdrLen: nat, pageSize: nat, quiet: bool, st: WalkState, next: nat)
    requires pageSize >= 1
    requires st.i + 3 <= |buf| && next == st.i + 3 + LE16(buf, st.i + 1) && next <= |buf| && buf[st.i] == COMENT
    requires DecodeComent(buf, st.i + 3, next, hdrLen) == BadImpDef
    ensures Step(buf, hdrLen, pageSize, quiet, st) == Stop([], Malformed)
  {
    var t := buf[st.i];
    assert t != MODEND && t != MODEND + REC32 && t != THEADR;
    assert ComentStep(buf, st.i + 3, next, hdrLen, st) == Stop([], Malformed);
  }

  /** A counted string that fits before one record end reads the same
      before any later one. */
  lemma ReadCountedLater(buf: seq<Byte>, p: nat, next: nat, next': nat)
    requires next <= next' <= |buf|
    requires ReadCounted(buf, p, next).Some?
    ensures ReadCounted(buf, p, next') == ReadCounted(buf, p, next)
  {
  }

  /** An IMPDEF comment decodes for exactly one record end: with any other
      declared length the sub-record does not end where the record does. */
  lemma {:induction false} ImpDefExactLength(buf: seq<Byte>, i: nat, next: nat, next': nat, hdrLen: nat)
    requires next <= |buf| && next' <= |buf| && next' != next
    requires DecodeComent(buf, i, next, hdrLen).ImpDef?
    ensures DecodeComent(buf, i, next', hdrLen) == BadImpDef
  {
    var lo, hi := if next < next' then next else next', if next < next' then next' else next;
    var f := ReadCounted(buf, i + 4, next);
    if ReadCounted(buf, i + 4, lo).Some? {
      ReadCountedLater(buf, i + 4, lo, hi);
      var p := f.value.1;
      if ReadCounted(buf, p, lo).Some? {
        ReadCountedLater(buf, p, lo, hi);
        var q := ReadCounted(buf, p, next).value.1;
        if ReadCounted(buf, q, lo).Some? {
          ReadCountedLater(buf, q, lo, hi);
        }
      }
    }
  }
}
