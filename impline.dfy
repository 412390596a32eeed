/** The `.imp` format: one import per line. `read_imp` parses each line
    (emximp.c:352-462) into the function name, the module, an ordinal or an
    export name and the calling convention; `read_lib` writes such lines when
    it converts a library (emximp.c:878-886). */
module ImpParse {
  import opened Common
  import opened Modes
  import opened Omf

  /** Calling conventions stored in place of an argument count (emximp.c:48-49). */
  const PARMS_REG: int := -1
  const PARMS_FAR16: int := -2

  /** One accepted descriptor line: an ordinal in 1..65535 with an empty
      `name`, or the ordinal -1 and the export name; `parms` is an argument
      count in 0..255, `PARMS_REG` or `PARMS_FAR16`. */
  datatype ImpEntry = ImpEntry(func: string, modName: string, ord: int, name: string, parms: int)

  /** The two warnings a descriptor line can draw in assembler mode. */
  datatype LineWarning = UnknownArgs | Far16

  /** The fatal errors of emximp.c:363-462, one per message. */
  datatype ParseError =
    | OutputNameWithB | InvalidFileName | NoOutputFile | ModuleNameExpected
    | NameOrOrdinalExpected | InvalidOrdinal | ExternalNameWithB | ParmsExpected
    | FunctionNameTooLong | InvalidParms | TrailingChars

  /** What one line does: nothing, names the next assembler output file,
      describes an import, or stops the program. */
  datatype LineResult =
    | Skip
    | NewOutput(fname: string)
    | Entry(entry: ImpEntry, warning: Option<LineWarning>)
    | Failed(error: ParseError)

  /** What the parse depends on besides the line: the mode, `-b`, `-s`, and
      whether an output file is open. */
  datatype Context = Context(mode: Mode, optB: bool, optS: bool, outputOpen: bool)

  /** A field of a line: at least one character, none of them a delimiter. */
  predicate IsToken(s: string)
  {
    |s| >= 1 && forall i :: 0 <= i < |s| ==> !IsDelim(s[i])
  }

  /** The end of the field starting at p: the first delimiter at or after p. */
  function TokenEnd(s: string, p: nat): (q: nat)
    requires p <= |s|
    ensures p <= q <= |s| && IsDelim(At(s, q))
    ensures forall k :: p <= k < q ==> !IsDelim(s[k])
    decreases |s| - p
  {
    if p < |s| && !IsDelim(s[p]) then TokenEnd(s, p + 1) else p
  }

  /** Nothing but a comment (or nothing) at p. */
  predicate AtLineEnd(s: string, p: nat)
  {
    At(s, p) == '\0' || At(s, p) == ';'
  }

  /** What `read_imp` makes of one line (its newline removed). */
  function LineSpec(line: string, ctx: Context): LineResult
  {
    var p := SkipSpaces(line, 0);
    if At(line, p) == '+' then
      if ctx.mode != ImpToS then Skip
      else if ctx.optB then Failed(OutputNameWithB)
      else
        var a := SkipSpaces(line, p + 1);
        var b := TokenEnd(line, a);
        if AtLineEnd(line, SkipSpaces(line, b)) then NewOutput(line[a..b]) else Failed(InvalidFileName)
    else if AtLineEnd(line, p) then Skip
    else if !ctx.optB && !ctx.outputOpen && ctx.mode != ImpToLib then Failed(NoOutputFile)
    else EntrySpec(line, p, ctx)
  }

  /** The descriptor fields from p on: function, module, then an ordinal or
      an export name. The check for a missing function name at
      emximp.c:386-387 cannot fail, as the line has a non-blank, non-comment
      character at p, so it has no case here. */
  function EntrySpec(line: string, p: nat, ctx: Context): LineResult
    requires p <= |line|
  {
    var f := TokenEnd(line, p);
    var m := SkipSpaces(line, f);
    if IsDelim(At(line, m)) then Failed(ModuleNameExpected)
    else
      var n := TokenEnd(line, m);
      var x := SkipSpaces(line, n);
      if IsDelim(At(line, x)) then Failed(NameOrOrdinalExpected)
      else if IsDigit(At(line, x)) then
        var (ord, e) := Strtol(line, x);
        if ord < 1 || ord > 65535 || !IsDelim(At(line, e)) then Failed(InvalidOrdinal)
        else ParmsSpec(line, e, ctx, line[p..f], line[m..n], ord, "")
      else if ctx.optB && !ctx.optS then Failed(ExternalNameWithB)
      else
        var e := TokenEnd(line, x);
        ParmsSpec(line, e, ctx, line[p..f], line[m..n], -1, line[x..e])
  }

  /** The calling convention (emximp.c:421-458). */
  function ParmsSpec(line: string, p: nat, ctx: Context, func: string, modName: string,
                     ord: int, name: string): LineResult
    requires p <= |line|
  {
    var a := SkipSpaces(line, p);
    var c := At(line, a);
    if IsDelim(c) then Failed(ParmsExpected)
    else if c == '?' then
      FinishSpec(line, a + 1, ImpEntry(func, modName, ord, name, 0),
                 if ctx.mode == ImpToS then Some(UnknownArgs) else None)
    else if c == 'R' then
      FinishSpec(line, a + 1, ImpEntry(func, modName, ord, name, PARMS_REG), None)
    else if c == 'F' then
      if |func| + 4 >= 256 then Failed(FunctionNameTooLong)
      else FinishSpec(line, a + 1, ImpEntry(FAR16_PREFIX + func, modName, ord, name, PARMS_FAR16),
                      if ctx.mode == ImpToS then Some(Far16) else None)
    else
      var (n, e) := Strtol(line, a);
      if n < 0 || n > 255 || !IsDelim(At(line, e)) then Failed(InvalidParms)
      else FinishSpec(line, e, ImpEntry(func, modName, ord, name, n), None)
  }

  /** Only blanks and a comment may follow (emximp.c:459-462). */
  function FinishSpec(line: string, p: nat, e: ImpEntry, w: Option<LineWarning>): LineResult
    requires p <= |line|
  {
    if AtLineEnd(line, SkipSpaces(line, p)) then Entry(e, w) else Failed(TrailingChars)
  }

  // ---- The scanner of read_imp ----

  /** `while (isspace (*p)) ++p;` */
  method SkipBlanks(s: string, p: nat) returns (q: nat)
    requires p <= |s|
    ensures q == SkipSpaces(s, p)
  {
    q := p;
    while q < |s| && IsSpace(s[q])
      invariant p <= q <= |s| && SkipSpaces(s, q) == SkipSpaces(s, p)
      decreases |s| - q
    {
      q := q + 1;
    }
  }

  /** `while (!DELIM (*p)) *q++ = *p++;` */
  method CopyToken(s: string, p: nat) returns (tok: string, q: nat)
    requires p <= |s|
    ensures q == TokenEnd(s, p) && tok == s[p..q]
  {
    tok := [];
    q := p;
    while !IsDelim(At(s, q))
      invariant p <= q <= |s| && TokenEnd(s, q) == TokenEnd(s, p) && tok == s[p..q]
      decreases |s| - q
    {
      tok := tok + [s[q]];
      q := q + 1;
    }
  }

  /** The body of the loop of emximp.c:352-462 for one line. */
  method ParseLine(line: string, ctx: Context) returns (r: LineResult)
    ensures r == LineSpec(line, ctx)
  {
    var p := SkipBlanks(line, 0);
    if At(line, p) == '+' {
      if ctx.mode == ImpToS {
        if ctx.optB {
          return Failed(OutputNameWithB);
        }
        p := SkipBlanks(line, p + 1);
        var fname, q := CopyToken(line, p);
        q := SkipBlanks(line, q);
        if !AtLineEnd(line, q) {
          return Failed(InvalidFileName);
        }
        return NewOutput(fname);
      }
      return Skip;
    } else if At(line, p) == '\0' || At(line, p) == ';' {
      return Skip;
    }
    if !ctx.optB && !ctx.outputOpen && ctx.mode != ImpToLib {
      return Failed(NoOutputFile);
    }
    r := ParseEntry(line, p, ctx);
  }

  method ParseEntry(line: string, p: nat, ctx: Context) returns (r: LineResult)
    requires p <= |line|
    ensures r == EntrySpec(line, p, ctx)
  {
    var func, q := CopyToken(line, p);
    q := SkipBlanks(line, q);
    if IsDelim(At(line, q)) {
      return Failed(ModuleNameExpected);
    }
    var m := q;
    var modName;
    modName, q := CopyToken(line, q);
    var n := q;
    q := SkipBlanks(line, q);
    if IsDelim(At(line, q)) {
      return Failed(NameOrOrdinalExpected);
    }
    assert func == line[p..TokenEnd(line, p)] && modName == line[m..n];
    if IsDigit(At(line, q)) {
      var ord, e := Strtol(line, q).0, Strtol(line, q).1;
      if ord < 1 || ord > 65535 || !IsDelim(At(line, e)) {
        return Failed(InvalidOrdinal);
      }
      r := ParseParms(line, e, ctx, func, modName, ord, "");
    } else {
      if ctx.optB && !ctx.optS {
        return Failed(ExternalNameWithB);
      }
      var name;
      name, q := CopyToken(line, q);
      r := ParseParms(line, q, ctx, func, modName, -1, name);
    }
  }

  method ParseParms(line: string, p: nat, ctx: Context, func: string, modName: string,
                    ord: int, name: string) returns (r: LineResult)
    requires p <= |line|
    ensures r == ParmsSpec(line, p, ctx, func, modName, ord, name)
  {
    var q := SkipBlanks(line, p);
    var c := At(line, q);
    if IsDelim(c) {
      return Failed(ParmsExpected);
    }
    var parms: int;
    var w: Option<LineWarning> := None;
    var fname := func;
    if c == '?' {
      q := q + 1;
      parms := 0;
      if ctx.mode == ImpToS {
        w := Some(UnknownArgs);
      }
    } else if c == 'R' {
      q := q + 1;
      parms := PARMS_REG;
    } else if c == 'F' {
      q := q + 1;
      parms := PARMS_FAR16;
      if ctx.mode == ImpToS {
        w := Some(Far16);
      }
      if |func| + 4 >= 256 {
        return Failed(FunctionNameTooLong);
      }
      fname := FAR16_PREFIX + func;
    } else {
      parms, q := Strtol(line, q).0, Strtol(line, q).1;
      if parms < 0 || parms > 255 || !IsDelim(At(line, q)) {
        return Failed(InvalidParms);
      }
    }
    q := SkipBlanks(line, q);
    if !AtLineEnd(line, q) {
      return Failed(TrailingChars);
    }
    r := Entry(ImpEntry(fname, modName, ord, name, parms), w);
  }

  // ---- What an accepted line looks like ----

  /** A line is skipped exactly when, after blanks, it is empty or a
      comment, or when it names an output file outside assembler mode. */
  lemma SkippedLines(line: string, ctx: Context)
    ensures var p := SkipSpaces(line, 0);
            LineSpec(line, ctx) == Skip <==>
              AtLineEnd(line, p) || (At(line, p) == '+' && ctx.mode != ImpToS)
  {
    var p := SkipSpaces(line, 0);
    if !AtLineEnd(line, p) && At(line, p) != '+' &&
       (ctx.optB || ctx.outputOpen || ctx.mode == ImpToLib) {
      EntryNeverSkips(line, p, ctx);
    }
  }

  lemma EntryNeverSkips(line: string, p: nat, ctx: Context)
    requires p <= |line|
    ensures EntrySpec(line, p, ctx) != Skip
  {
    var f := TokenEnd(line, p);
    var m := SkipSpaces(line, f);
    if !IsDelim(At(line, m)) {
      var n := TokenEnd(line, m);
      var x := SkipSpaces(line, n);
      if !IsDelim(At(line, x)) {
        if IsDigit(At(line, x)) {
          var (ord, e) := Strtol(line, x);
          if !(ord < 1 || ord > 65535 || !IsDelim(At(line, e))) {
            ParmsNeverSkip(line, e, ctx, line[p..f], line[m..n], ord, "");
          }
        } else if !(ctx.optB && !ctx.optS) {
          var e := TokenEnd(line, x);
          ParmsNeverSkip(line, e, ctx, line[p..f], line[m..n], -1, line[x..e]);
        }
      }
    }
  }

  lemma ParmsNeverSkip(line: string, p: nat, ctx: Context, func: string, modName: string,
                       ord: int, name: string)
    requires p <= |line|
    ensures ParmsSpec(line, p, ctx, func, modName, ord, name) != Skip
  {
  }

  /** The field starting at p is a token when p holds no delimiter. */
  lemma TokenField(s: string, p: nat)
    requires p <= |s| && !IsDelim(At(s, p))
    ensures IsToken(s[p..TokenEnd(s, p)])
  {
    var q := TokenEnd(s, p);
    assert p < |s| && TokenEnd(s, p) == TokenEnd(s, p + 1);
    forall i | 0 <= i < q - p
      ensures !IsDelim(s[p..q][i])
    {
      assert s[p..q][i] == s[p + i];
    }
  }

  /** The shape of a line `read_imp` accepts: the module is a token; an
      ordinal is in 1..65535 with no export name, or else the ordinal is -1
      and the export name is a token not starting with a digit, refused
      under `-b` without `-s`; the argument count is in 0..255, or `R`, or
      `F`, which puts "_16_" before a function name that fits the buffer;
      an output file is open unless `-b` or a library output stands in for
      it; and the warnings come only in assembler mode. */
  lemma AcceptedShape(line: string, ctx: Context)
    requires LineSpec(line, ctx).Entry?
    ensures var e, w := LineSpec(line, ctx).entry, LineSpec(line, ctx).warning;
            IsToken(e.modName) &&
            ((1 <= e.ord <= 65535 && e.name == "") ||
             (e.ord == -1 && IsToken(e.name) && !IsDigit(e.name[0]) && (!ctx.optB || ctx.optS))) &&
            (0 <= e.parms <= 255 || e.parms == PARMS_REG || e.parms == PARMS_FAR16) &&
            (e.parms == PARMS_FAR16 ==> HasFar16Prefix(e.func) && IsToken(e.func[4..]) && |e.func| < 256) &&
            (e.parms != PARMS_FAR16 ==> IsToken(e.func)) &&
            (ctx.optB || ctx.outputOpen || ctx.mode == ImpToLib) &&
            (w == Some(Far16) <==> ctx.mode == ImpToS && e.parms == PARMS_FAR16) &&
            (w == Some(UnknownArgs) ==> ctx.mode == ImpToS && e.parms == 0)
  {
    var p := SkipSpaces(line, 0);
    assert LineSpec(line, ctx) == EntrySpec(line, p, ctx);
    EntryShape(line, p, ctx);
  }

  /** The same, for the descriptor fields from their first character on. */
  lemma EntryShape(line: string, p: nat, ctx: Context)
    requires p <= |line| && !IsDelim(At(line, p)) && EntrySpec(line, p, ctx).Entry?
    ensures var e, w := EntrySpec(line, p, ctx).entry, EntrySpec(line, p, ctx).warning;
            IsToken(e.modName) &&
            ((1 <= e.ord <= 65535 && e.name == "") ||
             (e.ord == -1 && IsToken(e.name) && !IsDigit(e.name[0]) && (!ctx.optB || ctx.optS))) &&
            (0 <= e.parms <= 255 || e.parms == PARMS_REG || e.parms == PARMS_FAR16) &&
            (e.parms == PARMS_FAR16 ==> HasFar16Prefix(e.func) && IsToken(e.func[4..]) && |e.func| < 256) &&
            (e.parms != PARMS_FAR16 ==> IsToken(e.func)) &&
            (w == Some(Far16) <==> ctx.mode == ImpToS && e.parms == PARMS_FAR16) &&
            (w == Some(UnknownArgs) ==> ctx.mode == ImpToS && e.parms == 0)
  {
    TokenField(line, p);
    var f := TokenEnd(line, p);
    var m := SkipSpaces(line, f);
    TokenField(line, m);
    var n := TokenEnd(line, m);
    var x := SkipSpaces(line, n);
    if IsDigit(At(line, x)) {
      var (ord, e) := Strtol(line, x);
      ParmsShape(line, e, ctx, line[p..f], line[m..n], ord, "");
    } else {
      TokenField(line, x);
      var e := TokenEnd(line, x);
      assert line[x..e][0] == line[x];
      ParmsShape(line, e, ctx, line[p..f], line[m..n], -1, line[x..e]);
    }
  }

  /** The entry the calling convention completes keeps the fields read before
      it; the count is in 0..255, `R` or `F`, and only `F` changes the
      function name, by the prefix "_16_", when the name fits the buffer. */
  lemma ParmsShape(line: string, p: nat, ctx: Context, func: string, modName: string, ord: int, name: string)
    requires p <= |line| && ParmsSpec(line, p, ctx, func, modName, ord, name).Entry?
    ensures var e, w := ParmsSpec(line, p, ctx, func, modName, ord, name).entry,
                        ParmsSpec(line, p, ctx, func, modName, ord, name).warning;
            e.modName == modName && e.ord == ord && e.name == name &&
            (0 <= e.parms <= 255 || e.parms == PARMS_REG || e.parms == PARMS_FAR16) &&
            (e.parms == PARMS_FAR16 ==> e.func == FAR16_PREFIX + func && |func| + 4 < 256) &&
            (e.parms != PARMS_FAR16 ==> e.func == func) &&
            (w == Some(Far16) <==> ctx.mode == ImpToS && e.parms == PARMS_FAR16) &&
            (w == Some(UnknownArgs) <==> ctx.mode == ImpToS && At(line, SkipSpaces(line, p)) == '?')
  {
  }

  // ---- Lines that parse back ----

  /** The third field: the ordinal in decimal, or the export name. */
  function SelText(sel: Selector): string
  {
    match sel
    case ByOrdinal(o) => NatToDecimal(o)
    case ByName(n) => n
  }

  /** A selector the `.imp` format can carry, in the given context. */
  predicate SelOk(sel: Selector, ctx: Context)
  {
    match sel
    case ByOrdinal(o) => 1 <= o <= 65535
    case ByName(n) => IsToken(n) && !IsDigit(n[0]) && (!ctx.optB || ctx.optS)
  }

  /** The ordinal and export name `read_imp` keeps for a selector. */
  function SelOrd(sel: Selector): int
  {
    match sel
    case ByOrdinal(o) => o
    case ByName(_) => -1
  }

  function SelName(sel: Selector): string
  {
    match sel
    case ByOrdinal(_) => ""
    case ByName(n) => n
  }

  /** A run of n non-delimiters at p, then a delimiter: the field ends at p + n. */
  lemma {:induction false} TokenAt(s: string, p: nat, n: nat)
    requires p + n <= |s| && IsDelim(At(s, p + n))
    requires forall k :: p <= k < p + n ==> !IsDelim(s[k])
    ensures TokenEnd(s, p) == p + n
    decreases n
  {
    if n > 0 {
      TokenAt(s, p + 1, n - 1);
    }
  }

  /** A run of n blanks at p, then a non-blank: the blanks end at p + n. */
  lemma {:induction false} BlanksAt(s: string, p: nat, n: nat)
    requires p + n <= |s| && !IsSpace(At(s, p + n))
    requires forall k :: p <= k < p + n ==> IsSpace(s[k])
    ensures SkipSpaces(s, p) == p + n
    decreases n
  {
    if n > 0 {
      BlanksAt(s, p + 1, n - 1);
    }
  }

  /** `strtol` at p reads the decimal digits of n that stand there. */
  lemma StrtolAt(s: string, p: nat, n: nat)
    requires n <= LONG_MAX && p + |NatToDecimal(n)| <= |s|
    requires s[p..p + |NatToDecimal(n)|] == NatToDecimal(n)
    requires !IsDigit(At(s, p + |NatToDecimal(n)|))
    ensures Strtol(s, p) == (n, p + |NatToDecimal(n)|)
  {
    var d := NatToDecimal(n);
    assert s[p] == d[0];
    assert SkipSpaces(s, p) == p && At(s, p) != '+' && At(s, p) != '-';
    DigitsOver(s, p, |d|);
    DecimalRoundTrip(n);
  }

  lemma DigitsToken(n: nat)
    ensures IsToken(NatToDecimal(n))
  {
    var d := NatToDecimal(n);
    forall i | 0 <= i < |d|
      ensures !IsDelim(d[i])
    {
      assert IsDigit(d[i]);
    }
  }

  /** A line of four fields: a function, a module and a third field, each
      followed by blanks, and a one-character convention. Each fact about
      it below is a lemma of its own, which keeps every proof small. */
  predicate Fields(line: string, f: string, a: nat, m: string, b: nat, t: string, k: nat, c: char)
  {
    line == f + Spaces(a) + m + Spaces(b) + t + Spaces(k) + [c] &&
    IsToken(f) && IsToken(m) && IsToken(t) && a >= 1 && b >= 1 && k >= 1 && !IsDelim(c)
  }

  lemma FieldsFunc(line: string, f: string, a: nat, m: string, b: nat, t: string, k: nat, c: char)
    requires Fields(line, f, a, m, b, t, k, c)
    ensures At(line, 0) == f[0] && TokenEnd(line, 0) == |f|
  {
    TokenAt(line, 0, |f|);
  }

  lemma FieldsFuncText(line: string, f: string, a: nat, m: string, b: nat, t: string, k: nat, c: char)
    requires Fields(line, f, a, m, b, t, k, c)
    ensures line[0..|f|] == f
  {
  }

  lemma FieldsGap1(line: string, f: string, a: nat, m: string, b: nat, t: string, k: nat, c: char)
    requires Fields(line, f, a, m, b, t, k, c)
    ensures SkipSpaces(line, |f|) == |f| + a
  {
    BlanksAt(line, |f|, a);
  }

  lemma FieldsModule(line: string, f: string, a: nat, m: string, b: nat, t: string, k: nat, c: char)
    requires Fields(line, f, a, m, b, t, k, c)
    ensures TokenEnd(line, |f| + a) == |f| + a + |m|
  {
    TokenAt(line, |f| + a, |m|);
  }

  lemma FieldsModuleText(line: string, f: string, a: nat, m: string, b: nat, t: string, k: nat, c: char)
    requires Fields(line, f, a, m, b, t, k, c)
    ensures line[|f| + a..|f| + a + |m|] == m
  {
  }

  lemma FieldsGap2(line: string, f: string, a: nat, m: string, b: nat, t: string, k: nat, c: char)
    requires Fields(line, f, a, m, b, t, k, c)
    ensures SkipSpaces(line, |f| + a + |m|) == |f| + a + |m| + b
  {
    BlanksAt(line, |f| + a + |m|, b);
  }

  lemma FieldsThird(line: string, f: string, a: nat, m: string, b: nat, t: string, k: nat, c: char)
    requires Fields(line, f, a, m, b, t, k, c)
    ensures var x := |f| + a + |m| + b;
            At(line, x) == t[0] && TokenEnd(line, x) == x + |t| && At(line, x + |t|) == ' '
  {
    TokenAt(line, |f| + a + |m| + b, |t|);
  }

  lemma FieldsThirdText(line: string, f: string, a: nat, m: string, b: nat, t: string, k: nat, c: char)
    requires Fields(line, f, a, m, b, t, k, c)
    ensures var x := |f| + a + |m| + b;
            line[x..x + |t|] == t
  {
  }

  lemma FieldsGap3(line: string, f: string, a: nat, m: string, b: nat, t: string, k: nat, c: char)
    requires Fields(line, f, a, m, b, t, k, c)
    ensures var e := |f| + a + |m| + b + |t|;
            SkipSpaces(line, e) == e + k && At(line, e + k) == c && |line| == e + k + 1
  {
    BlanksAt(line, |f| + a + |m| + b + |t|, k);
  }

  /** Where the fields of a line start and end: the first field `f` ends at
      `fe`, the module `m` runs from `ms` to `me`, the third field `t` from
      `x` to `e`, and the convention `c` closes the line after `k` blanks. */
  ghost predicate Positions(line: string, f: string, m: string, t: string,
                            fe: nat, ms: nat, me: nat, x: nat, e: nat, k: nat, c: char)
  {
    0 < fe <= ms < me <= x < e <= |line| && e + k + 1 == |line| &&
    line[0..fe] == f && !IsDelim(line[0]) && line[0] == f[0] && TokenEnd(line, 0) == fe &&
    SkipSpaces(line, fe) == ms && TokenEnd(line, ms) == me && line[ms..me] == m &&
    SkipSpaces(line, me) == x && line[x..e] == t && At(line, x) == t[0] && TokenEnd(line, x) == e &&
    At(line, e) == ' ' &&
    SkipSpaces(line, e) == e + k && At(line, e + k) == c
  }

  lemma FieldsFacts(line: string, f: string, a: nat, m: string, b: nat, t: string, k: nat, c: char)
    requires Fields(line, f, a, m, b, t, k, c)
    ensures Positions(line, f, m, t, |f|, |f| + a, |f| + a + |m|, |f| + a + |m| + b,
                      |f| + a + |m| + b + |t|, k, c)
  {
    FieldsFunc(line, f, a, m, b, t, k, c);
    FieldsFuncText(line, f, a, m, b, t, k, c);
    FieldsGap1(line, f, a, m, b, t, k, c);
    FieldsModule(line, f, a, m, b, t, k, c);
    FieldsModuleText(line, f, a, m, b, t, k, c);
    FieldsGap2(line, f, a, m, b, t, k, c);
    FieldsThird(line, f, a, m, b, t, k, c);
    FieldsThirdText(line, f, a, m, b, t, k, c);
    FieldsGap3(line, f, a, m, b, t, k, c);
  }

  /** A line of four blank-separated fields, the last a one-character
      convention, parses back to its fields: an ordinal or an export name,
      and `?` (no count) or `F` (a 16-bit function). */
  lemma FieldsParse(line: string, f: string, a: nat, m: string, b: nat, sel: Selector, k: nat, c: char,
                    ctx: Context)
    requires Fields(line, f, a, m, b, SelText(sel), k, c)
    requires f[0] != '+' && f[0] != ';'
    requires SelOk(sel, ctx) && (c == '?' || (c == 'F' && |f| + 4 < 256))
    requires ctx.optB || ctx.outputOpen || ctx.mode == ImpToLib
    ensures LineSpec(line, ctx)
            == Entry(ImpEntry(if c == 'F' then FAR16_PREFIX + f else f, m, SelOrd(sel), SelName(sel),
                              if c == 'F' then PARMS_FAR16 else 0),
                     if ctx.mode != ImpToS then None else if c == 'F' then Some(Far16) else Some(UnknownArgs))
  {
    var t := SelText(sel);
    var x := |f| + a + |m| + b;
    FieldsFacts(line, f, a, m, b, t, k, c);
    PositionsParse(line, f, m, |f|, |f| + a, |f| + a + |m|, x, x + |t|, k, c, sel, ctx);
  }

  /** The parse of a line from the positions of its fields. */
  lemma PositionsParse(line: string, f: string, m: string, fe: nat, ms: nat, me: nat, x: nat, e: nat,
                       k: nat, c: char, sel: Selector, ctx: Context)
    requires SelOk(sel, ctx)
    requires Positions(line, f, m, SelText(sel), fe, ms, me, x, e, k, c)
    requires f[0] != '+' && f[0] != ';'
    requires c == '?' || (c == 'F' && |f| + 4 < 256)
    requires ctx.optB || ctx.outputOpen || ctx.mode == ImpToLib
    ensures LineSpec(line, ctx)
            == Entry(ImpEntry(if c == 'F' then FAR16_PREFIX + f else f, m,
                              SelOrd(sel), SelName(sel), if c == 'F' then PARMS_FAR16 else 0),
                     if ctx.mode != ImpToS then None else if c == 'F' then Some(Far16) else Some(UnknownArgs))
  {
    EntryFromPositions(line, f, m, fe, ms, me, x, e, k, c, sel, ctx);
    ConventionStep(line, e, k, c, ctx, f, m, SelOrd(sel), SelName(sel));
    LineIsEntry(line, ctx);
  }

  /** The entry part of the parse, up to the convention. */
  lemma EntryFromPositions(line: string, f: string, m: string, fe: nat, ms: nat, me: nat, x: nat, e: nat,
                           k: nat, c: char, sel: Selector, ctx: Context)
    requires SelOk(sel, ctx)
    requires Positions(line, f, m, SelText(sel), fe, ms, me, x, e, k, c)
    ensures EntrySpec(line, 0, ctx) == ParmsSpec(line, e, ctx, f, m, SelOrd(sel), SelName(sel))
  {
    if sel.ByOrdinal? {
      StrtolAt(line, x, sel.ordinal);
    }
    FieldsStep(line, fe, ms, me, x, e, sel, ctx);
  }

  /** The last step of the parse: blanks, the convention, the end of the line. */
  lemma ConventionStep(line: string, e: nat, k: nat, c: char, ctx: Context, f: string, m: string,
                       ord: int, name: string)
    requires e + k + 1 == |line| && SkipSpaces(line, e) == e + k && At(line, e + k) == c
    requires c == '?' || (c == 'F' && |f| + 4 < 256)
    ensures ParmsSpec(line, e, ctx, f, m, ord, name)
            == Entry(ImpEntry(if c == 'F' then FAR16_PREFIX + f else f, m, ord, name,
                              if c == 'F' then PARMS_FAR16 else 0),
                     if ctx.mode != ImpToS then None else if c == 'F' then Some(Far16) else Some(UnknownArgs))
  {
    assert SkipSpaces(line, e + k + 1) == e + k + 1;
  }

  /** The middle of the parse: function, module, and the third field, from
      the positions where each starts and ends. */
  lemma FieldsStep(line: string, fe: nat, ms: nat, me: nat, x: nat, e: nat, sel: Selector, ctx: Context)
    requires SelOk(sel, ctx)
    requires 0 < fe <= ms < me <= x < e <= |line|
    requires TokenEnd(line, 0) == fe && SkipSpaces(line, fe) == ms && TokenEnd(line, ms) == me
    requires SkipSpaces(line, me) == x && At(line, x) == SelText(sel)[0] && At(line, e) == ' '
    requires sel.ByOrdinal? ==> Strtol(line, x) == (sel.ordinal, e)
    requires sel.ByName? ==> TokenEnd(line, x) == e && line[x..e] == sel.name
    ensures EntrySpec(line, 0, ctx)
            == ParmsSpec(line, e, ctx, line[0..fe], line[ms..me], SelOrd(sel), SelName(sel))
  {
    if sel.ByOrdinal? {
      assert IsDigit(At(line, x)) by {
        assert IsDigit(NatToDecimal(sel.ordinal)[0]);
      }
    }
  }

  /** The first step: a line that starts with a field is a descriptor line. */
  lemma LineIsEntry(line: string, ctx: Context)
    requires 0 < |line| && !IsDelim(line[0]) && line[0] != '+' && line[0] != ';'
    requires ctx.optB || ctx.outputOpen || ctx.mode == ImpToLib
    ensures LineSpec(line, ctx) == EntrySpec(line, 0, ctx)
  {
    assert SkipSpaces(line, 0) == 0;
  }

  /** `%-<w>s` followed by a blank: the string and at least one blank. */
  function Gap(s: string, w: nat): nat
  {
    if |s| < w then w - |s| + 1 else 1
  }

  lemma PadRightBlank(s: string, w: nat)
    ensures PadRight(s, w) + " " == s + Spaces(Gap(s, w))
  {
    SpacesAppend(Gap(s, w) - 1, 1);
    assert Spaces(1) == " ";
    if |s| >= w {
      assert s + Spaces(0) == s;
    }
  }

  /** The text of a line of the `.imp` format as emximp writes it:
      `%-23s %-8s <third> <convention>`. */
  function ImpLineOf(f: string, m: string, third: string, c: char): string
  {
    PadRight(f, 23) + " " + PadRight(m, 8) + " " + third + " " + [c]
  }

  /** Such a line is its four fields and the blanks between them, when the
      third field is padded with p blanks before it and q after it. */
  lemma ImpLineFields(f: string, m: string, p: nat, t: string, q: nat, c: char)
    ensures ImpLineOf(f, m, Spaces(p) + t + Spaces(q), c)
            == f + Spaces(Gap(f, 23)) + m + Spaces(Gap(m, 8) + p) + t + Spaces(q + 1) + [c]
  {
    PadRightBlank(f, 23);
    PadRightBlank(m, 8);
    SpacesAppend(Gap(m, 8), p);
    SpacesAppend(q, 1);
    assert Spaces(1) == " ";
    calc {
      ImpLineOf(f, m, Spaces(p) + t + Spaces(q), c);
      (PadRight(f, 23) + " ") + (PadRight(m, 8) + " ") + Spaces(p) + t + (Spaces(q) + " ") + [c];
      (f + Spaces(Gap(f, 23))) + (m + Spaces(Gap(m, 8))) + Spaces(p) + t + Spaces(q + 1) + [c];
      f + Spaces(Gap(f, 23)) + m + (Spaces(Gap(m, 8)) + Spaces(p)) + t + Spaces(q + 1) + [c];
    }
  }

  /** `%3d` is blanks before the digits; a plain string has none. */
  lemma PadLeftPieces(d: string)
    ensures PadLeft(d, 3) == Spaces(Gap(d, 3) - 1) + d + Spaces(0)
  {
    assert Spaces(0) == [];
  }

  lemma BarePieces(n: string)
    ensures n == Spaces(0) + n + Spaces(0)
  {
    assert Spaces(0) == [];
  }

  lemma {:induction false} SpacesAppend(m: nat, n: nat)
    ensures Spaces(m) + Spaces(n) == Spaces(m + n)
    decreases n
  {
    if n > 0 {
      SpacesAppend(m, n - 1);
    }
  }

  /** The prefix "_16_" comes off and goes back on. */
  lemma Far16Split(func: string)
    requires HasFar16Prefix(func)
    ensures FAR16_PREFIX + func[4..] == func
  {
  }

  lemma Far16Join(s: string)
    ensures HasFar16Prefix(FAR16_PREFIX + s) && (FAR16_PREFIX + s)[4..] == s
  {
  }

  // ---- Lines written from a library ----

  /** The line `read_lib` writes for one import when converting to `.imp`
      (emximp.c:879-886), without its newline: `%-23s %-8s %s ?`, the
      ordinal as `%3d`, and a function with the "_16_" prefix written
      without it and marked `F`. */
  function LibImpLine(e: ImportEntry): string
  {
    var proc := match e.sel
      case ByOrdinal(o) => PadLeft(IntToDecimal(o), 3)
      case ByName(n) => n;
    if !HasFar16Prefix(e.func) then ImpLineOf(e.func, e.modName, proc, '?')
    else ImpLineOf(e.func[4..], e.modName, proc, 'F')
  }

  /** The field the line starts with: the function name, without "_16_". */
  function LeadField(func: string): string
  {
    if HasFar16Prefix(func) then func[4..] else func
  }

  /** The convention the line ends with. */
  function Convention(func: string): char
  {
    if HasFar16Prefix(func) then 'F' else '?'
  }

  /** The blanks `%3d` puts before an ordinal; none before a name. */
  function ThirdPad(sel: Selector): nat
  {
    if sel.ByOrdinal? then Gap(SelText(sel), 3) - 1 else 0
  }

  /** The line written for a library import is its four fields and blanks. */
  lemma LibImpLineFields(e: ImportEntry)
    requires IsToken(LeadField(e.func)) && IsToken(e.modName)
    requires e.sel.ByName? ==> IsToken(e.sel.name)
    ensures var f := LeadField(e.func);
            Fields(LibImpLine(e), f, Gap(f, 23), e.modName, Gap(e.modName, 8) + ThirdPad(e.sel),
                   SelText(e.sel), 1, Convention(e.func))
  {
    var f, c, t := LeadField(e.func), Convention(e.func), SelText(e.sel);
    var third := Spaces(ThirdPad(e.sel)) + t + Spaces(0);
    if e.sel.ByOrdinal? {
      assert IntToDecimal(e.sel.ordinal) == t;
      PadLeftPieces(t);
      DigitsToken(e.sel.ordinal);
    } else {
      BarePieces(t);
    }
    assert LibImpLine(e) == ImpLineOf(f, e.modName, third, c);
    ImpLineFields(f, e.modName, ThirdPad(e.sel), t, 0, c);
  }

  /** A library import whose names are tokens goes through `.imp` text
      unchanged: `read_imp` reads back the function (with its "_16_"
      prefix), the module, the ordinal or the export name, and the
      convention: `?`, which counts as no arguments, or `F`. */
  lemma LibImpRoundTrip(e: ImportEntry, ctx: Context)
    requires IsToken(LeadField(e.func)) && IsToken(e.modName) && (HasFar16Prefix(e.func) ==> |e.func| < 256)
    requires LeadField(e.func)[0] != '+' && LeadField(e.func)[0] != ';'
    requires SelOk(e.sel, ctx)
    requires ctx.optB || ctx.outputOpen || ctx.mode == ImpToLib
    ensures LineSpec(LibImpLine(e), ctx)
            == Entry(ImpEntry(e.func, e.modName, SelOrd(e.sel), SelName(e.sel),
                              if HasFar16Prefix(e.func) then PARMS_FAR16 else 0),
                     if ctx.mode != ImpToS then None
                     else if HasFar16Prefix(e.func) then Some(Far16) else Some(UnknownArgs))
  {
    LibImpLineFields(e);
    LibImpParse(e, ctx);
    if HasFar16Prefix(e.func) {
      Far16Split(e.func);
    }
  }

  /** The parse of such a line, in terms of its leading field and convention. */
  lemma LibImpParse(e: ImportEntry, ctx: Context)
    requires var f := LeadField(e.func);
             Fields(LibImpLine(e), f, Gap(f, 23), e.modName, Gap(e.modName, 8) + ThirdPad(e.sel),
                    SelText(e.sel), 1, Convention(e.func))
    requires LeadField(e.func)[0] != '+' && LeadField(e.func)[0] != ';'
    requires Convention(e.func) == 'F' ==> |LeadField(e.func)| + 4 < 256
    requires SelOk(e.sel, ctx)
    requires ctx.optB || ctx.outputOpen || ctx.mode == ImpToLib
    ensures var f, c := LeadField(e.func), Convention(e.func);
            LineSpec(LibImpLine(e), ctx)
            == Entry(ImpEntry(if c == 'F' then FAR16_PREFIX + f else f, e.modName, SelOrd(e.sel), SelName(e.sel),
                              if c == 'F' then PARMS_FAR16 else 0),
                     if ctx.mode != ImpToS then None else if c == 'F' then Some(Far16) else Some(UnknownArgs))
  {
    var f := LeadField(e.func);
    FieldsParse(LibImpLine(e), f, Gap(f, 23), e.modName, Gap(e.modName, 8) + ThirdPad(e.sel), e.sel, 1,
                Convention(e.func), ctx);
  }
}
