/** The assembler thunks `read_imp` writes for IMP_TO_S (emximp.c:506-547):
    one per function, jumping through a reference to the module, which is
    `__os2_<name>` for a module named by `-p` and otherwise a label `L<n>`
    from the table of modules of the current output file. The table is
    emptied, and its counter set back to 1, whenever an output file is
    started (emximp.c:278-284) and when an input file is opened
    (emximp.c:347). */
module Thunks {
  import opened Common
  import opened ImpParse

  // ---- The module label table ----

  /** An element of the `libs` list: a module and its label. */
  datatype ModLabel = ModLabel(name: string, lbl: int)

  /** The position of the first element of the list whose module is the
      given one, ignoring case (the `stricmp` search of emximp.c:516-518). */
  function FindLib(libs: seq<ModLabel>, modName: string): (r: Option<nat>)
    ensures r.Some? ==> r.value < |libs| && EqualsIgnoreCase(modName, libs[r.value].name)
    ensures r.Some? ==> forall j :: 0 <= j < r.value ==> !EqualsIgnoreCase(modName, libs[j].name)
    ensures r.None? <==> forall j :: 0 <= j < |libs| ==> !EqualsIgnoreCase(modName, libs[j].name)
    decreases |libs|
  {
    if libs == [] then None
    else if EqualsIgnoreCase(modName, libs[0].name) then Some(0)
    else match FindLib(libs[1..], modName)
      case None => None
      case Some(i) => Some(i + 1)
  }

  /** The list and the counter as the modules of `firstUse` left them,
      used first to last since the table was emptied: the newest at the
      head, each labelled by its place in the order of first use (1, 2,
      3...), no two of them equal ignoring case, and the counter one past
      the last label. */
  ghost predicate TableOf(libs: seq<ModLabel>, firstUse: seq<string>, modLbl: int)
  {
    |libs| == |firstUse| && modLbl == |libs| + 1 &&
    (forall i :: 0 <= i < |libs| ==> libs[i] == ModLabel(firstUse[|libs| - 1 - i], |libs| - i)) &&
    (forall i, j :: 0 <= i < j < |firstUse| ==> !EqualsIgnoreCase(firstUse[i], firstUse[j]))
  }

  /** The `libs` list and `mod_lbl` of one output file. */
  class LabelTable {
    var libs: seq<ModLabel>
    var modLbl: int
    /** The modules in the order they were first used. */
    ghost var firstUse: seq<string>

    ghost predicate Valid()
      reads this
    {
      TableOf(libs, firstUse, modLbl)
    }

    constructor ()
      ensures Valid() && libs == [] && firstUse == [] && modLbl == 1
    {
      libs := [];
      modLbl := 1;
      firstUse := [];
    }

    /** `libs = NULL; mod_lbl = 1;` (emximp.c:278-284, 347). */
    method Reset()
      modifies this
      ensures Valid() && libs == [] && firstUse == [] && modLbl == 1
    {
      libs := [];
      modLbl := 1;
      firstUse := [];
    }

    /** The search of emximp.c:516-518. */
    method Find(modName: string) returns (r: Option<nat>)
      ensures r == FindLib(libs, modName)
    {
      var i := 0;
      while i < |libs|
        invariant 0 <= i <= |libs|
        invariant forall j :: 0 <= j < i ==> !EqualsIgnoreCase(modName, libs[j].name)
        decreases |libs| - i
      {
        if EqualsIgnoreCase(modName, libs[i].name) {
          return Some(i);
        }
        i := i + 1;
      }
      return None;
    }

    /** The label of a module (emximp.c:516-530): the one it already has,
        or, for a module not yet in the table, the next one, as the module
        goes to the head of the list. */
    method Use(modName: string) returns (isNew: bool, lbl: int)
      requires Valid()
      modifies this
      ensures Valid()
      ensures isNew == FindLib(old(libs), modName).None?
      ensures !isNew ==> lbl == old(libs)[FindLib(old(libs), modName).value].lbl &&
                         libs == old(libs) && modLbl == old(modLbl) && firstUse == old(firstUse)
      ensures isNew ==> lbl == old(modLbl) && libs == [ModLabel(modName, old(modLbl))] + old(libs) &&
                        modLbl == old(modLbl) + 1 && firstUse == old(firstUse) + [modName]
    {
      var r := Find(modName);
      if r.None? {
        TableEnter(libs, firstUse, modLbl, modName);
        isNew, lbl := true, modLbl;
        libs := [ModLabel(modName, modLbl)] + libs;
        modLbl := modLbl + 1;
        firstUse := firstUse + [modName];
      } else {
        isNew, lbl := false, libs[r.value].lbl;
      }
    }
  }

  /** A module not yet in the table takes the next label and keeps the
      table what its first uses make it. */
  lemma TableEnter(libs: seq<ModLabel>, firstUse: seq<string>, modLbl: int, modName: string)
    requires TableOf(libs, firstUse, modLbl) && FindLib(libs, modName).None?
    ensures TableOf([ModLabel(modName, modLbl)] + libs, firstUse + [modName], modLbl + 1)
  {
    var libs', fu' := [ModLabel(modName, modLbl)] + libs, firstUse + [modName];
    forall i | 0 <= i < |libs'|
      ensures libs'[i] == ModLabel(fu'[|libs'| - 1 - i], |libs'| - i)
    {
      if i > 0 {
        assert libs'[i] == libs[i - 1];
      }
    }
    forall i, j | 0 <= i < j < |fu'|
      ensures !EqualsIgnoreCase(fu'[i], fu'[j])
    {
      if j == |firstUse| {
        assert libs[|libs| - 1 - i].name == firstUse[i];
        if EqualsIgnoreCase(fu'[i], fu'[j]) {
          EqualsIgnoreCaseSymmetric(fu'[i], fu'[j]);
        }
      }
    }
  }

  /** A module is in the table exactly when one equal to it, ignoring case,
      was used since the table was emptied; its label is then the place of
      that first use (1 for the first module, 2 for the second...). */
  lemma LabelOfFirstUse(libs: seq<ModLabel>, firstUse: seq<string>, modLbl: int, modName: string)
    requires TableOf(libs, firstUse, modLbl)
    ensures FindLib(libs, modName).None? <==> forall k :: 0 <= k < |firstUse| ==> !EqualsIgnoreCase(modName, firstUse[k])
    ensures FindLib(libs, modName).Some? ==>
              var k := |libs| - 1 - FindLib(libs, modName).value;
              0 <= k < |firstUse| && EqualsIgnoreCase(modName, firstUse[k]) &&
              libs[FindLib(libs, modName).value].lbl == k + 1
  {
    forall k | 0 <= k < |firstUse|
      ensures libs[|libs| - 1 - k].name == firstUse[k]
    {
    }
  }

  /** No two modules of the table are equal ignoring case, and their labels
      are different. */
  lemma TableDistinct(libs: seq<ModLabel>, firstUse: seq<string>, modLbl: int)
    requires TableOf(libs, firstUse, modLbl)
    ensures forall i, j :: 0 <= i < j < |libs| ==>
              !EqualsIgnoreCase(libs[i].name, libs[j].name) && libs[i].lbl != libs[j].lbl
  {
    forall i, j | 0 <= i < j < |libs|
      ensures !EqualsIgnoreCase(libs[i].name, libs[j].name) && libs[i].lbl != libs[j].lbl
    {
      var a, b := |libs| - 1 - j, |libs| - 1 - i;
      assert libs[i].name == firstUse[b] && libs[j].name == firstUse[a];
      if EqualsIgnoreCase(libs[i].name, libs[j].name) {
        EqualsIgnoreCaseSymmetric(libs[i].name, libs[j].name);
      }
    }
  }

  // ---- The module reference ----

  /** The `-p` name a module matches, ignoring case. The `predefs` list
      holds the last `-p` first (emximp.c:1082-1086), so the search runs from
      the last name given (emximp.c:506-508): of several matching names, the
      one given last is used. */
  function PredefFor(predefs: seq<string>, modName: string): (r: Option<string>)
    ensures r.Some? ==> r.value in predefs && EqualsIgnoreCase(modName, r.value)
    ensures r.Some? ==> exists i :: LastMatch(predefs, modName, i) && r.value == predefs[i]
    ensures r.None? <==> forall i :: 0 <= i < |predefs| ==> !EqualsIgnoreCase(modName, predefs[i])
    decreases |predefs|
  {
    if predefs == [] then None
    else if EqualsIgnoreCase(modName, predefs[|predefs| - 1]) then
      assert LastMatch(predefs, modName, |predefs| - 1);
      Some(predefs[|predefs| - 1])
    else
      var r := PredefFor(predefs[..|predefs| - 1], modName);
      assert r.Some? ==> exists i :: LastMatch(predefs, modName, i) && r.value == predefs[i] by {
        if r.Some? {
          var i :| LastMatch(predefs[..|predefs| - 1], modName, i) && r.value == predefs[..|predefs| - 1][i];
          LastMatchBefore(predefs, modName, i);
        }
      }
      r
  }

  /** The name at index i matches the module, and none given after it does. */
  ghost predicate LastMatch(predefs: seq<string>, modName: string, i: int)
  {
    0 <= i < |predefs| && EqualsIgnoreCase(modName, predefs[i]) &&
    forall j :: i < j < |predefs| ==> !EqualsIgnoreCase(modName, predefs[j])
  }

  lemma LastMatchBefore(predefs: seq<string>, modName: string, i: int)
    requires predefs != [] && !EqualsIgnoreCase(modName, predefs[|predefs| - 1])
    requires LastMatch(predefs[..|predefs| - 1], modName, i)
    ensures LastMatch(predefs, modName, i) && predefs[i] == predefs[..|predefs| - 1][i]
  {
    forall j | i < j < |predefs|
      ensures !EqualsIgnoreCase(modName, predefs[j])
    {
      if j < |predefs| - 1 {
        assert predefs[j] == predefs[..|predefs| - 1][j];
      }
    }
  }

  /** `mod_ref` and `mod_type`: a `-p` module (MOD_PREDEF), or a label that
      is new (MOD_DEF) or was used before in this file (MOD_REF). */
  datatype ModRef = Predef(name: string) | Labelled(lbl: int, isNew: bool)

  function RefText(r: ModRef): string
  {
    match r
    case Predef(name) => "__os2_" + name
    case Labelled(lbl, _) => "L" + IntToDecimal(lbl)
  }

  // ---- The assembler output ----

  /** The statements of an IMP_TO_S output file. */
  datatype Asm =
    | Title(fname: string)                     // "/ <file> (emx+gcc)"
    | Blank
    | TextSection                              // ".text"
    | Globl(sym: string)
    | Align
    | Label(sym: string)
    | MovAl(parms: int)                        // the argument count, in %al
    | JmpBad                                   // "1: jmp __os2_bad"
    | LongOrdinal(ref: string, ord: int)       // "2: .long 1, 1b+1, <ref>, <ord>"
    | LongName(ref: string)                    // "2: .long 0, 1b+1, <ref>, 4f"
    | AscizModule(ref: string, modName: string) // "<ref>: .asciz "<module>""
    | AscizName(name: string)                  // "4: .asciz "<name>""
    | Stabs                                    // ".stabs "__os2dll", 23, 0, 0, 2b"

  /** The text of a statement, without its newline (emximp.c:276-277, 532-547). */
  function Render(a: Asm): string
  {
    match a
    case Title(f) => "/ " + f + " (emx+gcc)"
    case Blank => ""
    case TextSection => "\t.text"
    case Globl(sym) => "\t.globl\t" + sym
    case Align => "\t.align\t2, 144"
    case Label(sym) => sym + ":"
    case MovAl(n) => "\tmovb\t$" + IntToDecimal(n) + ", %al"
    case JmpBad => "1:\tjmp\t__os2_bad"
    case LongOrdinal(ref, ord) => "2:\t.long\t1, 1b+1, " + ref + ", " + IntToDecimal(ord)
    case LongName(ref) => "2:\t.long\t0, 1b+1, " + ref + ", 4f"
    case AscizModule(ref, m) => ref + ":\t.asciz\t\"" + m + "\""
    case AscizName(n) => "4:\t.asciz\t\"" + n + "\""
    case Stabs => "\t.stabs  \"__os2dll\", 23, 0, 0, 2b"
  }

  /** What `out_start` writes at the top of a file (emximp.c:276-277). */
  function FileHeader(fname: string): seq<Asm>
  {
    [Title(fname), Blank, TextSection]
  }

  /** The thunk of one function (emximp.c:532-547): its entry point, the
      argument count when there is one, the jump, the import descriptor by
      ordinal or by name, the module name the first time its label is used,
      and the import name when there is no ordinal. */
  function Thunk(e: ImpEntry, r: ModRef): seq<Asm>
  {
    var ref := RefText(r);
    [Blank, Globl("_" + e.func), Align, Label("_" + e.func)]
    + ParmsPart(e.parms)
    + [JmpBad]
    + (if e.ord >= 0 then [LongOrdinal(ref, e.ord)] else [LongName(ref)])
    + ModulePart(r, e.modName)
    + NamePart(e.ord, e.name)
    + [Stabs]
  }

  function ParmsPart(parms: int): seq<Asm>
  {
    if parms >= 0 then [MovAl(parms)] else []
  }

  function ModulePart(r: ModRef, modName: string): seq<Asm>
  {
    if r.Labelled? && r.isNew then [AscizModule(RefText(r), modName)] else []
  }

  function NamePart(ord: int, name: string): seq<Asm>
  {
    if ord < 0 then [AscizName(name)] else []
  }

  ghost predicate HasMovAl(s: seq<Asm>)
  {
    exists n :: MovAl(n) in s
  }

  ghost predicate HasAscizModule(s: seq<Asm>)
  {
    exists ref, m :: AscizModule(ref, m) in s
  }

  ghost predicate HasAscizName(s: seq<Asm>)
  {
    exists n :: AscizName(n) in s
  }

  /** The thunk as its fixed statements and its three optional parts. */
  lemma ThunkParts(e: ImpEntry, r: ModRef)
    ensures Thunk(e, r) == ThunkEntry(e.func) + ParmsPart(e.parms) + [JmpBad, Descriptor(e, r)]
                           + ModulePart(r, e.modName) + NamePart(e.ord, e.name) + [Stabs]
  {
  }

  function ThunkEntry(func: string): seq<Asm>
  {
    [Blank, Globl("_" + func), Align, Label("_" + func)]
  }

  function Descriptor(e: ImpEntry, r: ModRef): Asm
  {
    if e.ord >= 0 then LongOrdinal(RefText(r), e.ord) else LongName(RefText(r))
  }

  /** A thunk loads the argument count into %al exactly when there is one:
      `R` and `F` leave it out, while `?` loads 0. */
  lemma ThunkMovAl(e: ImpEntry, r: ModRef)
    ensures HasMovAl(Thunk(e, r)) <==> e.parms >= 0
    ensures e.parms >= 0 ==> MovAl(e.parms) in Thunk(e, r)
  {
    ThunkParts(e, r);
    if e.parms >= 0 {
      assert MovAl(e.parms) in ParmsPart(e.parms);
    }
  }

  /** A thunk spells out the module name exactly when the module's label
      is new in this file, under that label. */
  lemma ThunkAscizModule(e: ImpEntry, r: ModRef)
    ensures HasAscizModule(Thunk(e, r)) <==> r.Labelled? && r.isNew
    ensures r.Labelled? && r.isNew ==> AscizModule("L" + IntToDecimal(r.lbl), e.modName) in Thunk(e, r)
  {
    ThunkParts(e, r);
    if r.Labelled? && r.isNew {
      assert AscizModule(RefText(r), e.modName) in ModulePart(r, e.modName);
    }
  }

  /** A thunk refers to the import by its ordinal, or, when there is none,
      by a name it spells out; the module is named by its reference. */
  lemma ThunkDescriptor(e: ImpEntry, r: ModRef)
    ensures HasAscizName(Thunk(e, r)) <==> e.ord < 0
    ensures e.ord < 0 ==> AscizName(e.name) in Thunk(e, r) && LongName(RefText(r)) in Thunk(e, r)
    ensures e.ord >= 0 ==> LongOrdinal(RefText(r), e.ord) in Thunk(e, r)
  {
    ThunkParts(e, r);
    if e.ord < 0 {
      assert AscizName(e.name) in NamePart(e.ord, e.name);
    }
  }
}
