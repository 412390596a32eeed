# emximp, modelled in Dafny

emximp is the emx tool that converts between the four ways OS/2 import
information is written down:

- `.imp` descriptor files, one import per line: function, module, ordinal or
  name, calling convention;
- `.def` module-definition files (`LIBRARY` and `EXPORTS` statements);
- OMF import libraries (`.lib`), in which each import is a small module whose
  IMPDEF comment record names the function, the module and the ordinal or
  entry name;
- Unix `ar` archives (`.a`) of a.out pseudo-objects, one member per import,
  carrying the `N_IMP1`/`N_IMP2` import symbols and, when profiling, a thunk
  that calls `_mcount`.

It also writes assembler files for `.imp` input, with one thunk per import
that jumps through a per-file table of module labels (`L1`, `L2`, …).

This project models the core of emximp:

- the IMPDEF payload encoder and decoder;
- the walk over the records of an import library;
- the a.out builder and the `ar` member wrapper;
- the `.imp` line parser;
- the reader that turns `.imp` lines into assembler thunks, `.def` text or
  writer calls;
- the module label table;
- the mapping of `.def` exports;
- the way `main` picks a conversion;
- the path helpers `_getext`, `_defext` and `_getname`.

The code that changes state in place is imperative Dafny, with each method
proved against a specification function:

- the a.out tables are fixed-size arrays in `Aout.AoutBuilder`;
- the archive is a growing sequence of pieces in `Archive.ArchiveOut`;
- the `.imp` reader's global state is `ImpRead.ImpReader`;
- the label table is `Thunks.LabelTable`;
- the scans of the three path helpers are loops over the path or over a
  NUL-terminated `array<char>`.

Module layout:

- `Common`: character classes, `%-Ns`/`%Nd` padding, decimal text and `strtol`.
- `Getname`, `Getext`, `Defext`: getname.c, getext.c, defext.c.
- `Omf`: the IMPDEF payload of `write_lib_import` and its decoding in `read_lib`; MODEND alignment.
- `LibReader`: `read_lib`'s header checks and record loop.
- `Aout`, `Archive`, `AImport`: the a.out builder, the `ar` wrapper, `write_a_import`.
- `ImpParse`: the line parser of `read_imp` and the `.imp` lines `read_lib` prints.
- `Thunks`: the label table and the assembler text of a thunk.
- `ImpRead`: what `read_imp` does with the lines, for each conversion.
- `MdExport`: `md_export`.
- `LibOutput`: what `read_lib` writes for a library file: the banner line naming it, then the output for each import it finds.
- `Modes`: the input classification and mode choice of `main`.

Quirks of the code are kept as written:

- the IMPDEF test reads the length of the library header record, not of the
  current record;
- `ar_mode` is padded only to the width of `ar_gid`, so two bytes of whatever
  the header buffer held remain (a parameter here);
- `?` still emits `movb $0`;
- `F` prefixes `_16_`;
- `strtol` accepts a sign.

## Model

| member | source | states |
|---|---|---|
| Getname.NameStart | getname.c:14-29 | the result is the start of a suffix with no ':', '/' or '\\', and what precedes it is empty or ends with a separator |
| Getname.NameStartUnique | getname.c:14-29 | those two facts determine the position: any position with them is the one returned |
| Getname.GetName | getname.c:14-29 | the scanning loop returns exactly the start of the final path component |
| Getname.NoSeparatorWholePath | getname.c:18 | a path without separators is returned whole |
| Getname.TrailingSeparatorEmptyName | getname.c:22-25 | a path ending in a separator gives the empty name |
| Getext.ExtDot | getext.c:15-49 | a result is a '.' of the path, not at its start or right after a separator, followed by no separator and no other '.'; no result means every dot opens a component or a separator follows it |
| Getext.GetExt | getext.c:15-49 | the scanning loop with its `sep` flag returns exactly that extension dot |
| Getext.NoDotNoExtension | getext.c:20-48 | a path with no '.' has no extension |
| Getext.DotFileHasNoExtension | getext.c:33-35 | ".profile" has no extension |
| Getext.LastDotWins | getext.c:33-36 | in ".a.b" the extension starts at the last dot |
| Getext.DotBeforeSeparatorIgnored | getext.c:38-43 | a separator discards an earlier dot |
| Defext.DefExt | defext.c:17-53 | the buffer's string becomes the default-extension result; when an extension is added, '.', the extension and a NUL are written right after the old string and the rest of the buffer is unchanged; otherwise nothing changes |
| Defext.Scan | defext.c:21-47 | the loop ends at the NUL, and `dot`/`sep` say whether the final component holds a '.' and whether it is empty |
| Defext.DefaultExtPrefix | defext.c:48-52 | the original string is a prefix of the result, which is it or it plus "." and the extension |
| Defext.DotInFinalComponentKeepsName | defext.c:34-48 | a '.' anywhere in the final component leaves the name unchanged |
| Defext.EmptyFinalComponentKeepsName | defext.c:21-48 | an empty path or one ending in a separator is unchanged |
| Defext.DotBeforeSeparatorIgnored | defext.c:38-42 | a dot before the last separator does not stop the extension from being added |
| Defext.DefaultExtIdempotent | defext.c:34-52 | for an extension without separators, applying twice equals applying once |
| Common.PadRight | emximp.c:882-883 | `%-Ns`: the string, then blanks up to the width, never truncated |
| Common.PadLeft | emximp.c:880 | `%Nd`: blanks, then the text, right-aligned to the width |
| Common.DecimalRoundTrip | emximp.c:747-749 | the decimal text of a number reads back as that number |
| Common.DecimalInjective | emximp.c:747 | different numbers have different decimal texts |
| Common.Strtol | emximp.c:454 | the value stays within `long`, and the end either stays put (no digits) or moves forward |
| Common.StrtolDecimal | emximp.c:406 | `strtol` reads the decimal text of a number back as that number and stops right after it |
| Common.EqualsIgnoreCaseTransitive | emximp.c:517 | the case-insensitive comparison of `stricmp` is transitive |
| Omf.WriteLibImport | emximp.c:288-331 | the module's public name is the function, its comment payload is the IMPDEF layout (flag, counted function, counted module, then ordinal or counted name, empty when equal to the function), and MODEND is one zero byte |
| Omf.ImpDefRoundTrip | emximp.c:833-875 | decoding the payload `write_lib_import` builds (lines 299-323) plus one checksum byte gives back the function, the module, and the ordinal modulo 65536 or the entry name |
| Omf.DecodeByName | emximp.c:852-866 | a by-name IMPDEF with an empty name field decodes to the function name |
| Omf.LittleEndian16 | emximp.c:318-319 | the two ordinal bytes are its low and high byte, as the decoder reads them back (line 870) |
| Omf.AlignNextRoundsUp | emximp.c:821-822 | for a power-of-two page size, the cursor after MODEND is the next multiple of the page size, and is unchanged when already aligned |
| LibReader.Step | emximp.c:811-925 | a record or body past the region is malformed; the walk stops without error exactly at LIBEND; the impure notice fires only when armed and not quiet, disarms itself, is re-armed only by THEADR, and never stops the walk |
| LibReader.ReadComent | emximp.c:833-875 | reading an IMPDEF comment field by field gives exactly its decoding |
| LibReader.ReadRecord | emximp.c:811-925 | the body of the record loop gives exactly the specified step |
| LibReader.WalkLib | emximp.c:809-926 | the record loop gives exactly the specified walk |
| LibReader.ReadLib | emximp.c:788-934 | the header checks and the walk over the region bounded by the dictionary offset give exactly the specified scan |
| LibReader.QuietNoNotices | emximp.c:910 | with `-q` the walk produces no notice |
| LibReader.NoticeOncePerModule | emximp.c:902-916 | between two notices there is a module header (THEADR, lines 825-830): at most one notice per module |
| LibReader.ModendAligns | emximp.c:819-822 | after MODEND the walk continues at the next page boundary, within one page of the record's end |
| LibReader.ImpDefExactLength | emximp.c:874-875 | an IMPDEF that decodes for one record end is malformed for any other |
| LibReader.ComentStep | emximp.c:833-898 | a COMENT record stops the walk exactly when it is a malformed IMPDEF; otherwise the walk goes on after it with the notice unchanged, handing on the import of an IMPDEF and nothing else |
| LibReader.TheadrName | emximp.c:825-831 | a THEADR name whose count runs past the record end makes the library malformed; otherwise it names the module, re-arms the notice and the walk goes on after the record |
| LibReader.ImpDefFieldOverrun | emximp.c:839-873 | an IMPDEF whose function name, module name, entry name or ordinal bytes run past the record end makes the library malformed |
| LibReader.ImpDefFieldsBad | emximp.c:839-873 | such a comment decodes as a malformed IMPDEF |
| LibReader.BadComentStops | emximp.c:833-875 | a malformed IMPDEF stops the walk with no output |
| LibReader.PageAlign | emximp.c:821-822 | the end of a MODEND record is moved on with the source's bit operations to exactly the specified position |
| Aout.AoutBuilder.Init | emximp.c:619-625 | empty tables, with the string table size at 4 |
| Aout.AoutBuilder.Sym | emximp.c:627-645 | string-table or symbol-table overflow is fatal; otherwise the symbol gets the next index and its string offset is the running size, which grows by the name's length plus one |
| Aout.AoutBuilder.SymbolName | emximp.c:637-642 | each symbol's string offset finds its own name in the string table |
| Aout.AoutBuilder.TextByte | emximp.c:648-653 | more than 64 text bytes is fatal; otherwise the byte is appended |
| Aout.AoutBuilder.TextDword | emximp.c:656-662 | the word is appended low byte first |
| Aout.DwordRoundTrip | emximp.c:656-662 | the four bytes read back as the word |
| Aout.AoutBuilder.TReloc | emximp.c:665-677 | a third relocation is fatal; otherwise the relocation is appended, with its bit fields cut to their widths |
| Aout.AoutBuilder.Finish | emximp.c:680-688 | the text is padded with 0x90 to a multiple of 4, and the size is header + text + 8 per relocation + 12 per symbol + string table |
| Aout.AoutBuilder.Write | emximp.c:691-711 | the image is the header, text, relocations, symbols and string table, and its length is the size `Finish` computed |
| Aout.ImageOfConsistent | emximp.c:695-709 | the header's text, symbol and relocation sizes match the image, and the string table starts with its own size |
| Aout.StringTableLookup | emximp.c:637-643 | in a string table built name after name, each name is found at 4 plus the lengths of the earlier names |
| Archive.SetAr | emximp.c:562-574 | the field is the source string cut to the width and padded with blanks; the rest of the buffer is unchanged |
| Archive.ArFieldRoundTrip | emximp.c:562-574 | trimming trailing blanks recovers a string that fits and does not end in a blank |
| Archive.ArHeaderFields | emximp.c:579-595 | the header's name and size fields read back, the mode field starts "100666" and ends with two stale bytes, and it ends with the magic |
| Archive.ArchiveOut.constructor | emximp.c:955-960 | a new archive holds only the magic string |
| Archive.ArchiveOut.WriteAr | emximp.c:577-595 | the member size is remembered and one header is appended, whose characters are those `FormatHeader` fills in |
| Archive.ArchiveOut.FinishAr | emximp.c:598-602 | one NUL is appended exactly when the member size is odd |
| AImport.ImportWriter.WriteAImport | emximp.c:714-761 | the member's symbols are the expected import names and types, the text and relocations are the profiling thunk or empty, the archive grows by the header "IMPORT#n", the image and the pad, and n rises by one |
| AImport.TwoImportSymbols | emximp.c:747-753 | every member ends with S (N_IMP1) and "S=module.ordinal" or "S=module.name" (N_IMP2) |
| AImport.ProfileShape | emximp.c:723-746 | profiling a name without `_16_` gives five symbols and 16 bytes of text; both relocations are PC-relative, 32-bit, external |
| AImport.ThunkDisplacements | emximp.c:736-745 | the call and jump displacements point back to the start of the thunk, and the relocations sit at offsets 4 and 10 |
| AImport.StringTableFits | emximp.c:633-634 | function, module and entry names of at most 255 characters, as the readers' 256-byte arrays hold them, never overflow the 2048-byte string table, profiled or not |
| AImport.MemberPiecesEven | emximp.c:754-757 | a member is the header plus the image plus the pad, and has even length |
| ImpParse.ParseLine | emximp.c:352-462 | the parser returns exactly the specified result for a line: skip, accepted descriptor with its warning, or the first error |
| ImpParse.SkippedLines | emximp.c:359-385 | a line is skipped iff it is blank, a comment, or a '+' line outside assembler mode |
| ImpParse.AcceptedShape | emximp.c:379-462 | an accepted descriptor has token fields, an ordinal in 1..65535 or a name, a convention of 0..255, `R` or `F` (with `_16_` prefixed), and the right warning |
| ImpParse.FieldsParse | emximp.c:388-462 | a line laid out as function, module, ordinal or name, and convention parses back to exactly those fields |
| ImpParse.LibImpRoundTrip | emximp.c:878-889 | a line `read_lib` prints parses back to the same import |
| Thunks.FindLib | emximp.c:516-518 | the first module in the table equal to the name ignoring case, or none iff there is none |
| Thunks.LabelTable.Use | emximp.c:514-531 | a module seen before keeps its label; a new one gets the counter's label, which then rises by one |
| Thunks.LabelTable.Reset | emximp.c:278-284 | starting an output file empties the table and resets the counter to 1 |
| Thunks.LabelOfFirstUse | emximp.c:514-531 | labels are 1, 2, 3… in first-use order |
| Thunks.TableDistinct | emximp.c:514-531 | the table never holds two case-insensitively equal modules or two equal labels |
| Thunks.PredefFor | emximp.c:506-512 | a `-p` name equal to the module ignoring case is found, and of several the one given last (the list is built last first, lines 1082-1086); none is found exactly when no name matches |
| Thunks.ThunkMovAl | emximp.c:535-536 | `movb` is emitted iff the convention is not `R` or `F` |
| Thunks.ThunkAscizModule | emximp.c:543-544 | the module's `.asciz` is emitted only on its first use |
| Thunks.ThunkDescriptor | emximp.c:537-546 | the descriptor names the entry point by name iff the import is by name, otherwise by ordinal |
| ImpRead.BatchOptionNumber | emximp.c:1063-1073 | `-b` with a number greater than 1 cuts the module name to that length, then adds the file number and ".s" (lines 499-503) |
| ImpRead.BatchOptionStem | emximp.c:1063-1073 | any other `-b` argument is the stem itself, followed by the file number and ".s" (lines 499-500) |
| ImpRead.BatchNamesDiffer | emximp.c:499-503 | under one stem, different file numbers give different file names |
| ImpRead.DeclaredThunk | emximp.c:532-547 | a thunk declares only the module label it introduces |
| ImpRead.ThunkStepInv | emximp.c:492-547 | writing a thunk keeps every file's labels consistent with first use |
| ImpRead.ReadImpFilesOk | emximp.c:337-559 | after a file every assembler file declares L1, L2, … once each, for modules that differ ignoring case |
| ImpRead.AllFilesOk | emximp.c:1197-1225 | the same holds after all input files |
| ImpRead.DefApply | emximp.c:465-481 | a `.def` entry fails iff it names a module other than the first; otherwise the text grows by its export line under "LIBRARY m" and "EXPORTS" |
| ImpRead.AllFilesDef | emximp.c:465-481 | the `.def` text keeps that shape over all input files (lines 1197-1225) |
| ImpRead.DefFirstLine | emximp.c:1201-1205 | the output being open before `read_imp`, the first accepted descriptor of a `.def` conversion is taken without a `+` line and gives "LIBRARY m", "EXPORTS" and its export line |
| ImpRead.DefFromLibLine | emximp.c:465-481 | the `.imp` line written for a library import, read first in a `.def` conversion, gives exactly that module's `LIBRARY`, `EXPORTS` and export line |
| ImpRead.AcceptedCalls | emximp.c:482-490 | every accepted descriptor gives writer calls with token names and a usable ordinal or name |
| ImpRead.AllFilesCalls | emximp.c:482-490 | every call recorded over all input files (lines 1197-1225) has token names and an ordinal in 1..65535 or, with ordinal -1, a token entry name; the length of the names is not bounded |
| ImpRead.AFromLibLine | emximp.c:1219-1224 | the output being open before `read_imp`, the `.imp` line written for a library import makes exactly that import's `write_a_import` call in a `.a` conversion, in any state |
| ImpRead.AImportCallTarget | emximp.c:482-487 | an archive call meets `write_a_import`'s ordinal demand and its last symbol names module and ordinal or name |
| ImpRead.LibImportCallDecodes | emximp.c:488-490 | a library call's IMPDEF decodes back to the descriptor's function, module, ordinal or name |
| ImpRead.ImpReader.constructor | emximp.c:78-93 | the reader starts in the initial state |
| ImpRead.ImpReader.Flush | emximp.c:211-253 | an open output file is closed and recorded with its text; with none open nothing changes |
| ImpRead.ImpReader.Start | emximp.c:256-285 | opening an output file writes its header and empties the label table |
| ImpRead.ImpReader.FindPredef | emximp.c:506-508 | the search from the last `-p` name gives exactly the specified predefined module |
| ImpRead.ImpReader.StartBatch | emximp.c:492-505 | under `-b` the import gets a file of its own |
| ImpRead.ImpReader.WriteThunk | emximp.c:506-547 | the thunk text and table update are exactly the specified step |
| ImpRead.ImpReader.UseEntry | emximp.c:463-551 | an accepted descriptor does exactly what the specification says, and the only error is a second module in `.def` mode |
| ImpRead.ImpReader.ReadLine | emximp.c:352-552 | one line changes the state exactly as the specification says, or stops with its error |
| ImpRead.ImpReader.ReadImp | emximp.c:337-559 | reading a file gives exactly the specified state, or the line and error where it stops |
| ImpRead.ImpReader.ReadImps | emximp.c:1197-1225 | reading the input files in order gives exactly the specified state or stop |
| LibOutput.OneOutputPerImport | emximp.c:876-898 | the walk's imports give one output each, in order |
| LibOutput.FileOutputsShape | emximp.c:784-785 | in LIB_TO_IMP a file's output is the banner naming the file, a comment that `read_imp` skips, then one line per import; in LIB_TO_A only the calls |
| LibOutput.LibACallTarget | emximp.c:890-895 | a library import written as an archive member names its module and ordinal or name |
| LibOutput.ViaLibrarySameCall | emximp.c:833-895 | `.imp` to library to archive makes the same `write_a_import` call as `.imp` to archive directly |
| MdExport.OneOutputPerExport | emximp.c:963-1017 | each export gives exactly one output |
| MdExport.NoModuleNameIff | emximp.c:970-975 | "No module name" is raised iff an export comes before any `LIBRARY` |
| MdExport.LibraryNeverMissing | emximp.c:970-975 | once a module name is known, that error never occurs |
| MdExport.DefImpRoundTrip | emximp.c:982-989 | the `.imp` line of an export parses back to its entry, module and ordinal or internal name |
| MdExport.DefLibRoundTrip | emximp.c:1001-1004 | the library call of an export decodes back to its entry, module and ordinal or internal name |
| MdExport.DefATarget | emximp.c:993-1000 | the archive member of an export names its module and ordinal or internal name |
| Modes.ClassifyInputs | emximp.c:1098-1110 | the loop gives exactly the specified classification |
| Modes.ClassifyCounts | emximp.c:1098-1110 | all inputs are classified iff each has a known extension, and then the counts are per kind |
| Modes.ClassifyByCounts | emximp.c:1098-1110 | given the kind of each input, classification succeeds iff every kind is known, and then counts each kind |
| Modes.ClassifyByFirstUnknown | emximp.c:1098-1110 | given the kind of each input, the error names the first input of unknown kind |
| Modes.ClassifyReportsFirstUnknown | emximp.c:1098-1110 | the error names the first input with an unknown extension |
| Modes.ModeMatchesInputs | emximp.c:1111-1175 | a chosen conversion reads the one kind of input given |
| Modes.ModeMatchesOutput | emximp.c:1115-1175 | no `-o` means assembler output, otherwise the output extension decides |
| Modes.OptionsFitMode | emximp.c:1176-1181 | assembler-only options only with assembler output, `-p` only for libraries, profiling only for archives |
| Modes.PageSizeChoice | emximp.c:1162-1170 | the library page size is the default unless a single `-p` number gives it |
| Modes.SupportedPairChosen | emximp.c:1115-1175 | every supported pair of input and output kind is chosen |

## Left out

- File, pipe and process I/O are not modelled. This covers output files, `popen` of the assembler and `fopen`/`fread`/`fseek` in `read_lib`. Files are values: assembler files are lists of statements, `read_lib` takes the file's bytes, and archives are lists of pieces.
- `out_flush` spawning the assembler is left out. A flushed file is only recorded.
- The OMF library writer (`omflib_*`) is not part of this model. Its record framing, checksums, dictionary and padding are left out; only the payload given to it is modelled.
- The `_md_*` module-definition parser is not part of this model. `md_export` receives its statements as values, and parse errors are left out.
- Option parsing is left out: getopt, `_response`, the usage text, a repeated `-o`, and the text of the diagnostics. Options are a record.
- Fatal errors are results that stop the run. Warnings are a count. The impure-library notice is an event and does not count as a warning.
- `time(NULL)` in the member date is a parameter. So is the uninitialised header buffer, whose two stale bytes end the mode field.
- C structures written with `fwrite` are abstract records of the same sizes. This covers the a.out header, `nlist` and `reloc` with its bit fields.
- The 512-byte `fgets` buffer is left out: a long line would be split into two lines, and that is not modelled.
- ImpParse.LineSpec: fields longer than 255 characters are accepted. In C they overrun the 256-byte arrays `func`, `module` and `name` (emximp.c:340, copy loops from line 388). Only lines whose fields fit are in scope. The one length check the source makes, before adding the "_16_" prefix (emximp.c:445), is modelled. `ImpParse.ParseLine`, `ImpRead.LineStep` and the methods of `ImpRead.ImpReader` inherit this.
- AImport.FitsBuffer: it admits names of up to 255 characters. With `-m` profiling, `write_a_import` formats "__$U_" and the function name into `tmp2[257]` (emximp.c:717, emximp.c:729). A function name of 252 to 255 characters, which `func[256]` and `func_name[256]` hold, overruns `tmp2` in C. The model writes the full symbol for such names instead.
- ImpParse.LineSpec and ImpRead.BatchName: output file names have no length bound. In C they go into `out_fname[128]` (emximp.c:80) with no check. A `+` line copies its name there (emximp.c:369-372), and `-b` formats the stem or the cut module name with the file number there (emximp.c:499-503). A name of 128 characters or more overruns it. The model keeps the whole name.
- ImpRead.CallReady and ImpRead.AllFilesCalls: they do not bound the length of names. So a recorded call need not meet `AImport.FitsBuffer`, which `AImport.ImportWriter.WriteAImport` requires of its names. The writers, `write_a_import` and `write_lib_import`, keep that requirement on their callers.
- The DBCS branches of getext.c and defext.c are left out; they sit under `if (1==2)` and never run.
- Out-of-region signature reads in `read_lib` are modelled as "not an IMPDEF"; in C they read past the buffer.
- ImpRead.BatchNamesDiffer: proved only for one stem or one module. Under `-b n`, two modules cut to the same first n characters can give the same file name.
- Memory helpers (`xmalloc`, `xstrdup`) are left out.
