/** The Unix `ar` member wrapper of emximp.c:562-602: a 60-character member
    header of blank-padded fields, the member, and one pad byte when the
    member's size is odd.

    The header layout is the traditional `struct ar_hdr` (name 16, date 12,
    uid 6, gid 6, mode 8, size 10, magic 2 characters, magic "`\n"); the
    system header ar.h that defines it is not part of this model. */
module Archive {
  import opened Common
  import opened Aout

  const AR_HDR_SIZE: nat := 60
  const ARFMAG: string := "`\n"
  const ARMAG: string := "!<arch>\n"

  /** Offsets and widths of the header fields. */
  const NAME_AT: nat := 0
  const NAME_LEN: nat := 16
  const DATE_AT: nat := 16
  const DATE_LEN: nat := 12
  const UID_AT: nat := 28
  const GID_AT: nat := 34
  const ID_LEN: nat := 6
  const MODE_AT: nat := 40
  const MODE_LEN: nat := 8
  const SIZE_AT: nat := 48
  const SIZE_LEN: nat := 10
  const FMAG_AT: nat := 58
  const FMAG_LEN: nat := 2

  /** What `set_ar` leaves in a field of width n: the string cut to n
      characters, then blanks up to n. */
  function ArField(src: string, n: nat): (r: string)
    ensures |r| == n
    ensures forall i :: 0 <= i < n ==> r[i] == if i < |src| then src[i] else ' '
  {
    seq(n, i requires 0 <= i < n => if i < |src| then src[i] else ' ')
  }

  /** How an archive reader takes a field back: trailing blanks dropped. */
  function TrimRight(s: string): (r: string)
    ensures r <= s
  {
    if s == [] || s[|s| - 1] != ' ' then s else TrimRight(s[..|s| - 1])
  }

  /** A field one wider than the string it holds ends in a blank. */
  lemma ArFieldWider(src: string, n: nat)
    requires |src| < n
    ensures ArField(src, n)[..n - 1] == ArField(src, n - 1) && ArField(src, n)[n - 1] == ' '
  {
  }

  /** A field read back gives the string written into it, when the string
      fits and does not itself end in a blank. */
  lemma {:induction false} ArFieldRoundTrip(src: string, n: nat)
    requires |src| <= n && (src == [] || src[|src| - 1] != ' ')
    ensures TrimRight(ArField(src, n)) == src
    decreases n - |src|
  {
    if |src| < n {
      ArFieldWider(src, n);
      ArFieldRoundTrip(src, n - 1);
    } else {
      assert ArField(src, n) == src;
    }
  }

  /** emximp.c:562-574: `set_ar (dst + at, src, size)` on the header buffer. */
  method SetAr(dst: array<char>, at: nat, src: string, size: nat)
    requires '\0' !in src && at + size <= dst.Length
    modifies dst
    ensures dst[..] == old(dst[..at]) + ArField(src, size) + old(dst[at + size..])
  {
    ghost var f := ArField(src, size);
    var k := 0;
    while k < |src| && k < size
      invariant k <= size && k <= |src|
      invariant forall j :: 0 <= j < dst.Length ==> dst[j] == if at <= j < at + k then f[j - at] else old(dst[j])
    {
      dst[at + k] := src[k];
      k := k + 1;
    }
    while k < size
      invariant k <= size
      invariant forall j :: 0 <= j < dst.Length ==> dst[j] == if at <= j < at + k then f[j - at] else old(dst[j])
    {
      dst[at + k] := ' ';
      k := k + 1;
    }
    assert dst[..] == old(dst[..at]) + f + old(dst[at + size..]);
  }

  /** The first four fields of a member header: name, date, owner, group. */
  function HeaderHead(name: string, date: int): (r: string)
    ensures |r| == MODE_AT && r[..NAME_LEN] == ArField(name, NAME_LEN)
  {
    ArField(name, NAME_LEN) + ArField(IntToDecimal(date), DATE_LEN) + ArField("0", ID_LEN)
    + ArField("0", ID_LEN)
  }

  /** The header `write_ar` writes for a member: name, date, owner and group
      0, mode "100666" padded over six characters only (the last two
      characters of the mode field keep what the buffer held), size, magic. */
  function ArHeader(name: string, date: int, size: int, stale: string): (h: string)
    requires |stale| == 2
    ensures |h| == AR_HDR_SIZE
  {
    HeaderHead(name, date) + ArField("100666", ID_LEN) + stale
    + ArField(IntToDecimal(size), SIZE_LEN) + ArField(ARFMAG, FMAG_LEN)
  }

  /** Where the mode, size and magic fields of a header stand. */
  lemma HeaderTail(name: string, date: int, size: int, stale: string)
    requires |stale| == 2
    ensures var h := ArHeader(name, date, size, stale);
            h[NAME_AT..NAME_AT + NAME_LEN] == ArField(name, NAME_LEN) &&
            h[MODE_AT..MODE_AT + 6] == "100666" && h[MODE_AT + 6..MODE_AT + MODE_LEN] == stale &&
            h[SIZE_AT..SIZE_AT + SIZE_LEN] == ArField(IntToDecimal(size), SIZE_LEN) &&
            h[FMAG_AT..] == ARFMAG
  {
    var p5 := HeaderHead(name, date);
    var p6 := p5 + ArField("100666", ID_LEN) + stale;
    var f7, f8 := ArField(IntToDecimal(size), SIZE_LEN), ArField(ARFMAG, FMAG_LEN);
    Slices(p6, f7, f8);
    Slices(p5, ArField("100666", ID_LEN), stale);
    assert ArField("100666", ID_LEN) == "100666";
    assert ArField(ARFMAG, FMAG_LEN) == ARFMAG;
    var h := ArHeader(name, date, size, stale);
    assert h[..MODE_AT] == p5;
    assert h[..NAME_LEN] == p5[..NAME_LEN];
  }

  /** The decimal size read back from its field. */
  lemma SizeFieldBack(size: int)
    requires |IntToDecimal(size)| <= SIZE_LEN
    ensures TrimRight(ArField(IntToDecimal(size), SIZE_LEN)) == IntToDecimal(size)
  {
    var d := IntToDecimal(size);
    assert d[|d| - 1] != ' ' by {
      if size >= 0 { assert IsDigit(d[|d| - 1]); }
      else { assert IsDigit(d[1..][|d| - 2]); }
    }
    ArFieldRoundTrip(d, SIZE_LEN);
  }

  /** The header fields sit at their offsets: the name and the size read
      back as written, the mode keeps its two stale characters, the magic
      closes the header. */
  lemma ArHeaderFields(name: string, date: int, size: int, stale: string)
    requires |stale| == 2 && |name| <= NAME_LEN && |IntToDecimal(size)| <= SIZE_LEN
    ensures var h := ArHeader(name, date, size, stale);
            TrimRight(h[NAME_AT..NAME_AT + NAME_LEN]) == TrimRight(name) &&
            TrimRight(h[SIZE_AT..SIZE_AT + SIZE_LEN]) == IntToDecimal(size) &&
            h[MODE_AT..MODE_AT + 6] == "100666" && h[MODE_AT + 6..MODE_AT + MODE_LEN] == stale &&
            h[FMAG_AT..] == ARFMAG
  {
    HeaderTail(name, date, size, stale);
    SizeFieldBack(size);
    TrimPadded(name, NAME_LEN);
  }

  /** The three parts of a concatenation, sliced back out. */
  lemma Slices(a: string, f: string, b: string)
    ensures (a + f + b)[..|a|] == a && (a + f + b)[|a|..|a| + |f|] == f
    ensures (a + f + b)[|a| + |f|..] == b && (a + f + b)[..|a| + |f|] == a + f
  {
  }

  /** Writing f over the first |f| characters after a prefix p. */
  lemma Overwrite(p: string, rest: string, f: string)
    requires |f| <= |rest|
    ensures (p + rest)[..|p|] + f + (p + rest)[|p| + |f|..] == (p + f) + rest[|f|..]
  {
    assert (p + rest)[..|p|] == p;
    assert (p + rest)[|p| + |f|..] == rest[|f|..];
  }

  /** Blanks added by padding vanish with the blanks the name already had. */
  lemma {:induction false} TrimPadded(src: string, n: nat)
    requires |src| <= n
    ensures TrimRight(ArField(src, n)) == TrimRight(src)
    decreases n - |src|
  {
    if |src| < n {
      ArFieldWider(src, n);
      TrimPadded(src, n - 1);
    } else {
      assert ArField(src, n) == src;
    }
  }

  /** What goes to the output file: characters, a member header whose
      characters are `ArHeader(name, date, size, stale)`, or an a.out image
      written by `aout_write`. */
  datatype Piece = Chars(s: string) | Header(name: string, date: int, size: int, stale: string)
                 | Image(img: AoutImage)

  function PieceSize(p: Piece): nat
  {
    match p
    case Chars(s) => |s|
    case Header(_, _, _, _) => AR_HDR_SIZE
    case Image(img) => ImageSize(img)
  }

  function OutSize(out: seq<Piece>): nat
  {
    if out == [] then 0 else OutSize(out[..|out| - 1]) + PieceSize(out[|out| - 1])
  }

  lemma OutSizeSnoc(out: seq<Piece>, p: Piece)
    ensures OutSize(out + [p]) == OutSize(out) + PieceSize(p)
  {
    assert (out + [p])[..|out + [p]| - 1] == out;
  }

  /** The archive being written: its contents so far and `ar_member_size`. */
  class ArchiveOut {
    var out: seq<Piece>
    var memberSize: int

    /** emximp.c:955-960: a new archive starts with its magic string. */
    constructor ()
      ensures out == [Chars(ARMAG)] && memberSize == 0
    {
      out := [Chars(ARMAG)];
      memberSize := 0;
    }

    /** emximp.c:577-595: remember the member's size and write its header;
        `stack` is what the uninitialised header buffer held. The header's
        characters are `ArHeader(...)`, which `FormatHeader` fills in. */
    method WriteAr(name: string, size: int, now: int, stack: string)
      requires '\0' !in name && |stack| == AR_HDR_SIZE
      modifies this
      ensures memberSize == size
      ensures out == old(out) + [Header(name, now, size, stack[MODE_AT + 6..MODE_AT + MODE_LEN])]
    {
      memberSize := size;
      out := out + [Header(name, now, size, stack[MODE_AT + 6..MODE_AT + MODE_LEN])];
    }

    /** emximp.c:581-594: the header buffer, filled field by field over
        what it held before. */
    static method FormatHeader(name: string, size: int, now: int, stack: string) returns (hdr: string)
      requires '\0' !in name && |stack| == AR_HDR_SIZE
      ensures hdr == ArHeader(name, now, size, stack[MODE_AT + 6..MODE_AT + MODE_LEN])
    {
      var ar := new char[AR_HDR_SIZE](i requires 0 <= i < AR_HDR_SIZE => stack[i]);
      assert ar[..] == stack;
      WriteHead(ar, name, now, stack);
      var size' := IntToDecimal(size);
      ghost var p5 := HeaderHead(name, now) + ArField("100666", ID_LEN);
      ghost var p6 := p5 + stack[MODE_AT + 6..MODE_AT + MODE_LEN];
      ghost var p7 := p6 + ArField(size', SIZE_LEN);
      SetAr(ar, MODE_AT, "100666", ID_LEN);
      Overwrite(HeaderHead(name, now), stack[MODE_AT..], ArField("100666", ID_LEN));
      assert ar[..] == p6 + stack[SIZE_AT..];
      SetAr(ar, SIZE_AT, size', SIZE_LEN);
      Overwrite(p6, stack[SIZE_AT..], ArField(size', SIZE_LEN));
      assert ar[..] == p7 + stack[FMAG_AT..];
      SetAr(ar, FMAG_AT, ARFMAG, FMAG_LEN);
      Overwrite(p7, stack[FMAG_AT..], ArField(ARFMAG, FMAG_LEN));
      assert stack[FMAG_AT..][FMAG_LEN..] == [];
      hdr := ar[..];
    }

    /** emximp.c:585-589: the name, date, owner and group fields. */
    static method WriteHead(ar: array<char>, name: string, now: int, stack: string)
      requires '\0' !in name && ar.Length == AR_HDR_SIZE && ar[..] == stack
      modifies ar
      ensures ar[..] == HeaderHead(name, now) + stack[MODE_AT..]
    {
      var tmp := IntToDecimal(now);
      ghost var p1 := ArField(name, NAME_LEN);
      ghost var p2 := p1 + ArField(tmp, DATE_LEN);
      ghost var p3 := p2 + ArField("0", ID_LEN);
      SetAr(ar, NAME_AT, name, NAME_LEN);
      Overwrite([], stack, p1);
      assert ar[..] == p1 + stack[DATE_AT..];
      SetAr(ar, DATE_AT, tmp, DATE_LEN);
      Overwrite(p1, stack[DATE_AT..], ArField(tmp, DATE_LEN));
      assert ar[..] == p2 + stack[UID_AT..];
      SetAr(ar, UID_AT, "0", ID_LEN);
      Overwrite(p2, stack[UID_AT..], ArField("0", ID_LEN));
      assert ar[..] == p3 + stack[GID_AT..];
      SetAr(ar, GID_AT, "0", ID_LEN);
      Overwrite(p3, stack[GID_AT..], ArField("0", ID_LEN));
    }

    /** emximp.c:705-710: the image as `aout_write` writes it. */
    method WriteImage(img: AoutImage)
      modifies this
      ensures out == old(out) + [Image(img)] && memberSize == old(memberSize)
    {
      out := out + [Image(img)];
    }

    /** emximp.c:598-602: a NUL after a member of odd size. */
    method FinishAr()
      modifies this
      ensures memberSize == old(memberSize)
      ensures out == old(out) + (if memberSize % 2 == 1 then [Chars("\0")] else [])
      ensures OutSize(out) == OutSize(old(out)) + memberSize % 2
    {
      if memberSize % 2 == 1 {
        OutSizeSnoc(out, Chars("\0"));
        out := out + [Chars("\0")];
      }
    }
  }
}
