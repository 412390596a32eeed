/** The OMF side of emximp: record types, the IMPDEF comment that describes
    one import (TIS Relocatable Object Module Format 1.1, COMENT class A0H,
    subtype 01H), its encoder `write_lib_import` and its decoder in `read_lib`,
    and the page arithmetic of the Microsoft library format. */
module Omf {
  import opened Common

  // Record types (defs.h:73-90); REC32 is or-ed in for the 32-bit variant.
  const THEADR: Byte := 0x80
  const COMENT: Byte := 0x88
  const MODEND: Byte := 0x8a
  const EXTDEF: Byte := 0x8c
  const PUBDEF: Byte := 0x90
  const SEGDEF: Byte := 0x98
  const COMDEF: Byte := 0xb0
  const COMDAT: Byte := 0xc2
  const LIBHDR: Byte := 0xf0
  const LIBEND: Byte := 0xf1
  const REC32: Byte := 0x01

  // Comment class and subtype of an IMPDEF comment.
  const IMPDEF_CLASS: Byte := 0xa0
  const IMPDEF_SUBTYPE: Byte := 0x01

  /** How an import is resolved: by ordinal, or by the name the module exports. */
  datatype Selector = ByOrdinal(ordinal: nat) | ByName(name: string)

  /** One import: the function, the module that exports it, and the selector. */
  datatype ImportEntry = ImportEntry(func: string, modName: string, sel: Selector)

  /** The two records `write_lib_import` hands to the library writer for one
      import, and the public name it registers for the module. */
  datatype LibModule = LibModule(pubName: string, coment: seq<Byte>, modend: seq<Byte>)

  function CharsToBytes(s: string): (r: seq<Byte>)
    requires IsCString(s)
    ensures |r| == |s|
    ensures forall i :: 0 <= i < |s| ==> r[i] == s[i] as int
  {
    seq(|s|, k requires 0 <= k < |s| => s[k] as int)
  }

  function BytesToChars(b: seq<Byte>): (r: string)
    ensures |r| == |b|
    ensures forall i {:trigger r[i]} :: 0 <= i < |b| ==> r[i] as int == b[i]
  {
    seq(|b|, k requires 0 <= k < |b| => b[k] as char)
  }

  /** What `memcpy` then `name[n] = 0` leaves as a C string: the bytes before the first NUL. */
  function UpToNul(b: seq<Byte>): (r: seq<Byte>)
    ensures r <= b
    ensures forall i :: 0 <= i < |r| ==> r[i] != 0
    ensures |r| < |b| ==> b[|r|] == 0
  {
    b[..NulFrom(b, 0)]
  }

  /** The index of the first NUL at or after `k`, or the length when there is none. */
  function NulFrom(b: seq<Byte>, k: nat): (n: nat)
    requires k <= |b|
    ensures k <= n <= |b|
    ensures forall i :: k <= i < n ==> b[i] != 0
    ensures n < |b| ==> b[n] == 0
    decreases |b| - k
  {
    if k == |b| || b[k] == 0 then k else NulFrom(b, k + 1)
  }

  /** A name the encoder can store: a C string of at most 255 characters. */
  predicate Storable(s: string)
  {
    IsCString(s) && |s| <= 255
  }

  /** The counted string of an OMF record: a length byte, then the characters. */
  function Counted(s: string): (r: seq<Byte>)
    requires Storable(s)
    ensures |r| == |s| + 1 && r[0] == |s|
  {
    [|s|] + CharsToBytes(s)
  }

  /** The ordinal as the IMPDEF comment stores it: little-endian, truncated to 16 bits. */
  function OrdinalBytes(ord: int): (r: seq<Byte>)
    ensures |r| == 2
  {
    [ord % 256, (ord / 256) % 256]
  }

  /** What follows the two names in an IMPDEF comment: the export name as a
      counted string, stored empty when it equals the function name, or the
      ordinal. An ordinal below 1 selects the by-name form. */
  function ImpDefTail(func: string, ord: int, name: string): seq<Byte>
    requires Storable(name)
  {
    if ord < 1 then (if func == name then Counted("") else Counted(name)) else OrdinalBytes(ord)
  }

  /** An IMPDEF comment body: signature, ordinal flag, the function and the
      module name as counted strings, then `tail`. */
  function ImpDefLayout(flag: Byte, func: string, modName: string, tail: seq<Byte>): seq<Byte>
    requires Storable(func) && Storable(modName)
  {
    [0x00, IMPDEF_CLASS, IMPDEF_SUBTYPE, flag] + Counted(func) + Counted(modName) + tail
  }

  /** The IMPDEF comment body emximp.c:299-323 builds (before the library
      writer adds the checksum). */
  function ImpDefPayload(func: string, modName: string, ord: int, name: string): seq<Byte>
    requires Storable(func) && Storable(modName) && Storable(name)
  {
    ImpDefLayout(if ord < 1 then 0x00 else 0x01, func, modName, ImpDefTail(func, ord, name))
  }

  /** emximp.c:288-331: fills `omfbuf` through index `i` and returns the two
      records of the import module. The calls into the library writer
      (module start, public name, record framing) are not part of this model. */
  method WriteLibImport(func: string, modName: string, ord: int, name: string)
    returns (m: LibModule)
    requires Storable(func) && Storable(modName) && Storable(name)
    ensures m.pubName == func
    ensures m.coment == ImpDefPayload(func, modName, ord, name)
    ensures m.modend == [0x00]
  {
    var omfbuf := new Byte[1024];
    var i := 0;
    omfbuf[i] := 0x00; i := i + 1;
    omfbuf[i] := IMPDEF_CLASS; i := i + 1;
    omfbuf[i] := IMPDEF_SUBTYPE; i := i + 1;
    omfbuf[i] := if ord < 1 then 0x00 else 0x01; i := i + 1;
    assert omfbuf[..i] == [0x00, IMPDEF_CLASS, IMPDEF_SUBTYPE, if ord < 1 then 0x00 else 0x01];
    i := PutCounted(omfbuf, i, func);
    i := PutCounted(omfbuf, i, modName);
    if ord < 1 {
      if func == name {
        i := PutCounted(omfbuf, i, "");
      } else {
        i := PutCounted(omfbuf, i, name);
      }
    } else {
      i := PutOrdinal(omfbuf, i, ord);
    }
    m := LibModule(func, omfbuf[..i], [0x00]);
  }

  /** `omfbuf[i++] = (byte)ord; omfbuf[i++] = (byte)(ord >> 8);` for a positive ordinal. */
  method PutOrdinal(buf: array<Byte>, i: nat, ord: int) returns (j: nat)
    requires ord >= 1 && i + 2 <= buf.Length
    modifies buf
    ensures j == i + 2
    ensures buf[..j] == old(buf[..i]) + OrdinalBytes(ord)
  {
    buf[i] := ord % 256;
    buf[i + 1] := (ord / 256) % 256;
    j := i + 2;
  }

  /** `omfbuf[i++] = (byte)len; memcpy (omfbuf+i, s, len); i += len;` */
  method PutCounted(buf: array<Byte>, i: nat, s: string) returns (j: nat)
    requires Storable(s) && i + 1 + |s| <= buf.Length
    modifies buf
    ensures j == i + 1 + |s|
    ensures buf[..j] == old(buf[..i]) + Counted(s)
    ensures buf[j..] == old(buf[j..])
  {
    buf[i] := |s|;
    var k := 0;
    while k < |s|
      invariant 0 <= k <= |s|
      invariant buf[..i + 1 + k] == old(buf[..i]) + [|s|] + CharsToBytes(s)[..k]
      invariant buf[i + 1 + k..] == old(buf[i + 1 + k..])
    {
      buf[i + 1 + k] := s[k] as int;
      assert CharsToBytes(s)[..k + 1] == CharsToBytes(s)[..k] + [s[k] as int];
      k := k + 1;
    }
    j := i + 1 + k;
    assert CharsToBytes(s)[..k] == CharsToBytes(s);
  }

  /** The outcome of looking at one COMENT record. */
  datatype Comment = NotImpDef | BadImpDef | ImpDef(entry: ImportEntry)

  /** A counted string at `p` that must end by `next` (emximp.c:839-850):
      the C string it denotes and the position after it. */
  function ReadCounted(buf: seq<Byte>, p: nat, next: nat): Option<(seq<Byte>, nat)>
    requires next <= |buf|
  {
    if p + 1 > next then None
    else
      var n := buf[p];
      if p + 1 + n > next then None
      else Some((UpToNul(buf[p + 1..p + 1 + n]), p + 1 + n))
  }

  /** A COMENT record whose body starts at `i` and ends at `next`, decoded as
      emximp.c:833-875 does. `hdrLen` is the LIBHDR record's length field:
      the source tests it, not the comment's own length, against 11. The
      signature bytes are read without a bound against `next`; past the end
      of the buffer they count as not matching. */
  function DecodeComent(buf: seq<Byte>, i: nat, next: nat, hdrLen: nat): Comment
    requires next <= |buf|
  {
    if !(hdrLen >= 11 && i + 3 <= |buf| && buf[i] == 0x00 && buf[i + 1] == 0xa0 && buf[i + 2] == 0x01)
    then NotImpDef
    else
      var ordFlag := if i + 3 < |buf| then buf[i + 3] else 0;
      match ReadCounted(buf, i + 4, next)
      case None => BadImpDef
      case Some((func, p)) =>
        match ReadCounted(buf, p, next)
        case None => BadImpDef
        case Some((mod, q)) =>
          if ordFlag == 0 then
            match ReadCounted(buf, q, next)
            case None => BadImpDef
            case Some((proc, r)) =>
              // a zero length means "same as the function name"
              var procName := if buf[q] == 0 then func else proc;
              if r + 1 != next then BadImpDef
              else ImpDef(ImportEntry(BytesToChars(func), BytesToChars(mod), ByName(BytesToChars(procName))))
          else if q + 2 > next then BadImpDef
          else if q + 3 != next then BadImpDef
          else
            var lo: nat, hi: nat := buf[q], buf[q + 1];
            ImpDef(ImportEntry(BytesToChars(func), BytesToChars(mod), ByOrdinal(lo + 256 * hi)))
  }

  lemma BytesCharsRoundTrip(s: string)
    requires IsCString(s)
    ensures BytesToChars(CharsToBytes(s)) == s
    ensures UpToNul(CharsToBytes(s)) == CharsToBytes(s)
  {
  }

  /** A byte string without NUL is its own C string. */
  lemma NoNul(b: seq<Byte>)
    requires forall i :: 0 <= i < |b| ==> b[i] != 0
    ensures UpToNul(b) == b
  {
  }

  lemma ReadCountedAt(buf: seq<Byte>, p: nat, next: nat)
    requires next <= |buf| && p + 1 <= next && p + 1 + buf[p] <= next
    ensures ReadCounted(buf, p, next) == Some((UpToNul(buf[p + 1..p + 1 + buf[p]]), p + 1 + buf[p]))
  {
  }

  /** Reading back a counted string written by `Counted`, wherever it sits. */
  lemma ReadCountedOf(buf: seq<Byte>, p: nat, next: nat, s: string)
    requires Storable(s) && next <= |buf|
    requires p + 1 + |s| <= next && buf[p..p + 1 + |s|] == Counted(s)
    ensures ReadCounted(buf, p, next) == Some((CharsToBytes(s), p + 1 + |s|))
  {
    var n := buf[p];
    assert n == |s| by { assert buf[p] == buf[p..p + 1 + |s|][0]; }
    var b := buf[p + 1..p + 1 + n];
    assert b == CharsToBytes(s) by { assert b == buf[p..p + 1 + |s|][1..]; }
    NoNul(b);
    ReadCountedAt(buf, p, next);
  }

  /** A slice of a slice. */
  lemma SliceOfSlice(buf: seq<Byte>, i: nat, body: seq<Byte>, a: nat, b: nat)
    requires i + |body| <= |buf| && buf[i..i + |body|] == body
    requires a <= b <= |body|
    ensures buf[i + a..i + b] == body[a..b]
  {
    forall k | 0 <= k < b - a
      ensures buf[i + a..i + b][k] == body[a..b][k]
    {
      assert buf[i + a + k] == buf[i..i + |body|][a + k];
    }
  }

  /** The two stored bytes of an ordinal are its value modulo 2^16. */
  lemma LittleEndian16(ord: nat)
    ensures OrdinalBytes(ord)[0] as int + 256 * OrdinalBytes(ord)[1] as int == ord % 65536
  {
    var h := ord / 256;
    assert ord == 256 * h + ord % 256;
    assert h == 256 * (h / 256) + h % 256;
    assert ord == 65536 * (h / 256) + (256 * (h % 256) + ord % 256);
    DivModUnique(ord, 65536, h / 256, 256 * (h % 256) + ord % 256);
  }

  /** Where the pieces of an IMPDEF body sit. */
  lemma LayoutPieces(flag: Byte, func: string, modName: string, tail: seq<Byte>)
    requires Storable(func) && Storable(modName)
    ensures var L := ImpDefLayout(flag, func, modName, tail);
            var q := 6 + |func| + |modName|;
            && |L| == q + |tail|
            && L[0] == 0x00 && L[1] == 0xa0 && L[2] == 0x01 && L[3] == flag
            && L[4..5 + |func|] == Counted(func)
            && L[5 + |func|..q] == Counted(modName)
            && L[q..] == tail
  {
    var hdr: seq<Byte> := [0x00, IMPDEF_CLASS, IMPDEF_SUBTYPE, flag];
    var cf, cm := Counted(func), Counted(modName);
    var L := ImpDefLayout(flag, func, modName, tail);
    assert L[4..5 + |func|] == cf by { assert L == hdr + cf + (cm + tail); }
    assert L[5 + |func|..6 + |func| + |modName|] == cm by { assert L == (hdr + cf) + cm + tail; }
    assert L[6 + |func| + |modName|..] == tail by { assert L == (hdr + cf + cm) + tail; }
  }

  /** The by-name branch of the decoder, once its three counted strings are read. */
  lemma DecodeByNameRead(buf: seq<Byte>, i: nat, next: nat, hdrLen: nat,
                         f: seq<Byte>, p: nat, m: seq<Byte>, q: nat, n: seq<Byte>)
    requires next <= |buf| && hdrLen >= 11 && i + 3 < |buf|
    requires buf[i] == 0x00 && buf[i + 1] == 0xa0 && buf[i + 2] == 0x01 && buf[i + 3] == 0
    requires ReadCounted(buf, i + 4, next) == Some((f, p))
    requires ReadCounted(buf, p, next) == Some((m, q))
    requires ReadCounted(buf, q, next) == Some((n, next - 1))
    ensures DecodeComent(buf, i, next, hdrLen)
      == ImpDef(ImportEntry(BytesToChars(f), BytesToChars(m),
                            ByName(BytesToChars(if buf[q] == 0 then f else n))))
  {
  }

  /** The by-ordinal branch of the decoder, once its two counted strings are read. */
  lemma DecodeByOrdinalRead(buf: seq<Byte>, i: nat, next: nat, hdrLen: nat,
                            f: seq<Byte>, p: nat, m: seq<Byte>, q: nat)
    requires next <= |buf| && hdrLen >= 11 && i + 3 < |buf|
    requires buf[i] == 0x00 && buf[i + 1] == 0xa0 && buf[i + 2] == 0x01 && buf[i + 3] == 1
    requires ReadCounted(buf, i + 4, next) == Some((f, p))
    requires ReadCounted(buf, p, next) == Some((m, q))
    requires q + 3 == next
    ensures DecodeComent(buf, i, next, hdrLen)
      == ImpDef(ImportEntry(BytesToChars(f), BytesToChars(m), ByOrdinal(buf[q] as int + 256 * buf[q + 1] as int)))
  {
  }

  /** The by-name branch of the decoder over a laid-out body ending at `next`. */
  lemma DecodeByName(buf: seq<Byte>, i: nat, next: nat, hdrLen: nat,
                     func: string, modName: string, n: string)
    requires Storable(func) && Storable(modName) && Storable(n)
    requires next <= |buf| && hdrLen >= 11
    requires next == i + 7 + |func| + |modName| + |n| + 1
    requires buf[i] == 0x00 && buf[i + 1] == 0xa0 && buf[i + 2] == 0x01 && buf[i + 3] == 0
    requires buf[i + 4..i + 5 + |func|] == Counted(func)
    requires buf[i + 5 + |func|..i + 6 + |func| + |modName|] == Counted(modName)
    requires buf[i + 6 + |func| + |modName|..next - 1] == Counted(n)
    ensures DecodeComent(buf, i, next, hdrLen)
      == ImpDef(ImportEntry(func, modName, ByName(if n == "" then func else n)))
  {
    var p, q := i + 5 + |func|, i + 6 + |func| + |modName|;
    ReadCountedOf(buf, i + 4, next, func);
    ReadCountedOf(buf, p, next, modName);
    ReadCountedOf(buf, q, next, n);
    assert buf[q] == Counted(n)[0];
    BytesCharsRoundTrip(func);
    BytesCharsRoundTrip(modName);
    BytesCharsRoundTrip(n);
    DecodeByNameRead(buf, i, next, hdrLen, CharsToBytes(func), p, CharsToBytes(modName), q, CharsToBytes(n));
  }

  /** The by-ordinal branch of the decoder over a laid-out body ending at `next`. */
  lemma DecodeByOrdinal(buf: seq<Byte>, i: nat, next: nat, hdrLen: nat,
                        func: string, modName: string)
    requires Storable(func) && Storable(modName)
    requires next <= |buf| && hdrLen >= 11
    requires next == i + 6 + |func| + |modName| + 3
    requires buf[i] == 0x00 && buf[i + 1] == 0xa0 && buf[i + 2] == 0x01 && buf[i + 3] == 1
    requires buf[i + 4..i + 5 + |func|] == Counted(func)
    requires buf[i + 5 + |func|..i + 6 + |func| + |modName|] == Counted(modName)
    ensures var q := i + 6 + |func| + |modName|;
            DecodeComent(buf, i, next, hdrLen)
              == ImpDef(ImportEntry(func, modName, ByOrdinal(buf[q] as int + 256 * buf[q + 1] as int)))
  {
    var p, q := i + 5 + |func|, i + 6 + |func| + |modName|;
    ReadCountedOf(buf, i + 4, next, func);
    ReadCountedOf(buf, p, next, modName);
    BytesCharsRoundTrip(func);
    BytesCharsRoundTrip(modName);
    DecodeByOrdinalRead(buf, i, next, hdrLen, CharsToBytes(func), p, CharsToBytes(modName), q);
  }

  /** The signature and the flag of an IMPDEF body copied into a buffer at `i`. */
  lemma HeaderInBuf(flag: Byte, func: string, modName: string, tail: seq<Byte>, buf: seq<Byte>, i: nat)
    requires Storable(func) && Storable(modName)
    requires var L := ImpDefLayout(flag, func, modName, tail);
             i + |L| <= |buf| && buf[i..i + |L|] == L
    ensures i + 3 < |buf|
    ensures buf[i] == 0x00 && buf[i + 1] == 0xa0 && buf[i + 2] == 0x01 && buf[i + 3] == flag
  {
    var L := ImpDefLayout(flag, func, modName, tail);
    LayoutPieces(flag, func, modName, tail);
    assert buf[i] == L[0] && buf[i + 1] == L[1] && buf[i + 2] == L[2] && buf[i + 3] == L[3];
  }

  /** The function and module names of an IMPDEF body copied into a buffer at `i`. */
  lemma NamesInBuf(flag: Byte, func: string, modName: string, tail: seq<Byte>, buf: seq<Byte>, i: nat)
    requires Storable(func) && Storable(modName)
    requires var L := ImpDefLayout(flag, func, modName, tail);
             i + |L| <= |buf| && buf[i..i + |L|] == L
    ensures buf[i + 4..i + 5 + |func|] == Counted(func)
    ensures buf[i + 5 + |func|..i + 6 + |func| + |modName|] == Counted(modName)
  {
    var L := ImpDefLayout(flag, func, modName, tail);
    LayoutPieces(flag, func, modName, tail);
    SliceOfSlice(buf, i, L, 4, 5 + |func|);
    SliceOfSlice(buf, i, L, 5 + |func|, 6 + |func| + |modName|);
  }

  /** What follows the names in an IMPDEF body copied into a buffer at `i`. */
  lemma TailInBuf(flag: Byte, func: string, modName: string, tail: seq<Byte>, buf: seq<Byte>, i: nat)
    requires Storable(func) && Storable(modName)
    requires var L := ImpDefLayout(flag, func, modName, tail);
             i + |L| <= |buf| && buf[i..i + |L|] == L
    ensures var q := 6 + |func| + |modName|;
            i + q + |tail| <= |buf| && buf[i + q..i + q + |tail|] == tail
  {
    var L := ImpDefLayout(flag, func, modName, tail);
    var q := 6 + |func| + |modName|;
    LayoutPieces(flag, func, modName, tail);
    SliceOfSlice(buf, i, L, q, |L|);
    assert L[q..|L|] == L[q..];
  }

  /** The by-name form of the comment, copied into a buffer at `i` and
      followed by one more byte up to `next`, decodes to its names; an empty
      export name stands for the function name. */
  lemma LayoutByName(func: string, modName: string, n: string, buf: seq<Byte>, i: nat, next: nat, hdrLen: nat)
    requires Storable(func) && Storable(modName) && Storable(n)
    requires hdrLen >= 11
    requires var L := ImpDefLayout(0x00, func, modName, Counted(n));
             next == i + |L| + 1 && next <= |buf| && buf[i..i + |L|] == L
    ensures DecodeComent(buf, i, next, hdrLen)
              == ImpDef(ImportEntry(func, modName, ByName(if n == "" then func else n)))
  {
    var tail := Counted(n);
    LayoutPieces(0x00, func, modName, tail);
    HeaderInBuf(0x00, func, modName, tail, buf, i);
    NamesInBuf(0x00, func, modName, tail, buf, i);
    TailInBuf(0x00, func, modName, tail, buf, i);
    DecodeByName(buf, i, next, hdrLen, func, modName, n);
  }

  /** The by-ordinal form of the comment, copied into a buffer at `i` and
      followed by one more byte up to `next`, decodes to its names and the
      little-endian value of its two ordinal bytes. */
  lemma LayoutByOrdinal(func: string, modName: string, lo: Byte, hi: Byte, buf: seq<Byte>, i: nat, next: nat, hdrLen: nat)
    requires Storable(func) && Storable(modName)
    requires hdrLen >= 11
    requires var L := ImpDefLayout(0x01, func, modName, [lo, hi]);
             next == i + |L| + 1 && next <= |buf| && buf[i..i + |L|] == L
    ensures DecodeComent(buf, i, next, hdrLen)
              == ImpDef(ImportEntry(func, modName, ByOrdinal(lo as int + 256 * hi as int)))
  {
    var tail: seq<Byte> := [lo, hi];
    var q := 6 + |func| + |modName|;
    LayoutPieces(0x01, func, modName, tail);
    HeaderInBuf(0x01, func, modName, tail, buf, i);
    NamesInBuf(0x01, func, modName, tail, buf, i);
    TailInBuf(0x01, func, modName, tail, buf, i);
    assert buf[i + q] == lo && buf[i + q + 1] == hi by {
      assert buf[i + q..i + q + 2][0] == lo && buf[i + q..i + q + 2][1] == hi;
    }
    DecodeByOrdinal(buf, i, next, hdrLen, func, modName);
  }

  /** The by-name case of `ImpDefRoundTrip`. */
  lemma ImpDefRoundTripByName(func: string, modName: string, ord: int, name: string,
                              buf: seq<Byte>, i: nat, next: nat, hdrLen: nat)
    requires Storable(func) && Storable(modName) && Storable(name)
    requires ord < 1 && |name| > 0 && hdrLen >= 11
    requires var P := ImpDefPayload(func, modName, ord, name);
             next == i + |P| + 1 && next <= |buf| && buf[i..i + |P|] == P
    ensures DecodeComent(buf, i, next, hdrLen) == ImpDef(ImportEntry(func, modName, ByName(name)))
  {
    var n := if func == name then "" else name;
    assert ImpDefTail(func, ord, name) == Counted(n);
    LayoutByName(func, modName, n, buf, i, next, hdrLen);
  }

  /** The by-ordinal case of `ImpDefRoundTrip`. */
  lemma ImpDefRoundTripByOrdinal(func: string, modName: string, ord: int, name: string,
                                 buf: seq<Byte>, i: nat, next: nat, hdrLen: nat)
    requires Storable(func) && Storable(modName) && Storable(name)
    requires ord >= 1 && hdrLen >= 11
    requires var P := ImpDefPayload(func, modName, ord, name);
             next == i + |P| + 1 && next <= |buf| && buf[i..i + |P|] == P
    ensures DecodeComent(buf, i, next, hdrLen) == ImpDef(ImportEntry(func, modName, ByOrdinal(ord % 65536)))
  {
    var b := OrdinalBytes(ord);
    assert ImpDefTail(func, ord, name) == [b[0], b[1]];
    LayoutByOrdinal(func, modName, b[0], b[1], buf, i, next, hdrLen);
    LittleEndian16(ord);
  }

  /** Decoding the comment `write_lib_import` builds, copied anywhere into a
      library buffer and followed there by one more byte (the checksum, at
      `next - 1`), gives back the function name, the module name and the
      ordinal or the export name. */
  lemma ImpDefRoundTrip(func: string, modName: string, ord: int, name: string,
                        buf: seq<Byte>, i: nat, next: nat, hdrLen: nat)
    requires Storable(func) && Storable(modName) && Storable(name)
    requires ord < 1 ==> |name| > 0
    requires hdrLen >= 11
    requires var P := ImpDefPayload(func, modName, ord, name);
             next == i + |P| + 1 && next <= |buf| && buf[i..i + |P|] == P
    ensures DecodeComent(buf, i, next, hdrLen)
              == ImpDef(ImportEntry(func, modName, if ord < 1 then ByName(name) else ByOrdinal(ord % 65536)))
  {
    if ord < 1 {
      ImpDefRoundTripByName(func, modName, ord, name, buf, i, next, hdrLen);
    } else {
      ImpDefRoundTripByOrdinal(func, modName, ord, name, buf, i, next, hdrLen);
    }
  }

  // Bitwise operations on naturals, for `(next & (page_size-1))` and
  // `(next | (page_size-1)) + 1` (emximp.c:821-822).

  function BitAnd(a: nat, b: nat): nat
  {
    if a == 0 || b == 0 then 0
    else 2 * BitAnd(a / 2, b / 2) + (if a % 2 == 1 && b % 2 == 1 then 1 else 0)
  }

  function BitOr(a: nat, b: nat): (r: nat)
    ensures a <= r
  {
    if a == 0 then b
    else if b == 0 then a
    else 2 * BitOr(a / 2, b / 2) + (if a % 2 == 1 || b % 2 == 1 then 1 else 0)
  }

  function Pow2(k: nat): (r: nat)
    ensures r >= 1
  {
    if k == 0 then 1 else 2 * Pow2(k - 1)
  }

  ghost predicate IsPowerOfTwo(n: nat)
  {
    exists k: nat :: n == Pow2(k)
  }

  /** Where the cursor goes after a MODEND record ending at `next`, with the
      page size derived from the library header (not always a power of two). */
  function AlignNext(next: nat, pageSize: nat): (r: nat)
    requires pageSize >= 1
    ensures next <= r
  {
    if BitAnd(next, pageSize - 1) != 0 then BitOr(next, pageSize - 1) + 1 else next
  }

  lemma MulAtLeast(d: nat, x: nat)
    requires x >= 1
    ensures d * x >= d
  {
  }

  lemma DivModUnique(n: nat, d: nat, q: nat, r: nat)
    requires d > 0 && n == d * q + r && r < d
    ensures n / d == q && n % d == r
  {
    var q0, r0 := n / d, n % d;
    assert n == d * q0 + r0 && r0 < d;
    if q0 < q {
      MulAtLeast(d, q - q0);
    } else if q < q0 {
      MulAtLeast(d, q0 - q);
    }
  }

  /** Splitting n by 2m through its half: quotient and remainder by 2m. */
  lemma Halve(n: nat, m: nat)
    requires m > 0
    ensures n % (2 * m) == 2 * ((n / 2) % m) + n % 2
  {
    var h := n / 2;
    var q, r := h / m, h % m;
    assert h == m * q + r;
    assert n == 2 * h + n % 2;
    assert n == (2 * m) * q + (2 * r + n % 2);
    DivModUnique(n, 2 * m, q, 2 * r + n % 2);
  }

  /** A mask of k low ones, for k > 0, is one more low bit on a mask of k - 1. */
  lemma MaskHalves(k: nat)
    requires k > 0
    ensures Pow2(k) == 2 * Pow2(k - 1)
    ensures (Pow2(k) - 1) / 2 == Pow2(k - 1) - 1 && (Pow2(k) - 1) % 2 == 1
  {
  }

  /** 2m - 1 is odd, and halving it drops its low bit. */
  lemma OddMask(m: nat)
    requires m >= 1
    ensures (2 * m - 1) / 2 == m - 1 && (2 * m - 1) % 2 == 1
  {
    DivModUnique(2 * m - 1, 2, m - 1, 1);
  }

  /** One bit of `&` with the mask 2m - 1. */
  lemma AndStep(n: nat, m: nat)
    requires n > 0 && m >= 1
    requires BitAnd(n / 2, m - 1) == (n / 2) % m
    ensures BitAnd(n, 2 * m - 1) == n % (2 * m)
  {
    OddMask(m);
    var h, b := n / 2, n % 2;
    assert BitAnd(n, 2 * m - 1) == 2 * BitAnd(h, m - 1) + b;
    Halve(n, m);
  }

  /** One bit of `|` with the mask 2m - 1. */
  lemma OrStep(n: nat, m: nat)
    requires n > 0 && m >= 1
    requires BitOr(n / 2, m - 1) == n / 2 - (n / 2) % m + m - 1
    ensures BitOr(n, 2 * m - 1) == n - n % (2 * m) + 2 * m - 1
  {
    OddMask(m);
    var h, b, r := n / 2, n % 2, (n / 2) % m;
    assert BitOr(n, 2 * m - 1) == 2 * BitOr(h, m - 1) + 1;
    Halve(n, m);
    assert n % (2 * m) == 2 * r + b;
    assert n == 2 * h + b;
  }

  /** With a mask of k low ones, `&` keeps the remainder by 2^k. */
  lemma {:induction false} LowMaskAnd(n: nat, k: nat)
    ensures BitAnd(n, Pow2(k) - 1) == n % Pow2(k)
  {
    if k > 0 && n > 0 {
      MaskHalves(k);
      LowMaskAnd(n / 2, k - 1);
      AndStep(n, Pow2(k - 1));
    } else if k == 0 {
      assert Pow2(k) == 1;
    } else {
      assert n % Pow2(k) == 0;
    }
  }

  /** With a mask of k low ones, `|` fills the remainder by 2^k up to 2^k - 1. */
  lemma {:induction false} LowMaskOr(n: nat, k: nat)
    ensures BitOr(n, Pow2(k) - 1) == n - n % Pow2(k) + Pow2(k) - 1
  {
    if k > 0 && n > 0 {
      var m := Pow2(k - 1);
      assert Pow2(k) == 2 * m;
      LowMaskOr(n / 2, k - 1);
      OrStep(n, m);
    } else if k == 0 {
      assert Pow2(k) == 1;
    } else {
      DivModUnique(0, Pow2(k), 0, 0);
    }
  }

  /** Rounding n up past its remainder lands on the next multiple of d. */
  lemma NextMultiple(n: nat, d: nat)
    requires d > 0
    ensures (n - n % d + d) % d == 0
  {
    var q := n / d;
    assert n - n % d + d == d * (q + 1);
    DivModUnique(d * (q + 1), d, q + 1, 0);
  }

  /** For a power-of-two page size, the cursor after MODEND is the next
      multiple of the page size, and stays put when it is already aligned. */
  lemma AlignNextRoundsUp(next: nat, pageSize: nat)
    requires pageSize >= 1 && IsPowerOfTwo(pageSize)
    ensures AlignNext(next, pageSize) % pageSize == 0
    ensures next <= AlignNext(next, pageSize) < next + pageSize
    ensures next % pageSize == 0 ==> AlignNext(next, pageSize) == next
  {
    var k: nat :| pageSize == Pow2(k);
    LowMaskAnd(next, k);
    LowMaskOr(next, k);
    var r := next % pageSize;
    assert AlignNext(next, pageSize) == if r != 0 then next - r + pageSize else next;
    NextMultiple(next, pageSize);
  }
}
