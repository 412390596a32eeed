/** Vocabulary shared by the whole model: bytes, optional values, the C
    character classes the tools scan with, and decimal text as printf writes it. */
module Common {

  /** One unsigned byte (`byte` in defs.h). */
  type Byte = b: int | 0 <= b < 256

  datatype Option<T> = None | Some(value: T)

  /** The character at index p of a C string: '\0' at and past its end, so a
      scan that stops at NUL stops at the end of the sequence too. */
  function At(s: string, p: nat): char
  {
    if p < |s| then s[p] else '\0'
  }

  /** The three path separators of OS/2 file names. */
  predicate IsSep(c: char)
  {
    c == ':' || c == '/' || c == '\\'
  }

  /** `isspace` in the C locale: blank, \t, \n, \v, \f and \r. */
  predicate IsSpace(c: char)
  {
    c == ' ' || 9 <= c as int <= 13
  }

  /** `isdigit` in the C locale. */
  predicate IsDigit(c: char)
  {
    '0' <= c <= '9'
  }

  /** The `DELIM` macro of emximp.c: end of string or white space. */
  predicate IsDelim(c: char)
  {
    c == '\0' || IsSpace(c)
  }

  /** The contents of a C `char` string: no NUL inside, every char one byte. */
  predicate IsCString(s: string)
  {
    forall i :: 0 <= i < |s| ==> s[i] != '\0' && s[i] as int < 256
  }

  /** Case folding as `stricmp` does it for ASCII letters. */
  function Fold(c: char): char
  {
    if 'A' <= c <= 'Z' then (c as int + 32) as char else c
  }

  /** `stricmp (a, b) == 0`. */
  predicate EqualsIgnoreCase(a: string, b: string)
  {
    |a| == |b| && forall i :: 0 <= i < |a| ==> Fold(a[i]) == Fold(b[i])
  }

  lemma EqualsIgnoreCaseSymmetric(a: string, b: string)
    requires EqualsIgnoreCase(a, b)
    ensures EqualsIgnoreCase(b, a)
  {
  }

  lemma EqualsIgnoreCaseTransitive(a: string, b: string, c: string)
    requires EqualsIgnoreCase(a, b) && EqualsIgnoreCase(b, c)
    ensures EqualsIgnoreCase(a, c)
  {
  }

  function Spaces(n: nat): (r: string)
    ensures |r| == n
    ensures forall i :: 0 <= i < n ==> r[i] == ' '
  {
    if n == 0 then [] else Spaces(n - 1) + [' ']
  }

  /** printf's `%-<w>s`: the string, then blanks up to width w. */
  function PadRight(s: string, w: nat): (r: string)
    ensures |r| == if |s| < w then w else |s|
    ensures r[..|s|] == s
    ensures forall i :: |s| <= i < |r| ==> r[i] == ' '
  {
    if |s| < w then s + Spaces(w - |s|) else s
  }

  /** printf's `%<w>s` (and `%<w>d` on its digits): blanks, then the string. */
  function PadLeft(s: string, w: nat): (r: string)
    ensures |r| == if |s| < w then w else |s|
    ensures r[|r| - |s|..] == s
    ensures forall i :: 0 <= i < |r| - |s| ==> r[i] == ' '
  {
    if |s| < w then Spaces(w - |s|) + s else s
  }

  function DigitChar(d: nat): (c: char)
    requires d < 10
    ensures IsDigit(c)
  {
    ('0' as int + d) as char
  }

  function DigitValue(c: char): (d: nat)
    requires IsDigit(c)
    ensures d < 10
  {
    c as int - '0' as int
  }

  predicate AllDigits(s: string)
  {
    forall i :: 0 <= i < |s| ==> IsDigit(s[i])
  }

  /** printf's `%d` for a non-negative value. */
  function NatToDecimal(n: nat): (r: string)
    ensures 1 <= |r| && AllDigits(r)
    ensures r[0] == '0' ==> n == 0
  {
    if n < 10 then [DigitChar(n)] else NatToDecimal(n / 10) + [DigitChar(n % 10)]
  }

  /** printf's `%d` / `%ld`. */
  function IntToDecimal(n: int): (r: string)
    ensures 1 <= |r|
    ensures n >= 0 ==> AllDigits(r)
    ensures n < 0 ==> r[0] == '-' && AllDigits(r[1..])
  {
    if n < 0 then "-" + NatToDecimal(-n) else NatToDecimal(n)
  }

  /** The value a run of decimal digits denotes. */
  function DecimalValue(s: string): nat
    requires AllDigits(s)
  {
    if s == [] then 0 else DecimalValue(s[..|s| - 1]) * 10 + DigitValue(s[|s| - 1])
  }

  /** Printing a number in decimal and reading the digits back gives the number. */
  lemma {:induction false} DecimalRoundTrip(n: nat)
    ensures DecimalValue(NatToDecimal(n)) == n
  {
    if n >= 10 {
      DecimalRoundTrip(n / 10);
      var s := NatToDecimal(n);
      assert s[..|s| - 1] == NatToDecimal(n / 10);
    }
  }

  /** Two numbers print the same only if they are equal. */
  lemma DecimalInjective(m: nat, n: nat)
    requires NatToDecimal(m) == NatToDecimal(n)
    ensures m == n
  {
    DecimalRoundTrip(m);
    DecimalRoundTrip(n);
  }

  /** The prefix that marks a 16-bit function in the `.imp` and library formats. */
  const FAR16_PREFIX: string := "_16_"

  /** `strncmp (s, "_16_", 4) == 0`. */
  predicate HasFar16Prefix(s: string)
  {
    |s| >= 4 && s[..4] == FAR16_PREFIX
  }

  /** The first index at or after p that is not white space. */
  function SkipSpaces(s: string, p: nat): (q: nat)
    requires p <= |s|
    ensures p <= q <= |s| && !IsSpace(At(s, q))
    ensures forall k :: p <= k < q ==> IsSpace(s[k])
    decreases |s| - p
  {
    if p < |s| && IsSpace(s[p]) then SkipSpaces(s, p + 1) else p
  }

  /** The first index at or after p that does not hold a digit. */
  function DigitsEnd(s: string, p: nat): (q: nat)
    requires p <= |s|
    ensures p <= q <= |s| && !IsDigit(At(s, q))
    ensures AllDigits(s[p..q])
    decreases |s| - p
  {
    if p < |s| && IsDigit(s[p]) then DigitsEnd(s, p + 1) else p
  }

  /** `LONG_MIN` and `LONG_MAX` of the 32-bit `long` of the target. */
  const LONG_MIN: int := -0x8000_0000
  const LONG_MAX: int := 0x7fff_ffff

  /** `strtol (s + p, &end, 10)`: blanks, an optional sign and a run of
      digits, the value saturated to the range of `long`; with no digit the
      value is 0 and `end` stays at p. */
  function Strtol(s: string, p: nat): (r: (int, nat))
    requires p <= |s|
    ensures LONG_MIN <= r.0 <= LONG_MAX && r.1 <= |s|
    ensures r.1 == p || p < r.1
  {
    var q := SkipSpaces(s, p);
    var d := if At(s, q) == '+' || At(s, q) == '-' then q + 1 else q;
    var e := DigitsEnd(s, d);
    if e == d then (0, p)
    else
      var v: int := if At(s, q) == '-' then 0 - DecimalValue(s[d..e]) else DecimalValue(s[d..e]);
      (if v < LONG_MIN then LONG_MIN else if v > LONG_MAX then LONG_MAX else v, e)
  }

  /** `strtol` reads back what `%d` printed for a value that fits in a `long`. */
  lemma StrtolDecimal(pre: string, n: nat, post: string)
    requires n <= LONG_MAX && !IsDigit(At(post, 0))
    ensures Strtol(pre + NatToDecimal(n) + post, |pre|) == (n, |pre| + |NatToDecimal(n)|)
  {
    var d := NatToDecimal(n);
    var s := pre + d + post;
    var p := |pre|;
    assert s[p] == d[0];
    assert s[p..p + |d|] == d;
    assert At(s, p + |d|) == At(post, 0);
    assert SkipSpaces(s, p) == p && At(s, p) != '+' && At(s, p) != '-';
    DigitsOver(s, p, |d|);
    DecimalRoundTrip(n);
  }

  /** A run of n digits followed by a non-digit ends where it should. */
  lemma {:induction false} DigitsOver(s: string, p: nat, n: nat)
    requires p + n <= |s| && AllDigits(s[p..p + n]) && !IsDigit(At(s, p + n))
    ensures DigitsEnd(s, p) == p + n
    decreases n
  {
    if n > 0 {
      assert IsDigit(s[p..p + n][0]);
      assert s[p + 1..p + n] == s[p..p + n][1..];
      DigitsOver(s, p + 1, n - 1);
    }
  }
}
