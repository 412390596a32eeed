/** `_defext` (defext.c): give a file name a default extension, in place.

    The name lives in a `char` buffer as a C string; the model's buffer is an
    array of characters whose string is the part before the first NUL. */
module Defext {
  import opened Common
  import opened Getname

  /** Some '.' stands at or after index `lo`. */
  predicate HasDotFrom(s: string, lo: nat)
  {
    exists j :: lo <= j < |s| && s[j] == '.'
  }

  /** The final component of `s` is non-empty and has no '.' anywhere. */
  predicate NeedsExt(s: string)
  {
    NameStart(s) < |s| && !HasDotFrom(s, NameStart(s))
  }

  /** The name `_defext` leaves behind: `s` + "." + `ext` when the final
      component needs an extension, `s` itself otherwise. */
  function DefaultExt(s: string, ext: string): string
  {
    if NeedsExt(s) then s + "." + ext else s
  }

  /** The original name is always a prefix of the result. */
  lemma DefaultExtPrefix(s: string, ext: string)
    ensures s <= DefaultExt(s, ext)
    ensures |DefaultExt(s, ext)| == |s| || |DefaultExt(s, ext)| == |s| + 1 + |ext|
  {
  }

  /** A '.' anywhere in the final component, its first character included,
      leaves the name alone. */
  lemma DotInFinalComponentKeepsName(s: string, ext: string, k: nat)
    requires NameStart(s) <= k < |s| && s[k] == '.'
    ensures DefaultExt(s, ext) == s
  {
  }

  /** An empty name, or one ending in a separator, is left alone. */
  lemma EmptyFinalComponentKeepsName(s: string, ext: string)
    requires |s| == 0 || IsSep(s[|s| - 1])
    ensures DefaultExt(s, ext) == s
  {
  }

  /** A '.' in a directory part does not count: "dir.d/name" becomes "dir.d/name.ext". */
  lemma DotBeforeSeparatorIgnored(dir: string, c: char, name: string, ext: string)
    requires IsSep(c)
    requires |name| > 0 && forall j :: 0 <= j < |name| ==> !IsSep(name[j]) && name[j] != '.'
    ensures DefaultExt(dir + [c] + name, ext) == dir + [c] + name + "." + ext
  {
    var s := dir + [c] + name;
    assert s[|dir|] == c;
    forall j | |dir| + 1 <= j < |s|
      ensures !IsSep(s[j]) && s[j] != '.'
    {
      assert s[j] == name[j - |dir| - 1];
    }
    NameStartUnique(s, |dir| + 1);
  }

  /** For an extension without separators, applying `_defext` twice is the
      same as applying it once. */
  lemma DefaultExtIdempotent(s: string, ext: string)
    requires forall j :: 0 <= j < |ext| ==> !IsSep(ext[j])
    ensures DefaultExt(DefaultExt(s, ext), ext) == DefaultExt(s, ext)
  {
    if NeedsExt(s) {
      var t := s + "." + ext;
      var tail := "." + ext;
      assert t == s + tail;
      forall j | 0 <= j < |tail|
        ensures !IsSep(tail[j])
      {
        if j > 0 { assert tail[j] == ext[j - 1]; }
      }
      NameStartAppend(s, tail);
      assert t[|s|] == '.';
      assert HasDotFrom(t, NameStart(t));
    }
  }

  /** The length of the C string held in a buffer: the index of its first NUL. */
  function StrLen(buf: seq<char>): (n: nat)
    requires '\0' in buf
    ensures n < |buf| && buf[n] == '\0'
    ensures forall j :: 0 <= j < n ==> buf[j] != '\0'
  {
    NulFrom(buf, 0)
  }

  /** The first NUL at or after index k, when none comes before k. */
  function NulFrom(buf: seq<char>, k: nat): (n: nat)
    requires k <= |buf| && '\0' in buf[k..]
    requires forall j :: 0 <= j < k ==> buf[j] != '\0'
    ensures k <= n < |buf| && buf[n] == '\0'
    ensures forall j :: 0 <= j < n ==> buf[j] != '\0'
    decreases |buf| - k
  {
    if buf[k] == '\0' then k
    else
      assert '\0' in buf[k + 1..] by {
        var j :| k <= j < |buf| && buf[j] == '\0';
        assert buf[k + 1..][j - k - 1] == '\0';
      }
      NulFrom(buf, k + 1)
  }

  /** The C string held in a buffer. */
  function CStr(buf: seq<char>): string
    requires '\0' in buf
  {
    buf[..StrLen(buf)]
  }

  lemma StrLenOfPrefixed(buf: seq<char>, n: nat)
    requires n < |buf| && buf[n] == '\0'
    requires forall j :: 0 <= j < n ==> buf[j] != '\0'
    ensures '\0' in buf && StrLen(buf) == n
  {
    assert buf[n] in buf;
  }

  /** One more character of the scan: a separator clears `dot`, a '.' sets it. */
  lemma ScanStep(s: string, i: nat)
    requires i < |s|
    ensures HasDotFrom(s[..i + 1], NameStart(s[..i + 1])) ==
      if IsSep(s[i]) then false
      else if s[i] == '.' then true
      else HasDotFrom(s[..i], NameStart(s[..i]))
  {
    var t, u := s[..i], s[..i + 1];
    assert u[..i] == t;
    NameStartStep(s, i);
    if !IsSep(s[i]) {
      var f := NameStart(t);
      if s[i] == '.' {
        assert u[i] == '.';
      } else if HasDotFrom(t, f) {
        var j :| f <= j < |t| && t[j] == '.';
        assert u[j] == '.';
      }
    }
  }

  /** The final component starts at the end exactly when the last character
      is a separator or there is none. */
  lemma StartMeansSep(s: string)
    ensures NameStart(s) == |s| <==> (|s| == 0 || IsSep(s[|s| - 1]))
  {
  }

  /** defext.c:19-52. The scan keeps `dot` (a '.' since the last separator)
      and `sep` (the previous character is a separator, or there is none);
      when both are false it writes '.' and `ext` over the terminating NUL. */
  method DefExt(dst: array<char>, ext: string)
    requires '\0' in dst[..] && '\0' !in ext
    // the caller's buffer has room for the extension whenever one is added
    requires NeedsExt(CStr(dst[..])) ==> StrLen(dst[..]) + |ext| + 2 <= dst.Length
    modifies dst
    ensures '\0' in dst[..] && CStr(dst[..]) == DefaultExt(old(CStr(dst[..])), ext)
    ensures var n := old(StrLen(dst[..]));
            if NeedsExt(old(CStr(dst[..])))
            then dst[..] == old(dst[..n]) + "." + ext + "\0" + old(dst[n + |ext| + 2..])
            else dst[..] == old(dst[..])
  {
    ghost var buf := dst[..];
    var i, dot, sep := Scan(dst);
    StartMeansSep(CStr(buf));
    if !dot && !sep {
      dst[i] := '.';
      StrCpy(dst, i + 1, ext);
      AppendedExt(buf, ext, dst[..]);
    }
  }

  /** The scanning loop of defext.c:24-40: `dot` records a '.' since the
      last separator, `sep` that the previous character is a separator (or
      that there is none); the scan stops on the terminating NUL. */
  method Scan(dst: array<char>) returns (i: nat, dot: bool, sep: bool)
    requires '\0' in dst[..]
    ensures i == StrLen(dst[..])
    ensures dot == HasDotFrom(CStr(dst[..]), NameStart(CStr(dst[..])))
    ensures sep == (i == 0 || IsSep(dst[i - 1]))
  {
    ghost var n := StrLen(dst[..]);
    ghost var s := dst[..n];
    dot, sep := false, true;
    i := 0;
    while dst[i] != '\0'
      invariant i <= n
      invariant sep == (i == 0 || IsSep(s[i - 1]))
      invariant dot == HasDotFrom(s[..i], NameStart(s[..i]))
      decreases n - i
    {
      ScanStep(s, i);
      var c := dst[i];
      i := i + 1;
      if c == '.' {
        dot, sep := true, false;
      } else if IsSep(c) {
        dot, sep := false, true;
      } else {
        sep := false;
      }
    }
    assert s[..i] == s;
  }

  /** The buffer after '.' and `ext` are written over the NUL holds the
      extended name. */
  lemma AppendedExt(buf: seq<char>, ext: string, out: seq<char>)
    requires '\0' in buf && '\0' !in ext
    requires StrLen(buf) + |ext| + 2 <= |buf|
    requires out == buf[..StrLen(buf)] + ['.'] + ext + "\0" + buf[StrLen(buf) + |ext| + 2..]
    ensures '\0' in out && CStr(out) == CStr(buf) + "." + ext
  {
    var n := StrLen(buf);
    assert '\0' !in buf[..n];
    AppendedName(buf[..n], ext, buf[n + |ext| + 2..]);
  }

  /** A name without NUL, then '.', `ext` and a NUL: the C string is the
      extended name, whatever follows. */
  lemma AppendedName(pre: string, ext: string, rest: seq<char>)
    requires '\0' !in pre && '\0' !in ext
    ensures var out := pre + "." + ext + "\0" + rest;
            '\0' in out && CStr(out) == pre + "." + ext
  {
    var name := pre + "." + ext;
    var out := name + "\0" + rest;
    forall j | 0 <= j < |name|
      ensures out[j] != '\0'
    {
      assert out[j] == name[j];
      if j < |pre| { assert name[j] == pre[j]; }
      else if j > |pre| { assert name[j] == ext[j - |pre| - 1]; }
    }
    assert out[|name|] == '\0';
    StrLenOfPrefixed(out, |name|);
    assert out[..|name|] == name;
  }

  /** `strcpy (dst + at, src)`: the characters of `src`, then a NUL. */
  method StrCpy(dst: array<char>, at: nat, src: string)
    requires at + |src| < dst.Length
    modifies dst
    ensures dst[..] == old(dst[..at]) + src + "\0" + old(dst[at + |src| + 1..])
  {
    ghost var buf := dst[..];
    var k := 0;
    while k < |src|
      invariant 0 <= k <= |src|
      invariant dst[..] == buf[..at] + src[..k] + buf[at + k..]
    {
      dst[at + k] := src[k];
      assert src[..k + 1] == src[..k] + [src[k]];
      k := k + 1;
    }
    dst[at + k] := '\0';
    assert src[..k] == src;
  }
}
