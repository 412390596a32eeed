/** `_getname` (getname.c): the final component of a path name.

    A path is the contents of a C string (the characters before its NUL). The
    C function returns a pointer into the path; the model returns the index
    that pointer designates, so the result string is `path[p..]`. */
module Getname {
  import opened Common

  /** Where the final component of `path` starts: just after its last
      ':', '/' or '\\', or at 0 when there is none. */
  function NameStart(path: string): (p: nat)
    ensures p <= |path|
    ensures forall j :: p <= j < |path| ==> !IsSep(path[j])
    ensures p == 0 || IsSep(path[p - 1])
  {
    if |path| == 0 then 0
    else if IsSep(path[|path| - 1]) then |path|
    else NameStart(path[..|path| - 1])
  }

  /** The three properties of `NameStart` pin it down: no other index has them. */
  lemma NameStartUnique(path: string, q: nat)
    requires q <= |path|
    requires forall j :: q <= j < |path| ==> !IsSep(path[j])
    requires q == 0 || IsSep(path[q - 1])
    ensures q == NameStart(path)
  {
  }

  /** Scanning one more character: a separator moves the start past it. */
  lemma NameStartStep(path: string, i: nat)
    requires i < |path|
    ensures NameStart(path[..i + 1]) == if IsSep(path[i]) then i + 1 else NameStart(path[..i])
  {
    assert path[..i + 1][..i] == path[..i];
  }

  /** Appending characters that are not separators keeps the final component's start. */
  lemma NameStartAppend(s: string, t: string)
    requires forall j :: 0 <= j < |t| ==> !IsSep(t[j])
    ensures NameStart(s + t) == NameStart(s)
  {
    var p := NameStart(s);
    forall j | p <= j < |s + t|
      ensures !IsSep((s + t)[j])
    {
      if j >= |s| { assert (s + t)[j] == t[j - |s|]; }
    }
    if p > 0 { assert (s + t)[p - 1] == s[p - 1]; }
    NameStartUnique(s + t, p);
  }

  /** getname.c:15-26: `p` follows the scan and is reset just past every separator. */
  method GetName(path: string) returns (p: nat)
    ensures p == NameStart(path)
  {
    p := 0;
    var i := 0;
    while i < |path|
      invariant i <= |path|
      invariant p == NameStart(path[..i])
    {
      NameStartStep(path, i);
      var c := path[i];
      i := i + 1;
      if IsSep(c) {
        p := i;
      }
    }
    assert path[..i] == path;
  }

  /** A path without separators is its own final component. */
  lemma NoSeparatorWholePath(path: string)
    requires forall j :: 0 <= j < |path| ==> !IsSep(path[j])
    ensures NameStart(path) == 0
  {
  }

  /** A path ending in a separator has an empty final component. */
  lemma TrailingSeparatorEmptyName(path: string)
    requires |path| > 0 && IsSep(path[|path| - 1])
    ensures NameStart(path) == |path|
  {
  }
}
