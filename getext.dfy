/** `_getext` (getext.c): the extension of a path name.

    The C function returns a pointer to the '.' that starts the extension, or
    NULL; the model returns the index of that '.', or None. */
module Getext {
  import opened Common
  import opened Getname

  /** The last '.' at or after index `lo`, if any. */
  function LastDot(path: string, lo: nat): (r: Option<nat>)
    requires lo <= |path|
    ensures r.Some? ==> lo <= r.value < |path| && path[r.value] == '.'
    ensures r.Some? ==> forall j :: r.value < j < |path| ==> path[j] != '.'
    ensures r.None? ==> forall j :: lo <= j < |path| ==> path[j] != '.'
  {
    if |path| == lo then None
    else if path[|path| - 1] == '.' then Some(|path| - 1)
    else LastDot(path[..|path| - 1], lo)
  }

  /** Some separator follows index k. */
  predicate SepAfter(path: string, k: nat)
  {
    exists j :: k < j < |path| && IsSep(path[j])
  }

  /** Where the extension starts: the last '.' of the final component, unless
      that '.' opens the component (".profile" has no extension). */
  function ExtDot(path: string): (r: Option<nat>)
    // the result is a '.' of the path
    ensures r.Some? ==> r.value < |path| && path[r.value] == '.'
    // neither at the start of the path nor right after a separator
    ensures r.Some? ==> r.value > 0 && !IsSep(path[r.value - 1])
    // no separator and no other '.' follows it
    ensures r.Some? ==> forall j :: r.value < j < |path| ==> !IsSep(path[j]) && path[j] != '.'
    // when there is none, every '.' opens a component or is followed by a separator
    ensures r.None? ==> forall k :: 0 < k < |path| && path[k] == '.' && !IsSep(path[k - 1]) ==>
                          SepAfter(path, k)
  {
    var f := NameStart(path);
    var d := LastDot(path, f);
    if d.Some? && d.value > f then d else None
  }

  /** Scanning one more character, as the loop of `_getext` does. */
  lemma ExtDotStep(path: string, i: nat)
    requires i < |path|
    ensures ExtDot(path[..i + 1]) ==
      if IsSep(path[i]) then None
      else if path[i] == '.' then (if i == 0 || IsSep(path[i - 1]) then None else Some(i))
      else ExtDot(path[..i])
  {
    var s, t := path[..i], path[..i + 1];
    assert t[..i] == s;
    NameStartStep(path, i);
    if !IsSep(path[i]) {
      var f := NameStart(s);
      assert NameStart(t) == f;
      if path[i] != '.' {
        assert LastDot(t, f) == LastDot(s, f);
      } else if i > 0 && IsSep(path[i - 1]) {
        assert f == i by { NameStartStep(path, i - 1); assert path[..i - 1 + 1] == s; }
      }
    }
  }

  /** getext.c:15-48: `sep` records whether the previous character was a
      separator (or there was none), `dotp` the candidate '.'. */
  method GetExt(path: string) returns (dot: Option<nat>)
    ensures dot == ExtDot(path)
  {
    var sep := true;
    dot := None;
    var i := 0;
    while i < |path|
      invariant i <= |path|
      invariant sep == (i == 0 || IsSep(path[i - 1]))
      invariant dot == ExtDot(path[..i])
    {
      ExtDotStep(path, i);
      var c := path[i];
      i := i + 1;
      if c == '.' {
        dot := if sep then None else Some(i - 1);
        sep := false;
      } else if IsSep(c) {
        dot := None;
        sep := true;
      } else {
        sep := false;
      }
    }
    assert path[..i] == path;
  }

  /** A path without any '.' has no extension. */
  lemma NoDotNoExtension(path: string)
    requires forall j :: 0 <= j < |path| ==> path[j] != '.'
    ensures ExtDot(path) == None
  {
  }

  /** ".profile": a leading '.' is not an extension. */
  lemma DotFileHasNoExtension()
    ensures ExtDot(".profile") == None
  {
    assert LastDot(".profile", 0) == Some(0) by {
      var s := ".profile";
      assert s[..1] == ".";
      assert LastDot(s[..1], 0) == Some(0);
    }
  }

  /** ".a.b": of the two qualifying dots the last one wins. */
  lemma LastDotWins()
    ensures ExtDot(".a.b") == Some(2)
  {
  }

  /** "dir.d/name": a '.' before a separator does not count. */
  lemma DotBeforeSeparatorIgnored()
    ensures ExtDot("dir.d/name") == None
  {
    NameStartUnique("dir.d/name", 6);
  }
}
