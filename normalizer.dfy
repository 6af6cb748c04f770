/** The line sanitiser `cleanPath` (main.go). */
module Normalizer {
  import opened Strings
  import opened FilePath

  /** The `strings.Map` filter of `cleanPath`: deletes exactly the control runes, keeping the rest in order. */
  function RemoveControls(s: string): (r: string)
    ensures forall c :: c in r <==> c in s && !IsControl(c)
    ensures |r| <= |s|
    ensures NoControl(s) ==> r == s
    decreases |s|
  {
    if s == [] then []
    else (if IsControl(s[0]) then [] else [s[0]]) + RemoveControls(s[1..])
  }

  /** The filter works rune by rune, so it keeps the order of the runes it does not delete. */
  lemma {:induction false} RemoveControlsAppend(a: string, b: string)
    ensures RemoveControls(a + b) == RemoveControls(a) + RemoveControls(b)
    decreases |a|
  {
    if a != [] {
      assert (a + b)[1..] == a[1..] + b;
      RemoveControlsAppend(a[1..], b);
    } else {
      assert a + b == b;
    }
  }

  /**
   * `cleanPath`: trim, delete control runes, trim again. The result has no
   * control rune and no space at either end. It does not clean the path lexically.
   */
  function CleanPath(path: string): (r: string)
    ensures NoControl(r)
  {
    TrimSpaceChars(RemoveControls(TrimSpace(path)));
    TrimSpace(RemoveControls(TrimSpace(path)))
  }

  /** cleanPath leaves no space at either end. */
  lemma CleanPathTrimmed(path: string)
    ensures IsTrimmed(CleanPath(path))
  {
    TrimSpaceTrims(RemoveControls(TrimSpace(path)));
  }

  /** cleanPath introduces no rune. */
  lemma CleanPathChars(path: string)
    ensures forall c :: c in CleanPath(path) ==> c in path
  {
    TrimSpaceChars(path);
    TrimSpaceChars(RemoveControls(TrimSpace(path)));
  }

  lemma CleanPathIdempotent(path: string)
    ensures CleanPath(CleanPath(path)) == CleanPath(path)
  {
    var r := CleanPath(path);
    CleanPathTrimmed(path);
    TrimSpaceTrims(r);
    assert TrimSpace(r) == r;
    assert RemoveControls(r) == r;
  }

  /** A trimmed path without control runes comes back unchanged. */
  lemma CleanPathKeeps(path: string)
    requires NoControl(path) && IsTrimmed(path)
    ensures CleanPath(path) == path
  {
    TrimSpaceTrims(path);
  }

  /** Trimming before sanitising makes no difference. */
  lemma CleanPathOfTrimmed(path: string)
    ensures CleanPath(TrimSpace(path)) == CleanPath(path)
  {
    TrimSpaceIdempotent(path);
  }

  /** A blank line sanitises to the empty string. */
  lemma CleanPathOfBlank(path: string)
    requires AllSpace(path)
    ensures CleanPath(path) == ""
  {
    TrimSpaceEmpty(path);
  }

  /** A line that is absolute once trimmed stays absolute: '/' is neither a space nor a control rune. */
  lemma CleanPathKeepsRoot(path: string)
    requires IsAbs(TrimSpace(path))
    ensures IsAbs(CleanPath(path))
  {
    var t := TrimSpace(path);
    var m := RemoveControls(t);
    assert m == ['/'] + RemoveControls(t[1..]);
    TrimSpaceKeepsFirst(m);
  }
}
