/**
 * Models of Go's `path/filepath` functions on a Unix system (separator '/'):
 * IsAbs, Clean, Join and Base, with the lexical facts the sync tool relies on.
 */
module FilePath {
  import opened Strings

  /** `filepath.IsAbs` on Unix: the path starts with the separator. */
  predicate IsAbs(p: string) {
    |p| > 0 && p[0] == '/'
  }

  /** A single directory-entry name: non-empty, no separator, and neither "." nor "..". */
  predicate IsName(n: string) {
    n != "" && n != "." && n != ".." && '/' !in n
  }

  /**
   * One element of Clean's scan. Empty and "." elements vanish; ".." removes the
   * element before it unless that is itself "..", is dropped at the root of a
   * rooted path, and is kept at the front of a relative one.
   */
  function Step(stack: seq<string>, e: string, rooted: bool): seq<string> {
    if e == "" || e == "." then stack
    else if e == ".." then
      if |stack| > 0 && stack[|stack| - 1] != ".." then stack[..|stack| - 1]
      else if rooted then stack
      else stack + [".."]
    else stack + [e]
  }

  function Fold(stack: seq<string>, elems: seq<string>, rooted: bool): seq<string>
    decreases |elems|
  {
    if elems == [] then stack else Fold(Step(stack, elems[0], rooted), elems[1..], rooted)
  }

  /** The text of a list of cleaned elements: "/" in front when rooted, "." when nothing is left. */
  function Render(stack: seq<string>, rooted: bool): string {
    if rooted then "/" + JoinWith(stack, '/')
    else if stack == [] then "."
    else JoinWith(stack, '/')
  }

  /**
   * The shape of Clean's element list: no empty, "." or separator-holding
   * element, every ".." before every other element, and no ".." under the root.
   */
  ghost predicate Canonical(stack: seq<string>, rooted: bool) {
    && (forall k :: 0 <= k < |stack| ==> stack[k] != "" && stack[k] != "." && '/' !in stack[k])
    && (forall i, j :: 0 <= i < j < |stack| && stack[j] == ".." ==> stack[i] == "..")
    && (rooted ==> forall k :: 0 <= k < |stack| ==> stack[k] != "..")
  }

  /** `filepath.Clean`: the shortest lexically equivalent path; never empty, rooted exactly when the input is. */
  function Clean(p: string): (r: string)
    ensures r != ""
    ensures IsAbs(r) <==> IsAbs(p)
  {
    var rooted := IsAbs(p);
    var stack := Fold([], Split(p, '/'), rooted);
    SplitPieces(p, '/');
    FoldCanonical([], Split(p, '/'), rooted);
    RenderShape(stack, rooted);
    Render(stack, rooted)
  }

  /** `filepath.Join` of two elements: the empty elements are skipped and the result cleaned. */
  function Join(a: string, b: string): (r: string)
    ensures a != "" || b != "" ==> r != ""
  {
    if a != "" then Clean(a + "/" + b)
    else if b != "" then Clean(b)
    else ""
  }

  /** Drops every trailing separator. */
  function StripTrailingSeparators(p: string): (r: string)
    ensures r <= p
    ensures r == [] || r[|r| - 1] != '/'
    decreases |p|
  {
    if p != [] && p[|p| - 1] == '/' then StripTrailingSeparators(p[..|p| - 1]) else p
  }

  /** The runes after the last separator. */
  function LastElement(p: string): (r: string)
    ensures '/' !in r
    ensures |r| <= |p| && r == p[|p| - |r|..]
    ensures |r| < |p| ==> p[|p| - |r| - 1] == '/'
    decreases |p|
  {
    if p == [] || p[|p| - 1] == '/' then [] else LastElement(p[..|p| - 1]) + [p[|p| - 1]]
  }

  /** `filepath.Base`: the last element after trailing separators are dropped; "." for "" and "/" for all-separators. */
  function Base(p: string): (r: string)
    ensures r != ""
    ensures r == "/" || '/' !in r
  {
    if p == "" then "."
    else
      var e := LastElement(StripTrailingSeparators(p));
      if e == "" then "/" else e
  }

  lemma StepCanonical(stack: seq<string>, e: string, rooted: bool)
    requires Canonical(stack, rooted) && '/' !in e
    ensures Canonical(Step(stack, e, rooted), rooted)
  {
  }

  /** Step only ever keeps elements it was given. */
  lemma {:induction false} FoldCanonical(stack: seq<string>, elems: seq<string>, rooted: bool)
    requires Canonical(stack, rooted)
    requires forall k :: 0 <= k < |elems| ==> '/' !in elems[k]
    ensures Canonical(Fold(stack, elems, rooted), rooted)
    decreases |elems|
  {
    if elems != [] {
      StepCanonical(stack, elems[0], rooted);
      FoldCanonical(Step(stack, elems[0], rooted), elems[1..], rooted);
    }
  }

  lemma {:induction false} FoldElements(stack: seq<string>, elems: seq<string>, rooted: bool, x: string)
    requires x in Fold(stack, elems, rooted)
    ensures x in stack || x in elems
    decreases |elems|
  {
    if elems != [] {
      FoldElements(Step(stack, elems[0], rooted), elems[1..], rooted, x);
    }
  }

  lemma {:induction false} FoldSnoc(stack: seq<string>, elems: seq<string>, e: string, rooted: bool)
    ensures Fold(stack, elems + [e], rooted) == Step(Fold(stack, elems, rooted), e, rooted)
    decreases |elems|
  {
    if elems == [] {
      assert Fold(Step(stack, e, rooted), [], rooted) == Step(stack, e, rooted);
    } else {
      assert (elems + [e])[1..] == elems[1..] + [e];
      FoldSnoc(Step(stack, elems[0], rooted), elems[1..], e, rooted);
    }
  }

  /** Folding an already canonical list changes nothing. */
  lemma {:induction false} FoldIdentity(stack: seq<string>, elems: seq<string>, rooted: bool)
    requires Canonical(stack + elems, rooted)
    ensures Fold(stack, elems, rooted) == stack + elems
    decreases |elems|
  {
    if elems != [] {
      var all := stack + elems;
      assert all[|stack|] == elems[0];
      if elems[0] == ".." && |stack| > 0 {
        assert all[|stack| - 1] == stack[|stack| - 1];
      }
      assert Step(stack, elems[0], rooted) == stack + [elems[0]];
      assert (stack + [elems[0]]) + elems[1..] == all;
      FoldIdentity(stack + [elems[0]], elems[1..], rooted);
    }
  }

  lemma RenderShape(stack: seq<string>, rooted: bool)
    requires Canonical(stack, rooted)
    ensures Render(stack, rooted) != ""
    ensures IsAbs(Render(stack, rooted)) <==> rooted
  {
    if !rooted && stack != [] {
      if |stack| > 1 {
        assert JoinWith(stack, '/') == stack[0] + "/" + JoinWith(stack[1..], '/');
      }
      assert JoinWith(stack, '/')[0] == stack[0][0];
      assert stack[0][0] in stack[0];
    }
  }

  lemma CleanOfRoot()
    ensures Clean("/") == "/"
  {
    assert Split("/", '/') == ["", ""] by {
      SplitAppendSep("", "", '/');
    }
  }

  lemma CleanOfDot()
    ensures Clean(".") == "."
  {
    assert Split(".", '/') == ["."] by {
      SplitNoSep(".", '/');
    }
  }

  lemma CleanOfRelative(stack: seq<string>)
    requires Canonical(stack, false) && stack != []
    ensures Clean(JoinWith(stack, '/')) == JoinWith(stack, '/')
  {
    var p := JoinWith(stack, '/');
    RenderShape(stack, false);
    assert !IsAbs(p);
    SplitJoinWith(stack, '/');
    FoldIdentity([], stack, false);
    assert Fold([], Split(p, '/'), false) == stack;
  }

  lemma CleanOfRooted(stack: seq<string>)
    requires Canonical(stack, true) && stack != []
    ensures Clean("/" + JoinWith(stack, '/')) == "/" + JoinWith(stack, '/')
  {
    var p := "/" + JoinWith(stack, '/');
    assert IsAbs(p);
    SplitJoinWith(stack, '/');
    assert p == [] + ['/'] + JoinWith(stack, '/');
    SplitAppendSep([], JoinWith(stack, '/'), '/');
    assert Split(p, '/') == [""] + stack;
    FoldIdentity([], stack, true);
    assert ([""] + stack)[1..] == stack;
    assert Fold([], Split(p, '/'), true) == stack;
    assert Render(stack, true) == p;
  }

  /** Cleaning the text of a canonical element list gives that text back. */
  lemma CleanOfCanonical(stack: seq<string>, rooted: bool)
    requires Canonical(stack, rooted)
    ensures Clean(Render(stack, rooted)) == Render(stack, rooted)
  {
    if stack == [] {
      if rooted { CleanOfRoot(); } else { CleanOfDot(); }
    } else if rooted {
      CleanOfRooted(stack);
    } else {
      CleanOfRelative(stack);
    }
  }

  /** Clean is idempotent. */
  lemma CleanIdempotent(p: string)
    ensures Clean(Clean(p)) == Clean(p)
  {
    var rooted := IsAbs(p);
    SplitPieces(p, '/');
    FoldCanonical([], Split(p, '/'), rooted);
    CleanOfCanonical(Fold([], Split(p, '/'), rooted), rooted);
  }

  /** The text of a cleaned path is the rendering of its canonical element list. */
  lemma CleanElements(p: string)
    ensures var rooted := IsAbs(p); var stack := Fold([], Split(p, '/'), rooted);
      Canonical(stack, rooted) && Clean(p) == Render(stack, rooted)
  {
    SplitPieces(p, '/');
    FoldCanonical([], Split(p, '/'), IsAbs(p));
  }

  /** Canonical lists concatenate when the second one, being rooted, holds no "..". */
  lemma CanonicalAppend(a: seq<string>, b: seq<string>, rooted: bool)
    requires Canonical(a, rooted) && Canonical(b, true)
    ensures Canonical(a + b, rooted)
  {
  }

  /** Rendering concatenated lists puts one separator between the two texts. */
  lemma RenderAppend(a: seq<string>, b: seq<string>, rooted: bool)
    requires a != [] && b != []
    ensures Render(a, rooted) + Render(b, true) == Render(a + b, rooted)
  {
    JoinWithAppend(a, b, '/');
    if rooted {
      AppendAssoc("/" + JoinWith(a, '/'), "/", JoinWith(b, '/'));
    }
  }

  /**
   * Appending a clean absolute path other than "/" to a clean path other than
   * "/" and "." gives a clean path.
   */
  lemma CleanConcat(d: string, s: string)
    requires Clean(d) == d && d != "/" && d != "."
    requires Clean(s) == s && IsAbs(s) && s != "/"
    ensures Clean(d + s) == d + s
  {
    var rooted := IsAbs(d);
    var sd := Fold([], Split(d, '/'), rooted);
    var ss := Fold([], Split(s, '/'), true);
    CleanElements(d);
    CleanElements(s);
    assert sd != [] && ss != [];
    RenderAppend(sd, ss, rooted);
    CanonicalAppend(sd, ss, rooted);
    CleanOfCanonical(sd + ss, rooted);
  }

  /** A trailing separator does not change a clean path. */
  lemma CleanTrailingSeparator(d: string)
    requires Clean(d) == d
    ensures Clean(d + "/") == d
  {
    var rooted := IsAbs(d);
    SplitAppendSep(d, "", '/');
    assert d + "/" == d + ['/'] + "";
    assert Split("", '/') == [""];
    FoldSnoc([], Split(d, '/'), "", rooted);
    CleanElements(d);
    assert IsAbs(d + "/") == rooted;
  }

  /** A non-empty path followed by a separator and an element cleans to one more step on the path's elements. */
  lemma CleanAppendElement(d: string, x: string)
    requires d != "" && '/' !in x
    ensures Clean(d + "/" + x) == Render(Step(Fold([], Split(d, '/'), IsAbs(d)), x, IsAbs(d)), IsAbs(d))
  {
    var rooted := IsAbs(d);
    assert IsAbs(d + "/" + x) == rooted;
    SplitNoSep(x, '/');
    SplitAppendSep(d, x, '/');
    FoldSnoc([], Split(d, '/'), x, rooted);
  }

  /** "." and "/" as the second element of a join leave a clean path as it is. */
  lemma JoinDotOrRoot(d: string, x: string)
    requires Clean(d) == d && (x == "." || x == "/")
    ensures Clean(d + "/" + x) == d
  {
    var rooted := IsAbs(d);
    CleanElements(d);
    if x == "." {
      CleanAppendElement(d, x);
    } else {
      var elems := Split(d, '/');
      var p := d + "/" + x;
      assert IsAbs(p) == rooted;
      assert Split(x, '/') == ["", ""] by {
        assert "" + ['/'] + "" == x;
        SplitAppendSep("", "", '/');
      }
      SplitAppendSep(d, x, '/');
      assert Split(p, '/') == (elems + [""]) + [""];
      FoldSnoc([], elems, "", rooted);
      FoldSnoc([], elems + [""], "", rooted);
    }
  }

  /** Dropping the last element of a non-empty list gives a text shorter than the list's text plus one more element. */
  lemma RenderInitShorter(sd: seq<string>, rooted: bool, name: string)
    requires sd != [] && Render(sd, rooted) != ""
    ensures |Render(sd[..|sd| - 1], rooted)| < |Render(sd, rooted) + "/" + name|
  {
    var init := sd[..|sd| - 1];
    assert sd == init + [sd[|sd| - 1]];
    if init != [] {
      JoinWithSnoc(init, sd[|sd| - 1], '/');
    }
  }

  /** ".." as the second element of a join drops the last element of a clean path, or appends ".." after a "..". */
  lemma JoinDotDot(d: string, name: string)
    requires Clean(d) == d && d != "/" && d != "."
    requires IsName(name)
    ensures Clean(d + "/" + "..") != d + "/" + name
  {
    var rooted := IsAbs(d);
    var sd := Fold([], Split(d, '/'), rooted);
    CleanElements(d);
    CleanAppendElement(d, "..");
    assert sd != [];
    if sd[|sd| - 1] != ".." {
      RenderInitShorter(sd, rooted, name);
    } else {
      JoinWithSnoc(sd, "..", '/');
      assert Clean(d + "/" + "..") == d + "/" + "..";
      assert (d + "/" + "..")[|d| + 1..] == "..";
      assert (d + "/" + name)[|d| + 1..] == name;
    }
  }

  /**
   * Joining a clean path other than "/" and "." with one of the base names that
   * are not entry names (".", "/" or "..") never gives that path followed by an
   * entry name.
   */
  lemma JoinSpecialBase(d: string, x: string, name: string)
    requires Clean(d) == d && d != "/" && d != "."
    requires x == "." || x == "/" || x == ".."
    requires IsName(name)
    ensures Join(d, x) != d + "/" + name
  {
    if x == ".." {
      JoinDotDot(d, name);
    } else {
      JoinDotOrRoot(d, x);
    }
  }

  /** Clean adds no rune other than '/' and '.', so it keeps a path free of control runes. */
  lemma CleanNoControl(p: string)
    requires NoControl(p)
    ensures NoControl(Clean(p))
  {
    var rooted := IsAbs(p);
    var elems := Split(p, '/');
    var stack := Fold([], elems, rooted);
    forall k | 0 <= k < |stack|
      ensures NoControl(stack[k])
    {
      FoldElements([], elems, rooted, stack[k]);
      var j :| 0 <= j < |elems| && elems[j] == stack[k];
      forall c | c in stack[k] ensures !IsControl(c) {
        SplitChars(p, '/', j, c);
      }
    }
    forall c | c in JoinWith(stack, '/')
      ensures !IsControl(c)
    {
      JoinWithChars(stack, '/', c);
    }
  }

  /** Joining a clean directory that is neither "/" nor "." with a name just inserts a separator. */
  lemma JoinName(d: string, n: string)
    requires Clean(d) == d && d != "/" && d != "."
    requires IsName(n)
    ensures Join(d, n) == d + "/" + n
  {
    var rooted := IsAbs(d);
    var stack := Fold([], Split(d, '/'), rooted);
    SplitPieces(d, '/');
    FoldCanonical([], Split(d, '/'), rooted);
    assert d == Render(stack, rooted);
    assert stack != [];
    JoinWithSnoc(stack, n, '/');
    assert Canonical(stack + [n], rooted);
    if rooted {
      assert Render(stack + [n], rooted) == d + "/" + n;
    } else {
      assert Render(stack + [n], rooted) == d + "/" + n;
    }
    CleanOfCanonical(stack + [n], rooted);
  }

  lemma {:induction false} LastElementAfterSeparator(d: string, n: string)
    requires '/' !in n
    ensures LastElement(d + "/" + n) == n
    decreases |n|
  {
    var p := d + "/" + n;
    if n != [] {
      assert p[..|p| - 1] == d + "/" + n[..|n| - 1];
      LastElementAfterSeparator(d, n[..|n| - 1]);
    }
  }

  /** The base of a path ending in a separator and a name is that name. */
  lemma BaseAfterSeparator(d: string, n: string)
    requires n != "" && '/' !in n
    ensures Base(d + "/" + n) == n
  {
    var p := d + "/" + n;
    assert p[|p| - 1] == n[|n| - 1];
    assert n[|n| - 1] in n;
    LastElementAfterSeparator(d, n);
  }

  /** Cleaning a directory followed by a name folds the name onto the directory's cleaned elements. */
  lemma CleanAppendName(d: string, n: string)
    requires d != "" && IsName(n)
    ensures var rooted := IsAbs(d); var stack := Fold([], Split(d, '/'), rooted);
      Canonical(stack + [n], rooted) && Clean(d + "/" + n) == Render(stack + [n], rooted)
  {
    var p := d + "/" + n;
    var rooted := IsAbs(d);
    assert IsAbs(p) == rooted;
    SplitNoSep(n, '/');
    SplitAppendSep(d, n, '/');
    var stack := Fold([], Split(d, '/'), rooted);
    FoldSnoc([], Split(d, '/'), n, rooted);
    SplitPieces(d, '/');
    FoldCanonical([], Split(d, '/'), rooted);
    StepCanonical(stack, n, rooted);
  }

  /** The text of a canonical list ending in a name is neither "/" nor "." and has that name as its base. */
  lemma RenderSnocName(stack: seq<string>, n: string, rooted: bool)
    requires IsName(n)
    ensures var j := Render(stack + [n], rooted); j != "/" && j != "." && Base(j) == n
  {
    var j := Render(stack + [n], rooted);
    if stack == [] {
      assert JoinWith(stack + [n], '/') == n;
      if rooted {
        assert j == "" + "/" + n;
        BaseAfterSeparator("", n);
      } else {
        LastIsSuffix(n);
      }
    } else {
      JoinWithSnoc(stack, n, '/');
      if rooted {
        assert j == ("/" + JoinWith(stack, '/')) + "/" + n;
        BaseAfterSeparator("/" + JoinWith(stack, '/'), n);
      } else {
        BaseAfterSeparator(JoinWith(stack, '/'), n);
      }
    }
  }

  /**
   * Joining any directory with a name gives a clean path that is neither "/" nor
   * "." and whose base is that name.
   */
  lemma JoinNameShape(d: string, n: string)
    requires IsName(n)
    ensures var j := Join(d, n); Clean(j) == j && j != "/" && j != "." && Base(j) == n
  {
    if d == "" {
      assert Canonical([n], false);
      CleanOfCanonical([n], false);
      RenderSnocName([], n, false);
    } else {
      var rooted := IsAbs(d);
      var stack := Fold([], Split(d, '/'), rooted);
      CleanAppendName(d, n);
      CleanOfCanonical(stack + [n], rooted);
      RenderSnocName(stack, n, rooted);
    }
  }

  lemma {:induction false} LastIsSuffix(n: string)
    requires '/' !in n
    ensures LastElement(n) == n
    decreases |n|
  {
    if n != [] {
      assert n[|n| - 1] in n;
      LastIsSuffix(n[..|n| - 1]);
      assert n[..|n| - 1] + [n[|n| - 1]] == n;
    }
  }

  /** The base of a bare entry name is the name itself. */
  lemma BaseOfName(n: string)
    requires IsName(n)
    ensures Base(n) == n
  {
    assert n[|n| - 1] in n;
    LastIsSuffix(n);
  }

  /** Clean keeps an element that is only white space: "./ /." cleans to " ". */
  lemma CleanKeepsSpaceElement()
    ensures Clean("./ /.") == " "
  {
    var p := "./ /.";
    assert p == "." + ['/'] + (" " + ['/'] + ".");
    SplitAppendSep(".", " /.", '/');
    SplitAppendSep(" ", ".", '/');
    SplitNoSep(".", '/');
    SplitNoSep(" ", '/');
    assert Fold([], [".", " ", "."], false) == [" "];
  }
}
