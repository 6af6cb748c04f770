/**
 * Models of the parts of Go's `strings` and `unicode` packages that the sync
 * tool relies on. Strings are sequences of runes; invalid UTF-8 is not modelled.
 */
module Strings {

  /** `unicode.IsSpace`: the Latin-1 spaces and the other Unicode White_Space code points. */
  predicate IsSpace(c: char) {
    || c == ' ' || c == '\t' || c == '\n' || c == '\U{000B}' || c == '\U{000C}' || c == '\r'
    || c == '\U{0085}' || c == '\U{00A0}' || c == '\U{1680}'
    || ('\U{2000}' <= c <= '\U{200A}')
    || c == '\U{2028}' || c == '\U{2029}' || c == '\U{202F}' || c == '\U{205F}' || c == '\U{3000}'
  }

  predicate AllSpace(s: string) {
    forall i :: 0 <= i < |s| ==> IsSpace(s[i])
  }

  /** Neither the first nor the last rune is a space. */
  predicate IsTrimmed(s: string) {
    s == [] || (!IsSpace(s[0]) && !IsSpace(s[|s| - 1]))
  }

  /** The runes the playlist sanitiser deletes: below 32, and DEL (127). */
  predicate IsControl(c: char) {
    (c as int) < 32 || (c as int) == 127
  }

  predicate NoControl(s: string) {
    forall c :: c in s ==> !IsControl(c)
  }

  /** Drops the longest prefix of spaces. */
  function TrimLeft(s: string): string
    decreases |s|
  {
    if s != [] && IsSpace(s[0]) then TrimLeft(s[1..]) else s
  }

  /** Drops the longest suffix of spaces. */
  function TrimRight(s: string): string
    decreases |s|
  {
    if s != [] && IsSpace(s[|s| - 1]) then TrimRight(s[..|s| - 1]) else s
  }

  /** TrimLeft leaves a suffix of its input that does not start with a space, after only spaces. */
  lemma {:induction false} TrimLeftFacts(s: string)
    ensures var r := TrimLeft(s); |r| <= |s| && r == s[|s| - |r|..]
    ensures AllSpace(s[..|s| - |TrimLeft(s)|])
    ensures TrimLeft(s) == [] || !IsSpace(TrimLeft(s)[0])
    decreases |s|
  {
    if s != [] && IsSpace(s[0]) {
      TrimLeftFacts(s[1..]);
      var r := TrimLeft(s);
      assert s[..|s| - |r|] == [s[0]] + s[1..][..|s| - 1 - |r|];
    }
  }

  /** TrimRight leaves a prefix of its input that does not end with a space, before only spaces. */
  lemma {:induction false} TrimRightFacts(s: string)
    ensures var r := TrimRight(s); |r| <= |s| && r == s[..|r|]
    ensures AllSpace(s[|TrimRight(s)|..])
    ensures TrimRight(s) == [] || !IsSpace(TrimRight(s)[|TrimRight(s)| - 1])
    decreases |s|
  {
    if s != [] && IsSpace(s[|s| - 1]) {
      TrimRightFacts(s[..|s| - 1]);
      var r := TrimRight(s);
      assert s[|r|..] == s[..|s| - 1][|r|..] + [s[|s| - 1]];
    }
  }

  /** `strings.TrimSpace`: drops the spaces at both ends. */
  function TrimSpace(s: string): (r: string)
    ensures |r| <= |s|
  {
    TrimLeftFacts(s);
    TrimRightFacts(TrimLeft(s));
    TrimRight(TrimLeft(s))
  }

  /** No space is left at either end, and an already trimmed string is left alone. */
  lemma TrimSpaceTrims(s: string)
    ensures IsTrimmed(TrimSpace(s))
    ensures IsTrimmed(s) ==> TrimSpace(s) == s
  {
    TrimLeftFacts(s);
    TrimRightFacts(TrimLeft(s));
  }

  /** TrimSpace gives "" exactly for an all-space string. */
  lemma TrimSpaceEmpty(s: string)
    ensures TrimSpace(s) == [] <==> AllSpace(s)
  {
    var l := TrimLeft(s);
    TrimLeftFacts(s);
    TrimRightFacts(l);
    assert s == s[..|s| - |l|] + l;
  }

  /** Every rune of the trimmed string occurs in the input. */
  lemma TrimSpaceChars(s: string)
    ensures forall c :: c in TrimSpace(s) ==> c in s
  {
    var l := TrimLeft(s);
    TrimLeftFacts(s);
    TrimRightFacts(l);
    assert forall c :: c in TrimRight(l) ==> c in l;
  }

  lemma TrimSpaceIdempotent(s: string)
    ensures TrimSpace(TrimSpace(s)) == TrimSpace(s)
  {
    TrimSpaceTrims(s);
    TrimSpaceTrims(TrimSpace(s));
  }

  /** A string whose first rune is not a space keeps that rune first after trimming. */
  lemma TrimSpaceKeepsFirst(s: string)
    requires s != [] && !IsSpace(s[0])
    ensures TrimSpace(s) != [] && TrimSpace(s)[0] == s[0]
  {
    assert TrimLeft(s) == s;
    TrimRightFacts(s);
    assert !AllSpace(s);
  }

  lemma AppendAssoc<T>(a: seq<T>, b: seq<T>, c: seq<T>)
    ensures (a + b) + c == a + (b + c)
  {
  }

  lemma AppendTwo<T>(a: seq<T>, x: T, y: T)
    ensures (a + [x]) + [y] == a + [x, y]
  {
  }

  lemma AppendIf<T>(a: seq<T>, b: bool, x: T)
    ensures (if b then a + [x] else a) == a + (if b then [x] else [])
  {
  }

  /** `strings.HasPrefix`. */
  predicate HasPrefix(s: string, prefix: string) {
    prefix <= s
  }

  /** `strings.HasSuffix`. */
  predicate HasSuffix(s: string, suffix: string) {
    |suffix| <= |s| && s[|s| - |suffix|..] == suffix
  }

  /** `strings.TrimPrefix`: removes one occurrence of `prefix` from the front, if present. */
  function TrimPrefix(s: string, prefix: string): string {
    if HasPrefix(s, prefix) then s[|prefix|..] else s
  }

  /**
   * `strings.NewReplacer("\r\n", "\n", "\r", "\n").Replace`: at each position the
   * earlier pair wins, so a CR LF becomes one LF and a lone CR becomes LF.
   */
  function NormalizeLineEndings(s: string): (r: string)
    ensures '\r' !in r
    ensures |r| <= |s|
    ensures '\r' !in s ==> r == s
    decreases |s|
  {
    if s == [] then []
    else if s[0] == '\r' then
      "\n" + NormalizeLineEndings(if |s| > 1 && s[1] == '\n' then s[2..] else s[1..])
    else
      [s[0]] + NormalizeLineEndings(s[1..])
  }

  /** Normalising line endings introduces no rune besides LF. */
  lemma {:induction false} NormalizeChars(s: string)
    ensures forall c :: c in NormalizeLineEndings(s) ==> c in s || c == '\n'
    decreases |s|
  {
    if s != [] {
      if s[0] == '\r' {
        NormalizeChars(if |s| > 1 && s[1] == '\n' then s[2..] else s[1..]);
      } else {
        NormalizeChars(s[1..]);
      }
    }
  }

  /**
   * The replacer works piece by piece: normalising a concatenation is normalising
   * each part, unless the first part ends with the CR of a CR LF that the second completes.
   */
  lemma {:induction false} NormalizeAppend(a: string, x: string)
    requires !(a != [] && a[|a| - 1] == '\r' && x != [] && x[0] == '\n')
    ensures NormalizeLineEndings(a + x) == NormalizeLineEndings(a) + NormalizeLineEndings(x)
    decreases |a|
  {
    if a == [] {
      assert a + x == x;
    } else if a[0] == '\r' && |a| > 1 && a[1] == '\n' {
      assert (a + x)[2..] == a[2..] + x;
      NormalizeAppend(a[2..], x);
    } else if a[0] == '\r' && |a| == 1 {
      assert (a + x)[1..] == x;
    } else {
      assert (a + x)[1..] == a[1..] + x;
      NormalizeAppend(a[1..], x);
    }
  }

  /** A CR becomes one LF, taking a directly following LF with it. */
  lemma NormalizeCR(b: string)
    ensures NormalizeLineEndings(['\r'] + b) == "\n" + NormalizeLineEndings(TrimPrefix(b, "\n"))
  {
    var x := ['\r'] + b;
    assert x[1..] == b;
    if b != [] && b[0] == '\n' {
      assert x[2..] == b[1..];
      assert HasPrefix(b, "\n");
    } else {
      assert !HasPrefix(b, "\n");
    }
  }

  /** A CR ends exactly one line, wherever it stands. */
  lemma NormalizeBreak(a: string, b: string)
    ensures NormalizeLineEndings(a + ['\r'] + b) == NormalizeLineEndings(a) + "\n" + NormalizeLineEndings(TrimPrefix(b, "\n"))
  {
    assert a + ['\r'] + b == a + (['\r'] + b);
    NormalizeAppend(a, ['\r'] + b);
    NormalizeCR(b);
  }

  /** `strings.Join` with a one-rune separator. */
  function JoinWith(parts: seq<string>, sep: char): string {
    if parts == [] then ""
    else if |parts| == 1 then parts[0]
    else parts[0] + [sep] + JoinWith(parts[1..], sep)
  }

  /** `strings.Split` with a one-rune separator: never an empty list. */
  function Split(s: string, sep: char): (r: seq<string>)
    ensures |r| >= 1
    decreases |s|
  {
    if s == [] then [""]
    else
      var rest := Split(s[1..], sep);
      if s[0] == sep then [""] + rest
      else [[s[0]] + rest[0]] + rest[1..]
  }

  /** No piece of a split holds the separator. */
  lemma {:induction false} SplitPieces(s: string, sep: char)
    ensures forall k :: 0 <= k < |Split(s, sep)| ==> sep !in Split(s, sep)[k]
    decreases |s|
  {
    if s != [] {
      SplitPieces(s[1..], sep);
      var rest := Split(s[1..], sep);
      if s[0] != sep {
        var r := Split(s, sep);
        assert r[1..] == rest[1..];
        forall k | 0 <= k < |r| ensures sep !in r[k] {
          if k > 0 {
            assert r[k] == rest[k];
          }
        }
      }
    }
  }

  /** Joining the pieces of a split with the separator gives the string back. */
  lemma {:induction false} SplitJoin(s: string, sep: char)
    ensures JoinWith(Split(s, sep), sep) == s
    decreases |s|
  {
    if s != [] {
      SplitJoin(s[1..], sep);
      var rest := Split(s[1..], sep);
      if s[0] == sep {
        assert JoinWith([""] + rest, sep) == [sep] + JoinWith(rest, sep);
      } else {
        var r := [[s[0]] + rest[0]] + rest[1..];
        assert r[1..] == rest[1..];
        assert |rest| > 1 ==> JoinWith(rest, sep) == rest[0] + [sep] + JoinWith(rest[1..], sep);
        assert JoinWith(r, sep) == [s[0]] + JoinWith(rest, sep);
      }
    }
  }

  /** Every rune of a piece is a rune of the split string. */
  lemma {:induction false} SplitChars(s: string, sep: char, k: nat, c: char)
    requires k < |Split(s, sep)| && c in Split(s, sep)[k]
    ensures c in s
    decreases |s|
  {
    if s != [] {
      var rest := Split(s[1..], sep);
      if s[0] == sep {
        SplitChars(s[1..], sep, k - 1, c);
      } else if k == 0 {
        if c != s[0] {
          SplitChars(s[1..], sep, 0, c);
        }
      } else {
        SplitChars(s[1..], sep, k, c);
      }
    }
  }

  /** A string without the separator splits into itself alone. */
  lemma {:induction false} SplitNoSep(s: string, sep: char)
    requires sep !in s
    ensures Split(s, sep) == [s]
    decreases |s|
  {
    if s != [] {
      SplitNoSep(s[1..], sep);
      assert [s[0]] + s[1..] == s;
    }
  }

  /** Splitting distributes over a separator placed between two strings. */
  lemma {:induction false} SplitAppendSep(a: string, b: string, sep: char)
    ensures Split(a + [sep] + b, sep) == Split(a, sep) + Split(b, sep)
    decreases |a|
  {
    var s := a + [sep] + b;
    if a == [] {
      assert s[1..] == b;
    } else {
      assert s[1..] == a[1..] + [sep] + b;
      SplitAppendSep(a[1..], b, sep);
    }
  }

  /** Split inverts JoinWith when no part holds the separator. */
  lemma {:induction false} SplitJoinWith(parts: seq<string>, sep: char)
    requires |parts| >= 1
    requires forall k :: 0 <= k < |parts| ==> sep !in parts[k]
    ensures Split(JoinWith(parts, sep), sep) == parts
    decreases |parts|
  {
    SplitNoSep(parts[0], sep);
    if |parts| > 1 {
      SplitJoinWith(parts[1..], sep);
      SplitAppendSep(parts[0], JoinWith(parts[1..], sep), sep);
    }
  }

  /** Appending one part to a non-empty list appends the separator and that part. */
  lemma {:induction false} JoinWithSnoc(parts: seq<string>, x: string, sep: char)
    requires parts != []
    ensures JoinWith(parts + [x], sep) == JoinWith(parts, sep) + [sep] + x
    decreases |parts|
  {
    if |parts| > 1 {
      assert (parts + [x])[1..] == parts[1..] + [x];
      JoinWithSnoc(parts[1..], x, sep);
    }
  }

  /** Joining two non-empty lists puts one separator between their joined texts. */
  lemma {:induction false} JoinWithAppend(a: seq<string>, b: seq<string>, sep: char)
    requires a != [] && b != []
    ensures JoinWith(a + b, sep) == JoinWith(a, sep) + [sep] + JoinWith(b, sep)
    decreases |a|
  {
    if |a| == 1 {
      assert (a + b)[1..] == b;
    } else {
      assert (a + b)[1..] == a[1..] + b;
      JoinWithAppend(a[1..], b, sep);
      AppendAssoc(a[0] + [sep], JoinWith(a[1..], sep), [sep] + JoinWith(b, sep));
    }
  }

  /** Joining runes with a separator introduces no rune besides the separator. */
  lemma {:induction false} JoinWithChars(parts: seq<string>, sep: char, c: char)
    requires c in JoinWith(parts, sep)
    ensures c == sep || exists k :: 0 <= k < |parts| && c in parts[k]
    decreases |parts|
  {
    if |parts| > 1 {
      if c in parts[0] || c == sep {
      } else {
        JoinWithChars(parts[1..], sep, c);
        var k :| 0 <= k < |parts[1..]| && c in parts[1..][k];
        assert c in parts[k + 1];
      }
    }
  }
}
