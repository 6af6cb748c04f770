/** The playlist parser `parsePlaylistFile` (main.go), with the file's content given instead of read. */
module Parser {
  import opened Wrappers
  import opened Strings
  import opened FilePath
  import opened Normalizer

  const ExtInf := "#EXTINF"

  predicate IsMarker(line: string) {
    HasPrefix(line, ExtInf)
  }

  /** What parsing one playlist gives: the retained lines, in order, and the absolute track paths. */
  datatype Parsed = Parsed(lines: seq<string>, tracks: seq<string>)

  /**
   * Where a retained line came from: a trimmed split line that is not a
   * marker, a trimmed marker line, or the path line consumed after a marker.
   */
  datatype Origin = Line(at: nat) | Marker(at: nat) | PathOf(at: nat)

  /** Line endings normalised to LF, then the text split on LF. */
  function SplitLines(content: string): (ls: seq<string>)
    ensures |ls| >= 1
  {
    Split(NormalizeLineEndings(content), '\n')
  }

  /** No split line holds a line terminator. */
  lemma SplitLinesNoBreaks(content: string)
    ensures forall k :: 0 <= k < |SplitLines(content)| ==> '\n' !in SplitLines(content)[k] && '\r' !in SplitLines(content)[k]
  {
    var text := NormalizeLineEndings(content);
    SplitPieces(text, '\n');
    forall k, c | 0 <= k < |Split(text, '\n')| && c in Split(text, '\n')[k]
      ensures c in text
    {
      SplitChars(text, '\n', k, c);
    }
  }

  /** The parse of the split lines from index `i` on, consuming lines from the front. */
  function ParseFrom(ls: seq<string>, i: nat): Parsed
    requires i <= |ls|
    decreases |ls| - i
  {
    if i == |ls| then Parsed([], [])
    else
      var line := TrimSpace(ls[i]);
      if line == "" then ParseFrom(ls, i + 1)
      else if IsMarker(line) then
        if i + 1 == |ls| then Parsed([line], [])
        else
          var path := Clean(CleanPath(ls[i + 1]));
          var rest := ParseFrom(ls, i + 2);
          Parsed([line, path] + rest.lines, (if IsAbs(path) then [path] else []) + rest.tracks)
      else
        var rest := ParseFrom(ls, i + 1);
        Parsed([line] + rest.lines,
               (if !HasPrefix(line, "#") && IsAbs(line) then [CleanPath(line)] else []) + rest.tracks)
  }

  function Parse(content: string): Parsed {
    ParseFrom(SplitLines(content), 0)
  }

  /**
   * `parsePlaylistFile`. `content` is None when the file cannot be read; then
   * the error is reported and both lists are empty.
   */
  method ParsePlaylistFile(content: Option<string>) returns (lines: seq<string>, tracks: seq<string>, readError: bool)
    ensures readError <==> content.None?
    ensures readError ==> lines == [] && tracks == []
    ensures content.Some? ==> Parsed(lines, tracks) == Parse(content.value)
  {
    lines, tracks := [], [];
    if content.None? {
      return lines, tracks, true;
    }
    readError := false;
    var text := NormalizeLineEndings(content.value);
    var allLines := Split(text, '\n');
    ghost var ls := allLines;
    ghost var i := 0;
    while |allLines| > 0
      invariant 0 <= i <= |ls| && allLines == ls[i..]
      invariant ParseFrom(ls, 0) == Parsed(lines + ParseFrom(ls, i).lines, tracks + ParseFrom(ls, i).tracks)
      decreases |allLines|
    {
      ghost var at, lines0, tracks0 := i, lines, tracks;
      var line := TrimSpace(allLines[0]);
      allLines := allLines[1..];
      i := i + 1;

      if line == "" {
        continue;
      }

      if HasPrefix(line, ExtInf) {
        lines := lines + [line];
        if |allLines| == 0 {
          break;
        }
        var filePath := Clean(CleanPath(allLines[0]));
        allLines := allLines[1..];
        i := i + 1;
        lines := lines + [filePath];
        if IsAbs(filePath) {
          tracks := tracks + [filePath];
        }
        MarkerRecord(ls, at, lines0, tracks0);
        continue;
      }

      lines := lines + [line];
      if !HasPrefix(line, "#") && IsAbs(line) {
        tracks := tracks + [CleanPath(line)];
      }
      PlainRecord(ls, at, lines0, tracks0);
    }
  }

  /** The loop's invariant carried past a marker line and the path line after it. */
  lemma MarkerRecord(ls: seq<string>, at: nat, lines0: seq<string>, tracks0: seq<string>)
    requires at + 1 < |ls| && IsMarker(TrimSpace(ls[at]))
    requires ParseFrom(ls, 0) == Parsed(lines0 + ParseFrom(ls, at).lines, tracks0 + ParseFrom(ls, at).tracks)
    ensures var path := Clean(CleanPath(ls[at + 1]));
      ParseFrom(ls, 0) == Parsed((lines0 + [TrimSpace(ls[at])]) + [path] + ParseFrom(ls, at + 2).lines,
                                 (if IsAbs(path) then tracks0 + [path] else tracks0) + ParseFrom(ls, at + 2).tracks)
  {
    var line, path := TrimSpace(ls[at]), Clean(CleanPath(ls[at + 1]));
    MarkerStep(ls, at);
    Shift(ParseFrom(ls, 0), lines0, tracks0, [line, path], if IsAbs(path) then [path] else [],
          ParseFrom(ls, at + 2), ParseFrom(ls, at));
    AppendTwo(lines0, line, path);
    AppendIf(tracks0, IsAbs(path), path);
  }

  /** The loop's invariant carried past any other non-blank line. */
  lemma PlainRecord(ls: seq<string>, at: nat, lines0: seq<string>, tracks0: seq<string>)
    requires at < |ls| && TrimSpace(ls[at]) != "" && !IsMarker(TrimSpace(ls[at]))
    requires ParseFrom(ls, 0) == Parsed(lines0 + ParseFrom(ls, at).lines, tracks0 + ParseFrom(ls, at).tracks)
    ensures var line := TrimSpace(ls[at]);
      ParseFrom(ls, 0) == Parsed((lines0 + [line]) + ParseFrom(ls, at + 1).lines,
                                 (if !HasPrefix(line, "#") && IsAbs(line) then tracks0 + [CleanPath(line)] else tracks0)
                                 + ParseFrom(ls, at + 1).tracks)
  {
    var line := TrimSpace(ls[at]);
    var keep := !HasPrefix(line, "#") && IsAbs(line);
    PlainStep(ls, at);
    Shift(ParseFrom(ls, 0), lines0, tracks0, [line], if keep then [CleanPath(line)] else [],
          ParseFrom(ls, at + 1), ParseFrom(ls, at));
    AppendIf(tracks0, keep, CleanPath(line));
  }

  /** A marker line with a following line emits both and moves past both. */
  lemma MarkerStep(ls: seq<string>, i: nat)
    requires i + 1 < |ls| && IsMarker(TrimSpace(ls[i]))
    ensures var path := Clean(CleanPath(ls[i + 1]));
      ParseFrom(ls, i) == Parsed([TrimSpace(ls[i]), path] + ParseFrom(ls, i + 2).lines,
                                 (if IsAbs(path) then [path] else []) + ParseFrom(ls, i + 2).tracks)
  {
  }

  /** Any other non-blank line is emitted in trimmed form. */
  lemma PlainStep(ls: seq<string>, i: nat)
    requires i < |ls| && TrimSpace(ls[i]) != "" && !IsMarker(TrimSpace(ls[i]))
    ensures var line := TrimSpace(ls[i]);
      ParseFrom(ls, i) == Parsed([line] + ParseFrom(ls, i + 1).lines,
                                 (if !HasPrefix(line, "#") && IsAbs(line) then [CleanPath(line)] else []) + ParseFrom(ls, i + 1).tracks)
  {
  }

  /** Moving emitted lines and tracks from the unparsed rest onto the accumulated result. */
  lemma Shift(whole: Parsed, lines0: seq<string>, tracks0: seq<string>, emitted: seq<string>, found: seq<string>,
              rest: Parsed, here: Parsed)
    requires here == Parsed(emitted + rest.lines, found + rest.tracks)
    requires whole == Parsed(lines0 + here.lines, tracks0 + here.tracks)
    ensures whole == Parsed((lines0 + emitted) + rest.lines, (tracks0 + found) + rest.tracks)
  {
    AppendAssoc(lines0, emitted, rest.lines);
    AppendAssoc(tracks0, found, rest.tracks);
  }

  /** The origin of every retained line, in step with ParseFrom. */
  ghost function OriginsFrom(ls: seq<string>, i: nat): seq<Origin>
    requires i <= |ls|
    decreases |ls| - i
  {
    if i == |ls| then []
    else
      var line := TrimSpace(ls[i]);
      if line == "" then OriginsFrom(ls, i + 1)
      else if IsMarker(line) then
        if i + 1 == |ls| then [Marker(i)] else [Marker(i), PathOf(i + 1)] + OriginsFrom(ls, i + 2)
      else [Line(i)] + OriginsFrom(ls, i + 1)
  }

  /** The tracks a retained line contributes, given its origin. */
  function Contribution(line: string, o: Origin): seq<string> {
    match o
    case PathOf(_) => if IsAbs(line) then [line] else []
    case Marker(_) => []
    case Line(_) => if !HasPrefix(line, "#") && IsAbs(line) then [CleanPath(line)] else []
  }

  ghost function TracksOf(lines: seq<string>, origins: seq<Origin>): seq<string>
    requires |lines| == |origins|
    decreases |lines|
  {
    if lines == [] then [] else Contribution(lines[0], origins[0]) + TracksOf(lines[1..], origins[1..])
  }

  /** There is one origin per retained line, and never more retained lines than split lines. */
  lemma {:induction false} OriginsCount(ls: seq<string>, i: nat)
    requires i <= |ls|
    ensures |OriginsFrom(ls, i)| == |ParseFrom(ls, i).lines| <= |ls| - i
    decreases |ls| - i
  {
    if i < |ls| {
      var line := TrimSpace(ls[i]);
      if line == "" {
        OriginsCount(ls, i + 1);
      } else if IsMarker(line) {
        if i + 1 < |ls| {
          OriginsCount(ls, i + 2);
        }
      } else {
        OriginsCount(ls, i + 1);
      }
    }
  }

  /** Retained lines come from strictly increasing split-line positions: they keep input order. */
  lemma {:induction false} OriginsOrdered(ls: seq<string>, i: nat)
    requires i <= |ls|
    ensures forall k :: 0 <= k < |OriginsFrom(ls, i)| ==> i <= OriginsFrom(ls, i)[k].at < |ls|
    ensures forall j, k :: 0 <= j < k < |OriginsFrom(ls, i)| ==> OriginsFrom(ls, i)[j].at < OriginsFrom(ls, i)[k].at
    decreases |ls| - i
  {
    if i < |ls| {
      var line := TrimSpace(ls[i]);
      if line == "" {
        OriginsOrdered(ls, i + 1);
      } else if IsMarker(line) {
        if i + 1 < |ls| {
          OriginsOrdered(ls, i + 2);
        }
      } else {
        OriginsOrdered(ls, i + 1);
      }
    }
  }

  /**
   * A retained line of origin Line(n) or Marker(n) is split line n in trimmed
   * form, it is not blank, and it is a marker line exactly when its origin is Marker(n).
   */
  lemma {:induction false} LineOrigins(ls: seq<string>, i: nat)
    requires i <= |ls|
    ensures |OriginsFrom(ls, i)| == |ParseFrom(ls, i).lines|
    ensures forall k :: 0 <= k < |OriginsFrom(ls, i)| && !OriginsFrom(ls, i)[k].PathOf? ==>
      && OriginsFrom(ls, i)[k].at < |ls|
      && ParseFrom(ls, i).lines[k] == TrimSpace(ls[OriginsFrom(ls, i)[k].at])
      && ParseFrom(ls, i).lines[k] != ""
      && (OriginsFrom(ls, i)[k].Marker? <==> IsMarker(ParseFrom(ls, i).lines[k]))
    decreases |ls| - i
  {
    OriginsCount(ls, i);
    if i < |ls| {
      var line := TrimSpace(ls[i]);
      if line == "" {
        LineOrigins(ls, i + 1);
      } else if IsMarker(line) && i + 1 == |ls| {
        assert OriginsFrom(ls, i) == [Marker(i)] && ParseFrom(ls, i).lines == [line];
      } else {
        var skip := if IsMarker(line) then 2 else 1;
        LineOrigins(ls, i + skip);
        OriginsCount(ls, i + skip);
        var o, o' := OriginsFrom(ls, i), OriginsFrom(ls, i + skip);
        var p, p' := ParseFrom(ls, i).lines, ParseFrom(ls, i + skip).lines;
        assert o[skip..] == o' && p[skip..] == p';
        assert o[0] == (if IsMarker(line) then Marker(i) else Line(i)) && p[0] == line;
        forall k | skip <= k < |o| && !o[k].PathOf?
          ensures o[k].at < |ls| && p[k] == TrimSpace(ls[o[k].at]) && p[k] != ""
          ensures o[k].Marker? <==> IsMarker(p[k])
        {
          assert o[k] == o'[k - skip] && p[k] == p'[k - skip];
        }
      }
    }
  }

  /** A retained line of origin PathOf(n) is split line n sanitised and then cleaned. */
  lemma {:induction false} PathOrigins(ls: seq<string>, i: nat)
    requires i <= |ls|
    ensures |OriginsFrom(ls, i)| == |ParseFrom(ls, i).lines|
    ensures forall k :: 0 <= k < |OriginsFrom(ls, i)| && OriginsFrom(ls, i)[k].PathOf? ==>
      && 0 < k && i < OriginsFrom(ls, i)[k].at < |ls|
      && ParseFrom(ls, i).lines[k] == Clean(CleanPath(ls[OriginsFrom(ls, i)[k].at]))
    decreases |ls| - i
  {
    OriginsCount(ls, i);
    if i < |ls| {
      var line := TrimSpace(ls[i]);
      if line == "" {
        PathOrigins(ls, i + 1);
      } else if !(IsMarker(line) && i + 1 == |ls|) {
        var skip := if IsMarker(line) then 2 else 1;
        PathOrigins(ls, i + skip);
        OriginsCount(ls, i + skip);
        var o, o' := OriginsFrom(ls, i), OriginsFrom(ls, i + skip);
        var p, p' := ParseFrom(ls, i).lines, ParseFrom(ls, i + skip).lines;
        assert o[skip..] == o' && p[skip..] == p';
        forall k | skip <= k < |o| && o[k].PathOf?
          ensures 0 < k && i < o[k].at < |ls| && p[k] == Clean(CleanPath(ls[o[k].at]))
        {
          assert o[k] == o'[k - skip] && p[k] == p'[k - skip];
        }
      }
    }
  }

  /**
   * A marker line always consumes the next split line as its path: a retained
   * marker line is the last retained line exactly when it is the last split
   * line, and otherwise the retained line after it has origin PathOf of the
   * split line after it.
   */
  lemma {:induction false} MarkerTakesNextLine(ls: seq<string>, i: nat, k: nat)
    requires i <= |ls| && k < |OriginsFrom(ls, i)| && OriginsFrom(ls, i)[k].Marker?
    ensures var o := OriginsFrom(ls, i);
      && (o[k].at + 1 < |ls| <==> k + 1 < |o|)
      && (k + 1 < |o| ==> o[k + 1] == PathOf(o[k].at + 1))
    decreases |ls| - i
  {
    var line := TrimSpace(ls[i]);
    if line == "" {
      MarkerTakesNextLine(ls, i + 1, k);
    } else if !(IsMarker(line) && i + 1 == |ls|) {
      var skip := if IsMarker(line) then 2 else 1;
      var o, o' := OriginsFrom(ls, i), OriginsFrom(ls, i + skip);
      assert |o| == skip + |o'|;
      if k < skip {
        assert o[0] == (if IsMarker(line) then Marker(i) else Line(i));
        assert skip == 2 ==> o[1] == PathOf(i + 1);
      } else {
        MarkerTakesNextLine(ls, i + skip, k - skip);
        assert o[k] == o'[k - skip];
        if k + 1 < |o| {
          assert o[k + 1] == o'[k + 1 - skip];
        }
      }
    }
  }

  /** No non-blank split line is lost: each one is retained, trimmed or as a marker's path. */
  lemma {:induction false} NonBlankRetained(ls: seq<string>, i: nat, j: nat)
    requires i <= j < |ls| && TrimSpace(ls[j]) != ""
    ensures exists k :: 0 <= k < |OriginsFrom(ls, i)| && OriginsFrom(ls, i)[k].at == j
    decreases |ls| - i
  {
    var o := OriginsFrom(ls, i);
    var line := TrimSpace(ls[i]);
    if j == i {
      assert o[0].at == j;
    } else if line == "" {
      NonBlankRetained(ls, i + 1, j);
    } else if IsMarker(line) {
      if j == i + 1 {
        assert o[1].at == j;
      } else {
        NonBlankRetained(ls, i + 2, j);
        var k :| 0 <= k < |OriginsFrom(ls, i + 2)| && OriginsFrom(ls, i + 2)[k].at == j;
        assert o[k + 2].at == j;
      }
    } else {
      NonBlankRetained(ls, i + 1, j);
      var k :| 0 <= k < |OriginsFrom(ls, i + 1)| && OriginsFrom(ls, i + 1)[k].at == j;
      assert o[k + 1].at == j;
    }
  }

  /**
   * The tracks are determined by the retained lines: an absolute marker path
   * as it is, and an absolute line not starting with '#' sanitised. A relative
   * line or a '#' line contributes nothing.
   */
  lemma {:induction false} TracksFromLines(ls: seq<string>, i: nat)
    requires i <= |ls|
    ensures |OriginsFrom(ls, i)| == |ParseFrom(ls, i).lines|
    ensures ParseFrom(ls, i).tracks == TracksOf(ParseFrom(ls, i).lines, OriginsFrom(ls, i))
    decreases |ls| - i
  {
    OriginsCount(ls, i);
    if i < |ls| {
      var line := TrimSpace(ls[i]);
      if line == "" {
        TracksFromLines(ls, i + 1);
      } else if IsMarker(line) {
        assert HasPrefix(line, "#");
        if i + 1 < |ls| {
          TracksFromLines(ls, i + 2);
          var p := ParseFrom(ls, i);
          var o := OriginsFrom(ls, i);
          assert p.lines[2..] == ParseFrom(ls, i + 2).lines;
          assert o[2..] == OriginsFrom(ls, i + 2);
          assert TracksOf(p.lines, o) == Contribution(p.lines[1], o[1]) + TracksOf(p.lines[2..], o[2..]);
        }
      } else {
        TracksFromLines(ls, i + 1);
        var p := ParseFrom(ls, i);
        var o := OriginsFrom(ls, i);
        assert p.lines[1..] == ParseFrom(ls, i + 1).lines;
        assert o[1..] == OriginsFrom(ls, i + 1);
      }
    }
  }

  /** Every track is absolute and free of control runes. */
  lemma {:induction false} TracksWellFormed(ls: seq<string>, i: nat)
    requires i <= |ls|
    ensures forall t :: t in ParseFrom(ls, i).tracks ==> IsAbs(t) && NoControl(t)
    decreases |ls| - i
  {
    if i < |ls| {
      var line := TrimSpace(ls[i]);
      if line == "" {
        TracksWellFormed(ls, i + 1);
      } else if IsMarker(line) {
        if i + 1 < |ls| {
          CleanNoControl(CleanPath(ls[i + 1]));
          TracksWellFormed(ls, i + 2);
        }
      } else {
        TracksWellFormed(ls, i + 1);
        if !HasPrefix(line, "#") && IsAbs(line) {
          TrimSpaceIdempotent(ls[i]);
          CleanPathKeepsRoot(line);
        }
      }
    }
  }

  /** No retained line is the empty string: blank lines are dropped and Clean never returns "". */
  lemma {:induction false} NoEmptyLine(ls: seq<string>, i: nat)
    requires i <= |ls|
    ensures forall l :: l in ParseFrom(ls, i).lines ==> l != ""
    decreases |ls| - i
  {
    if i < |ls| {
      var line := TrimSpace(ls[i]);
      if line == "" {
        NoEmptyLine(ls, i + 1);
      } else if IsMarker(line) {
        if i + 1 < |ls| {
          NoEmptyLine(ls, i + 2);
        }
      } else {
        NoEmptyLine(ls, i + 1);
      }
    }
  }

  /**
   * Retained lines are never "", but a marker's path line can be blank: "./ /."
   * is trimmed and free of control runes, and Clean keeps its lone " " element.
   */
  lemma BlankPathLine()
    ensures var lines := ParseFrom([ExtInf, "./ /."], 0).lines;
      |lines| == 2 && lines[1] == " " && AllSpace(lines[1])
  {
    var ls := [ExtInf, "./ /."];
    MarkerKept();
    SpacePathKept();
    assert ParseFrom(ls, 2) == Parsed([], []);
    assert ParseFrom(ls, 0).lines == [ExtInf, " "];
  }

  lemma MarkerKept()
    ensures TrimSpace(ExtInf) == ExtInf
  {
    assert !IsSpace('#') && !IsSpace('F');
    TrimSpaceTrims(ExtInf);
  }

  lemma SpacePathKept()
    ensures Clean(CleanPath("./ /.")) == " "
  {
    assert !IsSpace('.');
    assert NoControl("./ /.");
    CleanPathKeeps("./ /.");
    CleanKeepsSpaceElement();
  }

  /** Retained lines hold no line feed when the split lines hold none. */
  lemma {:induction false} LinesSingle(ls: seq<string>, i: nat)
    requires i <= |ls|
    requires forall k :: 0 <= k < |ls| ==> '\n' !in ls[k]
    ensures forall l :: l in ParseFrom(ls, i).lines ==> '\n' !in l
    decreases |ls| - i
  {
    if i < |ls| {
      var line := TrimSpace(ls[i]);
      if line == "" {
        LinesSingle(ls, i + 1);
      } else if IsMarker(line) {
        TrimSpaceChars(ls[i]);
        if i + 1 < |ls| {
          CleanNoControl(CleanPath(ls[i + 1]));
          LinesSingle(ls, i + 2);
        }
      } else {
        TrimSpaceChars(ls[i]);
        LinesSingle(ls, i + 1);
      }
    }
  }

  /** A blank line after a marker is consumed as its path and becomes ".". */
  lemma BlankAfterMarker(ls: seq<string>, i: nat)
    requires i + 1 < |ls| && IsMarker(TrimSpace(ls[i])) && AllSpace(ls[i + 1])
    ensures ParseFrom(ls, i).lines[..2] == [TrimSpace(ls[i]), "."]
  {
    CleanPathOfBlank(ls[i + 1]);
    assert Split("", '/') == [""];
  }
}
