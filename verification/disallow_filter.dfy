/**
 * The Disallow-line filter of the main program,
 * `content.lines.grep(/^\s*disallow\s*:/i)`, and the guard that decides
 * whether the filter is applied or the fetched content is shown as it is.
 */
module DisallowFilter {
  import opened Wrappers
  import opened TextLines

  /** Characters matched by the regex class `\s`: space, tab, line feed, vertical tab, form feed, carriage return. */
  predicate IsRegexSpace(c: char) {
    c == ' ' || c == '\t' || c == '\n' || c == '\U{000B}' || c == '\U{000C}' || c == '\r'
  }

  /**
   * Letter case folding of the `/i` flag. The response body is a byte
   * string, so only the ASCII letters fold.
   */
  function LowerAscii(c: char): char {
    if 'A' <= c <= 'Z' then (c as int + 32) as char else c
  }

  predicate SameIgnoringCase(a: string, b: string) {
    |a| == |b| && forall k :: 0 <= k < |a| ==> LowerAscii(a[k]) == LowerAscii(b[k])
  }

  const Keyword: string := "disallow"

  /** End of the run of `\s` characters that starts at `from`. */
  function SpacesEnd(s: string, from: nat): (k: nat)
    requires from <= |s|
    ensures from <= k <= |s|
    ensures forall i :: from <= i < k ==> IsRegexSpace(s[i])
    ensures k < |s| ==> !IsRegexSpace(s[k])
    decreases |s| - from
  {
    if from == |s| || !IsRegexSpace(s[from]) then from else SpacesEnd(s, from + 1)
  }

  /** The scanner: leading `\s*`, the keyword in any letter case, `\s*`, then a colon. */
  predicate IsDisallowLine(line: string) {
    var i := SpacesEnd(line, 0);
    && i + |Keyword| <= |line|
    && SameIgnoringCase(line[i..i + |Keyword|], Keyword)
    && var j := SpacesEnd(line, i + |Keyword|);
    && j < |line|
    && line[j] == ':'
  }

  // ---- the regular expression, stated declaratively ----

  /** `^` matches at the start of the string and right after every newline. */
  ghost predicate LineAnchor(line: string, p: int) {
    p == 0 || (0 < p <= |line| && line[p - 1] == '\n')
  }

  ghost predicate AllSpaces(s: string, from: int, to: int) {
    0 <= from <= to <= |s| && forall k :: from <= k < to ==> IsRegexSpace(s[k])
  }

  /**
   * The regex matches with `^` at `p`, the keyword at `i` and the colon at
   * `j`: `s[p..i]` is `\s*`, `s[i..i+8]` is "disallow" in any case,
   * `s[i+8..j]` is `\s*`.
   */
  ghost predicate MatchAt(line: string, p: int, i: int, j: int) {
    && LineAnchor(line, p)
    && AllSpaces(line, p, i)
    && i + |Keyword| <= j < |line|
    && SameIgnoringCase(line[i..i + |Keyword|], Keyword)
    && AllSpaces(line, i + |Keyword|, j)
    && line[j] == ':'
  }

  ghost predicate RegexMatches(line: string) {
    exists p, i, j :: MatchAt(line, p, i, j)
  }

  lemma SpacesEndIsMaximal(s: string, from: nat, i: int)
    requires from <= |s|
    requires AllSpaces(s, from, i)
    requires i < |s| && !IsRegexSpace(s[i])
    ensures SpacesEnd(s, from) == i
  {
  }

  lemma KeywordStartIsNotSpace(line: string, i: int)
    requires 0 <= i && i + |Keyword| <= |line|
    requires SameIgnoringCase(line[i..i + |Keyword|], Keyword)
    ensures !IsRegexSpace(line[i])
  {
    assert LowerAscii(line[i..i + |Keyword|][0]) == LowerAscii(Keyword[0]);
    assert line[i..i + |Keyword|][0] == line[i];
  }

  /**
   * On a piece produced by `lines` the scanner accepts exactly the lines the
   * regular expression matches.
   */
  lemma IsDisallowLineMatchesRegex(line: string)
    requires IsLinePiece(line)
    ensures IsDisallowLine(line) <==> RegexMatches(line)
  {
    if IsDisallowLine(line) {
      var i := SpacesEnd(line, 0);
      var j := SpacesEnd(line, i + |Keyword|);
      assert MatchAt(line, 0, i, j);
    }
    if RegexMatches(line) {
      var p, i, j :| MatchAt(line, p, i, j);
      AnchorInPieceIsStart(line, p);
      KeywordStartIsNotSpace(line, i);
      SpacesEndIsMaximal(line, 0, i);
      SpacesEndIsMaximal(line, i + |Keyword|, j);
    }
  }

  /** Inside a line piece `^` can only match at offset 0 (or at its very end, where nothing follows). */
  lemma AnchorInPieceIsStart(line: string, p: int)
    requires IsLinePiece(line)
    requires LineAnchor(line, p) && p < |line|
    ensures p == 0
  {
  }

  // ---- grep ----

  /** `lines.grep(...)`: the Disallow lines, in their original order. */
  function Grep(lines: seq<string>): (kept: seq<string>)
    ensures forall x :: x in kept <==> x in lines && IsDisallowLine(x)
    ensures |kept| <= |lines|
  {
    if lines == [] then []
    else (if IsDisallowLine(lines[0]) then [lines[0]] else []) + Grep(lines[1..])
  }

  /** The Disallow lines of a fetched text, each still carrying its newline. */
  function DisallowLines(content: string): seq<string> {
    Grep(Lines(content))
  }

  /** Filtering a concatenation filters each part: the relative order of kept lines never changes. */
  lemma {:induction false} GrepOfConcat(a: seq<string>, b: seq<string>)
    ensures Grep(a + b) == Grep(a) + Grep(b)
    decreases |a|
  {
    if a == [] {
      assert a + b == b;
    } else {
      assert (a + b)[0] == a[0];
      assert (a + b)[1..] == a[1..] + b;
      GrepOfConcat(a[1..], b);
    }
  }

  /** Duplicates are kept: every Disallow line appears as often as in the input, every other line not at all. */
  lemma {:induction false} GrepKeepsMultiplicity(lines: seq<string>, x: string)
    ensures multiset(Grep(lines))[x] == if IsDisallowLine(x) then multiset(lines)[x] else 0
    decreases |lines|
  {
    if lines != [] {
      assert lines == [lines[0]] + lines[1..];
      GrepKeepsMultiplicity(lines[1..], x);
    }
  }

  lemma {:induction false} GrepKeepsLineSplit(lines: seq<string>)
    requires IsLineSplit(lines)
    ensures IsLineSplit(Grep(lines))
    decreases |lines|
  {
    if lines != [] {
      var rest := lines[1..];
      assert IsLineSplit(rest) by {
        forall k | 0 <= k < |rest|
          ensures IsLinePiece(rest[k])
        {
          assert rest[k] == lines[k + 1];
        }
        forall k | 0 <= k < |rest| - 1
          ensures EndsWithNewline(rest[k])
        {
          assert rest[k] == lines[k + 1];
        }
      }
      GrepKeepsLineSplit(rest);
      var tail := Grep(rest);
      if IsDisallowLine(lines[0]) {
        var kept := [lines[0]] + tail;
        assert Grep(lines) == kept;
        forall k | 0 <= k < |kept|
          ensures IsLinePiece(kept[k])
        {
          if k > 0 {
            assert kept[k] == tail[k - 1];
          }
        }
        forall k | 0 <= k < |kept| - 1
          ensures EndsWithNewline(kept[k])
        {
          if k > 0 {
            assert kept[k] == tail[k - 1];
          } else {
            assert |rest| > 0;
          }
        }
      } else {
        assert Grep(lines) == tail;
      }
    }
  }

  // ---- the display guard ----

  /** What the main program prints for one fetched content. */
  datatype View =
    | Verbatim(content: Option<string>)   // `puts content`; `puts nil` prints an empty line
    | NoDisallowLines                     // the fixed "none found" message
    | DisallowOnly(lines: seq<string>)    // `puts disallow_lines.join`

  const NoDisallowMessage: string := "No Disallow lines found in robots.txt."

  /**
   * The filter runs only when it was asked for, the content is a string, and
   * it starts with neither "Error:" nor "Could not fetch".
   */
  predicate FilterApplies(showDisallowOnly: bool, content: Option<string>) {
    && showDisallowOnly
    && content.Some?
    && !StartsWith(content.value, "Error:")
    && !StartsWith(content.value, "Could not fetch")
  }

  function Render(showDisallowOnly: bool, content: Option<string>): (v: View)
    ensures v.Verbatim? <==> !FilterApplies(showDisallowOnly, content)
    ensures v.Verbatim? ==> v.content == content
    ensures v.NoDisallowLines? <==>
              FilterApplies(showDisallowOnly, content)
              && forall l :: l in Lines(content.value) ==> !IsDisallowLine(l)
    ensures v.DisallowOnly? ==>
              && v.lines != []
              && (forall l :: l in v.lines <==> l in Lines(content.value) && IsDisallowLine(l))
    ensures v.DisallowOnly? ==> v.lines == DisallowLines(content.value)
  {
    if FilterApplies(showDisallowOnly, content) then
      var found := DisallowLines(content.value);
      if found == [] then NoDisallowLines
      else
        assert found[0] in found;
        DisallowOnly(found)
    else
      Verbatim(content)
  }

  /** The text handed to `puts`. */
  function Printed(v: View): string {
    match v
    case Verbatim(None) => ""
    case Verbatim(Some(c)) => c
    case NoDisallowLines => NoDisallowMessage
    case DisallowOnly(lines) => Join(lines)
  }

  /** A Disallow line starts with `\s` or with the letter d, so never with "Error:" or "Could not fetch". */
  lemma DisallowLineStart(line: string)
    requires IsDisallowLine(line)
    ensures |line| > 0 && line[0] != 'E' && line[0] != 'C'
  {
    var i := SpacesEnd(line, 0);
    assert LowerAscii(line[i..i + |Keyword|][0]) == 'd';
    assert line[i..i + |Keyword|][0] == line[i];
    assert i == 0 || IsRegexSpace(line[0]);
  }

  lemma StartsWithFirstChar(s: string, p: string)
    requires |s| > 0 && |p| > 0 && s[0] != p[0]
    ensures !StartsWith(s, p)
  {
    if |p| <= |s| {
      assert s[..|p|][0] == s[0];
    }
  }

  /**
   * Filtering the printed Disallow lines once more shows the very same lines:
   * the filtered view is a fixed point of the filter.
   */
  lemma FilterIsIdempotent(content: string)
    requires Render(true, Some(content)).DisallowOnly?
    ensures Render(true, Some(Printed(Render(true, Some(content))))) == Render(true, Some(content))
  {
    var found := DisallowLines(content);
    var out := Join(found);
    GrepKeepsLineSplit(Lines(content));
    LinesOfJoin(found);
    assert Lines(out) == found;
    JoinOfTail(found);
    assert found[0] in found;
    DisallowLineStart(found[0]);
    assert out[0] == found[0][0];
    StartsWithFirstChar(out, "Error:");
    StartsWithFirstChar(out, "Could not fetch");
    assert FilterApplies(true, Some(out));
    GrepOfAllMatching(found);
  }

  lemma {:induction false} GrepOfAllMatching(lines: seq<string>)
    requires forall l :: l in lines ==> IsDisallowLine(l)
    ensures Grep(lines) == lines
    decreases |lines|
  {
    if lines != [] {
      assert lines[0] in lines;
      assert forall l :: l in lines[1..] ==> l in lines;
      GrepOfAllMatching(lines[1..]);
    }
  }

  lemma KeywordFolds(w: string)
    requires w == "disallow" || w == "Disallow" || w == "DISALLOW"
    ensures SameIgnoringCase(w, Keyword)
  {
  }

  /** The examples the program is meant to accept. */
  lemma AcceptsCapitalised()
    ensures IsDisallowLine("Disallow: /admin\n")
  {
    var l := "Disallow: /admin\n";
    assert SpacesEnd(l, 8) == 8;
    assert SpacesEnd(l, 0) == 0;
    assert l[0..8] == "Disallow";
    KeywordFolds(l[0..8]);
  }

  lemma AcceptsIndented()
    ensures IsDisallowLine("  disallow:/x")
  {
    var l := "  disallow:/x";
    assert SpacesEnd(l, 10) == 10;
    assert SpacesEnd(l, 2) == 2;
    assert SpacesEnd(l, 1) == 2;
    assert SpacesEnd(l, 0) == 2;
    assert l[2..10] == "disallow";
    KeywordFolds(l[2..10]);
  }

  lemma AcceptsSpaceBeforeColon()
    ensures IsDisallowLine("DISALLOW : /y")
  {
    var l := "DISALLOW : /y";
    assert SpacesEnd(l, 9) == 9;
    assert SpacesEnd(l, 8) == 9;
    assert SpacesEnd(l, 0) == 0;
    assert l[0..8] == "DISALLOW";
    KeywordFolds(l[0..8]);
  }

  lemma RejectsNonDisallowExamples()
    ensures !IsDisallowLine("Allow: /z")
    ensures !IsDisallowLine("# Disallow: /w")
  {
    var l4, l5 := "Allow: /z", "# Disallow: /w";
    assert SpacesEnd(l4, 0) == 0;
    assert l4[0..8][0] == 'A';
    assert SpacesEnd(l5, 0) == 0;
    assert l5[0..8][0] == '#';
  }
}
