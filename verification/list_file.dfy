/**
 * The `-l` list file: each line of `File.readlines` is stripped, blank lines
 * and lines starting with `#` are skipped, and the others are processed
 * with their 1-based line number (skipped lines still count).
 */
module ListFile {
  import opened TextLines

  /** Characters `String#strip` removes: NUL, tab, line feed, vertical tab, form feed, carriage return, space. */
  predicate IsStripSpace(c: char) {
    c == '\0' || c == '\t' || c == '\n' || c == '\U{000B}' || c == '\U{000C}' || c == '\r' || c == ' '
  }

  ghost predicate AllStripSpace(s: string) {
    forall k :: 0 <= k < |s| ==> IsStripSpace(s[k])
  }

  /** First position at or after `from` that does not hold a strip character. */
  function LeadEnd(s: string, from: nat): (k: nat)
    requires from <= |s|
    ensures from <= k <= |s|
    ensures forall i :: from <= i < k ==> IsStripSpace(s[i])
    ensures k < |s| ==> !IsStripSpace(s[k])
    decreases |s| - from
  {
    if from == |s| || !IsStripSpace(s[from]) then from else LeadEnd(s, from + 1)
  }

  /** Position just after the last non-strip character before `to`. */
  function TrailStart(s: string, to: nat): (k: nat)
    requires to <= |s|
    ensures k <= to
    ensures forall i :: k <= i < to ==> IsStripSpace(s[i])
    ensures k > 0 ==> !IsStripSpace(s[k - 1])
  {
    if to == 0 || !IsStripSpace(s[to - 1]) then to else TrailStart(s, to - 1)
  }

  /** `String#strip`. */
  function Strip(s: string): (t: string)
    ensures t != [] ==> !IsStripSpace(t[0]) && !IsStripSpace(t[|t| - 1])
    ensures t == [] <==> AllStripSpace(s)
  {
    var a, b := LeadEnd(s, 0), TrailStart(s, |s|);
    if b <= a then "" else s[a..b]
  }

  lemma LeadEndAt(s: string, a: nat)
    requires a <= |s|
    requires forall i :: 0 <= i < a ==> IsStripSpace(s[i])
    requires a < |s| ==> !IsStripSpace(s[a])
    ensures LeadEnd(s, 0) == a
  {
  }

  lemma TrailStartAt(s: string, b: nat)
    requires b <= |s|
    requires forall i :: b <= i < |s| ==> IsStripSpace(s[i])
    requires b > 0 ==> !IsStripSpace(s[b - 1])
    ensures TrailStart(s, |s|) == b
  {
  }

  /**
   * The result of `strip` is the only slice of `s` that drops nothing but
   * strip characters on either side and neither starts nor ends with one.
   */
  lemma StripIsUniqueTrim(s: string, a: nat, b: nat)
    requires a <= b <= |s|
    requires AllStripSpace(s[..a]) && AllStripSpace(s[b..])
    requires a < b ==> !IsStripSpace(s[a]) && !IsStripSpace(s[b - 1])
    ensures Strip(s) == s[a..b]
  {
    forall i | 0 <= i < a
      ensures IsStripSpace(s[i])
    {
      assert s[..a][i] == s[i];
    }
    forall i | b <= i < |s|
      ensures IsStripSpace(s[i])
    {
      assert s[b..][i - b] == s[i];
    }
    if a < b {
      LeadEndAt(s, a);
      TrailStartAt(s, b);
    } else {
      LeadEndAt(s, |s|);
      TrailStartAt(s, 0);
    }
  }

  /** Stripping twice strips nothing more. */
  lemma StripIsIdempotent(s: string)
    ensures Strip(Strip(s)) == Strip(s)
  {
    var t := Strip(s);
    StripIsUniqueTrim(t, 0, |t|);
  }

  /** One line that is processed: its 1-based number in the file and the stripped text. */
  datatype Entry = Entry(number: nat, domain: string)

  /** `domain.empty? || domain.start_with?('#')`. */
  predicate IsSkipped(domain: string) {
    |domain| == 0 || domain[0] == '#'
  }

  /** `line.strip` for every line of the file. */
  function StripAll(lines: seq<string>): (stripped: seq<string>)
    ensures |stripped| == |lines|
    ensures forall k :: 0 <= k < |lines| ==> stripped[k] == Strip(lines[k])
  {
    if lines == [] then [] else [Strip(lines[0])] + StripAll(lines[1..])
  }

  /** The stripped lines from number `first` on that survive the skip rule, in file order. */
  function SelectFrom(domains: seq<string>, first: nat): seq<Entry> {
    if domains == [] then []
    else
      (if IsSkipped(domains[0]) then [] else [Entry(first, domains[0])]) + SelectFrom(domains[1..], first + 1)
  }

  function SelectEntries(fileText: string): seq<Entry> {
    SelectFrom(StripAll(Lines(fileText)), 1)
  }

  /** The entry the stripped line numbered `e.number` yields, when it is not skipped. */
  ghost predicate Yields(domains: seq<string>, first: nat, e: Entry) {
    && first <= e.number < first + |domains|
    && e.domain == domains[e.number - first]
    && !IsSkipped(e.domain)
  }

  lemma YieldsFromTail(domains: seq<string>, first: nat, e: Entry)
    requires domains != [] && e.number != first
    ensures Yields(domains, first, e) <==> Yields(domains[1..], first + 1, e)
  {
    if first < e.number < first + |domains| {
      assert domains[1..][e.number - (first + 1)] == domains[e.number - first];
    }
  }

  /** An entry is selected exactly when its numbered line, stripped, is that text and survives the skip rule. */
  lemma {:induction false} SelectFromExact(domains: seq<string>, first: nat, e: Entry)
    ensures e in SelectFrom(domains, first) <==> Yields(domains, first, e)
    decreases |domains|
  {
    if domains != [] {
      var head: seq<Entry> := if IsSkipped(domains[0]) then [] else [Entry(first, domains[0])];
      var tail := SelectFrom(domains[1..], first + 1);
      assert SelectFrom(domains, first) == head + tail;
      SelectFromExact(domains[1..], first + 1, e);
      if e.number == first {
        assert e !in tail;
      } else {
        YieldsFromTail(domains, first, e);
        assert e !in head;
      }
    }
  }

  /** Every selected entry is numbered within the lines it came from. */
  lemma {:induction false} SelectFromInRange(domains: seq<string>, first: nat, k: int)
    requires 0 <= k < |SelectFrom(domains, first)|
    ensures first <= SelectFrom(domains, first)[k].number < first + |domains|
    decreases |domains|
  {
    var tail := SelectFrom(domains[1..], first + 1);
    if IsSkipped(domains[0]) {
      assert SelectFrom(domains, first) == tail;
      SelectFromInRange(domains[1..], first + 1, k);
    } else {
      assert SelectFrom(domains, first) == [Entry(first, domains[0])] + tail;
      if k > 0 {
        SelectFromInRange(domains[1..], first + 1, k - 1);
      }
    }
  }

  /** Entries come out in file order: each one's number is below the next one's. */
  lemma {:induction false} SelectFromOrdered(domains: seq<string>, first: nat, k: int)
    requires 0 <= k < |SelectFrom(domains, first)| - 1
    ensures SelectFrom(domains, first)[k].number < SelectFrom(domains, first)[k + 1].number
    decreases |domains|
  {
    var tail := SelectFrom(domains[1..], first + 1);
    if IsSkipped(domains[0]) {
      assert SelectFrom(domains, first) == tail;
      SelectFromOrdered(domains[1..], first + 1, k);
    } else {
      assert SelectFrom(domains, first) == [Entry(first, domains[0])] + tail;
      if k > 0 {
        SelectFromOrdered(domains[1..], first + 1, k - 1);
      } else {
        SelectFromInRange(domains[1..], first + 1, 0);
      }
    }
  }

  /** Line `n` of the file (1-based) is processed, and `domain` is its stripped text. */
  ghost predicate IsSelectedLine(fileText: string, n: int, domain: string) {
    && 1 <= n <= |Lines(fileText)|
    && domain == Strip(Lines(fileText)[n - 1])
    && !IsSkipped(domain)
  }

  /** The list rule over a whole file: line `n` is processed, as `Strip(line)`, iff that is non-empty and not a comment. */
  lemma SelectEntriesExact(fileText: string, e: Entry)
    ensures e in SelectEntries(fileText) <==> IsSelectedLine(fileText, e.number, e.domain)
  {
    SelectStrippedLines(Lines(fileText), e);
  }

  lemma SelectStrippedLines(lines: seq<string>, e: Entry)
    ensures e in SelectFrom(StripAll(lines), 1) <==>
              1 <= e.number <= |lines| && e.domain == Strip(lines[e.number - 1]) && !IsSkipped(e.domain)
  {
    SelectFromExact(StripAll(lines), 1, e);
  }
}
