/**
 * Ruby string helpers the program leans on: `String#lines` (and
 * `File.readlines`, which cuts a file the same way), `Array#join` with no
 * separator, and `String#start_with?`.
 */
module TextLines {

  /** `s.start_with?(prefix)`. */
  predicate StartsWith(s: string, prefix: string) {
    |prefix| <= |s| && s[..|prefix|] == prefix
  }

  /** `pieces.join`: the pieces glued together with no separator. */
  function Join(pieces: seq<string>): string {
    if pieces == [] then "" else pieces[0] + Join(pieces[1..])
  }

  /** A piece produced by `lines`: non-empty, and a newline can only be its last character. */
  predicate IsLinePiece(l: string) {
    |l| > 0 && forall k :: 0 <= k < |l| - 1 ==> l[k] != '\n'
  }

  predicate EndsWithNewline(l: string) {
    |l| > 0 && l[|l| - 1] == '\n'
  }

  /** The shape of every result of `lines`: pieces, all but the last terminated by a newline. */
  predicate IsLineSplit(ls: seq<string>) {
    && (forall k :: 0 <= k < |ls| ==> IsLinePiece(ls[k]))
    && (forall k :: 0 <= k < |ls| - 1 ==> EndsWithNewline(ls[k]))
  }

  /** Position of the first newline of `s`, or `|s|` when there is none. */
  function NewlineIndex(s: string): (k: nat)
    ensures k <= |s|
    ensures forall i :: 0 <= i < k ==> s[i] != '\n'
    ensures k < |s| ==> s[k] == '\n'
  {
    if s == [] then 0
    else if s[0] == '\n' then 0
    else 1 + NewlineIndex(s[1..])
  }

  /**
   * `s.lines`: the text cut after every newline, each piece keeping its
   * terminator; a trailing piece without a newline is kept, and the empty
   * text has no lines.
   */
  function Lines(s: string): (ls: seq<string>)
    ensures Join(ls) == s
    ensures IsLineSplit(ls)
    decreases |s|
  {
    if s == "" then []
    else
      var k := NewlineIndex(s);
      if k == |s| then [s]
      else
        var rest := Lines(s[k + 1..]);
        assert s[..k + 1] + s[k + 1..] == s;
        [s[..k + 1]] + rest
  }

  lemma NewlineIndexUnique(s: string, k: nat)
    requires k < |s| && s[k] == '\n'
    requires forall i :: 0 <= i < k ==> s[i] != '\n'
    ensures NewlineIndex(s) == k
  {
  }

  lemma JoinOfTail(ls: seq<string>)
    requires ls != []
    ensures Join(ls) == ls[0] + Join(ls[1..])
  {
  }

  /** Splitting a well-formed sequence of line pieces after gluing it gives the pieces back. */
  lemma {:induction false} LinesOfJoin(ls: seq<string>)
    requires IsLineSplit(ls)
    ensures Lines(Join(ls)) == ls
    decreases |ls|
  {
    if ls == [] {
    } else {
      var head, tail := ls[0], ls[1..];
      var s := Join(ls);
      JoinOfTail(ls);
      assert s == head + Join(tail);
      if tail == [] {
        assert s == head;
        if EndsWithNewline(head) {
          NewlineIndexUnique(s, |head| - 1);
          assert s[|head|..] == "";
          assert s[..|head|] == head;
        } else {
          assert forall i :: 0 <= i < |s| ==> s[i] != '\n';
          assert NewlineIndex(s) == |s|;
        }
      } else {
        assert EndsWithNewline(head);
        forall i | 0 <= i < |head| - 1
          ensures s[i] != '\n'
        {
          assert s[i] == head[i];
        }
        assert s[|head| - 1] == '\n';
        NewlineIndexUnique(s, |head| - 1);
        assert s[..|head|] == head;
        assert s[|head|..] == Join(tail);
        assert IsLineSplit(tail) by {
          assert forall k :: 0 <= k < |tail| ==> tail[k] == ls[k + 1];
        }
        LinesOfJoin(tail);
      }
    }
  }
}
