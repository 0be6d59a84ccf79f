/**
 * The two JavaScript string built-ins the project-detail page relies on:
 * `String.prototype.trim` and `String.prototype.split` with the regular
 * expression /\n{2,}/g (leftmost, greedy matching of a run of newlines).
 */
module JsText {

  /** ECMAScript WhiteSpace and LineTerminator characters: what `trim` removes. */
  predicate IsTrimmable(c: char) {
    || c == '\t' || c == '\n' || c == '\U{B}' || c == '\U{C}' || c == '\r' || c == ' '
    || c == '\U{A0}' || c == '\U{1680}' || ('\U{2000}' <= c <= '\U{200A}')
    || c == '\U{2028}' || c == '\U{2029}' || c == '\U{202F}' || c == '\U{205F}'
    || c == '\U{3000}' || c == '\U{FEFF}'
  }

  /**
   * The edges of the set: the no-break space and the byte-order mark are
   * white space; the zero-width space and the next-line control are not.
   */
  lemma TrimmableBoundaries()
    ensures IsTrimmable('\U{A0}') && IsTrimmable('\U{FEFF}') && IsTrimmable('\U{3000}')
    ensures !IsTrimmable('\U{200B}') && !IsTrimmable('\U{85}') && !IsTrimmable('a')
  {
  }

  /** Number of trimmable characters at the start of `s`. */
  function TrimStart(s: string): (k: nat)
    ensures k <= |s|
    ensures forall i :: 0 <= i < k ==> IsTrimmable(s[i])
    ensures k < |s| ==> !IsTrimmable(s[k])
  {
    if |s| == 0 || !IsTrimmable(s[0]) then 0 else 1 + TrimStart(s[1..])
  }

  /** Length of `s` once its trailing trimmable characters are dropped. */
  function TrimEnd(s: string): (k: nat)
    ensures k <= |s|
    ensures forall i :: k <= i < |s| ==> IsTrimmable(s[i])
    ensures 0 < k ==> !IsTrimmable(s[k - 1])
  {
    if |s| == 0 || !IsTrimmable(s[|s| - 1]) then |s| else TrimEnd(s[..|s| - 1])
  }

  /** `s.trim()`: the slice of `s` between its leading and trailing white space. */
  function Trim(s: string): (r: string)
    ensures |r| <= |s|
    ensures TrimStart(s) + |r| <= |s| && r == s[TrimStart(s)..TrimStart(s) + |r|]
    ensures forall i :: TrimStart(s) + |r| <= i < |s| ==> IsTrimmable(s[i])
    ensures r == "" || (!IsTrimmable(r[0]) && !IsTrimmable(r[|r| - 1]))
    ensures r == "" <==> forall i :: 0 <= i < |s| ==> IsTrimmable(s[i])
  {
    var rest := s[TrimStart(s)..];
    rest[..TrimEnd(rest)]
  }

  /** A string with no white space at either end is its own trim. */
  lemma TrimOfTrimmed(r: string)
    requires r == "" || (!IsTrimmable(r[0]) && !IsTrimmable(r[|r| - 1]))
    ensures Trim(r) == r
  {
  }

  lemma TrimIdempotent(s: string)
    ensures Trim(Trim(s)) == Trim(s)
  {
    TrimOfTrimmed(Trim(s));
  }

  /** Two newlines starting at index `i`. */
  predicate IsBlankAt(s: string, i: int) {
    0 <= i && i + 1 < |s| && s[i] == '\n' && s[i + 1] == '\n'
  }

  /** `s` holds no run of two or more newlines. */
  predicate NoBlankLine(s: string) {
    forall i :: 0 <= i < |s| ==> !IsBlankAt(s, i)
  }

  /** Three newlines starting at index `i`. */
  predicate IsTripleAt(s: string, i: int) {
    IsBlankAt(s, i) && i + 2 < |s| && s[i + 2] == '\n'
  }

  /** Start of the leftmost run of two or more newlines at or after `from`; |s| when there is none. */
  function FindBlank(s: string, from: nat): (i: nat)
    requires from <= |s|
    decreases |s| - from
    ensures from <= i <= |s|
    ensures i < |s| ==> IsBlankAt(s, i)
    ensures forall j :: from <= j < i ==> !IsBlankAt(s, j)
  {
    if from + 1 >= |s| then |s|
    else if IsBlankAt(s, from) then from
    else FindBlank(s, from + 1)
  }

  /** End (exclusive) of the run of newlines that starts at `i`: the greedy match of \n{2,}. */
  function RunEnd(s: string, i: nat): (j: nat)
    requires i <= |s|
    decreases |s| - i
    ensures i <= j <= |s|
    ensures forall k :: i <= k < j ==> s[k] == '\n'
    ensures j < |s| ==> s[j] != '\n'
  {
    if i < |s| && s[i] == '\n' then RunEnd(s, i + 1) else i
  }

  /**
   * `s.split(/\n{2,}/g)`: the pieces between the maximal runs of two or more
   * newlines, in order; a leading or trailing run yields an empty piece.
   */
  function SplitBlankLines(s: string): (parts: seq<string>)
    decreases |s|
    ensures |parts| >= 1
    ensures forall k :: 0 <= k < |parts| ==> NoBlankLine(parts[k])
    ensures forall k :: 0 < k < |parts| && parts[k] != "" ==> parts[k][0] != '\n'
    ensures forall k :: 0 <= k < |parts| - 1 && parts[k] != "" ==> parts[k][|parts[k]| - 1] != '\n'
  {
    var i := FindBlank(s, 0);
    if i == |s| then
      [s]
    else
      var j := RunEnd(s, i);
      assert s[i + 1] == '\n';
      assert forall m :: 0 <= m < i ==> !IsBlankAt(s[..i], m) by {
        forall m | 0 <= m < i ensures !IsBlankAt(s[..i], m) {
          assert IsBlankAt(s[..i], m) ==> IsBlankAt(s, m);
        }
      }
      assert i > 0 ==> !IsBlankAt(s, i - 1);
      [s[..i]] + SplitBlankLines(s[j..])
  }

  /** `parts.join(sep)`. */
  function Join(parts: seq<string>, sep: string): string {
    if |parts| == 0 then ""
    else if |parts| == 1 then parts[0]
    else parts[0] + sep + Join(parts[1..], sep)
  }

  /** Splitting leaves a string alone exactly when it holds no blank line. */
  lemma SplitIsIdentityIffNoBlank(s: string)
    ensures SplitBlankLines(s) == [s] <==> NoBlankLine(s)
  {
  }

  /**
   * Nothing but the separators is lost: when every blank run is exactly one
   * blank line, joining the pieces with "\n\n" gives the text back.
   */
  lemma SplitJoin(s: string)
    requires forall i :: 0 <= i < |s| ==> !IsTripleAt(s, i)
    ensures Join(SplitBlankLines(s), "\n\n") == s
  {
    SplitJoinCollapses(s);
    CollapseRunsKeepsShortRuns(s);
  }

  /** `t` without its leading newlines. */
  function DropNewlines(t: string): (r: string)
    ensures |r| <= |t|
  {
    if |t| > 0 && t[0] == '\n' then DropNewlines(t[1..]) else t
  }

  /**
   * A reference for what the split throws away, written character by
   * character: every maximal run of two or more newlines becomes exactly
   * one blank line "\n\n".
   */
  function CollapseRuns(s: string): (r: string)
    ensures |r| <= |s|
    decreases |s|
  {
    if |s| < 2 then s
    else if s[0] == '\n' && s[1] == '\n' then "\n\n" + CollapseRuns(DropNewlines(s[2..]))
    else [s[0]] + CollapseRuns(s[1..])
  }

  /** A text whose newline runs are at most two long is already collapsed. */
  lemma {:induction false} CollapseRunsKeepsShortRuns(s: string)
    requires forall i :: 0 <= i < |s| ==> !IsTripleAt(s, i)
    ensures CollapseRuns(s) == s
    decreases |s|
  {
    if |s| >= 2 {
      var t := s[1..];
      assert forall m :: 0 <= m < |t| ==> !IsTripleAt(t, m) by {
        forall m | 0 <= m < |t| ensures !IsTripleAt(t, m) {
          assert IsTripleAt(t, m) ==> IsTripleAt(s, m + 1);
        }
      }
      if s[0] == '\n' && s[1] == '\n' {
        var u := s[2..];
        assert !IsTripleAt(s, 0);
        assert DropNewlines(u) == u;
        assert forall m :: 0 <= m < |u| ==> !IsTripleAt(u, m) by {
          forall m | 0 <= m < |u| ensures !IsTripleAt(u, m) {
            assert IsTripleAt(u, m) ==> IsTripleAt(s, m + 2);
          }
        }
        CollapseRunsKeepsShortRuns(u);
        assert s == "\n\n" + u;
      } else {
        CollapseRunsKeepsShortRuns(t);
        assert s == [s[0]] + t;
      }
    }
  }

  /** Dropping the leading newlines of `s[i..]` lands where the greedy match ends. */
  lemma {:induction false} DropNewlinesIsRunEnd(s: string, i: nat)
    requires i <= |s|
    ensures DropNewlines(s[i..]) == s[RunEnd(s, i)..]
    decreases |s| - i
  {
    if i < |s| && s[i] == '\n' {
      assert s[i..][1..] == s[i + 1..];
      DropNewlinesIsRunEnd(s, i + 1);
    }
  }

  /** Collapsing leaves a prefix without a blank line untouched. */
  lemma {:induction false} CollapsePrefix(s: string, i: nat)
    requires i <= |s|
    requires forall j :: 0 <= j < i ==> !IsBlankAt(s, j)
    ensures CollapseRuns(s) == s[..i] + CollapseRuns(s[i..])
  {
    if i > 0 && |s| >= 2 {
      assert !IsBlankAt(s, 0);
      var t := s[1..];
      forall j | 0 <= j < i - 1 ensures !IsBlankAt(t, j) {
        assert IsBlankAt(t, j) ==> IsBlankAt(s, j + 1);
      }
      CollapsePrefix(t, i - 1);
      assert s[..i] == [s[0]] + t[..i - 1];
      assert t[i - 1..] == s[i..];
    }
  }

  /**
   * The split loses nothing but the length of each separator, for every
   * text: joining the pieces with "\n\n" gives the text with each maximal
   * run of two or more newlines collapsed to one blank line.
   */
  lemma {:induction false} SplitJoinCollapses(s: string)
    ensures Join(SplitBlankLines(s), "\n\n") == CollapseRuns(s)
    decreases |s|
  {
    var i := FindBlank(s, 0);
    CollapsePrefix(s, i);
    if i < |s| {
      var j := RunEnd(s, i);
      assert s[i + 1] == '\n';
      var u := s[i..];
      assert u[0] == '\n' && u[1] == '\n';
      assert u[2..] == s[i + 2..];
      assert RunEnd(s, i) == RunEnd(s, i + 2);
      DropNewlinesIsRunEnd(s, i + 2);
      assert CollapseRuns(u) == "\n\n" + CollapseRuns(s[j..]);
      SplitJoinCollapses(s[j..]);
      var rest := SplitBlankLines(s[j..]);
      assert SplitBlankLines(s) == [s[..i]] + rest;
      assert Join([s[..i]] + rest, "\n\n") == s[..i] + "\n\n" + Join(rest, "\n\n");
    }
  }
}
