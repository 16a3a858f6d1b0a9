/** The cleanup of the generated text: `re.sub(r"\s+---.*", "", text).strip()`
    with Python `re` semantics. `\s+` is greedy, `.` matches anything except
    a newline, matches are found leftmost first and do not overlap, and the
    search resumes right after each removed match. */
module Cleanup {
  import opened Wrappers
  import opened Text

  /** The literal part of the pattern, `---`, occurs in `s` at position `i`. */
  predicate MarkerAt(s: string, i: int) {
    0 <= i && i + 3 <= |s| && s[i] == '-' && s[i + 1] == '-' && s[i + 2] == '-'
  }

  /** `j` splits a match of `\s+---` at the start of `s`: `s[..j]` is a
      non-empty run of whitespace and the marker follows it. */
  predicate MarkerAfterWhitespace(s: string, j: int) {
    && 1 <= j
    && MarkerAt(s, j)
    && (forall i :: 0 <= i < j ==> IsWhitespace(s[i]))
  }

  /** The pattern matches at the start of `s` (`re.match` succeeds). */
  ghost predicate MatchesAtStart(s: string) {
    exists j :: MarkerAfterWhitespace(s, j)
  }

  /** Backtracking never helps: the only split that can be followed by the
      marker is the whole greedy whitespace run. */
  lemma SplitIsGreedyRun(s: string, j: int)
    ensures MarkerAfterWhitespace(s, j) ==> j == LeadingWhitespace(s)
  {
  }

  /** End of the line of `s` that runs on from `i`: the first newline at
      or after `i`, or the end of the text. */
  function LineEnd(s: string, i: nat): (n: nat)
    requires i <= |s|
    ensures i <= n <= |s|
    ensures forall k :: i <= k < n ==> s[k] != '\n'
    ensures n < |s| ==> s[n] == '\n'
    decreases |s| - i
  {
    if i == |s| || s[i] == '\n' then i else LineEnd(s, i + 1)
  }

  /** Length of the longest prefix of `s` free of newlines: what `.*` takes. */
  function RestOfLine(s: string): (n: nat)
    ensures n <= |s|
    ensures forall i :: 0 <= i < n ==> s[i] != '\n'
    ensures n < |s| ==> s[n] == '\n'
  {
    LineEnd(s, 0)
  }

  /** The length of the match of `\s+---.*` at the start of `s`, if any. The
      match is the greedy whitespace run, the marker, and the rest of that
      line up to but not including the next newline (or to the end of the
      text). */
  function MatchLength(s: string): (m: Option<nat>)
    ensures m.Some? <==> LeadingWhitespace(s) >= 1 && MarkerAt(s, LeadingWhitespace(s))
    ensures m.Some? ==> LeadingWhitespace(s) + 3 <= m.value <= |s|
  {
    var j := LeadingWhitespace(s);
    if j >= 1 && MarkerAt(s, j) then
      var k := j + 3;
      Some(k + RestOfLine(s[k..]))
    else
      None
  }

  /** Where the match found by `MatchLength` ends: `.*` takes the rest of
      the line after the marker and stops before the next newline. */
  lemma MatchLengthEnd(s: string)
    requires MatchLength(s).Some?
    ensures var j, n := LeadingWhitespace(s), MatchLength(s).value;
      && (forall i :: j + 3 <= i < n ==> s[i] != '\n')
      && (n < |s| ==> s[n] == '\n')
  {
    var k := LeadingWhitespace(s) + 3;
    var t := s[k..];
    assert forall i :: 0 <= i < RestOfLine(t) ==> s[k + i] == t[i];
  }

  /** `MatchLength` finds a match exactly when the pattern matches at the
      start of the text, whatever split of whitespace and marker it uses. */
  lemma MatchLengthFindsMatch(s: string)
    ensures MatchLength(s).Some? <==> MatchesAtStart(s)
  {
    if MatchesAtStart(s) {
      var j :| MarkerAfterWhitespace(s, j);
      SplitIsGreedyRun(s, j);
    }
    if MatchLength(s).Some? {
      assert MarkerAfterWhitespace(s, LeadingWhitespace(s));
    }
  }

  /** `re.sub(r"\s+---.*", "", s)`: scan left to right; where a match starts,
      drop it and resume after it; elsewhere keep the character. */
  function Substitute(s: string): (r: string)
    ensures |r| <= |s|
    decreases |s|
  {
    if s == [] then []
    else match MatchLength(s)
      case Some(n) => Substitute(s[n..])
      case None => [s[0]] + Substitute(s[1..])
  }

  /** No whitespace character of `s` is immediately followed by the marker. */
  predicate MarkerFree(s: string) {
    forall k :: 0 <= k < |s| && IsWhitespace(s[k]) ==> !MarkerAt(s, k + 1)
  }

  /** What the substitution puts first: the first character of `s` when no
      match starts there, and otherwise the newline that ended the match. */
  lemma {:induction false} SubstituteHead(s: string)
    requires Substitute(s) != []
    ensures MatchLength(s).None? ==> Substitute(s)[0] == s[0]
    ensures MatchLength(s).Some? ==> Substitute(s)[0] == '\n'
  {
    match MatchLength(s)
    case None =>
    case Some(n) =>
      MatchLengthEnd(s);
      SubstituteHead(s[n..]);
  }

  /** A substituted text that does not start with a newline starts with the
      first character of the text, kept because no match starts there. */
  lemma SubstituteKeepsFirst(s: string)
    requires Substitute(s) != [] && Substitute(s)[0] != '\n'
    ensures s != [] && MatchLength(s).None?
    ensures Substitute(s) == [s[0]] + Substitute(s[1..])
  {
    SubstituteHead(s);
  }

  /** If the substituted text starts with the marker, so did the text. */
  lemma SubstituteStartsWithMarker(s: string)
    requires MarkerAt(Substitute(s), 0)
    ensures MarkerAt(s, 0)
  {
    SubstituteKeepsFirst(s);
    SubstituteKeepsFirst(s[1..]);
    assert s[1..][1..] == s[2..];
    SubstituteKeepsFirst(s[2..]);
    assert s[2..][1..] == s[3..];
  }

  /** The substitution leaves no whitespace followed by the marker, even
      where removing a match brings two pieces of text together. */
  lemma {:induction false} SubstituteIsMarkerFree(s: string)
    ensures MarkerFree(Substitute(s))
  {
    if s != [] {
      match MatchLength(s)
      case Some(n) =>
        SubstituteIsMarkerFree(s[n..]);
      case None =>
        var rest := Substitute(s[1..]);
        SubstituteIsMarkerFree(s[1..]);
        SplitIsGreedyRun(s, 1);
        if IsWhitespace(s[0]) && MarkerAt(rest, 0) {
          SubstituteStartsWithMarker(s[1..]);
        }
        var r := [s[0]] + rest;
        forall k | 1 <= k < |r| && IsWhitespace(r[k]) ensures !MarkerAt(r, k + 1) {
          assert r[k] == rest[k - 1];
        }
    }
  }

  /** A marker-free text has no match anywhere and passes unchanged. */
  lemma {:induction false} MarkerFreeUnchanged(s: string)
    requires MarkerFree(s)
    ensures Substitute(s) == s
  {
    if s != [] {
      var j := LeadingWhitespace(s);
      if j >= 1 {
        assert IsWhitespace(s[j - 1]);
      }
      var t := s[1..];
      forall k | 0 <= k < |t| && IsWhitespace(t[k]) ensures !MarkerAt(t, k + 1) {
        assert t[k] == s[k + 1];
      }
      MarkerFreeUnchanged(t);
    }
  }

  /** The substitution leaves a text unchanged exactly when that text has no
      whitespace followed by the marker. */
  lemma SubstituteFixedIff(s: string)
    ensures Substitute(s) == s <==> MarkerFree(s)
  {
    SubstituteIsMarkerFree(s);
    if MarkerFree(s) { MarkerFreeUnchanged(s); }
  }

  /** Substituting a second time removes nothing more. */
  lemma SubstituteIdempotent(s: string)
    ensures Substitute(Substitute(s)) == Substitute(s)
  {
    SubstituteIsMarkerFree(s);
    MarkerFreeUnchanged(Substitute(s));
  }

  /** Where no match starts, the first character is kept. */
  lemma SubstituteKeepsUnmatched(s: string)
    requires s != [] && MatchLength(s).None?
    ensures Substitute(s) == [s[0]] + Substitute(s[1..])
  {
  }

  /** Sequence bookkeeping for the step of `KeepsTextBeforeMatch`. */
  lemma PrefixCons(s: string, p: nat, x: string)
    requires 0 < p <= |s|
    ensures [s[0]] + (s[1..][..p - 1] + x) == s[..p] + x
  {
  }

  /** Text before the first position where a match starts is kept as it is. */
  lemma {:induction false} KeepsTextBeforeMatch(s: string, p: nat)
    requires p <= |s|
    requires forall k :: 0 <= k < p ==> MatchLength(s[k..]).None?
    ensures Substitute(s) == s[..p] + Substitute(s[p..])
  {
    if p > 0 {
      var t := s[1..];
      assert s[0..] == s;
      SubstituteKeepsUnmatched(s);
      forall k | 0 <= k < p - 1 ensures MatchLength(t[k..]).None? {
        assert t[k..] == s[k + 1..];
      }
      KeepsTextBeforeMatch(t, p - 1);
      assert t[p - 1..] == s[p..];
      PrefixCons(s, p, Substitute(s[p..]));
    }
  }

  /** The leftmost match is removed: everything before it is kept and the
      scan resumes right after it, at the newline that ended it (so the
      following lines are scanned afresh) or at the end of the text. */
  lemma RemovesLeftmostMatch(s: string, p: nat)
    requires p < |s|
    requires forall k :: 0 <= k < p ==> MatchLength(s[k..]).None?
    requires MatchLength(s[p..]).Some?
    ensures var n := MatchLength(s[p..]).value;
      && p + n <= |s|
      && (p + n == |s| || s[p + n] == '\n')
      && Substitute(s) == s[..p] + Substitute(s[p + n..])
  {
    var t := s[p..];
    var n := MatchLength(t).value;
    KeepsTextBeforeMatch(s, p);
    SubstituteDropsMatch(t);
    MatchLengthEnd(t);
    SliceOfSlice(s, p, n);
  }

  /** Sequence bookkeeping for `RemovesLeftmostMatch`. */
  lemma SliceOfSlice(s: string, p: nat, n: nat)
    requires p + n <= |s|
    ensures s[p..][n..] == s[p + n..]
    ensures p + n < |s| ==> s[p..][n] == s[p + n]
  {
  }

  /** Without any match the text passes unchanged. */
  lemma KeepsTextWithoutMatch(s: string)
    requires forall k :: 0 <= k < |s| ==> MatchLength(s[k..]).None?
    ensures Substitute(s) == s
  {
    KeepsTextBeforeMatch(s, |s|);
  }

  /** The whitespace run at the start of `x + r`: it stays inside `x` unless
      `x` is all whitespace, and then it runs on into `r`. */
  lemma {:induction false} LeadingWhitespaceConcat(x: string, r: string)
    ensures LeadingWhitespace(x) < |x| ==> LeadingWhitespace(x + r) == LeadingWhitespace(x)
    ensures LeadingWhitespace(x) == |x| ==> LeadingWhitespace(x + r) == |x| + LeadingWhitespace(r)
  {
    if x != [] && IsWhitespace(x[0]) {
      assert (x + r)[1..] == x[1..] + r;
      LeadingWhitespaceConcat(x[1..], r);
    } else if x == [] {
      assert x + r == r;
    }
  }

  /** `.*` on `x` followed by a line break stops inside `x` or at the break. */
  lemma {:induction false} RestOfLineConcat(x: string, r: string)
    requires r != [] && r[0] == '\n'
    ensures RestOfLine(x + r) == RestOfLine(x)
  {
    if x != [] && x[0] != '\n' {
      assert (x + r)[1..] == x[1..] + r;
      RestOfLineConcat(x[1..], r);
    } else if x == [] {
      assert x + r == r;
    }
  }

  /** A match that starts in `x` is the same whether or not a line break
      with no match of its own follows `x`. */
  lemma MatchLengthBeforeLineBreak(x: string, r: string)
    requires x != [] && r != [] && r[0] == '\n' && MatchLength(r).None?
    ensures MatchLength(x + r) == MatchLength(x)
  {
    LeadingWhitespaceConcat(x, r);
    if LeadingWhitespace(x) < |x| {
      MatchLengthRunInside(x, r);
    } else {
      MatchLengthRunAcross(x, r);
    }
  }

  /** `MatchLengthBeforeLineBreak` when the whitespace run ends inside `x`. */
  lemma MatchLengthRunInside(x: string, r: string)
    requires r != [] && r[0] == '\n'
    requires LeadingWhitespace(x) < |x| && LeadingWhitespace(x + r) == LeadingWhitespace(x)
    ensures MatchLength(x + r) == MatchLength(x)
  {
    var j := LeadingWhitespace(x);
    if j + 3 <= |x| {
      MarkerInsideLine(x, r, j);
    } else {
      MarkerCutByLineBreak(x, r, j);
    }
  }

  /** A marker that fits in `x` is found in `x + r` too, and the rest of its
      line ends at the same place. */
  lemma MarkerInsideLine(x: string, r: string, j: nat)
    requires r != [] && r[0] == '\n'
    requires j == LeadingWhitespace(x) == LeadingWhitespace(x + r) && j + 3 <= |x|
    ensures MatchLength(x + r) == MatchLength(x)
  {
    MarkerAtPrefix(x, r, j);
    RestOfLineAfter(x, r, j + 3);
    MatchLengthCongruent(x + r, x);
  }

  /** Two texts with the same whitespace run, the same answer for the marker
      after it and the same rest of the line have the same match length. */
  lemma MatchLengthCongruent(s: string, t: string)
    requires LeadingWhitespace(s) == LeadingWhitespace(t)
    requires MarkerAt(s, LeadingWhitespace(s)) == MarkerAt(t, LeadingWhitespace(t))
    requires LeadingWhitespace(s) + 3 <= |s| && LeadingWhitespace(t) + 3 <= |t|
    requires RestOfLine(s[LeadingWhitespace(s) + 3..]) == RestOfLine(t[LeadingWhitespace(t) + 3..])
    ensures MatchLength(s) == MatchLength(t)
  {
  }

  /** The rest of a line that starts inside `x` ends inside `x` or at the
      line break that starts `r`. */
  lemma RestOfLineAfter(x: string, r: string, k: nat)
    requires r != [] && r[0] == '\n' && k <= |x|
    ensures RestOfLine((x + r)[k..]) == RestOfLine(x[k..])
  {
    assert (x + r)[k..] == x[k..] + r;
    RestOfLineConcat(x[k..], r);
  }

  /** Whether the marker is at `j` is decided inside `x` when it fits there. */
  lemma MarkerAtPrefix(x: string, r: string, j: nat)
    requires j + 3 <= |x|
    ensures MarkerAt(x + r, j) == MarkerAt(x, j)
  {
    var s := x + r;
    assert s[j] == x[j] && s[j + 1] == x[j + 1] && s[j + 2] == x[j + 2];
  }

  /** A marker cannot straddle the line break that starts `r`. */
  lemma MarkerCutByLineBreak(x: string, r: string, j: nat)
    requires r != [] && r[0] == '\n'
    requires j == LeadingWhitespace(x) == LeadingWhitespace(x + r) && j < |x| < j + 3
    ensures MatchLength(x + r) == MatchLength(x) == None
  {
    var s := x + r;
    assert s[|x|] == '\n';
  }

  /** `MatchLengthBeforeLineBreak` when `x` is all whitespace. */
  lemma MatchLengthRunAcross(x: string, r: string)
    requires r != [] && r[0] == '\n' && MatchLength(r).None?
    requires LeadingWhitespace(x) == |x| && LeadingWhitespace(x + r) == |x| + LeadingWhitespace(r)
    ensures MatchLength(x + r) == MatchLength(x)
  {
    var s := x + r;
    var jr := LeadingWhitespace(r);
    assert jr >= 1;
    assert !MarkerAt(r, jr);
    if jr + 3 <= |r| {
      assert s[|x| + jr] == r[jr] && s[|x| + jr + 1] == r[jr + 1] && s[|x| + jr + 2] == r[jr + 2];
    }
  }

  /** Where a match starts, it is dropped and the scan resumes after it. */
  lemma SubstituteDropsMatch(s: string)
    requires s != [] && MatchLength(s).Some?
    ensures Substitute(s) == Substitute(s[MatchLength(s).value..])
  {
  }

  /** `SubstituteDropsMatch` for a text given in two parts, the match
      lying within the first. */
  lemma SubstituteDropsMatchConcat(x: string, r: string, n: nat)
    requires x != [] && n <= |x| && MatchLength(x + r) == Some(n)
    ensures Substitute(x + r) == Substitute(x[n..] + r)
  {
    var xr := x + r;
    assert xr[n..] == x[n..] + r;
    SubstituteDropsMatch(xr);
  }

  /** Step of `SubstituteBeforeLineBreak` where a match starts. */
  lemma LineBreakStepMatched(x: string, r: string, n: nat)
    requires x != [] && MatchLength(x + r) == MatchLength(x) == Some(n)
    requires Substitute(x[n..] + r) == Substitute(x[n..]) + Substitute(r)
    ensures Substitute(x + r) == Substitute(x) + Substitute(r)
  {
    SubstituteDropsMatchConcat(x, r, n);
    SubstituteDropsMatch(x);
  }

  /** `SubstituteKeepsUnmatched` for a text given in two parts. */
  lemma SubstituteKeepsUnmatchedConcat(x: string, r: string)
    requires x != [] && MatchLength(x + r).None?
    ensures Substitute(x + r) == [x[0]] + Substitute(x[1..] + r)
  {
    var xr := x + r;
    assert xr[1..] == x[1..] + r && xr[0] == x[0];
    SubstituteKeepsUnmatched(xr);
  }

  /** Sequence bookkeeping for `LineBreakStepUnmatched`. */
  lemma ConsAssoc(c: char, a: string, b: string)
    ensures [c] + (a + b) == ([c] + a) + b
  {
  }

  /** Step of `SubstituteBeforeLineBreak` where no match starts. */
  lemma LineBreakStepUnmatched(x: string, r: string)
    requires x != [] && MatchLength(x + r).None? && MatchLength(x).None?
    requires Substitute(x[1..] + r) == Substitute(x[1..]) + Substitute(r)
    ensures Substitute(x + r) == Substitute(x) + Substitute(r)
  {
    SubstituteKeepsUnmatchedConcat(x, r);
    SubstituteKeepsUnmatched(x);
    ConsAssoc(x[0], Substitute(x[1..]), Substitute(r));
  }

  /** The text before a line break where no match starts is cleaned on its
      own, with `r` the line break and what follows it. */
  lemma {:induction false} SubstituteBeforeLineBreak(x: string, r: string)
    requires r != [] && r[0] == '\n' && MatchLength(r).None?
    ensures Substitute(x + r) == Substitute(x) + Substitute(r)
    decreases |x|
  {
    if x == [] {
      assert x + r == r;
    } else {
      MatchLengthBeforeLineBreak(x, r);
      match MatchLength(x)
      case Some(n) =>
        SubstituteBeforeLineBreak(x[n..], r);
        LineBreakStepMatched(x, r, n);
      case None =>
        SubstituteBeforeLineBreak(x[1..], r);
        LineBreakStepUnmatched(x, r);
    }
  }

  /** A line break where no match starts separates the text into parts that
      are cleaned independently: a match never runs past the end of its line,
      so the text on the following lines survives unless a match of its own
      removes it. */
  lemma SubstituteLineByLine(x: string, y: string)
    requires MatchLength(['\n'] + y).None?
    ensures Substitute(x + ['\n'] + y) == Substitute(x) + ['\n'] + Substitute(y)
  {
    var r := ['\n'] + y;
    assert x + ['\n'] + y == x + r;
    SubstituteBeforeLineBreak(x, r);
    SubstituteKeepsUnmatched(r);
    assert r[1..] == y;
  }

  /** Any slice of a marker-free text is marker-free. */
  lemma MarkerFreeSlice(s: string, lo: nat, hi: nat)
    requires MarkerFree(s) && lo <= hi <= |s|
    ensures MarkerFree(s[lo..hi])
  {
    var t := s[lo..hi];
    forall k | 0 <= k < |t| && IsWhitespace(t[k]) ensures !MarkerAt(t, k + 1) {
      assert t[k] == s[lo + k];
    }
  }

  /** Lines 77-78 of the pipeline: the substitution, then `strip()`. The
      result has no whitespace at either end and no whitespace followed by
      the marker. */
  function Clean(s: string): (r: string)
    ensures r == [] || (!IsWhitespace(r[0]) && !IsWhitespace(r[|r| - 1]))
    ensures MarkerFree(r)
  {
    var t := Substitute(s);
    SubstituteIsMarkerFree(s);
    var r := Strip(t);
    MarkerFreeSlice(t, LeadingWhitespace(t), LeadingWhitespace(t) + |r|);
    r
  }

  /** A text with no whitespace at either end and no whitespace followed by
      the marker is already clean. */
  lemma CleanKeepsClean(r: string)
    requires r == [] || (!IsWhitespace(r[0]) && !IsWhitespace(r[|r| - 1]))
    requires MarkerFree(r)
    ensures Clean(r) == r
  {
    MarkerFreeUnchanged(r);
    StripKeepsTrimmed(r);
  }

  /** Cleaning an already cleaned text changes nothing. */
  lemma CleanIdempotent(s: string)
    ensures Clean(Clean(s)) == Clean(s)
  {
    CleanKeepsClean(Clean(s));
  }

  /** No match starts at a character that is not whitespace. */
  lemma NoMatchAtText(t: string)
    requires t != [] && !IsWhitespace(t[0])
    ensures MatchLength(t).None?
  {
  }

  /** No match starts at a whitespace character followed by a character
      that is neither whitespace nor the start of the marker. */
  lemma NoMatchAtSpace(t: string)
    requires |t| >= 2 && !IsWhitespace(t[1]) && t[1] != '-'
    ensures MatchLength(t).None?
  {
  }

  /** No match starts on the first line of the example below. */
  lemma ExampleFirstLineUnmatched(s: string)
    requires s == "Hello world.\n---\njunk"
    ensures forall k :: 0 <= k < 12 ==> MatchLength(s[k..]).None?
  {
    forall k | 0 <= k < 12 ensures MatchLength(s[k..]).None? {
      var t := s[k..];
      if k != 5 {
        assert t[0] == s[k];
        NoMatchAtText(t);
      } else {
        assert t[1] == s[6];
        NoMatchAtSpace(t);
      }
    }
  }

  /** The match of the example below: the newline and the marker. */
  lemma ExampleMatch(s: string)
    requires s == "Hello world.\n---\njunk"
    ensures MatchLength(s[12..]) == Some(4)
  {
    var t := s[12..];
    assert t == "\n---\njunk";
    assert LeadingWhitespace(t[1..]) == 0;
    assert LeadingWhitespace(t) == 1;
    assert RestOfLine(t[4..]) == 0;
  }

  /** The last line of the example below, with its newline, has no match. */
  lemma ExampleLastLineKept(s: string)
    requires s == "\njunk"
    ensures Substitute(s) == s
  {
    forall k | 0 <= k < |s| ensures MatchLength(s[k..]).None? {
      var t := s[k..];
      if k == 0 {
        assert t[1] == s[1];
        NoMatchAtSpace(t);
      } else {
        assert t[0] == s[k];
        NoMatchAtText(t);
      }
    }
    KeepsTextWithoutMatch(s);
  }

  /** The leftmost match of the example below is the marker line. */
  lemma ExampleRemovesMarkerLine(s: string)
    requires s == "Hello world.\n---\njunk"
    ensures Substitute(s) == s[..12] + Substitute(s[16..])
  {
    ExampleFirstLineUnmatched(s);
    ExampleMatch(s);
    RemovesLeftmostMatch(s, 12);
  }

  /** The first line of the example below, followed by its last line. */
  lemma ExampleSplice(s: string, kept: string)
    requires s == "Hello world.\n---\njunk" && kept == "Hello world.\njunk"
    ensures s[..12] + s[16..] == kept
  {
  }

  /** The substitution on the example below. */
  lemma ExampleSubstitute(s: string, kept: string)
    requires s == "Hello world.\n---\njunk" && kept == "Hello world.\njunk"
    ensures Substitute(s) == kept
  {
    ExampleRemovesMarkerLine(s);
    ExampleLastLineKept(s[16..]);
    ExampleSplice(s, kept);
  }

  /** `.` does not match a newline, so a marker on a line of its own removes
      only that line (and the newline before it): the text after it survives. */
  lemma CleanStopsAtNewline(s: string, kept: string)
    requires s == "Hello world.\n---\njunk" && kept == "Hello world.\njunk"
    ensures Clean(s) == kept
  {
    ExampleSubstitute(s, kept);
    StripKeepsTrimmed(kept);
  }
}
