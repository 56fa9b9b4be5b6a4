/** The left-to-right scan behind Python's `re.sub`, `re.split` and
    `str.replace`, driven by a bespoke matcher per pattern. A matcher answers,
    for a text and a start index, the match Python's backtracking engine
    reports at that index (where it ends and what replaces it); the scan tries
    every index in turn and resumes after each match, so matches never
    overlap. None of the patterns of this system can match the empty string. */
module Scan {
  import opened Strings

  datatype Match = Match(end: nat, repl: string)

  type Matcher = (string, nat) -> Option<Match>

  /** The matcher's answer at `i`, kept only when it consumes at least one
      character and stays inside the text. */
  function MatchAt(m: Matcher, s: string, i: nat): (r: Option<Match>)
    ensures r.Some? ==> i < r.value.end <= |s|
  {
    if i < |s| && m(s, i).Some? && i < m(s, i).value.end <= |s| then m(s, i) else None
  }

  /** `re.sub(pattern, repl, s[i:])`, every index from `i` on tried in turn. */
  function SubFrom(s: string, i: nat, m: Matcher): string
    decreases |s| - i
  {
    if i >= |s| then []
    else match MatchAt(m, s, i)
      case Some(mt) => mt.repl + SubFrom(s, mt.end, m)
      case None => [s[i]] + SubFrom(s, i + 1, m)
  }

  function Sub(s: string, m: Matcher): string {
    SubFrom(s, 0, m)
  }

  /** A stretch of text where the pattern matches nowhere is copied as is. */
  lemma {:induction false} SubFromCopies(s: string, i: nat, j: nat, m: Matcher)
    requires i <= j <= |s|
    requires forall k :: i <= k < j ==> MatchAt(m, s, k).None?
    ensures SubFrom(s, i, m) == s[i..j] + SubFrom(s, j, m)
    decreases j - i
  {
    if i < j {
      assert SubFrom(s, i, m) == [s[i]] + SubFrom(s, i + 1, m) by {
        assert MatchAt(m, s, i).None?;
      }
      SubFromCopies(s, i + 1, j, m);
      assert s[i..j] == [s[i]] + s[i + 1..j];
      ConcatAssoc3([s[i]], s[i + 1..j], SubFrom(s, j, m));
    }
  }

  /** Where the pattern matches, its replacement is written and the scan
      goes on after the match. */
  lemma SubFromMatched(s: string, i: nat, m: Matcher, e: nat, r: string)
    requires MatchAt(m, s, i) == Some(Match(e, r))
    ensures SubFrom(s, i, m) == r + SubFrom(s, e, m)
  {
  }

  /** A text that starts with a match removed, followed by a rest that
      comes out as `t`, comes out as `t`. */
  lemma SubSkipsFront(s: string, m: Matcher, e: nat, t: string)
    requires MatchAt(m, s, 0) == Some(Match(e, ""))
    requires SubFrom(s, e, m) == t
    ensures Sub(s, m) == t
  {
    SubFromMatched(s, 0, m, e, "");
  }

  /** The rest of a text where the pattern matches nowhere is copied as is. */
  lemma SubFromRest(s: string, i: nat, m: Matcher)
    requires i <= |s|
    requires forall k :: i <= k < |s| ==> MatchAt(m, s, k).None?
    ensures SubFrom(s, i, m) == s[i..]
  {
    SubFromCopies(s, i, |s|, m);
    assert s[i..|s|] + [] == s[i..];
  }

  lemma ConcatAssoc3(a: string, b: string, c: string)
    ensures a + (b + c) == (a + b) + c
  {
  }

  /** A text where the pattern matches nowhere comes out of re.sub unchanged. */
  lemma SubUnchanged(s: string, m: Matcher)
    requires forall k :: 0 <= k < |s| ==> MatchAt(m, s, k).None?
    ensures Sub(s, m) == s
  {
    SubFromCopies(s, 0, |s|, m);
  }

  /** A character that neither the text nor any replacement holds is not in
      the output either. */
  lemma {:induction false} SubFromAvoids(s: string, i: nat, m: Matcher, c: char)
    requires i <= |s|
    requires forall k :: i <= k < |s| ==> s[k] != c
    requires forall k :: i <= k < |s| && MatchAt(m, s, k).Some? ==> c !in MatchAt(m, s, k).value.repl
    ensures c !in SubFrom(s, i, m)
    decreases |s| - i
  {
    if i < |s| {
      match MatchAt(m, s, i)
      case Some(mt) =>
        SubFromAvoids(s, mt.end, m, c);
      case None =>
        SubFromAvoids(s, i + 1, m, c);
    }
  }

  /** A scan whose every match gives back exactly the text it matched leaves
      the text as it was. */
  lemma {:induction false} SubFromIdentity(s: string, i: nat, m: Matcher)
    requires i <= |s|
    requires forall k :: i <= k < |s| && MatchAt(m, s, k).Some? ==> MatchAt(m, s, k).value.repl == s[k..MatchAt(m, s, k).value.end]
    ensures SubFrom(s, i, m) == s[i..]
    decreases |s| - i
  {
    if i < |s| {
      match MatchAt(m, s, i)
      case Some(mt) =>
        SubFromMatched(s, i, m, mt.end, mt.repl);
        SubFromIdentity(s, mt.end, m);
        SliceSplit(s, i, mt.end);
      case None =>
        SubFromCopies(s, i, i + 1, m);
        SubFromIdentity(s, i + 1, m);
        SliceSplit(s, i, i + 1);
    }
  }

  lemma SliceSplit(s: string, i: nat, j: nat)
    requires i <= j <= |s|
    ensures s[i..] == s[i..j] + s[j..]
  {
  }


  /** A pattern whose first character the text lacks occurs nowhere in it. */
  lemma AbsentStart(s: string, p: string)
    requires p != [] && p[0] !in s
    ensures !Contains(s, p)
  {
    forall k | 0 <= k <= |s| ensures !OccursAt(s, p, k) {
      if k + |p| <= |s| {
        assert s[k..k + |p|][0] == s[k];
      }
    }
  }

  /** The literal `p` (non-empty) at `i`, replaced by `r`: what `str.replace` looks for. */
  function Literal(p: string, r: string): Matcher {
    (s: string, i: nat) => if p != [] && OccursAt(s, p, i) then Some(Match(i + |p|, r)) else None
  }

  /** `s.replace(p, r)`. */
  function ReplaceAll(s: string, p: string, r: string): string {
    Sub(s, Literal(p, r))
  }

  /** replace() changes nothing in a text where the pattern does not occur. */
  lemma ReplaceAllAbsent(s: string, p: string, r: string)
    requires !Contains(s, p)
    ensures ReplaceAll(s, p, r) == s
  {
    forall k | 0 <= k < |s| ensures MatchAt(Literal(p, r), s, k).None? {
      assert !OccursAt(s, p, k);
    }
    SubUnchanged(s, Literal(p, r));
  }

  /** `re.split(pattern, s[start:])` with scanning resumed at `i`: the pieces
      between matches and, when `keep` (the pattern is one capturing group),
      each matched text between them. */
  function SplitFrom(s: string, start: nat, i: nat, m: Matcher, keep: bool): (parts: seq<string>)
    requires start <= i <= |s|
    ensures |parts| >= 1
    decreases |s| - i
  {
    if i == |s| then [s[start..]]
    else match MatchAt(m, s, i)
      case Some(mt) => [s[start..i]] + (if keep then [s[i..mt.end]] else []) + SplitFrom(s, mt.end, mt.end, m, keep)
      case None => SplitFrom(s, start, i + 1, m, keep)
  }

  /** With the separators kept, the pieces of re.split join back to the text. */
  lemma {:induction false} SplitKeepJoins(s: string, start: nat, i: nat, m: Matcher)
    requires start <= i <= |s|
    ensures Concat(SplitFrom(s, start, i, m, true)) == s[start..]
    decreases |s| - i
  {
    if i < |s| {
      match MatchAt(m, s, i)
      case Some(mt) =>
        var rest := SplitFrom(s, mt.end, mt.end, m, true);
        SplitKeepJoins(s, mt.end, mt.end, m);
        assert SplitFrom(s, start, i, m, true) == [s[start..i], s[i..mt.end]] + rest;
        calc {
          Concat([s[start..i], s[i..mt.end]] + rest);
          s[start..i] + (s[i..mt.end] + Concat(rest));
          { assert s[start..] == s[start..i] + s[i..mt.end] + s[mt.end..]; }
          s[start..];
        }
      case None =>
        SplitKeepJoins(s, start, i + 1, m);
    }
  }

  /** When every separator the pattern finds is the text `sep`, joining the
      pieces of re.split with `sep` gives the text back. */
  lemma {:induction false} SplitJoinWith(s: string, start: nat, i: nat, m: Matcher, sep: string)
    requires start <= i <= |s|
    requires forall k :: i <= k < |s| && MatchAt(m, s, k).Some? ==> s[k..MatchAt(m, s, k).value.end] == sep
    ensures JoinWith(SplitFrom(s, start, i, m, false), sep) == s[start..]
    decreases |s| - i
  {
    if i < |s| {
      match MatchAt(m, s, i)
      case Some(mt) =>
        var rest := SplitFrom(s, mt.end, mt.end, m, false);
        SplitJoinWith(s, mt.end, mt.end, m, sep);
        assert SplitFrom(s, start, i, m, false) == [s[start..i]] + rest;
        assert JoinWith([s[start..i]] + rest, sep) == s[start..i] + sep + JoinWith(rest, sep);
        assert s[start..] == s[start..i] + s[i..mt.end] + s[mt.end..];
      case None =>
        SplitJoinWith(s, start, i + 1, m, sep);
    }
  }

  // Runs and searches shared by the matchers.

  /** End of the run of whitespace starting at `j` (greedy `\s*`). */
  function SpaceEnd(s: string, j: nat): (k: nat)
    requires j <= |s|
    ensures j <= k <= |s| && (k == |s| || !IsSpace(s[k]))
    ensures forall t :: j <= t < k ==> IsSpace(s[t])
    decreases |s| - j
  {
    if j < |s| && IsSpace(s[j]) then SpaceEnd(s, j + 1) else j
  }

  /** End of the run of the character `c` starting at `j` (greedy `c*`). */
  function CharEnd(s: string, j: nat, c: char): (k: nat)
    requires j <= |s|
    ensures j <= k <= |s| && (k == |s| || s[k] != c)
    ensures forall t :: j <= t < k ==> s[t] == c
    decreases |s| - j
  {
    if j < |s| && s[j] == c then CharEnd(s, j + 1, c) else j
  }

  /** End of the run of digits starting at `j` (greedy `\d*`). */
  function DigitEnd(s: string, j: nat): (k: nat)
    requires j <= |s|
    ensures j <= k <= |s| && (k == |s| || !IsDigit(s[k]))
    ensures forall t :: j <= t < k ==> IsDigit(s[t])
    decreases |s| - j
  {
    if j < |s| && IsDigit(s[j]) then DigitEnd(s, j + 1) else j
  }

  /** First index at or after `j` holding a character of `stops`, or |s|:
      where a greedy `[^stops]*` from `j` ends. */
  function FirstOf(s: string, j: nat, stops: set<char>): (k: nat)
    requires j <= |s|
    ensures j <= k <= |s| && (k == |s| || s[k] in stops)
    ensures forall t :: j <= t < k ==> s[t] !in stops
    decreases |s| - j
  {
    if j < |s| && s[j] !in stops then FirstOf(s, j + 1, stops) else j
  }

  /** The runs and searches above end exactly where their defining property
      says; these pin the end down from a description of the text. */
  lemma SpaceEndIs(s: string, j: nat, k: nat)
    requires j <= k <= |s|
    requires forall t :: j <= t < k ==> IsSpace(s[t])
    requires k == |s| || !IsSpace(s[k])
    ensures SpaceEnd(s, j) == k
  {
  }

  lemma DigitEndIs(s: string, j: nat, k: nat)
    requires j <= k <= |s|
    requires forall t :: j <= t < k ==> IsDigit(s[t])
    requires k == |s| || !IsDigit(s[k])
    ensures DigitEnd(s, j) == k
  {
  }

  lemma CharEndIs(s: string, j: nat, c: char, k: nat)
    requires j <= k <= |s|
    requires forall t :: j <= t < k ==> s[t] == c
    requires k == |s| || s[k] != c
    ensures CharEnd(s, j, c) == k
  {
  }

  lemma FirstOfIs(s: string, j: nat, stops: set<char>, k: nat)
    requires j <= k <= |s|
    requires forall t :: j <= t < k ==> s[t] !in stops
    requires k == |s| || s[k] in stops
    ensures FirstOf(s, j, stops) == k
  {
  }

  /** `\s+:` at `i`, replaced by `:`: a whitespace run that ends at a colon. */
  function SpacesBeforeColon(s: string, i: nat): Option<Match> {
    if i < |s| && IsSpace(s[i]) then
      var k := SpaceEnd(s, i);
      if k < |s| && s[k] == ':' then Some(Match(k + 1, ":")) else None
    else None
  }

  /** `\*\*([^*]+)\*\*` at `i`: the group's bounds and the end of the match.
      The group runs to the first `*`, which must open the closing `**`. */
  function BoldSpan(s: string, i: nat): (r: Option<(nat, nat, nat)>)
    ensures r.Some? ==> i + 2 < r.value.1 && r.value.0 == i + 2 && r.value.2 == r.value.1 + 2 <= |s|
  {
    if i + 2 <= |s| && s[i] == '*' && s[i + 1] == '*' then
      var q := FirstOf(s, i + 2, {'*'});
      if q > i + 2 && q + 1 < |s| && s[q + 1] == '*' then Some((i + 2, q, q + 2)) else None
    else None
  }

  /** `\*\*\s+([^*]+)\s+\*\*` at `i`: the group's bounds and the end of the
      match. Python's backtracking settles on: the group runs from the end of
      the leading whitespace (or, if that leaves no room, from one character
      before the last it may take) up to one whitespace character before the
      first `*`, which must open the closing `**`. */
  function SpacedBoldSpan(s: string, i: nat): (r: Option<(nat, nat, nat)>)
    ensures r.Some? ==> i + 2 < r.value.0 < r.value.1 && r.value.2 == r.value.1 + 3 <= |s|
  {
    if i + 2 <= |s| && s[i] == '*' && s[i + 1] == '*' then
      var c := i + 2;
      var w := SpaceEnd(s, c);
      var q := FirstOf(s, c, {'*'});
      if w > c && q >= c + 3 && q + 1 < |s| && s[q + 1] == '*' && IsSpace(s[q - 1]) then
        var p := if w <= q - 2 then w else q - 2;
        Some((p, q - 1, q + 2))
      else None
    else None
  }
}
