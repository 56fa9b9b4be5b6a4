/** The two text helpers at the top of assistant_handler.py:
    `clean_text_and_split`, which cuts an assistant reply into paragraphs, and
    `process_markdown`, which normalises the reply's markdown for the chat
    platform. Each regular-expression pass is one bespoke matcher run through
    the scan of module Scan. */
module AssistantText {
  import opened Strings
  import opened Scan

  const Pin: char := '\U{1F4CC}'

  // clean_text_and_split

  /** `📌\s+[^:]+\s*:` at `i`: a pinned title up to and including the first
      colon after it; the match is the title itself (the pattern is one
      capturing group). Backtracking lets the whitespace give back a character
      to `[^:]+`, so the only demands are a whitespace right after the pin and
      at least two characters before the colon. */
  function PinTitle(s: string, i: nat): Option<Match> {
    if i + 1 < |s| && s[i] == Pin && IsSpace(s[i + 1]) then
      var q := FirstOf(s, i + 1, {':'});
      if q < |s| && q >= i + 3 then Some(Match(q + 1, s[i..q + 1])) else None
    else None
  }

  /** `re.split(r'(📌\s+[^:]+\s*:)', text)`. */
  function PinParts(text: string): seq<string> {
    SplitFrom(text, 0, 0, PinTitle, true)
  }

  /** The pinned-title pass of clean_text_and_split: the split parts joined
      back together give the text unchanged. */
  lemma PinPassUnchanged(text: string)
    ensures Concat(PinParts(text)) == text
  {
    SplitKeepJoins(text, 0, 0, PinTitle);
  }

  /** `\n\n+` at `i`: a run of two or more newlines. */
  function BlankLines(s: string, i: nat): Option<Match> {
    if i + 1 < |s| && s[i] == '\n' && s[i + 1] == '\n' then Some(Match(CharEnd(s, i, '\n'), "")) else None
  }

  /** `re.split(r'\n\n+', text)`. */
  function Paragraphs(text: string): seq<string> {
    SplitFrom(text, 0, 0, BlankLines, false)
  }

  /** `[p for p in paragraphs if p.strip()]`. */
  function NonBlank(paragraphs: seq<string>): (kept: seq<string>)
    ensures forall p :: p in kept <==> p in paragraphs && Strip(p) != []
    ensures |kept| <= |paragraphs|
  {
    if paragraphs == [] then []
    else (if Strip(paragraphs[0]) != [] then [paragraphs[0]] else []) + NonBlank(paragraphs[1..])
  }

  /** `clean_text_and_split(text)`: the paragraphs of the text, split at blank
      lines, with the blank ones dropped. */
  function CleanTextAndSplit(text: string): (paragraphs: seq<string>)
    ensures paragraphs == NonBlank(Paragraphs(text))
    ensures forall p :: p in paragraphs ==> Strip(p) != [] && !Contains(p, "\n\n")
    ensures forall p :: p in Paragraphs(text) && Strip(p) != [] ==> p in paragraphs
  {
    PinPassUnchanged(text);
    ParagraphsHaveNoBlankLine(text);
    NonBlank(Paragraphs(Concat(PinParts(text))))
  }

  /** No piece that re.split cuts at `\n\n+` contains a blank line. */
  lemma ParagraphsHaveNoBlankLine(text: string)
    ensures forall p :: p in Paragraphs(text) ==> !Contains(p, "\n\n")
  {
    PiecesHaveNoBlankLine(text, 0, 0);
  }

  lemma {:induction false} PiecesHaveNoBlankLine(s: string, start: nat, i: nat)
    requires start <= i <= |s|
    requires forall k :: start <= k < i ==> BlankLines(s, k).None?
    ensures forall p :: p in SplitFrom(s, start, i, BlankLines, false) ==> !Contains(p, "\n\n")
    decreases |s| - i
  {
    if i == |s| {
      NoBlankLineIn(s, start, |s|);
      assert s[start..|s|] == s[start..];
    } else {
      match MatchAt(BlankLines, s, i)
      case Some(mt) =>
        NoBlankLineIn(s, start, i);
        PiecesHaveNoBlankLine(s, mt.end, mt.end);
      case None =>
        PiecesHaveNoBlankLine(s, start, i + 1);
    }
  }

  /** A slice `s[a..b]` none of whose indices starts a newline run, except
      possibly its last, contains no blank line. */
  lemma NoBlankLineIn(s: string, a: nat, b: nat)
    requires a <= b <= |s|
    requires forall k :: a <= k < b - 1 ==> BlankLines(s, k).None?
    ensures !Contains(s[a..b], "\n\n")
  {
    forall k | 0 <= k <= |s[a..b]| ensures !OccursAt(s[a..b], "\n\n", k) {
      var t := s[a..b];
      if k + 2 <= |t| {
        assert BlankLines(s, a + k).None?;
        var w := t[k..k + 2];
        assert w[0] == s[a + k] && w[1] == s[a + k + 1];
        assert !(w[0] == '\n' && w[1] == '\n');
        assert w != "\n\n";
      }
    }
  }

  /** When the text has no run of three newlines, every separator is exactly
      a blank line, and joining the paragraphs with one gives the text back. */
  lemma ParagraphsRoundTrip(text: string)
    requires !Contains(text, "\n\n\n")
    ensures Strings.JoinWith(Paragraphs(text), "\n\n") == text
  {
    forall k | 0 <= k < |text| && MatchAt(BlankLines, text, k).Some?
      ensures text[k..MatchAt(BlankLines, text, k).value.end] == "\n\n"
    {
      var e := CharEnd(text, k, '\n');
      if e > k + 2 {
        assert text[k..k + 3] == "\n\n\n";
        assert OccursAt(text, "\n\n\n", k);
      }
    }
    SplitJoinWith(text, 0, 0, BlankLines, "\n\n");
  }

  // process_markdown

  /** `c+` at `i`, replaced by a single `c`. */
  function CharRun(c: char, s: string, i: nat): Option<Match> {
    if i < |s| && s[i] == c then Some(Match(CharEnd(s, i, c), [c])) else None
  }

  function RunOf(c: char): Matcher {
    (s: string, i: nat) => CharRun(c, s, i)
  }

  /** No two neighbouring characters of `s` are both `c`. */
  predicate NoAdjacent(s: string, c: char) {
    forall k :: 0 < k < |s| ==> !(s[k - 1] == c && s[k] == c)
  }

  lemma NoAdjacentCons(x: char, t: string, c: char)
    requires NoAdjacent(t, c)
    requires t == [] || x != c || t[0] != c
    ensures NoAdjacent([x] + t, c)
  {
    var u := [x] + t;
    forall k | 0 < k < |u| ensures !(u[k - 1] == c && u[k] == c) {
      if k > 1 {
        assert u[k - 1] == t[k - 2] && u[k] == t[k - 1];
      }
    }
  }

  /** Collapsing the runs of `c` leaves no two `c` side by side, and the
      output starts with `c` only where the input does. */
  lemma {:induction false} RunsCollapsed(s: string, c: char, i: nat)
    requires i <= |s|
    ensures NoAdjacent(SubFrom(s, i, RunOf(c)), c)
    ensures SubFrom(s, i, RunOf(c)) != [] && SubFrom(s, i, RunOf(c))[0] == c ==> i < |s| && s[i] == c
    decreases |s| - i
  {
    if i < |s| {
      var rest: string;
      if s[i] == c {
        var e := CharEnd(s, i, c);
        assert MatchAt(RunOf(c), s, i) == Some(Match(e, [c]));
        rest := SubFrom(s, e, RunOf(c));
        RunsCollapsed(s, c, e);
        assert SubFrom(s, i, RunOf(c)) == [c] + rest;
      } else {
        assert MatchAt(RunOf(c), s, i) == None;
        rest := SubFrom(s, i + 1, RunOf(c));
        RunsCollapsed(s, c, i + 1);
        assert SubFrom(s, i, RunOf(c)) == [s[i]] + rest;
      }
      NoAdjacentCons(if s[i] == c then c else s[i], rest, c);
    }
  }

  /** A stretch where `c` never follows `c` comes out of the collapse as is. */
  lemma {:induction false} RunsCopied(s: string, c: char, i: nat, j: nat)
    requires i <= j <= |s|
    requires forall k :: i <= k < j && s[k] == c ==> k + 1 == |s| || s[k + 1] != c
    ensures SubFrom(s, i, RunOf(c)) == s[i..j] + SubFrom(s, j, RunOf(c))
    decreases j - i
  {
    if i < j {
      if s[i] == c {
        assert CharEnd(s, i + 1, c) == i + 1;
        assert MatchAt(RunOf(c), s, i) == Some(Match(i + 1, [c]));
      } else {
        assert MatchAt(RunOf(c), s, i) == None;
      }
      assert SubFrom(s, i, RunOf(c)) == [s[i]] + SubFrom(s, i + 1, RunOf(c));
      RunsCopied(s, c, i + 1, j);
      assert s[i..j] == [s[i]] + s[i + 1..j];
      ConcatAssoc3([s[i]], s[i + 1..j], SubFrom(s, j, RunOf(c)));
    }
  }

  /** `re.sub(r' +', ' ', text)`. */
  function CollapseSpaces(text: string): string {
    Sub(text, RunOf(' '))
  }

  /** The text with each run of `c` cut down to one `c`: a `c` is dropped
      exactly when another `c` follows it. */
  function Squeezed(s: string, c: char): string
    decreases |s|
  {
    if s == [] then []
    else if |s| > 1 && s[0] == c && s[1] == c then Squeezed(s[1..], c)
    else [s[0]] + Squeezed(s[1..], c)
  }

  /** A whole run of `c` squeezes to one `c`. */
  lemma {:induction false} SqueezedRun(s: string, c: char, j: nat, e: nat)
    requires j < e <= |s| && (forall t :: j <= t < e ==> s[t] == c) && (e == |s| || s[e] != c)
    ensures Squeezed(s[j..], c) == [c] + Squeezed(s[e..], c)
    decreases e - j
  {
    var u := s[j..];
    assert u[1..] == s[j + 1..];
    assert u[0] == s[j];
    if j + 1 < e {
      assert u[1] == s[j + 1];
      SqueezedRun(s, c, j + 1, e);
    } else if |u| > 1 {
      assert u[1] == s[e];
    }
  }

  /** The run-collapsing scan from `i` on squeezes the rest of the text. */
  lemma {:induction false} RunsSqueezed(s: string, c: char, i: nat)
    requires i <= |s|
    ensures SubFrom(s, i, RunOf(c)) == Squeezed(s[i..], c)
    decreases |s| - i
  {
    if i < |s| {
      var u := s[i..];
      assert u[0] == s[i] && u[1..] == s[i + 1..];
      if s[i] == c {
        var e := CharEnd(s, i, c);
        assert MatchAt(RunOf(c), s, i) == Some(Match(e, [c]));
        RunsSqueezed(s, c, e);
        SqueezedRun(s, c, i, e);
      } else {
        assert MatchAt(RunOf(c), s, i) == None;
        RunsSqueezed(s, c, i + 1);
      }
    }
  }

  /** After the first pass no two spaces are neighbours, and the pass changes
      the text exactly when it had two neighbouring spaces; what it gives is
      the text with each run of spaces cut down to one space. */
  lemma CollapseSpacesSpec(text: string)
    ensures NoAdjacent(CollapseSpaces(text), ' ')
    ensures CollapseSpaces(text) == text <==> NoAdjacent(text, ' ')
    ensures CollapseSpaces(text) == Squeezed(text, ' ')
  {
    RunsSqueezed(text, ' ', 0);
    assert text[0..] == text;
    RunsCollapsed(text, ' ', 0);
    if NoAdjacent(text, ' ') {
      forall k | 0 <= k < |text| && text[k] == ' ' ensures k + 1 == |text| || text[k + 1] != ' ' {
        if k + 1 < |text| {
          assert !(text[k + 1 - 1] == ' ' && text[k + 1] == ' ');
        }
      }
      RunsCopied(text, ' ', 0, |text|);
      assert text[0..|text|] == text;
    }
  }

  /** No whitespace character stands directly before a colon. */
  predicate TightColons(s: string) {
    forall k :: 0 < k < |s| && s[k] == ':' ==> !IsSpace(s[k - 1])
  }

  /** Whether the output of the colon pass from `i` on starts with a colon. */
  predicate StartsColon(s: string, i: nat) {
    i < |s| && (s[i] == ':' || SpacesBeforeColon(s, i).Some?)
  }

  lemma TightColonsCons(x: char, t: string)
    requires TightColons(t)
    requires t == [] || t[0] != ':' || !IsSpace(x)
    ensures TightColons([x] + t)
  {
    var u := [x] + t;
    forall k | 0 < k < |u| && u[k] == ':' ensures !IsSpace(u[k - 1]) {
      if k > 1 {
        assert u[k - 1] == t[k - 2] && u[k] == t[k - 1];
      }
    }
  }

  /** A whitespace character in front of a colon, or of a run that ends in
      one, starts a longer run that the colon pass replaces. */
  lemma SpaceJoinsColon(s: string, i: nat)
    requires i < |s|
    ensures IsSpace(s[i]) && StartsColon(s, i + 1) ==> MatchAt(SpacesBeforeColon, s, i).Some?
  {
    if IsSpace(s[i]) && StartsColon(s, i + 1) {
      assert SpaceEnd(s, i) == SpaceEnd(s, i + 1);
    }
  }

  lemma {:induction false} ColonsTightened(s: string, i: nat)
    requires i <= |s|
    ensures TightColons(SubFrom(s, i, SpacesBeforeColon))
    ensures SubFrom(s, i, SpacesBeforeColon) != [] && SubFrom(s, i, SpacesBeforeColon)[0] == ':' ==> StartsColon(s, i)
    decreases |s| - i
  {
    if i < |s| {
      match MatchAt(SpacesBeforeColon, s, i)
      case Some(mt) =>
        ColonsTightened(s, mt.end);
        TightColonsCons(':', SubFrom(s, mt.end, SpacesBeforeColon));
      case None =>
        var rest := SubFrom(s, i + 1, SpacesBeforeColon);
        ColonsTightened(s, i + 1);
        SpaceJoinsColon(s, i);
        TightColonsCons(s[i], rest);
    }
  }

  /** `re.sub(r'\s+:', r':', text)`. */
  function TightenColons(text: string): string {
    Sub(text, SpacesBeforeColon)
  }

  /** Whether `s` opens with a run of whitespace that a colon ends. */
  predicate SpaceRunToColon(s: string)
    decreases |s|
  {
    |s| > 1 && IsSpace(s[0]) && (s[1] == ':' || SpaceRunToColon(s[1..]))
  }

  /** The text with each whitespace character of a run that a colon ends
      deleted; every other character is kept, in order. */
  function Tightened(s: string): string
    decreases |s|
  {
    if s == [] then [] else (if SpaceRunToColon(s) then [] else [s[0]]) + Tightened(s[1..])
  }

  lemma {:induction false} RunToColonAt(s: string, j: nat)
    requires j < |s|
    ensures SpaceRunToColon(s[j..]) <==> IsSpace(s[j]) && SpaceEnd(s, j) < |s| && s[SpaceEnd(s, j)] == ':'
    decreases |s| - j
  {
    var u := s[j..];
    assert u[0] == s[j];
    if j + 1 < |s| {
      assert u[1..] == s[j + 1..] && u[1] == s[j + 1];
      RunToColonAt(s, j + 1);
    }
  }

  /** A whitespace run from `j` that the colon at `k` ends is deleted, and
      the colon kept. */
  lemma {:induction false} RunDropped(s: string, j: nat, k: nat)
    requires j <= k < |s| && s[k] == ':' && forall t :: j <= t < k ==> IsSpace(s[t])
    ensures Tightened(s[j..]) == [':'] + Tightened(s[k + 1..])
    decreases k - j
  {
    var u := s[j..];
    assert u[0] == s[j] && u[1..] == s[j + 1..];
    if j < k {
      SpaceEndIs(s, j, k);
      RunToColonAt(s, j);
      RunDropped(s, j + 1, k);
    }
  }

  /** The colon pass from `i` on gives the tightened rest of the text. */
  predicate TightensAs(s: string, i: nat)
    requires i <= |s|
  {
    SubFrom(s, i, SpacesBeforeColon) == Tightened(s[i..])
  }

  /** A whitespace run from `i` that reaches a colon. */
  predicate RunReachesColon(s: string, i: nat) {
    i < |s| && IsSpace(s[i]) && SpaceEnd(s, i) < |s| && s[SpaceEnd(s, i)] == ':'
  }

  /** The colon pass from `i` on tightens the rest of the text. */
  lemma {:induction false} ColonsTightenedAs(s: string, i: nat)
    requires i <= |s|
    ensures TightensAs(s, i)
    decreases |s| - i
  {
    if i == |s| {
      assert s[i..] == [];
    } else if RunReachesColon(s, i) {
      var k := SpaceEnd(s, i);
      ColonsTightenedAs(s, k + 1);
      RunTightened(s, i, k);
    } else {
      ColonsTightenedAs(s, i + 1);
      OtherTightened(s, i);
    }
  }

  /** A whitespace run that reaches a colon is where the pass matches. */
  lemma RunTightened(s: string, i: nat, k: nat)
    requires RunReachesColon(s, i) && k == SpaceEnd(s, i)
    requires TightensAs(s, k + 1)
    ensures TightensAs(s, i)
  {
    assert MatchAt(SpacesBeforeColon, s, i) == Some(Match(k + 1, ":"));
    SubFromMatched(s, i, SpacesBeforeColon, k + 1, ":");
    RunDropped(s, i, k);
  }

  /** Any other character is copied by both. */
  lemma OtherTightened(s: string, i: nat)
    requires i < |s| && !RunReachesColon(s, i)
    requires TightensAs(s, i + 1)
    ensures TightensAs(s, i)
  {
    RunToColonAt(s, i);
    assert MatchAt(SpacesBeforeColon, s, i).None?;
    var u := s[i..];
    assert u[0] == s[i] && u[1..] == s[i + 1..];
    assert Tightened(u) == [s[i]] + Tightened(s[i + 1..]);
  }

  /** After the second pass no whitespace stands before a colon, and the pass
      changes the text exactly when some whitespace did; what it gives is
      the text with only the whitespace runs before colons deleted. */
  lemma TightenColonsSpec(text: string)
    ensures TightColons(TightenColons(text))
    ensures TightenColons(text) == text <==> TightColons(text)
    ensures TightenColons(text) == Tightened(text)
  {
    ColonsTightenedAs(text, 0);
    assert text[0..] == text;
    ColonsTightened(text, 0);
    if TightColons(text) {
      forall k | 0 <= k < |text| ensures MatchAt(SpacesBeforeColon, text, k).None? {
        if IsSpace(text[k]) {
          var e := SpaceEnd(text, k);
          assert e > k && IsSpace(text[e - 1]);
        }
      }
      SubUnchanged(text, SpacesBeforeColon);
    }
  }

  /** `(\d+)\.\s+\*\*\s+([^*]+)\s+\*\*\s*:` at `i`, replaced by `\1. *\2*:`. */
  function NumberedSpacedBold(s: string, i: nat): Option<Match> {
    if i < |s| && IsDigit(s[i]) then
      var k := DigitEnd(s, i);
      if k < |s| && s[k] == '.' then
        var w := SpaceEnd(s, k + 1);
        if w > k + 1 then
          match SpacedBoldSpan(s, w)
          case Some((g0, g1, e)) =>
            var c := SpaceEnd(s, e);
            if c < |s| && s[c] == ':' then Some(Match(c + 1, s[i..k] + ". *" + s[g0..g1] + "*:")) else None
          case None => None
        else None
      else None
    else None
  }

  /** Where `[^#\n]+` may start after the whitespace of a heading: the largest
      index in `[lo, hi]` holding neither `#` nor a newline (backtracking
      `\s+` gives characters back from the right). */
  function HeadingStart(s: string, lo: nat, hi: nat): (j: Option<nat>)
    requires lo <= hi
    ensures j.Some? ==> lo <= j.value <= hi && j.value < |s| && s[j.value] != '#' && s[j.value] != '\n'
    decreases hi
  {
    if hi < |s| && s[hi] != '#' && s[hi] != '\n' then Some(hi)
    else if hi == lo then None
    else HeadingStart(s, lo, hi - 1)
  }

  /** `###\s+([^#\n]+)` at `i`, replaced by `*\1*`. */
  function Heading(s: string, i: nat): Option<Match> {
    if i + 3 <= |s| && s[i] == '#' && s[i + 1] == '#' && s[i + 2] == '#' then
      var w := SpaceEnd(s, i + 3);
      if w > i + 3 then
        match HeadingStart(s, i + 4, w)
        case Some(j) =>
          var e := FirstOf(s, j, {'#', '\n'});
          Some(Match(e, "*" + s[j..e] + "*"))
        case None => None
      else None
    else None
  }

  /** `(\d+)\.\s+([^:]+):` at `i`, replaced by `\1. *\2*:`. The label runs
      from the end of the whitespace to the first colon; if the colon comes
      right after the whitespace, backtracking hands the label the last
      whitespace character. */
  function NumberedLabel(s: string, i: nat): Option<Match> {
    if i < |s| && IsDigit(s[i]) then
      var k := DigitEnd(s, i);
      if k < |s| && s[k] == '.' then
        var w := SpaceEnd(s, k + 1);
        var q := FirstOf(s, w, {':'});
        if w > k + 1 && q < |s| then
          if q > w then Some(Match(q + 1, s[i..k] + ". *" + s[w..q] + "*:"))
          else if w >= k + 3 then Some(Match(q + 1, s[i..k] + ". *" + s[w - 1..w] + "*:"))
          else None
        else None
      else None
    else None
  }

  /** `\*\*([^*]+)\*\*` at `i`, replaced by `*\1*`. */
  function DoubleStar(s: string, i: nat): Option<Match> {
    match BoldSpan(s, i)
    case Some((g0, g1, e)) => Some(Match(e, "*" + s[g0..g1] + "*"))
    case None => None
  }

  function FixNumberedBold(text: string): string { Sub(text, NumberedSpacedBold) }
  function FixHeadings(text: string): string { Sub(text, Heading) }
  function FixNumberedLabels(text: string): string { Sub(text, NumberedLabel) }
  function SingleStarBold(text: string): string { Sub(text, DoubleStar) }

  /** `text.replace('**', '*').replace('* *', '*')`. */
  function DropDoubledStars(text: string): string {
    ReplaceAll(ReplaceAll(text, "**", "*"), "* *", "*")
  }

  /** Passes three and five need a colon, pass four a `#`, and passes six
      and seven an asterisk: text without them goes through untouched. */
  lemma NoColonNoLabels(text: string)
    requires ':' !in text
    ensures FixNumberedBold(text) == text && FixNumberedLabels(text) == text
  {
    forall k | 0 <= k < |text|
      ensures MatchAt(NumberedSpacedBold, text, k).None? && MatchAt(NumberedLabel, text, k).None?
    {
    }
    SubUnchanged(text, NumberedSpacedBold);
    SubUnchanged(text, NumberedLabel);
  }

  lemma NoHashNoHeadings(text: string)
    requires '#' !in text
    ensures FixHeadings(text) == text
  {
    forall k | 0 <= k < |text| ensures MatchAt(Heading, text, k).None? {
    }
    SubUnchanged(text, Heading);
  }

  lemma NoStarNoBold(text: string)
    requires '*' !in text
    ensures SingleStarBold(text) == text && DropDoubledStars(text) == text
  {
    forall k | 0 <= k < |text| ensures MatchAt(DoubleStar, text, k).None? {
    }
    SubUnchanged(text, DoubleStar);
    assert !Contains(text, "**") by {
      forall k | 0 <= k <= |text| ensures !OccursAt(text, "**", k) {
        if k + 2 <= |text| {
          assert text[k..k + 2][0] == text[k];
        }
      }
    }
    ReplaceAllAbsent(text, "**", "*");
    assert !Contains(text, "* *") by {
      forall k | 0 <= k <= |text| ensures !OccursAt(text, "* *", k) {
        if k + 3 <= |text| {
          assert text[k..k + 3][0] == text[k];
        }
      }
    }
    ReplaceAllAbsent(text, "* *", "*");
  }

  /** Passes six and seven leave alone a text where no two asterisks are
      neighbours and no single space stands between two asterisks. */
  lemma LoneStarsKept(text: string)
    requires NoAdjacent(text, '*')
    requires forall k :: 0 < k < |text| - 1 && text[k] == ' ' ==> !(text[k - 1] == '*' && text[k + 1] == '*')
    ensures SingleStarBold(text) == text && DropDoubledStars(text) == text
  {
    forall k | 0 <= k < |text| ensures MatchAt(DoubleStar, text, k).None? {
      if k + 1 < |text| {
        assert !(text[k + 1 - 1] == '*' && text[k + 1] == '*');
      }
    }
    SubUnchanged(text, DoubleStar);
    assert !Contains(text, "**") by {
      forall k | 0 <= k <= |text| ensures !OccursAt(text, "**", k) {
        if k + 2 <= |text| {
          assert !(text[k + 1 - 1] == '*' && text[k + 1] == '*');
          var w := text[k..k + 2];
          assert w[0] == text[k] && w[1] == text[k + 1];
          assert w != "**";
        }
      }
    }
    ReplaceAllAbsent(text, "**", "*");
    assert !Contains(text, "* *") by {
      forall k | 0 <= k <= |text| ensures !OccursAt(text, "* *", k) {
        if k + 3 <= |text| {
          assert text[k..k + 3][0] == text[k] && text[k..k + 3][1] == text[k + 1] && text[k..k + 3][2] == text[k + 2];
        }
      }
    }
    ReplaceAllAbsent(text, "* *", "*");
  }

  lemma HeadingRewritten(t: string)
    requires t != [] && !IsSpace(t[0]) && '#' !in t && '\n' !in t
    ensures FixHeadings("### " + t) == "*" + t + "*"
  {
    var s := "### " + t;
    assert SpaceEnd(s, 4) == 4 && SpaceEnd(s, 3) == 4;
    assert FirstOf(s, 4, {'#', '\n'}) == |s|;
    assert s[4..|s|] == t;
    assert MatchAt(Heading, s, 0) == Some(Match(|s|, "*" + t + "*"));
    assert FixHeadings(s) == "*" + t + "*" + SubFrom(s, |s|, Heading);
  }

  /** The first three passes leave alone a text without colons or doubled
      spaces. */
  lemma FrontPassesKeep(s: string)
    requires NoAdjacent(s, ' ') && ':' !in s
    ensures FixNumberedBold(TightenColons(CollapseSpaces(s))) == s
  {
    CollapseSpacesSpec(s);
    TightenColonsSpec(s);
    NoColonNoLabels(s);
  }

  /** `"### " + t` becomes `"*" + t + "*"` for a one-line title `t` without
      markup that starts with a visible character. */
  lemma HeadingExample(t: string)
    requires t != [] && !IsSpace(t[0]) && NoAdjacent(t, ' ')
    requires ':' !in t && '#' !in t && '*' !in t && '\n' !in t
    ensures ProcessMarkdown("### " + t) == "*" + t + "*"
  {
    var s := "### " + t;
    forall k | 0 < k < |s| ensures !(s[k - 1] == ' ' && s[k] == ' ') {
      if k > 4 {
        assert s[k - 1] == t[k - 5] && s[k] == t[k - 4];
      }
    }
    FrontPassesKeep(s);
    HeadingRewritten(t);
    var u := "*" + t + "*";
    NoColonNoLabels(u);
    forall k | 0 < k < |u| - 1 ensures u[k] == t[k - 1] {
    }
    LoneStarsKept(u);
  }

  /** `"**" + b + "**"` becomes `"*" + b + "*"` for a bold text `b` without
      markup. */
  lemma BoldExample(b: string)
    requires b != [] && b != " " && NoAdjacent(b, ' ')
    requires ':' !in b && '#' !in b && '*' !in b
    ensures ProcessMarkdown("**" + b + "**") == "*" + b + "*"
  {
    var s := "**" + b + "**";
    BoldSpacing(b);
    FrontPassesKeep(s);
    NoColonNoLabels(s);
    NoHashNoHeadings(s);
    BoldRewritten(b);
    BoldKept(b);
  }

  lemma BoldSpacing(b: string)
    requires NoAdjacent(b, ' ')
    ensures NoAdjacent("**" + b + "**", ' ')
  {
    var s := "**" + b + "**";
    forall k | 0 < k < |s| ensures !(s[k - 1] == ' ' && s[k] == ' ') {
      if 2 < k < |s| - 2 {
        assert s[k - 1] == b[k - 3] && s[k] == b[k - 2];
      }
    }
  }

  lemma BoldKept(b: string)
    requires b != [] && b != " " && '*' !in b
    ensures DropDoubledStars("*" + b + "*") == "*" + b + "*"
  {
    var u := "*" + b + "*";
    forall k | 0 < k < |u| - 1 ensures u[k] == b[k - 1] {
    }
    LoneStarsKept(u);
  }

  lemma BoldRewritten(b: string)
    requires b != [] && '*' !in b
    ensures SingleStarBold("**" + b + "**") == "*" + b + "*"
  {
    var s := "**" + b + "**";
    assert s[2..|s| - 2] == b;
    FirstOfIs(s, 2, {'*'}, |s| - 2);
    assert MatchAt(DoubleStar, s, 0) == Some(Match(|s|, "*" + b + "*"));
    assert SingleStarBold(s) == "*" + b + "*" + SubFrom(s, |s|, DoubleStar);
  }

  predicate AllDigits(d: string) {
    forall k :: 0 <= k < |d| ==> IsDigit(d[k])
  }

  /** A label that the numbered-item passes keep intact. */
  predicate PlainLabel(l: string) {
    && l != [] && !IsSpace(l[0]) && !IsSpace(l[|l| - 1]) && NoAdjacent(l, ' ')
    && ':' !in l && '*' !in l && '#' !in l
  }

  /** `s` is `d + p + l + q`, described character by character. */
  predicate Shaped(s: string, d: string, p: string, l: string, q: string) {
    && |s| == |d| + |p| + |l| + |q|
    && s[..|d|] == d
    && s[|d| + |p|..|d| + |p| + |l|] == l
    && (forall j :: 0 <= j < |d| ==> s[j] == d[j])
    && (forall j :: |d| <= j < |d| + |p| ==> s[j] == p[j - |d|])
    && (forall j :: |d| + |p| <= j < |d| + |p| + |l| ==> s[j] == l[j - |d| - |p|])
    && (forall j :: |d| + |p| + |l| <= j < |s| ==> s[j] == q[j - |d| - |p| - |l|])
  }

  lemma ShapeOf(d: string, p: string, l: string, q: string)
    ensures Shaped(d + p + l + q, d, p, l, q)
  {
    var s := d + p + l + q;
    assert s[..|d|] == d;
    assert s[|d| + |p|..|d| + |p| + |l|] == l;
  }

  /** Joining a slice of `t` to the rest of `t` after it gives the rest of `t`
      from the slice's start. */
  lemma JoinSuffix(t: string, j: nat, k: nat, x: string)
    requires j <= k <= |t| && x == t[j..k]
    ensures x + t[k..] == t[j..]
  {
  }

  lemma Slice1(t: string, j: nat, x: char)
    requires j < |t| && t[j] == x
    ensures t[j..j + 1] == [x]
  {
  }

  lemma Slice2(t: string, j: nat, x: char, y: char)
    requires j + 1 < |t| && t[j] == x && t[j + 1] == y
    ensures t[j..j + 2] == [x, y]
  {
  }

  /** `d + ".  **  " + l + "  **  :"` becomes `d + ". *" + l + "*:"`. */
  lemma NumberedExample(d: string, l: string)
    requires d != [] && AllDigits(d) && PlainLabel(l)
    ensures ProcessMarkdown(d + ".  **  " + l + "  **  :") == d + ". *" + l + "*:"
  {
    NumberedFirstPasses(d, l);
    NumberedLastPasses(d, l);
  }

  lemma NumberedFirstPasses(d: string, l: string)
    requires d != [] && AllDigits(d) && PlainLabel(l)
    ensures FixNumberedBold(TightenColons(CollapseSpaces(d + ".  **  " + l + "  **  :"))) == d + ". *" + l + "*:"
  {
    ShapeOf(d, ".  **  ", l, "  **  :");
    NumberedCollapsed(d, l, d + ".  **  " + l + "  **  :");
    ShapeOf(d, ". ** ", l, " ** :");
    NumberedTightened(d, l, d + ". ** " + l + " ** :");
    ShapeOf(d, ". ** ", l, " **:");
    NumberedBoldFixed(d, l, d + ". ** " + l + " **:");
  }

  lemma NumberedLastPasses(d: string, l: string)
    requires d != [] && AllDigits(d) && PlainLabel(l)
    ensures DropDoubledStars(SingleStarBold(FixNumberedLabels(FixHeadings(d + ". *" + l + "*:")))) == d + ". *" + l + "*:"
  {
    var s3 := d + ". *" + l + "*:";
    ShapeOf(d, ". *", l, "*:");
    NumberedNoHash(d, l, s3);
    NoHashNoHeadings(s3);
    NumberedLabelFixed(d, l, s3);
    ShapeOf(d, ". **", l, "**:");
    NumberedStarsFixed(d, l, d + ". **" + l + "**:");
    NumberedStarsKept(d, l, s3);
  }

  lemma NumberedNoHash(d: string, l: string, s: string)
    requires d != [] && AllDigits(d) && PlainLabel(l) && Shaped(s, d, ". *", l, "*:")
    ensures '#' !in s
  {
    forall j | 0 <= j < |s| ensures s[j] != '#' {
    }
  }

  lemma NumberedStarsKept(d: string, l: string, s: string)
    requires d != [] && AllDigits(d) && PlainLabel(l) && Shaped(s, d, ". *", l, "*:")
    ensures DropDoubledStars(s) == s
  {
    var a := |d|;
    forall k | a + 3 <= k < |s| - 2 ensures s[k] == l[k - a - 3] && s[k] != '*' {
    }
    assert s[a + 3] == l[0] && s[|s| - 3] == l[|l| - 1];
    LoneStarsKept(s);
  }

  // The collapse pass on the numbered example, stretch by stretch from the
  // end; each lemma names the characters it reads.

  lemma CollapseEndColon(s: string, t: string, b: nat, c: nat)
    requires |s| == b + 7 && |t| == c + 5
    requires s[b + 4] == ' ' && s[b + 5] == ' ' && s[b + 6] == ':'
    requires t[c + 3] == ' ' && t[c + 4] == ':'
    ensures SubFrom(s, b + 4, RunOf(' ')) == t[c + 3..]
  {
    var m := RunOf(' ');
    assert SubFrom(s, b + 7, m) == [];
    assert SubFrom(s, b + 6, m) == [':'];
    CharEndIs(s, b + 4, ' ', b + 6);
    assert SubFrom(s, b + 4, m) == " " + [':'];
    assert t[c + 3..] == [' ', ':'];
  }

  lemma CollapseEndStars(s: string, t: string, b: nat, c: nat)
    requires |s| == b + 7 && |t| == c + 5
    requires s[b + 2] == '*' && s[b + 3] == '*' && s[b + 4] == ' ' && s[b + 5] == ' ' && s[b + 6] == ':'
    requires t[c + 1] == '*' && t[c + 2] == '*' && t[c + 3] == ' ' && t[c + 4] == ':'
    ensures SubFrom(s, b + 2, RunOf(' ')) == t[c + 1..]
  {
    CollapseEndColon(s, t, b, c);
    RunsCopied(s, ' ', b + 2, b + 4);
    Slice2(s, b + 2, '*', '*');
    Slice2(t, c + 1, '*', '*');
    JoinSuffix(t, c + 1, c + 3, "**");
  }

  lemma CollapseEnd(s: string, t: string, b: nat, c: nat)
    requires |s| == b + 7 && |t| == c + 5
    requires s[b] == ' ' && s[b + 1] == ' ' && s[b + 2] == '*' && s[b + 3] == '*'
    requires s[b + 4] == ' ' && s[b + 5] == ' ' && s[b + 6] == ':'
    requires t[c] == ' ' && t[c + 1] == '*' && t[c + 2] == '*' && t[c + 3] == ' ' && t[c + 4] == ':'
    ensures SubFrom(s, b, RunOf(' ')) == t[c..]
  {
    CollapseEndStars(s, t, b, c);
    CharEndIs(s, b, ' ', b + 2);
    assert SubFrom(s, b, RunOf(' ')) == " " + t[c + 1..];
    Slice1(t, c, ' ');
    JoinSuffix(t, c, c + 1, " ");
  }

  lemma CollapseMiddle(s: string, t: string, a: nat, l: string, b: nat, c: nat)
    requires b == a + 7 + |l| <= |s| && c == a + 5 + |l| <= |t|
    requires s[a + 7..b] == l && t[a + 5..c] == l
    requires l != [] && !IsSpace(l[|l| - 1]) && NoAdjacent(l, ' ')
    requires SubFrom(s, b, RunOf(' ')) == t[c..]
    ensures SubFrom(s, a + 7, RunOf(' ')) == t[a + 5..]
  {
    forall k | a + 7 <= k < b && s[k] == ' ' ensures k + 1 == |s| || s[k + 1] != ' ' {
      assert s[k] == l[k - a - 7];
      if k + 1 < b {
        assert s[k + 1] == l[k + 1 - a - 7];
        assert !(l[k + 1 - a - 7 - 1] == ' ' && l[k + 1 - a - 7] == ' ');
      }
    }
    RunsCopied(s, ' ', a + 7, b);
    JoinSuffix(t, a + 5, c, l);
  }

  lemma CollapseFrontRun(s: string, t: string, a: nat)
    requires a + 7 < |s| && a + 5 <= |t|
    requires s[a + 3] == '*' && s[a + 4] == '*' && s[a + 5] == ' ' && s[a + 6] == ' ' && s[a + 7] != ' '
    requires t[a + 2] == '*' && t[a + 3] == '*' && t[a + 4] == ' '
    requires SubFrom(s, a + 7, RunOf(' ')) == t[a + 5..]
    ensures SubFrom(s, a + 3, RunOf(' ')) == t[a + 2..]
  {
    CharEndIs(s, a + 5, ' ', a + 7);
    assert SubFrom(s, a + 5, RunOf(' ')) == " " + t[a + 5..];
    Slice1(t, a + 4, ' ');
    JoinSuffix(t, a + 4, a + 5, " ");
    RunsCopied(s, ' ', a + 3, a + 5);
    Slice2(s, a + 3, '*', '*');
    Slice2(t, a + 2, '*', '*');
    JoinSuffix(t, a + 2, a + 4, "**");
  }

  lemma CollapseFrontSpaces(s: string, t: string, a: nat)
    requires a + 7 < |s| && a + 5 <= |t|
    requires s[a + 1] == ' ' && s[a + 2] == ' '
    requires s[a + 3] == '*' && s[a + 4] == '*' && s[a + 5] == ' ' && s[a + 6] == ' ' && s[a + 7] != ' '
    requires t[a + 1] == ' ' && t[a + 2] == '*' && t[a + 3] == '*' && t[a + 4] == ' '
    requires SubFrom(s, a + 7, RunOf(' ')) == t[a + 5..]
    ensures SubFrom(s, a + 1, RunOf(' ')) == t[a + 1..]
  {
    CollapseFrontRun(s, t, a);
    CharEndIs(s, a + 1, ' ', a + 3);
    assert SubFrom(s, a + 1, RunOf(' ')) == " " + t[a + 2..];
    Slice1(t, a + 1, ' ');
    JoinSuffix(t, a + 1, a + 2, " ");
  }

  lemma CollapseFront(s: string, t: string, a: nat)
    requires a + 7 < |s| && a + 5 <= |t|
    requires s[a] == '.' && s[a + 1] == ' ' && s[a + 2] == ' '
    requires s[a + 3] == '*' && s[a + 4] == '*' && s[a + 5] == ' ' && s[a + 6] == ' ' && s[a + 7] != ' '
    requires t[a] == '.' && t[a + 1] == ' ' && t[a + 2] == '*' && t[a + 3] == '*' && t[a + 4] == ' '
    requires SubFrom(s, a + 7, RunOf(' ')) == t[a + 5..]
    ensures SubFrom(s, a, RunOf(' ')) == t[a..]
  {
    CollapseFrontSpaces(s, t, a);
    assert SubFrom(s, a, RunOf(' ')) == ['.'] + t[a + 1..];
    Slice1(t, a, '.');
    JoinSuffix(t, a, a + 1, ".");
  }

  lemma CollapseNumbered(s: string, t: string, d: string, l: string, b: nat, c: nat)
    requires AllDigits(d) && l != [] && !IsSpace(l[|l| - 1]) && NoAdjacent(l, ' ')
    requires b == |d| + 7 + |l| && c == |d| + 5 + |l| && |s| == b + 7 && |t| == c + 5
    requires s[..|d|] == d && t[..|d|] == d && s[|d| + 7..b] == l && t[|d| + 5..c] == l
    requires s[|d|] == '.' && s[|d| + 1] == ' ' && s[|d| + 2] == ' ' && s[|d| + 3] == '*' && s[|d| + 4] == '*'
    requires s[|d| + 5] == ' ' && s[|d| + 6] == ' ' && s[|d| + 7] != ' '
    requires s[b] == ' ' && s[b + 1] == ' ' && s[b + 2] == '*' && s[b + 3] == '*'
    requires s[b + 4] == ' ' && s[b + 5] == ' ' && s[b + 6] == ':'
    requires t[|d|] == '.' && t[|d| + 1] == ' ' && t[|d| + 2] == '*' && t[|d| + 3] == '*' && t[|d| + 4] == ' '
    requires t[c] == ' ' && t[c + 1] == '*' && t[c + 2] == '*' && t[c + 3] == ' ' && t[c + 4] == ':'
    ensures CollapseSpaces(s) == t
  {
    var a := |d|;
    CollapseEnd(s, t, b, c);
    CollapseMiddle(s, t, a, l, b, c);
    CollapseFront(s, t, a);
    forall k | 0 <= k < a ensures s[k] != ' ' {
      assert s[k] == s[..a][k];
    }
    RunsCopied(s, ' ', 0, a);
    JoinSuffix(t, 0, a, d);
  }

  lemma NumberedSourceChars(d: string, l: string, s: string)
    requires PlainLabel(l) && Shaped(s, d, ".  **  ", l, "  **  :")
    ensures var a, b := |d|, |d| + 7 + |l|;
      && s[a] == '.' && s[a + 1] == ' ' && s[a + 2] == ' ' && s[a + 3] == '*' && s[a + 4] == '*'
      && s[a + 5] == ' ' && s[a + 6] == ' ' && s[a + 7] != ' '
      && s[b] == ' ' && s[b + 1] == ' ' && s[b + 2] == '*' && s[b + 3] == '*'
      && s[b + 4] == ' ' && s[b + 5] == ' ' && s[b + 6] == ':'
  {
    assert s[|d| + 7] == l[0];
  }

  lemma NumberedTargetChars(d: string, l: string, t: string)
    requires Shaped(t, d, ". ** ", l, " ** :")
    ensures var a, c := |d|, |d| + 5 + |l|;
      && t[a] == '.' && t[a + 1] == ' ' && t[a + 2] == '*' && t[a + 3] == '*' && t[a + 4] == ' '
      && t[c] == ' ' && t[c + 1] == '*' && t[c + 2] == '*' && t[c + 3] == ' ' && t[c + 4] == ':'
  {
  }

  lemma NumberedCollapsed(d: string, l: string, s: string)
    requires d != [] && AllDigits(d) && PlainLabel(l) && Shaped(s, d, ".  **  ", l, "  **  :")
    ensures CollapseSpaces(s) == d + ". ** " + l + " ** :"
  {
    var t := d + ". ** " + l + " ** :";
    ShapeOf(d, ". ** ", l, " ** :");
    NumberedSourceChars(d, l, s);
    NumberedTargetChars(d, l, t);
    CollapseNumbered(s, t, d, l, |d| + 7 + |l|, |d| + 5 + |l|);
  }

  lemma TightenedPrefix(d: string, l: string, s: string)
    requires d != [] && AllDigits(d) && PlainLabel(l) && Shaped(s, d, ". ** ", l, " ** :")
    ensures forall k :: 0 <= k < |s| - 2 ==> MatchAt(SpacesBeforeColon, s, k).None?
  {
    var n := |s|;
    forall j | 0 <= j < n - 1 ensures s[j] != ':' {
    }
    assert s[n - 3] == '*';
    forall k | 0 <= k < n - 2 ensures MatchAt(SpacesBeforeColon, s, k).None? {
      if IsSpace(s[k]) {
        assert SpaceEnd(s, k) <= n - 3;
      }
    }
  }

  lemma NumberedTightened(d: string, l: string, s: string)
    requires d != [] && AllDigits(d) && PlainLabel(l) && Shaped(s, d, ". ** ", l, " ** :")
    ensures TightenColons(s) == d + ". ** " + l + " **:"
  {
    var n := |s|;
    TightenedPrefix(d, l, s);
    SubFromCopies(s, 0, n - 2, SpacesBeforeColon);
    SpaceEndIs(s, n - 2, n - 1);
    assert SubFrom(s, n - 2, SpacesBeforeColon) == ":" + SubFrom(s, n, SpacesBeforeColon);
    TightenedText(d, l, s);
  }

  lemma TightenedText(d: string, l: string, s: string)
    requires Shaped(s, d, ". ** ", l, " ** :")
    ensures s[0..|s| - 2] + ":" == d + ". ** " + l + " **:"
  {
    ShapeOf(d, ". ** ", l, " **:");
  }

  lemma NumberedBoldSpan(d: string, l: string, s: string)
    requires d != [] && AllDigits(d) && PlainLabel(l) && Shaped(s, d, ". ** ", l, " **:")
    ensures SpacedBoldSpan(s, |d| + 2) == Some((|d| + 5, |d| + 5 + |l|, |d| + 8 + |l|))
  {
    var a := |d|;
    SpaceEndIs(s, a + 4, a + 5);
    FirstOfIs(s, a + 4, {'*'}, a + 6 + |l|);
    assert IsSpace(s[a + 5 + |l|]) && s[a + 7 + |l|] == '*';
  }

  lemma NumberedBoldMatch(d: string, l: string, s: string)
    requires d != [] && AllDigits(d) && PlainLabel(l) && Shaped(s, d, ". ** ", l, " **:")
    ensures NumberedSpacedBold(s, 0) == Some(Match(|s|, d + ". *" + l + "*:"))
  {
    NumberedBoldFront(d, l, s);
    NumberedBoldSpan(d, l, s);
    var e := |d| + 8 + |l|;
    SpaceEndIs(s, e, e);
    assert e + 1 == |s| && s[e] == ':';
    assert s[|d| + 5..|d| + 5 + |l|] == l;
  }

  lemma NumberedBoldFront(d: string, l: string, s: string)
    requires d != [] && AllDigits(d) && PlainLabel(l) && Shaped(s, d, ". ** ", l, " **:")
    ensures IsDigit(s[0]) && DigitEnd(s, 0) == |d| && s[|d|] == '.' && SpaceEnd(s, |d| + 1) == |d| + 2
    ensures s[0..|d|] == d
  {
    DigitEndIs(s, 0, |d|);
    SpaceEndIs(s, |d| + 1, |d| + 2);
  }

  lemma NumberedBoldFixed(d: string, l: string, s: string)
    requires d != [] && AllDigits(d) && PlainLabel(l) && Shaped(s, d, ". ** ", l, " **:")
    ensures FixNumberedBold(s) == d + ". *" + l + "*:"
  {
    NumberedBoldMatch(d, l, s);
    assert FixNumberedBold(s) == d + ". *" + l + "*:" + SubFrom(s, |s|, NumberedSpacedBold);
  }

  lemma NumberedLabelMatch(d: string, l: string, s: string)
    requires d != [] && AllDigits(d) && PlainLabel(l) && Shaped(s, d, ". *", l, "*:")
    ensures NumberedLabel(s, 0) == Some(Match(|s|, d + ". **" + l + "**:"))
  {
    var a := |d|;
    var n := |s|;
    DigitEndIs(s, 0, a);
    SpaceEndIs(s, a + 1, a + 2);
    FirstOfIs(s, a + 2, {':'}, n - 1);
    NumberedLabelText(d, l, s);
  }

  lemma NumberedLabelText(d: string, l: string, s: string)
    requires Shaped(s, d, ". *", l, "*:")
    ensures s[0..|d|] + ". *" + s[|d| + 2..|s| - 1] + "*:" == d + ". **" + l + "**:"
  {
    assert s[|d| + 2..|s| - 1] == "*" + l + "*";
  }

  lemma NumberedLabelFixed(d: string, l: string, s: string)
    requires d != [] && AllDigits(d) && PlainLabel(l) && Shaped(s, d, ". *", l, "*:")
    ensures FixNumberedLabels(s) == d + ". **" + l + "**:"
  {
    NumberedLabelMatch(d, l, s);
    assert FixNumberedLabels(s) == d + ". **" + l + "**:" + SubFrom(s, |s|, NumberedLabel);
  }

  lemma NumberedStarsMatch(d: string, l: string, s: string)
    requires d != [] && AllDigits(d) && PlainLabel(l) && Shaped(s, d, ". **", l, "**:")
    ensures forall k :: 0 <= k < |d| + 2 ==> MatchAt(DoubleStar, s, k).None?
    ensures MatchAt(DoubleStar, s, |d| + 2) == Some(Match(|s| - 1, "*" + l + "*"))
    ensures MatchAt(DoubleStar, s, |s| - 1) == None
  {
    var a := |d|;
    forall k | 0 <= k < a + 2 ensures MatchAt(DoubleStar, s, k).None? {
    }
    FirstOfIs(s, a + 4, {'*'}, a + 4 + |l|);
  }

  lemma NumberedStarsFixed(d: string, l: string, s: string)
    requires d != [] && AllDigits(d) && PlainLabel(l) && Shaped(s, d, ". **", l, "**:")
    ensures SingleStarBold(s) == d + ". *" + l + "*:"
  {
    var a := |d|;
    var n := |s|;
    NumberedStarsMatch(d, l, s);
    SubFromCopies(s, 0, a + 2, DoubleStar);
    assert SubFrom(s, n - 1, DoubleStar) == ":" + SubFrom(s, n, DoubleStar);
    assert s[0..a + 2] == d + ". ";
  }

  /** Text without colons, `#` or asterisks only has its runs of spaces
      collapsed. */
  lemma PlainTextOnlyCollapsed(text: string)
    requires ':' !in text && '#' !in text && '*' !in text
    ensures ProcessMarkdown(text) == CollapseSpaces(text)
  {
    var t1 := CollapseSpaces(text);
    SubFromAvoids(text, 0, RunOf(' '), ':');
    SubFromAvoids(text, 0, RunOf(' '), '#');
    SubFromAvoids(text, 0, RunOf(' '), '*');
    TightenColonsSpec(t1);
    NoColonNoLabels(t1);
    NoHashNoHeadings(t1);
    NoStarNoBold(t1);
  }

  /** `process_markdown(text)`: the seven passes in the source's order. */
  function ProcessMarkdown(text: string): string {
    DropDoubledStars(SingleStarBold(FixNumberedLabels(FixHeadings(FixNumberedBold(TightenColons(CollapseSpaces(text)))))))
  }

  // The last pass as written and as intended

  /** The last pass promises to remove every doubled asterisk that is left,
      but a single left-to-right `replace('**', '*')` turns a run of three
      into two: `"***"` comes out as `"**"`. */
  lemma TripleStarKeepsDouble()
    ensures ProcessMarkdown("***") == "**"
    ensures Contains(ProcessMarkdown("***"), "**")
  {
    var s := "***";
    CollapseSpacesSpec(s);
    TightenColonsSpec(s);
    NoColonNoLabels(s);
    NoHashNoHeadings(s);
    TripleStarNoBold();
    TripleStarReplaced();
    assert OccursAt("**", "**", 0);
  }

  lemma TripleStarNoBold()
    ensures SingleStarBold("***") == "***"
  {
    var s := "***";
    FirstOfIs(s, 2, {'*'}, 2);
    FirstOfIs(s, 3, {'*'}, 3);
    forall k | 0 <= k < |s| ensures MatchAt(DoubleStar, s, k).None? {
    }
    SubUnchanged(s, DoubleStar);
  }

  lemma TripleStarReplaced()
    ensures DropDoubledStars("***") == "**"
  {
    var m := Literal("**", "*");
    assert SubFrom("***", 3, m) == [];
    assert SubFrom("***", 2, m) == "*";
    assert ReplaceAll("***", "**", "*") == "**";
    assert !OccursAt("**", "* *", 0);
    ReplaceAllAbsent("**", "* *", "*");
  }

  /** The last pass as intended: every run of asterisks squashed to one,
      then `"* *"` closed up. */
  function DropDoubledStarsIntended(text: string): string {
    ReplaceAll(Sub(text, RunOf('*')), "* *", "*")
  }

  function ProcessMarkdownIntended(text: string): string {
    DropDoubledStarsIntended(SingleStarBold(FixNumberedLabels(FixHeadings(FixNumberedBold(TightenColons(CollapseSpaces(text)))))))
  }

  /** Closing up `"* *"` never puts two asterisks side by side when there
      were none. */
  lemma {:induction false} StarSpaceStarKeepsLone(s: string, i: nat)
    requires i <= |s| && NoAdjacent(s, '*')
    ensures NoAdjacent(SubFrom(s, i, Literal("* *", "*")), '*')
    ensures SubFrom(s, i, Literal("* *", "*")) != [] && SubFrom(s, i, Literal("* *", "*"))[0] == '*' ==> i < |s| && s[i] == '*'
    decreases |s| - i
  {
    var m := Literal("* *", "*");
    if i < |s| {
      match MatchAt(m, s, i)
      case Some(mt) =>
        var rest := SubFrom(s, i + 3, m);
        StarSpaceStarKeepsLone(s, i + 3);
        assert s[i..i + 3][0] == s[i] && s[i..i + 3][2] == s[i + 2];
        if i + 3 < |s| {
          assert !(s[i + 3 - 1] == '*' && s[i + 3] == '*');
        }
        NoAdjacentCons('*', rest, '*');
      case None =>
        var rest := SubFrom(s, i + 1, m);
        StarSpaceStarKeepsLone(s, i + 1);
        if i + 1 < |s| {
          assert !(s[i + 1 - 1] == '*' && s[i + 1] == '*');
        }
        NoAdjacentCons(s[i], rest, '*');
    }
  }

  lemma NoAdjacentNoPair(s: string, c: char)
    requires NoAdjacent(s, c)
    ensures !Contains(s, [c, c])
  {
    forall k | 0 <= k <= |s| ensures !OccursAt(s, [c, c], k) {
      if k + 2 <= |s| {
        var w := s[k..k + 2];
        assert w[0] == s[k] && w[1] == s[k + 1];
        assert !(s[k + 1 - 1] == c && s[k + 1] == c);
        assert w[0] != c || w[1] != c;
        assert w != [c, c];
      }
    }
  }

  /** The intended last pass leaves no doubled asterisk, whatever the text. */
  lemma IntendedLeavesNoDoubleStar(text: string)
    ensures !Contains(DropDoubledStarsIntended(text), "**")
    ensures !Contains(ProcessMarkdownIntended(text), "**")
  {
    var squashed := Sub(text, RunOf('*'));
    RunsCollapsed(text, '*', 0);
    StarSpaceStarKeepsLone(squashed, 0);
    NoAdjacentNoPair(DropDoubledStarsIntended(text), '*');
    var t6 := SingleStarBold(FixNumberedLabels(FixHeadings(FixNumberedBold(TightenColons(CollapseSpaces(text))))));
    RunsCollapsed(t6, '*', 0);
    StarSpaceStarKeepsLone(Sub(t6, RunOf('*')), 0);
    NoAdjacentNoPair(DropDoubledStarsIntended(t6), '*');
  }
}
