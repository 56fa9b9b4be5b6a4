/** `ConversationManager.prepare_text_for_html`: the reformatting applied to
    every outgoing chunk before it is sent with HTML parse mode. Markdown
    heading markers go, bold markers become `<b>` tags, list markers become
    bullets, and four escaped tags are turned back into tags. Each
    regular-expression step is one bespoke matcher run through the scan of
    module Scan, in the order the method applies them. */
module HtmlFormat {
  import opened Strings
  import opened Scan
  import opened AssistantText

  const Bullet: char := '\U{2022}'

  /** `###\s+` at `i`, removed. */
  function HeadingMarker(s: string, i: nat): Option<Match> {
    if i + 3 < |s| && s[i] == '#' && s[i + 1] == '#' && s[i + 2] == '#' && IsSpace(s[i + 3]) then
      Some(Match(SpaceEnd(s, i + 3), ""))
    else None
  }

  /** `\*\*\s+([^*]+)\s+\*\*` at `i`, replaced by `<b>\1</b>`. */
  function SpacedBoldTag(s: string, i: nat): Option<Match> {
    match SpacedBoldSpan(s, i)
    case Some((p, q, e)) => Some(Match(e, "<b>" + s[p..q] + "</b>"))
    case None => None
  }

  /** `\*\*([^*]+)\*\*` at `i`, replaced by `<b>\1</b>`. */
  function BoldTag(s: string, i: nat): Option<Match> {
    match BoldSpan(s, i)
    case Some((p, q, e)) => Some(Match(e, "<b>" + s[p..q] + "</b>"))
    case None => None
  }

  /** `•\s+` at `i`, replaced by a bullet and one space. */
  function BulletSpacing(s: string, i: nat): Option<Match> {
    if i + 1 < |s| && s[i] == Bullet && IsSpace(s[i + 1]) then
      Some(Match(SpaceEnd(s, i + 1), [Bullet, ' ']))
    else None
  }

  /** `\n\s*-\s+` at `i`, replaced by a newline, a bullet and one space. The
      whitespace before the dash cannot give anything back, since a dash is
      not whitespace. */
  function DashItem(s: string, i: nat): Option<Match> {
    if i < |s| && s[i] == '\n' then
      var d := SpaceEnd(s, i + 1);
      if d + 1 < |s| && s[d] == '-' && IsSpace(s[d + 1]) then
        Some(Match(SpaceEnd(s, d + 1), ['\n', Bullet, ' ']))
      else None
    else None
  }

  /** `(\d+)\.\s+<b>([^<]+)</b>:` at `i`, replaced by `\1. <b>\2</b>:`. No
      run in the pattern can give anything back: each is followed by a
      character it cannot hold. */
  function NumberedBoldLabel(s: string, i: nat): Option<Match> {
    if i < |s| && IsDigit(s[i]) then
      var d := DigitEnd(s, i);
      if d + 1 < |s| && s[d] == '.' && IsSpace(s[d + 1]) then
        var w := SpaceEnd(s, d + 1);
        if w + 3 <= |s| && s[w] == '<' && s[w + 1] == 'b' && s[w + 2] == '>' then
          var q := FirstOf(s, w + 3, {'<'});
          if q > w + 3 && q + 5 <= |s| && s[q + 1] == '/' && s[q + 2] == 'b' && s[q + 3] == '>' && s[q + 4] == ':' then
            Some(Match(q + 5, s[i..d] + ". <b>" + s[w + 3..q] + "</b>:"))
          else None
        else None
      else None
    else None
  }

  /** The four escaped tags and what each one is turned back into, in the
      order the replacements are applied. */
  const Escaped: seq<string> := ["&lt;b&gt;", "&lt;/b&gt;", "&lt;i&gt;", "&lt;/i&gt;"]
  const Unescaped: seq<string> := ["<b>", "</b>", "<i>", "</i>"]

  /** The replacements from the `j`-th on, applied one after the other. */
  function UnescapeFrom(text: string, j: nat): string
    decreases 4 - j
  {
    if j >= 4 then text else UnescapeFrom(ReplaceAll(text, Escaped[j], Unescaped[j]), j + 1)
  }

  function Unescape(text: string): string {
    UnescapeFrom(text, 0)
  }

  /** Step 1: heading markers. */
  function StripHeadingMarkers(text: string): string {
    Sub(text, HeadingMarker)
  }

  /** Step 2: bold markers, the spaced form first. */
  function BoldTags(text: string): string {
    Sub(Sub(text, SpacedBoldTag), BoldTag)
  }

  /** Steps 3 to 7: colons, bullets, dashes, numbered labels, bullets again
      and the escaped tags. */
  function Finish(text: string): string {
    var t := Sub(Sub(TightenColons(text), BulletSpacing), DashItem);
    Unescape(Sub(Sub(t, NumberedBoldLabel), BulletSpacing))
  }

  /** `prepare_text_for_html(text)`. */
  function PrepareTextForHtml(text: string): string {
    Finish(BoldTags(StripHeadingMarkers(text)))
  }

  /** Text none of whose steps has anything to act on. */
  predicate Plain(t: string) {
    '#' !in t && '*' !in t && ':' !in t && Bullet !in t && '\n' !in t && '&' !in t
  }

  // Steps with nothing to act on

  lemma NoHashNoMarkers(text: string)
    requires '#' !in text
    ensures StripHeadingMarkers(text) == text
  {
    forall k | 0 <= k < |text| ensures MatchAt(HeadingMarker, text, k).None? {
    }
    SubUnchanged(text, HeadingMarker);
  }

  lemma NoStarNoTags(text: string)
    requires '*' !in text
    ensures Sub(text, SpacedBoldTag) == text && Sub(text, BoldTag) == text
    ensures BoldTags(text) == text
  {
    forall k | 0 <= k < |text| ensures MatchAt(SpacedBoldTag, text, k).None? && MatchAt(BoldTag, text, k).None? {
    }
    SubUnchanged(text, SpacedBoldTag);
    SubUnchanged(text, BoldTag);
  }

  lemma NoColonTight(text: string)
    requires ':' !in text
    ensures TightenColons(text) == text
  {
    forall k | 0 <= k < |text| ensures MatchAt(SpacesBeforeColon, text, k).None? {
    }
    SubUnchanged(text, SpacesBeforeColon);
  }

  lemma NoBulletKept(text: string)
    requires Bullet !in text
    ensures Sub(text, BulletSpacing) == text
  {
    forall k | 0 <= k < |text| ensures MatchAt(BulletSpacing, text, k).None? {
    }
    SubUnchanged(text, BulletSpacing);
  }

  lemma NoNewlineKept(text: string)
    requires '\n' !in text
    ensures Sub(text, DashItem) == text
  {
    forall k | 0 <= k < |text| ensures MatchAt(DashItem, text, k).None? {
    }
    SubUnchanged(text, DashItem);
  }

  lemma NoLabelKept(text: string)
    requires ':' !in text || '<' !in text
    ensures Sub(text, NumberedBoldLabel) == text
  {
    forall k | 0 <= k < |text| ensures MatchAt(NumberedBoldLabel, text, k).None? {
    }
    SubUnchanged(text, NumberedBoldLabel);
  }

  /** Replacements whose escaped tag does not occur change nothing. */
  lemma {:induction false} UnescapeFromSkips(text: string, a: nat, b: nat)
    requires a <= b <= 4
    requires forall i :: a <= i < b ==> !Contains(text, Escaped[i])
    ensures UnescapeFrom(text, a) == UnescapeFrom(text, b)
    decreases b - a
  {
    if a < b {
      ReplaceAllAbsent(text, Escaped[a], Unescaped[a]);
      UnescapeFromSkips(text, a + 1, b);
    }
  }

  /** The last step turns back nothing but the four escaped tags: a text
      holding none of them is left as it is. */
  lemma UnescapeNothingElse(text: string)
    requires forall i :: 0 <= i < 4 ==> !Contains(text, Escaped[i])
    ensures Unescape(text) == text
  {
    UnescapeFromSkips(text, 0, 4);
  }

  lemma NoAmpersandKept(text: string, a: nat)
    requires '&' !in text && a <= 4
    ensures UnescapeFrom(text, a) == text
  {
    forall i | 0 <= i < 4 ensures !Contains(text, Escaped[i]) {
      AbsentStart(text, Escaped[i]);
    }
    UnescapeFromSkips(text, a, 4);
  }

  /** On text without bullets, newlines or ampersands, and without colons or
      without `<`, the last five steps only tighten the colons. */
  lemma FinishTightens(text: string)
    requires Bullet !in text && '\n' !in text && '&' !in text
    requires ':' !in text || '<' !in text
    ensures Finish(text) == TightenColons(text)
  {
    var t := TightenColons(text);
    SubFromAvoids(text, 0, SpacesBeforeColon, Bullet);
    SubFromAvoids(text, 0, SpacesBeforeColon, '\n');
    SubFromAvoids(text, 0, SpacesBeforeColon, '&');
    if ':' in text {
      SubFromAvoids(text, 0, SpacesBeforeColon, '<');
    } else {
      NoColonTight(text);
    }
    NoBulletKept(t);
    NoNewlineKept(t);
    NoLabelKept(t);
    NoAmpersandKept(t, 0);
  }

  /** Text without heading markers, asterisks, bullets, newlines, ampersands
      or `<` only loses the whitespace before its colons, and comes out as it
      went in exactly when no whitespace stood before a colon. */
  lemma OnlyColonsTightened(text: string)
    requires '#' !in text && '*' !in text && Bullet !in text && '\n' !in text && '&' !in text && '<' !in text
    ensures PrepareTextForHtml(text) == TightenColons(text)
    ensures PrepareTextForHtml(text) == text <==> TightColons(text)
  {
    NoHashNoMarkers(text);
    NoStarNoTags(text);
    FinishTightens(text);
    TightenColonsSpec(text);
  }

  lemma PlainUnchanged(text: string)
    requires Plain(text)
    ensures PrepareTextForHtml(text) == text
  {
    NoHashNoMarkers(text);
    NoStarNoTags(text);
    FinishTightens(text);
    NoColonTight(text);
  }

  // What the steps do

  /** `###` and the whitespace after it are removed. */
  lemma MarkerDropped(w: string, t: string)
    requires w != [] && AllSpace(w) && '#' !in t && (t == [] || !IsSpace(t[0]))
    ensures StripHeadingMarkers("###" + w + t) == t
  {
    var s := "###" + w + t;
    var e := 3 + |w|;
    SpaceEndIs(s, 3, e);
    assert MatchAt(HeadingMarker, s, 0) == Some(Match(e, ""));
    forall k | e <= k < |s| ensures MatchAt(HeadingMarker, s, k).None? {
      assert s[k] == t[k - e];
    }
    SubFromCopies(s, e, |s|, HeadingMarker);
    assert s[e..|s|] == t;
  }

  /** A heading is formatted as its text alone would be. */
  lemma HeadingMarkerRemoved(w: string, t: string)
    requires w != [] && AllSpace(w) && '#' !in t && (t == [] || !IsSpace(t[0]))
    ensures PrepareTextForHtml("###" + w + t) == PrepareTextForHtml(t)
  {
    MarkerDropped(w, t);
    NoHashNoMarkers(t);
  }

  /** `**b**` becomes `<b>b</b>`. */
  lemma BoldTagged(b: string)
    requires b != [] && !IsSpace(b[0]) && '*' !in b
    ensures BoldTags("**" + b + "**") == "<b>" + b + "</b>"
  {
    var s := "**" + b + "**";
    var n := |s|;
    forall k | 0 <= k < n ensures MatchAt(SpacedBoldTag, s, k).None? {
      if k + 2 <= n && s[k] == '*' && s[k + 1] == '*' {
        assert k == 0 || k == n - 2;
        assert SpaceEnd(s, k + 2) == k + 2;
      }
    }
    SubUnchanged(s, SpacedBoldTag);
    forall t | 2 <= t < n - 2 ensures s[t] !in {'*'} {
      assert s[t] == b[t - 2];
    }
    FirstOfIs(s, 2, {'*'}, n - 2);
    assert s[2..n - 2] == b;
    assert MatchAt(BoldTag, s, 0) == Some(Match(n, "<b>" + b + "</b>"));
    assert Sub(s, BoldTag) == "<b>" + b + "</b>" + SubFrom(s, n, BoldTag);
  }

  lemma BoldHtml(b: string)
    requires b != [] && !IsSpace(b[0]) && Plain(b)
    ensures PrepareTextForHtml("**" + b + "**") == "<b>" + b + "</b>"
  {
    NoHashNoMarkers("**" + b + "**");
    BoldTagged(b);
    TagFinished(b);
  }

  /** A bold tag around plain text is left alone by the last five steps. */
  lemma TagFinished(b: string)
    requires Plain(b)
    ensures Finish("<b>" + b + "</b>") == "<b>" + b + "</b>"
  {
    var u := "<b>" + b + "</b>";
    assert Bullet !in u && '\n' !in u && '&' !in u && ':' !in u;
    FinishTightens(u);
    NoColonTight(u);
  }

  /** `** b **` becomes `<b>b</b>` through the spaced form. */
  lemma SpacedBoldTagged(b: string)
    requires b != [] && !IsSpace(b[0]) && '*' !in b
    ensures Sub("** " + b + " **", SpacedBoldTag) == "<b>" + b + "</b>"
  {
    var s := "** " + b + " **";
    var n := |s|;
    SpaceEndIs(s, 2, 3);
    forall t | 2 <= t < n - 2 ensures s[t] !in {'*'} {
      if 3 <= t < n - 3 {
        assert s[t] == b[t - 3];
      }
    }
    FirstOfIs(s, 2, {'*'}, n - 2);
    var span: (nat, nat, nat) := (3, n - 3, n);
    assert SpacedBoldSpan(s, 0) == Some(span);
    assert s[3..n - 3] == b;
    assert Sub(s, SpacedBoldTag) == "<b>" + b + "</b>" + SubFrom(s, n, SpacedBoldTag);
  }

  lemma SpacedBoldHtml(b: string)
    requires b != [] && !IsSpace(b[0]) && Plain(b)
    ensures PrepareTextForHtml("** " + b + " **") == "<b>" + b + "</b>"
  {
    NoHashNoMarkers("** " + b + " **");
    SpacedBoldTagged(b);
    NoStarNoTags("<b>" + b + "</b>");
    assert BoldTags("** " + b + " **") == "<b>" + b + "</b>";
    TagFinished(b);
  }

  /** Whitespace holds none of the characters the steps look for. */
  lemma SpacesPlain(v: string)
    requires AllSpace(v)
    ensures Plain(v) || '\n' in v
    ensures '#' !in v && '*' !in v && ':' !in v && Bullet !in v && '&' !in v
  {
  }

  /** The dash step matches at the newline before the dash, and the match
      takes in all the whitespace after the dash. */
  lemma DashMatch(x: string, v: string, w: string, y: string)
    requires AllSpace(v) && w != [] && AllSpace(w) && (y == [] || !IsSpace(y[0]))
    ensures MatchAt(DashItem, x + "\n" + v + "-" + w + y, |x|) == Some(Match(|x| + 2 + |v| + |w|, ['\n', Bullet, ' ']))
  {
    var s := x + "\n" + v + "-" + w + y;
    var a, d := |x|, |x| + 1 + |v|;
    var e := d + 1 + |w|;
    forall t | a + 1 <= t < d ensures IsSpace(s[t]) {
      assert s[t] == v[t - a - 1];
    }
    SpaceEndIs(s, a + 1, d);
    forall t | d + 1 <= t < e ensures IsSpace(s[t]) {
      assert s[t] == w[t - d - 1];
    }
    SpaceEndIs(s, d + 1, e);
  }

  /** `\n`, whitespace, `-`, whitespace becomes `\n• `. */
  lemma DashRewritten(x: string, v: string, w: string, y: string)
    requires '\n' !in x && '\n' !in y && AllSpace(v) && w != [] && AllSpace(w) && (y == [] || !IsSpace(y[0]))
    ensures Sub(x + "\n" + v + "-" + w + y, DashItem) == x + ['\n', Bullet, ' '] + y
  {
    var s := x + "\n" + v + "-" + w + y;
    var a, e := |x|, |x| + 2 + |v| + |w|;
    forall k | 0 <= k < a ensures MatchAt(DashItem, s, k).None? {
      assert s[k] == x[k];
    }
    SubFromCopies(s, 0, a, DashItem);
    DashMatch(x, v, w, y);
    forall k | e <= k < |s| ensures MatchAt(DashItem, s, k).None? {
      assert s[k] == y[k - e];
    }
    SubFromCopies(s, e, |s|, DashItem);
    assert s[0..a] == x && s[e..|s|] == y;
  }

  /** The bullet the dash step wrote is already spaced as the last bullet
      step wants it. */
  lemma BulletAlreadySpaced(x: string, y: string)
    requires Bullet !in x && Bullet !in y && (y == [] || !IsSpace(y[0]))
    ensures Sub(x + ['\n', Bullet, ' '] + y, BulletSpacing) == x + ['\n', Bullet, ' '] + y
  {
    var u := x + ['\n', Bullet, ' '] + y;
    var b := |x| + 1;
    forall j | 0 <= j < |u| && j != b ensures u[j] != Bullet {
      if j < |x| {
        assert u[j] == x[j];
      } else if j > b + 1 {
        assert u[j] == y[j - b - 2];
      }
    }
    SpaceEndIs(u, b + 1, b + 2);
    forall k | 0 <= k < |u| && MatchAt(BulletSpacing, u, k).Some?
      ensures MatchAt(BulletSpacing, u, k).value.repl == u[k..MatchAt(BulletSpacing, u, k).value.end]
    {
      assert u[b..b + 2] == [Bullet, ' '];
    }
    SubFromIdentity(u, 0, BulletSpacing);
  }

  /** A dash item starting a line becomes a bullet item. */
  lemma DashItemHtml(x: string, v: string, w: string, y: string)
    requires Plain(x) && Plain(y) && AllSpace(v) && w != [] && AllSpace(w) && (y == [] || !IsSpace(y[0]))
    ensures PrepareTextForHtml(x + "\n" + v + "-" + w + y) == x + ['\n', Bullet, ' '] + y
  {
    var s := x + "\n" + v + "-" + w + y;
    SpacesPlain(v);
    SpacesPlain(w);
    assert '#' !in s && '*' !in s && ':' !in s && Bullet !in s;
    NoHashNoMarkers(s);
    NoStarNoTags(s);
    NoColonTight(s);
    NoBulletKept(s);
    DashRewritten(x, v, w, y);
    var u := x + ['\n', Bullet, ' '] + y;
    assert ':' !in u && '&' !in u;
    NoLabelKept(u);
    BulletAlreadySpaced(x, y);
    NoAmpersandKept(u, 0);
  }

  // Running the formatter twice

  /** Only the last three of five `#` followed by whitespace form a marker;
      what is left in front of the marker, and the `#` after it, make a new
      marker once they are joined. */
  lemma MarkersJoin(t: string)
    requires '#' !in t && (t == [] || !IsSpace(t[0]))
    ensures StripHeadingMarkers("##### # " + t) == "### " + t
  {
    var s := "##### # " + t;
    assert s[3] == '#' && s[4] == '#' && s[5] == ' ' && s[6] == '#' && s[7] == ' ';
    forall k | 0 <= k < 2 ensures MatchAt(HeadingMarker, s, k).None? {
    }
    SubFromCopies(s, 0, 2, HeadingMarker);
    SpaceEndIs(s, 5, 6);
    assert MatchAt(HeadingMarker, s, 2) == Some(Match(6, ""));
    SubFromMatched(s, 2, HeadingMarker, 6, "");
    forall k | 6 <= k < |s| ensures MatchAt(HeadingMarker, s, k).None? {
      if k >= 8 {
        assert s[k] == t[k - 8];
      }
    }
    SubFromRest(s, 6, HeadingMarker);
    assert SubFrom(s, 0, HeadingMarker) == s[0..2] + s[6..];
    Rejoined(t);
  }

  lemma Rejoined(t: string)
    ensures ("##### # " + t)[0..2] + ("##### # " + t)[6..] == "### " + t
  {
    var s := "##### # " + t;
    assert s[0..2] == "##";
    assert s[6..] == "# " + t;
  }

  /** The formatter is not idempotent: a second run can still find a heading
      marker that the first run put together. */
  lemma NotIdempotent(t: string)
    requires Plain(t) && (t == [] || !IsSpace(t[0]))
    ensures PrepareTextForHtml("##### # " + t) == "### " + t
    ensures PrepareTextForHtml(PrepareTextForHtml("##### # " + t)) == t
    ensures PrepareTextForHtml(PrepareTextForHtml("##### # " + t)) != PrepareTextForHtml("##### # " + t)
  {
    FirstRun(t);
    SecondRun(t);
    assert |"### " + t| != |t|;
  }

  lemma FirstRun(t: string)
    requires Plain(t) && (t == [] || !IsSpace(t[0]))
    ensures PrepareTextForHtml("##### # " + t) == "### " + t
  {
    var h := "### " + t;
    MarkersJoin(t);
    assert '*' !in h && Bullet !in h && '\n' !in h && '&' !in h && ':' !in h;
    NoStarNoTags(h);
    FinishTightens(h);
    NoColonTight(h);
  }

  lemma SecondRun(t: string)
    requires Plain(t) && (t == [] || !IsSpace(t[0]))
    ensures PrepareTextForHtml("### " + t) == t
  {
    assert "### " + t == "###" + " " + t;
    HeadingMarkerRemoved(" ", t);
    PlainUnchanged(t);
  }

  // The escaped tags

  /** An escaped tag at the front of a text is not mistaken for one that is
      replaced before it: such a tag could only start at the front, and it
      differs there. */
  lemma OnlyAtFront(p: string, q: string, t: string, m: nat)
    requires |q| >= 2 && q[0] == '&' && q[1] == 'l' && '&' !in t
    requires p != [] && p[|p| - 1] != '&'
    requires forall k :: 0 < k < |p| - 1 && p[k] == '&' ==> p[k + 1] != 'l'
    requires m < |p| && m < |q| && p[m] != q[m]
    ensures !Contains(p + t, q)
  {
    var s := p + t;
    forall k | 0 <= k <= |s| ensures !OccursAt(s, q, k) {
      if k + |q| <= |s| {
        var c := if k == 0 then m else if s[k] != '&' then 0 else 1;
        if 0 < k < |p| - 1 && s[k] == '&' {
          assert s[k] == p[k] && s[k + 1] == p[k + 1];
        } else if k >= |p| {
          assert s[k] == t[k - |p|];
        }
        assert s[k + c] != q[c];
        assert s[k..k + |q|][c] == s[k + c];
      }
    }
  }

  /** A literal matches nowhere its first character is missing. */
  lemma LiteralMissing(s: string, p: string, r: string, a: nat, b: nat)
    requires p != [] && a <= b <= |s| && forall k :: a <= k < b ==> s[k] != p[0]
    ensures forall k :: a <= k < b ==> MatchAt(Literal(p, r), s, k).None?
  {
    forall k | a <= k < b ensures MatchAt(Literal(p, r), s, k).None? {
      if k + |p| <= |s| {
        assert s[k..k + |p|][0] == s[k];
      }
    }
  }

  /** A pattern whose first character occurs in neither `x` nor `t` is
      replaced exactly where it stands. */
  lemma ReplacedInPlace(x: string, p: string, r: string, t: string)
    requires p != [] && p[0] !in x && p[0] !in t
    ensures ReplaceAll(x + p + t, p, r) == x + r + t
  {
    var s := x + p + t;
    var m := Literal(p, r);
    var a, n := |x|, |p|;
    assert forall k :: 0 <= k < a ==> s[k] == x[k];
    LiteralMissing(s, p, r, 0, a);
    SubFromCopies(s, 0, a, m);
    assert s[a..a + n] == p;
    SubFromMatched(s, a, m, a + n, r);
    assert forall k :: a + n <= k < |s| ==> s[k] == t[k - a - n];
    LiteralMissing(s, p, r, a + n, |s|);
    SubFromRest(s, a + n, m);
    assert s[0..a] == x && s[a + n..] == t;
  }

  /** A pattern that opens with `&` and is absent from `u` is also absent
      from `x + u` when `x` holds no `&`. */
  lemma AmpersandFreeFront(x: string, u: string, q: string)
    requires q != [] && q[0] == '&' && '&' !in x && !Contains(u, q)
    ensures !Contains(x + u, q)
  {
    var s := x + u;
    forall k | 0 <= k <= |s| ensures !OccursAt(s, q, k) {
      if k + |q| <= |s| {
        if k < |x| {
          assert s[k..k + |q|][0] == s[k] == x[k];
        } else {
          assert !OccursAt(u, q, k - |x|);
          assert s[k..k + |q|] == u[k - |x|..k - |x| + |q|];
        }
      }
    }
  }

  /** An escaped tag is turned into its tag wherever it stands, and the text
      around it is left alone when it holds no `&`. */
  lemma TagUnescaped(j: nat, x: string, y: string)
    requires j < 4 && '&' !in x && '&' !in y
    ensures Unescape(x + Escaped[j] + y) == x + Unescaped[j] + y
  {
    var p := Escaped[j];
    forall i | 0 <= i < j ensures !Contains(x + p + y, Escaped[i]) {
      var m := if i == 1 && j == 3 then 5 else 4;
      OnlyAtFront(p, Escaped[i], y, m);
      AmpersandFreeFront(x, p + y, Escaped[i]);
      assert x + p + y == x + (p + y);
    }
    UnescapeFromSkips(x + p + y, 0, j);
    ReplacedInPlace(x, p, Unescaped[j], y);
    assert '&' !in x + Unescaped[j] + y;
    NoAmpersandKept(x + Unescaped[j] + y, j + 1);
  }

  /** The names inside the four escaped tags. */
  const TagNames: seq<string> := ["b", "/b", "i", "/i"]

  lemma EscapedWraps(i: nat)
    requires i < 4
    ensures Escaped[i] == "&lt;" + TagNames[i] + "&gt;"
  {
  }

  /** `&lt;n&gt;` holds the escaped tag of another name nowhere. */
  lemma OtherNameAbsent(n: string, tag: string)
    requires '&' !in n && '&' !in tag && n != tag
    ensures !Contains("&lt;" + n + "&gt;", "&lt;" + tag + "&gt;")
  {
    var s := "&lt;" + n + "&gt;";
    var q := "&lt;" + tag + "&gt;";
    forall k | 0 <= k <= |s| ensures !OccursAt(s, q, k) {
      if k + |q| <= |s| {
        var c: nat;
        if k > 0 {
          c := 0;
          if k >= 4 {
            assert s[k] == n[k - 4];
          }
        } else if |tag| < |n| {
          c := 4 + |tag|;
          assert s[c] == n[|tag|];
        } else {
          assert |tag| == |n|;
          assert !(forall d :: 0 <= d < |n| ==> n[d] == tag[d]);
          var d :| 0 <= d < |n| && n[d] != tag[d];
          c := 4 + d;
          assert s[c] == n[d] && q[c] == tag[d];
        }
        assert s[k + c] != q[c];
        assert s[k..k + |q|][c] == s[k + c];
      }
    }
  }

  /** Every other escaped tag, `&lt;x&gt;` say, stays escaped. */
  lemma OtherEscapeKept(n: string)
    requires '&' !in n && n !in TagNames
    ensures Unescape("&lt;" + n + "&gt;") == "&lt;" + n + "&gt;"
  {
    forall i | 0 <= i < 4 ensures !Contains("&lt;" + n + "&gt;", Escaped[i]) {
      EscapedWraps(i);
      assert TagNames[i] in TagNames;
      OtherNameAbsent(n, TagNames[i]);
    }
    UnescapeNothingElse("&lt;" + n + "&gt;");
  }
}
