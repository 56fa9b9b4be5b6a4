/** The user-name tag that the message handlers put in front of each forwarded
    message, `[INFORMACIÓN DEL USUARIO: Nombre=<name>]`, how the conversation
    manager reads it and removes it, and how a known name is worked into an
    outgoing chunk. */
module UserInfo {
  import opened Strings
  import opened Scan

  /** What opens the tag; the name runs from its end to the next `]`. */
  const TagOpen: string := "[INFORMACI\U{D3}N DEL USUARIO: Nombre="

  /** The message as the handlers build it: the tag, a blank line, the text. */
  function Tagged(name: string, text: string): string {
    TagOpen + name + "]\n\n" + text
  }

  // The matchers take the opening as a parameter, `TagOpen` in the system;
  // the proofs need of it only that it starts with `[`.

  /** `\[INFORMACIÓN DEL USUARIO: Nombre=([^\]]+)\]` at `i`: the bounds of the
      name. The name cannot hold `]`, so it ends at the first one. */
  function TagAt(open: string, s: string, i: nat): (r: Option<(nat, nat)>)
    ensures r.Some? ==> i + |open| == r.value.0 < r.value.1 < |s|
    ensures r.Some? ==> s[r.value.1] == ']' && ']' !in s[r.value.0..r.value.1]
  {
    if OccursAt(s, open, i) then
      var a := i + |open|;
      var q := FirstOf(s, a, {']'});
      if a < q < |s| then Some((a, q)) else None
    else None
  }

  /** `re.search` of the tag from `i` on: the first index where it matches. */
  function FindTag(open: string, s: string, i: nat): (r: Option<(nat, nat)>)
    ensures r.Some? ==> exists k :: i <= k < |s| && TagAt(open, s, k) == r && forall t :: i <= t < k ==> TagAt(open, s, t).None?
    ensures r.None? <==> forall k :: i <= k < |s| ==> TagAt(open, s, k).None?
    decreases |s| - i
  {
    if i >= |s| then None
    else if TagAt(open, s, i).Some? then TagAt(open, s, i)
    else FindTag(open, s, i + 1)
  }

  /** The tag at `k` is the leftmost one of `s`, the one `re.search` reports. */
  predicate FirstTagAt(open: string, s: string, k: nat) {
    k < |s| && TagAt(open, s, k).Some? && forall t :: 0 <= t < k ==> TagAt(open, s, t).None?
  }

  /** The name in the first tag of the message, if there is one. */
  function ExtractName(open: string, message: string): (r: Option<string>)
    ensures r.Some? ==> r.value != [] && ']' !in r.value
    ensures r.Some? ==>
      exists k :: FirstTagAt(open, message, k) && r.value == message[TagAt(open, message, k).value.0..TagAt(open, message, k).value.1]
    ensures r.None? <==> forall k :: 0 <= k < |message| ==> TagAt(open, message, k).None?
  {
    match FindTag(open, message, 0)
    case Some((a, q)) => Some(message[a..q])
    case None => None
  }

  function ExtractUserName(message: string): Option<string> {
    ExtractName(TagOpen, message)
  }

  /** `\[INFORMACIÓN DEL USUARIO: Nombre=[^\]]+\]\s*\n*` at `i`, removed. The
      whitespace run already takes every newline, so `\n*` matches nothing. */
  function TagWithBreaks(open: string): Matcher {
    (s: string, i: nat) =>
      match TagAt(open, s, i)
      case Some((a, q)) => Some(Match(SpaceEnd(s, q + 1), ""))
      case None => None
  }

  /** Every tag removed, with the whitespace after it. */
  function StripTags(open: string, message: string): string {
    Sub(message, TagWithBreaks(open))
  }

  function StripUserTags(message: string): string {
    StripTags(TagOpen, message)
  }

  /** A message without a tag has no name and is forwarded as it is. */
  lemma UntaggedKept(open: string, message: string)
    requires ExtractName(open, message).None?
    ensures StripTags(open, message) == message
  {
    forall k | 0 <= k < |message| ensures MatchAt(TagWithBreaks(open), message, k).None? {
    }
    SubUnchanged(message, TagWithBreaks(open));
  }

  lemma TagFound(open: string, name: string, text: string)
    requires name != [] && ']' !in name
    ensures TagAt(open, open + name + "]\n\n" + text, 0) == Some((|open|, |open| + |name|))
  {
    var s := open + name + "]\n\n" + text;
    var a := |open|;
    assert s[0..a] == open;
    forall t | a <= t < a + |name| ensures s[t] !in {']'} {
      assert s[t] == name[t - a];
    }
    FirstOfIs(s, a, {']'}, a + |name|);
  }

  /** After the tag, the blank line and the `k` whitespace characters that
      start the text make one whitespace run. */
  lemma BreaksAfterTag(open: string, name: string, text: string, k: nat)
    requires k <= |text| && AllSpace(text[..k]) && (k == |text| || !IsSpace(text[k]))
    ensures SpaceEnd(open + name + "]\n\n" + text, |open| + |name| + 1) == |open| + |name| + 3 + k
  {
    var s := open + name + "]\n\n" + text;
    var q := |open| + |name|;
    assert s[q + 1] == '\n' && s[q + 2] == '\n';
    forall t | q + 3 <= t < q + 3 + k ensures IsSpace(s[t]) {
      assert s[t] == text[..k][t - q - 3];
    }
    assert q + 3 + k < |s| ==> s[q + 3 + k] == text[k];
    SpaceEndIs(s, q + 1, q + 3 + k);
  }

  /** The name the handlers put in the tag is the name the manager reads. */
  lemma NameFound(open: string, name: string, text: string)
    requires name != [] && ']' !in name
    ensures ExtractName(open, open + name + "]\n\n" + text) == Some(name)
  {
    var s := open + name + "]\n\n" + text;
    TagFound(open, name, text);
    assert s[|open|..|open| + |name|] == name;
  }

  lemma TagRoundTrip(name: string, text: string)
    requires name != [] && ']' !in name
    ensures ExtractUserName(Tagged(name, text)) == Some(name)
  {
    NameFound(TagOpen, name, text);
  }

  /** The first tag of a tagged message is removed with the blank line and
      the whitespace that starts the text. */
  lemma TagRemovedAtFront(open: string, name: string, text: string, k: nat)
    requires name != [] && ']' !in name
    requires k <= |text| && AllSpace(text[..k]) && (k == |text| || !IsSpace(text[k]))
    ensures MatchAt(TagWithBreaks(open), open + name + "]\n\n" + text, 0) == Some(Match(|open| + |name| + 3 + k, ""))
  {
    TagFound(open, name, text);
    BreaksAfterTag(open, name, text, k);
  }

  /** A tag found after a prefix is a tag of the text that follows it. */
  lemma TagShifted(open: string, p: string, text: string, t: nat)
    requires t < |text|
    ensures TagAt(open, p + text, |p| + t).Some? ==> TagAt(open, text, t).Some?
  {
    var s := p + text;
    var j := |p| + t;
    if TagAt(open, s, j).Some? {
      var (a, q) := TagAt(open, s, j).value;
      assert text[t..t + |open|] == s[j..j + |open|];
      forall u | t + |open| <= u < q - |p| ensures text[u] !in {']'} {
        assert text[u] == s[u + |p|] == s[a..q][u + |p| - a];
      }
      assert text[q - |p|] == s[q];
      FirstOfIs(text, t + |open|, {']'}, q - |p|);
    }
  }

  lemma NoMatchShifted(open: string, p: string, text: string, t: nat)
    requires ExtractName(open, text).None? && t < |text|
    ensures MatchAt(TagWithBreaks(open), p + text, |p| + t).None?
  {
    TagShifted(open, p, text, t);
  }

  /** After a prefix, a text without a tag of its own is copied as is. */
  lemma TailKept(open: string, s: string, p: string, text: string, k: nat, b: nat)
    requires ExtractName(open, text).None? && k <= |text|
    requires s == p + text && b == |p| + k
    ensures SubFrom(s, b, TagWithBreaks(open)) == text[k..]
  {
    var m := TagWithBreaks(open);
    forall j | b <= j < |s| ensures MatchAt(m, s, j).None? {
      NoMatchShifted(open, p, text, j - |p|);
    }
    SubFromRest(s, b, m);
    assert s[b..] == text[k..];
  }

  /** What is forwarded is the text without its leading whitespace, when the
      text holds no tag of its own. */
  lemma TagStripped(open: string, name: string, text: string)
    requires name != [] && ']' !in name && ExtractName(open, text).None?
    ensures StripTags(open, open + name + "]\n\n" + text) == LStrip(text)
  {
    var r := LStrip(text);
    var k := |text| - |r|;
    assert k < |text| ==> text[k] == r[0];
    TagStrippedAt(open, name, text, k);
  }

  /** The same, for a text that starts with `k` whitespace characters. */
  lemma TagStrippedAt(open: string, name: string, text: string, k: nat)
    requires name != [] && ']' !in name && ExtractName(open, text).None?
    requires k <= |text| && AllSpace(text[..k]) && (k == |text| || !IsSpace(text[k]))
    ensures StripTags(open, open + name + "]\n\n" + text) == text[k..]
  {
    TagRemovedAtFront(open, name, text, k);
    TailKept(open, open + name + "]\n\n" + text, open + name + "]\n\n", text, k, |open| + |name| + 3 + k);
    SubSkipsFront(open + name + "]\n\n" + text, TagWithBreaks(open), |open| + |name| + 3 + k, text[k..]);
  }

  /** The tag the handlers put in front of a text, with the blank line and
      the text's own leading whitespace, is all that is removed. */
  lemma TaggedStripped(name: string, text: string)
    requires name != [] && ']' !in name && ExtractUserName(text).None?
    ensures StripUserTags(Tagged(name, text)) == LStrip(text)
  {
    TagStripped(TagOpen, name, text);
  }

  // Personalisation of an outgoing chunk with the saved name.

  /** `str.lower()` on one character: ASCII and Latin-1 capitals. */
  function LowerChar(c: char): (r: char)
    ensures 'A' <= c <= 'Z' ==> r as int == c as int + 32
    ensures r != c ==> IsUpper(c)
  {
    if IsUpper(c) then (c as int + 32) as char else c
  }

  predicate IsUpper(c: char) {
    ('A' <= c <= 'Z') || ('\U{C0}' <= c <= '\U{DE}' && c != '\U{D7}')
  }

  function Lower(s: string): (r: string)
    ensures |r| == |s| && forall i :: 0 <= i < |s| ==> r[i] == LowerChar(s[i])
  {
    if s == [] then [] else [LowerChar(s[0])] + Lower(s[1..])
  }

  /** `re.search(r'^(hola|buenos días|buenas tardes|buenas noches)', s.lower())`. */
  predicate Greets(chunk: string) {
    var l := Lower(chunk);
    OccursAt(l, "hola", 0) || OccursAt(l, "buenos d\U{ED}as", 0)
    || OccursAt(l, "buenas tardes", 0) || OccursAt(l, "buenas noches", 0)
  }

  /** The chunk as `send_to_telegram` rewrites it before the first attempt:
      with a known name, a greeting gets the name after its first `Hola`, and
      otherwise a chunk that says `espero` gets it before its first `!`. */
  function Personalize(chunk: string, name: string): string {
    if name == [] then chunk
    else if Greets(chunk) then ReplaceFirst(chunk, "Hola", "Hola " + name)
    else if Contains(Lower(chunk), "espero") && Contains(chunk, "!") then ReplaceFirst(chunk, "!", ", " + name + "!")
    else chunk
  }

  /** Without a saved name the chunk goes out as it is. */
  lemma NoNameNoChange(chunk: string)
    ensures Personalize(chunk, "") == chunk
  {
  }

  /** Only the first `Hola` of a chunk that opens with it gets the name. */
  lemma GreetingNamed(name: string, rest: string)
    requires name != []
    ensures Personalize("Hola" + rest, name) == "Hola " + name + rest
  {
    var s := "Hola" + rest;
    assert s[0..4] == "Hola";
    FindIs(s, "Hola", 0, 0);
    var l := Lower(s);
    assert l[0] == 'h' && l[1] == 'o' && l[2] == 'l' && l[3] == 'a';
    assert l[0..4] == "hola";
    assert s[4..] == rest;
  }

  /** A greeting without a capitalised `Hola` is left as it is, even when it
      also says `espero` and has a `!`: the second rule is not tried. */
  lemma GreetingWithoutHolaKept(name: string, rest: string)
    requires name != [] && !Contains("buenos d\U{ED}as" + rest, "Hola")
    ensures Personalize("buenos d\U{ED}as" + rest, name) == "buenos d\U{ED}as" + rest
  {
    var s := "buenos d\U{ED}as" + rest;
    var l := Lower(s);
    forall i | 0 <= i < 11 ensures l[i] == s[i] {
      assert !IsUpper(s[i]);
    }
    assert l[0..11] == s[0..11] == "buenos d\U{ED}as";
    ContainsIffFound(s, "Hola");
  }

  /** A chunk that hopes something gets the name before its first `!`. */
  lemma HopeNamed(name: string, a: string, b: string)
    requires name != [] && '!' !in a
    requires !Greets(a + "!" + b) && Contains(Lower(a + "!" + b), "espero")
    ensures Personalize(a + "!" + b, name) == a + ", " + name + "!" + b
  {
    var s := a + "!" + b;
    FirstBang(a, b);
    assert Contains(s, "!");
    var t := ReplaceFirst(s, "!", ", " + name + "!");
    assert Personalize(s, name) == t;
    assert s[..|a|] == a && s[|a| + 1..] == b;
    Spliced(t, a, ", " + name + "!", b);
  }

  lemma Spliced(t: string, a: string, r: string, b: string)
    requires |t| == |a| + |r| + |b|
    requires t[..|a|] == a && t[|a|..|a| + |r|] == r && t[|a| + |r|..] == b
    ensures t == a + r + b
  {
    assert t == t[..|a|] + t[|a|..|a| + |r|] + t[|a| + |r|..];
  }

  lemma FirstBang(a: string, b: string)
    requires '!' !in a
    ensures OccursAt(a + "!" + b, "!", |a|) && FindFrom(a + "!" + b, "!", 0) == Some(|a|)
  {
    var s := a + "!" + b;
    assert s[|a|..|a| + 1] == "!";
    forall j: nat | j < |a| ensures !OccursAt(s, "!", j) {
      assert s[j..j + 1][0] == a[j];
    }
    FindIs(s, "!", 0, |a|);
  }

}
