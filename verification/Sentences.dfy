/** Sentence splitting: URLs and abbreviations are masked, the text is split, the masks are undone. */
module Sentences {

  // ----- strings

  /** Whitespace as `str.split` and `\s` see it. */
  predicate IsSpace(c: char) {
    || c == ' ' || '\U{09}' <= c <= '\U{0D}' || '\U{1C}' <= c <= '\U{1F}'
    || c == '\U{85}' || c == '\U{A0}' || c == '\U{1680}' || '\U{2000}' <= c <= '\U{200A}'
    || c == '\U{2028}' || c == '\U{2029}' || c == '\U{202F}' || c == '\U{205F}' || c == '\U{3000}'
  }

  predicate SpaceFree(s: string) {
    forall i :: 0 <= i < |s| ==> !IsSpace(s[i])
  }

  predicate IsWord(s: string) {
    s != "" && SpaceFree(s)
  }

  /** Length of the longest prefix without whitespace. */
  function WordLen(s: string): (n: nat)
    ensures n <= |s|
  {
    if s == "" || IsSpace(s[0]) then 0 else 1 + WordLen(s[1..])
  }

  lemma {:induction false} WordLenFacts(s: string)
    ensures SpaceFree(s[..WordLen(s)])
    ensures WordLen(s) < |s| ==> IsSpace(s[WordLen(s)])
  {
    if s != "" && !IsSpace(s[0]) {
      WordLenFacts(s[1..]);
      assert s[..WordLen(s)] == [s[0]] + s[1..][..WordLen(s[1..])];
    }
  }

  /** `str.split()`. */
  function Words(s: string): (ws: seq<string>)
    ensures forall i :: 0 <= i < |ws| ==> IsWord(ws[i])
    decreases |s|
  {
    if s == "" then []
    else if IsSpace(s[0]) then Words(s[1..])
    else
      WordLenFacts(s);
      [s[..WordLen(s)]] + Words(s[WordLen(s)..])
  }

  /** `" ".join(parts)`. */
  function Join(parts: seq<string>): string {
    if parts == [] then ""
    else if |parts| == 1 then parts[0]
    else parts[0] + " " + Join(parts[1..])
  }

  /** `s.replace(pat, rep)`: left to right, without overlap. */
  function Replace(s: string, pat: string, rep: string): string
    requires pat != ""
    decreases |s|
  {
    if s == "" then ""
    else if pat <= s then rep + Replace(s[|pat|..], pat, rep)
    else [s[0]] + Replace(s[1..], pat, rep)
  }

  function Digits(n: nat): (s: string)
    ensures s != "" && forall i :: 0 <= i < |s| ==> '0' <= s[i] <= '9'
  {
    if n < 10 then ["0123456789"[n]] else Digits(n / 10) + ["0123456789"[n % 10]]
  }

  // ----- the three passes

  predicate StartsWith(s: string, pat: string)
    decreases |s|
  {
    pat == "" || (s != "" && s[0] == pat[0] && StartsWith(s[1..], pat[1..]))
  }

  lemma {:induction false} StartsWithLen(s: string, pat: string)
    requires StartsWith(s, pat)
    ensures |pat| <= |s|
    decreases |s|
  {
    if pat != "" {
      StartsWithLen(s[1..], pat[1..]);
    }
  }

  function SchemeLen(s: string): (k: nat)
    ensures k <= |s|
  {
    if StartsWith(s, "http://") then
      StartsWithLen(s, "http://");
      7
    else if StartsWith(s, "https://") then
      StartsWithLen(s, "https://");
      8
    else 0
  }

  /** Length of a match of `https?://\S+` at the start of `s`; 0 when there is none. */
  function UrlLen(s: string): (n: nat)
    ensures n <= |s|
  {
    var k := SchemeLen(s);
    if k == 0 || WordLen(s[k..]) == 0 then 0 else k + WordLen(s[k..])
  }

  function Token(k: nat): string {
    "__URL_" + Digits(k) + "__"
  }

  const DOT_MARK := "__DOT__"

  predicate IsTrailing(c: char) {
    c == '.' || c == ',' || c == '!' || c == '?'
  }

  function Trailing(url: string): string {
    if url != "" && IsTrailing(url[|url| - 1]) then [url[|url| - 1]] else ""
  }

  function UrlValue(url: string): string {
    url[..|url| - |Trailing(url)|]
  }

  /** Masked text, with the URL that each token number stands for. */
  datatype Masked = Masked(text: string, urls: seq<string>)

  /** Match length of the URL pattern at every position. */
  function UrlLens(s: string): (ls: seq<nat>)
    ensures |ls| == |s|
  {
    if s == "" then [] else [UrlLen(s)] + UrlLens(s[1..])
  }

  /** Start of the leftmost match; the length of the text when there is none. */
  function FirstUrl(ls: seq<nat>): (i: nat)
    ensures i <= |ls|
    ensures i < |ls| ==> ls[i] > 0
  {
    if ls == [] || ls[0] > 0 then 0 else 1 + FirstUrl(ls[1..])
  }

  predicate Within(ls: seq<nat>) {
    forall i :: 0 <= i < |ls| ==> i + ls[i] <= |ls|
  }

  lemma {:induction false} UrlLensWithin(s: string)
    ensures Within(UrlLens(s))
  {
    if s != "" {
      UrlLensWithin(s[1..]);
      var ls := UrlLens(s);
      assert ls[1..] == UrlLens(s[1..]);
      assert forall i :: 0 < i < |ls| ==> ls[i] == ls[1..][i - 1];
    }
  }

  /** `_protect_urls`: each URL gives way to a numbered token and its trailing punctuation. */
  function ProtectMatches(s: string, ls: seq<nat>, urls: seq<string>): Masked
    requires |ls| == |s| && Within(ls)
    decreases |s|
  {
    var i := FirstUrl(ls);
    if i == |s| then Masked(s, urls)
    else
      var e := i + ls[i];
      assert forall k :: 0 <= k < |ls[e..]| ==> ls[e..][k] == ls[e + k];
      Spliced(s[..i], |urls|, s[i..e], ProtectMatches(s[e..], ls[e..], urls + [UrlValue(s[i..e])]))
  }

  /** The text before a match, the token and punctuation it leaves, and the rest. */
  function Spliced(head: string, k: nat, url: string, rest: Masked): Masked {
    Masked(head + Token(k) + Trailing(url) + rest.text, rest.urls)
  }

  function Protect(s: string, urls: seq<string>): Masked {
    UrlLensWithin(s);
    ProtectMatches(s, UrlLens(s), urls)
  }

  const ABBREVIATIONS: seq<string> :=
    ["e.g.", "i.e.", "etc.", "mr.", "mrs.", "ms.", "dr.", "prof.", "sr.", "jr.", "u.s."]

  /** Case folding of `re.IGNORECASE`, as far as the letters of the abbreviations go. */
  function Fold(c: char): char {
    if 'A' <= c <= 'Z' then c + ' '
    else if c == '\U{130}' || c == '\U{131}' then 'i'
    else if c == '\U{17F}' then 's'
    else c
  }

  predicate Matches(s: string, a: string) {
    |a| <= |s| && forall j :: 0 <= j < |a| ==> Fold(s[j]) == a[j]
  }

  function Shield(s: string, a: string): string
    requires a != ""
    decreases |s|
  {
    if s == "" then ""
    else if Matches(s, a) then Replace(s[..|a|], ".", DOT_MARK) + Shield(s[|a|..], a)
    else [s[0]] + Shield(s[1..], a)
  }

  /** The text after the abbreviations `abbrs` have been shielded one after the other. */
  function ShieldAll(s: string, abbrs: seq<string>): string
    requires forall n :: 0 <= n < |abbrs| ==> abbrs[n] != ""
  {
    if abbrs == [] then s
    else Shield(ShieldAll(s, abbrs[..|abbrs| - 1]), abbrs[|abbrs| - 1])
  }

  predicate IsTerminal(c: char) {
    c == '.' || c == '!' || c == '?'
  }

  function SpaceLen(s: string): (n: nat)
    ensures n <= |s|
    ensures s != "" && IsSpace(s[0]) ==> n > 0
  {
    if s == "" || !IsSpace(s[0]) then 0 else 1 + SpaceLen(s[1..])
  }

  /** `re.split` on whitespace after a terminal; `cur` is the part read so far. */
  function SplitFrom(cur: string, s: string): seq<string>
    decreases |s|
  {
    if s == "" then [cur]
    else if cur != "" && IsTerminal(cur[|cur| - 1]) && IsSpace(s[0]) then [cur] + SplitFrom("", s[SpaceLen(s)..])
    else SplitFrom(cur + [s[0]], s[1..])
  }

  function Strip(s: string): string {
    if s == "" then ""
    else if IsSpace(s[0]) then Strip(s[1..])
    else if IsSpace(s[|s| - 1]) then Strip(s[..|s| - 1])
    else s
  }

  function StripAll(parts: seq<string>): seq<string> {
    if parts == [] then []
    else
      var p := Strip(parts[0]);
      (if p == "" then [] else [p]) + StripAll(parts[1..])
  }

  /** Put back the first `n` URLs. */
  function RestoreTokens(s: string, urls: seq<string>, n: nat): string
    requires n <= |urls|
  {
    if n == 0 then s else Replace(RestoreTokens(s, urls, n - 1), Token(n - 1), urls[n - 1])
  }

  function Restore(part: string, urls: seq<string>): string {
    RestoreTokens(Replace(part, DOT_MARK, "."), urls, |urls|)
  }

  predicate NonEmpty(abbrs: seq<string>) {
    forall n :: 0 <= n < |abbrs| ==> abbrs[n] != ""
  }

  /** The masked text, cut into parts. */
  function MaskedParts(abbrs: seq<string>, masked: string): seq<string>
    requires NonEmpty(abbrs)
  {
    StripAll(SplitFrom("", ShieldAll(masked, abbrs)))
  }

  function RestoreAll(parts: seq<string>, urls: seq<string>): (r: seq<string>) {
    seq(|parts|, i requires 0 <= i < |parts| => Restore(parts[i], urls))
  }

  /** What `split_sentences` computes, for a list of abbreviations. */
  function SplitWith(abbrs: seq<string>, text: string): seq<string>
    requires NonEmpty(abbrs)
  {
    var normalized := Join(Words(text));
    if normalized == "" then []
    else
      var m := Protect(normalized, []);
      RestoreAll(MaskedParts(abbrs, m.text), m.urls)
  }

  function SplitText(text: string): seq<string> {
    SplitWith(ABBREVIATIONS, text)
  }

  // ----- the word-by-word account of what a sentence is

  predicate HasUrl(w: string) {
    FirstUrl(UrlLens(w)) < |w|
  }

  predicate EndsWithAny(w: string, abbrs: seq<string>) {
    exists n :: 0 <= n < |abbrs| && EndsWith(w, abbrs[n])
  }

  predicate EndsWith(w: string, a: string) {
    |a| <= |w| && Matches(w[|w| - |a|..], a)
  }

  /** A word closes its sentence when it ends in a terminal, unless that is the dot of an
      abbreviation; the dot after a URL always counts. */
  predicate EndsSentence(abbrs: seq<string>, w: string) {
    w != "" && IsTerminal(w[|w| - 1]) && (w[|w| - 1] == '.' ==> HasUrl(w) || !EndsWithAny(w, abbrs))
  }

  datatype Word = Word(text: string, ends: bool)

  /** Group words into runs that stop after each closing word; `cur` is the open run. */
  function Group(cur: seq<string>, ws: seq<Word>): seq<seq<string>>
    decreases |ws|
  {
    if ws == [] then if cur == [] then [] else [cur]
    else if ws[0].ends then [cur + [ws[0].text]] + Group([], ws[1..])
    else Group(cur + [ws[0].text], ws[1..])
  }

  function JoinAll(gs: seq<seq<string>>): seq<string> {
    seq(|gs|, i requires 0 <= i < |gs| => Join(gs[i]))
  }

  function Marked(abbrs: seq<string>, ws: seq<string>): seq<Word> {
    seq(|ws|, i requires 0 <= i < |ws| => Word(ws[i], EndsSentence(abbrs, ws[i])))
  }

  /** The sentences of a text: its words, cut after each closing word. */
  function SentencesOf(text: string): seq<string> {
    JoinAll(Group([], Marked(ABBREVIATIONS, Words(text))))
  }

  predicate NoMark(s: string) {
    forall i :: 0 <= i < |s| - 1 ==> !(s[i] == '_' && s[i + 1] == '_')
  }
}
