/** The passes of `split_sentences`, step by step. */
module SentenceSplitter {
  import opened Sentences

  method ShieldAbbreviations(abbrs: seq<string>, text: string) returns (masked: string)
    requires NonEmpty(abbrs)
    ensures masked == ShieldAll(text, abbrs)
  {
    masked := text;
    for i := 0 to |abbrs|
      invariant masked == ShieldAll(text, abbrs[..i])
    {
      assert abbrs[..i + 1][..i] == abbrs[..i];
      masked := Shield(masked, abbrs[i]);
    }
    assert abbrs[..|abbrs|] == abbrs;
  }

  /** `_restore_tokens`. */
  method RestoreUrls(text: string, urls: seq<string>) returns (restored: string)
    ensures restored == RestoreTokens(text, urls, |urls|)
  {
    restored := text;
    for k := 0 to |urls|
      invariant restored == RestoreTokens(text, urls, k)
    {
      restored := Replace(restored, Token(k), urls[k]);
    }
  }

  method SplitSentences(text: string) returns (restored: seq<string>)
    ensures restored == SplitText(text)
  {
    restored := SplitSentencesWith(ABBREVIATIONS, text);
  }

  method SplitSentencesWith(abbrs: seq<string>, text: string) returns (restored: seq<string>)
    requires NonEmpty(abbrs)
    ensures restored == SplitWith(abbrs, text)
  {
    var normalized := Join(Words(text));
    if normalized == "" {
      return [];
    }
    var m := Protect(normalized, []);
    var masked := ShieldAbbreviations(abbrs, m.text);
    restored := RestoreParts(StripAll(SplitFrom("", masked)), m.urls);
  }

  method RestoreParts(parts: seq<string>, urls: seq<string>) returns (restored: seq<string>)
    ensures restored == RestoreAll(parts, urls)
  {
    restored := [];
    for i := 0 to |parts|
      invariant |restored| == i && forall k :: 0 <= k < i ==> restored[k] == Restore(parts[k], urls)
    {
      var part := Replace(parts[i], DOT_MARK, ".");
      part := RestoreUrls(part, urls);
      restored := restored + [part];
    }
  }
}
