/** What a word, a URL, an abbreviation and a sentence are, spelled out. */
module SentenceRules {
  import opened Common
  import opened Sentences
  import opened SentenceMasking
  import opened SentencesLossless

  // ----- words

  /** The whitespace characters, one by one. */
  lemma SpacesAre(c: char)
    ensures IsSpace(c) <==>
      c in {'\t', '\n', '\U{0B}', '\U{0C}', '\r', '\U{1C}', '\U{1D}', '\U{1E}', '\U{1F}', ' ', '\U{85}', '\U{A0}',
            '\U{1680}', '\U{2000}', '\U{2001}', '\U{2002}', '\U{2003}', '\U{2004}', '\U{2005}', '\U{2006}', '\U{2007}',
            '\U{2008}', '\U{2009}', '\U{200A}', '\U{2028}', '\U{2029}', '\U{202F}', '\U{205F}', '\U{3000}'}
  {
  }

  /** The words of a text: whitespace separates, a text without any is one word, and an empty one has none. */
  lemma WordsAre(a: string, c: char, b: string)
    requires IsSpace(c)
    ensures Words(a + [c] + b) == Words(a) + Words(b)
    ensures IsWord(a) ==> Words(a) == [a]
    ensures Words("") == []
  {
    WordsSplit(a, c, b);
    if IsWord(a) {
      OneWord(a);
    }
  }

  lemma {:induction false} WordsSplit(a: string, c: char, b: string)
    requires IsSpace(c)
    ensures Words(a + [c] + b) == Words(a) + Words(b)
    decreases |a|
  {
    var s := a + [c] + b;
    if a == "" {
      assert s[1..] == b;
    } else if IsSpace(a[0]) {
      assert s[1..] == a[1..] + [c] + b;
      WordsSplit(a[1..], c, b);
    } else {
      var n := WordLen(a);
      WordLenBefore(a, [c] + b);
      assert s == a + ([c] + b);
      assert s[..n] == a[..n] && s[n..] == a[n..] + [c] + b;
      WordsSplit(a[n..], c, b);
      assert [a[..n]] + (Words(a[n..]) + Words(b)) == [a[..n]] + Words(a[n..]) + Words(b);
    }
  }

  lemma {:induction false} WordLenBefore(a: string, t: string)
    requires t != "" && IsSpace(t[0])
    ensures WordLen(a + t) == WordLen(a)
  {
    if a == "" {
      assert a + t == t;
    } else if !IsSpace(a[0]) {
      assert (a + t)[1..] == a[1..] + t;
      WordLenBefore(a[1..], t);
    }
  }

  // ----- URLs

  lemma {:induction false} StartsWithIsPrefix(s: string, pat: string)
    ensures StartsWith(s, pat) <==> pat <= s
    decreases |pat|
  {
    if pat != "" && s != "" {
      StartsWithIsPrefix(s[1..], pat[1..]);
      assert s == [s[0]] + s[1..] && pat == [pat[0]] + pat[1..];
      assert pat <= s <==> pat[0] == s[0] && pat[1..] <= s[1..];
    }
  }

  /** A URL starts here: a scheme, and at least one character more. */
  ghost predicate UrlAt(w: string, i: nat) {
    i <= |w| && (("http://" <= w[i..] && |w| - i > 7) || ("https://" <= w[i..] && |w| - i > 8))
  }

  lemma {:induction false} UrlLenIs(s: string)
    requires SpaceFree(s)
    ensures UrlLen(s) > 0 <==> ("http://" <= s && |s| > 7) || ("https://" <= s && |s| > 8)
  {
    StartsWithIsPrefix(s, "http://");
    StartsWithIsPrefix(s, "https://");
    WordLenOfWord(s[SchemeLen(s)..]);
    if "https://" <= s {
      assert s[4] == "https://"[4];
      assert !("http://" <= s) by { assert "http://"[4] == ':'; }
    }
  }

  lemma {:induction false} FirstUrlIs(ls: seq<nat>)
    ensures forall i :: 0 <= i < FirstUrl(ls) ==> ls[i] == 0
  {
    if ls != [] && ls[0] == 0 {
      FirstUrlIs(ls[1..]);
      assert forall i :: 1 <= i < FirstUrl(ls) ==> ls[i] == ls[1..][i - 1];
    }
  }

  /** A word has a URL exactly if one starts somewhere in it, and then the first one is taken. */
  lemma {:induction false} UrlsAre(w: string)
    requires SpaceFree(w)
    ensures HasUrl(w) <==> exists i: nat :: UrlAt(w, i)
    ensures HasUrl(w) ==> UrlAt(w, UrlStart(w)) && forall i: nat :: i < UrlStart(w) ==> !UrlAt(w, i)
  {
    forall i: nat | i < |w| ensures UrlLens(w)[i] > 0 <==> UrlAt(w, i) {
      UrlLensAt(w, i);
      UrlLenIs(w[i..]);
    }
    FirstUrlIs(UrlLens(w));
    forall i: nat | UrlAt(w, i) ensures i < |w| {
    }
  }

  // ----- abbreviations

  /** Letters are compared without case; two letters have one or two more variants. */
  predicate SameLetter(c: char, a: char) {
    || c == a || ('a' <= a <= 'z' && c == a - ' ')
    || (a == 'i' && (c == '\U{130}' || c == '\U{131}')) || (a == 's' && c == '\U{17F}')
  }

  lemma FoldIs(c: char, a: char)
    requires 'a' <= a <= 'z' || a == '.'
    ensures Fold(c) == a <==> SameLetter(c, a)
  {
  }

  predicate SameLetters(s: string, a: string) {
    |s| == |a| && forall i :: 0 <= i < |a| ==> SameLetter(s[i], a[i])
  }

  lemma MatchesIs(s: string, a: string)
    requires Shaped(a) && |s| == |a|
    ensures Matches(s, a) <==> SameLetters(s, a)
  {
    forall i | 0 <= i < |a| ensures Fold(s[i]) == a[i] <==> SameLetter(s[i], a[i]) {
      assert a[i] == '.' || 'a' <= a[i] <= 'z';
      FoldIs(s[i], a[i]);
    }
  }

  /** The abbreviations, in the order in which they are shielded. */
  lemma AbbreviationsAre()
    ensures ABBREVIATIONS == ["e.g.", "i.e.", "etc.", "mr.", "mrs.", "ms.", "dr.", "prof.", "sr.", "jr.", "u.s."]
  {
  }

  lemma EndsWithIs(w: string, a: string)
    requires Shaped(a)
    ensures EndsWith(w, a) <==> |a| <= |w| && SameLetters(w[|w| - |a|..], a)
  {
    if |a| <= |w| {
      MatchesIs(w[|w| - |a|..], a);
    }
  }

  /** Which words close their sentence: those that end in `!` or `?`, and those that end in a dot, unless
      they have no URL and end in an abbreviation. */
  lemma ClosingWordsAre(w: string)
    requires IsWord(w)
    ensures EndsSentence(ABBREVIATIONS, w) <==>
      var last := w[|w| - 1];
      last == '!' || last == '?' ||
      (last == '.' && ((exists i: nat :: UrlAt(w, i)) || !EndsAbbreviated(w)))
  {
    UrlsAre(w);
    AbbreviationsIndependent();
    forall n | 0 <= n < |ABBREVIATIONS|
      ensures EndsWith(w, ABBREVIATIONS[n]) <==>
        |ABBREVIATIONS[n]| <= |w| && SameLetters(w[|w| - |ABBREVIATIONS[n]|..], ABBREVIATIONS[n])
    {
      EndsWithIs(w, ABBREVIATIONS[n]);
    }
  }

  /** The word ends in one of the abbreviations. */
  predicate EndsAbbreviated(w: string) {
    exists n :: 0 <= n < |ABBREVIATIONS| &&
      |ABBREVIATIONS[n]| <= |w| && SameLetters(w[|w| - |ABBREVIATIONS[n]|..], ABBREVIATIONS[n])
  }

  // ----- sentences

  function Texts(ws: seq<Word>): seq<string> {
    seq(|ws|, i requires 0 <= i < |ws| => ws[i].text)
  }

  /** Grouping cuts after each closing word and nowhere else: words before the last do not close, and what
      ends in a closing word is grouped by itself. */
  lemma GroupsAre(a: seq<Word>, b: seq<Word>)
    ensures Group([], []) == []
    ensures a != [] && (forall i :: 0 <= i < |a| - 1 ==> !a[i].ends) ==> Group([], a) == [Texts(a)]
    ensures a != [] && a[|a| - 1].ends ==> Group([], a + b) == Group([], a) + Group([], b)
  {
    if a != [] && (forall i :: 0 <= i < |a| - 1 ==> !a[i].ends) {
      OneGroup([], a);
      assert [] + Texts(a) == Texts(a);
    }
    if a != [] && a[|a| - 1].ends {
      GroupSplits([], a, b);
    }
  }

  lemma {:induction false} OneGroup(cur: seq<string>, a: seq<Word>)
    requires a != [] && forall i :: 0 <= i < |a| - 1 ==> !a[i].ends
    ensures Group(cur, a) == [cur + Texts(a)]
    decreases |a|
  {
    assert Texts(a) == [a[0].text] + Texts(a[1..]);
    assert cur + ([a[0].text] + Texts(a[1..])) == cur + [a[0].text] + Texts(a[1..]);
    if |a| == 1 {
      assert a[1..] == [] && Texts(a[1..]) == [];
      assert cur + Texts(a) == cur + [a[0].text];
      assert Group([], a[1..]) == [] && Group(cur + [a[0].text], a[1..]) == [cur + [a[0].text]];
    } else {
      OneGroup(cur + [a[0].text], a[1..]);
    }
  }

  lemma {:induction false} GroupSplits(cur: seq<string>, a: seq<Word>, b: seq<Word>)
    requires a != [] && a[|a| - 1].ends
    ensures Group(cur, a + b) == Group(cur, a) + Group([], b)
    decreases |a|
  {
    assert (a + b)[0] == a[0] && (a + b)[1..] == a[1..] + b;
    if |a| == 1 {
      assert a[1..] == [] && a[1..] + b == b && Group([], []) == [];
      assert [cur + [a[0].text]] + [] == [cur + [a[0].text]];
    } else {
      GroupSplits(if a[0].ends then [] else cur + [a[0].text], a[1..], b);
    }
  }

  /** Sentences are the groups of words, with single spaces between the words. */
  lemma SentencesAre(text: string)
    ensures SentencesOf(text) == JoinAll(Group([], Marked(ABBREVIATIONS, Words(text))))
    ensures Texts(Marked(ABBREVIATIONS, Words(text))) == Words(text)
    ensures forall i :: 0 <= i < |Words(text)| ==>
      (Marked(ABBREVIATIONS, Words(text))[i].ends <==> EndsSentence(ABBREVIATIONS, Words(text)[i]))
  {
  }
}
