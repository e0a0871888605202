/** The masking passes of sentence splitting work word by word and show which words close a sentence. */
module SentenceMasking {
  import opened Sentences

  /** `t` is empty or starts with a space, so that no match can run into it. */
  predicate Apart(t: string) {
    t == "" || t[0] == ' '
  }

  // ----- every pass works word by word

  lemma {:induction false} WordLenStops(a: string, t: string)
    requires Apart(t)
    ensures WordLen(a + t) == WordLen(a)
  {
    if a == "" {
      assert a + t == t;
    } else if !IsSpace(a[0]) {
      assert (a + t)[1..] == a[1..] + t;
      WordLenStops(a[1..], t);
    }
  }

  lemma PrefixStops(a: string, t: string, pat: string)
    requires Apart(t) && pat != "" && ' ' !in pat
    ensures pat <= a + t <==> pat <= a
  {
    assert pat <= a + t <==> |pat| <= |a + t| && forall i :: 0 <= i < |pat| ==> pat[i] == (a + t)[i];
    if |pat| > |a| && t != "" {
      assert (a + t)[|a|] == ' ' && pat[|a|] in pat;
    }
  }

  lemma {:induction false} StartsWithStops(a: string, t: string, pat: string)
    requires Apart(t) && ' ' !in pat
    ensures StartsWith(a + t, pat) == StartsWith(a, pat)
    decreases |a|
  {
    if a == "" {
      assert a + t == t;
      assert pat != "" ==> pat[0] in pat;
    } else if pat != "" {
      assert (a + t)[1..] == a[1..] + t;
      StartsWithStops(a[1..], t, pat[1..]);
    }
  }

  lemma UrlLenStops(a: string, t: string)
    requires Apart(t)
    ensures UrlLen(a + t) == UrlLen(a)
  {
    StartsWithStops(a, t, "http://");
    StartsWithStops(a, t, "https://");
    var k := SchemeLen(a);
    if k > 0 {
      assert (a + t)[k..] == a[k..] + t;
      WordLenStops(a[k..], t);
    }
  }

  /** In a word, a URL runs to the end. */
  lemma UrlFillsWord(w: string)
    requires SpaceFree(w) && UrlLen(w) > 0
    ensures UrlLen(w) == |w|
  {
    WordLenOfWord(w[SchemeLen(w)..]);
  }

  lemma {:induction false} WordLenOfWord(w: string)
    requires SpaceFree(w)
    ensures WordLen(w) == |w|
  {
    if w != "" {
      WordLenOfWord(w[1..]);
    }
  }

  lemma {:induction false} UrlLensAppend(a: string, t: string)
    requires Apart(t)
    ensures UrlLens(a + t) == UrlLens(a) + UrlLens(t)
  {
    if a == "" {
      assert a + t == t;
    } else {
      UrlLenStops(a, t);
      assert (a + t)[1..] == a[1..] + t;
      UrlLensAppend(a[1..], t);
    }
  }

  lemma {:induction false} UrlLensAt(s: string, i: nat)
    requires i < |s|
    ensures UrlLens(s)[i] == UrlLen(s[i..]) && UrlLens(s)[i..] == UrlLens(s[i..])
  {
    if i > 0 {
      UrlLensAt(s[1..], i - 1);
      assert s[1..][i - 1..] == s[i..];
      assert UrlLens(s)[1..] == UrlLens(s[1..]);
    }
  }

  lemma {:induction false} FirstUrlAppend(a: seq<nat>, b: seq<nat>)
    ensures FirstUrl(a + b) == if FirstUrl(a) < |a| then FirstUrl(a) else |a| + FirstUrl(b)
  {
    if a == [] {
      assert a + b == b;
    } else {
      assert (a + b)[1..] == a[1..] + b;
      if a[0] == 0 {
        FirstUrlAppend(a[1..], b);
      }
    }
  }

  /** Where a word's URL starts; the word's length when it has none. */
  function UrlStart(w: string): (i: nat)
    ensures i <= |w|
  {
    FirstUrl(UrlLens(w))
  }

  /** A word with the `k`-th token in place of its URL, if it has one. */
  function ProtectWord(w: string, k: nat): string {
    var i := UrlStart(w);
    if i == |w| then w else w[..i] + Token(k) + Trailing(w[i..])
  }

  function UrlsOf(w: string): seq<string> {
    var i := UrlStart(w);
    if i == |w| then [] else [UrlValue(w[i..])]
  }

  lemma {:induction false} ProtectUnfold(s: string, ls: seq<nat>, urls: seq<string>, i: nat, e: nat)
    requires |ls| == |s| && Within(ls) && FirstUrl(ls) == i < |s| && e == i + ls[i] && e <= |s| && Within(ls[e..])
    ensures ProtectMatches(s, ls, urls) ==
      Spliced(s[..i], |urls|, s[i..e], ProtectMatches(s[e..], ls[e..], urls + [UrlValue(s[i..e])]))
  {
  }

  lemma Pieces<T>(head: seq<T>, mid: seq<T>, tail: seq<T>)
    ensures var s := head + mid + tail;
      s[..|head|] == head && s[|head|..|head| + |mid|] == mid && s[|head| + |mid|..] == tail && s == head + (mid + tail)
  {
  }

  /** One substitution: `head`, a match `url`, and the rest. */
  lemma {:induction false} ProtectAt(head: string, url: string, tail: string, lh: seq<nat>, lu: seq<nat>,
                                     lt: seq<nat>, urls: seq<string>)
    requires |lh| == |head| && |lu| == |url| > 0 && |lt| == |tail|
    requires FirstUrl(lh) == |lh| && lu[0] == |url| && Within(lh + lu + lt) && Within(lt)
    ensures ProtectMatches(head + url + tail, lh + lu + lt, urls) ==
      Spliced(head, |urls|, url, ProtectMatches(tail, lt, urls + [UrlValue(url)]))
  {
    FirstUrlAppend(lh, lu + lt);
    Pieces(head, url, tail);
    Pieces(lh, lu, lt);
    ProtectUnfold(head + url + tail, lh + lu + lt, urls, |head|, |head| + |url|);
  }

  lemma Regroup(w: string, head: string, a: string, b: string, c: string)
    ensures (w + head) + a + b + c == w + (head + a + b + c)
  {
  }

  lemma RegroupThree<T>(w: seq<T>, a: seq<T>, b: seq<T>, c: seq<T>)
    ensures w + (a + b + c) == (w + a) + b + c
  {
  }

  lemma TailWithin(ls: seq<nat>, e: nat)
    requires Within(ls) && e <= |ls|
    ensures Within(ls[e..])
  {
    assert forall k :: 0 <= k < |ls| - e ==> ls[e..][k] == ls[e + k];
  }

  /** A word without URL is copied. */
  lemma {:induction false} ProtectCopy(w: string, t: string, lw: seq<nat>, lt: seq<nat>, urls: seq<string>)
    requires |lw| == |w| && |lt| == |t| && FirstUrl(lw) == |lw| && Within(lt) && Within(lw + lt)
    ensures var rest := ProtectMatches(t, lt, urls);
      ProtectMatches(w + t, lw + lt, urls) == Masked(w + rest.text, rest.urls)
  {
    FirstUrlAppend(lw, lt);
    var i := FirstUrl(lt);
    if i < |t| {
      var e := i + lt[i];
      TailWithin(lt, e);
      Cut3(t, i, e);
      Cut3(lt, i, e);
      CopyShift(w, t[..i], t[i..e], t[e..], lw, lt[..i], lt[i..e], lt[e..], urls);
    }
  }

  lemma Cut3<T>(s: seq<T>, i: nat, e: nat)
    requires i <= e <= |s|
    ensures s == s[..i] + s[i..e] + s[e..]
  {
  }

  lemma {:induction false} CopyShift(w: string, head: string, url: string, tail: string,
                                     lw: seq<nat>, lh: seq<nat>, lu: seq<nat>, lt: seq<nat>, urls: seq<string>)
    requires |lw| == |w| && |lh| == |head| && |lu| == |url| > 0 && |lt| == |tail|
    requires FirstUrl(lw) == |lw| && FirstUrl(lh + lu + lt) == |lh| && lu[0] == |url|
    requires Within(lh + lu + lt) && Within(lw + (lh + lu + lt)) && Within(lt)
    ensures var rest := ProtectMatches(head + url + tail, lh + lu + lt, urls);
      ProtectMatches(w + (head + url + tail), lw + (lh + lu + lt), urls) == Masked(w + rest.text, rest.urls)
  {
    RegroupThree(lw, lh, lu, lt);
    RegroupThree(w, head, url, tail);
    NoneBefore(lh, lu, lt);
    FirstUrlAppend(lw, lh);
    ProtectAt(head, url, tail, lh, lu, lt, urls);
    ProtectAt(w + head, url, tail, lw + lh, lu, lt, urls);
    Regroup(w, head, Token(|urls|), Trailing(url), ProtectMatches(tail, lt, urls + [UrlValue(url)]).text);
  }

  lemma {:induction false} NoneBefore(lh: seq<nat>, lu: seq<nat>, lt: seq<nat>)
    requires FirstUrl(lh + lu + lt) == |lh| && lu != []
    ensures FirstUrl(lh) == |lh|
  {
    Pieces(lh, lu, lt);
    FirstUrlAppend(lh, lu + lt);
  }

  lemma ProtectAppend(w: string, t: string, urls: seq<string>)
    requires Apart(t) && SpaceFree(w)
    ensures var rest := Protect(t, urls + UrlsOf(w));
      Protect(w + t, urls) == Masked(ProtectWord(w, |urls|) + rest.text, rest.urls)
  {
    UrlLensWithin(w + t);
    UrlLensWithin(t);
    UrlLensAppend(w, t);
    var i, lw, lt := UrlStart(w), UrlLens(w), UrlLens(t);
    if i == |w| {
      ProtectCopy(w, t, lw, lt, urls);
      assert urls + [] == urls;
    } else {
      UrlLensAt(w, i);
      UrlFillsWord(w[i..]);
      assert w == w[..i] + w[i..] && lw == lw[..i] + lw[i..];
      FirstUrlAppend(lw[..i], lw[i..]);
      ProtectAt(w[..i], w[i..], t, lw[..i], lw[i..], lt, urls);
    }
  }

  lemma Assoc(a: string, b: string, c: string)
    ensures a + (b + c) == (a + b) + c
  {
  }

  lemma {:induction false} ReplaceAppend(a: string, t: string, pat: string, rep: string)
    requires Apart(t) && pat != "" && ' ' !in pat
    ensures Replace(a + t, pat, rep) == Replace(a, pat, rep) + Replace(t, pat, rep)
    decreases |a|
  {
    if a == "" {
      assert a + t == t;
    } else {
      PrefixStops(a, t, pat);
      if pat <= a {
        assert (a + t)[|pat|..] == a[|pat|..] + t;
        ReplaceAppend(a[|pat|..], t, pat, rep);
      } else {
        assert (a + t)[1..] == a[1..] + t;
        ReplaceAppend(a[1..], t, pat, rep);
      }
    }
  }

  /** What the proofs need of an abbreviation: letters and dots only, a letter first, a dot last, and
      before each dot a letter other than the last one of the dot mark. */
  predicate Shaped(a: string) {
    && |a| >= 3 && a[|a| - 1] == '.' && a[0] != '.'
    && (forall j :: 0 <= j < |a| ==> a[j] == '.' || 'a' <= a[j] <= 'z')
    && (forall j {:trigger DotAt(a, j)} :: 0 <= j < |a| && DotAt(a, j) ==> a[j - 1] != '.' && a[j - 1] != 't')
  }

  predicate DotAt(a: string, j: int) {
    1 <= j < |a| && a[j] == '.'
  }

  predicate AllShaped(abbrs: seq<string>) {
    forall n :: 0 <= n < |abbrs| ==> Shaped(abbrs[n])
  }

  lemma {:induction false} ShieldAppend(s: string, t: string, a: string)
    requires Shaped(a) && (t == "" || t[0] == ' ' || t[0] == '_')
    ensures Shield(s + t, a) == Shield(s, a) + Shield(t, a)
    decreases |s|
  {
    if s == "" {
      assert s + t == t;
    } else {
      if |a| > |s| && t != "" {
        assert (s + t)[|s|] == t[0] && Fold(t[0]) != a[|s|];
      }
      assert Matches(s + t, a) == Matches(s, a);
      if Matches(s, a) {
        assert (s + t)[..|a|] == s[..|a|] && (s + t)[|a|..] == s[|a|..] + t;
        ShieldAppend(s[|a|..], t, a);
      } else {
        assert (s + t)[1..] == s[1..] + t;
        ShieldAppend(s[1..], t, a);
      }
    }
  }

  lemma {:induction false} ShieldAllAppend(s: string, t: string, abbrs: seq<string>)
    requires AllShaped(abbrs) && Apart(t)
    ensures ShieldAll(s + t, abbrs) == ShieldAll(s, abbrs) + ShieldAll(t, abbrs)
    ensures Apart(ShieldAll(t, abbrs))
  {
    if abbrs != [] {
      var n := |abbrs| - 1;
      ShieldAllAppend(s, t, abbrs[..n]);
      ShieldAppend(ShieldAll(s, abbrs[..n]), ShieldAll(t, abbrs[..n]), abbrs[n]);
    }
  }

  lemma {:induction false} RestoreTokensAppend(a: string, t: string, urls: seq<string>, n: nat)
    requires n <= |urls| && Apart(t)
    ensures RestoreTokens(a + t, urls, n) == RestoreTokens(a, urls, n) + RestoreTokens(t, urls, n)
    ensures Apart(RestoreTokens(t, urls, n))
  {
    if n > 0 {
      RestoreTokensAppend(a, t, urls, n - 1);
      TokenShape(n - 1);
      ReplaceAppend(RestoreTokens(a, urls, n - 1), RestoreTokens(t, urls, n - 1), Token(n - 1), urls[n - 1]);
    }
  }

  lemma TokenShape(k: nat)
    ensures ' ' !in Token(k) && (forall i :: 0 <= i < |Token(k)| ==> Token(k)[i] != '.')
    ensures "__U" <= Token(k) && |Token(k)| > 0 && Token(k)[0] == '_' && Token(k)[|Token(k)| - 1] == '_'
  {
    var d := Digits(k);
    assert Token(k) == "__URL_" + d + "__";
    forall i | 0 <= i < |Token(k)| ensures Token(k)[i] != ' ' && Token(k)[i] != '.' {
      if 6 <= i < 6 + |d| {
        assert Token(k)[i] == d[i - 6];
      }
    }
  }

  // ----- shielding marks some dots of a text and nothing else

  /** `s` with the flagged characters replaced by dot marks. */
  function Mask(s: string, flags: seq<bool>): string
    requires |flags| == |s|
    decreases |s|
  {
    if s == "" then "" else (if flags[0] then DOT_MARK else [s[0]]) + Mask(s[1..], flags[1..])
  }

  lemma {:induction false} MaskAppend(s: string, f: seq<bool>, t: string, g: seq<bool>)
    requires |f| == |s| && |g| == |t|
    ensures Mask(s + t, f + g) == Mask(s, f) + Mask(t, g)
    decreases |s|
  {
    if s == "" {
      assert s + t == t && f + g == g;
    } else {
      assert (s + t)[1..] == s[1..] + t && (f + g)[1..] == f[1..] + g;
      MaskAppend(s[1..], f[1..], t, g);
    }
  }

  function NoFlags(n: nat): seq<bool> {
    seq(n, i => false)
  }

  lemma {:induction false} MaskNothing(s: string)
    ensures Mask(s, NoFlags(|s|)) == s
  {
    if s != "" {
      assert NoFlags(|s|)[1..] == NoFlags(|s| - 1);
      MaskNothing(s[1..]);
    }
  }

  function Dots(s: string): seq<bool> {
    seq(|s|, i requires 0 <= i < |s| => s[i] == '.')
  }

  lemma {:induction false} ReplaceDots(s: string)
    ensures Replace(s, ".", DOT_MARK) == Mask(s, Dots(s))
  {
    if s != "" {
      assert Dots(s)[1..] == Dots(s[1..]);
      assert "." <= s <==> s[0] == '.';
      ReplaceDots(s[1..]);
    }
  }

  /** Whether the first characters are free of marks and match `a`. */
  predicate MatchesFree(s: string, flags: seq<bool>, a: string)
    requires |flags| == |s|
  {
    |a| <= |s| && forall j {:trigger FreeAt(s, flags, a, j)} :: 0 <= j < |a| ==> FreeAt(s, flags, a, j)
  }

  predicate FreeAt(s: string, flags: seq<bool>, a: string, j: nat)
    requires |flags| == |s| && j < |a| <= |s|
  {
    !flags[j] && Fold(s[j]) == a[j]
  }

  lemma {:induction false} MatchesMask(s: string, flags: seq<bool>, a: string)
    requires |flags| == |s| && forall j :: 0 <= j < |a| ==> a[j] == '.' || 'a' <= a[j] <= 'z'
    ensures Matches(Mask(s, flags), a) <==> MatchesFree(s, flags, a)
    decreases |s|
  {
    if a != "" && s != "" {
      var rest := Mask(s[1..], flags[1..]);
      if flags[0] {
        assert Mask(s, flags)[0] == '_';
        assert |a| <= |s| ==> !FreeAt(s, flags, a, 0);
      } else {
        MatchesMask(s[1..], flags[1..], a[1..]);
        assert Mask(s, flags) == [s[0]] + rest;
        MatchesStep(s[0], rest, a);
        FreeStep(s, flags, a);
      }
    }
  }

  lemma MatchesStep(c: char, rest: string, a: string)
    requires a != ""
    ensures Matches([c] + rest, a) <==> Fold(c) == a[0] && Matches(rest, a[1..])
  {
    if Matches([c] + rest, a) {
      assert forall j :: 0 <= j < |a| - 1 ==> ([c] + rest)[j + 1] == rest[j] && a[j + 1] == a[1..][j];
    }
  }

  lemma FreeStep(s: string, flags: seq<bool>, a: string)
    requires |flags| == |s| && s != "" && a != ""
    ensures MatchesFree(s, flags, a) <==> !flags[0] && Fold(s[0]) == a[0] && MatchesFree(s[1..], flags[1..], a[1..])
  {
    if MatchesFree(s, flags, a) {
      assert FreeAt(s, flags, a, 0);
      forall j: nat | j < |a[1..]| ensures FreeAt(s[1..], flags[1..], a[1..], j) {
        assert FreeAt(s, flags, a, j + 1);
      }
    } else if !flags[0] && Fold(s[0]) == a[0] && |a| <= |s| {
      var j: nat :| j < |a| && !FreeAt(s, flags, a, j);
      assert !FreeAt(s[1..], flags[1..], a[1..], j - 1);
    }
  }

  lemma FreeMeans(s: string, flags: seq<bool>, a: string)
    requires |flags| == |s| && MatchesFree(s, flags, a)
    ensures Matches(s, a) && forall j :: 0 <= j < |a| ==> !flags[j]
  {
    forall j: nat | j < |a| ensures !flags[j] && Fold(s[j]) == a[j] {
      assert FreeAt(s, flags, a, j);
    }
  }

  lemma {:induction false} MaskFree(s: string, flags: seq<bool>, n: nat)
    requires |flags| == |s| && n <= |s| && forall j :: 0 <= j < n ==> !flags[j]
    ensures Mask(s, flags) == s[..n] + Mask(s[n..], flags[n..])
  {
    assert flags[..n] == NoFlags(n) && s == s[..n] + s[n..] && flags == flags[..n] + flags[n..];
    MaskNothing(s[..n]);
    MaskAppend(s[..n], flags[..n], s[n..], flags[n..]);
  }

  /** The flags after one abbreviation has been shielded. */
  function ShieldFlags(s: string, flags: seq<bool>, a: string): (r: seq<bool>)
    requires |flags| == |s| && a != ""
    ensures |r| == |s|
    decreases |s|
  {
    if s == "" then []
    else if MatchesFree(s, flags, a) then Dots(s[..|a|]) + ShieldFlags(s[|a|..], flags[|a|..], a)
    else [flags[0]] + ShieldFlags(s[1..], flags[1..], a)
  }

  lemma NoMatchInside(u: string, t: string, a: string)
    requires Shaped(a) && u != "" && u[|u| - 1] == '_' && forall i :: 0 <= i < |u| ==> u[i] != '.'
    ensures !Matches(u + t, a)
  {
    if |a| <= |u| {
      assert (u + t)[|a| - 1] == u[|a| - 1];
    } else if |a| <= |u + t| {
      assert (u + t)[|u| - 1] == '_';
    }
  }

  lemma {:induction false} ShieldSkips(u: string, t: string, a: string)
    requires Shaped(a) && (u == "" || u[|u| - 1] == '_') && forall i :: 0 <= i < |u| ==> u[i] != '.'
    ensures Shield(u + t, a) == u + Shield(t, a)
    decreases |u|
  {
    if u == "" {
      assert u + t == t;
    } else {
      NoMatchInside(u, t, a);
      assert (u + t)[1..] == u[1..] + t;
      ShieldSkips(u[1..], t, a);
    }
  }

  lemma {:induction false} ShieldMask(s: string, flags: seq<bool>, a: string)
    requires |flags| == |s| && Shaped(a)
    ensures Shield(Mask(s, flags), a) == Mask(s, ShieldFlags(s, flags, a))
    decreases |s|
  {
    if s != "" {
      MatchesMask(s, flags, a);
      if MatchesFree(s, flags, a) {
        ShieldMaskMatch(s, flags, a);
        ShieldMask(s[|a|..], flags[|a|..], a);
        assert s == s[..|a|] + s[|a|..];
        MaskAppend(s[..|a|], Dots(s[..|a|]), s[|a|..], ShieldFlags(s[|a|..], flags[|a|..], a));
      } else {
        ShieldMaskStep(s, flags, a);
        ShieldMask(s[1..], flags[1..], a);
        var r := ShieldFlags(s[1..], flags[1..], a);
        assert ([flags[0]] + r)[1..] == r;
      }
    }
  }

  lemma {:induction false} ShieldMaskMatch(s: string, flags: seq<bool>, a: string)
    requires |flags| == |s| && Shaped(a) && MatchesFree(s, flags, a) && Matches(Mask(s, flags), a)
    ensures Shield(Mask(s, flags), a) == Mask(s[..|a|], Dots(s[..|a|])) + Shield(Mask(s[|a|..], flags[|a|..]), a)
  {
    FreeMeans(s, flags, a);
    MaskFree(s, flags, |a|);
    ReplaceDots(s[..|a|]);
    Pieces(s[..|a|], Mask(s[|a|..], flags[|a|..]), "");
    var m := Mask(s, flags);
    assert m[..|a|] == s[..|a|] && m[|a|..] == Mask(s[|a|..], flags[|a|..]);
  }

  lemma {:induction false} ShieldMaskStep(s: string, flags: seq<bool>, a: string)
    requires |flags| == |s| && s != "" && Shaped(a) && !Matches(Mask(s, flags), a)
    ensures Shield(Mask(s, flags), a) == (if flags[0] then DOT_MARK else [s[0]]) + Shield(Mask(s[1..], flags[1..]), a)
  {
    if flags[0] {
      ShieldSkips(DOT_MARK, Mask(s[1..], flags[1..]), a);
    } else {
      assert Mask(s, flags)[1..] == Mask(s[1..], flags[1..]);
    }
  }

  /** The flags after all abbreviations. */
  function AllFlags(s: string, abbrs: seq<string>): (r: seq<bool>)
    requires AllShaped(abbrs)
    ensures |r| == |s|
  {
    if abbrs == [] then NoFlags(|s|)
    else ShieldFlags(s, AllFlags(s, abbrs[..|abbrs| - 1]), abbrs[|abbrs| - 1])
  }

  lemma {:induction false} ShieldAllMask(s: string, abbrs: seq<string>)
    requires AllShaped(abbrs)
    ensures ShieldAll(s, abbrs) == Mask(s, AllFlags(s, abbrs))
  {
    if abbrs == [] {
      MaskNothing(s);
    } else {
      var n := |abbrs| - 1;
      ShieldAllMask(s, abbrs[..n]);
      ShieldMask(s, AllFlags(s, abbrs[..n]), abbrs[n]);
    }
  }

  /** What follows a URL's start is left alone. */
  lemma {:induction false} ShieldAllUrl(pre: string, k: nat, tr: string, abbrs: seq<string>)
    requires AllShaped(abbrs) && |tr| <= 1
    ensures ShieldAll(pre + Token(k) + tr, abbrs) == ShieldAll(pre, abbrs) + Token(k) + tr
  {
    if abbrs != [] {
      var n, a, tail := |abbrs| - 1, abbrs[|abbrs| - 1], Token(k) + tr;
      ShieldAllUrl(pre, k, tr, abbrs[..n]);
      TokenShape(k);
      var x := ShieldAll(pre, abbrs[..n]);
      assert x + Token(k) + tr == x + tail;
      ShieldAppend(x, tail, a);
      TokenKept(k, tr, a);
      assert Shield(x, a) + tail == Shield(x, a) + Token(k) + tr;
    }
  }

  lemma {:induction false} TokenKept(k: nat, tr: string, a: string)
    requires Shaped(a) && |tr| <= 1
    ensures Shield(Token(k) + tr, a) == Token(k) + tr
  {
    TokenShape(k);
    ShieldSkips(Token(k), tr, a);
    if tr != "" {
      assert tr == [tr[0]] && tr[1..] == "";
    }
  }

  predicate DotsOnly(s: string, flags: seq<bool>) {
    |flags| == |s| && forall i :: 0 <= i < |s| ==> flags[i] ==> s[i] == '.'
  }

  lemma {:induction false} ShieldFlagsDots(s: string, flags: seq<bool>, a: string)
    requires DotsOnly(s, flags) && a != ""
    ensures DotsOnly(s, ShieldFlags(s, flags, a))
    decreases |s|
  {
    if s != "" {
      if MatchesFree(s, flags, a) {
        ShieldFlagsDots(s[|a|..], flags[|a|..], a);
      } else {
        ShieldFlagsDots(s[1..], flags[1..], a);
      }
    }
  }

  lemma {:induction false} AllFlagsDots(s: string, abbrs: seq<string>)
    requires AllShaped(abbrs)
    ensures DotsOnly(s, AllFlags(s, abbrs))
  {
    if abbrs != [] {
      AllFlagsDots(s, abbrs[..|abbrs| - 1]);
      ShieldFlagsDots(s, AllFlags(s, abbrs[..|abbrs| - 1]), abbrs[|abbrs| - 1]);
    }
  }

  /** The masked form of a word, when its URL has number `k`. */
  function MaskedWord(w: string, k: nat, abbrs: seq<string>): string
    requires AllShaped(abbrs)
  {
    ShieldAll(ProtectWord(w, k), abbrs)
  }

  lemma TrailingFits(url: string)
    ensures url == UrlValue(url) + Trailing(url)
    ensures |Trailing(url)| <= 1 && (Trailing(url) != "" ==> IsTrailing(Trailing(url)[0]))
  {
  }

  // ----- which words close a sentence

  /** No proper suffix of `a` is also a prefix. */
  predicate NoOverlap(a: string) {
    forall q :: 0 < q < |a| ==> Clashes(a, q)
  }

  predicate Clashes(a: string, q: int)
    requires 0 < q
  {
    exists j :: q <= j < |a| && a[j] != a[j - q]
  }

  /** `b` has no dot after a letter that precedes an inner dot of `a`. */
  ghost predicate Spares(b: string, a: string) {
    forall i, j {:trigger DotAt(a, i), DotAt(b, j)} :: DotAt(a, i) && i < |a| - 1 && DotAt(b, j) ==>
      b[j - 1] != a[i - 1]
  }

  /** No abbreviation before the `n`-th flags an inner dot of the `n`-th. */
  ghost predicate Undisturbed(abbrs: seq<string>, n: nat)
    requires n < |abbrs|
  {
    forall m {:trigger Spares(abbrs[m], abbrs[n])} :: 0 <= m < n ==> Spares(abbrs[m], abbrs[n])
  }

  ghost predicate Independent(abbrs: seq<string>) {
    AllShaped(abbrs) && forall n :: 0 <= n < |abbrs| ==> NoOverlap(abbrs[n]) && Undisturbed(abbrs, n)
  }

  lemma SuffixStep(s: string, a: string, n: nat)
    requires n <= |s| && |a| <= |s| - n
    ensures EndsWith(s, a) <==> EndsWith(s[n..], a)
  {
    assert s[n..][|s| - n - |a|..] == s[|s| - |a|..];
  }

  lemma {:induction false} ShieldAt(s: string, flags: seq<bool>, a: string, p: nat)
    requires |flags| == |s| && p < |s| && Shaped(a)
    ensures MatchesFree(s, flags, a) ==>
      ShieldFlags(s, flags, a)[p] == if p < |a| then Dots(s[..|a|])[p]
        else ShieldFlags(s[|a|..], flags[|a|..], a)[p - |a|]
    ensures !MatchesFree(s, flags, a) ==>
      ShieldFlags(s, flags, a)[p] == if p == 0 then flags[0] else ShieldFlags(s[1..], flags[1..], a)[p - 1]
  {
  }

  predicate LastShielded(s: string, flags: seq<bool>, a: string)
    requires |flags| == |s| && a != ""
  {
    s != "" && ShieldFlags(s, flags, a)[|s| - 1]
  }

  /** One step of the search for the end: the last dot is flagged by this match, or by the rest. */
  lemma LastStep(s: string, flags: seq<bool>, a: string) returns (n: nat)
    requires |flags| == |s| && Shaped(a) && LastShielded(s, flags, a) && !flags[|s| - 1]
    ensures if n == |s| then EndsWith(s, a) else 0 < n < |s| && LastShielded(s[n..], flags[n..], a)
  {
    ShieldAt(s, flags, a, |s| - 1);
    n := if MatchesFree(s, flags, a) then |a| else 1;
    if MatchesFree(s, flags, a) && |a| == |s| {
      FreeMeans(s, flags, a);
      assert s[0..] == s;
    }
  }

  /** The last dot gets flagged by an abbreviation only at the end of the text. */
  lemma {:induction false} FlagsOnlySuffix(s: string, flags: seq<bool>, a: string)
    requires |flags| == |s| && Shaped(a) && LastShielded(s, flags, a) && !flags[|s| - 1]
    ensures EndsWith(s, a)
    decreases |s|
  {
    var n := LastStep(s, flags, a);
    if n < |s| {
      FlagsOnlySuffix(s[n..], flags[n..], a);
      SuffixStep(s, a, n);
    }
  }

  lemma {:induction false} FlagsStay(s: string, flags: seq<bool>, a: string, p: nat)
    requires |flags| == |s| && p < |s| && Shaped(a) && flags[p]
    ensures ShieldFlags(s, flags, a)[p]
    decreases |s|
  {
    ShieldAt(s, flags, a, p);
    if MatchesFree(s, flags, a) {
      assert p < |a| ==> FreeAt(s, flags, a, p);
      FlagsStay(s[|a|..], flags[|a|..], a, p - |a|);
    } else if p > 0 {
      FlagsStay(s[1..], flags[1..], a, p - 1);
    }
  }

  predicate TailFree(flags: seq<bool>, n: nat) {
    forall i :: 0 <= |flags| - n <= i < |flags| ==> !flags[i]
  }

  lemma SuffixIsAll(s: string, flags: seq<bool>, a: string)
    requires |flags| == |s| == |a| && Shaped(a) && EndsWith(s, a) && TailFree(flags, |a|)
    ensures LastShielded(s, flags, a)
  {
    assert s[0..] == s && s[..|a|] == s;
    assert Fold(s[|s| - 1]) == '.';
    forall j: nat | j < |a| ensures FreeAt(s, flags, a, j) {
    }
    ShieldAt(s, flags, a, |s| - 1);
    assert Dots(s)[|s| - 1];
  }

  /** What is left to do when the final match is not yet at the front. */
  lemma SuffixShift(s: string, flags: seq<bool>, a: string, n: nat)
    requires |flags| == |s| && Shaped(a) && EndsWith(s, a) && n <= |s| - |a|
    requires TailFree(flags, |a|)
    ensures EndsWith(s[n..], a) && TailFree(flags[n..], |a|)
  {
    SuffixStep(s, a, n);
  }

  /** A match that ends the text is found: nothing before it can overlap it. */
  lemma {:induction false} SuffixGetsFlagged(s: string, flags: seq<bool>, a: string)
    requires |flags| == |s| && Shaped(a) && NoOverlap(a) && EndsWith(s, a) && TailFree(flags, |a|)
    ensures LastShielded(s, flags, a)
    decreases |s|
  {
    if |s| == |a| {
      SuffixIsAll(s, flags, a);
    } else {
      var n := NextStart(s, flags, a);
      SuffixShift(s, flags, a, n);
      SuffixGetsFlagged(s[n..], flags[n..], a);
    }
  }

  /** Where the search goes on: after a match, which cannot reach into the final one, or one further. */
  lemma NextStart(s: string, flags: seq<bool>, a: string) returns (n: nat)
    requires |flags| == |s| && Shaped(a) && NoOverlap(a) && EndsWith(s, a) && |a| < |s|
    ensures 0 < n <= |s| - |a|
    ensures LastShielded(s[n..], flags[n..], a) ==> LastShielded(s, flags, a)
  {
    n := if MatchesFree(s, flags, a) then |a| else 1;
    ShieldAt(s, flags, a, |s| - 1);
    if MatchesFree(s, flags, a) {
      MatchesDisjoint(s, flags, a);
    }
  }

  /** Two overlapping matches make the abbreviation repeat itself. */
  lemma OverlapRepeats(s: string, flags: seq<bool>, a: string)
    requires |flags| == |s| && EndsWith(s, a) && MatchesFree(s, flags, a) && |a| < |s|
    ensures !Clashes(a, |s| - |a|)
  {
    var q := |s| - |a|;
    forall j | q <= j < |a| ensures a[j] == a[j - q] {
      assert s[q..][j - q] == s[j] && FreeAt(s, flags, a, j);
    }
  }

  lemma MatchesDisjoint(s: string, flags: seq<bool>, a: string)
    requires |flags| == |s| && NoOverlap(a) && EndsWith(s, a) && MatchesFree(s, flags, a) && |a| < |s|
    ensures |a| <= |s| - |a|
  {
    OverlapRepeats(s, flags, a);
  }

  /** A new flag stands after a letter that precedes a dot in the abbreviation. */
  lemma {:induction false} NewFlag(s: string, flags: seq<bool>, a: string, p: nat) returns (j: nat)
    requires |flags| == |s| && p < |s| && Shaped(a) && !flags[p] && ShieldFlags(s, flags, a)[p]
    ensures 1 <= j < |a| && a[j] == '.' && p >= 1 && Fold(s[p - 1]) == a[j - 1]
    decreases |s|
  {
    ShieldAt(s, flags, a, p);
    if MatchesFree(s, flags, a) {
      if p < |a| {
        assert FreeAt(s, flags, a, p) && s[p] == '.';
        assert p > 0 ==> FreeAt(s, flags, a, p - 1);
        j := p;
      } else {
        j := NewFlag(s[|a|..], flags[|a|..], a, p - |a|);
        assert s[|a|..][p - |a| - 1] == s[p - 1];
      }
    } else {
      j := NewFlag(s[1..], flags[1..], a, p - 1);
      assert s[1..][p - 2] == s[p - 1];
    }
  }

  lemma {:induction false} FlagLetter(s: string, abbrs: seq<string>, p: nat) returns (m: nat, j: nat)
    requires AllShaped(abbrs) && p < |s| && AllFlags(s, abbrs)[p]
    ensures m < |abbrs| && 1 <= j < |abbrs[m]| && abbrs[m][j] == '.' && p >= 1 && Fold(s[p - 1]) == abbrs[m][j - 1]
  {
    assert abbrs != [];
    var n := |abbrs| - 1;
    if AllFlags(s, abbrs[..n])[p] {
      m, j := FlagLetter(s, abbrs[..n], p);
    } else {
      j := NewFlag(s, AllFlags(s, abbrs[..n]), abbrs[n], p);
      m := n;
    }
  }

  lemma IndependentPrefix(abbrs: seq<string>, n: nat)
    requires Independent(abbrs) && n <= |abbrs|
    ensures Independent(abbrs[..n])
  {
    forall k | 0 <= k < n ensures NoOverlap(abbrs[..n][k]) && Undisturbed(abbrs[..n], k) {
      assert Undisturbed(abbrs, k);
      forall m | 0 <= m < k ensures Spares(abbrs[..n][m], abbrs[..n][k]) {
        assert Spares(abbrs[m], abbrs[k]);
      }
    }
  }

  /** A flag within the final match stands on an inner dot that an earlier abbreviation shares. */
  lemma FlagInSuffix(s: string, abbrs: seq<string>, n: nat, i: nat) returns (m: nat, j: nat, d: nat)
    requires AllShaped(abbrs) && n < |abbrs| && EndsWith(s, abbrs[n])
    requires |s| - |abbrs[n]| <= i < |s| - 1 && AllFlags(s, abbrs[..n])[i]
    ensures m < n && 1 <= j < |abbrs[m]| && abbrs[m][j] == '.'
    ensures 1 <= d < |abbrs[n]| - 1 && abbrs[n][d] == '.' && abbrs[m][j - 1] == abbrs[n][d - 1]
  {
    var q := |s| - |abbrs[n]|;
    d := i - q;
    AllFlagsDots(s, abbrs[..n]);
    assert s[q..][d] == s[i] && Fold(s[i]) == abbrs[n][d];
    m, j := FlagLetter(s, abbrs[..n], i);
    assert s[q..][d - 1] == s[i - 1];
  }

  lemma {:induction false} InnerStillFree(s: string, abbrs: seq<string>, n: nat, i: nat)
    requires Independent(abbrs) && n < |abbrs| && EndsWith(s, abbrs[n])
    requires |s| - |abbrs[n]| <= i < |s| - 1
    ensures !AllFlags(s, abbrs[..n])[i]
  {
    assert Undisturbed(abbrs, n);
    if AllFlags(s, abbrs[..n])[i] {
      var m, j, d := FlagInSuffix(s, abbrs, n, i);
      assert Spares(abbrs[m], abbrs[n]) && DotAt(abbrs[n], d) && DotAt(abbrs[m], j);
    }
  }

  /** When the turn of the abbreviation that ends the text comes, its dots are untouched. */
  lemma {:induction false} SuffixStillFree(s: string, abbrs: seq<string>, n: nat)
    requires Independent(abbrs) && n < |abbrs| && EndsWith(s, abbrs[n])
    requires s != "" && !AllFlags(s, abbrs[..n])[|s| - 1]
    ensures TailFree(AllFlags(s, abbrs[..n]), |abbrs[n]|)
  {
    forall i | |s| - |abbrs[n]| <= i < |s| ensures !AllFlags(s, abbrs[..n])[i] {
      if i < |s| - 1 {
        InnerStillFree(s, abbrs, n, i);
      }
    }
  }

  lemma {:induction false} LastDotFlagged(s: string, abbrs: seq<string>)
    requires Independent(abbrs) && s != "" && s[|s| - 1] == '.'
    ensures AllFlags(s, abbrs)[|s| - 1] <==> EndsWithAny(s, abbrs)
  {
    if abbrs != [] {
      var n := |abbrs| - 1;
      var a, flags := abbrs[n], AllFlags(s, abbrs[..n]);
      IndependentPrefix(abbrs, n);
      LastDotFlagged(s, abbrs[..n]);
      AnyStep(s, abbrs);
      if flags[|s| - 1] {
        FlagsStay(s, flags, a, |s| - 1);
      } else if EndsWith(s, a) {
        SuffixStillFree(s, abbrs, n);
        SuffixGetsFlagged(s, flags, a);
      } else if ShieldFlags(s, flags, a)[|s| - 1] {
        FlagsOnlySuffix(s, flags, a);
      }
    }
  }

  lemma AnyStep(s: string, abbrs: seq<string>)
    requires abbrs != []
    ensures EndsWithAny(s, abbrs) <==> EndsWithAny(s, abbrs[..|abbrs| - 1]) || EndsWith(s, abbrs[|abbrs| - 1])
  {
    var n := |abbrs| - 1;
    if EndsWithAny(s, abbrs[..n]) {
      var k :| 0 <= k < n && EndsWith(s, abbrs[..n][k]);
      assert EndsWith(s, abbrs[k]);
    }
    if EndsWithAny(s, abbrs) {
      var k :| 0 <= k < |abbrs| && EndsWith(s, abbrs[k]);
      assert k < n ==> EndsWith(s, abbrs[..n][k]);
    }
  }

  lemma {:induction false} MaskShape(s: string, flags: seq<bool>)
    requires |flags| == |s| && s != "" && SpaceFree(s)
    ensures IsWord(Mask(s, flags))
    ensures Mask(s, flags)[|Mask(s, flags)| - 1] == if flags[|s| - 1] then '_' else s[|s| - 1]
    decreases |s|
  {
    var m, rest := Mask(s, flags), Mask(s[1..], flags[1..]);
    var head := if flags[0] then DOT_MARK else [s[0]];
    assert m == head + rest && SpaceFree(head);
    if |s| > 1 {
      MaskShape(s[1..], flags[1..]);
      assert m[|m| - 1] == rest[|rest| - 1];
    } else {
      assert rest == "";
    }
    forall i | 0 <= i < |m| ensures !IsSpace(m[i]) {
      assert m[i] == if i < |head| then head[i] else rest[i - |head|];
    }
  }

  lemma TokenSpaceFree(k: nat)
    ensures SpaceFree(Token(k))
  {
    var d := Digits(k);
    forall i | 0 <= i < |Token(k)| ensures !IsSpace(Token(k)[i]) {
      if 6 <= i < 6 + |d| {
        assert Token(k)[i] == d[i - 6];
      }
    }
  }

  /** `x` is a word that shows a terminal at its end exactly when `w` closes its sentence. */
  ghost predicate EndsLike(x: string, w: string, abbrs: seq<string>) {
    IsWord(x) && (IsTerminal(x[|x| - 1]) <==> EndsSentence(abbrs, w))
  }

  lemma {:induction false} MaskedPlainEnds(w: string, abbrs: seq<string>)
    requires IsWord(w) && Independent(abbrs) && !HasUrl(w)
    ensures EndsLike(Mask(w, AllFlags(w, abbrs)), w, abbrs)
  {
    AllFlagsDots(w, abbrs);
    MaskShape(w, AllFlags(w, abbrs));
    if w[|w| - 1] == '.' {
      LastDotFlagged(w, abbrs);
    }
  }

  /** A masked word is a word, and it shows a terminal at its end exactly when the word closes its sentence. */
  lemma MaskedWordEnds(w: string, k: nat, abbrs: seq<string>)
    requires IsWord(w) && Independent(abbrs)
    ensures EndsLike(MaskedWord(w, k, abbrs), w, abbrs)
  {
    var i := UrlStart(w);
    if i == |w| {
      ShieldAllMask(w, abbrs);
      MaskedPlainEnds(w, abbrs);
    } else {
      MaskedUrlEnds(w, w[..i], w[i..], k, abbrs);
    }
  }

  lemma {:induction false} MaskedUrlEnds(w: string, pre: string, url: string, k: nat, abbrs: seq<string>)
    requires IsWord(w) && Independent(abbrs) && w == pre + url && url != "" && HasUrl(w)
    ensures EndsLike(ShieldAll(pre + Token(k) + Trailing(url), abbrs), w, abbrs)
  {
    var tr, x := Trailing(url), ShieldAll(pre + Token(k) + Trailing(url), abbrs);
    ShieldAllUrl(pre, k, tr, abbrs);
    ShieldAllMask(pre, abbrs);
    TokenSpaceFree(k);
    TokenShape(k);
    assert SpaceFree(pre) by { assert forall j :: 0 <= j < |pre| ==> w[j] == pre[j]; }
    var m := Mask(pre, AllFlags(pre, abbrs));
    if pre != "" { MaskShape(pre, AllFlags(pre, abbrs)); }
    assert x == m + Token(k) + tr;
    assert x[|x| - 1] == if tr == "" then '_' else tr[0];
    assert w[|w| - 1] == url[|url| - 1];
    WordOfThree(m, Token(k), tr);
  }

  lemma WordOfThree(a: string, b: string, c: string)
    requires SpaceFree(a) && IsWord(b) && (c == "" || (|c| == 1 && IsTrailing(c[0])))
    ensures IsWord(a + b + c)
  {
    var x := a + b + c;
    forall i | 0 <= i < |x| ensures !IsSpace(x[i]) {
      assert x[i] == if i < |a| then a[i] else if i < |a| + |b| then b[i - |a|] else c[i - |a| - |b|];
    }
  }

  // ----- whole texts

  lemma {:induction false} SpaceStep(r: string, a: string)
    requires Shaped(a)
    ensures Shield(" " + r, a) == " " + Shield(r, a)
  {
    assert (" " + r)[1..] == r;
    assert Fold((" " + r)[0]) != a[0];
  }

  lemma {:induction false} ShieldAllSpace(r: string, abbrs: seq<string>)
    requires AllShaped(abbrs)
    ensures ShieldAll(" " + r, abbrs) == " " + ShieldAll(r, abbrs)
  {
    if abbrs != [] {
      var n := |abbrs| - 1;
      ShieldAllSpace(r, abbrs[..n]);
      SpaceStep(ShieldAll(r, abbrs[..n]), abbrs[n]);
    }
  }

  function ShieldEach(ws: seq<string>, abbrs: seq<string>): (r: seq<string>)
    requires AllShaped(abbrs)
    ensures |r| == |ws|
  {
    if ws == [] then [] else [ShieldAll(ws[0], abbrs)] + ShieldEach(ws[1..], abbrs)
  }

  lemma {:induction false} ShieldAllJoin(ws: seq<string>, abbrs: seq<string>)
    requires AllShaped(abbrs)
    ensures ShieldAll(Join(ws), abbrs) == Join(ShieldEach(ws, abbrs))
  {
    if ws == [] {
      ShieldAllMask("", abbrs);
    } else if |ws| > 1 {
      var t := " " + Join(ws[1..]);
      ShieldAllJoin(ws[1..], abbrs);
      ShieldAllSpace(Join(ws[1..]), abbrs);
      assert ws[0] + " " + Join(ws[1..]) == ws[0] + t;
      ShieldAllAppend(ws[0], t, abbrs);
      assert ShieldEach(ws, abbrs)[1..] == ShieldEach(ws[1..], abbrs);
      Assoc(ShieldAll(ws[0], abbrs), " ", Join(ShieldEach(ws[1..], abbrs)));
    } else {
      assert ShieldEach(ws[1..], abbrs) == [];
    }
  }

  lemma ProtectSpace(r: string, urls: seq<string>)
    ensures Protect(" " + r, urls) == Masked(" " + Protect(r, urls).text, Protect(r, urls).urls)
  {
    assert (" " + r)[1..] == r;
    assert UrlLens(" " + r) == [0] + UrlLens(r);
    UrlLensWithin(r);
    UrlLensWithin(" " + r);
    ProtectCopy(" ", r, [0], UrlLens(r), urls);
  }

  function ProtectEach(ws: seq<string>, k: nat): (r: seq<string>)
    ensures |r| == |ws|
  {
    if ws == [] then [] else [ProtectWord(ws[0], k)] + ProtectEach(ws[1..], k + |UrlsOf(ws[0])|)
  }

  function AllUrls(ws: seq<string>): seq<string> {
    if ws == [] then [] else UrlsOf(ws[0]) + AllUrls(ws[1..])
  }

  lemma {:induction false} ProtectJoin(ws: seq<string>, urls: seq<string>)
    requires forall i :: 0 <= i < |ws| ==> SpaceFree(ws[i])
    ensures Protect(Join(ws), urls) == Masked(Join(ProtectEach(ws, |urls|)), urls + AllUrls(ws))
  {
    if ws == [] {
      UrlLensWithin("");
      assert urls + [] == urls;
    } else {
      if |ws| > 1 {
        ProtectJoin(ws[1..], urls + UrlsOf(ws[0]));
        UrlsUnfold(ws, urls);
        ProtectJoinMore(ws, urls, Join(ProtectEach(ws[1..], |urls| + |UrlsOf(ws[0])|)), urls + AllUrls(ws));
      } else {
        ProtectJoinOne(ws, urls);
      }
    }
  }

  lemma ProtectFirst(w: string, r: string, urls: seq<string>, rest: Masked)
    requires SpaceFree(w) && Protect(r, urls + UrlsOf(w)) == rest
    ensures Protect(w + " " + r, urls) == Masked(ProtectWord(w, |urls|) + " " + rest.text, rest.urls)
  {
    ProtectSpace(r, urls + UrlsOf(w));
    Assoc(w, " ", r);
    ProtectAppend(w, " " + r, urls);
    Assoc(ProtectWord(w, |urls|), " ", rest.text);
  }

  lemma EachUnfolds(ws: seq<string>, k: nat)
    requires |ws| > 1
    ensures Join(ws) == ws[0] + " " + Join(ws[1..])
    ensures Join(ProtectEach(ws, k)) == ProtectWord(ws[0], k) + " " + Join(ProtectEach(ws[1..], k + |UrlsOf(ws[0])|))
  {
    assert ProtectEach(ws, k)[1..] == ProtectEach(ws[1..], k + |UrlsOf(ws[0])|);
  }

  lemma {:induction false} UrlsUnfold(ws: seq<string>, urls: seq<string>)
    requires ws != []
    ensures urls + AllUrls(ws) == urls + UrlsOf(ws[0]) + AllUrls(ws[1..])
  {
  }

  lemma {:induction false} ProtectJoinMore(ws: seq<string>, urls: seq<string>, each: string, all: seq<string>)
    requires |ws| > 1 && SpaceFree(ws[0])
    requires each == Join(ProtectEach(ws[1..], |urls| + |UrlsOf(ws[0])|)) && all == urls + AllUrls(ws)
    requires Protect(Join(ws[1..]), urls + UrlsOf(ws[0])) == Masked(each, all)
    ensures Protect(Join(ws), urls) == Masked(Join(ProtectEach(ws, |urls|)), all)
  {
    EachUnfolds(ws, |urls|);
    ProtectFirst(ws[0], Join(ws[1..]), urls, Masked(each, all));
  }

  lemma {:induction false} ProtectJoinOne(ws: seq<string>, urls: seq<string>)
    requires |ws| == 1 && SpaceFree(ws[0])
    ensures Protect(Join(ws), urls) == Masked(Join(ProtectEach(ws, |urls|)), urls + AllUrls(ws))
  {
    var w := ws[0];
    ProtectAppend(w, "", urls);
    UrlLensWithin("");
    assert w + "" == w && ProtectWord(w, |urls|) + "" == ProtectWord(w, |urls|);
    assert ProtectEach(ws[1..], |urls| + |UrlsOf(w)|) == [] && AllUrls(ws[1..]) == [];
    assert AllUrls(ws) == UrlsOf(w);
  }

  /** Words marked by whether they end in a terminal. */
  function MarkTerminal(ws: seq<string>): seq<Word>
    requires forall i :: 0 <= i < |ws| ==> ws[i] != ""
  {
    seq(|ws|, i requires 0 <= i < |ws| => Word(ws[i], IsTerminal(ws[i][|ws[i]| - 1])))
  }

  lemma {:induction false} SplitWord(cur: string, w: string, t: string)
    requires SpaceFree(w)
    ensures SplitFrom(cur, w + t) == SplitFrom(cur + w, t)
    decreases |w|
  {
    if w == "" {
      assert w + t == t && cur + w == cur;
    } else {
      assert (w + t)[0] == w[0] && (w + t)[1..] == w[1..] + t;
      SplitWord(cur + [w[0]], w[1..], t);
      assert cur + [w[0]] + w[1..] == cur + w;
    }
  }

  function Open(cur: seq<string>): string {
    if cur == [] then "" else Join(cur) + " "
  }

  lemma {:induction false} JoinSnoc(cur: seq<string>, w: string)
    ensures Join(cur + [w]) == Open(cur) + w
  {
    if |cur| > 1 {
      JoinSnoc(cur[1..], w);
      assert (cur + [w])[1..] == cur[1..] + [w];
      assert cur[0] + " " + (Join(cur[1..]) + " " + w) == (cur[0] + " " + Join(cur[1..])) + " " + w;
    } else if |cur| == 1 {
      assert (cur + [w])[1..] == [w];
    } else {
      assert cur + [w] == [w] && "" + w == w;
    }
  }

  lemma {:induction false} SplitAtSpace(c: string, r: string)
    requires c != "" && r != "" && !IsSpace(r[0])
    ensures SplitFrom(c, " " + r) == if IsTerminal(c[|c| - 1]) then [c] + SplitFrom("", r) else SplitFrom(c + " ", r)
  {
    assert (" " + r)[1..] == r;
    assert SpaceLen(r) == 0;
  }

  predicate AllWords(ws: seq<string>) {
    ws != [] && forall i :: 0 <= i < |ws| ==> IsWord(ws[i])
  }

  lemma {:induction false} JoinStart(ws: seq<string>)
    requires ws != [] && ws[0] != ""
    ensures Join(ws) != "" && Join(ws)[0] == ws[0][0]
  {
  }

  /** Reading one more word, after the open words `cur`. */
  lemma {:induction false} SplitFirst(cur: seq<string>, w: string, r: string)
    requires IsWord(w) && r != "" && !IsSpace(r[0])
    ensures SplitFrom(Open(cur), w + " " + r) ==
      if IsTerminal(w[|w| - 1]) then [Join(cur + [w])] + SplitFrom(Open([]), r) else SplitFrom(Open(cur + [w]), r)
  {
    JoinSnoc(cur, w);
    var c := Open(cur) + w;
    assert c[|c| - 1] == w[|w| - 1];
    Assoc(w, " ", r);
    SplitWord(Open(cur), w, " " + r);
    SplitAtSpace(c, r);
  }

  lemma {:induction false} SplitLast(cur: seq<string>, w: string)
    requires IsWord(w)
    ensures SplitFrom(Open(cur), w) == [Join(cur + [w])]
  {
    JoinSnoc(cur, w);
    SplitWord(Open(cur), w, "");
    assert w + "" == w;
  }

  lemma {:induction false} GroupFirst(cur: seq<string>, ws: seq<string>)
    requires AllWords(ws)
    ensures Group(cur, MarkTerminal(ws)) ==
      if IsTerminal(ws[0][|ws[0]| - 1]) then [cur + [ws[0]]] + Group([], MarkTerminal(ws[1..]))
        else Group(cur + [ws[0]], MarkTerminal(ws[1..]))
  {
    assert MarkTerminal(ws)[1..] == MarkTerminal(ws[1..]);
  }

  lemma {:induction false} LastIsGroup(cur: seq<string>, ws: seq<string>)
    requires AllWords(ws) && |ws| == 1
    ensures SplitFrom(Open(cur), Join(ws)) == JoinAll(Group(cur, MarkTerminal(ws)))
  {
    GroupFirst(cur, ws);
    SplitLast(cur, ws[0]);
    assert MarkTerminal(ws[1..]) == [];
    assert JoinAll([cur + [ws[0]]]) == [Join(cur + [ws[0]])];
  }

  /** On words with single spaces between them, splitting is grouping. */
  lemma {:induction false} SplitIsGroup(cur: seq<string>, ws: seq<string>)
    requires AllWords(ws)
    ensures SplitFrom(Open(cur), Join(ws)) == JoinAll(Group(cur, MarkTerminal(ws)))
    decreases |ws|
  {
    var w := ws[0];
    if |ws| == 1 {
      LastIsGroup(cur, ws);
    } else {
      SplitMore(cur, ws);
      GroupMore(cur, ws);
      SplitIsGroup(if IsTerminal(w[|w| - 1]) then [] else cur + [w], ws[1..]);
    }
  }

  lemma {:induction false} GroupMore(cur: seq<string>, ws: seq<string>)
    requires AllWords(ws)
    ensures JoinAll(Group(cur, MarkTerminal(ws))) ==
      if IsTerminal(ws[0][|ws[0]| - 1]) then [Join(cur + [ws[0]])] + JoinAll(Group([], MarkTerminal(ws[1..])))
      else JoinAll(Group(cur + [ws[0]], MarkTerminal(ws[1..])))
  {
    GroupFirst(cur, ws);
    JoinAllCons(cur + [ws[0]], Group([], MarkTerminal(ws[1..])));
  }

  lemma {:induction false} SplitMore(cur: seq<string>, ws: seq<string>)
    requires AllWords(ws) && |ws| > 1
    ensures AllWords(ws[1..])
    ensures SplitFrom(Open(cur), Join(ws)) ==
      if IsTerminal(ws[0][|ws[0]| - 1]) then [Join(cur + [ws[0]])] + SplitFrom(Open([]), Join(ws[1..]))
      else SplitFrom(Open(cur + [ws[0]]), Join(ws[1..]))
  {
    JoinStart(ws[1..]);
    SplitFirst(cur, ws[0], Join(ws[1..]));
  }

  lemma {:induction false} JoinAllCons(g: seq<string>, gs: seq<seq<string>>)
    ensures JoinAll([g] + gs) == [Join(g)] + JoinAll(gs)
  {
  }

  lemma {:induction false} JoinEnds(ws: seq<string>)
    requires ws != [] && forall i :: 0 <= i < |ws| ==> IsWord(ws[i])
    ensures Join(ws) != "" && !IsSpace(Join(ws)[0]) && !IsSpace(Join(ws)[|Join(ws)| - 1])
  {
    if |ws| > 1 {
      JoinEnds(ws[1..]);
      assert Join(ws)[|Join(ws)| - 1] == Join(ws[1..])[|Join(ws[1..])| - 1];
    }
  }

  /** Every group is a nonempty run of the words. */
  lemma {:induction false} GroupsOfWords(cur: seq<string>, ws: seq<Word>)
    requires forall i :: 0 <= i < |cur| ==> IsWord(cur[i])
    requires forall i :: 0 <= i < |ws| ==> IsWord(ws[i].text)
    ensures forall i :: 0 <= i < |Group(cur, ws)| ==> AllWords(Group(cur, ws)[i])
    decreases |ws|
  {
    if ws != [] {
      GroupsOfWords(if ws[0].ends then [] else cur + [ws[0].text], ws[1..]);
    }
  }

  lemma {:induction false} StripNothing(gs: seq<seq<string>>)
    requires forall i :: 0 <= i < |gs| ==> AllWords(gs[i])
    ensures StripAll(JoinAll(gs)) == JoinAll(gs)
  {
    if gs != [] {
      assert AllWords(gs[0]);
      JoinEnds(gs[0]);
      StripNothing(gs[1..]);
      assert JoinAll(gs)[1..] == JoinAll(gs[1..]);
      assert JoinAll(gs) == [Join(gs[0])] + JoinAll(gs[1..]);
    }
  }
}
