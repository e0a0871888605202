/** The masking passes of sentence splitting undo each other, except where a text spells a mark itself. */
module SentencesLossless {
  import opened Sentences
  import opened SentenceMasking

  // ----- restoring

  lemma SameDigit(i: nat, j: nat)
    requires i < 10 && j < 10 && "0123456789"[i] == "0123456789"[j]
    ensures i == j
  {
  }

  lemma {:induction false} LastDigit(a: nat)
    requires a >= 10
    ensures var s := Digits(a); |s| >= 2 && s[|s| - 1] == "0123456789"[a % 10] && s[..|s| - 1] == Digits(a / 10)
  {
  }

  lemma {:induction false} DigitsInjective(a: nat, b: nat)
    requires Digits(a) == Digits(b)
    ensures a == b
  {
    if a >= 10 { LastDigit(a); }
    if b >= 10 { LastDigit(b); }
    SameDigit(a % 10, b % 10);
    if a >= 10 && b >= 10 {
      DigitsInjective(a / 10, b / 10);
    }
  }

  lemma TokensDiffer(j: nat, k: nat, tr: string)
    requires Token(j) <= Token(k) + tr
    ensures j == k
  {
    var d, e, s := Digits(j), Digits(k), Token(k) + tr;
    assert forall i :: 0 <= i < |d| ==> Token(j)[6 + i] == d[i];
    assert forall i :: 0 <= i < |e| ==> s[6 + i] == e[i];
    assert Token(j)[6 + |d|] == '_' && s[6 + |e|] == '_';
    assert forall i :: 0 <= i < |Token(j)| ==> Token(j)[i] == s[i];
    assert |d| == |e|;
    assert d == e;
    DigitsInjective(j, k);
  }

  lemma {:induction false} ReplaceSkips(u: string, t: string, pat: string, rep: string)
    requires pat != "" && forall i :: 0 <= i < |u| ==> !(pat <= (u + t)[i..])
    ensures Replace(u + t, pat, rep) == u + Replace(t, pat, rep)
    decreases |u|
  {
    if u == "" {
      assert u + t == t;
    } else {
      assert (u + t)[0..] == u + t && (u + t)[1..] == u[1..] + t;
      assert forall i :: 0 <= i < |u| - 1 ==> (u[1..] + t)[i..] == (u + t)[i + 1..];
      ReplaceSkips(u[1..], t, pat, rep);
    }
  }

  /** A mark: two underscores and then something else. */
  predicate IsMark(pat: string) {
    |pat| >= 3 && pat[0] == '_' && pat[1] == '_' && pat[2] != '_'
  }

  /** Inside a token and its trailing punctuation, only the token itself can be a mark. */
  lemma NoMarkInToken(k: nat, tr: string, pat: string, i: nat)
    requires |tr| <= 1 && (tr != "" ==> IsTrailing(tr[0]))
    requires IsMark(pat) && (pat[2] == 'U' || pat[2] == 'D') && i < |Token(k) + tr|
    requires i > 0 || !(pat <= Token(k) + tr)
    ensures !(pat <= (Token(k) + tr)[i..])
  {
    var s, d := Token(k) + tr, Digits(k);
    assert s[0..] == s;
    if i > 0 && |pat| <= |s| - i {
      assert forall m :: 0 <= m < |d| ==> s[6 + m] == d[m];
      assert s[i..][0] == s[i] && s[i..][1] == s[i + 1] && s[i..][2] == s[i + 2];
      if i < 6 {
        assert s[1] == '_' && s[2] == 'U' && s[3] == 'R' && s[4] == 'L' && s[5] == '_';
        assert s[6] == d[0];
      }
    }
  }

  // ----- where a pattern occurs first

  /** Start of the leftmost occurrence of `pat`; the length of the text when there is none. */
  function FirstOf(s: string, pat: string): (i: nat)
    ensures i <= |s|
  {
    if s == "" || pat <= s then 0 else 1 + FirstOf(s[1..], pat)
  }

  predicate Occurs(pat: string, s: string) {
    FirstOf(s, pat) < |s|
  }

  lemma {:induction false} FirstOfHolds(s: string, pat: string)
    ensures forall i :: 0 <= i < FirstOf(s, pat) ==> !(pat <= s[i..])
    ensures FirstOf(s, pat) < |s| ==> pat <= s[FirstOf(s, pat)..]
  {
    if s != "" && !(pat <= s) {
      FirstOfHolds(s[1..], pat);
      assert s[0..] == s;
      assert forall i :: 1 <= i <= |s| ==> s[i..] == s[1..][i - 1..];
    }
  }

  lemma {:induction false} ReplaceNone(s: string, pat: string, rep: string)
    requires pat != "" && !Occurs(pat, s)
    ensures Replace(s, pat, rep) == s
  {
    if s != "" {
      ReplaceNone(s[1..], pat, rep);
    }
  }

  lemma {:induction false} ReplaceHit(s: string, pat: string, rep: string)
    requires pat != "" && Occurs(pat, s)
    ensures var i := FirstOf(s, pat);
      i + |pat| <= |s| && Replace(s, pat, rep) == s[..i] + rep + Replace(s[i + |pat|..], pat, rep)
  {
    var i := FirstOf(s, pat);
    FirstOfHolds(s, pat);
    var u, rest := s[..i], s[i..][|pat|..];
    assert s[i..] == pat + rest && s == u + (pat + rest) && s[i + |pat|..] == rest;
    ReplaceSkips(u, pat + rest, pat, rep);
    ReplaceMatch(pat, rest, rep);
    Assoc(u, rep, Replace(rest, pat, rep));
  }

  /** Replacing starts at the first occurrence. */
  lemma {:induction false} ReplaceFirst(s: string, pat: string, rep: string)
    requires pat != ""
    ensures var i := FirstOf(s, pat);
      if i == |s| then Replace(s, pat, rep) == s
      else i + |pat| <= |s| && Replace(s, pat, rep) == s[..i] + rep + Replace(s[i + |pat|..], pat, rep)
  {
    if Occurs(pat, s) {
      ReplaceHit(s, pat, rep);
    } else {
      ReplaceNone(s, pat, rep);
    }
  }

  // ----- damage: a text read with a dot or a URL where `w` has the underscore of a mark

  predicate DamagedAt(x: string, w: string, i: nat) {
    i < |x| && i < |w| && x[..i] == w[..i] && x[i] != '_' && w[i] == '_'
  }

  ghost predicate Damaged(x: string, w: string) {
    exists i: nat :: DamagedAt(x, w, i)
  }

  /** What is put in the place of a mark or a token. */
  predicate Stands(rep: string) {
    rep != "" && rep[0] != '_'
  }

  /** An occurrence where `x` still reads as `w` does damage. */
  lemma {:induction false} HitDamages(x: string, w: string, pat: string, rep: string)
    requires pat != "" && pat[0] == '_' && Stands(rep) && Occurs(pat, x)
    requires FirstOf(x, pat) < |w| && x[..FirstOf(x, pat) + 1] == w[..FirstOf(x, pat) + 1]
    ensures Damaged(Replace(x, pat, rep), w)
  {
    var i, r := FirstOf(x, pat), Replace(x, pat, rep);
    ReplaceFirst(x, pat, rep);
    FirstOfHolds(x, pat);
    assert x[..i + 1][i] == w[..i + 1][i] && x[i..][0] == x[i];
    assert r[..i] == x[..i] == x[..i + 1][..i] == w[..i + 1][..i] == w[..i];
    assert r[i] == rep[0];
    assert DamagedAt(r, w, i);
  }

  lemma {:induction false} StillDamaged(x: string, w: string, pat: string, rep: string)
    requires pat != "" && pat[0] == '_' && Stands(rep) && Damaged(x, w)
    ensures Damaged(Replace(x, pat, rep), w)
  {
    var d: nat :| DamagedAt(x, w, d);
    var i, r := FirstOf(x, pat), Replace(x, pat, rep);
    ReplaceFirst(x, pat, rep);
    FirstOfHolds(x, pat);
    if i < d {
      assert x[..i + 1] == x[..d][..i + 1] == w[..d][..i + 1] == w[..i + 1];
      HitDamages(x, w, pat, rep);
    } else if i < |x| {
      assert x[i..][0] == x[i];
      assert r[..d] == x[..d] && r[d] == x[d];
      assert DamagedAt(r, w, d);
    }
  }

  lemma DamagedDiffers(x: string, w: string)
    requires Damaged(x, w)
    ensures x != w
  {
  }

  // ----- undoing the dot marks

  /** Flagged are dots, and none of them follows an underscore or a `T`. */
  predicate Separate(s: string, flags: seq<bool>) {
    && DotsOnly(s, flags)
    && forall p :: 0 < p < |s| && flags[p] ==> s[p - 1] != '_' && s[p - 1] != 'T'
  }

  lemma SeparateTail(s: string, flags: seq<bool>)
    requires Separate(s, flags) && s != ""
    ensures Separate(s[1..], flags[1..])
  {
    forall p | 0 < p < |s| - 1 && flags[1..][p] ensures s[1..][p - 1] != '_' && s[1..][p - 1] != 'T' {
      assert flags[p + 1] && s[p + 1 - 1] == s[1..][p - 1];
    }
  }

  lemma {:induction false} AllFlagsSeparate(s: string, abbrs: seq<string>)
    requires AllShaped(abbrs)
    ensures Separate(s, AllFlags(s, abbrs))
  {
    AllFlagsDots(s, abbrs);
    forall p | 0 < p < |s| && AllFlags(s, abbrs)[p] ensures s[p - 1] != '_' && s[p - 1] != 'T' {
      var m, j := FlagLetter(s, abbrs, p);
      assert Shaped(abbrs[m]) && DotAt(abbrs[m], j);
    }
  }

  function FirstFlag(flags: seq<bool>): (n: nat)
    ensures n <= |flags| && (forall i :: 0 <= i < n ==> !flags[i]) && (n < |flags| ==> flags[n])
  {
    if flags == [] || flags[0] then 0 else 1 + FirstFlag(flags[1..])
  }

  /** A masked text up to and into its first mark. */
  lemma {:induction false} MaskFront(s: string, flags: seq<bool>, t: string)
    requires |flags| == |s|
    ensures var n := FirstFlag(flags); var x := Mask(s, flags) + t;
      && n <= |x| && x[..n] == s[..n]
      && (n == |s| ==> x == s + t)
      && (n < |s| ==> |x| >= n + 7 && x[n..n + 7] == DOT_MARK)
  {
    var n := FirstFlag(flags);
    MaskFree(s, flags, n);
    if n == |s| {
      assert s[..n] == s && Mask(s[n..], flags[n..]) == "";
    } else {
      assert flags[n..][0];
      assert Mask(s[n..], flags[n..])[..7] == DOT_MARK;
    }
  }

  /** Masked dots neither make nor hide an occurrence of the dot mark. */
  lemma {:induction false} MarkStartsAlike(s: string, flags: seq<bool>, t: string)
    requires Separate(s, flags) && s != "" && !flags[0]
    ensures DOT_MARK <= Mask(s, flags) + t <==> DOT_MARK <= s + t
  {
    var n, x := FirstFlag(flags), Mask(s, flags) + t;
    MaskFront(s, flags, t);
    if n < |s| {
      assert s[n] == '.' && (s + t)[n] == '.';
      assert s[n - 1] != '_' && s[n - 1] != 'T' && x[..n][n - 1] == s[..n][n - 1];
      assert x[n..n + 7][0] == '_' == x[n];
      FlagInMark(x, s + t, n);
    }
  }

  lemma FlagInMark(x: string, y: string, n: nat)
    requires 0 < n < |x| && n < |y| && x[..n] == y[..n]
    requires x[n] == '_' && y[n] == '.' && x[n - 1] != '_' && x[n - 1] != 'T'
    ensures DOT_MARK <= x <==> DOT_MARK <= y
  {
    if n >= 7 {
      assert x[..7] == x[..n][..7] == y[..n][..7] == y[..7];
      PrefixIsStart(DOT_MARK, x);
      PrefixIsStart(DOT_MARK, y);
    } else {
      assert !(DOT_MARK <= y) by { assert DOT_MARK[n] != '.'; }
      assert !(DOT_MARK <= x) by { assert DOT_MARK[n] == '_' ==> DOT_MARK[n - 1] == '_' || DOT_MARK[n - 1] == 'T'; }
    }
  }

  lemma PrefixIsStart(pat: string, s: string)
    ensures pat <= s <==> |pat| <= |s| && s[..|pat|] == pat
  {
  }

  /** `x` is `y`, unless `y` spells the mark; then it shows a dot where the mark first starts. */
  predicate Unmasked(x: string, y: string) {
    var i := FirstOf(y, DOT_MARK);
    if i == |y| then x == y else i < |x| && x[..i] == y[..i] && x[i] == '.'
  }

  /** Undoing the marks of a masked text gives the text back, unless it spells the mark itself. */
  lemma {:induction false} UnmaskExact(s: string, flags: seq<bool>, t: string)
    requires Separate(s, flags)
    ensures Unmasked(Replace(Mask(s, flags) + t, DOT_MARK, "."), s + t)
    decreases |s|
  {
    if s == "" {
      assert Mask(s, flags) + t == t && s + t == t;
      ReplaceFirst(t, DOT_MARK, ".");
    } else {
      SeparateTail(s, flags);
      UnmaskExact(s[1..], flags[1..], t);
      UnmaskStep(s, flags, t);
      HeadTail(s, t);
      UnmaskedCons(s[0], s[1..] + t, Replace(Mask(s[1..], flags[1..]) + t, DOT_MARK, "."),
        Replace(Mask(s, flags) + t, DOT_MARK, "."));
    }
  }

  lemma HeadTail(s: string, t: string)
    requires s != ""
    ensures s + t == [s[0]] + (s[1..] + t)
  {
  }

  lemma UnmaskedCons(c: char, y: string, rest: string, x: string)
    requires Unmasked(rest, y)
    requires if DOT_MARK <= [c] + y then x != "" && x[0] == '.' else x == [c] + rest
    ensures Unmasked(x, [c] + y)
  {
    if !(DOT_MARK <= [c] + y) {
      var i := FirstOf(y, DOT_MARK);
      assert ([c] + y)[1..] == y;
      assert FirstOf([c] + y, DOT_MARK) == i + 1;
      assert i < |y| ==> x[..i + 1] == [c] + rest[..i] && ([c] + y)[..i + 1] == [c] + y[..i];
    }
  }

  lemma {:induction false} UnmaskStep(s: string, flags: seq<bool>, t: string)
    requires s != "" && Separate(s, flags)
    ensures var x := Replace(Mask(s, flags) + t, DOT_MARK, ".");
      var rest := Replace(Mask(s[1..], flags[1..]) + t, DOT_MARK, ".");
      if DOT_MARK <= [s[0]] + (s[1..] + t) then x != "" && x[0] == '.' else x == [s[0]] + rest
  {
    var rest := Mask(s[1..], flags[1..]) + t;
    HeadTail(s, t);
    if flags[0] {
      assert Mask(s, flags) + t == DOT_MARK + rest;
      ReplaceMatch(DOT_MARK, rest, ".");
      assert (s + t)[0] == s[0] == '.';
    } else {
      assert Mask(s, flags) + t == [s[0]] + rest;
      MarkStartsAlike(s, flags, t);
      if !(DOT_MARK <= s + t) {
        ReplaceChar(s[0], rest, DOT_MARK, ".");
      }
    }
  }

  lemma {:induction false} ReplaceMatch(pat: string, rest: string, rep: string)
    requires pat != ""
    ensures Replace(pat + rest, pat, rep) == rep + Replace(rest, pat, rep)
  {
    assert (pat + rest)[|pat|..] == rest;
  }

  lemma {:induction false} ReplaceChar(c: char, rest: string, pat: string, rep: string)
    requires pat != "" && !(pat <= [c] + rest)
    ensures Replace([c] + rest, pat, rep) == [c] + Replace(rest, pat, rep)
  {
    assert ([c] + rest)[1..] == rest;
  }

  // ----- undoing the tokens

  /** No URL starts like a mark. */
  predicate AllStand(urls: seq<string>) {
    forall j :: 0 <= j < |urls| ==> Stands(urls[j])
  }

  lemma {:induction false} DamageLasts(x: string, w: string, urls: seq<string>, n: nat)
    requires AllStand(urls) && n <= |urls| && Damaged(x, w)
    ensures Damaged(RestoreTokens(x, urls, n), w)
  {
    if n > 0 {
      DamageLasts(x, w, urls, n - 1);
      TokenShape(n - 1);
      StillDamaged(RestoreTokens(x, urls, n - 1), w, Token(n - 1), urls[n - 1]);
    }
  }

  /** Either `x` is `w` and `good` holds, or `x` is damaged and it does not. */
  ghost predicate Exact(x: string, w: string, good: bool) {
    if good then x == w else Damaged(x, w)
  }

  predicate NoToken(w: string, n: nat) {
    forall j :: 0 <= j < n ==> !Occurs(Token(j), w)
  }

  lemma NoTokenStep(w: string, n: nat)
    requires n > 0
    ensures NoToken(w, n) <==> NoToken(w, n - 1) && !Occurs(Token(n - 1), w)
  {
  }

  lemma {:induction false} ReplaceExact(x: string, w: string, pat: string, rep: string, good: bool)
    requires pat != "" && pat[0] == '_' && Stands(rep) && Exact(x, w, good)
    ensures Exact(Replace(x, pat, rep), w, good && !Occurs(pat, w))
  {
    if !good {
      StillDamaged(x, w, pat, rep);
    } else if Occurs(pat, w) {
      HitDamages(w, w, pat, rep);
    } else {
      ReplaceFirst(w, pat, rep);
    }
  }

  lemma {:induction false} RestorePlain(w: string, urls: seq<string>, n: nat)
    requires AllStand(urls) && n <= |urls|
    ensures Exact(RestoreTokens(w, urls, n), w, NoToken(w, n))
  {
    if n > 0 {
      RestorePlain(w, urls, n - 1);
      TokenShape(n - 1);
      NoTokenStep(w, n);
      ReplaceExact(RestoreTokens(w, urls, n - 1), w, Token(n - 1), urls[n - 1], NoToken(w, n - 1));
    }
  }

  /** What the `j`-th replacement must meet in a word whose URL has number `k`: an earlier token does not
      occur in its protected form, its own occurs first at `i`, a later one does not occur in the word. */
  predicate TokenFits(x: string, w: string, i: nat, k: nat, j: nat) {
    if j < k then !Occurs(Token(j), x) else if j == k then FirstOf(x, Token(k)) == i else !Occurs(Token(j), w)
  }

  predicate TokensFit(x: string, w: string, i: nat, k: nat, n: nat) {
    forall j :: 0 <= j < n ==> TokenFits(x, w, i, k, j)
  }

  /** A mark other than the token itself can only start in front of the token. */
  lemma {:induction false} MarkInFront(pre: string, k: nat, tr: string, pat: string)
    requires |tr| <= 1 && (tr != "" ==> IsTrailing(tr[0])) && IsMark(pat) && (pat[2] == 'U' || pat[2] == 'D')
    requires Occurs(pat, pre + Token(k) + tr)
    ensures FirstOf(pre + Token(k) + tr, pat) < |pre| ||
      (FirstOf(pre + Token(k) + tr, pat) == |pre| && pat <= Token(k) + tr)
  {
    var x := pre + (Token(k) + tr);
    assert x == pre + Token(k) + tr;
    FirstOfHolds(x, pat);
    var i := FirstOf(x, pat);
    if i >= |pre| {
      assert x[i..] == (Token(k) + tr)[i - |pre|..];
      if i > |pre| {
        NoMarkInToken(k, tr, pat, i - |pre|);
      }
      assert (Token(k) + tr)[0..] == Token(k) + tr;
    }
  }

  lemma TokenIsNoDotMark(k: nat, tr: string)
    ensures !(DOT_MARK <= Token(k) + tr)
  {
    assert (Token(k) + tr)[2] == 'U';
  }

  lemma {:induction false} OwnTokenAtMost(pre: string, k: nat, tr: string)
    ensures FirstOf(pre + Token(k) + tr, Token(k)) <= |pre|
  {
    var x := pre + Token(k) + tr;
    TokenShape(k);
    FirstOfHolds(x, Token(k));
    Pieces(pre, Token(k), tr);
    assert x[|pre|..] == Token(k) + tr;
  }

  lemma SamePrefix(pre: string, a: string, b: string, n: nat)
    requires n <= |pre|
    ensures (pre + a)[..n] == (pre + b)[..n] == pre[..n]
  {
  }

  /** The word a protected word stands for, `pre`, a token and its punctuation in its place. */
  lemma {:induction false} TokenStep(pre: string, k: nat, tr: string, url: string, j: nat, rep: string)
    requires |tr| <= 1 && (tr != "" ==> IsTrailing(tr[0])) && Stands(rep) && (j == k ==> rep == url)
    ensures var x, w := pre + Token(k) + tr, pre + url + tr;
      && (j < k && TokenFits(x, w, |pre|, k, j) ==> Replace(x, Token(j), rep) == x)
      && (j < k && !TokenFits(x, w, |pre|, k, j) ==> Damaged(Replace(x, Token(j), rep), w))
      && (j == k ==> Exact(Replace(x, Token(j), rep), w, TokenFits(x, w, |pre|, k, j)))
      && (j > k ==> Exact(Replace(w, Token(j), rep), w, TokenFits(x, w, |pre|, k, j)))
  {
    var x, w := pre + Token(k) + tr, pre + url + tr;
    TokenShape(j);
    assert x == pre + (Token(k) + tr) && w == pre + (url + tr);
    if j > k {
      ReplaceFirst(w, Token(j), rep);
      if Occurs(Token(j), w) {
        HitDamages(w, w, Token(j), rep);
      }
    } else {
      var i := FirstOf(x, Token(j));
      ReplaceFirst(x, Token(j), rep);
      if j == k {
        OwnTokenAtMost(pre, k, tr);
      } else if i < |x| {
        MarkInFront(pre, k, tr, Token(j));
        if Token(j) <= Token(k) + tr {
          TokensDiffer(j, k, tr);
        }
      }
      if i < |pre| {
        SamePrefix(pre, Token(k) + tr, url + tr, i + 1);
        HitDamages(x, w, Token(j), rep);
      } else if j == k {
        OwnTokenReplaced(pre, k, tr, url);
      }
    }
  }

  lemma {:induction false} OwnTokenReplaced(pre: string, k: nat, tr: string, url: string)
    requires |tr| <= 1 && FirstOf(pre + Token(k) + tr, Token(k)) == |pre|
    ensures Replace(pre + Token(k) + tr, Token(k), url) == pre + url + tr
  {
    var x := pre + Token(k) + tr;
    TokenShape(k);
    ReplaceFirst(x, Token(k), url);
    Pieces(pre, Token(k), tr);
    assert x[..|pre|] == pre && x[|pre| + |Token(k)|..] == tr;
    assert !(Token(k) <= tr);
    if tr != "" {
      assert tr[1..] == "" && [tr[0]] == tr;
    }
    assert Replace(tr, Token(k), url) == tr;
  }

  lemma FitStep(x: string, w: string, i: nat, k: nat, n: nat)
    requires n > 0
    ensures TokensFit(x, w, i, k, n) <==> TokensFit(x, w, i, k, n - 1) && TokenFits(x, w, i, k, n - 1)
  {
  }

  lemma {:induction false} RestoreUrl(pre: string, k: nat, tr: string, urls: seq<string>, n: nat)
    requires AllStand(urls) && k < |urls| && n <= |urls| && |tr| <= 1 && (tr != "" ==> IsTrailing(tr[0]))
    ensures var x, w := pre + Token(k) + tr, pre + urls[k] + tr; var r := RestoreTokens(x, urls, n);
      if TokensFit(x, w, |pre|, k, n) then r == (if n <= k then x else w) else Damaged(r, w)
  {
    if n > 0 {
      var x, w, j := pre + Token(k) + tr, pre + urls[k] + tr, n - 1;
      RestoreUrl(pre, k, tr, urls, j);
      TokenShape(j);
      FitStep(x, w, |pre|, k, n);
      if TokensFit(x, w, |pre|, k, j) {
        TokenStep(pre, k, tr, urls[k], j, urls[j]);
      } else {
        StillDamaged(RestoreTokens(x, urls, j), w, Token(j), urls[j]);
      }
    }
  }

  /** What a word must not contain to come through: the dot mark, once its URL has given way to token
      `k`, and the tokens of the text's `n` URLs. */
  predicate Survives(w: string, k: nat, n: nat) {
    && !Occurs(DOT_MARK, ProtectWord(w, k))
    && if HasUrl(w) then TokensFit(ProtectWord(w, k), w, UrlStart(w), k, n) else NoToken(w, n)
  }

  lemma UrlStands(w: string)
    requires HasUrl(w)
    ensures Stands(UrlValue(w[UrlStart(w)..]))
  {
    var url := w[UrlStart(w)..];
    UrlLensAt(w, UrlStart(w));
    assert UrlLen(url) > 0 && url[0] == 'h' && |url| >= 7;
  }

  /** A masked word is restored exactly when it survives; otherwise it comes back damaged. */
  lemma RestoreWord(w: string, k: nat, abbrs: seq<string>, urls: seq<string>)
    requires AllShaped(abbrs) && AllStand(urls)
    requires HasUrl(w) ==> k < |urls| && urls[k] == UrlValue(w[UrlStart(w)..])
    ensures Exact(Restore(MaskedWord(w, k, abbrs), urls), w, Survives(w, k, |urls|))
  {
    var i := UrlStart(w);
    if i == |w| {
      RestorePlainWord(w, abbrs, urls);
    } else {
      assert w == w[..i] + w[i..];
      RestoreUrlWord(w, w[..i], w[i..], k, abbrs, urls);
    }
  }

  lemma {:induction false} RestorePlainWord(w: string, abbrs: seq<string>, urls: seq<string>)
    requires AllShaped(abbrs) && AllStand(urls)
    ensures Exact(Restore(ShieldAll(w, abbrs), urls), w, !Occurs(DOT_MARK, w) && NoToken(w, |urls|))
  {
    assert w + "" == w && ShieldAll(w, abbrs) + "" == ShieldAll(w, abbrs);
    UnmaskWord(w, "", "", abbrs);
    if Occurs(DOT_MARK, w) {
      DamageLasts(Replace(ShieldAll(w, abbrs), DOT_MARK, "."), w, urls, |urls|);
    } else {
      RestorePlain(w, urls, |urls|);
    }
  }

  /** Undoing the dot marks of a masked word, seen from a word that reads the same up to the token. */
  lemma {:induction false} UnmaskWord(pre: string, t: string, url: string, abbrs: seq<string>)
    requires AllShaped(abbrs) && ShieldAll(pre + t, abbrs) == ShieldAll(pre, abbrs) + t
    requires Occurs(DOT_MARK, pre + t) ==> FirstOf(pre + t, DOT_MARK) < |pre|
    ensures var x := Replace(ShieldAll(pre + t, abbrs), DOT_MARK, ".");
      if Occurs(DOT_MARK, pre + t) then Damaged(x, pre + url) else x == pre + t
  {
    var flags := AllFlags(pre, abbrs);
    ShieldAllMask(pre, abbrs);
    AllFlagsSeparate(pre, abbrs);
    UnmaskExact(pre, flags, t);
    var y, i := pre + t, FirstOf(pre + t, DOT_MARK);
    if i < |y| {
      FirstOfHolds(y, DOT_MARK);
      assert y[i..][0] == y[i] == '_';
      SamePrefix(pre, t, url, i);
      assert (pre + url)[i] == pre[i] == y[i];
      assert DamagedAt(Replace(ShieldAll(y, abbrs), DOT_MARK, "."), pre + url, i);
    }
  }

  lemma {:induction false} RestoreUrlWord(w: string, pre: string, url: string, k: nat, abbrs: seq<string>,
                                          urls: seq<string>)
    requires AllShaped(abbrs) && AllStand(urls) && w == pre + url
    requires k < |urls| && urls[k] == UrlValue(url)
    ensures var x := pre + Token(k) + Trailing(url);
      Exact(Restore(ShieldAll(x, abbrs), urls), w, !Occurs(DOT_MARK, x) && TokensFit(x, w, |pre|, k, |urls|))
  {
    var tr, x := Trailing(url), pre + Token(k) + Trailing(url);
    TrailingFits(url);
    assert w == pre + urls[k] + tr;
    UnmaskUrlWord(pre, url, k, abbrs);
    if Occurs(DOT_MARK, x) {
      DamageLasts(Replace(ShieldAll(x, abbrs), DOT_MARK, "."), w, urls, |urls|);
    } else {
      RestoreUrl(pre, k, tr, urls, |urls|);
    }
  }

  lemma {:induction false} ShieldAllTail(pre: string, k: nat, tr: string, abbrs: seq<string>)
    requires AllShaped(abbrs) && |tr| <= 1
    ensures ShieldAll(pre + (Token(k) + tr), abbrs) == ShieldAll(pre, abbrs) + (Token(k) + tr)
  {
    ShieldAllUrl(pre, k, tr, abbrs);
    Assoc(ShieldAll(pre, abbrs), Token(k), tr);
    Assoc(pre, Token(k), tr);
  }

  lemma {:induction false} UnmaskUrlWord(pre: string, url: string, k: nat, abbrs: seq<string>)
    requires AllShaped(abbrs)
    ensures var y := pre + Token(k) + Trailing(url); var x := Replace(ShieldAll(y, abbrs), DOT_MARK, ".");
      if Occurs(DOT_MARK, y) then Damaged(x, pre + url) else x == y
  {
    var tr := Trailing(url);
    TrailingFits(url);
    ShieldAllTail(pre, k, tr, abbrs);
    MarkBeforeToken(pre, k, tr);
    Assoc(pre, Token(k), tr);
    UnmaskWord(pre, Token(k) + tr, url, abbrs);
  }

  lemma {:induction false} MarkBeforeToken(pre: string, k: nat, tr: string)
    requires |tr| <= 1 && (tr != "" ==> IsTrailing(tr[0]))
    ensures Occurs(DOT_MARK, pre + (Token(k) + tr)) ==> FirstOf(pre + (Token(k) + tr), DOT_MARK) < |pre|
  {
    Assoc(pre, Token(k), tr);
    TokenIsNoDotMark(k, tr);
    if Occurs(DOT_MARK, pre + Token(k) + tr) {
      MarkInFront(pre, k, tr, DOT_MARK);
    }
  }

  // ----- sentences

  lemma {:induction false} RestoreSpace(r: string, urls: seq<string>, n: nat)
    requires n <= |urls|
    ensures RestoreTokens(" " + r, urls, n) == " " + RestoreTokens(r, urls, n)
  {
    if n > 0 {
      RestoreSpace(r, urls, n - 1);
      TokenShape(n - 1);
      ReplaceSpace(RestoreTokens(r, urls, n - 1), Token(n - 1), urls[n - 1]);
    }
  }

  lemma {:induction false} ReplaceSpace(r: string, pat: string, rep: string)
    requires pat != "" && pat[0] != ' '
    ensures Replace(" " + r, pat, rep) == " " + Replace(r, pat, rep)
  {
    assert (" " + r)[1..] == r;
  }

  lemma RestoreAppend(a: string, r: string, urls: seq<string>)
    ensures Restore(a + " " + r, urls) == Restore(a, urls) + " " + Restore(r, urls)
  {
    Assoc(a, " ", r);
    ReplaceAppend(a, " " + r, DOT_MARK, ".");
    ReplaceSpace(r, DOT_MARK, ".");
    var a', r' := Replace(a, DOT_MARK, "."), Replace(r, DOT_MARK, ".");
    RestoreTokensAppend(a', " " + r', urls, |urls|);
    RestoreSpace(r', urls, |urls|);
    Assoc(Restore(a, urls), " ", Restore(r, urls));
  }

  /** A masked group, restored as one string, is the group of the restored words. */
  lemma {:induction false} RestoreJoin(ms: seq<string>, urls: seq<string>)
    requires ms != []
    ensures Restore(Join(ms), urls) == Join(RestoreAll(ms, urls))
  {
    if |ms| > 1 {
      RestoreJoin(ms[1..], urls);
      RestoreAppend(ms[0], Join(ms[1..]), urls);
      assert RestoreAll(ms, urls)[1..] == RestoreAll(ms[1..], urls);
    }
  }

  function RestoreWords(ws: seq<Word>, urls: seq<string>): (r: seq<Word>)
    ensures |r| == |ws|
  {
    seq(|ws|, i requires 0 <= i < |ws| => Word(Restore(ws[i].text, urls), ws[i].ends))
  }

  function RestoreGroups(gs: seq<seq<string>>, urls: seq<string>): seq<seq<string>> {
    seq(|gs|, i requires 0 <= i < |gs| => RestoreAll(gs[i], urls))
  }

  lemma RestoreSnoc(cur: seq<string>, w: string, urls: seq<string>)
    ensures RestoreAll(cur + [w], urls) == RestoreAll(cur, urls) + [Restore(w, urls)]
  {
  }

  /** Restoring the words of each group is grouping the restored words. */
  lemma {:induction false} GroupsRestore(cur: seq<string>, ms: seq<Word>, urls: seq<string>)
    ensures RestoreGroups(Group(cur, ms), urls) == Group(RestoreAll(cur, urls), RestoreWords(ms, urls))
    decreases |ms|
  {
    if ms == [] {
      assert RestoreAll([], urls) == [];
    } else {
      var cur' := cur + [ms[0].text];
      RestoreSnoc(cur, ms[0].text, urls);
      assert RestoreWords(ms, urls)[1..] == RestoreWords(ms[1..], urls);
      if ms[0].ends {
        GroupsRestore([], ms[1..], urls);
        assert RestoreAll([], urls) == [];
        assert RestoreGroups([cur'] + Group([], ms[1..]), urls) == [RestoreAll(cur', urls)]
          + RestoreGroups(Group([], ms[1..]), urls);
      } else {
        GroupsRestore(cur', ms[1..], urls);
      }
    }
  }

  function MaskEach(ws: seq<string>, k: nat, abbrs: seq<string>): (r: seq<string>)
    requires AllShaped(abbrs)
    ensures |r| == |ws|
  {
    ShieldEach(ProtectEach(ws, k), abbrs)
  }

  lemma {:induction false} UrlsSplit(ws: seq<string>, k: nat, urls: seq<string>)
    requires ws != [] && k <= |urls| && urls[k..] == AllUrls(ws)
    ensures k + |UrlsOf(ws[0])| <= |urls| && urls[k + |UrlsOf(ws[0])|..] == AllUrls(ws[1..])
    ensures UrlsOf(ws[0]) != [] ==> k < |urls| && urls[k] == UrlsOf(ws[0])[0]
  {
    var us := UrlsOf(ws[0]);
    Pieces(us, AllUrls(ws[1..]), []);
    assert us + AllUrls(ws[1..]) + [] == urls[k..];
    assert urls[k + |us|..] == urls[k..][|us|..];
    assert us != [] ==> urls[k] == urls[k..][0];
  }

  lemma MaskEachStep(ws: seq<string>, k: nat, abbrs: seq<string>)
    requires AllShaped(abbrs) && ws != []
    ensures MaskEach(ws, k, abbrs) == [MaskedWord(ws[0], k, abbrs)] + MaskEach(ws[1..], k + |UrlsOf(ws[0])|, abbrs)
  {
    assert ProtectEach(ws, k)[1..] == ProtectEach(ws[1..], k + |UrlsOf(ws[0])|);
  }

  ghost predicate EachEndsLike(ms: seq<string>, ws: seq<string>, abbrs: seq<string>) {
    |ms| == |ws| && forall i :: 0 <= i < |ws| ==> EndsLike(ms[i], ws[i], abbrs)
  }

  lemma {:induction false} ShieldEachAt(ws: seq<string>, abbrs: seq<string>, i: nat)
    requires AllShaped(abbrs) && i < |ws|
    ensures ShieldEach(ws, abbrs)[i] == ShieldAll(ws[i], abbrs)
  {
    if i > 0 {
      ShieldEachAt(ws[1..], abbrs, i - 1);
    }
  }

  lemma {:induction false} ProtectEachAt(ws: seq<string>, k: nat, i: nat) returns (n: nat)
    requires i < |ws|
    ensures ProtectEach(ws, k)[i] == ProtectWord(ws[i], n)
  {
    n := k;
    if i > 0 {
      n := ProtectEachAt(ws[1..], k + |UrlsOf(ws[0])|, i - 1);
    }
  }

  /** Word by word: masked words are words and show their closing marks. */
  lemma MaskEachEnds(ws: seq<string>, k: nat, abbrs: seq<string>)
    requires Independent(abbrs) && forall i :: 0 <= i < |ws| ==> IsWord(ws[i])
    ensures EachEndsLike(MaskEach(ws, k, abbrs), ws, abbrs)
  {
    forall i | 0 <= i < |ws| ensures EndsLike(MaskEach(ws, k, abbrs)[i], ws[i], abbrs) {
      var n := ProtectEachAt(ws, k, i);
      ShieldEachAt(ProtectEach(ws, k), abbrs, i);
      MaskedWordEnds(ws[i], n, abbrs);
    }
  }

  /** The words of a text survive, the URLs of the first of them numbered from `k`. */
  predicate AllSurvive(ws: seq<string>, k: nat, n: nat) {
    ws == [] || (Survives(ws[0], k, n) && AllSurvive(ws[1..], k + |UrlsOf(ws[0])|, n))
  }

  predicate TextSurvives(text: string) {
    AllSurvive(Words(text), 0, |AllUrls(Words(text))|)
  }

  lemma {:induction false} UrlsStand(ws: seq<string>)
    ensures AllStand(AllUrls(ws))
  {
    if ws != [] {
      UrlsStand(ws[1..]);
      if HasUrl(ws[0]) {
        UrlStands(ws[0]);
      }
      StandConcat(UrlsOf(ws[0]), AllUrls(ws[1..]));
    }
  }

  lemma StandConcat(a: seq<string>, b: seq<string>)
    requires AllStand(a) && AllStand(b)
    ensures AllStand(a + b)
  {
  }

  lemma {:induction false} JoinCons(w: string, ws: seq<string>)
    ensures Join([w] + ws) == if ws == [] then w else w + " " + Join(ws)
  {
    assert ([w] + ws)[1..] == ws;
  }

  lemma DamageShifts(a: string, x: string, w: string)
    requires Damaged(x, w)
    ensures Damaged(a + x, a + w)
  {
    var i: nat :| DamagedAt(x, w, i);
    assert (a + x)[..|a| + i] == a + x[..i] && (a + w)[..|a| + i] == a + w[..i];
    assert DamagedAt(a + x, a + w, |a| + i);
  }

  lemma DamageStays(x: string, w: string, b: string, c: string)
    requires Damaged(x, w)
    ensures Damaged(x + b, w + c)
  {
    var i: nat :| DamagedAt(x, w, i);
    SamePrefix(x, b, b, i);
    SamePrefix(w, c, c, i);
    assert DamagedAt(x + b, w + c, i);
  }

  lemma RestoreStep(ws: seq<string>, k: nat, abbrs: seq<string>, urls: seq<string>)
    requires AllShaped(abbrs) && ws != []
    ensures RestoreAll(MaskEach(ws, k, abbrs), urls) ==
            [Restore(MaskedWord(ws[0], k, abbrs), urls)]
              + RestoreAll(MaskEach(ws[1..], k + |UrlsOf(ws[0])|, abbrs), urls)
  {
    MaskEachStep(ws, k, abbrs);
    RestoreCons(MaskedWord(ws[0], k, abbrs), MaskEach(ws[1..], k + |UrlsOf(ws[0])|, abbrs), urls);
  }

  lemma RestoreCons(m: string, ms: seq<string>, urls: seq<string>)
    ensures RestoreAll([m] + ms, urls) == [Restore(m, urls)] + RestoreAll(ms, urls)
  {
  }

  /** The words `rs` and `ws`, one by one and joined, are the same, or the joined ones differ by damage. */
  ghost predicate ComeBack(rs: seq<string>, ws: seq<string>, good: bool) {
    |rs| == |ws| && Exact(Join(rs), Join(ws), good) && (good ==> rs == ws)
  }

  lemma {:induction false} RestoreHead(ws: seq<string>, k: nat, abbrs: seq<string>, urls: seq<string>)
    requires AllShaped(abbrs) && AllStand(urls) && ws != [] && k <= |urls| && urls[k..] == AllUrls(ws)
    ensures Exact(Restore(MaskedWord(ws[0], k, abbrs), urls), ws[0], Survives(ws[0], k, |urls|))
  {
    UrlsSplit(ws, k, urls);
    RestoreWord(ws[0], k, abbrs, urls);
  }

  /** All words come back exactly when every one of them survives. */
  lemma {:induction false} RestoredEach(ws: seq<string>, k: nat, abbrs: seq<string>, urls: seq<string>)
    requires AllShaped(abbrs) && AllStand(urls) && k <= |urls| && urls[k..] == AllUrls(ws)
    ensures ComeBack(RestoreAll(MaskEach(ws, k, abbrs), urls), ws, AllSurvive(ws, k, |urls|))
  {
    if ws == [] {
      assert RestoreAll(MaskEach(ws, k, abbrs), urls) == [];
    } else {
      UrlsSplit(ws, k, urls);
      RestoredEach(ws[1..], k + |UrlsOf(ws[0])|, abbrs, urls);
      RestoredMore(ws, k, abbrs, urls, RestoreAll(MaskEach(ws[1..], k + |UrlsOf(ws[0])|, abbrs), urls));
    }
  }

  lemma RestoredMore(ws: seq<string>, k: nat, abbrs: seq<string>, urls: seq<string>,
                     rest: seq<string>)
    requires AllShaped(abbrs) && AllStand(urls) && ws != [] && k <= |urls| && urls[k..] == AllUrls(ws)
    requires rest == RestoreAll(MaskEach(ws[1..], k + |UrlsOf(ws[0])|, abbrs), urls)
    requires ComeBack(rest, ws[1..], AllSurvive(ws[1..], k + |UrlsOf(ws[0])|, |urls|))
    ensures ComeBack(RestoreAll(MaskEach(ws, k, abbrs), urls), ws, AllSurvive(ws, k, |urls|))
  {
    RestoreHead(ws, k, abbrs, urls);
    RestoreStep(ws, k, abbrs, urls);
    FirstComesBack(Restore(MaskedWord(ws[0], k, abbrs), urls), rest, ws, Survives(ws[0], k, |urls|),
                   AllSurvive(ws[1..], k + |UrlsOf(ws[0])|, |urls|));
  }

  lemma FirstComesBack(r: string, rest: seq<string>, ws: seq<string>, first: bool, others: bool)
    requires ws != [] && Exact(r, ws[0], first) && ComeBack(rest, ws[1..], others)
    ensures ComeBack([r] + rest, ws, first && others)
  {
    JoinCons(r, rest);
    JoinCons(ws[0], ws[1..]);
    assert ws == [ws[0]] + ws[1..];
    if !first {
      if rest != [] {
        Assoc(r, " ", Join(rest));
        Assoc(ws[0], " ", Join(ws[1..]));
        DamageStays(r, ws[0], " " + Join(rest), " " + Join(ws[1..]));
      }
    } else if !others {
      DamageShifts(r + " ", Join(rest), Join(ws[1..]));
    }
  }

  /** Words `rs` in place of the words `ws`, with the closing marks of the latter. */
  function MarkedLike(abbrs: seq<string>, ws: seq<string>, rs: seq<string>): seq<Word>
    requires |rs| == |ws|
  {
    seq(|ws|, i requires 0 <= i < |ws| => Word(rs[i], EndsSentence(abbrs, ws[i])))
  }

  /** Whatever the text: its parts are the restored words, grouped by the closing marks of the words. */
  lemma SplitWithIsGrouping(abbrs: seq<string>, text: string) returns (rs: seq<string>)
    requires Independent(abbrs) && NonEmpty(abbrs)
    ensures ComeBack(rs, Words(text), TextSurvives(text))
    ensures SplitWith(abbrs, text) == JoinAll(Group([], MarkedLike(abbrs, Words(text), rs)))
  {
    var ws := Words(text);
    var urls, ms := AllUrls(ws), MaskEach(ws, 0, abbrs);
    assert [] + urls == urls && urls[0..] == urls;
    UrlsStand(ws);
    RestoredEach(ws, 0, abbrs, urls);
    rs := RestoreAll(ms, urls);
    if ws != [] {
      JoinEnds(ws);
      ProtectJoin(ws, []);
      ShieldAllJoin(ProtectEach(ws, 0), abbrs);
      MaskEachEnds(ws, 0, abbrs);
      PartsAreGroups(ms);
      GroupingRestored(abbrs, ws, ms, urls);
      assert Protect(Join(ws), []).urls == urls;
    }
  }

  lemma {:induction false} PartsAreGroups(ms: seq<string>)
    requires AllWords(ms)
    ensures StripAll(SplitFrom("", Join(ms))) == JoinAll(Group([], MarkTerminal(ms)))
  {
    SplitIsGroup([], ms);
    GroupsOfWords([], MarkTerminal(ms));
    StripNothing(Group([], MarkTerminal(ms)));
  }

  lemma GroupingRestored(abbrs: seq<string>, ws: seq<string>, ms: seq<string>, urls: seq<string>)
    requires EachEndsLike(ms, ws, abbrs)
    ensures RestoreAll(JoinAll(Group([], MarkTerminal(ms))), urls) ==
            JoinAll(Group([], MarkedLike(abbrs, ws, RestoreAll(ms, urls))))
  {
    var marked := MarkTerminal(ms);
    var gs := Group([], marked);
    GroupsRestore([], marked, urls);
    assert RestoreAll([], urls) == [];
    assert RestoreWords(marked, urls) == MarkedLike(abbrs, ws, RestoreAll(ms, urls));
    GroupsOfWords([], marked);
    forall g | 0 <= g < |gs| ensures Restore(Join(gs[g]), urls) == Join(RestoreAll(gs[g], urls)) {
      assert AllWords(gs[g]);
      RestoreJoin(gs[g], urls);
    }
    assert RestoreAll(JoinAll(gs), urls) == JoinAll(RestoreGroups(gs, urls));
  }

  // ----- the theorems for the abbreviations in use

  lemma AbbreviationsIndependent()
    ensures Independent(ABBREVIATIONS) && NonEmpty(ABBREVIATIONS)
  {
    forall n | 0 <= n < |ABBREVIATIONS| ensures NoOverlap(ABBREVIATIONS[n]) {
      AbbreviationNoOverlap(n);
    }
    forall n | 0 <= n < |ABBREVIATIONS| ensures Undisturbed(ABBREVIATIONS, n) {
      AbbreviationUndisturbed(n);
    }
  }

  lemma AbbreviationNoOverlap(n: nat)
    requires n < |ABBREVIATIONS|
    ensures NoOverlap(ABBREVIATIONS[n])
  {
    var a := ABBREVIATIONS[n];
    forall q | 0 < q < |a| ensures Clashes(a, q) {
      if a[|a| - 1 - q] != '.' {
        assert a[|a| - 1] != a[|a| - 1 - q];
      } else {
        assert q == 2 && |a| == 4;
        assert a[2] != a[0];
      }
    }
  }

  lemma AbbreviationUndisturbed(n: nat)
    requires n < |ABBREVIATIONS|
    ensures Undisturbed(ABBREVIATIONS, n)
  {
    var abbrs := ABBREVIATIONS;
    forall m | 0 <= m < n ensures Spares(abbrs[m], abbrs[n]) {
      forall i, j | DotAt(abbrs[n], i) && i < |abbrs[n]| - 1 && DotAt(abbrs[m], j)
        ensures abbrs[m][j - 1] != abbrs[n][i - 1]
      {
        InnerDots(n, i);
        DotLetters(m, j);
      }
    }
  }

  lemma InnerDots(n: nat, i: nat)
    requires n < |ABBREVIATIONS| && 1 <= i < |ABBREVIATIONS[n]| - 1 && ABBREVIATIONS[n][i] == '.'
    ensures n == 0 || (n == 1 && ABBREVIATIONS[n][i - 1] == 'i') || (n == 10 && ABBREVIATIONS[n][i - 1] == 'u')
  {
  }

  lemma DotLetters(m: nat, j: nat)
    requires m < 10 && 1 <= j < |ABBREVIATIONS[m]| && ABBREVIATIONS[m][j] == '.'
    ensures ABBREVIATIONS[m][j - 1] != 'u' && (m == 0 ==> ABBREVIATIONS[m][j - 1] != 'i')
  {
  }

  /** A text is split exactly after the words that close a sentence if and only if all words survive. */
  lemma SplitTextIsSentences(text: string)
    ensures SplitText(text) == SentencesOf(text) <==> TextSurvives(text)
  {
    AbbreviationsIndependent();
    var ws := Words(text);
    var rs := SplitWithIsGrouping(ABBREVIATIONS, text);
    if TextSurvives(text) {
      assert MarkedLike(ABBREVIATIONS, ws, rs) == Marked(ABBREVIATIONS, ws);
    } else {
      SplitTextIsLossless(text);
      SentencesJoin(text);
    }
  }

  lemma {:induction false} SentencesJoin(text: string)
    ensures Join(SentencesOf(text)) == Join(Words(text))
  {
    var ws := Words(text);
    MarkedJoin(ABBREVIATIONS, ws, ws);
    assert Marked(ABBREVIATIONS, ws) == MarkedLike(ABBREVIATIONS, ws, ws);
  }

  lemma {:induction false} MarkedJoin(abbrs: seq<string>, ws: seq<string>, rs: seq<string>)
    requires |rs| == |ws|
    ensures Join(JoinAll(Group([], MarkedLike(abbrs, ws, rs)))) == Join(rs)
  {
    var marked := MarkedLike(abbrs, ws, rs);
    GroupsJoin([], marked);
    assert [] + seq(|marked|, i requires 0 <= i < |marked| => marked[i].text) == rs;
  }

  lemma {:induction false} GroupsJoin(cur: seq<string>, ws: seq<Word>)
    ensures Join(JoinAll(Group(cur, ws))) == Join(cur + seq(|ws|, i requires 0 <= i < |ws| => ws[i].text))
    decreases |ws|
  {
    var texts := seq(|ws|, i requires 0 <= i < |ws| => ws[i].text);
    if ws == [] {
      assert cur + texts == cur;
      assert JoinAll([cur]) == [Join(cur)];
    } else {
      var cur', rest := cur + [ws[0].text], texts[1..];
      assert rest == seq(|ws[1..]|, i requires 0 <= i < |ws[1..]| => ws[1..][i].text);
      assert cur + texts == cur' + rest;
      if ws[0].ends {
        GroupsJoin([], ws[1..]);
        assert [] + rest == rest;
        JoinAllCons(cur', Group([], ws[1..]));
        EmptyGroups(ws[1..]);
        JoinConcat(cur', rest);
      } else {
        GroupsJoin(cur', ws[1..]);
      }
    }
  }

  lemma {:induction false} EmptyGroups(ws: seq<Word>)
    ensures Group([], ws) == [] <==> ws == []
  {
    if ws != [] {
      assert [] + [ws[0].text] == [ws[0].text];
      GroupNonempty([ws[0].text], ws[1..]);
    }
  }

  lemma {:induction false} GroupNonempty(cur: seq<string>, ws: seq<Word>)
    requires cur != []
    ensures Group(cur, ws) != []
    decreases |ws|
  {
    if ws != [] && !ws[0].ends {
      GroupNonempty(cur + [ws[0].text], ws[1..]);
    }
  }

  lemma {:induction false} JoinConcat(a: seq<string>, b: seq<string>)
    requires a != []
    ensures Join(a + b) == if b == [] then Join(a) else Join(a) + " " + Join(b)
  {
    if b == [] {
      assert a + b == a;
    } else if |a| == 1 {
      assert (a + b)[1..] == b;
    } else {
      assert (a + b)[1..] == a[1..] + b;
      JoinConcat(a[1..], b);
      assert a[0] + " " + (Join(a[1..]) + " " + Join(b)) == (a[0] + " " + Join(a[1..])) + " " + Join(b);
    }
  }

  /** The sentences, joined by spaces, are the whitespace-normalised text if and only if all words survive. */
  lemma {:induction false} SplitTextIsLossless(text: string)
    ensures Join(SplitText(text)) == Join(Words(text)) <==> TextSurvives(text)
  {
    AbbreviationsIndependent();
    var rs := SplitWithIsGrouping(ABBREVIATIONS, text);
    MarkedJoin(ABBREVIATIONS, Words(text), rs);
    if !TextSurvives(text) {
      DamagedDiffers(Join(rs), Join(Words(text)));
    }
  }

  // ----- texts that survive

  lemma {:induction false} OccursAppend(a: string, t: string, pat: string)
    requires pat != "" && SpaceFree(pat) && (t == "" || IsSpace(t[0]))
    ensures Occurs(pat, a + t) <==> Occurs(pat, a) || Occurs(pat, t)
    decreases |a|
  {
    if a == "" {
      assert a + t == t;
    } else {
      assert (a + t)[1..] == a[1..] + t;
      OccursAppend(a[1..], t, pat);
      if |pat| > |a| && t != "" {
        assert (a + t)[|a|] == t[0];
      }
      PrefixIsStart(pat, a);
      PrefixIsStart(pat, a + t);
      if |pat| <= |a| {
        SamePrefix(a, t, "", |pat|);
      }
      assert pat <= a + t <==> pat <= a;
    }
  }

  predicate InSomeWord(pat: string, ws: seq<string>) {
    ws != [] && (Occurs(pat, ws[0]) || InSomeWord(pat, ws[1..]))
  }

  /** A mark occurs in a text exactly when it occurs in one of its words. */
  lemma {:induction false} OccursInWord(s: string, pat: string)
    requires pat != "" && SpaceFree(pat)
    ensures Occurs(pat, s) <==> InSomeWord(pat, Words(s))
    decreases |s|
  {
    if s != "" {
      if IsSpace(s[0]) {
        OccursInWord(s[1..], pat);
        assert Occurs(pat, s) <==> Occurs(pat, s[1..]);
      } else {
        var n := WordLen(s);
        WordLenFacts(s);
        OccursInWord(s[n..], pat);
        assert s == s[..n] + s[n..];
        OccursAppend(s[..n], s[n..], pat);
        assert Words(s)[1..] == Words(s[n..]);
      }
    }
  }

  lemma PlainWordSurvives(w: string, k: nat)
    requires !HasUrl(w)
    ensures UrlsOf(w) == [] && (Survives(w, k, 0) <==> !Occurs(DOT_MARK, w))
  {
  }

  predicate AllPlain(ws: seq<string>) {
    forall i :: 0 <= i < |ws| ==> !HasUrl(ws[i])
  }

  lemma {:induction false} PlainSurvives(ws: seq<string>, k: nat)
    requires AllPlain(ws)
    ensures AllUrls(ws) == []
    ensures AllSurvive(ws, k, 0) <==> !InSomeWord(DOT_MARK, ws)
  {
    if ws != [] {
      assert AllPlain(ws[1..]);
      PlainSurvives(ws[1..], k);
      PlainWordSurvives(ws[0], k);
    }
  }

  /** Without URLs, a text comes through exactly when it does not spell the dot mark. */
  lemma {:induction false} SurvivesWithoutUrls(text: string)
    requires AllPlain(Words(text))
    ensures TextSurvives(text) <==> !Occurs(DOT_MARK, text)
    ensures Join(SplitText(text)) == Join(Words(text)) <==> !Occurs(DOT_MARK, text)
  {
    SplitTextIsLossless(text);
    PlainSurvives(Words(text), 0);
    MarkIsWord();
    OccursInWord(text, DOT_MARK);
  }

  lemma MarkIsWord()
    ensures IsWord(DOT_MARK)
  {
  }

  lemma {:induction false} NoMarkInWords(s: string)
    requires NoMark(s)
    ensures forall i :: 0 <= i < |Words(s)| ==> NoMark(Words(s)[i])
    decreases |s|
  {
    if s != "" {
      if IsSpace(s[0]) {
        NoMarkInWords(s[1..]);
      } else {
        var n := WordLen(s);
        NoMarkInWords(s[n..]);
        assert NoMark(s[..n]);
      }
    }
  }

  /** Plain text in front of a token or the end holds no mark. */
  lemma PlainFirst(pre: string, t: string, pat: string)
    requires NoMark(pre) && IsMark(pat) && (t == "" || (|t| >= 2 && t[0] == '_' && t[1] == '_'))
    ensures forall i :: 0 <= i < |pre| ==> !(pat <= (pre + t)[i..])
  {
    forall i | 0 <= i < |pre| ensures !(pat <= (pre + t)[i..]) {
      var s := (pre + t)[i..];
      if |pat| <= |s| {
        assert s[0] == pre[i] && s[1] == (pre + t)[i + 1] && s[2] == (pre + t)[i + 2];
      }
    }
  }

  lemma NotInPlain(w: string, pat: string)
    requires NoMark(w) && IsMark(pat)
    ensures !Occurs(pat, w)
  {
    PlainFirst(w, "", pat);
    assert w + "" == w;
    FirstOfHolds(w, pat);
  }

  lemma {:induction false} FirstInPlain(pre: string, k: nat, tr: string, pat: string)
    requires NoMark(pre) && IsMark(pat)
    ensures FirstOf(pre + Token(k) + tr, pat) >= |pre|
  {
    TokenShape(k);
    assert pre + (Token(k) + tr) == pre + Token(k) + tr;
    PlainFirst(pre, Token(k) + tr, pat);
    FirstOfHolds(pre + Token(k) + tr, pat);
    Pieces(pre, Token(k), tr);
  }

  lemma NoMarkSurvives(w: string, k: nat, n: nat)
    requires NoMark(w)
    ensures Survives(w, k, n)
  {
    forall j: nat ensures !Occurs(Token(j), w) {
      TokenShape(j);
      NotInPlain(w, Token(j));
    }
    NotInPlain(w, DOT_MARK);
    if HasUrl(w) {
      var i := UrlStart(w);
      var pre, tr := w[..i], Trailing(w[i..]);
      var x := pre + Token(k) + tr;
      TrailingFits(w[i..]);
      FirstInPlain(pre, k, tr, DOT_MARK);
      TokenIsNoDotMark(k, tr);
      if Occurs(DOT_MARK, x) {
        MarkInFront(pre, k, tr, DOT_MARK);
      }
      forall j: nat | j < n ensures TokenFits(x, w, i, k, j) {
        TokenShape(j);
        FirstInPlain(pre, k, tr, Token(j));
        OwnTokenAtMost(pre, k, tr);
        if j < k && Occurs(Token(j), x) {
          MarkInFront(pre, k, tr, Token(j));
          TokensDiffer(j, k, tr);
        }
      }
    }
  }

  lemma {:induction false} AllNoMarkSurvive(ws: seq<string>, k: nat, n: nat)
    requires forall i :: 0 <= i < |ws| ==> NoMark(ws[i])
    ensures AllSurvive(ws, k, n)
  {
    if ws != [] {
      NoMarkSurvives(ws[0], k, n);
      AllNoMarkSurvive(ws[1..], k + |UrlsOf(ws[0])|, n);
    }
  }

  /** Text without double underscores comes through, whatever its URLs. */
  lemma SurvivesWithoutUnderscores(text: string)
    requires NoMark(text)
    ensures TextSurvives(text)
  {
    NoMarkInWords(text);
    AllNoMarkSurvive(Words(text), 0, |AllUrls(Words(text))|);
  }

  // ----- words that do not come through

  lemma {:induction false} UrlAfter(pre: string, t: string)
    requires 'h' !in pre
    ensures FirstUrl(UrlLens(pre + t)) == |pre| + FirstUrl(UrlLens(t))
  {
    if pre == "" {
      assert pre + t == t;
    } else {
      assert pre[0] in pre && UrlLen(pre + t) == 0;
      assert (pre + t)[1..] == pre[1..] + t;
      UrlAfter(pre[1..], t);
      assert UrlLens(pre + t)[1..] == UrlLens(pre[1..] + t);
    }
  }

  lemma {:induction false} OneWord(w: string)
    requires IsWord(w)
    ensures Words(w) == [w]
  {
    WordLenOfWord(w);
    var rest := w[|w|..];
    assert w[..|w|] == w && rest == "" && Words(rest) == [];
  }

  lemma OneSurvives(w: string)
    requires IsWord(w)
    ensures TextSurvives(w) <==> Survives(w, 0, |UrlsOf(w)|)
  {
    OneWord(w);
    var none: seq<string> := [w][1..];
    assert none == [] && AllUrls(none) == [];
    assert AllUrls([w]) == UrlsOf(w) + AllUrls(none) == UrlsOf(w);
    assert AllSurvive(none, |UrlsOf(w)|, |UrlsOf(w)|);
  }

  lemma NoUrlWithoutH(w: string)
    requires 'h' !in w
    ensures !HasUrl(w)
  {
    UrlAfter(w, "");
    assert w + "" == w;
  }

  /** A word that spells the dot mark is lost; a word with an `h` could hold it in a URL. */
  lemma MarkIsLost(w: string)
    requires IsWord(w) && 'h' !in w
    ensures TextSurvives(w) <==> !Occurs(DOT_MARK, w)
  {
    OneSurvives(w);
    NoUrlWithoutH(w);
  }

  /** The token of a URL completes a dot mark that the word does not contain. */
  lemma TokenCompletesMark(url: string)
    requires IsWord(url) && UrlLen(url) > 0
    ensures !TextSurvives("__DOT" + url)
  {
    var pre := "__DOT";
    var w := pre + url;
    FrontedWord(pre, url);
    OneSurvives(w);
    UrlAfter(pre, url);
    TokenShape(0);
    assert w[..5] == pre;
    MarkAtToken(0, Trailing(w[5..]));
  }

  lemma MarkAtToken(k: nat, tr: string)
    ensures Occurs(DOT_MARK, "__DOT" + Token(k) + tr)
  {
    var x := "__DOT" + Token(k) + tr;
    assert DOT_MARK <= x;
  }

  lemma FrontedWord(pre: string, url: string)
    requires SpaceFree(pre) && IsWord(url)
    ensures IsWord(pre + url)
  {
    var w := pre + url;
    assert forall i :: 0 <= i < |w| ==> w[i] == if i < |pre| then pre[i] else url[i - |pre|];
  }
}
