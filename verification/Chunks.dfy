/** Greedy chunking at sentence boundaries, with an overlap built backwards. */
module Chunks {
  import opened Sentences
  import opened SentenceSplitter
  import Lossless = SentencesLossless

  const CHARS_PER_TOKEN := 4

  /** A chunk as the range of sentences it holds. */
  datatype Window = Window(lo: nat, hi: nat)

  function JoinedLen(ss: seq<string>, lo: nat, hi: nat): nat
    requires lo <= hi <= |ss|
  {
    |Join(ss[lo..hi])|
  }

  /** The windows run over all sentences in order; neighbours touch, or share sentences when an overlap is asked for. */
  ghost predicate Covers(n: nat, overlap: int, ws: seq<Window>) {
    && ws != [] && ws[0].lo == 0 && ws[|ws| - 1].hi == n
    && (forall i :: 0 <= i < |ws| ==> ws[i].lo < ws[i].hi <= n)
    && (forall i {:trigger Advances(overlap, ws, i)} :: 0 <= i < |ws| - 1 ==> Advances(overlap, ws, i))
  }

  ghost predicate Advances(overlap: int, ws: seq<Window>, i: nat)
    requires i + 1 < |ws|
  {
    && ws[i].lo <= ws[i + 1].lo && ws[i].hi < ws[i + 1].hi
    && if overlap > 0 then ws[i + 1].lo < ws[i].hi else ws[i + 1].lo == ws[i].hi
  }

  /** A window is closed only when the next sentence would pass the limit. */
  ghost predicate CutWhenFull(ss: seq<string>, limit: int, ws: seq<Window>) {
    forall i :: 0 <= i < |ws| - 1 ==> Overfull(ss, limit, ws[i])
  }

  ghost predicate Overfull(ss: seq<string>, limit: int, w: Window) {
    w.lo < w.hi < |ss| && JoinedLen(ss, w.lo, w.hi + 1) > limit
  }

  /** Sentences every window must take: its carry and one more. */
  function Forced(ws: seq<Window>, i: nat): nat
    requires i < |ws|
  {
    if i == 0 then 1 else ws[i - 1].hi + 1
  }

  /** Beyond the forced sentences, a window grows only within the limit. */
  ghost predicate GrowsWithin(ss: seq<string>, limit: int, ws: seq<Window>) {
    forall i, k :: 0 <= i < |ws| && Forced(ws, i) < k <= ws[i].hi ==> Fits(ss, limit, ws[i].lo, k)
  }

  ghost predicate Fits(ss: seq<string>, limit: int, lo: nat, k: nat) {
    lo <= k <= |ss| && JoinedLen(ss, lo, k) <= limit
  }

  /** The carry is the last sentence, and as many before it as fit the overlap. */
  ghost predicate Carried(ss: seq<string>, lo: nat, hi: nat, overlap: int, from: nat) {
    && lo <= from < hi <= |ss|
    && (JoinedLen(ss, from, hi) <= overlap || from == hi - 1)
    && (lo < from ==> JoinedLen(ss, from - 1, hi) > overlap)
  }

  ghost predicate Carries(ss: seq<string>, overlap: int, ws: seq<Window>) {
    overlap > 0 ==> forall i {:trigger CarriesOver(ss, overlap, ws, i)} :: 0 <= i < |ws| - 1 ==>
      CarriesOver(ss, overlap, ws, i)
  }

  ghost predicate CarriesOver(ss: seq<string>, overlap: int, ws: seq<Window>, i: nat)
    requires i + 1 < |ws|
  {
    Carried(ss, ws[i].lo, ws[i].hi, overlap, ws[i + 1].lo)
  }

  /** The windows of the first `n` sentences. */
  ghost predicate Greedy(ss: seq<string>, n: nat, limit: int, overlap: int, ws: seq<Window>) {
    && n <= |ss| && Covers(n, overlap, ws) && CutWhenFull(ss, limit, ws)
    && GrowsWithin(ss, limit, ws) && Carries(ss, overlap, ws)
  }

  ghost predicate Renders(ss: seq<string>, ws: seq<Window>, chunks: seq<string>) {
    |chunks| == |ws| && forall i {:trigger Rendered(ss, ws[i], chunks[i])} :: 0 <= i < |ws| ==>
      Rendered(ss, ws[i], chunks[i])
  }

  ghost predicate Rendered(ss: seq<string>, w: Window, chunk: string) {
    w.lo <= w.hi <= |ss| && chunk == Join(ss[w.lo..w.hi])
  }

  // ----- lengths of joins

  lemma {:induction false} JoinSnocLen(a: seq<string>, w: string)
    ensures |Join(a + [w])| == |Join(a)| + |w| + if a == [] then 0 else 1
  {
    if a == [] {
      assert a + [w] == [w];
    } else if |a| == 1 {
      assert (a + [w])[1..] == [w];
    } else {
      assert (a + [w])[1..] == a[1..] + [w];
      JoinSnocLen(a[1..], w);
    }
  }

  lemma {:induction false} LongerJoin(ss: seq<string>, lo: nat, mid: nat, hi: nat)
    requires lo <= mid < hi <= |ss|
    ensures JoinedLen(ss, mid, hi) <= JoinedLen(ss, lo, hi)
    decreases mid - lo
  {
    if lo < mid {
      LongerJoin(ss, lo + 1, mid, hi);
      assert ss[lo..hi] == [ss[lo]] + ss[lo + 1..hi];
    }
  }

  // ----- the loops

  /** The sentences carried over from `current`, built from its end. */
  method CarryOver(current: seq<string>, overlap: int) returns (carry: seq<string>, ghost from: nat)
    requires current != []
    ensures Carried(current, 0, |current|, overlap, from) && carry == current[from..]
  {
    carry := [];
    var carryLen := 0;
    var i := |current|;
    while i > 0
      invariant 0 <= i <= |current|
      invariant carry == current[i..] && carryLen == |Join(carry)|
      invariant i < |current| ==> carryLen <= overlap || i == |current| - 1
    {
      var s := current[i - 1];
      var projected := |s| + if carry != [] then 1 else 0;
      assert current[i - 1..] == [s] + carry;
      assert current[i - 1..|current|] == current[i - 1..] && current[i..|current|] == current[i..];
      if carry != [] && carryLen + projected > overlap {
        break;
      }
      carry := [s] + carry;
      carryLen := carryLen + projected;
      i := i - 1;
    }
    from := i;
    assert current[from..|current|] == current[from..];
  }

  lemma FirstSentence(ss: seq<string>, limit: int, overlap: int)
    requires ss != []
    ensures Greedy(ss, 1, limit, overlap, [Window(0, 1)])
  {
  }

  // The open window takes one more sentence.

  lemma ExtendCovers(n: nat, overlap: int, ws: seq<Window>, lo: nat)
    requires lo < n && Covers(n, overlap, ws + [Window(lo, n)])
    ensures Covers(n + 1, overlap, ws + [Window(lo, n + 1)])
  {
    var a, b := ws + [Window(lo, n)], ws + [Window(lo, n + 1)];
    assert forall i :: 0 <= i < |ws| ==> a[i] == ws[i] && b[i] == ws[i];
    forall i: nat | i < |b| - 1 ensures Advances(overlap, b, i) {
      assert Advances(overlap, a, i);
    }
  }

  lemma ExtendCuts(ss: seq<string>, n: nat, limit: int, overlap: int, ws: seq<Window>, lo: nat)
    requires CutWhenFull(ss, limit, ws + [Window(lo, n)]) && Carries(ss, overlap, ws + [Window(lo, n)])
    ensures CutWhenFull(ss, limit, ws + [Window(lo, n + 1)]) && Carries(ss, overlap, ws + [Window(lo, n + 1)])
  {
    var a, b := ws + [Window(lo, n)], ws + [Window(lo, n + 1)];
    forall i | 0 <= i < |b| - 1 ensures Overfull(ss, limit, b[i]) {
      assert a[i] == b[i] && Overfull(ss, limit, a[i]);
    }
    if overlap > 0 {
      forall i | 0 <= i < |b| - 1 ensures CarriesOver(ss, overlap, b, i) {
        assert a[i] == b[i] && a[i + 1].lo == b[i + 1].lo;
        assert CarriesOver(ss, overlap, a, i);
      }
    }
  }

  lemma ExtendGrows(ss: seq<string>, n: nat, limit: int, ws: seq<Window>, lo: nat)
    requires n < |ss| && lo < n && GrowsWithin(ss, limit, ws + [Window(lo, n)]) && Fits(ss, limit, lo, n + 1)
    ensures GrowsWithin(ss, limit, ws + [Window(lo, n + 1)])
  {
    var a, b := ws + [Window(lo, n)], ws + [Window(lo, n + 1)];
    forall i, k | 0 <= i < |b| && Forced(b, i) < k <= b[i].hi ensures Fits(ss, limit, b[i].lo, k) {
      assert i > 0 ==> a[i - 1] == b[i - 1];
      assert Forced(b, i) == Forced(a, i) && a[i].lo == b[i].lo;
      assert i < |ws| ==> a[i] == b[i];
      assert k <= a[i].hi ==> Fits(ss, limit, a[i].lo, k);
    }
  }

  lemma Extend(ss: seq<string>, n: nat, limit: int, overlap: int, ws: seq<Window>, lo: nat)
    requires n < |ss| && lo < n && Greedy(ss, n, limit, overlap, ws + [Window(lo, n)])
    requires Fits(ss, limit, lo, n + 1)
    ensures Greedy(ss, n + 1, limit, overlap, ws + [Window(lo, n + 1)])
  {
    ExtendCovers(n, overlap, ws, lo);
    ExtendCuts(ss, n, limit, overlap, ws, lo);
    ExtendGrows(ss, n, limit, ws, lo);
  }

  // The open window is closed, and the next one opens.

  lemma CloseCovers(n: nat, overlap: int, a: seq<Window>, lo: nat, lo': nat)
    requires lo < n && Covers(n, overlap, a) && a[|a| - 1] == Window(lo, n)
    requires lo <= lo' <= n && if overlap > 0 then lo' < n else lo' == n
    ensures Covers(n + 1, overlap, a + [Window(lo', n + 1)])
  {
    var b := a + [Window(lo', n + 1)];
    forall i: nat | i < |b| - 1 ensures Advances(overlap, b, i) {
      assert i < |a| - 1 ==> Advances(overlap, a, i);
    }
  }

  lemma CloseCuts(ss: seq<string>, n: nat, limit: int, overlap: int, a: seq<Window>, lo: nat,
                  lo': nat)
    requires n < |ss| && lo < n && CutWhenFull(ss, limit, a) && Carries(ss, overlap, a)
    requires a != [] && a[|a| - 1] == Window(lo, n) && Overfull(ss, limit, Window(lo, n))
    requires overlap > 0 ==> Carried(ss, lo, n, overlap, lo')
    ensures CutWhenFull(ss, limit, a + [Window(lo', n + 1)]) && Carries(ss, overlap, a + [Window(lo', n + 1)])
  {
    var b := a + [Window(lo', n + 1)];
    forall i | 0 <= i < |b| - 1 ensures Overfull(ss, limit, b[i]) {
      assert b[i] == a[i];
      assert i < |a| - 1 ==> Overfull(ss, limit, a[i]);
    }
    if overlap > 0 {
      forall i | 0 <= i < |b| - 1 ensures CarriesOver(ss, overlap, b, i) {
        assert b[i] == a[i];
        assert i < |a| - 1 ==> b[i + 1] == a[i + 1] && CarriesOver(ss, overlap, a, i);
      }
    }
  }

  lemma CloseWindow(ss: seq<string>, n: nat, limit: int, overlap: int, ws: seq<Window>, lo: nat,
                    lo': nat)
    requires n < |ss| && lo < n && Greedy(ss, n, limit, overlap, ws + [Window(lo, n)])
    requires Overfull(ss, limit, Window(lo, n))
    requires if overlap > 0 then Carried(ss, lo, n, overlap, lo') else lo' == n
    ensures Greedy(ss, n + 1, limit, overlap, ws + [Window(lo, n)] + [Window(lo', n + 1)])
  {
    CloseCovers(n, overlap, ws + [Window(lo, n)], lo, lo');
    CloseCuts(ss, n, limit, overlap, ws + [Window(lo, n)], lo, lo');
  }

  lemma CarriedWithin(ss: seq<string>, lo: nat, n: nat, overlap: int, from: nat)
    requires lo < n <= |ss| && Carried(ss[lo..n], 0, n - lo, overlap, from)
    ensures Carried(ss, lo, n, overlap, lo + from)
  {
    assert ss[lo..n][from..n - lo] == ss[lo + from..n];
    assert from > 0 ==> ss[lo..n][from - 1..n - lo] == ss[lo + from - 1..n];
  }

  /** What stays in hand after a window `lo..n` is closed. */
  method AfterClosing(current: seq<string>, overlap: int, ghost ss: seq<string>, ghost lo: nat, ghost n: nat)
    returns (kept: seq<string>, ghost lo': nat)
    requires lo < n <= |ss| && current == ss[lo..n]
    ensures lo' <= n && kept == ss[lo'..n]
    ensures if overlap > 0 then Carried(ss, lo, n, overlap, lo') else lo' == n
  {
    if overlap > 0 {
      ghost var from;
      kept, from := CarryOver(current, overlap);
      CarriedWithin(ss, lo, n, overlap, from);
      lo' := lo + from;
      assert ss[lo..n][from..] == ss[lo'..n];
    } else {
      kept, lo' := [], n;
    }
  }

  /** The loop state before sentence `n`: the closed windows, and the open one from `lo`. */
  ghost predicate Packing(ss: seq<string>, n: nat, limit: int, overlap: int, ws: seq<Window>, lo: nat) {
    if n == 0 then ws == [] && lo == 0 else lo < n && Greedy(ss, n, limit, overlap, ws + [Window(lo, n)])
  }

  lemma TakeSentence(ss: seq<string>, n: nat, limit: int, overlap: int, ws: seq<Window>, lo: nat)
    requires n < |ss| && Packing(ss, n, limit, overlap, ws, lo)
    requires n > 0 ==> Fits(ss, limit, lo, n + 1)
    ensures Packing(ss, n + 1, limit, overlap, ws, lo)
  {
    if n == 0 {
      FirstSentence(ss, limit, overlap);
      assert ws + [Window(0, 1)] == [Window(0, 1)];
    } else {
      Extend(ss, n, limit, overlap, ws, lo);
    }
  }

  /** Append the chunk of the open window. */
  method Append(chunks: seq<string>, current: seq<string>, ghost ss: seq<string>, ghost ws: seq<Window>,
                ghost w: Window)
    returns (more: seq<string>)
    requires Renders(ss, ws, chunks) && w.lo <= w.hi <= |ss| && current == ss[w.lo..w.hi]
    ensures Renders(ss, ws + [w], more)
  {
    more := chunks + [Join(current)];
    forall i | 0 <= i < |ws + [w]| ensures Rendered(ss, (ws + [w])[i], more[i]) {
      assert i < |ws| ==> Rendered(ss, ws[i], chunks[i]);
    }
  }

  /** Whether the next sentence passes the limit, by the lengths the loop keeps. */
  lemma {:induction false} NextLength(ss: seq<string>, lo: nat, n: nat, current: seq<string>)
    requires lo <= n < |ss| && current == ss[lo..n]
    ensures ss[lo..n + 1] == current + [ss[n]]
    ensures JoinedLen(ss, lo, n + 1) == |Join(current)| + |ss[n]| + if current == [] then 0 else 1
  {
    assert ss[lo..n + 1] == current + [ss[n]];
    JoinSnocLen(current, ss[n]);
  }

  /** Make room for sentence `n`: when it does not fit any more, the window is closed and its carry kept. */
  method MakeRoom(current: seq<string>, overlap: int, limit: int, sentence: string,
                  ghost ss: seq<string>, ghost n: nat, ghost ws: seq<Window>, ghost lo: nat)
    returns (closed: bool, kept: seq<string>, ghost lo': nat)
    requires lo <= n < |ss| && current == ss[lo..n] && sentence == ss[n]
    requires Packing(ss, n, limit, overlap, ws, lo)
    ensures lo' <= n && kept == ss[lo'..n] && (closed ==> current != [])
    ensures Packing(ss, n + 1, limit, overlap, if closed then ws + [Window(lo, n)] else ws, lo')
  {
    var sentenceLen := |sentence| + if current != [] then 1 else 0;
    NextLength(ss, lo, n, current);
    closed := current != [] && |Join(current)| + sentenceLen > limit;
    if closed {
      kept, lo' := AfterClosing(current, overlap, ss, lo, n);
      CloseWindow(ss, n, limit, overlap, ws, lo, lo');
    } else {
      TakeSentence(ss, n, limit, overlap, ws, lo);
      kept, lo' := current, lo;
    }
  }

  /** The loop of `chunk_text`. */
  method ChunkSentences(ss: seq<string>, limit: int, overlap: int) returns (chunks: seq<string>, ghost ws: seq<Window>)
    ensures if ss == [] then ws == [] else Greedy(ss, |ss|, limit, overlap, ws)
    ensures Renders(ss, ws, chunks)
  {
    chunks, ws := [], [];
    var current: seq<string> := [];
    ghost var lo: nat := 0;
    for n := 0 to |ss|
      invariant Packing(ss, n, limit, overlap, ws, lo)
      invariant lo <= n && current == ss[lo..n]
      invariant Renders(ss, ws, chunks)
    {
      var closed, kept;
      ghost var lo';
      closed, kept, lo' := MakeRoom(current, overlap, limit, ss[n], ss, n, ws, lo);
      if closed {
        chunks := Append(chunks, current, ss, ws, Window(lo, n));
        ws := ws + [Window(lo, n)];
      }
      lo := lo';
      current := kept + [ss[n]];
    }
    if current != [] {
      chunks := Append(chunks, current, ss, ws, Window(lo, |ss|));
      ws := ws + [Window(lo, |ss|)];
    }
  }

  /** `chunk_text`; token counts are taken as four characters each. */
  method ChunkText(text: string, maxTokens: int, overlapTokens: int)
    returns (chunks: seq<string>, ghost ws: seq<Window>)
    ensures SplitText(text) == [] ==> chunks == []
    ensures SplitText(text) != [] ==>
      Greedy(SplitText(text), |SplitText(text)|, maxTokens * 4, overlapTokens * 4, ws)
    ensures Renders(SplitText(text), ws, chunks)
  {
    var sentences := SplitSentences(text);
    chunks, ws := ChunkSentences(sentences, maxTokens * CHARS_PER_TOKEN, overlapTokens * CHARS_PER_TOKEN);
  }

  // ----- what greedy windows promise

  /** The conditions leave no choice: two greedy packings of the same sentences are equal. */
  lemma {:induction false} GreedyIsUnique(ss: seq<string>, n: nat, limit: int, overlap: int, a: seq<Window>,
                                          b: seq<Window>, k: nat)
    requires Greedy(ss, n, limit, overlap, a) && Greedy(ss, n, limit, overlap, b)
    requires k <= |a| && k <= |b|
    ensures a[..k] == b[..k]
    ensures k == |a| ==> k == |b|
  {
    if k > 0 {
      var i := k - 1;
      GreedyIsUnique(ss, n, limit, overlap, a, b, i);
      assert a[..i] == b[..i];
      assert a[i].lo == b[i].lo by {
        if i > 0 {
          SameStart(ss, n, limit, overlap, a, b, i);
        }
      }
      SameEnd(ss, n, limit, overlap, a, b, i);
      SameEnd(ss, n, limit, overlap, b, a, i);
      assert a[..k] == a[..i] + [a[i]] && b[..k] == b[..i] + [b[i]];
    }
  }

  lemma SameStart(ss: seq<string>, n: nat, limit: int, overlap: int, a: seq<Window>,
                  b: seq<Window>, i: nat)
    requires Greedy(ss, n, limit, overlap, a) && Greedy(ss, n, limit, overlap, b)
    requires 0 < i < |a| && i < |b| && a[..i] == b[..i]
    ensures a[i].lo == b[i].lo
  {
    assert a[i - 1] == a[..i][i - 1] == b[..i][i - 1] == b[i - 1];
    assert Advances(overlap, a, i - 1) && Advances(overlap, b, i - 1);
    if overlap > 0 {
      var w, x, y := a[i - 1], a[i].lo, b[i].lo;
      assert CarriesOver(ss, overlap, a, i - 1) && CarriesOver(ss, overlap, b, i - 1);
      CarryIsMaximal(ss, w.lo, w.hi, overlap, x, y);
      CarryIsMaximal(ss, w.lo, w.hi, overlap, y, x);
    }
  }

  lemma CarryIsMaximal(ss: seq<string>, lo: nat, hi: nat, overlap: int, x: nat, y: nat)
    requires Carried(ss, lo, hi, overlap, x) && Carried(ss, lo, hi, overlap, y)
    ensures y <= x
  {
    if x < y {
      LongerJoin(ss, x, y - 1, hi);
    }
  }

  lemma SameEnd(ss: seq<string>, n: nat, limit: int, overlap: int, a: seq<Window>, b: seq<Window>,
                i: nat)
    requires Greedy(ss, n, limit, overlap, a) && Greedy(ss, n, limit, overlap, b)
    requires i < |a| && i < |b| && a[..i] == b[..i] && a[i].lo == b[i].lo
    ensures b[i].hi <= a[i].hi
    ensures i == |a| - 1 && a[i].hi == b[i].hi ==> i == |b| - 1
  {
    assert i > 0 ==> a[i - 1] == a[..i][i - 1] == b[..i][i - 1] == b[i - 1];
    assert i < |b| - 1 ==> Advances(overlap, b, i) && b[i].hi < b[i + 1].hi <= n;
    assert i > 0 ==> Advances(overlap, a, i - 1);
    assert Forced(a, i) == Forced(b, i) <= a[i].hi;
    assert i < |a| - 1 ==> Overfull(ss, limit, a[i]);
    assert a[i].hi < b[i].hi ==> Fits(ss, limit, b[i].lo, a[i].hi + 1);
  }

  ghost predicate LongestIs(ss: seq<string>, longest: nat) {
    forall i :: 0 <= i < |ss| ==> |ss[i]| <= longest
  }

  /** No chunk is longer than the limit, or than its carry and one more sentence. */
  lemma ChunkLength(ss: seq<string>, n: nat, limit: int, overlap: int, ws: seq<Window>,
                    longest: nat, i: nat)
    requires Greedy(ss, n, limit, overlap, ws) && LongestIs(ss, longest) && i < |ws|
    ensures var len, carry := JoinedLen(ss, ws[i].lo, ws[i].hi), (if overlap > longest then overlap else longest);
      len <= limit || len <= if overlap > 0 && i > 0 then carry + 1 + longest else longest
  {
    var w := ws[i];
    assert i > 0 ==> Advances(overlap, ws, i - 1);
    if Forced(ws, i) < w.hi {
      assert Fits(ss, limit, w.lo, w.hi);
    } else {
      assert w.hi == Forced(ws, i);
      assert ss[w.lo..w.hi] == ss[w.lo..w.hi - 1] + [ss[w.hi - 1]];
      JoinSnocLen(ss[w.lo..w.hi - 1], ss[w.hi - 1]);
      if overlap > 0 && i > 0 {
        assert CarriesOver(ss, overlap, ws, i - 1);
      } else {
        assert w.lo == w.hi - 1;
      }
    }
  }

  /** Without overlap the chunks partition the sentences. */
  lemma {:induction false} ChunksJoin(ss: seq<string>, n: nat, limit: int, overlap: int, ws: seq<Window>,
                                      chunks: seq<string>, k: nat)
    requires Greedy(ss, n, limit, overlap, ws) && overlap <= 0 && Renders(ss, ws, chunks)
    requires 0 < k <= |ws|
    ensures Join(chunks[..k]) == Join(ss[..ws[k - 1].hi])
  {
    var w := ws[k - 1];
    assert Rendered(ss, w, chunks[k - 1]);
    assert chunks[..k] == chunks[..k - 1] + [chunks[k - 1]];
    if k == 1 {
      assert ss[w.lo..w.hi] == ss[..w.hi];
    } else {
      ChunksJoin(ss, n, limit, overlap, ws, chunks, k - 1);
      assert Advances(overlap, ws, k - 2);
      JoinNext(ss, w.lo, w.hi, chunks[..k - 1], chunks[k - 1]);
    }
  }

  lemma {:induction false} JoinNext(ss: seq<string>, lo: nat, hi: nat, done: seq<string>, chunk: string)
    requires 0 < lo < hi <= |ss| && done != [] && Join(done) == Join(ss[..lo]) && chunk == Join(ss[lo..hi])
    ensures Join(done + [chunk]) == Join(ss[..hi])
  {
    assert ss[..hi] == ss[..lo] + ss[lo..hi];
    Lossless.JoinConcat(done, [chunk]);
    Lossless.JoinConcat(ss[..lo], ss[lo..hi]);
  }

  /** End to end: without overlap, no text is lost or doubled, if and only if all words survive. */
  lemma {:induction false} ChunksAreLossless(text: string, limit: int, overlap: int, ws: seq<Window>,
                                             chunks: seq<string>)
    requires overlap <= 0
    requires SplitText(text) != [] && Greedy(SplitText(text), |SplitText(text)|, limit, overlap, ws)
    requires Renders(SplitText(text), ws, chunks)
    ensures Join(chunks) == Join(Words(text)) <==> Lossless.TextSurvives(text)
  {
    AllChunksJoin(SplitText(text), limit, overlap, ws, chunks);
    Lossless.SplitTextIsLossless(text);
  }

  lemma {:induction false} AllChunksJoin(ss: seq<string>, limit: int, overlap: int, ws: seq<Window>,
                                         chunks: seq<string>)
    requires ss != [] && Greedy(ss, |ss|, limit, overlap, ws) && overlap <= 0 && Renders(ss, ws, chunks)
    ensures Join(chunks) == Join(ss)
  {
    ChunksJoin(ss, |ss|, limit, overlap, ws, chunks, |ws|);
    assert chunks[..|ws|] == chunks && ss[..|ss|] == ss;
  }
}
