/**
 * The token-window chunker, `chunk_text_by_tokens`, and the tokenizer
 * adapter it relies on (`encode_tokens`, `count_tokens`).
 *
 * The tokenizer backends (a HuggingFace tokenizer, tiktoken, or the last
 * resort `text.split()`) are foreign code; a `Tokenizer` value stands for the
 * one in use: its `encode` is what `encode_tokens` returns for a non-empty
 * text, and `exactDecode` is the HuggingFace `decode` when that tokenizer is
 * loaded, or `None`, in which case windows are turned back into text by
 * proportional word slicing.
 *
 * The window loop steps with `NextStart`, which advances past the current
 * start for every overlap; the step as written in the source, which can stall,
 * is `SourceNextStart`, and the loop as written is `SourceWindows` (see the
 * lemmas at the end of this module).
 */
module Chunker {
  import opened Text

  datatype Tokenizer<!T> = Tokenizer(encode: string -> seq<T>, exactDecode: Option<seq<T> -> string>)

  /** `encode_tokens`: the empty text has no tokens; anything else is handed
      to the backend. */
  function EncodeTokens<T>(tok: Tokenizer<T>, text: string): (ids: seq<T>)
    ensures text == "" ==> ids == []
  {
    if text == "" then [] else tok.encode(text)
  }

  /** `count_tokens`. */
  function CountTokens<T>(tok: Tokenizer<T>, text: string): (n: nat)
    ensures text == "" ==> n == 0
  {
    |EncodeTokens(tok, text)|
  }

  function Min(a: int, b: int): int { if a <= b then a else b }
  function Max(a: int, b: int): int { if a >= b then a else b }

  // ---------------------------------------------------------------------------
  // Token windows
  // ---------------------------------------------------------------------------

  /** The token range `[start, end)` of one chunk. */
  datatype Window = Window(start: nat, end: nat)

  /** Where the window after `[start, end)` begins: `overlap` tokens before
      `end` when that is still past `start`, otherwise at `end`. Every step
      moves forward by at least one token, whatever the overlap. */
  function NextStart(start: nat, end: nat, overlap: nat): (r: nat)
    requires start < end
    ensures start < r <= end
    ensures end - overlap > start ==> r == end - overlap
    ensures end - overlap <= start ==> r == end
  {
    if end - overlap > start then end - overlap else end
  }

  /** The windows the loop emits from `start` on, for `n` tokens. */
  function WindowsFrom(n: nat, maxTokens: nat, overlap: nat, start: nat): (ws: seq<Window>)
    requires 0 < maxTokens && start < n
    ensures forall i :: 0 <= i < |ws| ==> start <= ws[i].start < ws[i].end <= n
    decreases n - start
  {
    var end := Min(start + maxTokens, n);
    [Window(start, end)] + (if end >= n then [] else WindowsFrom(n, maxTokens, overlap, NextStart(start, end, overlap)))
  }

  /** All windows of an `n`-token sequence. */
  function ChunkWindows(n: nat, maxTokens: nat, overlap: nat): (ws: seq<Window>)
    requires 0 < maxTokens
    ensures forall i :: 0 <= i < |ws| ==> ws[i].start < ws[i].end <= n
  {
    if n == 0 then [] else WindowsFrom(n, maxTokens, overlap, 0)
  }

  /** What the loop promises of its windows, stated independently of it:
      each window is non-empty, inside the sequence and at most `maxTokens`
      long (shorter only when it reaches the end); every window but the last
      stops short of the end and is followed by the window at `NextStart`;
      the last one reaches the end. */
  predicate Tiling(ws: seq<Window>, n: nat, maxTokens: nat, overlap: nat)
  {
    && |ws| >= 1
    && ws[|ws| - 1].end == n
    && (forall i :: 0 <= i < |ws| ==> ws[i].start < ws[i].end <= n && ws[i].end == Min(ws[i].start + maxTokens, n))
    && (forall i :: 0 <= i < |ws| - 1 ==>
          ws[i].end < n && ws[i + 1].start == NextStart(ws[i].start, ws[i].end, overlap))
  }

  /** A window that stops short of the end, followed by a tiling that starts
      where the step puts it, is again a tiling. */
  lemma TilingCons(w: Window, rest: seq<Window>, n: nat, maxTokens: nat, overlap: nat)
    requires Tiling(rest, n, maxTokens, overlap)
    requires w.start < w.end == Min(w.start + maxTokens, n) < n
    requires rest[0].start == NextStart(w.start, w.end, overlap)
    ensures Tiling([w] + rest, n, maxTokens, overlap)
  {
    var ws := [w] + rest;
    assert ws[|ws| - 1] == rest[|rest| - 1];
    forall i | 0 <= i < |ws|
      ensures ws[i].start < ws[i].end <= n && ws[i].end == Min(ws[i].start + maxTokens, n)
    {
      if i > 0 {
        assert ws[i] == rest[i - 1];
      }
    }
    forall i | 0 <= i < |ws| - 1
      ensures ws[i].end < n && ws[i + 1].start == NextStart(ws[i].start, ws[i].end, overlap)
    {
      assert ws[i + 1] == rest[i];
      if i > 0 {
        assert ws[i] == rest[i - 1];
      }
    }
  }

  lemma {:induction false} WindowsFromTiling(n: nat, maxTokens: nat, overlap: nat, start: nat)
    requires 0 < maxTokens && start < n
    ensures var ws := WindowsFrom(n, maxTokens, overlap, start);
      Tiling(ws, n, maxTokens, overlap) && ws[0].start == start
    decreases n - start
  {
    var end := Min(start + maxTokens, n);
    var ws := WindowsFrom(n, maxTokens, overlap, start);
    if end < n {
      var next := NextStart(start, end, overlap);
      WindowsFromTiling(n, maxTokens, overlap, next);
      var rest := WindowsFrom(n, maxTokens, overlap, next);
      assert ws == [Window(start, end)] + rest;
      TilingCons(Window(start, end), rest, n, maxTokens, overlap);
    } else {
      assert ws == [Window(start, end)];
    }
  }

  /** The windows of a non-empty sequence tile it from token 0 to token `n`;
      an empty sequence has no windows. */
  lemma ChunkWindowsTiling(n: nat, maxTokens: nat, overlap: nat)
    requires 0 < maxTokens
    ensures var ws := ChunkWindows(n, maxTokens, overlap);
      && (n == 0 <==> ws == [])
      && (n > 0 ==> Tiling(ws, n, maxTokens, overlap) && ws[0].start == 0)
  {
    if n > 0 {
      WindowsFromTiling(n, maxTokens, overlap, 0);
    }
  }

  /** Dropping the first window of a tiling leaves a tiling. */
  lemma TilingTail(ws: seq<Window>, n: nat, maxTokens: nat, overlap: nat)
    requires Tiling(ws, n, maxTokens, overlap) && |ws| > 1
    ensures Tiling(ws[1..], n, maxTokens, overlap)
  {
    var rest := ws[1..];
    forall i | 0 <= i < |rest|
      ensures rest[i] == ws[i + 1]
    {
    }
  }

  /** Conversely, the tiling that starts at `start` is unique: it is exactly
      what the loop produces. */
  lemma {:induction false} TilingUnique(ws: seq<Window>, n: nat, maxTokens: nat, overlap: nat)
    requires 0 < maxTokens && Tiling(ws, n, maxTokens, overlap)
    ensures ws == WindowsFrom(n, maxTokens, overlap, ws[0].start)
    decreases |ws|
  {
    var start := ws[0].start;
    var end := Min(start + maxTokens, n);
    if |ws| == 1 {
    } else {
      var rest := ws[1..];
      TilingTail(ws, n, maxTokens, overlap);
      TilingUnique(rest, n, maxTokens, overlap);
      assert ws == [ws[0]] + rest;
    }
  }

  /** Window starts (and ends) strictly increase, so the windows come in
      document order. */
  lemma {:induction false} TilingOrdered(ws: seq<Window>, n: nat, maxTokens: nat, overlap: nat, i: nat, j: nat)
    requires Tiling(ws, n, maxTokens, overlap)
    requires i < j < |ws|
    ensures ws[i].start < ws[j].start && ws[i].end < ws[j].end
    decreases j - i
  {
    if j > i + 1 {
      TilingOrdered(ws, n, maxTokens, overlap, i, j - 1);
    }
    var k := j - 1;
    assert ws[k].start < ws[j].start;
    assert ws[k].end == ws[k].start + maxTokens;
  }

  /** No token is lost: every token index lies in some window. */
  lemma {:induction false} TilingCovers(ws: seq<Window>, n: nat, maxTokens: nat, overlap: nat, t: nat)
    requires Tiling(ws, n, maxTokens, overlap)
    requires ws[0].start <= t < n
    ensures exists i :: 0 <= i < |ws| && ws[i].start <= t < ws[i].end
    decreases |ws|
  {
    if ws[0].end <= t {
      var rest := ws[1..];
      assert |ws| > 1;
      TilingTail(ws, n, maxTokens, overlap);
      TilingCovers(rest, n, maxTokens, overlap, t);
      var i :| 0 <= i < |rest| && rest[i].start <= t < rest[i].end;
      assert ws[i + 1] == rest[i];
    }
  }

  /** With `overlap < maxTokens`, every window but the last is exactly
      `maxTokens` long and shares exactly `overlap` tokens with the next one. */
  lemma TilingOverlap(ws: seq<Window>, n: nat, maxTokens: nat, overlap: nat, i: nat)
    requires Tiling(ws, n, maxTokens, overlap) && overlap < maxTokens
    requires i < |ws| - 1
    ensures ws[i].end - ws[i].start == maxTokens
    ensures ws[i + 1].start == ws[i].end - overlap
    ensures ws[i].start < ws[i + 1].start <= ws[i].end
  {
  }

  /** With `overlap >= maxTokens` no overlap is possible: each window starts
      where the previous one ended. */
  lemma TilingWithoutOverlap(ws: seq<Window>, n: nat, maxTokens: nat, overlap: nat, i: nat)
    requires Tiling(ws, n, maxTokens, overlap) && overlap >= maxTokens
    requires i < |ws| - 1
    ensures ws[i + 1].start == ws[i].end
  {
  }

  /** With `overlap < maxTokens`, window `i` starts at `i * (maxTokens - overlap)`. */
  lemma {:induction false} TilingStarts(ws: seq<Window>, n: nat, maxTokens: nat, overlap: nat, i: nat)
    requires Tiling(ws, n, maxTokens, overlap) && overlap < maxTokens && ws[0].start == 0
    requires i < |ws|
    ensures ws[i].start == i * (maxTokens - overlap)
  {
    if i > 0 {
      TilingStarts(ws, n, maxTokens, overlap, i - 1);
      TilingOverlap(ws, n, maxTokens, overlap, i - 1);
    }
  }

  /** `ceil(a / d)` for positive `d`. */
  function CeilDiv(a: nat, d: nat): nat
    requires d > 0
  {
    (a + d - 1) / d
  }

  lemma CeilDivUnique(a: nat, d: nat, k: nat)
    requires d > 0 && k > 0
    requires (k - 1) * d < a <= k * d
    ensures CeilDiv(a, d) == k
  {
    assert (k - 1) * d == k * d - d;
    DivUnique(a + d - 1, d, k);
  }

  lemma DivUnique(x: nat, d: nat, k: nat)
    requires d > 0 && k * d <= x < k * d + d
    ensures x / d == k
  {
    var q, r := x / d, x % d;
    assert x == q * d + r && 0 <= r < d;
    if q < k {
      MulMonotone(q + 1, k, d);
    } else if q > k {
      MulMonotone(k + 1, q, d);
    }
  }

  lemma MulMonotone(a: nat, b: nat, d: nat)
    requires a <= b
    ensures a * d <= b * d
  {
    assert b * d == a * d + (b - a) * d;
  }

  /** The number of windows, for `overlap < maxTokens`: one when everything
      fits, otherwise one more than the number of `maxTokens - overlap` steps
      needed to bring a window's end to `n`. */
  lemma ChunkWindowsCount(n: nat, maxTokens: nat, overlap: nat)
    requires 0 < n && overlap < maxTokens
    ensures |ChunkWindows(n, maxTokens, overlap)|
            == if n <= maxTokens then 1 else 1 + CeilDiv(n - maxTokens, maxTokens - overlap)
  {
    var ws := ChunkWindows(n, maxTokens, overlap);
    var step := maxTokens - overlap;
    ChunkWindowsTiling(n, maxTokens, overlap);
    var last := |ws| - 1;
    TilingStarts(ws, n, maxTokens, overlap, last);
    assert last * step + maxTokens >= n;
    if last == 0 {
      assert n <= maxTokens;
    } else {
      TilingStarts(ws, n, maxTokens, overlap, last - 1);
      assert (last - 1) * step + maxTokens < n;
      assert n > maxTokens;
      CeilDivUnique(n - maxTokens, step, last);
    }
  }

  /** 14 000 tokens in windows of 6 000 with an overlap of 200 give three
      windows. */
  lemma ExampleThreeWindows()
    ensures ChunkWindows(14000, 6000, 200) == [Window(0, 6000), Window(5800, 11800), Window(11600, 14000)]
  {
    assert WindowsFrom(14000, 6000, 200, 11600) == [Window(11600, 14000)];
    assert WindowsFrom(14000, 6000, 200, 5800) == [Window(5800, 11800), Window(11600, 14000)];
  }

  // ---------------------------------------------------------------------------
  // The window loop
  // ---------------------------------------------------------------------------

  /** The token slices of a list of windows. */
  function Slices<T>(ids: seq<T>, ws: seq<Window>): (r: seq<seq<T>>)
    requires forall i :: 0 <= i < |ws| ==> ws[i].start <= ws[i].end <= |ids|
    ensures |r| == |ws|
    ensures forall i :: 0 <= i < |ws| ==> r[i] == ids[ws[i].start..ws[i].end]
  {
    seq(|ws|, i requires 0 <= i < |ws| => ids[ws[i].start..ws[i].end])
  }

  /** The `while start < n` loop of `chunk_text_by_tokens`: it emits the token
      slices of `ChunkWindows`, in order. */
  method ChunkIds<T>(ids: seq<T>, maxTokens: nat, overlap: nat) returns (chunks: seq<seq<T>>)
    requires 0 < maxTokens
    ensures chunks == Slices(ids, ChunkWindows(|ids|, maxTokens, overlap))
  {
    var n := |ids|;
    ghost var ws := ChunkWindows(n, maxTokens, overlap);
    ChunkWindowsTiling(n, maxTokens, overlap);
    chunks := [];
    if n == 0 {
      return;
    }
    var start := 0;
    ghost var k := 0;
    while start < n
      invariant k < |ws| && ws[k].start == start
      invariant |chunks| == k
      invariant forall i :: 0 <= i < k ==> chunks[i] == ids[ws[i].start..ws[i].end]
      decreases n - start
    {
      var end := Min(start + maxTokens, n);
      TilingStep(ws, n, maxTokens, overlap, k);
      assert end == ws[k].end;
      ghost var done := chunks;
      chunks := chunks + [ids[start..end]];
      forall i | 0 <= i <= k
        ensures chunks[i] == ids[ws[i].start..ws[i].end]
      {
        if i < k {
          assert chunks[i] == done[i];
        }
      }
      if end >= n {
        k := k + 1;
        break;
      }
      start := NextStart(start, end, overlap);
      k := k + 1;
    }
  }

  /** Window `k` of a tiling ends `maxTokens` tokens on, or at the end; the
      next one, if any, starts where the step puts it. */
  lemma TilingStep(ws: seq<Window>, n: nat, maxTokens: nat, overlap: nat, k: nat)
    requires Tiling(ws, n, maxTokens, overlap) && k < |ws|
    ensures ws[k].end == Min(ws[k].start + maxTokens, n)
    ensures ws[k].end < n ==> k + 1 < |ws| && ws[k + 1].start == NextStart(ws[k].start, ws[k].end, overlap)
    ensures ws[k].end >= n ==> k == |ws| - 1
  {
  }

  // ---------------------------------------------------------------------------
  // Turning windows back into text
  // ---------------------------------------------------------------------------

  /** Python's `round(num / den)`: to the nearest integer, ties to even. */
  function RoundHalfEven(num: nat, den: nat): (r: nat)
    requires den > 0
    ensures -(den as int) <= 2 * num - 2 * r * den <= den
  {
    var q, rem := num / den, num % den;
    assert num == q * den + rem;
    assert (q + 1) * den == q * den + den;
    if 2 * rem < den then q
    else if 2 * rem > den then q + 1
    else if q % 2 == 0 then q
    else q + 1
  }

  /** The words each window takes in proportional slicing:
      `max(1, len(c) * ratio)` for a window of `len(c)` tokens. */
  function Takes(lens: seq<nat>, ratio: nat): (takes: seq<nat>)
    ensures |takes| == |lens|
    ensures forall i :: 0 <= i < |lens| ==> 1 <= takes[i] && lens[i] * ratio <= takes[i]
    ensures forall i :: 0 <= i < |lens| ==> lens[i] * ratio == 0 || takes[i] == lens[i] * ratio
  {
    seq(|lens|, i requires 0 <= i < |lens| => Max(1, lens[i] * ratio))
  }

  /** The text of `take` words from word `idx` on: `" ".join(words[idx:idx + take])`. */
  function Piece(words: seq<string>, idx: int, take: nat): string
  {
    Join(" ", PySlice(words, idx, idx + take))
  }

  /** The word offset at which window `i` starts being sliced: the first at
      word 0, each next one `back` words before the previous one ended. */
  function Offset(takes: seq<nat>, back: nat, i: nat): int
    requires i <= |takes|
  {
    if i == 0 then 0 else Offset(takes, back, i - 1) + takes[i - 1] - back
  }

  /** The texts that proportional word slicing gives to windows taking the
      given numbers of words: window `i` takes `takes[i]` words from `Offset(i)`. */
  function WordPieces(words: seq<string>, takes: seq<nat>, back: nat): (r: seq<string>)
    ensures |r| == |takes|
  {
    seq(|takes|, i requires 0 <= i < |takes| => Piece(words, Offset(takes, back, i), takes[i]))
  }

  predicate AllWords(words: seq<string>)
  {
    forall j :: 0 <= j < |words| ==> IsWord(words[j])
  }

  /** A piece inside the text reads back, word for word, as the words it
      was cut from. */
  lemma PieceWords(words: seq<string>, idx: int, take: nat)
    requires AllWords(words)
    requires 0 <= idx && idx + take <= |words|
    ensures SplitWords(Piece(words, idx, take)) == words[idx..idx + take]
  {
    var w := words[idx..idx + take];
    assert forall j :: 0 <= j < |w| ==> IsWord(w[j]) by {
      forall j | 0 <= j < |w| ensures IsWord(w[j]) { assert w[j] == words[idx + j]; }
    }
    SplitJoinRoundTrip(w);
  }

  /** Two consecutive pieces of a list, cut from `text.split()` with the
      second starting `back` words before the first ends, read back as their
      words and share those `back` words. */
  lemma ConsecutivePieces(text: string, ps: seq<string>, i: nat, o: nat, t: nat, o': nat, t': nat, back: nat)
    requires i + 1 < |ps|
    requires ps[i] == Piece(SplitWords(text), o, t) && ps[i + 1] == Piece(SplitWords(text), o', t')
    requires back <= t && back <= t' && o' == o + t - back && o' + t' <= |SplitWords(text)|
    ensures SplitWords(ps[i]) == SplitWords(text)[o..o + t]
    ensures SplitWords(ps[i + 1]) == SplitWords(text)[o'..o' + t']
    ensures SplitWords(ps[i])[t - back..] == SplitWords(ps[i + 1])[..back]
  {
    var words := SplitWords(text);
    assert AllWords(words) by {
      SplitWordsAreWords(text);
    }
    assert SplitWords(Piece(words, o, t)) == words[o..o + t] by {
      PieceWords(words, o, t);
    }
    assert SplitWords(Piece(words, o', t')) == words[o'..o' + t'] by {
      PieceWords(words, o', t');
    }
    assert words[o..o + t][t - back..] == words[o'..o' + t'][..back] by {
      SlicesMeet(words, o, t, o', t', back);
    }
  }

  /** Where the word offsets stay inside the text, piece `i` and piece `i + 1`
      are exactly their words, and they share `back` words: the last `back`
      words of one are the first `back` words of the next. */
  lemma PiecesShareWords(text: string, takes: seq<nat>, back: nat, i: nat)
    requires i + 1 < |takes|
    requires 0 <= Offset(takes, back, i)
    requires back <= takes[i] && back <= takes[i + 1]
    requires Offset(takes, back, i + 1) + takes[i + 1] <= |SplitWords(text)|
    ensures SplitWords(WordPieces(SplitWords(text), takes, back)[i])
            == SplitWords(text)[Offset(takes, back, i)..Offset(takes, back, i) + takes[i]]
    ensures SplitWords(WordPieces(SplitWords(text), takes, back)[i + 1])
            == SplitWords(text)[Offset(takes, back, i + 1)..Offset(takes, back, i + 1) + takes[i + 1]]
    ensures SplitWords(WordPieces(SplitWords(text), takes, back)[i])[takes[i] - back..]
            == SplitWords(WordPieces(SplitWords(text), takes, back)[i + 1])[..back]
  {
    WordPieceAt(SplitWords(text), takes, back, i);
    WordPieceAt(SplitWords(text), takes, back, i + 1);
    OffsetStep(takes, back, i);
    ConsecutivePieces(text, WordPieces(SplitWords(text), takes, back), i,
      Offset(takes, back, i), takes[i], Offset(takes, back, i + 1), takes[i + 1], back);
  }

  /** Piece `i` is `takes[i]` words from `Offset(i)`. */
  lemma WordPieceAt(words: seq<string>, takes: seq<nat>, back: nat, i: nat)
    requires i < |takes|
    ensures WordPieces(words, takes, back)[i] == Piece(words, Offset(takes, back, i), takes[i])
  {
  }

  /** Each offset is the previous one plus its take, less the back-up. */
  lemma OffsetStep(takes: seq<nat>, back: nat, i: nat)
    requires i < |takes|
    ensures Offset(takes, back, i + 1) == Offset(takes, back, i) + takes[i] - back
  {
  }

  /** Two slices, the second starting `back` items before the first ends,
      meet in those `back` items. */
  lemma SlicesMeet(words: seq<string>, o: nat, t: nat, o': nat, t': nat, back: nat)
    requires back <= t && back <= t' && o' == o + t - back && o' + t' <= |words|
    ensures words[o..o + t][t - back..] == words[o'..o' + t'][..back]
  {
    assert words[o..o + t][t - back..] == words[o'..o + t];
  }

  /** The window lengths. */
  function Lengths(ws: seq<Window>): (lens: seq<nat>)
    requires forall i :: 0 <= i < |ws| ==> ws[i].start <= ws[i].end
    ensures |lens| == |ws|
    ensures forall i :: 0 <= i < |ws| ==> lens[i] == ws[i].end - ws[i].start
  {
    seq(|ws|, i requires 0 <= i < |ws| => ws[i].end - ws[i].start)
  }

  /** The fallback decoding loop of `chunk_text_by_tokens`: `ratio` words per
      token, rounded, at least one; each chunk takes `len(c) * ratio` words and
      the next one backs up by `min(overlap, 50)` words. */
  method DecodeByWords<T>(text: string, numIds: nat, chunks: seq<seq<T>>, overlap: nat) returns (decoded: seq<string>)
    requires numIds > 0
    ensures decoded == WordPieces(SplitWords(text), Takes(ChunkLengths(chunks), WordRatio(text, numIds)), Min(overlap, 50))
  {
    var words := SplitWords(text);
    var ratio := WordRatio(text, numIds);
    var back := Min(overlap, 50);
    ghost var takes := Takes(ChunkLengths(chunks), ratio);
    ghost var pieces := WordPieces(words, takes, back);
    var idx := 0;
    decoded := [];
    for i := 0 to |chunks|
      invariant |decoded| == i
      invariant idx == Offset(takes, back, i)
      invariant forall j :: 0 <= j < i ==> decoded[j] == pieces[j]
    {
      var take := Max(1, |chunks[i]| * ratio);
      var piece := Piece(words, idx, take);
      assert piece == pieces[i] by {
        assert take == takes[i];
      }
      ghost var prev := decoded;
      decoded := decoded + [piece];
      forall j | 0 <= j <= i
        ensures decoded[j] == pieces[j]
      {
        if j < i {
          assert decoded[j] == prev[j];
        }
      }
      idx := idx + take - back;
    }
    assert decoded == pieces;
  }

  function ChunkLengths<T>(chunks: seq<seq<T>>): (lens: seq<nat>)
    ensures |lens| == |chunks|
    ensures forall i :: 0 <= i < |chunks| ==> lens[i] == |chunks[i]|
  {
    seq(|chunks|, i requires 0 <= i < |chunks| => |chunks[i]|)
  }

  /** `max(1, int(round(len(words) / len(ids))))`. */
  function WordRatio(text: string, numIds: nat): (r: nat)
    requires numIds > 0
    ensures r >= 1
  {
    Max(1, RoundHalfEven(|SplitWords(text)|, numIds))
  }

  /** The exact decoding loop: each window decoded on its own, in order. */
  method DecodeEach<T>(decode: seq<T> -> string, chunks: seq<seq<T>>) returns (decoded: seq<string>)
    ensures |decoded| == |chunks|
    ensures forall i :: 0 <= i < |chunks| ==> decoded[i] == decode(chunks[i])
  {
    decoded := [];
    for i := 0 to |chunks|
      invariant |decoded| == i
      invariant forall j :: 0 <= j < i ==> decoded[j] == decode(chunks[j])
    {
      decoded := decoded + [decode(chunks[i])];
    }
  }

  // ---------------------------------------------------------------------------
  // chunk_text_by_tokens
  // ---------------------------------------------------------------------------

  /** A window's slice is as long as the window. */
  lemma SliceLengths<T>(ids: seq<T>, ws: seq<Window>)
    requires forall i :: 0 <= i < |ws| ==> ws[i].start <= ws[i].end <= |ids|
    ensures ChunkLengths(Slices(ids, ws)) == Lengths(ws)
  {
  }

  /** Each chunk decoded on its own, in order. */
  function DecodeAll<T>(decode: seq<T> -> string, chunks: seq<seq<T>>): (r: seq<string>)
    ensures |r| == |chunks|
    ensures forall i :: 0 <= i < |chunks| ==> r[i] == decode(chunks[i])
  {
    seq(|chunks|, i requires 0 <= i < |chunks| => decode(chunks[i]))
  }

  /** What `chunk_text_by_tokens` returns. */
  function ChunkText<T>(tok: Tokenizer<T>, text: string, maxTokens: nat, overlap: nat): (r: seq<string>)
    requires 0 < maxTokens
    ensures |r| == |ChunkWindows(CountTokens(tok, text), maxTokens, overlap)|
  {
    var ids := EncodeTokens(tok, text);
    ChunkWindowsTiling(|ids|, maxTokens, overlap);
    var ws := ChunkWindows(|ids|, maxTokens, overlap);
    if ids == [] then []
    else match tok.exactDecode
      case Some(decode) => DecodeAll(decode, Slices(ids, ws))
      case None => WordPieces(SplitWords(text), Takes(Lengths(ws), WordRatio(text, |ids|)), Min(overlap, 50))
  }

  /** `chunk_text_by_tokens`: encode, cut into windows, decode each window. */
  method ChunkTextByTokens<T>(tok: Tokenizer<T>, text: string, maxTokens: nat, overlap: nat) returns (decoded: seq<string>)
    requires 0 < maxTokens
    ensures decoded == ChunkText(tok, text, maxTokens, overlap)
  {
    var ids := EncodeTokens(tok, text);
    if ids == [] {
      return [];
    }
    var chunks := ChunkIds(ids, maxTokens, overlap);
    ghost var ws := ChunkWindows(|ids|, maxTokens, overlap);
    assert chunks == Slices(ids, ws);
    if tok.exactDecode.Some? {
      decoded := DecodeEach(tok.exactDecode.value, chunks);
      assert decoded == DecodeAll(tok.exactDecode.value, chunks);
    } else {
      decoded := DecodeByWords(text, |ids|, chunks, overlap);
      SliceLengths(ids, ws);
    }
  }

  // ---------------------------------------------------------------------------
  // Properties of the chunker as a whole
  // ---------------------------------------------------------------------------

  /** Empty text encodes to no tokens and has no chunks. */
  lemma EmptyTextHasNoChunks<T>(tok: Tokenizer<T>, maxTokens: nat, overlap: nat)
    requires 0 < maxTokens
    ensures CountTokens(tok, "") == 0
    ensures ChunkText(tok, "", maxTokens, overlap) == []
  {
  }

  /** No chunk texts exactly when the text has no tokens. */
  lemma ChunkTextCount<T>(tok: Tokenizer<T>, text: string, maxTokens: nat, overlap: nat)
    requires 0 < maxTokens
    ensures ChunkText(tok, text, maxTokens, overlap) == [] <==> CountTokens(tok, text) == 0
  {
    ChunkWindowsTiling(CountTokens(tok, text), maxTokens, overlap);
  }

  /** A text of at most `maxTokens` tokens is a single window. */
  lemma ShortTextIsOneChunk<T>(tok: Tokenizer<T>, text: string, maxTokens: nat, overlap: nat)
    requires 0 < maxTokens && 0 < CountTokens(tok, text) <= maxTokens
    ensures ChunkWindows(CountTokens(tok, text), maxTokens, overlap) == [Window(0, CountTokens(tok, text))]
    ensures |ChunkText(tok, text, maxTokens, overlap)| == 1
  {
    ChunkTextCount(tok, text, maxTokens, overlap);
  }

  /** With an exact decoder, the chunk texts are the decoded windows. */
  lemma ExactChunks<T>(tok: Tokenizer<T>, text: string, maxTokens: nat, overlap: nat, i: nat)
    requires 0 < maxTokens && tok.exactDecode.Some?
    requires i < |ChunkText(tok, text, maxTokens, overlap)|
    ensures var ids := EncodeTokens(tok, text);
      var ws := ChunkWindows(|ids|, maxTokens, overlap);
      i < |ws| && ws[i].end <= |ids|
      && ChunkText(tok, text, maxTokens, overlap)[i] == tok.exactDecode.value(ids[ws[i].start..ws[i].end])
  {
    ChunkWindowsTiling(|EncodeTokens(tok, text)|, maxTokens, overlap);
  }

  // ---------------------------------------------------------------------------
  // The stepping rule as written
  // ---------------------------------------------------------------------------

  /** The source's stepping rule, `end - overlap if end - overlap > 0 else end`.
      The next start is never past `end` and, after a non-empty prefix, never
      0; unlike `NextStart` it need not be past the current start. */
  function SourceNextStart(end: nat, overlap: nat): (r: nat)
    ensures r <= end
    ensures 0 < end ==> 0 < r
    ensures overlap < end ==> r == end - overlap
  {
    if end - overlap > 0 then end - overlap else end
  }

  /** The `while start < n` loop exactly as written, run for at most `fuel`
      iterations: the windows it emits, or `None` when it has not stopped
      after `fuel` iterations. */
  function SourceWindows(n: nat, maxTokens: nat, overlap: nat, start: nat, fuel: nat): (r: Option<seq<Window>>)
    ensures r.Some? && start < n ==> |r.value| >= 1 && r.value[0].start == start
    decreases fuel
  {
    if start >= n then Some([])
    else if fuel == 0 then None
    else
      var end := Min(start + maxTokens, n);
      if end >= n then Some([Window(start, end)])
      else
        match SourceWindows(n, maxTokens, overlap, SourceNextStart(end, overlap), fuel - 1)
        case None => None
        case Some(rest) => Some([Window(start, end)] + rest)
  }

  /** Whenever `overlap < maxTokens`, the loop as written stops within
      `n - start` iterations and emits exactly the windows modelled here. */
  lemma {:induction false} SourceWindowsAgree(n: nat, maxTokens: nat, overlap: nat, start: nat, fuel: nat)
    requires overlap < maxTokens && start < n && n - start <= fuel
    ensures SourceWindows(n, maxTokens, overlap, start, fuel) == Some(WindowsFrom(n, maxTokens, overlap, start))
    decreases n - start
  {
    var end := Min(start + maxTokens, n);
    if end < n {
      var next := SourceNextStart(end, overlap);
      assert next == NextStart(start, end, overlap) == end - overlap;
      SourceWindowsAgree(n, maxTokens, overlap, next, fuel - 1);
      assert WindowsFrom(n, maxTokens, overlap, start) == [Window(start, end)] + WindowsFrom(n, maxTokens, overlap, next);
    } else {
      assert fuel > 0;
      assert WindowsFrom(n, maxTokens, overlap, start) == [Window(start, end)] + [] == [Window(start, end)];
    }
  }

  /** The bounds of the settings form: a block size of 1000 to 128000 tokens
      and an overlap of 0 to 1000 tokens. */
  predicate SettingsAllowed(chunkSize: int, overlap: int)
  {
    1000 <= chunkSize <= 128000 && 0 <= overlap <= 1000
  }

  /** Within the settings form the overlap is below the block size, where
      both steps agree, except for one setting: a block of 1000 tokens with
      an overlap of 1000. */
  lemma SettingsKeepOverlapBelowSize(chunkSize: int, overlap: int)
    requires SettingsAllowed(chunkSize, overlap)
    ensures overlap < chunkSize <==> !(chunkSize == 1000 && overlap == 1000)
  {
  }

  /** With `maxTokens == overlap == 1000`, which the settings form allows, and
      2001 tokens, the loop as written goes from start 0 to start 1000 and then
      stays there: however many iterations it is given, it never stops. The
      modelled step moves on from [1000, 2000) to 2000. */
  lemma SourceStepStalls(fuel: nat)
    ensures SettingsAllowed(1000, 1000)
    ensures SourceWindows(2001, 1000, 1000, 0, fuel) == None
    ensures NextStart(1000, 2000, 1000) == 2000
  {
    if fuel > 0 {
      SourceStallsAt1000(fuel - 1);
    }
  }

  lemma {:induction false} SourceStallsAt1000(fuel: nat)
    ensures SourceWindows(2001, 1000, 1000, 1000, fuel) == None
  {
    if fuel > 0 {
      assert SourceNextStart(2000, 1000) == 1000;
      SourceStallsAt1000(fuel - 1);
    }
  }

  /** With `overlap == maxTokens`, a text of more than `2 * maxTokens` tokens
      never finishes: the second window starts at `maxTokens` and every later
      step returns there. */
  lemma SourceStallsWhenLong(n: nat, maxTokens: nat, fuel: nat)
    requires 0 < maxTokens && 2 * maxTokens < n
    ensures SourceWindows(n, maxTokens, maxTokens, 0, fuel) == None
  {
    if fuel > 0 {
      assert SourceNextStart(maxTokens, maxTokens) == maxTokens;
      SourceStallsAtBlock(n, maxTokens, fuel - 1);
    }
  }

  lemma {:induction false} SourceStallsAtBlock(n: nat, maxTokens: nat, fuel: nat)
    requires 0 < maxTokens && 2 * maxTokens < n
    ensures SourceWindows(n, maxTokens, maxTokens, maxTokens, fuel) == None
  {
    if fuel > 0 {
      assert SourceNextStart(2 * maxTokens, maxTokens) == maxTokens;
      SourceStallsAtBlock(n, maxTokens, fuel - 1);
    }
  }

  /** With `overlap == maxTokens`, a text of at most `2 * maxTokens` tokens
      finishes within two iterations, with exactly the modelled windows. */
  lemma SourceShortAgrees(n: nat, maxTokens: nat)
    requires 0 < maxTokens && 0 < n <= 2 * maxTokens
    ensures SourceWindows(n, maxTokens, maxTokens, 0, 2) == Some(ChunkWindows(n, maxTokens, maxTokens))
  {
    if n > maxTokens {
      var w1, w2 := Window(0, maxTokens), Window(maxTokens, n);
      assert SourceNextStart(maxTokens, maxTokens) == maxTokens;
      assert NextStart(0, maxTokens, maxTokens) == maxTokens;
      assert WindowsFrom(n, maxTokens, maxTokens, maxTokens) == [w2] + [] == [w2];
      assert SourceWindows(n, maxTokens, maxTokens, maxTokens, 1) == Some([w2]);
      assert ChunkWindows(n, maxTokens, maxTokens) == [w1] + [w2];
    } else {
      assert WindowsFrom(n, maxTokens, maxTokens, 0) == [Window(0, n)] + [] == [Window(0, n)];
    }
  }

  /** With `overlap > maxTokens` (out of the settings form's reach) the loop as
      written steps back. For some lengths it still stops, with other windows
      than the model: for 5 tokens, windows of 2 and an overlap of 3 it emits
      [0,2), [2,4), [1,3), [3,5), where the modelled loop emits [0,2), [2,4),
      [4,5). */
  lemma SourceStepsBack()
    ensures SourceWindows(5, 2, 3, 0, 4) == Some([Window(0, 2), Window(2, 4), Window(1, 3), Window(3, 5)])
    ensures ChunkWindows(5, 2, 3) == [Window(0, 2), Window(2, 4), Window(4, 5)]
  {
    var w1, w2, w3, w4 := Window(0, 2), Window(2, 4), Window(1, 3), Window(3, 5);
    assert SourceWindows(5, 2, 3, 3, 1) == Some([w4]);
    assert SourceWindows(5, 2, 3, 1, 2) == Some([w3] + [w4]);
    assert [w3] + [w4] == [w3, w4];
    assert SourceWindows(5, 2, 3, 2, 3) == Some([w2] + [w3, w4]);
    assert [w2] + [w3, w4] == [w2, w3, w4];
    assert SourceWindows(5, 2, 3, 0, 4) == Some([w1] + [w2, w3, w4]);
    assert [w1] + [w2, w3, w4] == [w1, w2, w3, w4];
  }

  /** For other lengths it cycles forever: for 7 tokens, windows of 2 and an
      overlap of 3 the starts run 0, 2, 1, 3, 2, 1, 3, ... and no window
      reaches the end, where the modelled loop emits [0,2), [2,4), [4,6),
      [6,7). */
  lemma SourceStepsBackForever(fuel: nat)
    ensures SourceWindows(7, 2, 3, 0, fuel) == None
    ensures ChunkWindows(7, 2, 3) == [Window(0, 2), Window(2, 4), Window(4, 6), Window(6, 7)]
  {
    if fuel > 0 {
      SourceCyclesFrom2(fuel - 1);
    }
    var w1, w2, w3, w4 := Window(0, 2), Window(2, 4), Window(4, 6), Window(6, 7);
    assert WindowsFrom(7, 2, 3, 6) == [w4] + [] == [w4];
    assert WindowsFrom(7, 2, 3, 4) == [w3] + [w4] == [w3, w4];
    assert WindowsFrom(7, 2, 3, 2) == [w2] + [w3, w4] == [w2, w3, w4];
    assert WindowsFrom(7, 2, 3, 0) == [w1] + [w2, w3, w4] == [w1, w2, w3, w4];
  }

  /** The cycle 2, 1, 3, 2 of the starts for 7 tokens, windows of 2 and an
      overlap of 3. */
  lemma {:induction false} SourceCyclesFrom2(fuel: nat)
    ensures SourceWindows(7, 2, 3, 2, fuel) == None
    decreases fuel
  {
    if fuel >= 3 {
      SourceCyclesFrom2(fuel - 3);
      assert SourceWindows(7, 2, 3, 3, fuel - 2) == None;
      assert SourceWindows(7, 2, 3, 1, fuel - 1) == None;
    } else if fuel == 2 {
      assert SourceWindows(7, 2, 3, 3, 0) == None;
      assert SourceWindows(7, 2, 3, 1, 1) == None;
    } else if fuel == 1 {
      assert SourceWindows(7, 2, 3, 1, 0) == None;
    }
  }
}
