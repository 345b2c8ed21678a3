/**
 * String helpers with Python's semantics, shared by the transcript builders,
 * the duration formatters, the chunker and the summary prompts:
 * `sep.join(parts)`, `str.split()`, `str.strip()`, `str(n)`, `f"{n:02d}"`
 * and list slicing with Python's index normalisation.
 */
module Text {

  /** A value that may be missing: Python's `None`, or a parse that fails. */
  datatype Option<+T> = None | Some(value: T)

  /** The characters for which Python's `str.isspace()` holds; `split()` and
      `strip()` without arguments cut on exactly these: tab, line feed, vertical
      tab, form feed, carriage return, the four information separators, space,
      next line, no-break space, and the Unicode space and line/paragraph
      separators. */
  const Spaces: set<char> := {
    '\t', '\n', '\U{000B}', '\U{000C}', '\r',
    '\U{001C}', '\U{001D}', '\U{001E}', '\U{001F}',
    ' ', '\U{0085}', '\U{00A0}', '\U{1680}',
    '\U{2000}', '\U{2001}', '\U{2002}', '\U{2003}', '\U{2004}', '\U{2005}',
    '\U{2006}', '\U{2007}', '\U{2008}', '\U{2009}', '\U{200A}',
    '\U{2028}', '\U{2029}', '\U{202F}', '\U{205F}', '\U{3000}'
  }

  predicate IsSpace(c: char) {
    c in Spaces
  }

  predicate NoSpace(s: string) {
    forall i :: 0 <= i < |s| ==> !IsSpace(s[i])
  }

  /** A word as `str.split()` produces it: non-empty and free of whitespace. */
  predicate IsWord(w: string) {
    w != [] && NoSpace(w)
  }

  /** `sep.join(parts)`. */
  function Join(sep: string, parts: seq<string>): string
    decreases |parts|
  {
    if |parts| == 0 then ""
    else if |parts| == 1 then parts[0]
    else parts[0] + sep + Join(sep, parts[1..])
  }

  lemma {:induction false} JoinAppend(sep: string, parts: seq<string>, p: string)
    requires parts != []
    ensures Join(sep, parts + [p]) == Join(sep, parts) + sep + p
    decreases |parts|
  {
    if |parts| == 1 {
      assert parts + [p] == [parts[0], p];
    } else {
      assert (parts + [p])[1..] == parts[1..] + [p];
      JoinAppend(sep, parts[1..], p);
    }
  }

  /** `t` occurs in `s` at offset `k`. */
  predicate OccursAt(s: string, t: string, k: nat) {
    k + |t| <= |s| && s[k..k + |t|] == t
  }

  /** An occurrence in `b` is one in `a + b`, shifted by `|a|`. */
  lemma OccursAfter(a: string, b: string, t: string, k: nat)
    requires OccursAt(b, t, k)
    ensures OccursAt(a + b, t, |a| + k)
  {
    var s := a + b;
    forall j | 0 <= j < |t|
      ensures s[|a| + k + j] == t[j]
    {
      assert s[|a| + k + j] == b[k + j];
    }
    assert s[|a| + k..|a| + k + |t|] == t;
  }

  /** Where part `i` begins in `sep.join(parts)`. */
  function JoinOffset(sep: string, parts: seq<string>, i: nat): nat
    requires i < |parts|
  {
    if i == 0 then 0 else |parts[0]| + |sep| + JoinOffset(sep, parts[1..], i - 1)
  }

  /** Every part appears in the joined text, at its offset. */
  lemma {:induction false} JoinHoldsParts(sep: string, parts: seq<string>, i: nat)
    requires i < |parts|
    ensures OccursAt(Join(sep, parts), parts[i], JoinOffset(sep, parts, i))
    decreases i
  {
    var s := Join(sep, parts);
    if i == 0 {
      if |parts| > 1 {
        assert s == parts[0] + (sep + Join(sep, parts[1..]));
      }
    } else {
      var rest := Join(sep, parts[1..]);
      var pre := parts[0] + sep;
      assert s == pre + rest;
      JoinHoldsParts(sep, parts[1..], i - 1);
      var k := JoinOffset(sep, parts[1..], i - 1);
      OccursAfter(pre, rest, parts[i], k);
    }
  }

  /** In the joined text, part `i + 1` begins right after part `i` and one
      separator: the parts keep their order. */
  lemma {:induction false} JoinOffsetsInOrder(sep: string, parts: seq<string>, i: nat)
    requires i + 1 < |parts|
    ensures JoinOffset(sep, parts, i + 1) == JoinOffset(sep, parts, i) + |parts[i]| + |sep|
    decreases i
  {
    if i > 0 {
      JoinOffsetsInOrder(sep, parts[1..], i - 1);
    }
  }

  // ---------------------------------------------------------------------------
  // str.split()
  // ---------------------------------------------------------------------------

  /** Index of the first whitespace character at or after `i`, or `|s|`. */
  function WordEnd(s: string, i: nat): (k: nat)
    requires i <= |s|
    ensures i <= k <= |s|
    ensures k < |s| ==> IsSpace(s[k])
    ensures forall j :: i <= j < k ==> !IsSpace(s[j])
    decreases |s| - i
  {
    if i == |s| || IsSpace(s[i]) then i else WordEnd(s, i + 1)
  }

  /** `s.split()`: the maximal runs of non-whitespace characters, in order. */
  function SplitWords(s: string): (words: seq<string>)
    decreases |s|
  {
    if s == [] then []
    else if IsSpace(s[0]) then SplitWords(s[1..])
    else
      var k := WordEnd(s, 0);
      [s[..k]] + SplitWords(s[k..])
  }

  /** Every piece `split()` returns is a word. */
  lemma {:induction false} SplitWordsAreWords(s: string)
    ensures forall i :: 0 <= i < |SplitWords(s)| ==> IsWord(SplitWords(s)[i])
    decreases |s|
  {
    if s == [] {
    } else if IsSpace(s[0]) {
      SplitWordsAreWords(s[1..]);
    } else {
      var k := WordEnd(s, 0);
      SplitWordsAreWords(s[k..]);
      assert forall j :: 0 <= j < k ==> s[..k][j] == s[j];
    }
  }

  /** Splitting a string that starts with a space drops that space. */
  lemma SplitWordsLeadingSpace(rest: string)
    ensures SplitWords(" " + rest) == SplitWords(rest)
  {
    assert (" " + rest)[1..] == rest;
  }

  /** Splitting `w + tail`, where `w` is a word and `tail` is empty or starts
      with whitespace, yields `w` followed by the words of `tail`. */
  lemma {:induction false} SplitWordsWordThen(w: string, tail: string)
    requires IsWord(w)
    requires tail == [] || IsSpace(tail[0])
    ensures SplitWords(w + tail) == [w] + SplitWords(tail)
  {
    var s := w + tail;
    WordEndAt(s, 0, |w|);
    assert s[..|w|] == w;
    assert s[|w|..] == tail;
  }

  lemma {:induction false} WordEndAt(s: string, i: nat, k: nat)
    requires i <= k <= |s|
    requires forall j :: i <= j < k ==> !IsSpace(s[j])
    requires k == |s| || IsSpace(s[k])
    ensures WordEnd(s, i) == k
    decreases k - i
  {
    if i < k {
      WordEndAt(s, i + 1, k);
    }
  }

  /** Round trip: `" ".join(words).split() == words` for any list of words. */
  lemma {:induction false} SplitJoinRoundTrip(words: seq<string>)
    requires forall i :: 0 <= i < |words| ==> IsWord(words[i])
    ensures SplitWords(Join(" ", words)) == words
    decreases |words|
  {
    if |words| == 0 {
    } else if |words| == 1 {
      SplitWordsWordThen(words[0], "");
      assert words[0] + "" == words[0];
    } else {
      var rest := Join(" ", words[1..]);
      SplitJoinRoundTrip(words[1..]);
      assert Join(" ", words) == words[0] + (" " + rest);
      SplitWordsWordThen(words[0], " " + rest);
      SplitWordsLeadingSpace(rest);
    }
  }

  /** A whitespace character separates: the words of `a + [c] + b` are the
      words of `a` followed by the words of `b`. */
  lemma {:induction false} SplitWordsAround(a: string, c: char, b: string)
    requires IsSpace(c)
    ensures SplitWords(a + [c] + b) == SplitWords(a) + SplitWords(b)
    decreases |a|
  {
    var s := a + [c] + b;
    if a == [] {
      assert s[1..] == b;
    } else if IsSpace(a[0]) {
      assert s[1..] == a[1..] + [c] + b;
      SplitWordsAround(a[1..], c, b);
    } else {
      var k := WordEnd(a, 0);
      assert s[k] == if k < |a| then a[k] else c;
      WordEndAt(s, 0, k);
      assert s[..k] == a[..k];
      assert s[k..] == a[k..] + [c] + b;
      SplitWordsAround(a[k..], c, b);
    }
  }

  /** A string made of whitespace only has no words. */
  lemma {:induction false} SplitWordsBlank(s: string)
    requires forall i :: 0 <= i < |s| ==> IsSpace(s[i])
    ensures SplitWords(s) == []
    decreases |s|
  {
    if s != [] {
      SplitWordsBlank(s[1..]);
    }
  }

  // ---------------------------------------------------------------------------
  // str.strip()
  // ---------------------------------------------------------------------------

  /** How many whitespace characters `s` starts with. */
  function LeadingSpaces(s: string): (k: nat)
    ensures k <= |s|
    decreases |s|
  {
    if s != [] && IsSpace(s[0]) then 1 + LeadingSpaces(s[1..]) else 0
  }

  /** The length of `s` without its trailing whitespace. */
  function TrailingCut(s: string): (k: nat)
    ensures k <= |s|
    decreases |s|
  {
    if s != [] && IsSpace(s[|s| - 1]) then TrailingCut(s[..|s| - 1]) else |s|
  }

  /** Where the text `strip()` keeps ends: after the leading whitespace, the
      length of the rest without its trailing whitespace. */
  function StripEnd(s: string): (b: nat)
    ensures LeadingSpaces(s) <= b <= |s|
  {
    LeadingSpaces(s) + TrailingCut(s[LeadingSpaces(s)..])
  }

  /** `s.strip()`: `s` without its leading and trailing whitespace. */
  function Strip(s: string): string
  {
    s[LeadingSpaces(s)..StripEnd(s)]
  }

  /** `LeadingSpaces` counts exactly the whitespace before the first other
      character. */
  lemma {:induction false} LeadingSpacesSpec(s: string)
    ensures var k := LeadingSpaces(s);
      && (forall j :: 0 <= j < k ==> IsSpace(s[j]))
      && (k < |s| ==> !IsSpace(s[k]))
    decreases |s|
  {
    if s != [] && IsSpace(s[0]) {
      LeadingSpacesSpec(s[1..]);
      var k := LeadingSpaces(s);
      forall j | 1 <= j < k
        ensures IsSpace(s[j])
      {
        assert s[j] == s[1..][j - 1];
      }
      if k < |s| {
        assert s[k] == s[1..][k - 1];
      }
    }
  }

  /** `TrailingCut` cuts exactly the whitespace after the last other
      character. */
  lemma {:induction false} TrailingCutSpec(s: string)
    ensures var k := TrailingCut(s);
      && (forall j :: k <= j < |s| ==> IsSpace(s[j]))
      && (k > 0 ==> !IsSpace(s[k - 1]))
    decreases |s|
  {
    if s != [] && IsSpace(s[|s| - 1]) {
      var init := s[..|s| - 1];
      TrailingCutSpec(init);
      var k := TrailingCut(s);
      forall j | k <= j < |s| - 1
        ensures IsSpace(s[j])
      {
        assert s[j] == init[j];
      }
      if k > 0 {
        assert s[k - 1] == init[k - 1];
      }
    }
  }

  /** What `strip()` keeps is the piece `s[a..b]` between the leading and the
      trailing whitespace: everything it removed is whitespace, and what it
      kept neither starts nor ends with whitespace. */
  lemma StripSpec(s: string)
    ensures var a, b := LeadingSpaces(s), StripEnd(s);
      && Strip(s) == s[a..b]
      && (forall j :: 0 <= j < a ==> IsSpace(s[j]))
      && (forall j :: b <= j < |s| ==> IsSpace(s[j]))
      && (a < b ==> !IsSpace(s[a]) && !IsSpace(s[b - 1]))
  {
    LeadingSpacesSpec(s);
    StripDropsTrailing(s);
    StripKeptEnds(s);
  }

  lemma SliceOfSuffix(s: string, i: nat, m: nat)
    requires i + m <= |s|
    ensures s[i..][..m] == s[i..i + m]
  {
  }

  lemma StripDropsTrailing(s: string)
    ensures forall j :: StripEnd(s) <= j < |s| ==> IsSpace(s[j])
  {
    var a := LeadingSpaces(s);
    var l := s[a..];
    TrailingCutSpec(l);
    forall j | StripEnd(s) <= j < |s|
      ensures IsSpace(s[j])
    {
      assert s[j] == l[j - a];
    }
  }

  lemma StripKeptEnds(s: string)
    ensures var a, b := LeadingSpaces(s), StripEnd(s);
      a < b ==> !IsSpace(s[a]) && !IsSpace(s[b - 1])
  {
    var a := LeadingSpaces(s);
    var l := s[a..];
    var c := TrailingCut(l);
    LeadingSpacesSpec(s);
    TrailingCutSpec(l);
    if c > 0 {
      assert s[a + c - 1] == l[c - 1];
    }
  }

  /** The stripped text is empty or starts and ends with a non-whitespace
      character. */
  lemma StripEdges(s: string)
    ensures var r := Strip(s);
      r == [] || (!IsSpace(r[0]) && !IsSpace(r[|r| - 1]))
  {
    StripSpec(s);
  }

  /** A string that neither starts nor ends with whitespace is its own strip. */
  lemma StripFixed(s: string)
    requires s == [] || (!IsSpace(s[0]) && !IsSpace(s[|s| - 1]))
    ensures Strip(s) == s
  {
    assert LeadingSpaces(s) == 0;
    assert s[0..] == s;
    assert TrailingCut(s) == |s|;
    assert StripEnd(s) == |s|;
  }

  /** `strip()` is idempotent. */
  lemma StripIdempotent(s: string)
    ensures Strip(Strip(s)) == Strip(s)
  {
    StripEdges(s);
    StripFixed(Strip(s));
  }

  /** Leading whitespace separates no word. */
  lemma {:induction false} LeadingSpacesKeepWords(s: string)
    ensures SplitWords(s[LeadingSpaces(s)..]) == SplitWords(s)
    decreases |s|
  {
    if s != [] && IsSpace(s[0]) {
      LeadingSpacesKeepWords(s[1..]);
      assert s[1 + LeadingSpaces(s[1..])..] == s[1..][LeadingSpaces(s[1..])..];
    }
  }

  /** Neither does trailing whitespace. */
  lemma TrailingCutKeepsWords(s: string)
    ensures SplitWords(s[..TrailingCut(s)]) == SplitWords(s)
  {
    var k := TrailingCut(s);
    TrailingCutSpec(s);
    if k < |s| {
      var r := s[..k];
      var rest := s[k + 1..];
      assert s == r + [s[k]] + rest;
      assert forall j :: 0 <= j < |rest| ==> rest[j] == s[k + 1 + j];
      SplitWordsBlank(rest);
      SplitWordsAround(r, s[k], rest);
      assert SplitWords(r) + [] == SplitWords(r);
    } else {
      assert s[..k] == s;
    }
  }

  /** `strip()` removes no word. */
  lemma StripKeepsWords(s: string)
    ensures SplitWords(Strip(s)) == SplitWords(s)
  {
    var a := LeadingSpaces(s);
    var l := s[a..];
    LeadingSpacesKeepWords(s);
    TrailingCutKeepsWords(l);
    SliceOfSuffix(s, a, TrailingCut(l));
  }

  // ---------------------------------------------------------------------------
  // str.split(c) for a one-character separator
  // ---------------------------------------------------------------------------

  /** Position of the first `c` in `s`, if any. */
  function IndexOf(s: string, c: char): (r: Option<nat>)
    ensures r.Some? ==> r.value < |s| && s[r.value] == c
                        && forall j :: 0 <= j < r.value ==> s[j] != c
    ensures r.None? ==> forall j :: 0 <= j < |s| ==> s[j] != c
    decreases |s|
  {
    if s == [] then None
    else if s[0] == c then Some(0)
    else match IndexOf(s[1..], c)
      case None => None
      case Some(k) => Some(k + 1)
  }

  /** The first `c` in `a + [c] + b` is at `|a|` when `a` holds no `c`. */
  lemma IndexOfFirst(a: string, c: char, b: string)
    requires forall j :: 0 <= j < |a| ==> a[j] != c
    ensures IndexOf(a + [c] + b, c) == Some(|a|)
  {
    var s := a + [c] + b;
    assert s[|a|] == c;
    assert forall j :: 0 <= j < |a| ==> s[j] == a[j];
  }

  /** `s.split(c)`: the pieces between occurrences of `c`; never empty. */
  function SplitOn(s: string, c: char): (pieces: seq<string>)
    ensures |pieces| >= 1
    decreases |s|
  {
    match IndexOf(s, c)
    case None => [s]
    case Some(k) => [s[..k]] + SplitOn(s[k + 1..], c)
  }

  /** Round trip: `c.join(parts).split(c) == parts` when no part contains `c`. */
  lemma {:induction false} SplitOnJoinRoundTrip(parts: seq<string>, c: char)
    requires parts != []
    requires forall i :: 0 <= i < |parts| ==> c !in parts[i]
    ensures SplitOn(Join([c], parts), c) == parts
    decreases |parts|
  {
    var p := parts[0];
    if |parts| == 1 {
      assert IndexOf(p, c) == None;
    } else {
      var rest := Join([c], parts[1..]);
      var s := Join([c], parts);
      assert s == p + [c] + rest;
      IndexOfFirst(p, c, rest);
      assert s[..|p|] == p;
      assert s[|p| + 1..] == rest;
      SplitOnJoinRoundTrip(parts[1..], c);
    }
  }

  // ---------------------------------------------------------------------------
  // str(n), f"{n:02d}" and reading them back
  // ---------------------------------------------------------------------------

  predicate IsDigit(c: char) { '0' <= c <= '9' }

  predicate AllDigits(s: string) {
    forall i :: 0 <= i < |s| ==> IsDigit(s[i])
  }

  function DigitChar(d: nat): (c: char)
    requires d < 10
    ensures IsDigit(c)
  {
    ['0', '1', '2', '3', '4', '5', '6', '7', '8', '9'][d]
  }

  function DigitValue(c: char): (d: nat)
    requires IsDigit(c)
    ensures d < 10
  {
    (c as int - '0' as int) as nat
  }

  /** `str(n)` for a non-negative integer: decimal, no leading zero. */
  function NatToString(n: nat): (s: string)
    ensures s != [] && AllDigits(s)
    ensures n >= 10 ==> s[0] != '0'
    ensures n < 10 <==> |s| == 1
    ensures 10 <= n < 100 ==> |s| == 2
  {
    if n < 10 then [DigitChar(n)] else NatToString(n / 10) + [DigitChar(n % 10)]
  }

  /** `f"{n:02d}"`: at least two digits, left-padded with a zero. */
  function Pad2(n: nat): (s: string)
    ensures |s| >= 2 && AllDigits(s)
    ensures n < 100 ==> |s| == 2
  {
    if n < 10 then "0" + NatToString(n) else NatToString(n)
  }

  /** The value of a string of decimal digits (leading zeros allowed). */
  function DigitsValue(s: string): nat
    requires AllDigits(s)
    decreases |s|
  {
    if s == [] then 0 else DigitsValue(s[..|s| - 1]) * 10 + DigitValue(s[|s| - 1])
  }

  /** `int(s)` restricted to plain decimal digits; `None` for anything else. */
  function ParseNat(s: string): (r: Option<nat>)
    ensures r.Some? <==> s != [] && AllDigits(s)
  {
    if s != [] && AllDigits(s) then Some(DigitsValue(s)) else None
  }

  lemma {:induction false} NatToStringValue(n: nat)
    ensures DigitsValue(NatToString(n)) == n
  {
    var s := NatToString(n);
    if n < 10 {
      assert s[..0] == [];
      assert DigitValue(DigitChar(n)) == n;
    } else {
      NatToStringValue(n / 10);
      assert s[..|s| - 1] == NatToString(n / 10);
      assert DigitValue(DigitChar(n % 10)) == n % 10;
    }
  }

  /** `int(str(n)) == n`. */
  lemma NatToStringRoundTrip(n: nat)
    ensures ParseNat(NatToString(n)) == Some(n)
  {
    NatToStringValue(n);
  }

  lemma {:induction false} LeadingZeroValue(s: string)
    requires AllDigits(s)
    ensures AllDigits("0" + s) && DigitsValue("0" + s) == DigitsValue(s)
    decreases |s|
  {
    var t := "0" + s;
    if s == [] {
      assert t[..0] == [];
    } else {
      assert t[..|t| - 1] == "0" + s[..|s| - 1];
      LeadingZeroValue(s[..|s| - 1]);
    }
  }

  /** `int(f"{n:02d}") == n`. */
  lemma Pad2RoundTrip(n: nat)
    ensures ParseNat(Pad2(n)) == Some(n)
  {
    NatToStringValue(n);
    if n < 10 {
      LeadingZeroValue(NatToString(n));
    }
  }

  // ---------------------------------------------------------------------------
  // Python slicing
  // ---------------------------------------------------------------------------

  /** Python's normalisation of one slice bound against a length. */
  function SliceBound(i: int, len: nat): (b: nat)
    ensures b <= len
    ensures 0 <= i <= len ==> b == i
  {
    if i < 0 then (if i + len < 0 then 0 else i + len)
    else if i > len then len
    else i
  }

  /** `s[lo:hi]`: negative bounds count from the end, bounds are clamped, and an
      empty or reversed range gives `[]`. */
  function PySlice<T>(s: seq<T>, lo: int, hi: int): (r: seq<T>)
    ensures |r| <= |s|
    ensures 0 <= lo <= hi <= |s| ==> r == s[lo..hi]
    ensures 0 <= lo && |s| <= lo ==> r == []
  {
    var a := SliceBound(lo, |s|);
    var b := SliceBound(hi, |s|);
    if a < b then s[a..b] else []
  }
}
