/**
 * The transcript text builders that feed the summariser:
 * `join_transcription_text` (normalising what a transcription engine returns),
 * `build_text_from_transcription` (the text handed to the language model) and
 * the speaker-rename step of the transcript view.
 *
 * Segment times are whole seconds (see module Durations).
 */
module Transcripts {
  import opened Text
  import opened Durations

  /** One diarized segment: `(start, end, speaker, text)`. */
  datatype Segment = Segment(start: nat, end: nat, speaker: string, text: string)

  /** What the application keeps after a transcription run: plain lines when
      diarization is off, segments when it is on. */
  datatype Transcription = Lines(lines: seq<string>) | Segments(segments: seq<Segment>)

  /** The argument of `join_transcription_text`: `None`, a list or tuple of
      pieces, or any other value (whose `str()` is given). */
  datatype RawText = NoText | Pieces(pieces: seq<string>) | Single(text: string)

  // ---------------------------------------------------------------------------
  // join_transcription_text
  // ---------------------------------------------------------------------------

  /** `[str(x).strip() for x in xs if str(x).strip()]`. */
  function StrippedNonBlank(xs: seq<string>): (r: seq<string>)
    ensures |r| <= |xs|
    ensures forall i :: 0 <= i < |r| ==> r[i] != [] && Strip(r[i]) == r[i]
    decreases |xs|
  {
    if xs == [] then []
    else
      var p := Strip(xs[0]);
      StripIdempotent(xs[0]);
      (if p != [] then [p] else []) + StrippedNonBlank(xs[1..])
  }

  /** `join_transcription_text`. */
  function JoinTranscriptionText(raw: RawText): string
  {
    match raw
    case NoText => ""
    case Pieces(xs) => Join(" ", StrippedNonBlank(xs))
    case Single(s) => Strip(s)
  }

  /** The words of every piece, in order. */
  function WordsOf(xs: seq<string>): seq<string>
    decreases |xs|
  {
    if xs == [] then [] else SplitWords(xs[0]) + WordsOf(xs[1..])
  }

  lemma {:induction false} JoinWords(parts: seq<string>)
    ensures SplitWords(Join(" ", parts)) == WordsOf(parts)
    decreases |parts|
  {
    if |parts| == 1 {
      assert WordsOf(parts[1..]) == [];
    } else if |parts| > 1 {
      JoinWords(parts[1..]);
      SplitWordsAround(parts[0], ' ', Join(" ", parts[1..]));
      assert Join(" ", parts) == parts[0] + [' '] + Join(" ", parts[1..]);
    }
  }

  lemma WordsOfCons(p: string, rest: seq<string>)
    ensures WordsOf([p] + rest) == SplitWords(p) + WordsOf(rest)
  {
    assert ([p] + rest)[1..] == rest;
  }

  lemma {:induction false} StrippedNonBlankWords(xs: seq<string>)
    ensures WordsOf(StrippedNonBlank(xs)) == WordsOf(xs)
    decreases |xs|
  {
    if xs != [] {
      var p := Strip(xs[0]);
      var rest := StrippedNonBlank(xs[1..]);
      StripKeepsWords(xs[0]);
      StrippedNonBlankWords(xs[1..]);
      assert WordsOf(xs) == SplitWords(xs[0]) + WordsOf(xs[1..]);
      if p != [] {
        assert StrippedNonBlank(xs) == [p] + rest;
        WordsOfCons(p, rest);
      } else {
        assert StrippedNonBlank(xs) == rest;
        assert SplitWords(xs[0]) == [];
      }
    }
  }

  /** Joining the pieces keeps every word of every piece, in order: only the
      whitespace between and around them changes. */
  lemma JoinTranscriptionKeepsWords(xs: seq<string>)
    ensures SplitWords(JoinTranscriptionText(Pieces(xs))) == WordsOf(xs)
  {
    JoinWords(StrippedNonBlank(xs));
    StrippedNonBlankWords(xs);
  }

  lemma {:induction false} JoinOfStrippedIsStripped(parts: seq<string>)
    requires forall i :: 0 <= i < |parts| ==> parts[i] != [] && Strip(parts[i]) == parts[i]
    ensures var r := Join(" ", parts);
      r == [] || (!IsSpace(r[0]) && !IsSpace(r[|r| - 1]))
    decreases |parts|
  {
    if |parts| > 1 {
      JoinOfStrippedIsStripped(parts[1..]);
      StripSpec(parts[0]);
      var r := Join(" ", parts);
      var tail := Join(" ", parts[1..]);
      assert r == parts[0] + " " + tail;
      assert r[0] == parts[0][0];
      assert r[|r| - 1] == tail[|tail| - 1];
    } else if |parts| == 1 {
      StripSpec(parts[0]);
    }
  }

  /** Whatever the input, the result has no surrounding whitespace. */
  lemma JoinTranscriptionIsStripped(raw: RawText)
    ensures Strip(JoinTranscriptionText(raw)) == JoinTranscriptionText(raw)
  {
    match raw
    case NoText =>
    case Single(s) => StripIdempotent(s);
    case Pieces(xs) =>
      JoinOfStrippedIsStripped(StrippedNonBlank(xs));
      StripFixed(Join(" ", StrippedNonBlank(xs)));
  }

  lemma {:induction false} StrippedNonBlankEmpty(xs: seq<string>)
    ensures StrippedNonBlank(xs) == [] <==> forall i :: 0 <= i < |xs| ==> Strip(xs[i]) == []
    decreases |xs|
  {
    if xs != [] {
      var p := Strip(xs[0]);
      var tail := xs[1..];
      StrippedNonBlankEmpty(tail);
      if p != [] {
        assert StrippedNonBlank(xs) == [p] + StrippedNonBlank(tail);
      } else {
        assert StrippedNonBlank(xs) == StrippedNonBlank(tail);
        assert (forall i :: 0 <= i < |tail| ==> Strip(tail[i]) == [])
           ==> (forall i :: 0 <= i < |xs| ==> Strip(xs[i]) == []) by {
          forall i | 1 <= i < |xs|
            ensures xs[i] == tail[i - 1]
          {
          }
        }
      }
    }
  }

  /** The joined text is empty exactly when every piece is blank. */
  lemma JoinTranscriptionEmpty(xs: seq<string>)
    ensures JoinTranscriptionText(Pieces(xs)) == "" <==> forall i :: 0 <= i < |xs| ==> Strip(xs[i]) == ""
  {
    StrippedNonBlankEmpty(xs);
    var parts := StrippedNonBlank(xs);
    if parts != [] {
      JoinOfStrippedIsStripped(parts);
      assert |Join(" ", parts)| >= |parts[0]| by {
        if |parts| > 1 {
          assert Join(" ", parts) == parts[0] + " " + Join(" ", parts[1..]);
        }
      }
    }
  }

  // ---------------------------------------------------------------------------
  // build_text_from_transcription
  // ---------------------------------------------------------------------------

  /** "<start> - <end>", both in the `format_duration` layout. */
  function Stamps(seg: Segment): string
  {
    FormatDuration(seg.start) + " - " + FormatDuration(seg.end)
  }

  /** One line of the diarized text: "<stamps> — <speaker>: <text>", or
      "<stamps> — <text>" when speakers are not included. */
  function SegmentLine(seg: Segment, includeSpeakers: bool): string
  {
    Stamps(seg) + " — " + (if includeSpeakers then seg.speaker + ": " else "") + seg.text
  }

  function SegmentLines(segs: seq<Segment>, includeSpeakers: bool): (lines: seq<string>)
    ensures |lines| == |segs|
    ensures forall i :: 0 <= i < |segs| ==> lines[i] == SegmentLine(segs[i], includeSpeakers)
  {
    seq(|segs|, i requires 0 <= i < |segs| => SegmentLine(segs[i], includeSpeakers))
  }

  /** `build_text_from_transcription`. The flag must match the shape of what
      was transcribed, as it does when the app builds the text right after a
      transcription run. */
  function BuildText(t: Transcription, diarizationEnabled: bool, includeSpeakers: bool): (r: string)
    requires diarizationEnabled <==> t.Segments?
    ensures (t.Lines? && t.lines == []) || (t.Segments? && t.segments == []) ==> r == ""
  {
    match t
    case Lines(ls) => if ls == [] then "" else Join("\n", ls)
    case Segments(ss) => if ss == [] then "" else Join("\n", SegmentLines(ss, includeSpeakers))
  }

  predicate NoNewline(s: string) {
    '\n' !in s
  }

  lemma NoNewlineConcat(a: string, b: string)
    requires NoNewline(a) && NoNewline(b)
    ensures NoNewline(a + b)
  {
    assert forall j :: 0 <= j < |a + b| ==> (a + b)[j] == if j < |a| then a[j] else b[j - |a|];
  }

  lemma DigitsHaveNoNewline(s: string)
    requires AllDigits(s)
    ensures NoNewline(s)
  {
    assert forall j :: 0 <= j < |s| ==> s[j] != '\n';
  }

  lemma LineHasNoNewline(seg: Segment, includeSpeakers: bool)
    requires NoNewline(seg.speaker) && NoNewline(seg.text)
    ensures NoNewline(SegmentLine(seg, includeSpeakers))
  {
    var a, b := seg.start, seg.end;
    DigitsHaveNoNewline(NatToString(a / 60));
    DigitsHaveNoNewline(NatToString(a % 60));
    DigitsHaveNoNewline(NatToString(b / 60));
    DigitsHaveNoNewline(NatToString(b % 60));
    NoNewlineConcat(NatToString(a / 60), "m");
    NoNewlineConcat(NatToString(a / 60) + "m", NatToString(a % 60));
    NoNewlineConcat(NatToString(a / 60) + "m" + NatToString(a % 60), "s");
    NoNewlineConcat(NatToString(b / 60), "m");
    NoNewlineConcat(NatToString(b / 60) + "m", NatToString(b % 60));
    NoNewlineConcat(NatToString(b / 60) + "m" + NatToString(b % 60), "s");
    NoNewlineConcat(FormatDuration(a), " - ");
    NoNewlineConcat(FormatDuration(a) + " - ", FormatDuration(b));
    NoNewlineConcat(Stamps(seg), " — ");
    NoNewlineConcat(seg.speaker, ": ");
    var who := if includeSpeakers then seg.speaker + ": " else "";
    NoNewlineConcat(Stamps(seg) + " — ", who);
    NoNewlineConcat(Stamps(seg) + " — " + who, seg.text);
  }

  /** Without diarization, reading the text back line by line gives the
      transcribed lines, provided none of them contains a line break. */
  lemma PlainTextLines(ls: seq<string>)
    requires ls != [] && forall i :: 0 <= i < |ls| ==> NoNewline(ls[i])
    ensures SplitOn(BuildText(Lines(ls), false, false), '\n') == ls
  {
    SplitOnJoinRoundTrip(ls, '\n');
  }

  /** With diarization, the text has exactly one line per segment, in segment
      order, each carrying the segment's timestamps, the speaker only when
      speakers are included, and the segment's text. */
  lemma DiarizedTextLines(ss: seq<Segment>, includeSpeakers: bool)
    requires ss != []
    requires forall i :: 0 <= i < |ss| ==> NoNewline(ss[i].speaker) && NoNewline(ss[i].text)
    ensures var lines := SplitOn(BuildText(Segments(ss), true, includeSpeakers), '\n');
      && |lines| == |ss|
      && forall i :: 0 <= i < |ss| ==>
           lines[i] == Stamps(ss[i]) + " — " + (if includeSpeakers then ss[i].speaker + ": " else "") + ss[i].text
  {
    var lines := SegmentLines(ss, includeSpeakers);
    forall i | 0 <= i < |ss|
      ensures NoNewline(lines[i])
    {
      LineHasNoNewline(ss[i], includeSpeakers);
    }
    SplitOnJoinRoundTrip(lines, '\n');
  }

  // ---------------------------------------------------------------------------
  // Speaker rename
  // ---------------------------------------------------------------------------

  /** `mapping.get(sp, sp)`. */
  function Lookup(mapping: map<string, string>, sp: string): string
  {
    if sp in mapping then mapping[sp] else sp
  }

  /** The rename comprehension: every segment keeps its times and text and
      takes the display name of its speaker (or keeps its label when the
      mapping has none). */
  function RenameSpeakers(ss: seq<Segment>, mapping: map<string, string>): (r: seq<Segment>)
    ensures |r| == |ss|
    ensures forall i :: 0 <= i < |ss| ==>
      r[i].start == ss[i].start && r[i].end == ss[i].end && r[i].text == ss[i].text
      && r[i].speaker == (if ss[i].speaker in mapping then mapping[ss[i].speaker] else ss[i].speaker)
  {
    seq(|ss|, i requires 0 <= i < |ss| => ss[i].(speaker := Lookup(mapping, ss[i].speaker)))
  }

  /** A mapping that sends every label to itself (the form's initial state)
      changes nothing. */
  lemma RenameIdentity(ss: seq<Segment>, mapping: map<string, string>)
    requires forall sp :: sp in mapping ==> mapping[sp] == sp
    ensures RenameSpeakers(ss, mapping) == ss
  {
    var r := RenameSpeakers(ss, mapping);
    assert forall i :: 0 <= i < |ss| ==> r[i] == ss[i];
  }

  /** The mapping that applies `first` and then `second`. */
  function Compose(first: map<string, string>, second: map<string, string>): map<string, string>
  {
    map sp | sp in first.Keys + second.Keys :: Lookup(second, Lookup(first, sp))
  }

  /** Renaming twice is renaming once with the composed mapping. */
  lemma RenameTwice(ss: seq<Segment>, first: map<string, string>, second: map<string, string>)
    ensures RenameSpeakers(RenameSpeakers(ss, first), second) == RenameSpeakers(ss, Compose(first, second))
  {
    var a := RenameSpeakers(RenameSpeakers(ss, first), second);
    var b := RenameSpeakers(ss, Compose(first, second));
    forall i | 0 <= i < |ss|
      ensures a[i] == b[i]
    {
      var sp := ss[i].speaker;
      assert Lookup(Compose(first, second), sp) == Lookup(second, Lookup(first, sp));
    }
  }

  /** Renaming speakers does not change the text given to the model when
      speakers are left out of it. */
  lemma RenameInvisibleWithoutSpeakers(ss: seq<Segment>, mapping: map<string, string>)
    ensures BuildText(Segments(RenameSpeakers(ss, mapping)), true, false) == BuildText(Segments(ss), true, false)
  {
    var r := RenameSpeakers(ss, mapping);
    assert SegmentLines(r, false) == SegmentLines(ss, false);
  }
}
