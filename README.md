# Synevola summarisation core in Dafny

Synevola is a Streamlit application. It transcribes a recording, optionally
with speaker diarization. It then has a local LLM server summarise the
transcript. This project models the text pipeline between the transcript and
the summary, as `streamlit_appv6.py` implements it:

- **Transcripts** (`transcripts.dfy`):
  - `join_transcription_text` normalises what a transcription engine returns;
  - `build_text_from_transcription` builds the text handed to the model, one
    line per segment: "<start> - <end> — <speaker>: <text>";
  - the speaker-rename form applies a mapping from diarization labels to
    display names.
- **Durations** (`durations.dfy`): `format_duration` ("12m5s") and
  `format_duration_full` ("1h02m05s" / "2m05s"). Each is paired with a reader,
  and round-trip lemmas show the formatted text determines the seconds.
- **Chunker** (`chunker.dfy`):
  - `encode_tokens` / `count_tokens`;
  - `chunk_text_by_tokens`, which cuts the token sequence into overlapping
    windows of at most `max_tokens` and turns every window back into text,
    either with the tokenizer's `decode` or by proportional word slicing.

  The window loop is a method proved to emit the slices of a window list. The
  `Tiling` predicate characterises that list independently of the loop: the
  windows are non-empty, in order and cover every token. When
  `overlap < max_tokens`, they are also exactly `max_tokens` long except the
  last, and overlap by exactly `overlap` tokens.
- **Routing** (`routing.dfy`): `chat_or_complete`. It tries the
  `/v1/chat/completions` endpoint, the `/v1/completions` endpoint, or both
  ("auto"), and turns each endpoint's failure into the error the caller sees.
- **Summary** (`summary.dfy`): `generate_summary`. The direct strategy makes
  one call. The chunked strategy makes one call per block in order, then a
  synthesis call over the "### Bloc i" partial summaries; the first error
  stops it.
- **Text** (`text.dfy`): the Python string operations these rely on:
  - `str.split()`, `str.strip()`, `sep.join`, `s.split('\n')`;
  - `str(n)` and `:02d`;
  - slicing with negative and out-of-range bounds;
  - `round`, with ties to even.

The tokenizer, the two HTTP endpoints and the LLM are parameters: a
`Tokenizer` value (an `encode` function and an optional exact `decode`), the
outcome functions `chat` and `complete`, and `llm(prompt)`.

The model steps the chunker's window loop with a corrected rule
(`NextStart`) that always moves forward. The rule as written agrees with it
whenever `overlap < max_tokens`. With `overlap == max_tokens` it agrees for
texts of at most `2 * max_tokens` tokens and stalls forever on longer ones.
With `overlap > max_tokens` it steps back: for some lengths it finishes with
windows out of order (2, 3 and 5 tokens), for others it cycles forever (2, 3
and 7 tokens). The rule as written is modelled on its own (`SourceNextStart`,
`SourceWindows`); see "## Findings".

## Model

| member | source | states |
|---|---|---|
| Chunker.EncodeTokens | streamlit_appv6.py:551-569 | the empty text encodes to no tokens, whatever the backend |
| Chunker.CountTokens | streamlit_appv6.py:571-572 | the number of tokens the text encodes to; the empty text counts 0 |
| Chunker.EmptyTextHasNoChunks | streamlit_appv6.py:571-577 | the empty text counts zero tokens and gives no chunks |
| Chunker.NextStart | streamlit_appv6.py:586 | corrected step: the next window starts `overlap` tokens before the current end when that is past the current start, and at the end otherwise; every step moves strictly forward and never past the end |
| Chunker.WindowsFrom | streamlit_appv6.py:579-586 | every window the loop emits is non-empty and lies between the start and the end of the token sequence |
| Chunker.ChunkWindows | streamlit_appv6.py:578-586 | the windows the loop cuts `n` tokens into: none for `n == 0`, else the windows from token 0 on, each non-empty and inside the sequence |
| Chunker.ChunkWindowsTiling | streamlit_appv6.py:579-586 | an empty sequence has no windows; a non-empty one is tiled from token 0: each window ends at `min(start + max_tokens, n)`, each window but the last stops short of `n` and is followed by the one at the step, and the last ends at `n` |
| Chunker.TilingUnique | streamlit_appv6.py:579-586 | conversely, any list with those tiling properties is exactly what the loop produces |
| Chunker.TilingOrdered | streamlit_appv6.py:579-586 | window starts and ends strictly increase: chunks come in document order |
| Chunker.TilingCovers | streamlit_appv6.py:579-586 | no token is lost: every token index lies in some window |
| Chunker.TilingOverlap | streamlit_appv6.py:582-586 | with `overlap < max_tokens`, every window but the last is exactly `max_tokens` long and shares exactly `overlap` tokens with the next |
| Chunker.TilingWithoutOverlap | streamlit_appv6.py:586 | corrected step: with `overlap >= max_tokens`, each window starts where the previous one ended |
| Chunker.TilingStarts | streamlit_appv6.py:579-586 | with `overlap < max_tokens`, window `i` starts at `i * (max_tokens - overlap)` |
| Chunker.ChunkWindowsCount | streamlit_appv6.py:579-586 | the number of windows is 1 when the text fits, else `1 + ceil((n - max_tokens) / (max_tokens - overlap))` |
| Chunker.ExampleThreeWindows | streamlit_appv6.py:579-586 | 14 000 tokens, windows of 6 000 and overlap 200 give [0,6000), [5800,11800), [11600,14000) |
| Chunker.TilingStep | streamlit_appv6.py:582-586 | one loop iteration: the window's end, and either the next window at the step or the last window |
| Chunker.ChunkIds | streamlit_appv6.py:578-586 | the loop emits the token slices of the tiling windows, in order |
| Chunker.DecodeAll | streamlit_appv6.py:589-591 | one text per chunk, in order: text `i` is the decoding of chunk `i` |
| Chunker.DecodeEach | streamlit_appv6.py:588-591 | with an exact decoder, chunk `i`'s text is the decoding of token chunk `i`, one text per chunk |
| Chunker.RoundHalfEven | streamlit_appv6.py:596 | the result is within half a unit of `num / den` (Python's `round`) |
| Chunker.WordRatio | streamlit_appv6.py:596 | the words-per-token ratio is at least 1 |
| Chunker.Takes | streamlit_appv6.py:599 | the words each chunk takes: at least 1 and at least `len(c) * ratio`, and exactly `len(c) * ratio` when that is positive |
| Chunker.Piece | streamlit_appv6.py:600 | `" ".join(words[idx:idx + take])`, with Python's slice bounds |
| Chunker.Offset | streamlit_appv6.py:597-601 | the word offset of chunk `i`: 0 for the first, then the previous offset plus its take minus the back-up |
| Chunker.WordPieces | streamlit_appv6.py:597-601 | one piece per chunk: chunk `i` takes its count of words from its offset |
| Chunker.DecodeByWords | streamlit_appv6.py:593-601 | the word-slicing loop gives `WordPieces`: chunk `i` joins `Takes[i]` words from the running offset, which backs up `min(overlap, 50)` words per chunk |
| Chunker.PieceWords | streamlit_appv6.py:600 | a piece inside the text splits back into exactly the words it was cut from |
| Chunker.ConsecutivePieces | streamlit_appv6.py:597-601 | two consecutive pieces of a list, cut from `text.split()` with the second starting `back` words before the first ends, split back into exactly their words and share those `back` words |
| Chunker.PiecesShareWords | streamlit_appv6.py:597-601 | where the offsets stay inside `text.split()`, pieces `i` and `i + 1` split back into exactly their words, and they overlap in exactly `min(overlap, 50)` words: the last words of one are the first of the next |
| Chunker.ChunkText | streamlit_appv6.py:574-602 | `chunk_text_by_tokens` as a function, with one text per token window: no texts for no tokens; else each window decoded exactly, or by word slicing with `Takes` over the window lengths and a back-up of `min(overlap, 50)` words |
| Chunker.ChunkTextByTokens | streamlit_appv6.py:574-602 | the result is `ChunkText`: no chunks for no tokens, else one text per window, by exact decoding or by word slicing |
| Chunker.ChunkTextCount | streamlit_appv6.py:574-602 | the result is empty exactly when the text has no tokens |
| Chunker.ShortTextIsOneChunk | streamlit_appv6.py:574-602 | a text of at most `max_tokens` tokens is one window and one chunk |
| Chunker.ExactChunks | streamlit_appv6.py:588-591 | with an exact decoder, chunk `i` is the decoding of tokens `[start_i, end_i)` of the encoded text |
| Chunker.SourceNextStart | streamlit_appv6.py:586 | the step as written: `end - overlap` when that is positive, else `end`; never past `end`, never 0 after a non-empty prefix, and `end - overlap` whenever `overlap < end` |
| Chunker.SourceWindows | streamlit_appv6.py:579-586 | the loop as written, run for at most `fuel` iterations (`None`: not finished within them); a finished run from a start inside the sequence emits a first window at that start |
| Chunker.SourceWindowsAgree | streamlit_appv6.py:579-586 | whenever `overlap < max_tokens`, the loop as written finishes within `n - start` iterations and gives the same windows as the corrected loop |
| Chunker.SettingsKeepOverlapBelowSize | streamlit_appv6.py:1135-1137 | within the form's bounds (block 1000..128000, overlap 0..1000), `overlap < chunk_size` holds except for block 1000 with overlap 1000 |
| Chunker.SourceStepStalls | streamlit_appv6.py:579-586 | for block 1000, overlap 1000 and 2001 tokens (allowed by the form), the loop as written never finishes, whatever the number of iterations; `NextStart` moves from the window ending at 2000 to 2000 |
| Chunker.SourceStallsWhenLong | streamlit_appv6.py:579-586 | with `overlap == max_tokens` and more than `2 * max_tokens` tokens, the loop as written never finishes, whatever the number of iterations |
| Chunker.SourceShortAgrees | streamlit_appv6.py:579-586 | with `overlap == max_tokens` and at most `2 * max_tokens` tokens, the loop as written finishes within two iterations with exactly the corrected windows |
| Chunker.SourceStepsBack | streamlit_appv6.py:579-586 | for `max_tokens` 2, overlap 3 and 5 tokens, the loop as written emits [0,2), [2,4), [1,3), [3,5); the corrected loop emits [0,2), [2,4), [4,5) |
| Chunker.SourceStepsBackForever | streamlit_appv6.py:579-586 | for `max_tokens` 2, overlap 3 and 7 tokens, the loop as written never finishes, whatever the number of iterations (its starts cycle 2, 1, 3); the corrected loop emits [0,2), [2,4), [4,6), [6,7) |
| Text.SplitWordsAreWords | streamlit_appv6.py:593 | `split()` yields non-empty pieces without whitespace |
| Text.SplitJoinRoundTrip | streamlit_appv6.py:600 | `" ".join(words).split() == words` for any list of words |
| Text.PySlice | streamlit_appv6.py:600 | Python slicing: in-range bounds give the ordinary slice, a start at or past the end gives `[]`, the result is never longer than the list |
| Text.StripSpec | streamlit_appv6.py:749 | `strip()` removes exactly the leading and trailing whitespace and keeps the rest, which neither starts nor ends with whitespace |
| Text.StripIdempotent | streamlit_appv6.py:748 | stripping twice is stripping once |
| Text.StripKeepsWords | streamlit_appv6.py:748 | stripping keeps every word |
| Text.SplitOnJoinRoundTrip | streamlit_appv6.py:768 | `"\n".join(lines).split("\n") == lines` when no line holds a line break |
| Text.NatToStringRoundTrip | streamlit_appv6.py:724 | `str(n)` is read back as `n` |
| Text.Pad2RoundTrip | streamlit_appv6.py:731 | `f"{n:02d}"` is read back as `n` |
| Durations.FormatDuration | streamlit_appv6.py:721-724 | `format_duration`: whole minutes, "m", the remaining seconds, "s" |
| Durations.FormatDurationFull | streamlit_appv6.py:726-732 | `format_duration_full`: the three fields hours, minutes within the hour and seconds within the minute, shown by `ClockText` |
| Durations.ClockText | streamlit_appv6.py:729-732 | "<h>h<mm>m<ss>s" when there is at least one hour, otherwise "<m>m<ss>s" |
| Durations.FormatDurationRoundTrip | streamlit_appv6.py:721-724 | the "XmYs" text of `format_duration` is read back as the seconds |
| Durations.ClockTextRoundTrip | streamlit_appv6.py:726-732 | both layouts of the three fields ("h" shown only for at least one hour) are read back as `h*3600 + m*60 + s` |
| Durations.FormatDurationFullRoundTrip | streamlit_appv6.py:726-732 | the text of `format_duration_full` is read back as the seconds |
| Durations.FormatDurationInjective | streamlit_appv6.py:721-732 | two different durations never show the same text in either format |
| Transcripts.JoinTranscriptionText | streamlit_appv6.py:744-749 | `None` gives "", a list gives its stripped non-blank pieces joined by spaces, anything else its stripped text |
| Transcripts.StrippedNonBlank | streamlit_appv6.py:748 | the kept pieces are non-empty and already stripped, and no more than were given |
| Transcripts.JoinTranscriptionKeepsWords | streamlit_appv6.py:744-749 | joining a list keeps every word of every piece, in order |
| Transcripts.JoinTranscriptionIsStripped | streamlit_appv6.py:744-749 | whatever the input (`None`, a list, a string), the result has no surrounding whitespace |
| Transcripts.JoinTranscriptionEmpty | streamlit_appv6.py:747-748 | a list joins to "" exactly when every piece is blank |
| Transcripts.BuildText | streamlit_appv6.py:764-766 | no transcription gives the empty text |
| Transcripts.Stamps | streamlit_appv6.py:771 | "<start> - <end>", both in the `format_duration` layout |
| Transcripts.SegmentLine | streamlit_appv6.py:771-775 | the stamps, " — ", then "<speaker>: " only when speakers are included, then the segment's text |
| Transcripts.SegmentLines | streamlit_appv6.py:770-776 | one line per segment, in segment order |
| Transcripts.PlainTextLines | streamlit_appv6.py:767-768 | without diarization, splitting the text on line breaks gives back the transcribed lines |
| Transcripts.DiarizedTextLines | streamlit_appv6.py:769-776 | with diarization, the text has one line per segment, in order, each "<start> - <end> — " followed by "<speaker>: " only when speakers are included, then the segment's text |
| Transcripts.Lookup | streamlit_appv6.py:1320 | `mapping.get(sp, sp)`: the display name, or the label itself when the mapping has none |
| Transcripts.RenameSpeakers | streamlit_appv6.py:1320 | every segment keeps its times and text and takes its label's display name, or keeps the label when the mapping has none |
| Transcripts.RenameIdentity | streamlit_appv6.py:1320 | a mapping that sends each label to itself (the form's initial state) changes nothing |
| Transcripts.RenameTwice | streamlit_appv6.py:1320 | renaming twice is renaming once with the composed mapping |
| Transcripts.RenameInvisibleWithoutSpeakers | streamlit_appv6.py:770-776 | renaming does not change the text given to the model when speakers are left out |
| Routing.MergedPrompt | streamlit_appv6.py:697 | the single completions prompt: "### System:", the system prompt, "### User:", the user prompt, "### Assistant:" |
| Routing.FaultText | streamlit_appv6.py:704 | the text of the last chat error, "None" when there was none |
| Routing.ChatFailedMessage | streamlit_appv6.py:689 | the `ValueError` text of a chat HTTP error in "chat" mode |
| Routing.BothFailedMessage | streamlit_appv6.py:702-707 | the `ValueError` text of a completions HTTP error, naming the last chat error and the completions error |
| Routing.AggregatedMessage | streamlit_appv6.py:710 | the `ValueError` text of another completions error after a chat error |
| Routing.AfterCompletions | streamlit_appv6.py:695-715 | the completions step after the chat step left `last`: a non-empty text is the answer; an empty one re-raises `last`, or is the answer "" without it; an HTTP error becomes the both-failed `ValueError`; another error becomes the aggregated `ValueError` after a chat error and is raised again otherwise |
| Routing.Routed | streamlit_appv6.py:681-715 | the decision table: "chat" answers the chat text or turns its error into the reply; "completions" is the completions step with no earlier error; "auto" answers a non-empty chat text and otherwise goes on to the completions step, carrying the chat error |
| Routing.ChatOrComplete | streamlit_appv6.py:677-715 | the reply is the mode's row of the decision table `Routed`; "chat" sends only the chat request, "completions" only the merged prompt, and "auto" falls back to the merged prompt exactly when chat gave no text |
| Routing.AnswerComesFromAllowedEndpoint | streamlit_appv6.py:677-715 | a non-empty answer is the text of an endpoint the mode allows |
| Routing.AutoPrefersChat | streamlit_appv6.py:681-685 | in "auto", a non-empty chat text wins whatever completions would give |
| Routing.EmptyAnswerOnlyFromEmptyTexts | streamlit_appv6.py:677-715 | "" is returned exactly when every endpoint tried answered with an empty text |
| Routing.FailuresAreNeverSwallowed | streamlit_appv6.py:677-715 | when every endpoint the mode tries fails, the call fails |
| Routing.ErrorKinds | streamlit_appv6.py:686-711 | which error surfaces: a chat HTTP error in "chat" mode and any completions HTTP error become `ValueError`s, a completions error after a chat error becomes the aggregated `ValueError`, a lone non-HTTP error is raised again |
| Routing.AutoFallsBack | streamlit_appv6.py:695-714 | in "auto", a chat error is forgiven when completions answers, and raised again when it answers with nothing |
| Summary.UsesDirect | streamlit_appv6.py:792 | the direct strategy is taken when the mode starts with "Résumé direct" or the text has at most `chunk_size` tokens |
| Summary.DirectPrompt | streamlit_appv6.py:793 | the user's prompt, the "Texte à résumer" header, the whole text in a fenced block |
| Summary.BlockPrompt | streamlit_appv6.py:811 | the user's prompt, "Tu résumes le **bloc i/N** ci-dessous.", the block's text in a fenced block |
| Summary.PartialSummary | streamlit_appv6.py:814 | "### Bloc i", a line break, the block's answer |
| Summary.SynthesisPrompt | streamlit_appv6.py:821-825 | the user's prompt, the synthesis header, the partial summaries separated by blank lines, the closing instruction |
| Summary.GenerateSummary | streamlit_appv6.py:782-829 | direct strategy (mode label or text within one block): one call whose prompt holds the text, no partials, and its answer or error; chunked strategy: `BlockByBlock` over the chunker's blocks |
| Summary.BlockByBlock | streamlit_appv6.py:807-827 | what the chunked strategy does: the "bloc i/N" prompts in block order, all answered, then the synthesis prompt over their partial summaries and its answer; or, on an error, every earlier call answered, the failing call last and nothing after it |
| Summary.SummariseBlocks | streamlit_appv6.py:807-827 | one prompt per block, in block order, all answered, then the synthesis prompt over the partial summaries; on an error, every earlier call was answered and nothing is called after the failing one |
| Summary.SummariseEachBlock | streamlit_appv6.py:808-814 | the block loop sends block `i`'s prompt "bloc i/N" in order and records answer `i` as partial summary `i`, until the first error |
| Summary.PartialsOf | streamlit_appv6.py:814 | partial `j` is "### Bloc j+1" followed by the answer to prompt `j` |
| Summary.ChunkedHasSeveralBlocks | streamlit_appv6.py:792-802 | the chunked strategy is only taken for a text longer than one block, which always cuts into at least two blocks |
| Summary.DirectPromptHoldsText | streamlit_appv6.py:793 | the direct prompt holds the whole text after the user's prompt and the header |
| Summary.BlockPromptNamesBlock | streamlit_appv6.py:811 | block prompt `i` names "bloc i/N" and holds the block's text |
| Summary.PartialSummaryNamesBlock | streamlit_appv6.py:814 | a partial summary starts with its block number, which reads back |
| Summary.SynthesisPromptHoldsPartials | streamlit_appv6.py:821-824 | the synthesis prompt holds every partial summary at its place in the blank-line-separated list, so in block order |

## Left out

- The tokenizer backends are not part of this model: the HuggingFace tokenizer and its cache, `tiktoken` and the `text.split()` fallback. A `Tokenizer` value stands for the one in use.
- Chunker.ChunkText: when the HuggingFace tokenizer fails to encode, the source falls back to `tiktoken` ids but still decodes them with HuggingFace. The model decodes with the same tokenizer that encoded.
- Chunker.WordRatio: `round(len(words) / len(ids))` rounds a float quotient. The model rounds the exact rational, ties to even. Float error near a tie is not modelled.
- Chunker.RoundHalfEven: the contract states only that the result is the nearest integer (within one half). Which way a tie goes (to even) is in the definition, not in the contract.
- Chunker.ChunkIds: the loop steps with `NextStart`, which always moves forward. The source's step stalls when `overlap == max_tokens` and the text has more than `2 * max_tokens` tokens. When `overlap > max_tokens` it steps back, and then either finishes with windows out of order or cycles forever. The as-written loop is `SourceWindows`, bounded by an iteration count. It is proved to agree with the model when `overlap < max_tokens`, and when `overlap == max_tokens` on texts of at most `2 * max_tokens` tokens (`SourceShortAgrees`). The other cases are shown by `SourceStallsWhenLong`, `SourceStepStalls`, `SourceStepsBack` and `SourceStepsBackForever`.
- Chunker.ChunkText: like `ChunkIds`, it uses the corrected windows, so for `overlap >= max_tokens` it gives the corrected chunks, not the source's.
- Chunker.ChunkIds requires `max_tokens > 0`. With 0 the source loops forever. The settings form never allows it (its minimum is 1000).
- Routing.ChatOrComplete: `call_chat_completions` and `call_completions` are not part of this model (the HTTP requests, status handling, JSON decoding and the wording of their errors). Each endpoint call is an outcome parameter: a text or an HTTP or other error with its message.
- Routing.ChatOrComplete: mode strings other than "auto", "chat" and "completions" are not modelled. The settings map to exactly these three.
- Timeouts, temperature and `max_tokens` are passed through unchanged and are not modelled.
- Summary.GenerateSummary: the system prompt is fixed inside the `llm` oracle. In `Routing` it is modelled: it is sent in the chat request and in the merged completions prompt.
- Summary.GenerateSummary: the LLM is one oracle `llm(prompt)` standing for `chat_or_complete` with the call's fixed configuration.
- Summary.GenerateSummary: the `status_container` progress messages are not modelled.
- Durations: seconds are whole non-negative numbers. For a non-negative float, both formatters depend only on its integer part. Negative durations are not modelled.
- Transcripts.BuildText requires the diarization flag to match the shape of the transcription. A mismatch gives Python tuple text or an unpacking error, which is not modelled.
- Transcripts.RenameSpeakers models only the comprehension that applies the mapping. The form widgets that fill the mapping and the rerun are not modelled.
- Chunker.SettingsKeepOverlapBelowSize models only the bounds of the two number inputs, not their step of 500 and 50. The bounds alone already allow the stalling setting.
- The audio side is not part of this model:
  - audio recording (the HTML recorder component);
  - `normalize_audio`;
  - `audio_processing.py`;
  - the transcription engines and diarization pipelines.
- The rest of the Streamlit interface, session state and the DOCX export are not part of this model.

## Findings

| source | as written | input that shows it | evidently intended | confidence | as-written member | corrected member |
|---|---|---|---|---|---|---|
| streamlit_appv6.py:586 | the next start is `end - overlap` when `end - overlap > 0`, otherwise `end` | block size 1000 and overlap 1000 (both within the settings form), text of 2001 tokens: windows [0,1000), then [1000,2000), then start goes back to 1000 forever | step back only while the new start stays past the current one (`end - overlap > start`), so that the loop always advances | not executed | Chunker.SourceStepStalls | Chunker.NextStart |
| streamlit_appv6.py:586 | the same rule, when `overlap > max_tokens` | `max_tokens` 2, overlap 3, text of 5 tokens (a direct call; the settings form never allows it): windows [0,2), [2,4), then start goes back to 1, giving [1,3) and [3,5) | windows in document order, each past the previous one | not executed | Chunker.SourceStepsBack | Chunker.NextStart |
| streamlit_appv6.py:586 | the same rule, when `overlap > max_tokens` | `max_tokens` 2, overlap 3, text of 7 tokens (a direct call): the starts run 0, 2, 1, 3, 2, 1, 3, ... and no window reaches token 7, so the loop never ends | the loop always advances and finishes | not executed | Chunker.SourceStepsBackForever | Chunker.NextStart |
