# Verse matching of sawt-ai, modelled in Dafny

This project models the verse-matching scripts of sawt-ai. Given a Quran corpus
(chapters of numbered verses) and the text segments of a transcription, the
scripts find the contiguous run of verses whose text is closest to the
transcription. The model covers five pieces:

- **The window index** (`Corpus`). Every chapter, every window size and every
  start offset gives one record for verses `i .. i + w - 1`. The record holds
  the first and last verse ids and the verse texts joined by single spaces.
- **The streaming scan** of `scripts/07_predict_from_transcription.py` (`Scan`).
  - Segment texts are appended to a running transcription, which is stripped
    before each comparison.
  - The stripped transcription is scored against every window in index order.
  - A strictly better score replaces the best match.
  - When some verse of a window scores at least 0.60 (rule A), the pass over
    the windows ends for that segment.
  - The adjacent-pair test at 0.35 (rule B) only leaves its own loop.
- **The batch ranking** `detect_top_versets` of `scripts/detect_versets.py`
  (`Batch`, with the sort in `Ranking`). The space-joined segments are stripped
  and normalised, every window is scored on its normalised text, the matches
  are stable-sorted by descending similarity, and the head is returned.
- **The Arabic normaliser** `normalize_arabic` (`Normalize`). It deletes a class
  of diacritics, then folds seven letter variants (إ أ آ ى ؤ ئ ة) onto ا ي و ه,
  in five passes, one after another.
- **The archived scan** of `scripts/archive/old_07_predict_from_transcription.py`
  (`Legacy`).
  - `clean_text` removes three formulas, then strips.
  - The best match aliases an index entry, and the scan writes `similarity`
    into that entry.

Some behaviour is outside the scripts themselves:

- difflib's `SequenceMatcher.ratio()` is `2M / (|a| + |b|)` (`Similarity`).
- The matching-character count `M` is a parameter of the model, `m`. Any
  function that stays within both string lengths is allowed.
- A string scoring 1 against itself is never assumed. Lemmas that need it take
  `m(x, x) == |x|` as a precondition, because difflib's autojunk heuristic can
  break it for long strings.
- Scores are exact reals, and the thresholds are exactly 0.60 and 0.35.
- Python's `str.strip()`, `" ".join(...)` and `+=` accumulation are modelled in
  `Text`.

Files: `wrappers.dfy`, `text.dfy`, `similarity.dfy`, `normalize.dfy`,
`corpus.dfy`, `ranking.dfy`, `scan.dfy`, `batch.dfy`, `legacy.dfy`.

Behaviour of the code a reader might not expect:

- The streaming scan does not normalise the segments or the window texts.
- It scores even an empty transcription.
- Rule A ends only the pass over the windows for the current segment, and the
  next segment is still processed. There is no session-ending flag.
- Rule B's `break` leaves only the adjacent-pair loop, so it changes nothing.
- The batch ranking strips after joining and before normalising.
- The batch ranking returns one record, whatever `top_k` says.

## Model

| member | source | states |
|---|---|---|
| `Similarity.Ratio` | scripts/07_predict_from_transcription.py:79 | The ratio lies in [0, 1]. It is 1 when both strings are empty and 0 when exactly one is. |
| `Similarity.RatioOneIff` | scripts/07_predict_from_transcription.py:79 | The ratio is 1 exactly when every character of both strings is matched (both directions). |
| `Similarity.RatioPositiveIff` | scripts/07_predict_from_transcription.py:79 | The ratio is above 0 exactly when both strings are empty or at least one character is matched (both directions). |
| `Similarity.RatioSelf` | scripts/07_predict_from_transcription.py:86 | A text compared with itself scores 1 whenever the matcher pairs all of it. |
| `Text.Strip` | scripts/07_predict_from_transcription.py:76 | The result has no leading or trailing whitespace. It is a contiguous slice of the input, and everything cut off on either side is whitespace. |
| `Text.StripFixedPoint` | scripts/07_predict_from_transcription.py:76 | Stripping leaves a string unchanged exactly when it neither starts nor ends with whitespace. |
| `Text.Join` | scripts/07_predict_from_transcription.py:44 | The definition of `" ".join`: empty for no pieces, otherwise at least the first piece. `Text.JoinLength` and `Text.JoinSnoc` state its length and how it grows. |
| `Text.JoinLength` | scripts/07_predict_from_transcription.py:44 | A join is all the pieces plus exactly one separator between each neighbouring pair. |
| `Text.JoinSnoc` | scripts/07_predict_from_transcription.py:44 | Joining one more piece appends the separator and that piece. |
| `Text.ConcatPrefix` | scripts/07_predict_from_transcription.py:75 | The running transcription only grows: after any prefix of the segments it is a prefix of the final one. |
| `Text.Concat` | scripts/07_predict_from_transcription.py:75 | The definition of the `+=` accumulation: empty for no segments, otherwise at least the last segment. `Text.ConcatPrefix` and `Text.ConcatLength` state how it grows and its length. |
| `Text.ConcatLength` | scripts/07_predict_from_transcription.py:75 | The running transcription is as long as all segment texts together, with no separator. |
| `Normalize.StripDiacritics` | scripts/utils/normalize_arabic.py:5-13 | Deleting the diacritic class never lengthens the text, leaves no character of the class, and keeps only characters of the input. |
| `Normalize.Substitute` | scripts/utils/normalize_arabic.py:14-18 | A fold keeps the length and rewrites exactly the characters of its class, position by position. |
| `Normalize.FoldTargetsArePlain` | scripts/utils/normalize_arabic.py:5-18 | The fold targets ا ي و ه lie outside the diacritic class and no fold rewrites them. The characters left alone are exactly those outside the class and the fold sources, plus Alef. |
| `Normalize.NormalizeIsPerCharacter` | scripts/utils/normalize_arabic.py:7-19 | The six passes in sequence equal the per-character reference: each diacritic vanishes and each other character becomes its fold, in order. |
| `Normalize.NormalizeHomomorphism` | scripts/utils/normalize_arabic.py:13-18 | The empty string normalises to itself, and normalising `a + b` is normalising `a`, then `b`. |
| `Normalize.NormalizeArabic` | scripts/utils/normalize_arabic.py:7-19 | The six passes in order. The result is never longer than the input, holds no diacritic and none of إ أ آ ى ؤ ئ ة, and each character is one of the input's or one of ا ي و ه. `Normalize.NormalizeIsPerCharacter` and `Normalize.NormalizeIdempotent` state the rest. |
| `Normalize.NormalizeFixedPoint` | scripts/utils/normalize_arabic.py:13-18 | A text comes back unchanged exactly when each of its characters is outside the diacritic class and the fold sources (Alef aside). |
| `Normalize.NormalizeIdempotent` | scripts/utils/normalize_arabic.py:7-19 | Normalising twice is normalising once. |
| `Normalize.NormalizeJoin` | scripts/detect_versets.py:24 | Normalising space-joined verse texts is joining the normalised texts, because the separator passes through unchanged. |
| `Corpus.WindowsFrom` | scripts/07_predict_from_transcription.py:42-52 | One size contributes one record per offset that fits, `max(0, N - w + 1)` from offset 0, and none when the chapter is shorter than `w`. |
| `Corpus.ChapterWindows` | scripts/07_predict_from_transcription.py:41-52 | A chapter contributes the per-size window counts summed over the configured sizes. |
| `Corpus.Index` | scripts/07_predict_from_transcription.py:38-52 | The index holds the per-chapter counts summed over the chapters. |
| `Corpus.DefaultChapterCount` | scripts/07_predict_from_transcription.py:31 | With sizes 1..5, a chapter of N verses gives 5N - 10 windows when N >= 5 and N(N+1)/2 otherwise. |
| `Corpus.ThreeSizesCount` | scripts/07_predict_from_transcription.py:40-42 | With sizes 1..3, a chapter of N >= 3 verses gives N + (N-1) + (N-2) windows. |
| `Corpus.Rank` | scripts/07_predict_from_transcription.py:39-42 | The position a (chapter, size, offset) slot should have falls inside the index. |
| `Corpus.IndexAtRank` | scripts/07_predict_from_transcription.py:38-52 | The record of verses `i .. i + w - 1` of chapter `c` sits at exactly that position. |
| `Corpus.MakeWindow` | scripts/07_predict_from_transcription.py:43-51 | The definition of the record built for `verses[i:i+w]`. `Corpus.MakeWindowShape` states its fields: the chapter's id and name, that slice, the ids of its first and last verses, and its texts joined by one space. |
| `Corpus.MakeWindowShape` | scripts/07_predict_from_transcription.py:43-51 | A record holds its chapter's id and name, the slice of verses, the ids of the slice's first and last verses, and the slice's texts joined by one space. |
| `Corpus.RankInChapter` | scripts/07_predict_from_transcription.py:39-42 | A chapter's windows form one contiguous block, after all windows of earlier chapters. |
| `Corpus.RankOrder` | scripts/07_predict_from_transcription.py:39-42 | Windows are ordered by chapter, then by size in list order, then by increasing offset. |
| `Corpus.ChapterSlotAt` | scripts/07_predict_from_transcription.py:41-42 | Every position in a chapter's block comes from a size position and an offset that fits. |
| `Corpus.SlotAt` | scripts/07_predict_from_transcription.py:39-42 | Every index position comes from exactly one valid slot, the one whose position it is. |
| `Corpus.IndexEntrySizes` | scripts/07_predict_from_transcription.py:41-44 | Every index entry holds as many verses as one of the configured window sizes. |
| `Corpus.IndexEntry` | scripts/07_predict_from_transcription.py:43-51 | Each index entry is the record of its slot's verses, field by field. |
| `Corpus.WindowIdsDistinct` | scripts/07_predict_from_transcription.py:48-49 | In a chapter whose verse ids increase, two windows of different offset or length differ in their (start, end) pair. |
| `Corpus.AppendRuns` | scripts/07_predict_from_transcription.py:42-52 | The innermost loop appends the records of every run of one size, offsets increasing. |
| `Corpus.AppendChapter` | scripts/07_predict_from_transcription.py:41-52 | The middle loop appends one chapter's records, size by size. |
| `Corpus.BuildIndex` | scripts/07_predict_from_transcription.py:38-52 | The three nested loops build exactly the index. |
| `Ranking.Score` | scripts/07_predict_from_transcription.py:79-83 | A scored window carries that window, with a similarity in [0, 1]. |
| `Ranking.Consider` | scripts/07_predict_from_transcription.py:81-83 | The update never lowers the best score. It changes the state only on a strict improvement, and then to exactly that candidate and its score. |
| `Ranking.Fold` | scripts/07_predict_from_transcription.py:78-83 | After a run of candidates, the best score bounds every one of them. The state is either unchanged or holds one of them with a strictly higher score. A consistent best match and score stay consistent. |
| `Ranking.FoldAppend` | scripts/07_predict_from_transcription.py:74-83 | Updating over two runs of candidates is updating over their concatenation. |
| `Ranking.FoldIsFirstMax` | scripts/07_predict_from_transcription.py:81 | Ties keep the earlier candidate: a strictly better maximum is taken at its first position, and no candidate above the score means no change. |
| `Ranking.FirstMaxIndex` | scripts/detect_versets.py:37-38 | The position holds the greatest similarity, and every earlier position scores strictly less. |
| `Ranking.Insert` | scripts/detect_versets.py:37 | Inserting adds the element and keeps every other element. |
| `Ranking.SortBySimilarity` | scripts/detect_versets.py:37 | The sort is a permutation of its input, ordered by descending similarity. |
| `Ranking.SortIsStable` | scripts/detect_versets.py:37 | Elements of equal similarity keep their relative order. |
| `Ranking.SortHeadIsFirstMax` | scripts/detect_versets.py:37-38 | The head of the sort is the first generated element of greatest similarity. |
| `Ranking.FoldAgreesWithSortHead` | scripts/detect_versets.py:37-38 | When some score is positive, the strict-improvement update from no match ends on the head of the stable sort. |
| `Scan.VerseScores` | scripts/07_predict_from_transcription.py:86 | There is one score per verse of the window, each in [0, 1]. |
| `Scan.ScoredWindows` | scripts/07_predict_from_transcription.py:78-89 | One segment's pass scores the windows in index order, up to and including the first window on which rule A fires, and every window if rule A never fires. |
| `Scan.ScoredFromWindows` | scripts/07_predict_from_transcription.py:78-83 | Every scored candidate is a window of the index, with a score in [0, 1]. |
| `Scan.Step` | scripts/07_predict_from_transcription.py:74-95 | A segment appends its text to the transcription. The best score never drops, and the best match changes only on a strict improvement. |
| `Scan.Run` | scripts/07_predict_from_transcription.py:62-95 | After the segments, the transcription is their concatenation. The best match is `None` with score 0, or an index window whose similarity equals the positive best score. |
| `Scan.RunFoldsTrace` | scripts/07_predict_from_transcription.py:74-95 | The scan is the strict-improvement update over every window scored, segment by segment, in scan order. |
| `Scan.BestIsFirstMaxOfTrace` | scripts/07_predict_from_transcription.py:62-83 | The best match is the first maximum of everything scored, from an earlier segment or earlier in index order. It stays `None` exactly when no score exceeds 0. |
| `Scan.ScoreMonotone` | scripts/07_predict_from_transcription.py:63-82 | The best score after any prefix of the segments is at most the final one. |
| `Scan.RunMonotone` | scripts/07_predict_from_transcription.py:64-82 | After any prefix, the transcription is a prefix of the final one and the best score is at most the final one. |
| `Scan.NoWindowsNoMatch` | scripts/07_predict_from_transcription.py:62-63 | With no windows, no segment produces a match. |
| `Scan.RuleA` | scripts/07_predict_from_transcription.py:86-87 | Rule A needs at least one verse, and any one verse scoring at least 0.60 fires it. `Scan.AnyHigh` states the equivalence with the scan over the scores. |
| `Scan.AnyHigh` | scripts/07_predict_from_transcription.py:87 | Scanning the scores in order for one at least 0.60 answers yes exactly when rule A fires. |
| `Scan.RuleB` | scripts/07_predict_from_transcription.py:90-91 | Rule B needs at least two verses, and any two neighbouring verses both scoring at least 0.35 fire it. `Scan.AdjacentPair` states the equivalence with the pair loop. |
| `Scan.ExactVerseFiresRuleA` | scripts/07_predict_from_transcription.py:86-87 | A window with a verse equal to the current transcription fires rule A whenever the matcher pairs that text with itself. |
| `Scan.AdjacentPair` | scripts/07_predict_from_transcription.py:90-93 | The pair loop stops exactly when two neighbouring verses both score at least 0.35. |
| `Scan.ScanWindow` | scripts/07_predict_from_transcription.py:79-91 | One window's step: the best pair becomes the strict-improvement update with this window's score, and the rule-A answer is yes exactly when some verse of the window scores at least 0.60. When rule A does not fire, the rule-B pair loop runs and its answer is discarded. |
| `Scan.ScanWindows` | scripts/07_predict_from_transcription.py:78-93 | The window loop, with its rule-A `break` and the rule-B pair loop, ends on the update over exactly the windows rule A lets through. Rule B changes nothing. |
| `Scan.Analyse` | scripts/07_predict_from_transcription.py:62-95 | The whole segment loop ends on the state of `Scan.Run`. The best match is `None` with score 0, or an index window carrying the positive best score. |
| `Scan.RunOneSegment` | scripts/07_predict_from_transcription.py:74-83 | A single segment gives one pass against the stripped segment, from no match. |
| `Scan.ScenarioExactFirstVerse` | scripts/07_predict_from_transcription.py:74-89 | Example: one chapter of two verses, sizes 1 and 2, and the first verse as the only segment. Rule A fires on the first window, which is the only one scored. The best match is verse 1 to verse 1 with similarity 1. |
| `Batch.Matches` | scripts/detect_versets.py:19-35 | There is one match per window of the index. |
| `Batch.DetectTopVersets` | scripts/detect_versets.py:12-38 | With no windows, the call fails, as `matches[0]` does. Otherwise it returns the first generated match of greatest similarity, whose similarity bounds every match. It returns one record, never a list. The default `window_sizes` is `WindowSizes`, so a call with defaults is `DetectTopVersets(m, segments, chs, WindowSizes, 5)`. |
| `Batch.MatchShape` | scripts/detect_versets.py:19-35 | Match `k` is the record of its slot's verses, with its chapter's id and name and their first and last verse ids. Its text is the normalised space-joined verse texts, equivalently the normalised texts joined. Its similarity is the transcription's ratio against that text. |
| `Batch.BatchTranscript` | scripts/detect_versets.py:16 | The compared transcription is no longer than the space-joined segments, holds no diacritic, and every variant letter in it is ا. `Batch.BatchTranscriptIsNormal` states that it is already normal. |
| `Batch.NormalizedWindow` | scripts/detect_versets.py:24 | A window as the batch ranking records it: every field but the text unchanged, the text normal and no longer, and a window with normal text left as it is. |
| `Batch.BatchTranscriptIsNormal` | scripts/detect_versets.py:16 | The compared transcription is already normal: normalising it again changes nothing. |
| `Batch.OneSegmentTranscript` | scripts/detect_versets.py:16 | For text that normalisation leaves alone, the batch transcription of one segment is that segment stripped. |
| `Batch.MatchesAreScoredWindows` | scripts/detect_versets.py:19-35 | When window texts are normal and rule A never fires, the batch matches are exactly the streaming pass's scored windows. |
| `Batch.StreamingAgreesWithBatch` | scripts/detect_versets.py:16-38 | Fed one segment, with normal texts, no early stop and some positive score, the streaming scan ends on the match the batch ranking returns. |
| `Legacy.RemoveAll` | scripts/archive/old_07_predict_from_transcription.py:41 | Removing a formula never lengthens the text, and text without it is unchanged. |
| `Legacy.RemoveLeftmost` | scripts/archive/old_07_predict_from_transcription.py:41 | Occurrences go left to right without overlap: the first occurrence is cut out, and the scan resumes right after it. |
| `Legacy.RemoveEach` | scripts/archive/old_07_predict_from_transcription.py:34-41 | Removing the formulas in list order never lengthens the text. |
| `Legacy.CleanText` | scripts/archive/old_07_predict_from_transcription.py:39-42 | The cleaned text is no longer than the input and has no leading or trailing whitespace. |
| `Legacy.RemoveEachNoOccurrence` | scripts/archive/old_07_predict_from_transcription.py:40-41 | Text in which no formula occurs passes the removals unchanged. |
| `Legacy.CleanTextWithoutFormulas` | scripts/archive/old_07_predict_from_transcription.py:39-42 | Text without any formula is only stripped. |
| `Legacy.Similar` | scripts/archive/old_07_predict_from_transcription.py:44-45 | `similar(a, b)` lies in [0, 1] and is 1 for two empty strings. |
| `Legacy.Entries` | scripts/archive/old_07_predict_from_transcription.py:48-60 | There is one entry per window, entry `k` holds window `k`, and none is scored yet. |
| `Legacy.LegacyIndex` | scripts/archive/old_07_predict_from_transcription.py:48-60 | The archived index is the window index over sizes one to five: as many windows as fit, each of one to five verses. `Corpus.IndexEntry` gives each entry's fields. |
| `Legacy.Visit` | scripts/archive/old_07_predict_from_transcription.py:78-82 | Writing `similarity` through the alias keeps the aliased best match and score in agreement, changes no entry's window, and amounts to the copying update. |
| `Legacy.PassFrom` | scripts/archive/old_07_predict_from_transcription.py:77-90 | A segment's pass keeps every entry's window, keeps the alias consistent and never lowers the best score. |
| `Legacy.LegacyStep` | scripts/archive/old_07_predict_from_transcription.py:73-90 | A segment keeps the alias consistent. |
| `Legacy.LegacyRun` | scripts/archive/old_07_predict_from_transcription.py:69-90 | The transcription is the raw concatenation of the segments, the entries keep the index's windows, and the best match agrees with the best score. |
| `Legacy.PassAgrees` | scripts/archive/old_07_predict_from_transcription.py:77-90 | The aliasing pass chooses exactly what the copying pass chooses over the same windows. |
| `Legacy.LegacyRunFoldsTrace` | scripts/archive/old_07_predict_from_transcription.py:69-90 | The archived scan is the strict-improvement update over every window scored, each pass against the cleaned whole transcription. |

## Left out

- Whisper transcription (`transcribe`, the model download) is not modelled. The segment texts are an input.
- Loading the corpus from JSON is not modelled. The corpus is an input value.
- Progress bars, printing, `exit()` and deleting the Whisper cache are left out. They are side effects with no effect on the result.
- Imam prediction (MFCC extraction, the Keras model, the label encoder, top-3 `argsort`) is left out. It runs after matching and involves floating point and foreign libraries.
- difflib's block search and its autojunk heuristic are left out. The matching-character count is an opaque parameter, bounded by both lengths.
- The floating-point rounding of `2.0 * M / T` is left out. Scores are exact reals.
- Window sizes of 0 or less are not modelled. With 0 the source raises `IndexError` on an empty slice, and negative sizes rely on Python's negative slicing.
- Window records are datatypes, not dictionaries. The archived script's keys `start`/`end` and the current script's `start_verse`/`end_verse` map to the same fields.
- The archived scan has no separate rule-B method. Its pair loop's `break` is inert as in the current script, so `Legacy.PassFrom` leaves it out.
- `scripts/98_run_test.py` is not part of this model. It imports `detect_best_match`, which `scripts/detect_versets.py` does not define.
- Batch.DetectTopVersets: `top_k` is accepted and ignored, as in the code. The docstring's promise of `top_k` results is not modelled.
- Scan.ScenarioExactFirstVerse: the matcher's self-match (`m(x, x) == |x|`) is a precondition, because difflib does not guarantee it in general.
- Text.Join: its own contract gives only emptiness and a lower bound on the length. The exact length and the growth by one piece are stated by `Text.JoinLength` and `Text.JoinSnoc`.
- Text.Concat: its own contract gives only emptiness and a lower bound on the length. The exact length and the prefix order are stated by `Text.ConcatLength` and `Text.ConcatPrefix`.
