/**
 * `detect_top_versets` of `scripts/detect_versets.py`: normalise the whole
 * space-joined transcript once, score it against every window (window text
 * normalised too), stable-sort by descending similarity and return the head.
 */
module Batch {
  import opened Wrappers
  import opened Text
  import opened Similarity
  import opened Normalize
  import opened Corpus
  import opened Ranking
  import opened Scan

  /** The only failure: `matches[0]` on an empty list raises `IndexError`. */
  datatype Error = NoCandidates

  /** `normalize_arabic(" ".join(texts).strip())`: stripped before normalising, so
      no longer than the joined segments, with no diacritic and no variant letter. */
  function BatchTranscript(segments: seq<string>): (r: string)
    ensures |r| <= |Join(" ", segments)|
    ensures forall k :: 0 <= k < |r| ==> !IsDiacritic(r[k]) && (IsFoldSource(r[k]) ==> r[k] == Alef)
  {
    NormalizeArabic(Strip(Join(" ", segments)))
  }

  /** The window as the batch ranking records it: its text normalised, every other
      field as the index built it. */
  function NormalizedWindow(w: Window): (r: Window)
    ensures r.(text := w.text) == w
    ensures |r.text| <= |w.text| && AllPlain(r.text)
    ensures AllPlain(w.text) ==> r == w
  {
    NormalizeFixedPoint(w.text);
    w.(text := NormalizeArabic(w.text))
  }

  /** `matches`: one scored record per window, in index order. */
  function Matches(m: MatchCount, transcription: string, chs: seq<Chapter>, sizes: seq<Size>): (r: seq<Match>)
    ensures |r| == IndexCount(chs, sizes)
  {
    var index := Index(chs, sizes);
    seq(|index|, k requires 0 <= k < |index| => Score(m, transcription, NormalizedWindow(index[k])))
  }

  /** `detect_top_versets(segments, versets, window_sizes, top_k)`. `top_k` is accepted
      and ignored: one match comes back, the head of the stable descending sort,
      which is the first generated match of greatest similarity. */
  function DetectTopVersets(m: MatchCount, segments: seq<string>, chs: seq<Chapter>, sizes: seq<Size>, topK: int)
    : (r: Result<Match, Error>)
    ensures r.Failure? <==> IndexCount(chs, sizes) == 0
    ensures r.Success? ==>
      var ms := Matches(m, BatchTranscript(segments), chs, sizes);
      && r.value == ms[FirstMaxIndex(ms)]
      && forall k :: 0 <= k < |ms| ==> ms[k].similarity <= r.value.similarity
  {
    var matches := Matches(m, BatchTranscript(segments), chs, sizes);
    if matches == [] then Failure(NoCandidates)
    else
      SortHeadIsFirstMax(matches);
      Success(SortBySimilarity(matches)[0])
  }

  lemma MatchAt(m: MatchCount, transcription: string, chs: seq<Chapter>, sizes: seq<Size>, k: nat)
    requires k < IndexCount(chs, sizes)
    ensures k < |Index(chs, sizes)|
    ensures Matches(m, transcription, chs, sizes)[k] == Score(m, transcription, NormalizedWindow(Index(chs, sizes)[k]))
  {
  }

  /** `r` is the batch record of verses `i .. i + n - 1` of `ch`: same chapter id and
      name, same verses, their first and last ids, the normalised space-joined verse texts
      (equivalently, the normalised texts joined), and the ratio of the transcript
      against that text. */
  predicate IsMatchOf(r: Match, m: MatchCount, transcription: string, ch: Chapter, i: nat, n: Size)
    requires i + n <= |ch.verses|
  {
    var run := ch.verses[i..i + n];
    && r.window.chapterId == ch.id
    && r.window.chapterName == ch.name
    && r.window.verses == run
    && r.window.startVerse == run[0].id
    && r.window.endVerse == run[|run| - 1].id
    && r.window.text == NormalizeArabic(Join(" ", Texts(run)))
    && r.window.text == Join(" ", NormalizeAll(Texts(run)))
    && r.similarity == Ratio(m, transcription, r.window.text)
  }

  /** Scoring the normalised record of a window of verses gives their batch record. */
  lemma RunMatch(m: MatchCount, transcription: string, w: Window, ch: Chapter, i: nat, n: Size)
    requires i + n <= |ch.verses|
    requires IsWindowOf(w, ch, i, n)
    ensures IsMatchOf(Score(m, transcription, NormalizedWindow(w)), m, transcription, ch, i, n)
  {
    var run := ch.verses[i..i + n];
    assert run[0] == ch.verses[i] && run[|run| - 1] == ch.verses[i + n - 1];
    NormalizeJoin(Texts(run));
  }

  /** Each match is the batch record of the verses of the slot at its position. */
  lemma MatchShape(m: MatchCount, transcription: string, chs: seq<Chapter>, sizes: seq<Size>, k: nat)
    requires k < IndexCount(chs, sizes)
    ensures var s := SlotAt(chs, sizes, k);
      IsMatchOf(Matches(m, transcription, chs, sizes)[k], m, transcription, chs[s.chapter], s.offset, sizes[s.size])
  {
    var s := SlotAt(chs, sizes, k);
    IndexEntry(chs, sizes, k);
    var w := Index(chs, sizes)[k];
    MatchAt(m, transcription, chs, sizes, k);
    RunMatch(m, transcription, w, chs[s.chapter], s.offset, sizes[s.size]);
  }

  /** The compared transcript is already normal: normalising it again changes nothing. */
  lemma BatchTranscriptIsNormal(segments: seq<string>)
    ensures NormalizeArabic(BatchTranscript(segments)) == BatchTranscript(segments)
  {
    NormalizeIdempotent(Strip(Join(" ", segments)));
  }

  /** Every character of `s` is left alone by normalisation. */
  predicate AllPlain(s: string) {
    forall i :: 0 <= i < |s| ==> IsPlain(s[i])
  }

  /** Rule A fires on none of the windows. */
  predicate NoEarlyStop(m: MatchCount, current: string, ws: seq<Window>) {
    forall k :: 0 <= k < |ws| ==> !RuleA(VerseScores(m, current, ws[k]))
  }

  /** Some window's text scores above zero against the transcription: both are
      empty, or the matcher pairs up at least one of their characters
      (`RatioPositiveIff`). */
  predicate SomeScorePositive(m: MatchCount, current: string, ws: seq<Window>) {
    exists k :: 0 <= k < |ws| && (|current| + |ws[k].text| == 0 || m(current, ws[k].text) > 0)
  }

  /** Every window text is left alone by normalisation. */
  predicate AllTextsPlain(ws: seq<Window>) {
    forall k :: 0 <= k < |ws| ==> AllPlain(ws[k].text)
  }

  lemma NoRuleAScoresAll(m: MatchCount, current: string, ws: seq<Window>)
    requires NoEarlyStop(m, current, ws)
    ensures ScoredWindows(m, current, ws) == seq(|ws|, k requires 0 <= k < |ws| => Score(m, current, ws[k]))
  {
  }

  /** For normal text the batch transcript of one segment is the stripped segment. */
  lemma OneSegmentTranscript(segment: string)
    requires AllPlain(Strip(segment))
    ensures BatchTranscript([segment]) == Strip(segment)
  {
    NormalizeFixedPoint(Strip(segment));
  }

  /** For normal window texts and no early stop, the batch matches are exactly the
      windows the streaming pass scores. */
  lemma MatchesAreScoredWindows(m: MatchCount, chs: seq<Chapter>, sizes: seq<Size>, current: string)
    requires NoEarlyStop(m, current, Index(chs, sizes))
    requires AllTextsPlain(Index(chs, sizes))
    ensures Matches(m, current, chs, sizes) == ScoredWindows(m, current, Index(chs, sizes))
  {
    var index := Index(chs, sizes);
    forall k | 0 <= k < |index| ensures NormalizedWindow(index[k]) == index[k] {
      assert AllPlain(index[k].text);
      NormalizeFixedPoint(index[k].text);
    }
    NoRuleAScoresAll(m, current, index);
  }

  /** When some match scores above zero, folding from no match ends on the first
      match of greatest similarity. */
  lemma FoldPositive(ms: seq<Match>, k: nat)
    requires k < |ms| && ms[k].similarity > 0.0
    ensures var j := FirstMaxIndex(ms); Fold(NoMatch, ms) == Tracker(Some(ms[j]), ms[j].similarity)
  {
    var j := FirstMaxIndex(ms);
    assert ms[k].similarity <= ms[j].similarity;
    FoldIsFirstMax(NoMatch, ms);
  }

  /** Fed one segment of normal text, with no early stop and normal window texts,
      the streaming scan ends where folding over the batch matches ends. */
  lemma StreamingFoldsMatches(m: MatchCount, chs: seq<Chapter>, sizes: seq<Size>, segment: string)
    requires NoEarlyStop(m, Strip(segment), Index(chs, sizes))
    requires AllTextsPlain(Index(chs, sizes))
    ensures Run(m, Index(chs, sizes), [segment]).tracker == Fold(NoMatch, Matches(m, Strip(segment), chs, sizes))
  {
    RunOneSegment(m, Index(chs, sizes), segment);
    MatchesAreScoredWindows(m, chs, sizes, Strip(segment));
  }

  /** With normal window texts and some window scoring above zero, folding over the
      batch matches ends on their first match of greatest similarity. */
  lemma FoldMatchesPositive(m: MatchCount, chs: seq<Chapter>, sizes: seq<Size>, current: string)
    requires AllTextsPlain(Index(chs, sizes))
    requires SomeScorePositive(m, current, Index(chs, sizes))
    ensures var ms := Matches(m, current, chs, sizes);
      && ms != []
      && Fold(NoMatch, ms) == Tracker(Some(ms[FirstMaxIndex(ms)]), ms[FirstMaxIndex(ms)].similarity)
  {
    var index := Index(chs, sizes);
    var k :| 0 <= k < |index| && (|current| + |index[k].text| == 0 || m(current, index[k].text) > 0);
    RatioPositiveIff(m, current, index[k].text);
    MatchAt(m, current, chs, sizes, k);
    assert NormalizedWindow(index[k]) == index[k] by {
      assert AllPlain(index[k].text);
    }
    FoldPositive(Matches(m, current, chs, sizes), k);
  }

  /** Streaming and batch agree when early stopping never triggers: fed one segment,
      the streaming scan ends on the same match the batch ranking returns, provided
      the texts are already normal (the streaming scan never normalises) and some
      window scores above 0 (otherwise the streaming scan keeps no match at all). */
  lemma StreamingAgreesWithBatch(m: MatchCount, chs: seq<Chapter>, sizes: seq<Size>, segment: string, topK: int)
    requires NoEarlyStop(m, Strip(segment), Index(chs, sizes))
    requires AllPlain(Strip(segment))
    requires AllTextsPlain(Index(chs, sizes))
    requires SomeScorePositive(m, Strip(segment), Index(chs, sizes))
    ensures var r := DetectTopVersets(m, [segment], chs, sizes, topK);
      && r.Success?
      && Run(m, Index(chs, sizes), [segment]).tracker == Tracker(Some(r.value), r.value.similarity)
  {
    OneSegmentTranscript(segment);
    StreamingFoldsMatches(m, chs, sizes, segment);
    FoldMatchesPositive(m, chs, sizes, Strip(segment));
    var ms := Matches(m, Strip(segment), chs, sizes);
    var r := DetectTopVersets(m, [segment], chs, sizes, topK);
    assert r.Success?;
    assert r.value == ms[FirstMaxIndex(ms)];
  }
}
