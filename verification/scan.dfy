/**
 * The streaming scan of `scripts/07_predict_from_transcription.py`: segment
 * texts are appended to a running transcript, the stripped transcript is
 * scored against every window in index order, a strictly better score
 * replaces the best match, and a window with a verse scoring at least 0.60
 * ends the pass over the windows for that segment (the next segment is still
 * processed). The adjacent-pair test at 0.35 only leaves its own loop.
 */
module Scan {
  import opened Wrappers
  import opened Text
  import opened Similarity
  import opened Corpus
  import opened Ranking

  /** `SCORE_HIGH`. */
  const ScoreHigh: real := 0.60
  /** `SCORE_MEDIUM`. */
  const ScoreMedium: real := 0.35

  /** `individual_scores`: the transcript against each verse of the window. */
  function VerseScores(m: MatchCount, current: string, win: Window): (r: seq<real>)
    ensures |r| == |win.verses|
    ensures forall k :: 0 <= k < |r| ==> 0.0 <= r[k] <= 1.0
  {
    seq(|win.verses|, k requires 0 <= k < |win.verses| => Ratio(m, current, win.verses[k].text))
  }

  /** Rule A: some verse of the window scores at least `SCORE_HIGH`; any one such
      verse is enough, and a window without verses never fires it. */
  predicate RuleA(scores: seq<real>)
    ensures RuleA(scores) ==> scores != []
    ensures forall k :: 0 <= k < |scores| && scores[k] >= ScoreHigh ==> RuleA(scores)
  {
    exists k :: 0 <= k < |scores| && scores[k] >= ScoreHigh
  }

  /** Rule B: two adjacent verses of the window both score at least `SCORE_MEDIUM`;
      it needs a window of two verses or more, and any such pair is enough. */
  predicate RuleB(scores: seq<real>)
    ensures RuleB(scores) ==> |scores| >= 2
    ensures forall k :: 0 <= k < |scores| - 1 && scores[k] >= ScoreMedium && scores[k + 1] >= ScoreMedium ==> RuleB(scores)
  {
    exists k :: 0 <= k < |scores| - 1 && scores[k] >= ScoreMedium && scores[k + 1] >= ScoreMedium
  }

  /** The windows one segment's pass actually scores, with their scores: every window
      in index order up to and including the first on which rule A fires. */
  function ScoredWindows(m: MatchCount, current: string, ws: seq<Window>): (r: seq<Match>)
    ensures |r| <= |ws|
    ensures ws != [] ==> r != []
    ensures forall k :: 0 <= k < |r| ==> r[k] == Score(m, current, ws[k])
    ensures forall k :: 0 <= k < |r| - 1 ==> !RuleA(VerseScores(m, current, ws[k]))
    ensures |r| < |ws| ==> r != [] && RuleA(VerseScores(m, current, ws[|r| - 1]))
    decreases |ws|
  {
    if ws == [] then []
    else if RuleA(VerseScores(m, current, ws[0])) then [Score(m, current, ws[0])]
    else [Score(m, current, ws[0])] + ScoredWindows(m, current, ws[1..])
  }

  /** A scored window came from the list and scored within [0, 1]. */
  lemma ScoredFromWindows(m: MatchCount, current: string, ws: seq<Window>)
    ensures forall c :: c in ScoredWindows(m, current, ws) ==> c.window in ws && 0.0 <= c.similarity <= 1.0
  {
    var r := ScoredWindows(m, current, ws);
    forall c | c in r ensures c.window in ws && 0.0 <= c.similarity <= 1.0 {
      var k :| 0 <= k < |r| && r[k] == c;
      assert c == Score(m, current, ws[k]);
    }
  }

  /** The scan's state between segments: `transcription_progressive`, and
      `best_match` with `best_score`. */
  datatype Session = Session(transcript: string, tracker: Tracker)

  /** Before the first segment. */
  const Start: Session := Session("", NoMatch)

  /** One segment: append its text, strip, and pass over the windows. The best score
      never drops, and the best match only changes on a strict improvement. */
  function Step(m: MatchCount, index: seq<Window>, st: Session, segment: string): (r: Session)
    ensures r.transcript == st.transcript + segment
    ensures r.tracker.score >= st.tracker.score
    ensures r.tracker != st.tracker ==> r.tracker.score > st.tracker.score && r.tracker.best.Some?
  {
    var transcript := st.transcript + segment;
    Session(transcript, Fold(st.tracker, ScoredWindows(m, Strip(transcript), index)))
  }

  /** The state after processing `segments` in order. */
  function Run(m: MatchCount, index: seq<Window>, segments: seq<string>): (r: Session)
    ensures r.transcript == Concat(segments)
    ensures Consistent(r.tracker)
    ensures r.tracker.best.Some? ==> r.tracker.best.value.window in index && r.tracker.score <= 1.0
    decreases |segments|
  {
    if segments == [] then Start
    else
      var before := Run(m, index, segments[..|segments| - 1]);
      var after := Step(m, index, before, segments[|segments| - 1]);
      ScoredFromWindows(m, Strip(after.transcript), index);
      after
  }

  /** Every window scored while processing `segments`, in scan order: segment by
      segment, each against the stripped transcript accumulated so far. */
  function Trace(m: MatchCount, index: seq<Window>, segments: seq<string>): seq<Match>
    decreases |segments|
  {
    if segments == [] then []
    else Trace(m, index, segments[..|segments| - 1]) + ScoredWindows(m, Strip(Concat(segments)), index)
  }

  /** The scan is the strict-improvement update over the whole trace. */
  lemma {:induction false} RunFoldsTrace(m: MatchCount, index: seq<Window>, segments: seq<string>)
    ensures Run(m, index, segments).tracker == Fold(NoMatch, Trace(m, index, segments))
    decreases |segments|
  {
    if segments != [] {
      var prefix := segments[..|segments| - 1];
      RunFoldsTrace(m, index, prefix);
      FoldAppend(NoMatch, Trace(m, index, prefix), ScoredWindows(m, Strip(Concat(segments)), index));
    }
  }

  /** Ties keep the candidate scanned first, whether earlier in the same pass or in
      an earlier segment: the final best match is the first maximum of the trace,
      and there is no best match exactly when every score in the trace is 0. */
  lemma BestIsFirstMaxOfTrace(m: MatchCount, index: seq<Window>, segments: seq<string>)
    ensures var r := Run(m, index, segments); var tr := Trace(m, index, segments);
      && (r.tracker.best.None? <==> forall i :: 0 <= i < |tr| ==> tr[i].similarity <= 0.0)
      && (r.tracker.best.Some? ==> tr != [] && r.tracker.best == Some(tr[FirstMaxIndex(tr)]))
  {
    var tr := Trace(m, index, segments);
    RunFoldsTrace(m, index, segments);
    FoldIsFirstMax(NoMatch, tr);
    if tr != [] {
      var j := FirstMaxIndex(tr);
      if tr[j].similarity > 0.0 {
        assert Fold(NoMatch, tr).best == Some(tr[j]);
      }
    }
  }

  /** One more segment never lowers the best score. */
  lemma RunStep(m: MatchCount, index: seq<Window>, segments: seq<string>)
    requires segments != []
    ensures Run(m, index, segments[..|segments| - 1]).tracker.score <= Run(m, index, segments).tracker.score
  {
  }

  lemma RunWhole(m: MatchCount, index: seq<Window>, segments: seq<string>)
    ensures Run(m, index, segments[..|segments|]) == Run(m, index, segments)
  {
    assert segments[..|segments|] == segments;
  }

  /** Taking one more segment never lowers the best score. */
  lemma RunStepAt(m: MatchCount, index: seq<Window>, segments: seq<string>, n: nat)
    requires 0 < n <= |segments|
    ensures Run(m, index, segments[..n - 1]).tracker.score <= Run(m, index, segments[..n]).tracker.score
  {
    var longer := segments[..n];
    assert longer[..|longer| - 1] == segments[..n - 1];
    RunStep(m, index, longer);
  }

  /** A sequence that never decreases from one entry to the next is monotone. */
  lemma {:induction false} ChainMonotone(xs: seq<real>, k: nat, n: nat)
    requires k <= n < |xs|
    requires forall i :: 0 < i < |xs| ==> xs[i - 1] <= xs[i]
    ensures xs[k] <= xs[n]
    decreases n - k
  {
    if k < n {
      ChainMonotone(xs, k, n - 1);
    }
  }

  /** The best score after any prefix of the segments is at most the final one. */
  lemma ScoreMonotone(m: MatchCount, index: seq<Window>, segments: seq<string>, k: nat)
    requires k <= |segments|
    ensures Run(m, index, segments[..k]).tracker.score <= Run(m, index, segments).tracker.score
  {
    var scores := seq(|segments| + 1, n requires 0 <= n <= |segments| => Run(m, index, segments[..n]).tracker.score);
    forall n | 0 < n < |scores|
      ensures scores[n - 1] <= scores[n]
    {
      RunStepAt(m, index, segments, n);
    }
    ChainMonotone(scores, k, |segments|);
    RunWhole(m, index, segments);
  }

  /** After any prefix of the segments, the transcript is a prefix of the final one
      and the best score is at most the final one. */
  lemma RunMonotone(m: MatchCount, index: seq<Window>, segments: seq<string>, k: nat)
    requires k <= |segments|
    ensures Run(m, index, segments[..k]).tracker.score <= Run(m, index, segments).tracker.score
    ensures |Run(m, index, segments[..k]).transcript| <= |Run(m, index, segments).transcript|
    ensures Run(m, index, segments[..k]).transcript
            == Run(m, index, segments).transcript[..|Run(m, index, segments[..k]).transcript|]
  {
    ScoreMonotone(m, index, segments, k);
    ConcatPrefix(segments, k);
  }

  /** With no windows at all (empty corpus, no sizes, or chapters too short), no
      segment can produce a match. */
  lemma {:induction false} NoWindowsNoMatch(m: MatchCount, segments: seq<string>)
    ensures Run(m, [], segments).tracker == NoMatch
    decreases |segments|
  {
    if segments != [] {
      NoWindowsNoMatch(m, segments[..|segments| - 1]);
    }
  }

  /** A window holding a verse whose text is the whole current transcript fires rule A,
      as long as the matcher pairs that text with itself completely. */
  lemma ExactVerseFiresRuleA(m: MatchCount, current: string, win: Window, k: nat)
    requires k < |win.verses| && win.verses[k].text == current
    requires m(current, current) == |current|
    ensures RuleA(VerseScores(m, current, win))
  {
    RatioSelf(m, current);
    assert VerseScores(m, current, win)[k] == 1.0;
  }

  /** One window of the pass: update with its score, then stop if rule A fires. */
  lemma PassStep(m: MatchCount, current: string, ws: seq<Window>, k: nat, t: Tracker)
    requires k < |ws|
    ensures Fold(t, ScoredWindows(m, current, ws[k..])) ==
      if RuleA(VerseScores(m, current, ws[k])) then Consider(t, Score(m, current, ws[k]))
      else Fold(Consider(t, Score(m, current, ws[k])), ScoredWindows(m, current, ws[k + 1..]))
  {
    var tail := ws[k..];
    assert tail[0] == ws[k] && tail[1..] == ws[k + 1..];
    var c := Score(m, current, ws[k]);
    if !RuleA(VerseScores(m, current, ws[k])) {
      var rest := ScoredWindows(m, current, ws[k + 1..]);
      assert ScoredWindows(m, current, tail) == [c] + rest;
      assert ([c] + rest)[1..] == rest;
    }
  }

  /** `any(s >= SCORE_HIGH for s in individual_scores)`: the scores are tried in
      order and the first high one settles it. */
  method AnyHigh(individual: seq<real>) returns (high: bool)
    ensures high <==> RuleA(individual)
  {
    high := false;
    var j := 0;
    while j < |individual|
      invariant j <= |individual|
      invariant forall i :: 0 <= i < j ==> individual[i] < ScoreHigh
    {
      if individual[j] >= ScoreHigh {
        high := true;
        break;
      }
      j := j + 1;
    }
  }

  /** The adjacent-pair loop of rule B: it reports whether it stopped at a pair of
      neighbouring verses both scoring at least `SCORE_MEDIUM`. */
  method AdjacentPair(individual: seq<real>) returns (found: bool)
    ensures found <==> RuleB(individual)
  {
    found := false;
    var j := 0;
    while j < |individual| - 1
      invariant 0 <= j
      invariant forall i :: 0 <= i < j && i + 1 < |individual| ==> !(individual[i] >= ScoreMedium && individual[i + 1] >= ScoreMedium)
    {
      if individual[j] >= ScoreMedium && individual[j + 1] >= ScoreMedium {
        found := true;
        break;
      }
      j := j + 1;
    }
  }

  /** The rule-B loop as the window loop runs it: its answer is never used, since
      its `break` leaves only the pair loop. */
  method RuleBLoop(individual: seq<real>) {
    var pair := AdjacentPair(individual);
  }

  /** The body of the window loop for one window: score it, replace on strict
      improvement, and report whether rule A fires; when it does not, run the
      adjacent-pair loop, whose `break` leaves only itself. */
  method ScanWindow(m: MatchCount, item: Window, current: string, best: Option<Match>, score: real)
    returns (bestMatch: Option<Match>, bestScore: real, high: bool)
    ensures Tracker(bestMatch, bestScore) == Consider(Tracker(best, score), Score(m, current, item))
    ensures high <==> RuleA(VerseScores(m, current, item))
  {
    bestMatch, bestScore := best, score;
    var similarity := Ratio(m, current, item.text);
    if similarity > bestScore {
      bestScore := similarity;
      bestMatch := Some(Match(item, similarity));
    }
    var individual := VerseScores(m, current, item);
    high := AnyHigh(individual);
    if !high {
      RuleBLoop(individual);
    }
  }

  /** The loop over the windows for one segment: one `ScanWindow` per window in
      index order, leaving the loop when rule A fires. */
  method ScanWindows(m: MatchCount, index: seq<Window>, current: string, best: Option<Match>, score: real)
    returns (bestMatch: Option<Match>, bestScore: real)
    ensures Tracker(bestMatch, bestScore) == Fold(Tracker(best, score), ScoredWindows(m, current, index))
  {
    bestMatch, bestScore := best, score;
    ghost var goal := Fold(Tracker(best, score), ScoredWindows(m, current, index));
    var k := 0;
    while k < |index|
      invariant k <= |index|
      invariant Fold(Tracker(bestMatch, bestScore), ScoredWindows(m, current, index[k..])) == goal
    {
      PassStep(m, current, index, k, Tracker(bestMatch, bestScore));
      var high;
      bestMatch, bestScore, high := ScanWindow(m, index[k], current, bestMatch, bestScore);
      if high {
        break;
      }
      k := k + 1;
    }
  }

  /** The loop over the segments: append the raw text, strip, scan the windows. */
  method Analyse(m: MatchCount, index: seq<Window>, segments: seq<string>)
    returns (bestMatch: Option<Match>, bestScore: real)
    ensures Session(Concat(segments), Tracker(bestMatch, bestScore)) == Run(m, index, segments)
    ensures bestMatch.None? ==> bestScore == 0.0
    ensures bestMatch.Some? ==> bestMatch.value.window in index && bestMatch.value.similarity == bestScore > 0.0
  {
    bestMatch, bestScore := None, 0.0;
    var transcription := "";
    var s := 0;
    while s < |segments|
      invariant s <= |segments|
      invariant Run(m, index, segments[..s]) == Session(transcription, Tracker(bestMatch, bestScore))
    {
      assert segments[..s + 1][..s] == segments[..s];
      transcription := transcription + segments[s];
      var current := Strip(transcription);
      bestMatch, bestScore := ScanWindows(m, index, current, bestMatch, bestScore);
      s := s + 1;
    }
    RunWhole(m, index, segments);
  }

  /** One segment: the streaming scan is one pass over the windows against the
      stripped segment. */
  lemma RunOneSegment(m: MatchCount, index: seq<Window>, segment: string)
    ensures Run(m, index, [segment]).tracker == Fold(NoMatch, ScoredWindows(m, Strip(segment), index))
  {
    assert [segment][..0] == [];
    assert Concat([segment]) == segment;
  }

  // ---------------------------------------------------------------------------
  // The worked scenario: one two-verse chapter, sizes 1 and 2, and a single
  // segment that is exactly the first verse.
  // ---------------------------------------------------------------------------

  const FirstVerse: string := "\U{0627} \U{0644} \U{062D} \U{0645} \U{062F}"
  const SecondVerse: string := "\U{0644} \U{0644} \U{0647}"

  function ScenarioCorpus(): seq<Chapter>
  {
    [Chapter(1, "Test", [Verse(1, FirstVerse), Verse(2, SecondVerse)])]
  }

  /** The scenario's first window is verse 1 alone. */
  lemma ScenarioFirstWindow()
    ensures |Index(ScenarioCorpus(), [1, 2])| == 3
    ensures Index(ScenarioCorpus(), [1, 2])[0] == Window(1, "Test", 1, 1, [Verse(1, FirstVerse)], FirstVerse)
  {
    var chs := ScenarioCorpus();
    IndexAtRank(chs, [1, 2], Slot(0, 0, 0));
    assert Rank(chs, [1, 2], Slot(0, 0, 0)) == 0;
    assert chs[0].verses[0..1] == [Verse(1, FirstVerse)];
    assert Texts([Verse(1, FirstVerse)]) == [FirstVerse];
    var sizes: seq<Size> := [1, 2];
    assert sizes[1..] == [2];
    assert ChapterCount(chs[0], [2]) == 1;
    assert ChapterCount(chs[0], sizes) == 3;
    assert IndexCount(chs, sizes) == 3;
  }

  /** The single segment has no surrounding whitespace. */
  lemma ScenarioTranscript()
    ensures Strip(FirstVerse) == FirstVerse
  {
    assert FirstVerse[0] == '\U{0627}' && FirstVerse[|FirstVerse| - 1] == '\U{062F}';
    assert Trimmed(FirstVerse);
    StripFixedPoint(FirstVerse);
  }

  /** Rule A fires on the very first window (verse 1 alone), so the pass scores only
      that window, and the best match is verse 1 to verse 1 with similarity 1. */
  lemma ScenarioExactFirstVerse(m: MatchCount)
    requires m(FirstVerse, FirstVerse) == |FirstVerse|
    ensures |ScoredWindows(m, FirstVerse, Index(ScenarioCorpus(), [1, 2]))| == 1
    ensures var r := Run(m, Index(ScenarioCorpus(), [1, 2]), [FirstVerse]).tracker;
      && r.best.Some?
      && r.best.value.window.chapterId == 1
      && r.best.value.window.startVerse == 1
      && r.best.value.window.endVerse == 1
      && r.best.value.similarity == 1.0
  {
    var index := Index(ScenarioCorpus(), [1, 2]);
    ScenarioFirstWindow();
    ScenarioTranscript();
    var first := index[0];
    RatioSelf(m, FirstVerse);
    ExactVerseFiresRuleA(m, FirstVerse, first, 0);
    var c := Match(first, 1.0);
    assert ScoredWindows(m, FirstVerse, index) == [c];
    RunOneSegment(m, index, FirstVerse);
    assert Fold(NoMatch, [c]) == Fold(Consider(NoMatch, c), []);
  }
}
