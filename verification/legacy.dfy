/**
 * The archived scan of `scripts/archive/old_07_predict_from_transcription.py`:
 * the raw transcription grows segment by segment, `clean_text` (removal of
 * three stock formulas, then strip) is reapplied to all of it, and the best
 * match ALIASES an index entry, into which the new similarity is written.
 */
module Legacy {
  import opened Wrappers
  import opened Text
  import opened Similarity
  import opened Corpus
  import opened Ranking
  import opened Scan

  /** `SUPPRESSIONS`: the ta'awwudh and two spellings of the basmala. */
  const Suppressions: seq<string> := [
    "\U{0623}\U{0639}\U{0648}\U{0630} \U{0628}\U{0627}\U{0644}\U{0644}\U{0647} \U{0645}\U{0646} \U{0627}\U{0644}\U{0634}\U{064A}\U{0637}\U{0627}\U{0646} \U{0627}\U{0644}\U{0631}\U{062C}\U{064A}\U{0645}",
    "\U{0628}\U{0633}\U{0645} \U{0627}\U{0644}\U{0644}\U{0647} \U{0627}\U{0644}\U{0631}\U{062D}\U{0645}\U{0646} \U{0627}\U{0644}\U{0631}\U{062D}\U{064A}\U{0645}",
    "\U{0628}\U{0633}\U{0645} \U{0627}\U{0644}\U{0644}\U{0647} \U{0627}\U{0644}\U{0631}\U{062D}\U{0645}\U{0646} \U{0627}\U{0644}\U{0631} \U{062D}\U{064A}\U{0645}"
  ]

  /** `pat` occurs in `t` starting at `i`. */
  predicate OccursAt(t: string, pat: string, i: int) {
    0 <= i && i + |pat| <= |t| && t[i..i + |pat|] == pat
  }

  /** `t.replace(pat, "")`: scanning left to right, each occurrence of `pat` is cut
      out and the scan resumes right after it (occurrences never overlap). */
  function RemoveAll(t: string, pat: string): (r: string)
    requires |pat| > 0
    ensures |r| <= |t|
    ensures (forall i :: 0 <= i < |t| ==> !OccursAt(t, pat, i)) ==> r == t
    decreases |t|
  {
    if |t| < |pat| then t
    else if t[..|pat|] == pat then
      assert OccursAt(t, pat, 0);
      RemoveAll(t[|pat|..], pat)
    else
      assert forall i :: 0 <= i < |t| - 1 && OccursAt(t[1..], pat, i) ==> OccursAt(t, pat, i + 1);
      [t[0]] + RemoveAll(t[1..], pat)
  }

  /** Where `pat` does not start the text, the first character is kept. */
  lemma RemoveAllKeep(t: string, pat: string)
    requires |pat| > 0 && t != [] && !OccursAt(t, pat, 0)
    ensures RemoveAll(t, pat) == [t[0]] + RemoveAll(t[1..], pat)
  {
    if |t| < |pat| {
      assert RemoveAll(t[1..], pat) == t[1..];
      assert [t[0]] + t[1..] == t;
    }
  }

  /** No occurrence starts inside `a` in `a + pat + b`, hence none inside `a[1..]`. */
  lemma NoEarlierOccurrence(a: string, pat: string, b: string)
    requires a != []
    requires forall i :: 0 <= i < |a| ==> !OccursAt(a + pat + b, pat, i)
    ensures forall i :: 0 <= i < |a[1..]| ==> !OccursAt(a[1..] + pat + b, pat, i)
  {
    var t := a + pat + b;
    assert t[1..] == a[1..] + pat + b;
    forall i | 0 <= i < |a[1..]| ensures !OccursAt(a[1..] + pat + b, pat, i) {
      assert !OccursAt(t, pat, i + 1);
      assert t[1..][i..i + |pat|] == t[i + 1..i + 1 + |pat|];
    }
  }

  /** The leftmost occurrence is the one removed: if `pat` first occurs in
      `a + pat + b` right after `a`, the result is `a` with its own removals, then
      whatever remains of `b`. */
  lemma {:induction false} RemoveLeftmost(a: string, pat: string, b: string)
    requires |pat| > 0
    requires forall i :: 0 <= i < |a| ==> !OccursAt(a + pat + b, pat, i)
    ensures RemoveAll(a + pat + b, pat) == RemoveAll(a, pat) + RemoveAll(b, pat)
    decreases |a|
  {
    var t := a + pat + b;
    if a == [] {
      assert t == pat + b;
      assert t[..|pat|] == pat;
      assert t[|pat|..] == b;
    } else {
      assert !OccursAt(t, pat, 0);
      calc {
        RemoveAll(t, pat);
      == { RemoveAllKeep(t, pat); }
        [t[0]] + RemoveAll(t[1..], pat);
      == { assert t[0] == a[0] && t[1..] == a[1..] + pat + b;
           NoEarlierOccurrence(a, pat, b);
           RemoveLeftmost(a[1..], pat, b); }
        [a[0]] + (RemoveAll(a[1..], pat) + RemoveAll(b, pat));
      ==
        ([a[0]] + RemoveAll(a[1..], pat)) + RemoveAll(b, pat);
      == { assert !OccursAt(a, pat, 0) by {
             if |a| >= |pat| {
               assert a[..|pat|] == t[..|pat|];
             }
           }
           RemoveAllKeep(a, pat); }
        RemoveAll(a, pat) + RemoveAll(b, pat);
      }
    }
  }

  /** Each suppression removed in list order. */
  function RemoveEach(t: string, pats: seq<string>): (r: string)
    requires forall k :: 0 <= k < |pats| ==> |pats[k]| > 0
    ensures |r| <= |t|
    decreases |pats|
  {
    if pats == [] then t else RemoveEach(RemoveAll(t, pats[0]), pats[1..])
  }

  /** `clean_text`: the three formulas removed in list order, then stripped. The
      result is never longer than its input and has no surrounding whitespace. */
  function CleanText(t: string): (r: string)
    ensures |r| <= |t|
    ensures Trimmed(r)
  {
    Strip(RemoveEach(t, Suppressions))
  }

  /** Text in which no formula occurs is only stripped. */
  lemma {:induction false} RemoveEachNoOccurrence(t: string, pats: seq<string>)
    requires forall k :: 0 <= k < |pats| ==> |pats[k]| > 0
    requires forall k, i :: 0 <= k < |pats| && 0 <= i < |t| ==> !OccursAt(t, pats[k], i)
    ensures RemoveEach(t, pats) == t
    decreases |pats|
  {
    if pats != [] {
      assert RemoveAll(t, pats[0]) == t;
      RemoveEachNoOccurrence(t, pats[1..]);
    }
  }

  lemma CleanTextWithoutFormulas(t: string)
    requires forall k, i :: 0 <= k < |Suppressions| && 0 <= i < |t| ==> !OccursAt(t, Suppressions[k], i)
    ensures CleanText(t) == Strip(t)
  {
    RemoveEachNoOccurrence(t, Suppressions);
  }

  /** `similar(a, b)`: the ratio, within [0, 1], and 1 for two empty strings. */
  function Similar(m: MatchCount, a: string, b: string): (r: real)
    ensures 0.0 <= r <= 1.0
    ensures a == [] && b == [] ==> r == 1.0
  {
    Ratio(m, a, b)
  }

  // ---------------------------------------------------------------------------
  // The scan, with the best match aliasing an index entry
  // ---------------------------------------------------------------------------

  /** An `indexed_segments` entry: the window, plus the `similarity` key the scan may
      have written into it. */
  datatype Entry = Entry(window: Window, similarity: Option<real>)

  /** `transcription`, `indexed_segments`, `best_match` (the position of the aliased
      entry) and `best_score`. */
  datatype LegacySession = LegacySession(transcription: string, entries: seq<Entry>, best: Option<nat>, score: real)

  /** The index as built: no entry has a similarity yet. */
  function Entries(ws: seq<Window>): (r: seq<Entry>)
    ensures |r| == |ws|
    ensures forall k :: 0 <= k < |ws| ==> r[k] == Entry(ws[k], None)
  {
    seq(|ws|, k requires 0 <= k < |ws| => Entry(ws[k], None))
  }

  /** The archived index: every chapter, sizes one to five (`range(1, 6)`), so each
      window holds between one and five verses, and there are as many windows as
      fit. */
  function LegacyIndex(chs: seq<Chapter>): (r: seq<Window>)
    ensures |r| == IndexCount(chs, WindowSizes)
    ensures forall k :: 0 <= k < |r| ==> 1 <= |r[k].verses| <= 5
  {
    IndexEntrySizes(chs, WindowSizes);
    Index(chs, WindowSizes)
  }

  function WindowsOf(es: seq<Entry>): seq<Window>
  {
    seq(|es|, k requires 0 <= k < |es| => es[k].window)
  }

  /** `best_match["similarity"] == best_score` holds through the alias. */
  predicate Aliased(st: LegacySession) {
    && (st.best.None? ==> st.score == 0.0)
    && (st.best.Some? ==> st.best.value < |st.entries| && st.entries[st.best.value].similarity == Some(st.score))
  }

  /** What the aliased state means as a best match and best score. */
  function View(st: LegacySession): Tracker
    requires Aliased(st)
  {
    if st.best.Some? then Tracker(Some(Match(st.entries[st.best.value].window, st.score)), st.score)
    else Tracker(None, st.score)
  }

  /** Entry `k` scored: on strict improvement `best_match = entry` and
      `best_match["similarity"] = score`. Through the alias this is the copying
      update, and no entry's window changes. */
  function Visit(m: MatchCount, clean: string, st: LegacySession, k: nat): (r: LegacySession)
    requires Aliased(st) && k < |st.entries|
    ensures Aliased(r)
    ensures WindowsOf(r.entries) == WindowsOf(st.entries)
    ensures r.transcription == st.transcription
    ensures View(r) == Consider(View(st), Score(m, clean, st.entries[k].window))
  {
    var score := Similar(m, clean, st.entries[k].window.text);
    if score > st.score then
      var es := st.entries[k := st.entries[k].(similarity := Some(score))];
      assert WindowsOf(es) == WindowsOf(st.entries);
      st.(entries := es, best := Some(k), score := score)
    else st
  }

  /** The pass over the entries for one segment, from position `k`, stopping after
      the first entry on which rule A fires. */
  function PassFrom(m: MatchCount, clean: string, st: LegacySession, k: nat): (r: LegacySession)
    requires Aliased(st)
    ensures Aliased(r)
    ensures WindowsOf(r.entries) == WindowsOf(st.entries)
    ensures r.transcription == st.transcription
    ensures r.score >= st.score
    decreases |st.entries| - k
  {
    if k >= |st.entries| then st
    else
      var st' := Visit(m, clean, st, k);
      assert st'.entries[k].window == st.entries[k].window by {
        assert WindowsOf(st'.entries)[k] == WindowsOf(st.entries)[k];
      }
      if RuleA(VerseScores(m, clean, st'.entries[k].window)) then st'
      else PassFrom(m, clean, st', k + 1)
  }

  /** One segment: grow the raw transcription, clean all of it, pass over the entries. */
  function LegacyStep(m: MatchCount, st: LegacySession, segment: string): (r: LegacySession)
    requires Aliased(st)
    ensures Aliased(r)
  {
    var transcription := st.transcription + segment;
    PassFrom(m, CleanText(transcription), st.(transcription := transcription), 0)
  }

  /** The state after processing `segments` in order over the index of `index`. */
  function LegacyRun(m: MatchCount, index: seq<Window>, segments: seq<string>): (r: LegacySession)
    ensures Aliased(r)
    ensures r.transcription == Concat(segments)
    ensures WindowsOf(r.entries) == index
    decreases |segments|
  {
    if segments == [] then
      assert WindowsOf(Entries(index)) == index;
      LegacySession("", Entries(index), None, 0.0)
    else LegacyStep(m, LegacyRun(m, index, segments[..|segments| - 1]), segments[|segments| - 1])
  }

  /** Writing the similarity into an entry never changes any entry's window, so the
      aliasing pass chooses exactly what the copying pass would over the same windows. */
  lemma {:induction false} PassAgrees(m: MatchCount, clean: string, st: LegacySession, k: nat)
    requires Aliased(st) && k <= |st.entries|
    ensures View(PassFrom(m, clean, st, k)) == Fold(View(st), ScoredWindows(m, clean, WindowsOf(st.entries)[k..]))
    decreases |st.entries| - k
  {
    var ws := WindowsOf(st.entries);
    if k < |st.entries| {
      assert ws[k..][0] == ws[k] == st.entries[k].window;
      assert ws[k..][1..] == ws[k + 1..];
      var st' := Visit(m, clean, st, k);
      assert st'.entries[k].window == ws[k] by {
        assert WindowsOf(st'.entries)[k] == ws[k];
      }
      if !RuleA(VerseScores(m, clean, ws[k])) {
        PassAgrees(m, clean, st', k + 1);
      }
    }
  }

  /** Every window scored by the archived scan, in scan order, each segment's pass
      against the cleaned accumulated transcription. */
  function LegacyTrace(m: MatchCount, index: seq<Window>, segments: seq<string>): seq<Match>
    decreases |segments|
  {
    if segments == [] then []
    else LegacyTrace(m, index, segments[..|segments| - 1]) + ScoredWindows(m, CleanText(Concat(segments)), index)
  }

  /** The archived scan is the strict-improvement update over its trace: index entries
      keep their windows, and the aliased best match carries the best score. */
  lemma {:induction false} LegacyRunFoldsTrace(m: MatchCount, index: seq<Window>, segments: seq<string>)
    ensures View(LegacyRun(m, index, segments)) == Fold(NoMatch, LegacyTrace(m, index, segments))
    decreases |segments|
  {
    if segments != [] {
      var prefix := segments[..|segments| - 1];
      var before := LegacyRun(m, index, prefix);
      LegacyRunFoldsTrace(m, index, prefix);
      var transcription := before.transcription + segments[|segments| - 1];
      var st := before.(transcription := transcription);
      PassAgrees(m, CleanText(transcription), st, 0);
      assert WindowsOf(st.entries)[0..] == index;
      assert View(st) == View(before);
      FoldAppend(NoMatch, LegacyTrace(m, index, prefix), ScoredWindows(m, CleanText(Concat(segments)), index));
    }
  }
}
