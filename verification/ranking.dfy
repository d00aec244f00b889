/**
 * How the scripts pick a winner among scored windows: the running
 * "replace on strict improvement" update of the streaming scans, and the
 * stable descending sort of the batch ranking.
 */
module Ranking {
  import opened Wrappers
  import opened Similarity
  import opened Corpus

  /** A window together with the similarity it scored (`{**item, "similarity": score}`). */
  datatype Match = Match(window: Window, similarity: real)

  /** A window scored against the transcript by the similarity ratio of its text. */
  function Score(m: MatchCount, transcript: string, win: Window): (r: Match)
    ensures r.window == win && 0.0 <= r.similarity <= 1.0
  {
    Match(win, Ratio(m, transcript, win.text))
  }

  /** `best_match` and `best_score`. */
  datatype Tracker = Tracker(best: Option<Match>, score: real)

  /** `best_match = None`, `best_score = 0.0`. */
  const NoMatch: Tracker := Tracker(None, 0.0)

  /** `j` is the first position holding the greatest similarity of `cs`. */
  predicate IsFirstMax(cs: seq<Match>, j: int) {
    && 0 <= j < |cs|
    && (forall i :: 0 <= i < |cs| ==> cs[i].similarity <= cs[j].similarity)
    && (forall i :: 0 <= i < j ==> cs[i].similarity < cs[j].similarity)
  }

  /** `best_match` and `best_score` agree: no match goes with score 0, and a
      recorded match carries the (positive) best score. */
  predicate Consistent(t: Tracker) {
    && (t.best.None? ==> t.score == 0.0)
    && (t.best.Some? ==> t.best.value.similarity == t.score && t.score > 0.0)
  }

  /** `if score > best_score: best_score = score; best_match = ...`. */
  function Consider(t: Tracker, c: Match): (r: Tracker)
    ensures r.score >= t.score && r.score >= c.similarity
    ensures r != t ==> r == Tracker(Some(c), c.similarity) && c.similarity > t.score
  {
    if c.similarity > t.score then Tracker(Some(c), c.similarity) else t
  }

  /** The update applied to the candidates in scan order. */
  function Fold(t: Tracker, cs: seq<Match>): (r: Tracker)
    ensures r.score >= t.score
    ensures forall i :: 0 <= i < |cs| ==> cs[i].similarity <= r.score
    ensures r == t || (r.best.Some? && r.best.value in cs && r.score == r.best.value.similarity > t.score)
    ensures Consistent(t) ==> Consistent(r)
    decreases |cs|
  {
    if cs == [] then t else Fold(Consider(t, cs[0]), cs[1..])
  }

  /** Folding in two pieces is folding the whole. */
  lemma {:induction false} FoldAppend(t: Tracker, a: seq<Match>, b: seq<Match>)
    ensures Fold(t, a + b) == Fold(Fold(t, a), b)
    decreases |a|
  {
    if a != [] {
      assert (a + b)[0] == a[0];
      assert (a + b)[1..] == a[1..] + b;
      FoldAppend(Consider(t, a[0]), a[1..], b);
    } else {
      assert a + b == b;
    }
  }

  /** The strict-improvement scan ends on the FIRST candidate of greatest similarity
      (ties keep the one scanned earlier), unless no candidate beats the starting
      score, in which case nothing changes. */
  lemma {:induction false} FoldIsFirstMax(t: Tracker, cs: seq<Match>)
    ensures (forall i :: 0 <= i < |cs| ==> cs[i].similarity <= t.score) ==> Fold(t, cs) == t
    ensures forall j :: IsFirstMax(cs, j) && cs[j].similarity > t.score ==>
      Fold(t, cs) == Tracker(Some(cs[j]), cs[j].similarity)
    decreases |cs|
  {
    if cs != [] {
      var t' := Consider(t, cs[0]);
      FoldIsFirstMax(t', cs[1..]);
      forall j | IsFirstMax(cs, j) && cs[j].similarity > t.score
        ensures Fold(t, cs) == Tracker(Some(cs[j]), cs[j].similarity)
      {
        if j == 0 {
          assert t' == Tracker(Some(cs[0]), cs[0].similarity);
          assert forall i :: 0 <= i < |cs[1..]| ==> cs[1..][i].similarity <= t'.score by {
            forall i | 0 <= i < |cs[1..]| ensures cs[1..][i].similarity <= t'.score {
              assert cs[1..][i] == cs[i + 1];
            }
          }
        } else {
          assert cs[0].similarity < cs[j].similarity;
          assert IsFirstMax(cs[1..], j - 1) by {
            forall i | 0 <= i < |cs[1..]| ensures cs[1..][i].similarity <= cs[1..][j - 1].similarity {
              assert cs[1..][i] == cs[i + 1];
            }
            forall i | 0 <= i < j - 1 ensures cs[1..][i].similarity < cs[1..][j - 1].similarity {
              assert cs[1..][i] == cs[i + 1];
            }
          }
        }
      }
    }
  }

  /** The position of the first maximum of a non-empty list. */
  function FirstMaxIndex(cs: seq<Match>): (j: nat)
    requires cs != []
    ensures IsFirstMax(cs, j)
    decreases |cs|
  {
    if |cs| == 1 then 0
    else
      var k := FirstMaxIndex(cs[1..]);
      if cs[0].similarity >= cs[k + 1].similarity then
        assert forall i :: 1 <= i < |cs| ==> cs[i] == cs[1..][i - 1];
        0
      else
        assert forall i :: 1 <= i < |cs| ==> cs[i] == cs[1..][i - 1];
        k + 1
  }

  // ---------------------------------------------------------------------------
  // matches.sort(key=lambda x: -x["similarity"]) -- a stable sort
  // ---------------------------------------------------------------------------

  /** Highest similarity first. */
  predicate Descending(s: seq<Match>) {
    forall i, j :: 0 <= i < j < |s| ==> s[i].similarity >= s[j].similarity
  }

  /** Place `x` in a descending list, in front of every element whose key it ties. */
  function Insert(x: Match, s: seq<Match>): (r: seq<Match>)
    ensures multiset(r) == multiset(s) + multiset{x}
    ensures |r| == |s| + 1
    decreases |s|
  {
    if s == [] || s[0].similarity <= x.similarity then
      [x] + s
    else
      assert s == [s[0]] + s[1..];
      [s[0]] + Insert(x, s[1..])
  }

  /** Every key of `s` is at most `bound`. */
  predicate AllAtMost(s: seq<Match>, bound: real) {
    forall i :: 0 <= i < |s| ==> s[i].similarity <= bound
  }

  lemma {:induction false} InsertAtMost(x: Match, s: seq<Match>, bound: real)
    requires AllAtMost(s, bound) && x.similarity <= bound
    ensures AllAtMost(Insert(x, s), bound)
    decreases |s|
  {
    if s != [] && s[0].similarity > x.similarity {
      InsertAtMost(x, s[1..], bound);
      var tail := Insert(x, s[1..]);
      assert Insert(x, s) == [s[0]] + tail;
    }
  }

  /** Inserting into a descending list keeps it descending. */
  lemma {:induction false} InsertDescending(x: Match, s: seq<Match>)
    requires Descending(s)
    ensures Descending(Insert(x, s))
    decreases |s|
  {
    if s != [] && s[0].similarity > x.similarity {
      InsertDescending(x, s[1..]);
      InsertAtMost(x, s[1..], s[0].similarity);
      var tail := Insert(x, s[1..]);
      assert Insert(x, s) == [s[0]] + tail;
    }
  }

  /** A stable sort by descending similarity (insertion sort). */
  function SortBySimilarity(ms: seq<Match>): (r: seq<Match>)
    ensures multiset(r) == multiset(ms)
    ensures |r| == |ms|
    ensures Descending(r)
    decreases |ms|
  {
    if ms == [] then []
    else
      assert ms == [ms[0]] + ms[1..];
      InsertDescending(ms[0], SortBySimilarity(ms[1..]));
      Insert(ms[0], SortBySimilarity(ms[1..]))
  }

  /** The elements whose key is `v`, in order. */
  function WithKey(s: seq<Match>, v: real): seq<Match>
  {
    if s == [] then []
    else (if s[0].similarity == v then [s[0]] else []) + WithKey(s[1..], v)
  }

  lemma {:induction false} InsertStable(x: Match, s: seq<Match>, v: real)
    requires Descending(s)
    ensures WithKey(Insert(x, s), v) == (if x.similarity == v then [x] else []) + WithKey(s, v)
    decreases |s|
  {
    if s != [] && s[0].similarity > x.similarity {
      InsertStable(x, s[1..], v);
      if x.similarity == v {
        assert s[0].similarity != v;
      }
    }
  }

  /** The sort is stable: elements with equal similarity keep their relative order. */
  lemma {:induction false} SortIsStable(ms: seq<Match>, v: real)
    ensures WithKey(SortBySimilarity(ms), v) == WithKey(ms, v)
    decreases |ms|
  {
    if ms != [] {
      SortIsStable(ms[1..], v);
      InsertStable(ms[0], SortBySimilarity(ms[1..]), v);
    }
  }

  /** The head of the stable descending sort is the first maximum of the input. */
  lemma {:induction false} SortHeadIsFirstMax(ms: seq<Match>)
    requires ms != []
    ensures SortBySimilarity(ms)[0] == ms[FirstMaxIndex(ms)]
    decreases |ms|
  {
    if |ms| > 1 {
      SortHeadIsFirstMax(ms[1..]);
      var rest := SortBySimilarity(ms[1..]);
      var k := FirstMaxIndex(ms[1..]);
      assert rest[0] == ms[k + 1];
    }
  }

  /** With a positive best score, the streaming update started from no match and the
      head of the stable sort choose the same match. */
  lemma FoldAgreesWithSortHead(ms: seq<Match>)
    requires exists i :: 0 <= i < |ms| && ms[i].similarity > 0.0
    ensures Fold(NoMatch, ms) == Tracker(Some(SortBySimilarity(ms)[0]), SortBySimilarity(ms)[0].similarity)
  {
    SortHeadIsFirstMax(ms);
    FoldIsFirstMax(NoMatch, ms);
  }
}
