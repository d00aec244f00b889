/**
 * `difflib.SequenceMatcher(None, a, b).ratio()`.
 *
 * difflib's ratio is `2 * M / (|a| + |b|)`, or `1.0` when both strings are
 * empty, where `M` counts the characters of the matching blocks it finds.
 * The block search (and its "autojunk" heuristic for long second strings) is
 * not modelled: `M` is an opaque count that can never exceed either length.
 */
module Similarity {

  /** Any matching-character count that stays within both string lengths. */
  type MatchCount = m: (string, string) -> nat
    | forall a, b :: m(a, b) <= |a| && m(a, b) <= |b|
    witness (a: string, b: string) => 0

  /** The similarity ratio, computed exactly (no floating-point rounding). */
  function Ratio(m: MatchCount, a: string, b: string): (r: real)
    ensures 0.0 <= r <= 1.0
    ensures |a| + |b| == 0 ==> r == 1.0
    ensures (|a| == 0) != (|b| == 0) ==> r == 0.0
  {
    var total := |a| + |b|;
    if total == 0 then 1.0
    else
      FractionInUnit(2 * m(a, b), total);
      (2 * m(a, b)) as real / total as real
  }

  /** A count no larger than a positive total gives a fraction in [0, 1]. */
  lemma FractionInUnit(n: nat, total: nat)
    requires 0 < total && n <= total
    ensures 0.0 <= n as real / total as real <= 1.0
  {
    assert n as real <= total as real;
  }

  /** The ratio reaches 1 exactly when every character of both strings is matched. */
  lemma RatioOneIff(m: MatchCount, a: string, b: string)
    ensures Ratio(m, a, b) == 1.0 <==> m(a, b) == |a| && m(a, b) == |b|
  {
    var total := |a| + |b|;
    if total > 0 {
      var k := m(a, b);
      assert Ratio(m, a, b) == (2 * k) as real / total as real;
      if Ratio(m, a, b) == 1.0 {
        assert (2 * k) as real == total as real;
        assert 2 * k == total;
      }
      if k == |a| && k == |b| {
        assert 2 * k == total;
      }
    }
  }

  /** The ratio is positive exactly when both strings are empty or the matcher pairs
      up at least one character. */
  lemma RatioPositiveIff(m: MatchCount, a: string, b: string)
    ensures Ratio(m, a, b) > 0.0 <==> |a| + |b| == 0 || m(a, b) > 0
  {
    var total := |a| + |b|;
    if total > 0 {
      assert Ratio(m, a, b) == (2 * m(a, b)) as real / total as real;
    }
  }

  /** A string compared with itself scores 1 whenever the matcher pairs up all of it
      (difflib may not, for long strings under autojunk). */
  lemma RatioSelf(m: MatchCount, x: string)
    requires m(x, x) == |x|
    ensures Ratio(m, x, x) == 1.0
  {
    RatioOneIff(m, x, x);
  }
}
