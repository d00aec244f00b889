/**
 * `normalize_arabic`: delete the tashkeel (diacritic) class, then fold seven
 * letter variants (إ أ آ ى ؤ ئ ة) onto ا ي و ه, in five `re.sub` passes, one
 * after another.
 */
module Normalize {
  import opened Text

  const Alef: char := '\U{0627}'         // ا
  const AlefHamzaBelow: char := '\U{0625}' // إ
  const AlefHamzaAbove: char := '\U{0623}' // أ
  const AlefMadda: char := '\U{0622}'      // آ
  const AlefMaqsura: char := '\U{0649}'    // ى
  const Ya: char := '\U{064A}'             // ي
  const WawHamza: char := '\U{0624}'       // ؤ
  const Waw: char := '\U{0648}'            // و
  const YaHamza: char := '\U{0626}'        // ئ
  const TaMarbuta: char := '\U{0629}'      // ة
  const Ha: char := '\U{0647}'             // ه

  /** The bracket class of the diacritic pattern, in its stored code-point order:
      U+0617..U+061A, U+064B..U+0652, U+0670 and U+06D6..U+06ED. */
  predicate IsDiacritic(c: char) {
    || '\U{0617}' <= c <= '\U{061A}'
    || '\U{064B}' <= c <= '\U{0652}'
    || c == '\U{0670}'
    || '\U{06D6}' <= c <= '\U{06ED}'
  }

  /** The letters some fold rewrites (Alef itself is rewritten to itself). */
  predicate IsFoldSource(c: char) {
    c in {AlefHamzaBelow, AlefHamzaAbove, AlefMadda, Alef, AlefMaqsura, WawHamza, YaHamza, TaMarbuta}
  }

  /** `re.sub(DIACRITICS, "", s)`. */
  function StripDiacritics(s: string): (r: string)
    ensures |r| <= |s|
    ensures forall k :: 0 <= k < |r| ==> !IsDiacritic(r[k]) && r[k] in s
  {
    if s == [] then []
    else (if IsDiacritic(s[0]) then [] else [s[0]]) + StripDiacritics(s[1..])
  }

  /** `re.sub("[...]", to, s)` for a class of single letters: every occurrence of a
      letter of `from` becomes `to`, everything else stays where it is. */
  function Substitute(s: string, from: set<char>, to: char): (r: string)
    ensures |r| == |s|
    ensures forall k :: 0 <= k < |s| ==> r[k] == (if s[k] in from then to else s[k])
  {
    if s == [] then []
    else [if s[0] in from then to else s[0]] + Substitute(s[1..], from, to)
  }

  /** `normalize_arabic`, pass by pass in the source's order. Nothing is added: the
      result is no longer than the input, free of diacritics and of the seven
      variant letters, and each of its characters is one of the input's or a fold
      target. */
  function NormalizeArabic(text: string): (r: string)
    ensures |r| <= |text|
    ensures forall k :: 0 <= k < |r| ==>
      && !IsDiacritic(r[k])
      && r[k] !in {AlefHamzaBelow, AlefHamzaAbove, AlefMadda, AlefMaqsura, WawHamza, YaHamza, TaMarbuta}
      && (r[k] in text || r[k] in {Alef, Ya, Waw, Ha})
  {
    var t := StripDiacritics(text);
    var t := Substitute(t, {AlefHamzaBelow, AlefHamzaAbove, AlefMadda, Alef}, Alef);
    var t := Substitute(t, {AlefMaqsura}, Ya);
    var t := Substitute(t, {WawHamza}, Waw);
    var t := Substitute(t, {YaHamza}, Ya);
    Substitute(t, {TaMarbuta}, Ha)
  }

  /** What the whole pipeline does to one character, in isolation: the image of a
      letter under the five folds. */
  function FoldLetter(c: char): char
  {
    if c in {AlefHamzaBelow, AlefHamzaAbove, AlefMadda} then Alef
    else if c == AlefMaqsura || c == YaHamza then Ya
    else if c == WawHamza then Waw
    else if c == TaMarbuta then Ha
    else c
  }

  /** Per-character reference: a diacritic vanishes, any other character becomes its fold. */
  function NormalizeChar(c: char): string
  {
    if IsDiacritic(c) then [] else [FoldLetter(c)]
  }

  /** Reference definition as a string homomorphism: the images of the characters, in order. */
  function NormalizeEach(s: string): string
  {
    if s == [] then [] else NormalizeChar(s[0]) + NormalizeEach(s[1..])
  }

  /** A character that normalisation leaves alone. */
  predicate IsPlain(c: char) {
    !IsDiacritic(c) && FoldLetter(c) == c
  }

  /** The fold targets are outside the diacritic class and fixed by every fold,
      which is what makes the sequence of passes idempotent. */
  lemma FoldTargetsArePlain()
    ensures forall c :: !IsDiacritic(c) ==> IsPlain(FoldLetter(c))
    ensures IsPlain(Alef) && IsPlain(Ya) && IsPlain(Waw) && IsPlain(Ha)
    ensures forall c :: IsPlain(c) <==> !IsDiacritic(c) && (!IsFoldSource(c) || c == Alef)
  {
  }

  lemma {:induction false} StripDiacriticsAppend(a: string, b: string)
    ensures StripDiacritics(a + b) == StripDiacritics(a) + StripDiacritics(b)
    decreases |a|
  {
    if a != [] {
      assert (a + b)[0] == a[0];
      assert (a + b)[1..] == a[1..] + b;
      StripDiacriticsAppend(a[1..], b);
      var h := if IsDiacritic(a[0]) then [] else [a[0]];
      assert StripDiacritics(a + b) == h + (StripDiacritics(a[1..]) + StripDiacritics(b));
      assert StripDiacritics(a) == h + StripDiacritics(a[1..]);
    } else {
      assert a + b == b;
    }
  }

  lemma SubstituteAppend(a: string, b: string, from: set<char>, to: char)
    ensures Substitute(a + b, from, to) == Substitute(a, from, to) + Substitute(b, from, to)
  {
  }

  /** The five substitutions applied to one surviving character give its fold. */
  lemma FoldsOfChar(c: char)
    requires !IsDiacritic(c)
    ensures NormalizeArabic([c]) == [FoldLetter(c)]
  {
    assert StripDiacritics([c]) == [c];
  }

  /** The pass-by-pass normaliser is the per-character homomorphism. */
  lemma {:induction false} NormalizeIsPerCharacter(s: string)
    ensures NormalizeArabic(s) == NormalizeEach(s)
    decreases |s|
  {
    if s != [] {
      NormalizeIsPerCharacter(s[1..]);
      assert s == [s[0]] + s[1..];
      NormalizeAppendPasses([s[0]], s[1..]);
      if IsDiacritic(s[0]) {
        assert StripDiacritics([s[0]]) == [];
      } else {
        FoldsOfChar(s[0]);
      }
    }
  }

  /** Every pass distributes over concatenation, so the composition does. */
  lemma NormalizeAppendPasses(a: string, b: string)
    ensures NormalizeArabic(a + b) == NormalizeArabic(a) + NormalizeArabic(b)
  {
    StripDiacriticsAppend(a, b);
    var a1, b1 := StripDiacritics(a), StripDiacritics(b);
    SubstituteAppend(a1, b1, {AlefHamzaBelow, AlefHamzaAbove, AlefMadda, Alef}, Alef);
    var a2 := Substitute(a1, {AlefHamzaBelow, AlefHamzaAbove, AlefMadda, Alef}, Alef);
    var b2 := Substitute(b1, {AlefHamzaBelow, AlefHamzaAbove, AlefMadda, Alef}, Alef);
    SubstituteAppend(a2, b2, {AlefMaqsura}, Ya);
    var a3, b3 := Substitute(a2, {AlefMaqsura}, Ya), Substitute(b2, {AlefMaqsura}, Ya);
    SubstituteAppend(a3, b3, {WawHamza}, Waw);
    var a4, b4 := Substitute(a3, {WawHamza}, Waw), Substitute(b3, {WawHamza}, Waw);
    SubstituteAppend(a4, b4, {YaHamza}, Ya);
    var a5, b5 := Substitute(a4, {YaHamza}, Ya), Substitute(b4, {YaHamza}, Ya);
    SubstituteAppend(a5, b5, {TaMarbuta}, Ha);
  }

  /** The empty string normalises to itself, and normalisation distributes over
      concatenation. */
  lemma NormalizeHomomorphism(a: string, b: string)
    ensures NormalizeArabic([]) == []
    ensures NormalizeArabic(a + b) == NormalizeArabic(a) + NormalizeArabic(b)
  {
    NormalizeAppendPasses(a, b);
  }

  lemma {:induction false} NormalizeEachFacts(s: string)
    ensures |NormalizeEach(s)| <= |s|
    ensures forall k :: 0 <= k < |NormalizeEach(s)| ==> IsPlain(NormalizeEach(s)[k])
    ensures (forall k :: 0 <= k < |s| ==> IsPlain(s[k])) ==> NormalizeEach(s) == s
    decreases |s|
  {
    if s != [] {
      NormalizeEachFacts(s[1..]);
      FoldTargetsArePlain();
    }
  }

  /** Text made only of characters outside the diacritic class and the fold sources
      comes back unchanged, and only such text does. */
  lemma NormalizeFixedPoint(s: string)
    ensures NormalizeArabic(s) == s <==> forall k :: 0 <= k < |s| ==> IsPlain(s[k])
  {
    NormalizeIsPerCharacter(s);
    NormalizeEachFacts(s);
  }

  /** Normalising twice is normalising once. */
  lemma NormalizeIdempotent(s: string)
    ensures NormalizeArabic(NormalizeArabic(s)) == NormalizeArabic(s)
  {
    NormalizeIsPerCharacter(s);
    NormalizeEachFacts(s);
    NormalizeFixedPoint(NormalizeArabic(s));
  }

  /** Normalisation applied to each piece, in order. */
  function NormalizeAll(xs: seq<string>): seq<string>
  {
    seq(|xs|, k requires 0 <= k < |xs| => NormalizeArabic(xs[k]))
  }

  /** Normalising every piece and dropping the first commute. */
  lemma NormalizeAllTail(xs: seq<string>)
    requires xs != []
    ensures NormalizeAll(xs)[1..] == NormalizeAll(xs[1..])
  {
    var a, b := NormalizeAll(xs)[1..], NormalizeAll(xs[1..]);
    forall k | 0 <= k < |a| ensures a[k] == b[k] {
      assert a[k] == NormalizeArabic(xs[k + 1]);
    }
  }

  /** The single space between two pieces passes through normalisation unchanged. */
  lemma NormalizeAroundSpace(x: string, rest: string)
    ensures NormalizeArabic((x + " ") + rest) == (NormalizeArabic(x) + " ") + NormalizeArabic(rest)
  {
    NormalizeHomomorphism(x + " ", rest);
    NormalizeHomomorphism(x, " ");
    NormalizeFixedPoint(" ");
  }

  /** Normalising space-joined texts is joining the normalised texts: the separator
      passes through unchanged. */
  lemma {:induction false} NormalizeJoin(xs: seq<string>)
    ensures NormalizeArabic(Join(" ", xs)) == Join(" ", NormalizeAll(xs))
    decreases |xs|
  {
    if |xs| >= 2 {
      var ys := NormalizeAll(xs);
      calc {
        NormalizeArabic(Join(" ", xs));
      ==
        NormalizeArabic((xs[0] + " ") + Join(" ", xs[1..]));
      == { NormalizeAroundSpace(xs[0], Join(" ", xs[1..])); }
        (NormalizeArabic(xs[0]) + " ") + NormalizeArabic(Join(" ", xs[1..]));
      == { NormalizeJoin(xs[1..]);
           NormalizeAllTail(xs); }
        (ys[0] + " ") + Join(" ", ys[1..]);
      ==
        Join(" ", ys);
      }
    }
  }
}
