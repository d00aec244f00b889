/**
 * The verse corpus and its window index: for each chapter, each window size
 * and each start offset, one record of that contiguous run of verses.
 */
module Corpus {
  import opened Text

  /** One verse (an aya): its number and its text. */
  datatype Verse = Verse(id: int, text: string)

  /** One chapter (a sourate): its number, its name and its verses in order. */
  datatype Chapter = Chapter(id: int, name: string, verses: seq<Verse>)

  /** A candidate window: a contiguous run of a chapter's verses, the ids of its
      first and last verse, and the verse texts joined by single spaces. */
  datatype Window = Window(
    chapterId: int,
    chapterName: string,
    startVerse: int,
    endVerse: int,
    verses: seq<Verse>,
    text: string)

  /** A window length. A length of zero or less would make the source index an
      empty slice (or slice from the end), so lengths are at least one. */
  type Size = w: int | 1 <= w witness 1

  /** `WINDOW_SIZES`, and equally `range(1, 6)` in the archived script and the
      default `window_sizes` of `detect_top_versets`: a call with defaults is
      `DetectTopVersets(m, segments, chs, WindowSizes, 5)`. */
  const WindowSizes: seq<Size> := [1, 2, 3, 4, 5]

  /** The texts of some verses, in order. */
  function Texts(vs: seq<Verse>): seq<string>
  {
    seq(|vs|, k requires 0 <= k < |vs| => vs[k].text)
  }

  /** The record built for `verses[i:i+w]` (`MakeWindowShape` states its fields). */
  function MakeWindow(ch: Chapter, i: nat, w: Size): Window
    requires i + w <= |ch.verses|
  {
    var run := ch.verses[i..i + w];
    Window(ch.id, ch.name, run[0].id, run[|run| - 1].id, run, Join(" ", Texts(run)))
  }

  /** The windows of length `w` starting at offsets `i`, `i + 1`, ... while they fit:
      the loop `for i in range(len(verses) - w + 1)`, resumed at `i`. */
  function WindowsFrom(ch: Chapter, w: Size, i: nat): (r: seq<Window>)
    ensures |r| == (if i + w <= |ch.verses| then |ch.verses| - w + 1 - i else 0)
    decreases |ch.verses| - i
  {
    if i + w <= |ch.verses| then [MakeWindow(ch, i, w)] + WindowsFrom(ch, w, i + 1) else []
  }

  /** A chapter's windows: size by size in list order, offsets increasing. */
  function ChapterWindows(ch: Chapter, sizes: seq<Size>): (r: seq<Window>)
    ensures |r| == ChapterCount(ch, sizes)
  {
    if sizes == [] then [] else WindowsFrom(ch, sizes[0], 0) + ChapterWindows(ch, sizes[1..])
  }

  /** The whole index: chapter by chapter. */
  function Index(chs: seq<Chapter>, sizes: seq<Size>): (r: seq<Window>)
    ensures |r| == IndexCount(chs, sizes)
  {
    if chs == [] then [] else ChapterWindows(chs[0], sizes) + Index(chs[1..], sizes)
  }

  // ---------------------------------------------------------------------------
  // Reference description: windows addressed by (chapter, size, offset) slots.
  // ---------------------------------------------------------------------------

  /** `max(0, n - w + 1)`: how many length-`w` runs fit in `n` verses. */
  function WindowCount(n: nat, w: Size): nat
  {
    if w <= n then n - w + 1 else 0
  }

  /** Number of windows a chapter contributes for the given sizes. */
  function ChapterCount(ch: Chapter, sizes: seq<Size>): nat
  {
    if sizes == [] then 0 else WindowCount(|ch.verses|, sizes[0]) + ChapterCount(ch, sizes[1..])
  }

  /** Number of windows the chapters contribute for the given sizes. */
  function IndexCount(chs: seq<Chapter>, sizes: seq<Size>): nat
  {
    if chs == [] then 0 else ChapterCount(chs[0], sizes) + IndexCount(chs[1..], sizes)
  }

  /** A chapter position, a position in the size list and a start offset. */
  datatype Slot = Slot(chapter: nat, size: nat, offset: nat)

  /** The slot names a run of verses that exists. */
  predicate ValidSlot(chs: seq<Chapter>, sizes: seq<Size>, s: Slot) {
    s.chapter < |chs| && s.size < |sizes| && s.offset + sizes[s.size] <= |chs[s.chapter].verses|
  }

  /** Lexicographic order on slots: chapter, then size position, then offset. */
  predicate SlotBefore(s: Slot, t: Slot) {
    || s.chapter < t.chapter
    || (s.chapter == t.chapter && s.size < t.size)
    || (s.chapter == t.chapter && s.size == t.size && s.offset < t.offset)
  }

  /** `win` is the record of verses `i .. i + w - 1` of `ch`, field by field. */
  predicate IsWindowOf(win: Window, ch: Chapter, i: nat, w: Size)
    requires i + w <= |ch.verses|
  {
    && win.chapterId == ch.id
    && win.chapterName == ch.name
    && win.verses == ch.verses[i..i + w]
    && win.startVerse == ch.verses[i].id
    && win.endVerse == ch.verses[i + w - 1].id
    && win.text == Join(" ", Texts(ch.verses[i..i + w]))
  }

  /** `win` is the record of the verses the slot names. */
  predicate IsWindowAt(win: Window, chs: seq<Chapter>, sizes: seq<Size>, s: Slot)
    requires ValidSlot(chs, sizes, s)
  {
    IsWindowOf(win, chs[s.chapter], s.offset, sizes[s.size])
  }

  /** Where a slot's window should sit: all windows of earlier chapters, then those
      of earlier sizes in its chapter, then its offset. */
  function Rank(chs: seq<Chapter>, sizes: seq<Size>, s: Slot): (r: nat)
    requires ValidSlot(chs, sizes, s)
    ensures r < IndexCount(chs, sizes)
  {
    IndexCountSnoc(chs, sizes, s.chapter);
    ChapterCountSnoc(chs[s.chapter], sizes, s.size);
    IndexCountMonotone(chs, sizes, s.chapter + 1, |chs|);
    assert chs[..|chs|] == chs;
    IndexCount(chs[..s.chapter], sizes) + ChapterCount(chs[s.chapter], sizes[..s.size]) + s.offset
  }

  // ---------------------------------------------------------------------------
  // Counting
  // ---------------------------------------------------------------------------

  /** With the default sizes 1..5 a chapter of `N` verses gives `5N - 10` windows
      when `N >= 5`, and `N(N+1)/2` otherwise. */
  lemma DefaultChapterCount(ch: Chapter)
    ensures |ch.verses| >= 5 ==> |ChapterWindows(ch, WindowSizes)| == 5 * |ch.verses| - 10
    ensures |ch.verses| < 5 ==> |ChapterWindows(ch, WindowSizes)| == |ch.verses| * (|ch.verses| + 1) / 2
  {
    var n := |ch.verses|;
    assert WindowSizes[1..] == [2, 3, 4, 5];
    assert WindowSizes[1..][1..] == [3, 4, 5];
    assert WindowSizes[1..][1..][1..] == [4, 5];
    assert WindowSizes[1..][1..][1..][1..] == [5];
    assert ChapterCount(ch, [5]) == WindowCount(n, 5);
    assert ChapterCount(ch, [4, 5]) == WindowCount(n, 4) + WindowCount(n, 5);
    assert ChapterCount(ch, [3, 4, 5]) == WindowCount(n, 3) + WindowCount(n, 4) + WindowCount(n, 5);
    assert ChapterCount(ch, [2, 3, 4, 5]) == WindowCount(n, 2) + ChapterCount(ch, [3, 4, 5]);
    assert ChapterCount(ch, WindowSizes) == WindowCount(n, 1) + ChapterCount(ch, [2, 3, 4, 5]);
  }

  /** With sizes 1..3 a chapter of `N >= 3` verses gives `N + (N-1) + (N-2)` windows. */
  lemma ThreeSizesCount(ch: Chapter)
    requires |ch.verses| >= 3
    ensures |ChapterWindows(ch, [1, 2, 3])| == |ch.verses| + (|ch.verses| - 1) + (|ch.verses| - 2)
  {
    var n := |ch.verses|;
    var sizes: seq<Size> := [1, 2, 3];
    assert sizes[1..] == [2, 3];
    assert sizes[1..][1..] == [3];
    assert ChapterCount(ch, [3]) == WindowCount(n, 3);
    assert ChapterCount(ch, [2, 3]) == WindowCount(n, 2) + WindowCount(n, 3);
    assert ChapterCount(ch, sizes) == WindowCount(n, 1) + ChapterCount(ch, [2, 3]);
  }

  // ---------------------------------------------------------------------------
  // Position and shape of every window
  // ---------------------------------------------------------------------------

  lemma {:induction false} ChapterCountSnoc(ch: Chapter, sizes: seq<Size>, j: nat)
    requires j < |sizes|
    ensures ChapterCount(ch, sizes[..j + 1]) == ChapterCount(ch, sizes[..j]) + WindowCount(|ch.verses|, sizes[j])
    ensures ChapterCount(ch, sizes[..j + 1]) <= ChapterCount(ch, sizes)
    decreases j
  {
    if j > 0 {
      assert sizes[..j + 1][1..] == sizes[1..][..j];
      assert sizes[..j][1..] == sizes[1..][..j - 1];
      ChapterCountSnoc(ch, sizes[1..], j - 1);
    } else {
      assert sizes[..1][1..] == [];
    }
  }

  /** The `k`-th window of one size, scanning from offset `i`, starts at offset `i + k`. */
  lemma {:induction false} WindowsFromAt(ch: Chapter, w: Size, i: nat, k: nat)
    requires i + k + w <= |ch.verses|
    ensures k < |WindowsFrom(ch, w, i)|
    ensures WindowsFrom(ch, w, i)[k] == MakeWindow(ch, i + k, w)
    decreases k
  {
    assert WindowsFrom(ch, w, i) == [MakeWindow(ch, i, w)] + WindowsFrom(ch, w, i + 1);
    if k > 0 {
      WindowsFromAt(ch, w, i + 1, k - 1);
    }
  }

  /** Counting a non-empty prefix of the sizes: the first size, then the rest. */
  lemma ChapterCountTail(ch: Chapter, sizes: seq<Size>, j: nat)
    requires 0 < j <= |sizes|
    ensures ChapterCount(ch, sizes[..j]) == |WindowsFrom(ch, sizes[0], 0)| + ChapterCount(ch, sizes[1..][..j - 1])
  {
    assert sizes[..j][1..] == sizes[1..][..j - 1];
  }

  /** Inside one chapter, the window of size position `j` and offset `i` sits after
      all windows of earlier sizes. */
  lemma {:induction false} ChapterWindowAt(ch: Chapter, sizes: seq<Size>, j: nat, i: nat)
    requires j < |sizes| && i + sizes[j] <= |ch.verses|
    ensures ChapterCount(ch, sizes[..j]) + i < |ChapterWindows(ch, sizes)|
    ensures ChapterWindows(ch, sizes)[ChapterCount(ch, sizes[..j]) + i] == MakeWindow(ch, i, sizes[j])
    decreases j
  {
    var first := WindowsFrom(ch, sizes[0], 0);
    var rest := ChapterWindows(ch, sizes[1..]);
    assert ChapterWindows(ch, sizes) == first + rest;
    if j == 0 {
      assert sizes[..0] == [];
      WindowsFromAt(ch, sizes[0], 0, i);
      IndexOfPrefix(first, rest, i);
    } else {
      ChapterCountTail(ch, sizes, j);
      ChapterWindowAt(ch, sizes[1..], j - 1, i);
      IndexOfAppend(first, rest, ChapterCount(ch, sizes[1..][..j - 1]) + i);
    }
  }

  /** A valid slot's window is at position `Rank` of the index. */
  lemma {:induction false} IndexAtRank(chs: seq<Chapter>, sizes: seq<Size>, s: Slot)
    requires ValidSlot(chs, sizes, s)
    ensures Rank(chs, sizes, s) < |Index(chs, sizes)|
    ensures Index(chs, sizes)[Rank(chs, sizes, s)] == MakeWindow(chs[s.chapter], s.offset, sizes[s.size])
    decreases s.chapter
  {
    if s.chapter == 0 {
      IndexAtRankFirst(chs, sizes, s);
    } else {
      IndexAtRank(chs[1..], sizes, Slot(s.chapter - 1, s.size, s.offset));
      IndexAtRankLater(chs, sizes, s);
    }
  }

  /** The first chapter's windows open the index, in their chapter order. */
  lemma IndexAtRankFirst(chs: seq<Chapter>, sizes: seq<Size>, s: Slot)
    requires ValidSlot(chs, sizes, s) && s.chapter == 0
    ensures Rank(chs, sizes, s) < |Index(chs, sizes)|
    ensures Index(chs, sizes)[Rank(chs, sizes, s)] == MakeWindow(chs[0], s.offset, sizes[s.size])
  {
    var ch := chs[0];
    var head := ChapterWindows(ch, sizes);
    ChapterWindowAt(ch, sizes, s.size, s.offset);
    var j := ChapterCount(ch, sizes[..s.size]) + s.offset;
    IndexOfPrefix(head, Index(chs[1..], sizes), j);
    assert chs[..0] == [];
    assert Rank(chs, sizes, s) == j;
  }

  /** The step for a later chapter: its window sits in the index of the remaining
      chapters, shifted by the first chapter's block. */
  lemma IndexAtRankLater(chs: seq<Chapter>, sizes: seq<Size>, s: Slot)
    requires ValidSlot(chs, sizes, s) && s.chapter > 0
    requires var t := Slot(s.chapter - 1, s.size, s.offset);
      && ValidSlot(chs[1..], sizes, t)
      && Rank(chs[1..], sizes, t) < |Index(chs[1..], sizes)|
      && Index(chs[1..], sizes)[Rank(chs[1..], sizes, t)] == MakeWindow(chs[s.chapter], s.offset, sizes[s.size])
    ensures Rank(chs, sizes, s) < |Index(chs, sizes)|
    ensures Index(chs, sizes)[Rank(chs, sizes, s)] == MakeWindow(chs[s.chapter], s.offset, sizes[s.size])
  {
    var t := Slot(s.chapter - 1, s.size, s.offset);
    RankShift(chs, sizes, s);
    var head, tail := ChapterWindows(chs[0], sizes), Index(chs[1..], sizes);
    assert Index(chs, sizes) == head + tail;
    IndexOfAppend(head, tail, Rank(chs[1..], sizes, t));
  }

  /** An entry of the first part keeps its position in the whole. */
  lemma IndexOfPrefix(head: seq<Window>, tail: seq<Window>, k: nat)
    requires k < |head|
    ensures k < |head + tail| && (head + tail)[k] == head[k]
  {
  }

  /** An entry of the second part sits after the whole first part. */
  lemma IndexOfAppend(head: seq<Window>, tail: seq<Window>, k: nat)
    requires k < |tail|
    ensures |head| + k < |head + tail| && (head + tail)[|head| + k] == tail[k]
  {
  }

  /** Dropping the first chapter moves every later slot one chapter down and its
      rank back by that chapter's window count. */
  lemma RankShift(chs: seq<Chapter>, sizes: seq<Size>, s: Slot)
    requires ValidSlot(chs, sizes, s) && s.chapter > 0
    ensures ValidSlot(chs[1..], sizes, Slot(s.chapter - 1, s.size, s.offset))
    ensures Rank(chs, sizes, s) == ChapterCount(chs[0], sizes) + Rank(chs[1..], sizes, Slot(s.chapter - 1, s.size, s.offset))
  {
    assert chs[..s.chapter][1..] == chs[1..][..s.chapter - 1];
  }

  /** The record built for a slot is the record of exactly the verses it names. */
  lemma MakeWindowShape(chs: seq<Chapter>, sizes: seq<Size>, s: Slot)
    requires ValidSlot(chs, sizes, s)
    ensures IsWindowAt(MakeWindow(chs[s.chapter], s.offset, sizes[s.size]), chs, sizes, s)
  {
  }

  lemma {:induction false} IndexCountSnoc(chs: seq<Chapter>, sizes: seq<Size>, c: nat)
    requires c < |chs|
    ensures IndexCount(chs[..c + 1], sizes) == IndexCount(chs[..c], sizes) + ChapterCount(chs[c], sizes)
    decreases c
  {
    if c > 0 {
      assert chs[..c + 1][1..] == chs[1..][..c];
      assert chs[..c][1..] == chs[1..][..c - 1];
      IndexCountSnoc(chs[1..], sizes, c - 1);
    }
  }

  lemma {:induction false} IndexCountMonotone(chs: seq<Chapter>, sizes: seq<Size>, c: nat, d: nat)
    requires c <= d <= |chs|
    ensures IndexCount(chs[..c], sizes) <= IndexCount(chs[..d], sizes)
    decreases d - c
  {
    if c < d {
      IndexCountSnoc(chs, sizes, c);
      IndexCountMonotone(chs, sizes, c + 1, d);
    }
  }

  /** A slot's window lies inside its chapter's block of the index. */
  lemma RankInChapter(chs: seq<Chapter>, sizes: seq<Size>, s: Slot)
    requires ValidSlot(chs, sizes, s)
    ensures IndexCount(chs[..s.chapter], sizes) <= Rank(chs, sizes, s) < IndexCount(chs[..s.chapter + 1], sizes)
  {
    IndexCountSnoc(chs, sizes, s.chapter);
    ChapterCountSnoc(chs[s.chapter], sizes, s.size);
  }

  /** Windows are ordered by chapter, then by size in list order, then by offset. */
  lemma RankOrder(chs: seq<Chapter>, sizes: seq<Size>, s: Slot, t: Slot)
    requires ValidSlot(chs, sizes, s) && ValidSlot(chs, sizes, t)
    requires SlotBefore(s, t)
    ensures Rank(chs, sizes, s) < Rank(chs, sizes, t)
  {
    if s.chapter < t.chapter {
      RankInChapter(chs, sizes, s);
      RankInChapter(chs, sizes, t);
      IndexCountMonotone(chs, sizes, s.chapter + 1, t.chapter);
    } else if s.size < t.size {
      var ch := chs[s.chapter];
      ChapterCountSnoc(ch, sizes, s.size);
      assert sizes[..t.size] == sizes[..s.size + 1] + sizes[s.size + 1..t.size];
      ChapterCountAppend(ch, sizes[..s.size + 1], sizes[s.size + 1..t.size]);
    }
  }

  lemma {:induction false} ChapterCountAppend(ch: Chapter, a: seq<Size>, b: seq<Size>)
    ensures ChapterCount(ch, a + b) == ChapterCount(ch, a) + ChapterCount(ch, b)
    decreases |a|
  {
    if a != [] {
      assert (a + b)[1..] == a[1..] + b;
      ChapterCountAppend(ch, a[1..], b);
    } else {
      assert a + b == b;
    }
  }

  /** The slot of the `k`-th entry of a chapter's windows. */
  function ChapterSlotAt(ch: Chapter, sizes: seq<Size>, k: nat): (r: (nat, nat))
    requires k < ChapterCount(ch, sizes)
    ensures r.0 < |sizes| && r.1 + sizes[r.0] <= |ch.verses|
    ensures ChapterCount(ch, sizes[..r.0]) + r.1 == k
    decreases |sizes|
  {
    var here := WindowCount(|ch.verses|, sizes[0]);
    if k < here then (0, k)
    else
      var r := ChapterSlotAt(ch, sizes[1..], k - here);
      assert sizes[..r.0 + 1][1..] == sizes[1..][..r.0];
      (r.0 + 1, r.1)
  }

  /** The slot of the `k`-th entry of the index: every entry comes from exactly one
      valid slot, the one whose rank is `k`. */
  function SlotAt(chs: seq<Chapter>, sizes: seq<Size>, k: nat): (s: Slot)
    requires k < IndexCount(chs, sizes)
    ensures ValidSlot(chs, sizes, s)
    ensures Rank(chs, sizes, s) == k
    decreases |chs|
  {
    var here := ChapterCount(chs[0], sizes);
    if k < here then
      var r := ChapterSlotAt(chs[0], sizes, k);
      Slot(0, r.0, r.1)
    else
      var t := SlotAt(chs[1..], sizes, k - here);
      assert chs[..t.chapter + 1][1..] == chs[1..][..t.chapter];
      Slot(t.chapter + 1, t.size, t.offset)
  }

  /** Every entry of the index is the record of a contiguous run of one chapter's
      verses of one configured size, with matching ids and joined text; the entries
      appear in slot order, so this and `RankOrder` pin the index down completely. */
  lemma IndexEntry(chs: seq<Chapter>, sizes: seq<Size>, k: nat)
    requires k < IndexCount(chs, sizes)
    ensures k < |Index(chs, sizes)|
    ensures IsWindowAt(Index(chs, sizes)[k], chs, sizes, SlotAt(chs, sizes, k))
  {
    var s := SlotAt(chs, sizes, k);
    IndexAtRank(chs, sizes, s);
    MakeWindowShape(chs, sizes, s);
  }

  /** Every window of the index holds as many verses as one of the configured sizes. */
  lemma IndexEntrySizes(chs: seq<Chapter>, sizes: seq<Size>)
    ensures forall k :: 0 <= k < |Index(chs, sizes)| ==> |Index(chs, sizes)[k].verses| in sizes
  {
    forall k | 0 <= k < |Index(chs, sizes)| ensures |Index(chs, sizes)[k].verses| in sizes {
      IndexEntry(chs, sizes, k);
    }
  }

  /** Verse ids strictly increase through the chapter. */
  predicate IncreasingIds(ch: Chapter) {
    forall i, j :: 0 <= i < j < |ch.verses| ==> ch.verses[i].id < ch.verses[j].id
  }

  /** Within a chapter whose verse ids increase, two windows of different offset or
      length differ in their (start verse, end verse) pair. */
  lemma WindowIdsDistinct(chs: seq<Chapter>, sizes: seq<Size>, s: Slot, t: Slot)
    requires ValidSlot(chs, sizes, s) && ValidSlot(chs, sizes, t)
    requires s.chapter == t.chapter && IncreasingIds(chs[s.chapter])
    requires s.offset != t.offset || sizes[s.size] != sizes[t.size]
    ensures var a := Index(chs, sizes)[Rank(chs, sizes, s)];
            var b := Index(chs, sizes)[Rank(chs, sizes, t)];
            (a.startVerse, a.endVerse) != (b.startVerse, b.endVerse)
  {
    IndexAtRank(chs, sizes, s);
    IndexAtRank(chs, sizes, t);
    MakeWindowShape(chs, sizes, s);
    MakeWindowShape(chs, sizes, t);
    var vs := chs[s.chapter].verses;
    if s.offset != t.offset {
      if s.offset < t.offset {
        assert vs[s.offset].id < vs[t.offset].id;
      } else {
        assert vs[t.offset].id < vs[s.offset].id;
      }
    } else {
      var e1, e2 := s.offset + sizes[s.size] - 1, t.offset + sizes[t.size] - 1;
      if e1 < e2 {
        assert vs[e1].id < vs[e2].id;
      } else {
        assert vs[e2].id < vs[e1].id;
      }
    }
  }

  // ---------------------------------------------------------------------------
  // The nested loops that build the index
  // ---------------------------------------------------------------------------

  /** Appending is associative: the loops below extend the accumulator one block
      at a time. */
  lemma AppendAssoc(a: seq<Window>, b: seq<Window>, c: seq<Window>)
    ensures (a + b) + c == a + (b + c)
  {
  }

  /** The innermost loop: append the records of every length-`w` run, offsets increasing. */
  method AppendRuns(acc: seq<Window>, ch: Chapter, w: Size) returns (combinations: seq<Window>)
    ensures combinations == acc + WindowsFrom(ch, w, 0)
  {
    combinations := acc;
    var i := 0;
    while i + w <= |ch.verses|
      invariant combinations + WindowsFrom(ch, w, i) == acc + WindowsFrom(ch, w, 0)
      decreases |ch.verses| - i
    {
      assert WindowsFrom(ch, w, i) == [MakeWindow(ch, i, w)] + WindowsFrom(ch, w, i + 1);
      AppendAssoc(combinations, [MakeWindow(ch, i, w)], WindowsFrom(ch, w, i + 1));
      combinations := combinations + [MakeWindow(ch, i, w)];
      i := i + 1;
    }
  }

  /** The middle loop: one pass of the innermost loop per window size, in list order. */
  method AppendChapter(acc: seq<Window>, ch: Chapter, sizes: seq<Size>) returns (combinations: seq<Window>)
    ensures combinations == acc + ChapterWindows(ch, sizes)
  {
    combinations := acc;
    var j := 0;
    while j < |sizes|
      invariant j <= |sizes|
      invariant combinations + ChapterWindows(ch, sizes[j..]) == acc + ChapterWindows(ch, sizes)
    {
      assert sizes[j..][1..] == sizes[j + 1..];
      ghost var rest := ChapterWindows(ch, sizes[j + 1..]);
      assert ChapterWindows(ch, sizes[j..]) == WindowsFrom(ch, sizes[j], 0) + rest;
      AppendAssoc(combinations, WindowsFrom(ch, sizes[j], 0), rest);
      combinations := AppendRuns(combinations, ch, sizes[j]);
      j := j + 1;
    }
  }

  /** The outer loop over chapters: the index the scripts build before scanning. */
  method BuildIndex(chs: seq<Chapter>, sizes: seq<Size>) returns (combinations: seq<Window>)
    ensures combinations == Index(chs, sizes)
    ensures |combinations| == IndexCount(chs, sizes)
  {
    combinations := [];
    var c := 0;
    while c < |chs|
      invariant c <= |chs|
      invariant combinations + Index(chs[c..], sizes) == Index(chs, sizes)
    {
      assert chs[c..][1..] == chs[c + 1..];
      ghost var rest := Index(chs[c + 1..], sizes);
      assert Index(chs[c..], sizes) == ChapterWindows(chs[c], sizes) + rest;
      AppendAssoc(combinations, ChapterWindows(chs[c], sizes), rest);
      combinations := AppendChapter(combinations, chs[c], sizes);
      c := c + 1;
    }
  }
}
