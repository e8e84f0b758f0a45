/**
 Reordering inside a layout: between which siblings a dragged widget lands.
 */
module DropIndex {
  import opened Arith
  import opened Geometry
  import opened Text

  datatype Sibling = Sibling(id: nat, rect: Rect)

  function Lo(e: Sibling, vertical: bool): int { if vertical then e.rect.y else e.rect.x }

  function Hi(e: Sibling, vertical: bool): int {
    if vertical then e.rect.y + e.rect.height else e.rect.x + e.rect.width
  }

  function Abs(a: int): int { if a < 0 then -a else a }

  /** The siblings other than the dragged widget. */
  function Others(siblings: seq<Sibling>, dragged: Option<nat>): seq<Sibling> {
    if siblings == [] then []
    else
      Others(siblings[..|siblings| - 1], dragged)
      + if dragged == Some(siblings[|siblings| - 1].id) then [] else [siblings[|siblings| - 1]]
  }

  lemma {:induction false} OthersKept(siblings: seq<Sibling>, dragged: Option<nat>)
    ensures forall e :: e in Others(siblings, dragged) <==> e in siblings && (dragged.None? || e.id != dragged.value)
  {
    if siblings != [] {
      var n := |siblings| - 1;
      OthersKept(siblings[..n], dragged);
      assert siblings == siblings[..n] + [siblings[n]];
    }
  }

  /** They stay in their order. */
  lemma {:induction false} OthersJoin(a: seq<Sibling>, b: seq<Sibling>, dragged: Option<nat>)
    ensures Others(a + b, dragged) == Others(a, dragged) + Others(b, dragged)
    decreases |b|
  {
    if b == [] { assert a + b == a; }
    else {
      var n := |b| - 1;
      OthersJoin(a, b[..n], dragged);
      assert (a + b)[..|a + b| - 1] == a + b[..n];
    }
  }

  /** Where gap `i` lies: just before the first sibling, just after the last, or halfway between two. */
  function Gap(entries: seq<Sibling>, vertical: bool, i: nat): int
    requires entries != [] && i <= |entries|
  {
    if i == 0 then Lo(entries[0], vertical) - 2
    else if i == |entries| then Hi(entries[i - 1], vertical) + 1
    else TruncDiv(Hi(entries[i - 1], vertical) + Lo(entries[i], vertical), 2)
  }

  function Gaps(entries: seq<Sibling>, vertical: bool): (gaps: seq<int>)
    requires entries != []
    ensures |gaps| == |entries| + 1
    ensures forall i :: 0 <= i < |gaps| ==> gaps[i] == Gap(entries, vertical, i)
  {
    seq(|entries| + 1, i requires 0 <= i <= |entries| => Gap(entries, vertical, i))
  }

  /** Gap `best` is the first of the nearest. */
  predicate FirstNearest(gaps: seq<int>, cursor: int, best: nat) {
    && best < |gaps|
    && (forall i :: 0 <= i < |gaps| ==> Abs(cursor - gaps[best]) <= Abs(cursor - gaps[i]))
    && (forall i :: 0 <= i < best ==> Abs(cursor - gaps[best]) < Abs(cursor - gaps[i]))
  }

  predicate InRange(gap: int, cursor: int) { Abs(cursor - gap) < INT_MAX }

  /** The answer: the first nearest gap; 0 when every gap is out of range. */
  predicate IsIndex(gaps: seq<int>, cursor: int, index: nat) {
    if exists i :: 0 <= i < |gaps| && InRange(gaps[i], cursor) then FirstNearest(gaps, cursor, index) else index == 0
  }

  function Indicator(parentRect: Rect, margin: int, vertical: bool, pos: int): Rect {
    if vertical then Rect(parentRect.x + margin, pos - 1, Max(1, parentRect.width - 2 * margin), 3)
    else Rect(pos - 1, parentRect.y + margin, 3, Max(1, parentRect.height - 2 * margin))
  }

  const NO_RECT := Rect(0, 0, 0, 0)

  method ComputeLayoutInsertIndex(siblings: seq<Sibling>, dragged: Option<nat>, vertical: bool, margin: int,
                                  parentRect: Rect, canvasX: int, canvasY: int)
    returns (index: nat, indicator: Rect)
    ensures siblings == [] ==> index == 0 && indicator == NO_RECT
    ensures siblings != [] && Others(siblings, dragged) == [] ==>
              index == 0 && indicator == (if vertical
                                          then Rect(parentRect.x + margin, parentRect.y + margin, Max(1, parentRect.width - 2 * margin), 3)
                                          else Rect(parentRect.x + margin, parentRect.y + margin, 3, Max(1, parentRect.height - 2 * margin)))
    ensures var entries, cursor := Others(siblings, dragged), if vertical then canvasY else canvasX;
            entries != [] ==>
              var gaps := Gaps(entries, vertical);
              && index <= |entries| && IsIndex(gaps, cursor, index)
              && (InRange(gaps[index], cursor) ==> indicator == Indicator(parentRect, margin, vertical, gaps[index]))
  {
    if siblings == [] { return 0, NO_RECT; }
    var entries := [];
    for k := 0 to |siblings|
      invariant entries == Others(siblings[..k], dragged)
    {
      assert siblings[..k + 1][..k] == siblings[..k];
      if dragged != Some(siblings[k].id) { entries := entries + [siblings[k]]; }
    }
    assert siblings[..|siblings|] == siblings;
    if entries == [] {
      indicator := if vertical
                   then Rect(parentRect.x + margin, parentRect.y + margin, Max(1, parentRect.width - 2 * margin), 3)
                   else Rect(parentRect.x + margin, parentRect.y + margin, 3, Max(1, parentRect.height - 2 * margin));
      return 0, indicator;
    }
    index, indicator := NearestGap(entries, vertical, margin, parentRect, if vertical then canvasY else canvasX);
  }

  /** The search over all gaps for the one closest to the cursor. */
  method NearestGap(entries: seq<Sibling>, vertical: bool, margin: int, parentRect: Rect, cursor: int)
    returns (index: nat, indicator: Rect)
    requires entries != []
    ensures index <= |entries| && IsIndex(Gaps(entries, vertical), cursor, index)
    ensures var pos := Gaps(entries, vertical)[index];
            InRange(pos, cursor) ==> indicator == Indicator(parentRect, margin, vertical, pos)
  {
    hide Indicator, Abs, TruncDiv, Lo, Hi;
    ghost var gaps := Gaps(entries, vertical);
    var bestDist := INT_MAX;
    index, indicator := 0, NO_RECT;
    for i := 0 to |entries| + 1
      invariant bestDist <= INT_MAX && index <= |entries|
      invariant bestDist == INT_MAX ==> index == 0 && forall j :: 0 <= j < i ==> !InRange(gaps[j], cursor)
      invariant bestDist < INT_MAX ==>
                  && FirstNearest(gaps[..i], cursor, index)
                  && bestDist == Abs(cursor - gaps[index])
                  && indicator == Indicator(parentRect, margin, vertical, gaps[index])
    {
      var pos;
      if i == 0 {
        pos := Lo(entries[0], vertical) - 2;
      } else if i == |entries| {
        pos := Hi(entries[i - 1], vertical) + 1;
      } else {
        pos := TruncDiv(Hi(entries[i - 1], vertical) + Lo(entries[i], vertical), 2);
      }
      assert pos == gaps[i] && gaps[..i + 1] == gaps[..i] + [pos];
      var dist := Abs(cursor - pos);
      if dist < bestDist {
        bestDist, index, indicator := dist, i, Indicator(parentRect, margin, vertical, pos);
      }
    }
    assert gaps[..|entries| + 1] == gaps;
  }

  // ---- siblings laid out one after the other ---------------------------------------------------------------------------------

  predicate InOrder(entries: seq<Sibling>, vertical: bool) {
    && (forall i :: 0 <= i < |entries| ==> Lo(entries[i], vertical) <= Hi(entries[i], vertical))
    && (forall i :: 0 <= i < |entries| - 1 ==> Hi(entries[i], vertical) <= Lo(entries[i + 1], vertical))
  }

  /** Every gap lies between the siblings on its two sides. */
  lemma GapBetween(entries: seq<Sibling>, vertical: bool, i: nat)
    requires entries != [] && i <= |entries| && InOrder(entries, vertical)
    ensures i > 0 ==> Hi(entries[i - 1], vertical) <= Gap(entries, vertical, i)
    ensures i < |entries| ==> Gap(entries, vertical, i) <= Lo(entries[i], vertical)
  {
    if 0 < i < |entries| {
      var a, b := Hi(entries[i - 1], vertical), Lo(entries[i], vertical);
      assert a <= b;
    }
  }

  /** Between two siblings the gap is the middle of the space between them, to within the half pixel lost in rounding. */
  lemma GapIsMiddle(entries: seq<Sibling>, vertical: bool, i: nat)
    requires 0 < i < |entries|
    ensures var a, b, gap := entries[i - 1].rect, entries[i].rect, Gap(entries, vertical, i);
            && (vertical ==> -1 <= (gap - (a.y + a.height)) - (b.y - gap) <= 1)
            && (!vertical ==> -1 <= (gap - (a.x + a.width)) - (b.x - gap) <= 1)
  {
  }

  /** The outer gaps stand two pixels before the first sibling and one behind the last. */
  lemma GapAtEnds(entries: seq<Sibling>, vertical: bool)
    requires entries != []
    ensures var first, last, n := entries[0].rect, entries[|entries| - 1].rect, |entries|;
            && Gap(entries, vertical, 0) == (if vertical then first.y else first.x) - 2
            && Gap(entries, vertical, n) == (if vertical then last.y + last.height else last.x + last.width) + 1
  {
  }

  predicate Ascending(gaps: seq<int>) { forall i, j :: 0 <= i <= j < |gaps| ==> gaps[i] <= gaps[j] }

  lemma {:induction false} GapOrder(entries: seq<Sibling>, vertical: bool, i: nat, j: nat)
    requires entries != [] && i <= j <= |entries| && InOrder(entries, vertical)
    ensures Gap(entries, vertical, i) <= Gap(entries, vertical, j)
    decreases j
  {
    if i < j {
      GapOrder(entries, vertical, i, j - 1);
      GapBetween(entries, vertical, j - 1);
      GapBetween(entries, vertical, j);
      assert Lo(entries[j - 1], vertical) <= Hi(entries[j - 1], vertical);
    }
  }

  lemma GapsAscending(entries: seq<Sibling>, vertical: bool)
    requires entries != [] && InOrder(entries, vertical)
    ensures Ascending(Gaps(entries, vertical))
  {
    forall i, j | 0 <= i <= j <= |entries| ensures Gap(entries, vertical, i) <= Gap(entries, vertical, j) {
      GapOrder(entries, vertical, i, j);
    }
  }

  /** Moving the cursor forward never moves the insertion point back. */
  lemma IndexMonotone(entries: seq<Sibling>, vertical: bool, c: int, d: int, i: nat, j: nat)
    requires entries != [] && InOrder(entries, vertical) && c <= d
    requires IsIndex(Gaps(entries, vertical), c, i) && IsIndex(Gaps(entries, vertical), d, j)
    requires j <= |entries| && InRange(Gaps(entries, vertical)[j], d)
    ensures i <= j
  {
    hide Gap;
    GapsAscending(entries, vertical);
  }

  /** Dropping over a sibling of any extent lands directly before or directly after it. */
  lemma DropOverSibling(entries: seq<Sibling>, vertical: bool, cursor: int, k: nat, index: nat)
    requires entries != [] && InOrder(entries, vertical) && k < |entries|
    requires forall i :: 0 <= i < |entries| ==> Lo(entries[i], vertical) < Hi(entries[i], vertical)
    requires Lo(entries[k], vertical) <= cursor <= Hi(entries[k], vertical) && InRange(Gaps(entries, vertical)[k], cursor)
    requires IsIndex(Gaps(entries, vertical), cursor, index)
    ensures index == k || index == k + 1
  {
    hide Gap, Lo, Hi;
    GapsAscending(entries, vertical);
    GapBetween(entries, vertical, k);
    GapBetween(entries, vertical, k + 1);
    if k > 0 {
      GapBetween(entries, vertical, k - 1);
      assert Lo(entries[k - 1], vertical) < Hi(entries[k - 1], vertical);
    }
  }

  /** Up to the first gap the insertion point is 0; from the last gap on it is the end. */
  lemma DropAtEnds(entries: seq<Sibling>, vertical: bool, cursor: int, index: nat)
    requires entries != [] && InOrder(entries, vertical)
    requires IsIndex(Gaps(entries, vertical), cursor, index)
    ensures cursor <= Gap(entries, vertical, 0) ==> index == 0
    ensures cursor >= Gap(entries, vertical, |entries|) && InRange(Gap(entries, vertical, |entries|), cursor)
            ==> index == |entries|
  {
    hide Gap;
    var gaps, n := Gaps(entries, vertical), |entries|;
    GapsAscending(entries, vertical);
    LastGapApart(entries, vertical);
    assert gaps[0] == Gap(entries, vertical, 0) && gaps[n] == Gap(entries, vertical, n);
    if index <= n {
      assert gaps[0] <= gaps[index];
      if index < n { assert gaps[index] <= gaps[n - 1] < gaps[n]; }
    }
  }

  lemma LastGapApart(entries: seq<Sibling>, vertical: bool)
    requires entries != [] && InOrder(entries, vertical)
    ensures Gap(entries, vertical, |entries| - 1) < Gap(entries, vertical, |entries|)
  {
    var n := |entries|;
    GapBetween(entries, vertical, n - 1);
    assert Lo(entries[n - 1], vertical) <= Hi(entries[n - 1], vertical);
  }
}
