/** Placing the children of a grid: tracks, their minimums, shrinking and cell rectangles. */
module GridLayout {
  import opened Arith
  import opened Text
  import opened Xml
  import opened UiReader
  import opened Tracks
  import opened Measure
  import opened Segments
  import opened BoxLayout
  import opened BoxAgreement

  // ---- what a child asks of its own track -----------------------------------------------------------------------

  predicate AsksMaximumSize(layout: XmlNode) {
    exists p :: p in layout.ChildrenNamed("property") && p.Attr("name", "") == "sizeConstraint"
      && p.FirstChild("enum").Some? && Contains(p.FirstChild("enum").value.text, "SetMaximumSize")
  }

  predicate MaximumSizeLayout(node: XmlNode) {
    exists c :: c in node.children && c.name == "layout" && AsksMaximumSize(c)
  }

  /** A spacer holds its track at the hint unless it can expand along it. */
  predicate SpacerHoldsRow(lc: LayoutChild) { lc.kind.Spacer? && !(VerticalSpacer(lc) && SpacerCanExpand(lc)) }

  predicate SpacerHoldsCol(lc: LayoutChild, alone: bool) {
    lc.kind.Spacer? && if HorizontalSpacer(lc) then !SpacerCanExpand(lc) else alone
  }

  /** The fixed height a child gives to the only row it spans; not positive means flexible. */
  function RowFixed(lc: LayoutChild, size: Size): int {
    if lc.kind.Spacer? then (if SpacerHoldsRow(lc) then lc.sizeHintH else 0)
    else if lc.kind.Widget? then
      var sc := ReadSizeConstraints(lc.node);
      if sc.maxH.Some? && sc.maxH.value < 300 then sc.maxH.value
      else if FixedSize(sc.minH, sc.maxH) then sc.minH.value
      else if MaximumSizeLayout(lc.node) then size.h
      else ClassPreferredH(lc.node.Attr("class", ""))
    else 0
  }

  function RowMinimum(lc: LayoutChild): int { if SpacerHoldsRow(lc) then Max(1, lc.sizeHintH) else 1 }

  function ColFixed(lc: LayoutChild, alone: bool): int {
    if lc.kind.Spacer? then (if SpacerHoldsCol(lc, alone) then lc.sizeHintW else 0)
    else if lc.kind.Widget? then
      var sc := ReadSizeConstraints(lc.node);
      if FixedSize(sc.minW, sc.maxW) then sc.maxW.value
      else if sc.maxW.Some? && sc.maxW.value < 400 then sc.maxW.value
      else 0
    else 0
  }

  function ColMinimum(lc: LayoutChild, alone: bool): int { if SpacerHoldsCol(lc, alone) then Max(1, lc.sizeHintW) else 1 }

  /** Only spacers reach into the column. */
  predicate OnlySpacers(act: seq<LayoutChild>, col: int) {
    forall i :: 0 <= i < |act| && Covers(Span(act[i].col, act[i].colspan), col) ==> act[i].kind.Spacer?
  }

  // ---- one axis of a grid ---------------------------------------------------------------------------------------

  /** The spans of the children, what each asks of a track of its own, and the room along the axis. */
  datatype Axis = Axis(spans: seq<Span>, fixed: seq<int>, mins: seq<int>, start: int, inner: int, spacing: int, flexMin: int)
  {
    predicate Valid() {
      && |spans| == |fixed| == |mins| && ValidSpans(spans) && flexMin >= 1
      && forall i :: 0 <= i < |mins| ==> mins[i] <= Max(1, fixed[i])
    }
  }

  function RowAxis(act: seq<LayoutChild>, sizes: seq<Size>, inner: Rect, spacing: int): (ax: Axis)
    requires |act| == |sizes|
    ensures |ax.spans| == |ax.fixed| == |ax.mins| == |act|
  {
    Axis(RowSpans(act),
         seq(|act|, i requires 0 <= i < |act| => RowFixed(act[i], sizes[i])),
         seq(|act|, i requires 0 <= i < |act| => RowMinimum(act[i])),
         inner.y, inner.h, spacing, 24)
  }

  function ColAxis(act: seq<LayoutChild>, inner: Rect, spacing: int): (ax: Axis)
    ensures |ax.spans| == |ax.fixed| == |ax.mins| == |act|
  {
    Axis(ColSpans(act),
         seq(|act|, i requires 0 <= i < |act| => ColFixed(act[i], OnlySpacers(act, act[i].col))),
         seq(|act|, i requires 0 <= i < |act| => ColMinimum(act[i], OnlySpacers(act, act[i].col))),
         inner.x, inner.w, spacing, 40)
  }

  /** The largest fixed size asked of track `r` by the first `k` children that span only it, or zero. */
  function FixedAt(ax: Axis, r: int, k: nat): (f: int)
    requires ax.Valid() && k <= |ax.spans|
    ensures f >= 0
  {
    if k == 0 then 0
    else
      var f := FixedAt(ax, r, k - 1);
      if ax.spans[k - 1] == Span(r, 1) then Max(f, ax.fixed[k - 1]) else f
  }

  function MinAt(ax: Axis, r: int, k: nat): (m: int)
    requires ax.Valid() && k <= |ax.spans|
    ensures m >= 1
  {
    if k == 0 then 1
    else
      var m := MinAt(ax, r, k - 1);
      if ax.spans[k - 1] == Span(r, 1) then Max(m, ax.mins[k - 1]) else m
  }

  function TrackFixed(ax: Axis, r: int): (f: int)
    requires ax.Valid()
    ensures f >= 0
  {
    FixedAt(ax, r, |ax.spans|)
  }

  function TrackMin(ax: Axis, r: int): (m: int)
    requires ax.Valid()
    ensures m >= 1
  {
    MinAt(ax, r, |ax.spans|)
  }

  function FixedSumTo(ax: Axis, n: nat): int
    requires ax.Valid()
  {
    if n == 0 then 0 else FixedSumTo(ax, n - 1) + if Covered(ax.spans, n - 1) then TrackFixed(ax, n - 1) else 0
  }

  function FlexTo(ax: Axis, n: nat): nat
    requires ax.Valid()
  {
    if n == 0 then 0
    else FlexTo(ax, n - 1) + if Covered(ax.spans, n - 1) && TrackFixed(ax, n - 1) == 0 then 1 else 0
  }

  function Count(ax: Axis): nat { TrackCount(ax.spans) }

  function ActiveCount(ax: Axis): nat { CoveredTo(ax.spans, Count(ax)) }

  /** The size of a flexible track. */
  function FlexSize(ax: Axis): (f: int)
    requires ax.Valid()
    ensures f >= ax.flexMin
  {
    var flex := FlexTo(ax, Count(ax));
    if flex == 0 then ax.flexMin
    else Max(ax.flexMin, TruncDiv(ax.inner - FixedSumTo(ax, Count(ax)) - Gaps(ax.spacing, ActiveCount(ax)), flex))
  }

  function TrackWanted(ax: Axis, r: int): (s: int)
    requires ax.Valid()
    ensures s >= 1
  {
    if TrackFixed(ax, r) > 0 then TrackFixed(ax, r) else FlexSize(ax)
  }

  /** The wanted sizes and the minimums of the covered tracks among the first `n`, in order. */
  function WantedTo(ax: Axis, n: nat): (s: seq<int>)
    requires ax.Valid()
    ensures |s| == CoveredTo(ax.spans, n)
  {
    if n == 0 then [] else WantedTo(ax, n - 1) + if Covered(ax.spans, n - 1) then [TrackWanted(ax, n - 1)] else []
  }

  function MinsTo(ax: Axis, n: nat): (s: seq<int>)
    requires ax.Valid()
    ensures |s| == CoveredTo(ax.spans, n)
  {
    if n == 0 then [] else MinsTo(ax, n - 1) + if Covered(ax.spans, n - 1) then [TrackMin(ax, n - 1)] else []
  }

  function Room(ax: Axis): int { Max(1, ax.inner - Gaps(ax.spacing, ActiveCount(ax))) }

  /** The final sizes of the covered tracks. */
  function FinalTracks(ax: Axis): (s: seq<int>)
    requires ax.Valid()
    ensures |s| == ActiveCount(ax)
  {
    Fitted(WantedTo(ax, Count(ax)), MinsTo(ax, Count(ax)), Room(ax))
  }

  lemma {:induction false} CoveredMonotone(spans: seq<Span>, i: nat, n: nat)
    requires i <= n
    ensures CoveredTo(spans, i) <= CoveredTo(spans, n)
  {
    if i < n { CoveredMonotone(spans, i, n - 1); }
  }

  /** Where track `r` starts; uncovered tracks take neither room nor spacing. */
  function TrackPos(ax: Axis, r: nat): int
    requires ax.Valid() && r <= Count(ax)
  {
    CoveredMonotone(ax.spans, r, Count(ax));
    ax.start + Offset(FinalTracks(ax), ax.spacing, CoveredTo(ax.spans, r))
  }

  function CellPos(ax: Axis, i: nat): int
    requires ax.Valid() && i < |ax.spans|
  {
    TrackPos(ax, ax.spans[i].start)
  }

  function CellExtent(ax: Axis, i: nat): int
    requires ax.Valid() && i < |ax.spans|
  {
    Max(1, TrackPos(ax, ax.spans[i].start + ax.spans[i].len) - CellPos(ax, i) - ax.spacing)
  }

  function GridRect(rows: Axis, cols: Axis, i: nat): Rect
    requires rows.Valid() && cols.Valid() && i < |rows.spans| == |cols.spans|
  {
    Rect(CellPos(cols, i), CellPos(rows, i), CellExtent(cols, i), CellExtent(rows, i))
  }

  // ---- minimums ---------------------------------------------------------------------------------------------------

  lemma {:induction false} MinBelowFixed(ax: Axis, r: int, k: nat)
    requires ax.Valid() && k <= |ax.spans|
    ensures MinAt(ax, r, k) <= Max(1, FixedAt(ax, r, k))
  {
    if k > 0 { MinBelowFixed(ax, r, k - 1); }
  }

  lemma {:induction false} WantedAboveMins(ax: Axis, n: nat)
    requires ax.Valid()
    ensures forall c :: 0 <= c < CoveredTo(ax.spans, n) ==> 1 <= MinsTo(ax, n)[c] <= WantedTo(ax, n)[c]
  {
    if n > 0 {
      WantedAboveMins(ax, n - 1);
      MinBelowFixed(ax, n - 1, |ax.spans|);
    }
  }

  /** No track ends below its minimum, before or after shrinking, and none grows. */
  lemma TracksKeepMinimums(ax: Axis)
    requires ax.Valid()
    ensures forall c :: 0 <= c < ActiveCount(ax) ==>
              1 <= MinsTo(ax, Count(ax))[c] <= FinalTracks(ax)[c] <= WantedTo(ax, Count(ax))[c]
  {
    WantedAboveMins(ax, Count(ax));
    FittedExact(WantedTo(ax, Count(ax)), MinsTo(ax, Count(ax)), Room(ax));
  }

  // ---- extents ------------------------------------------------------------------------------------------------------

  lemma {:induction false} SpanAllCovered(spans: seq<Span>, i: nat, n: nat)
    requires i < |spans| && ValidSpans(spans) && n <= spans[i].len
    ensures CoveredTo(spans, spans[i].start + n) == CoveredTo(spans, spans[i].start) + n
  {
    if n > 0 {
      SpanAllCovered(spans, i, n - 1);
      assert Covers(spans[i], spans[i].start + n - 1);
    }
  }

  /** The first of the consecutive final tracks that child `i` spans. */
  function FirstTrack(ax: Axis, i: nat): nat
    requires ax.Valid() && i < |ax.spans|
  {
    CoveredTo(ax.spans, ax.spans[i].start)
  }

  lemma SpanInRange(ax: Axis, i: nat)
    requires ax.Valid() && i < |ax.spans| && ax.spans[i].len >= 0
    ensures FirstTrack(ax, i) + ax.spans[i].len <= ActiveCount(ax)
  {
    SpanAllCovered(ax.spans, i, ax.spans[i].len);
    CoveredMonotone(ax.spans, ax.spans[i].start + ax.spans[i].len, Count(ax));
  }

  /**
   A child's extent is exactly the sum of the tracks it spans and the spacing between them, although
   uncovered tracks contribute neither size nor spacing.
   */
  lemma CellExtentExact(ax: Axis, i: nat)
    requires ax.Valid() && ax.spacing >= 0 && i < |ax.spans| && ax.spans[i].len >= 1
    ensures FirstTrack(ax, i) + ax.spans[i].len <= ActiveCount(ax)
    ensures var f, c, n := FinalTracks(ax), FirstTrack(ax, i), ax.spans[i].len;
            CellExtent(ax, i) == SumTo(f, c + n) - SumTo(f, c) + Gaps(ax.spacing, n)
  {
    hide FinalTracks, Offset, Gaps, SumTo;
    SpanInRange(ax, i);
    SpanAllCovered(ax.spans, i, ax.spans[i].len);
    TracksKeepMinimums(ax);
    RangeExtent(FinalTracks(ax), ax.spacing, FirstTrack(ax, i), ax.spans[i].len);
  }

  lemma RangeExtent(f: seq<int>, spacing: int, c: nat, n: nat)
    requires c + n <= |f| && n >= 1 && spacing >= 0 && forall i :: 0 <= i < |f| ==> f[i] >= 1
    ensures Max(1, Offset(f, spacing, c + n) - Offset(f, spacing, c) - spacing)
         == SumTo(f, c + n) - SumTo(f, c) + Gaps(spacing, n)
  {
    OffsetSum(f, spacing, c);
    OffsetSum(f, spacing, c + n);
    assert (c + n) * spacing - c * spacing == spacing * (n - 1) + spacing;
    SumToMonotone(f, c + 1, c + n);
    assert spacing * (n - 1) >= 0 by { MulMono(0, n - 1, spacing); }
  }

  // ---- disjoint cells -------------------------------------------------------------------------------------------------

  /** Children whose spans do not meet along an axis are separated by at least the spacing. */
  lemma CellsSeparated(ax: Axis, i: nat, j: nat)
    requires ax.Valid() && ax.spacing >= 0 && i < |ax.spans| && j < |ax.spans|
    requires ax.spans[i].len >= 1 && ax.spans[i].start + ax.spans[i].len <= ax.spans[j].start
    ensures CellPos(ax, i) + CellExtent(ax, i) + ax.spacing <= CellPos(ax, j)
  {
    hide FinalTracks, CoveredTo, MinsTo, WantedTo;
    var f, e := FinalTracks(ax), ax.spans[i].start + ax.spans[i].len;
    SpanInRange(ax, i);
    SpanAllCovered(ax.spans, i, ax.spans[i].len);
    TracksKeepMinimums(ax);
    CoveredMonotone(ax.spans, e, ax.spans[j].start);
    CoveredMonotone(ax.spans, ax.spans[j].start, Count(ax));
    OffsetMonotone(f, ax.spacing, FirstTrack(ax, i) + 1, CoveredTo(ax.spans, e));
    OffsetMonotone(f, ax.spacing, CoveredTo(ax.spans, e), FirstTrack(ax, j));
  }

  predicate ApartSpans(a: Span, b: Span) { a.start + a.len <= b.start || b.start + b.len <= a.start }

  /** Grid children with disjoint cell ranges get disjoint rectangles. */
  lemma GridDisjoint(rows: Axis, cols: Axis, i: nat, j: nat)
    requires rows.Valid() && cols.Valid() && i < |rows.spans| == |cols.spans| && j < |rows.spans|
    requires rows.spacing >= 0 && cols.spacing >= 0
    requires rows.spans[i].len >= 1 && rows.spans[j].len >= 1 && cols.spans[i].len >= 1 && cols.spans[j].len >= 1
    requires ApartSpans(rows.spans[i], rows.spans[j]) || ApartSpans(cols.spans[i], cols.spans[j])
    ensures DisjointRects(GridRect(rows, cols, i), GridRect(rows, cols, j))
  {
    if rows.spans[i].start + rows.spans[i].len <= rows.spans[j].start { CellsSeparated(rows, i, j); }
    else if rows.spans[j].start + rows.spans[j].len <= rows.spans[i].start { CellsSeparated(rows, j, i); }
    else if cols.spans[i].start + cols.spans[i].len <= cols.spans[j].start { CellsSeparated(cols, i, j); }
    else { CellsSeparated(cols, j, i); }
  }

  // ---- fit --------------------------------------------------------------------------------------------------------------

  /** The minimums of the covered tracks and the spacing between them fit. */
  predicate MinimumsFit(ax: Axis)
    requires ax.Valid()
  {
    Sum(MinsTo(ax, Count(ax))) + Gaps(ax.spacing, ActiveCount(ax)) <= ax.inner
  }

  lemma TracksFit(ax: Axis)
    requires ax.Valid() && ax.spacing >= 0 && ax.inner >= 1 && MinimumsFit(ax)
    ensures Sum(FinalTracks(ax)) + Gaps(ax.spacing, ActiveCount(ax)) <= ax.inner
  {
    var wanted, mins := WantedTo(ax, Count(ax)), MinsTo(ax, Count(ax));
    WantedAboveMins(ax, Count(ax));
    FittedExact(wanted, mins, Room(ax));
    FloorBelowMins(wanted, mins, |wanted|);
    if |mins| > 0 {
      SumToMonotone(mins, 1, |mins|);
      assert SumTo(mins, 1) == mins[0];
    }
  }

  lemma RangeInside(f: seq<int>, spacing: int, c: nat, e: nat, room: int)
    requires c < e <= |f| && spacing >= 0 && Roomy(f, spacing, room)
    ensures 0 <= Offset(f, spacing, c)
    ensures Offset(f, spacing, c) + Max(1, Offset(f, spacing, e) - Offset(f, spacing, c) - spacing) <= room
  {
    HasRoom(f, spacing, room);
    OffsetMonotone(f, spacing, 0, c);
    OffsetMonotone(f, spacing, c + 1, e);
    OffsetMonotone(f, spacing, e, |f|);
  }

  predicate CellInside(ax: Axis, i: nat)
    requires ax.Valid() && i < |ax.spans|
  {
    ax.start <= CellPos(ax, i) && CellPos(ax, i) + CellExtent(ax, i) <= ax.start + ax.inner
  }

  /** When the minimums and the spacing fit, every child lies inside along the axis. */
  lemma FitsInside(ax: Axis, i: nat)
    requires ax.Valid() && ax.spacing >= 0 && ax.inner >= 1 && i < |ax.spans| && ax.spans[i].len >= 1
    requires MinimumsFit(ax)
    ensures CellInside(ax, i)
  {
    SpanInRange(ax, i);
    SpanAllCovered(ax.spans, i, ax.spans[i].len);
    TracksKeepMinimums(ax);
    TracksFit(ax);
    RangeInside(FinalTracks(ax), ax.spacing, FirstTrack(ax, i), FirstTrack(ax, i) + ax.spans[i].len, ax.inner);
  }

  lemma {:induction false} SomeReachesLast(spans: seq<Span>, k: nat) returns (i: nat)
    requires 0 < k <= |spans| && forall j :: 0 <= j < k ==> spans[j].len >= 1 && spans[j].start >= 0
    ensures i < k && spans[i].start + spans[i].len == LastTrack(spans, k) + 1
  {
    if k == 1 || LastTrack(spans, k) == spans[k - 1].start + spans[k - 1].len - 1 { i := k - 1; }
    else { i := SomeReachesLast(spans, k - 1); }
  }

  lemma {:induction false} SumBelow(a: seq<int>, b: seq<int>, k: nat)
    requires k <= |a| == |b| && forall c :: 0 <= c < k ==> a[c] <= b[c]
    ensures SumTo(a, k) <= SumTo(b, k)
  {
    if k > 0 { SumBelow(a, b, k - 1); }
  }

  /** A child that reaches the last track ends where the tracks end, so the minimums must fit. */
  lemma InsideNeedsMinimums(ax: Axis, i: nat)
    requires ax.Valid() && ax.spacing >= 0 && i < |ax.spans| && ax.spans[i].len >= 1
    requires ax.spans[i].start + ax.spans[i].len == Count(ax) && CellInside(ax, i)
    ensures MinimumsFit(ax)
  {
    var f := FinalTracks(ax);
    SpanInRange(ax, i);
    SpanAllCovered(ax.spans, i, ax.spans[i].len);
    TracksKeepMinimums(ax);
    SumBelow(MinsTo(ax, Count(ax)), f, |f|);
    HasRoom(f, ax.spacing, Sum(f) + Gaps(ax.spacing, |f|));
  }

  /** Along an axis every child lies inside if and only if the minimums and the spacing fit. */
  lemma AxisInside(ax: Axis)
    requires ax.Valid() && ax.spacing >= 0 && ax.inner >= 1 && ax.spans != []
    requires forall i :: 0 <= i < |ax.spans| ==> ax.spans[i].len >= 1
    ensures (forall i :: 0 <= i < |ax.spans| ==> CellInside(ax, i)) <==> MinimumsFit(ax)
  {
    hide CellInside, MinimumsFit;
    if MinimumsFit(ax) {
      forall i | 0 <= i < |ax.spans| ensures CellInside(ax, i) { FitsInside(ax, i); }
    } else if forall i :: 0 <= i < |ax.spans| ==> CellInside(ax, i) {
      var i := SomeReachesLast(ax.spans, |ax.spans|);
      InsideNeedsMinimums(ax, i);
    }
  }

  ghost predicate GridHolds(rows: Axis, cols: Axis)
    requires rows.Valid() && cols.Valid() && |rows.spans| == |cols.spans|
  {
    forall i :: 0 <= i < |rows.spans| ==>
      WithinRect(GridRect(rows, cols, i), Rect(cols.start, rows.start, cols.inner, rows.inner))
  }

  /** The grid fit: every placed child lies inside the inner rectangle if and only if the minimums fit on both axes. */
  lemma GridInside(rows: Axis, cols: Axis)
    requires rows.Valid() && cols.Valid() && |rows.spans| == |cols.spans| > 0
    requires rows.spacing >= 0 && cols.spacing >= 0 && rows.inner >= 1 && cols.inner >= 1
    requires forall i :: 0 <= i < |rows.spans| ==> rows.spans[i].len >= 1 && cols.spans[i].len >= 1
    ensures GridHolds(rows, cols) <==> MinimumsFit(rows) && MinimumsFit(cols)
  {
    hide CellPos, CellExtent, MinimumsFit;
    AxisInside(rows);
    AxisInside(cols);
    forall i | 0 <= i < |rows.spans|
      ensures WithinRect(GridRect(rows, cols, i), Rect(cols.start, rows.start, cols.inner, rows.inner))
              <==> CellInside(rows, i) && CellInside(cols, i)
    {
    }
  }

  /** The axes built from the children of a layout are valid, so the grid facts apply to them. */
  lemma AxesValid(act: seq<LayoutChild>, sizes: seq<Size>, inner: Rect, lp: LayoutProps)
    requires |act| == |sizes|
    requires ValidSpans(RowSpans(act)) && ValidSpans(ColSpans(act))
    ensures RowAxis(act, sizes, inner, lp.vSpacing).Valid() && ColAxis(act, inner, lp.hSpacing).Valid()
  {
    var rows, cols := RowAxis(act, sizes, inner, lp.vSpacing), ColAxis(act, inner, lp.hSpacing);
    forall i | 0 <= i < |act|
      ensures rows.mins[i] <= Max(1, rows.fixed[i]) && cols.mins[i] <= Max(1, cols.fixed[i])
    {
      assert rows.fixed[i] == RowFixed(act[i], sizes[i]) && rows.mins[i] == RowMinimum(act[i]);
    }
  }
}
