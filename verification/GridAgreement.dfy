/** Measuring and placing agree for grids: in its measured size a grid keeps every child inside. */
module GridAgreement {
  import opened Arith
  import opened UiReader
  import opened Tracks
  import opened Measure
  import opened Segments
  import opened BoxAgreement
  import opened GridLayout

  /** Each child spans a track, measures something, and asks of a track of its own no more than it measures. */
  predicate ClaimsCover(ax: Axis, extents: seq<int>) {
    && ax.Valid() && |extents| == |ax.spans|
    && forall i :: 0 <= i < |extents| ==>
         ax.spans[i].len >= 1 && extents[i] >= 1 && (ax.spans[i].len == 1 ==> ax.mins[i] <= extents[i])
  }

  lemma SharedAtLeastOne(extent: int, len: int)
    requires extent >= 1 && len >= 1
    ensures Shared(extent, len) >= 1 && Shared(extent, 1) == extent
  {
    assert extent + len - 1 >= len;
  }

  lemma {:induction false} MinBelowClaim(ax: Axis, extents: seq<int>, r: int, k: nat)
    requires ClaimsCover(ax, extents) && k <= |ax.spans|
    ensures MinAt(ax, r, k) <= Max(1, ClaimTo(ax.spans, extents, r, k))
  {
    if k > 0 {
      MinBelowClaim(ax, extents, r, k - 1);
      SharedAtLeastOne(extents[k - 1], ax.spans[k - 1].len);
    }
  }

  lemma {:induction false} ClaimPositive(ax: Axis, extents: seq<int>, r: int, k: nat, i: nat)
    requires ClaimsCover(ax, extents) && i < k <= |ax.spans| && Covers(ax.spans[i], r)
    ensures ClaimTo(ax.spans, extents, r, k) >= 1
  {
    SharedAtLeastOne(extents[k - 1], ax.spans[k - 1].len);
    if i < k - 1 { ClaimPositive(ax, extents, r, k - 1, i); }
  }

  lemma MinBelowWholeClaim(ax: Axis, extents: seq<int>, r: int)
    requires ClaimsCover(ax, extents) && Covered(ax.spans, r)
    ensures 1 <= TrackMin(ax, r) <= ClaimTo(ax.spans, extents, r, |ax.spans|)
  {
    var i :| 0 <= i < |ax.spans| && Covers(ax.spans[i], r);
    ClaimPositive(ax, extents, r, |ax.spans|, i);
    MinBelowClaim(ax, extents, r, |ax.spans|);
  }

  /** The minimums of the covered tracks never exceed what measuring claims for them. */
  lemma {:induction false} MinsBelowClaims(ax: Axis, extents: seq<int>, n: nat)
    requires ClaimsCover(ax, extents)
    ensures Sum(MinsTo(ax, n)) <= ClaimsTo(ax.spans, extents, n)
    ensures CoveredTo(ax.spans, n) <= ClaimsTo(ax.spans, extents, n)
  {
    hide TrackMin, ClaimTo, Covered;
    if n > 0 {
      MinsBelowClaims(ax, extents, n - 1);
      if Covered(ax.spans, n - 1) {
        MinBelowWholeClaim(ax, extents, n - 1);
        SumSnoc(MinsTo(ax, n - 1), TrackMin(ax, n - 1));
      } else {
        assert MinsTo(ax, n) == MinsTo(ax, n - 1);
      }
    }
  }

  /** A grid with children measures something, and its minimums fit into what it measures. */
  lemma MinimumsFitMeasure(ax: Axis, extents: seq<int>)
    requires ClaimsCover(ax, extents) && ax.spans != [] && ax.spacing >= 0
    ensures var e := GridExtent(ax.spans, extents, ax.spacing);
            1 <= e && Sum(MinsTo(ax, Count(ax))) + Gaps(ax.spacing, ActiveCount(ax)) <= e
  {
    MinsBelowClaims(ax, extents, Count(ax));
    var s := ax.spans[0];
    assert Covers(s, s.start);
    CoveredMonotone(ax.spans, s.start + 1, Count(ax));
    GapsNonNegative(ax.spacing, ActiveCount(ax));
  }

  lemma GapsNonNegative(spacing: int, n: nat)
    requires spacing >= 0
    ensures Gaps(spacing, n) >= 0
  {
  }

  /** Every child spans at least one row and one column. */
  predicate ProperCells(act: seq<LayoutChild>) {
    forall i :: 0 <= i < |act| ==> act[i].row >= 0 && act[i].col >= 0 && act[i].rowspan >= 1 && act[i].colspan >= 1
  }

  lemma RowsCover(act: seq<LayoutChild>, sizes: seq<Size>, inner: Rect, lp: LayoutProps)
    requires MeasuredBy(act, sizes) && AllPositive(sizes) && ProperCells(act)
    ensures ClaimsCover(RowAxis(act, sizes, inner, lp.vSpacing), Heights(sizes))
    ensures ClaimsCover(ColAxis(act, inner, lp.hSpacing), Widths(sizes))
  {
    hide RowFixed, ColFixed, OnlySpacers, SpacerHoldsRow, SpacerHoldsCol;
    AxesValid(act, sizes, inner, lp);
    var rows, cols := RowAxis(act, sizes, inner, lp.vSpacing), ColAxis(act, inner, lp.hSpacing);
    forall i | 0 <= i < |act| ensures rows.mins[i] <= Heights(sizes)[i] && cols.mins[i] <= Widths(sizes)[i] {
      MinimumsBelowSize(act[i], sizes[i], OnlySpacers(act, act[i].col));
    }
  }

  lemma MinimumsBelowSize(lc: LayoutChild, size: Size, alone: bool)
    requires size == ChildSize(lc) && size.w >= 1 && size.h >= 1
    ensures RowMinimum(lc) <= size.h && ColMinimum(lc, alone) <= size.w
  {
    hide LayoutSize, WidgetSize;
  }

  /** Measure and place agree for a grid of any children in any room: all lie inside if and only if the minimums fit. */
  lemma GridAgrees(act: seq<LayoutChild>, sizes: seq<Size>, inner: Rect, lp: LayoutProps)
    requires |act| == |sizes| && act != [] && ProperCells(act) && lp.hSpacing >= 0 && lp.vSpacing >= 0
    requires inner.w >= 1 && inner.h >= 1
    ensures var rows, cols := RowAxis(act, sizes, inner, lp.vSpacing), ColAxis(act, inner, lp.hSpacing);
            rows.Valid() && cols.Valid() && (GridHolds(rows, cols) <==> MinimumsFit(rows) && MinimumsFit(cols))
  {
    hide GridHolds, MinimumsFit, RowFixed, ColFixed, RowMinimum, ColMinimum, OnlySpacers;
    AxesValid(act, sizes, inner, lp);
    GridInside(RowAxis(act, sizes, inner, lp.vSpacing), ColAxis(act, inner, lp.hSpacing));
  }

  /** In its measured size the minimums fit if and only if what the children claim of the tracks covers them. */
  lemma MeasureSuffices(ax: Axis, extents: seq<int>)
    requires ax.Valid() && |extents| == |ax.spans| && ax.inner == GridExtent(ax.spans, extents, ax.spacing)
    ensures MinimumsFit(ax) <==> Sum(MinsTo(ax, Count(ax))) <= ClaimsTo(ax.spans, extents, Count(ax))
  {
    hide MinsTo;
  }

  /** So a grid in its measured size holds its children if each of them measures something. */
  lemma GridMeasureSuffices(act: seq<LayoutChild>, sizes: seq<Size>, lp: LayoutProps)
    requires MeasuredBy(act, sizes) && AllPositive(sizes) && ProperCells(act) && act != [] && lp.hSpacing >= 0 && lp.vSpacing >= 0
    ensures var w, h := GridExtent(ColSpans(act), Widths(sizes), lp.hSpacing), GridExtent(RowSpans(act), Heights(sizes), lp.vSpacing);
            var rows, cols := RowAxis(act, sizes, Rect(0, 0, w, h), lp.vSpacing), ColAxis(act, Rect(0, 0, w, h), lp.hSpacing);
            rows.Valid() && cols.Valid() && GridHolds(rows, cols)
  {
    hide MinsTo, GridExtent, ChildSize, GridHolds;
    var w, h := GridExtent(ColSpans(act), Widths(sizes), lp.hSpacing), GridExtent(RowSpans(act), Heights(sizes), lp.vSpacing);
    var inner := Rect(0, 0, w, h);
    RowsCover(act, sizes, inner, lp);
    MinimumsFitMeasure(RowAxis(act, sizes, inner, lp.vSpacing), Heights(sizes));
    MinimumsFitMeasure(ColAxis(act, inner, lp.hSpacing), Widths(sizes));
    GridAgrees(act, sizes, inner, lp);
  }

  /** More room, elsewhere, with the same children. */
  lemma MinimumsFitMore(ax: Axis, start: int, inner: int)
    requires ax.Valid() && MinimumsFit(ax) && ax.inner <= inner
    ensures WithInner(ax, start, inner).Valid() && MinimumsFit(WithInner(ax, start, inner))
  {
    hide Covered;
    MinsSame(ax, start, inner, Count(ax));
  }

  lemma {:induction false} MinSame(ax: Axis, start: int, inner: int, r: int, k: nat)
    requires ax.Valid() && k <= |ax.spans|
    ensures WithInner(ax, start, inner).Valid() && MinAt(WithInner(ax, start, inner), r, k) == MinAt(ax, r, k)
  {
    if k > 0 { MinSame(ax, start, inner, r, k - 1); }
  }

  lemma {:induction false} MinsSame(ax: Axis, start: int, inner: int, n: nat)
    requires ax.Valid()
    ensures WithInner(ax, start, inner).Valid() && MinsTo(WithInner(ax, start, inner), n) == MinsTo(ax, n)
  {
    hide Covered;
    if n > 0 {
      MinsSame(ax, start, inner, n - 1);
      MinSame(ax, start, inner, n - 1, |ax.spans|);
    }
  }

  // ---- layouts nested in a grid cell ---------------------------------------------------------------------------------------

  /** The tracks get what they want: nothing is shrunk. */
  predicate WantedFits(ax: Axis)
    requires ax.Valid()
  {
    Sum(WantedTo(ax, Count(ax))) <= Room(ax)
  }

  /** The sum of what `n` tracks from `r` on want. */
  function WantedFrom(ax: Axis, r: int, n: nat): int
    requires ax.Valid()
  {
    if n == 0 then 0 else WantedFrom(ax, r, n - 1) + TrackWanted(ax, r + n - 1)
  }

  /** What the tracks of child `i` and the spacing between them come to when nothing is shrunk. */
  function WantedExtent(ax: Axis, i: nat): int
    requires ax.Valid() && i < |ax.spans| && ax.spans[i].len >= 1
  {
    WantedFrom(ax, ax.spans[i].start, ax.spans[i].len) + Gaps(ax.spacing, ax.spans[i].len)
  }

  lemma {:induction false} OccupiedPositive(s: seq<int>)
    requires forall k :: 0 <= k < |s| ==> s[k] >= 1
    ensures Occupied(s) == Sum(s)
  {
    OccupiedIsSum(s, |s|);
  }

  lemma WantedIsFinal(ax: Axis)
    requires ax.Valid() && WantedFits(ax)
    ensures FinalTracks(ax) == WantedTo(ax, Count(ax))
  {
    WantedAboveMins(ax, Count(ax));
    OccupiedPositive(WantedTo(ax, Count(ax)));
  }

  lemma {:induction false} WantedPrefix(ax: Axis, k: nat, n: nat)
    requires ax.Valid() && k <= n
    ensures CoveredTo(ax.spans, k) <= CoveredTo(ax.spans, n)
    ensures WantedTo(ax, n)[..CoveredTo(ax.spans, k)] == WantedTo(ax, k)
  {
    hide TrackWanted;
    if k < n { WantedPrefix(ax, k, n - 1); }
  }

  lemma {:induction false} SumOfPrefix(s: seq<int>, k: nat)
    requires k <= |s|
    ensures SumTo(s, k) == Sum(s[..k])
  {
    if k > 0 {
      SumOfPrefix(s, k - 1);
      assert s[..k] == s[..k - 1] + [s[k - 1]];
      SumSnoc(s[..k - 1], s[k - 1]);
    }
  }

  lemma WantedNext(ax: Axis, r: nat)
    requires ax.Valid() && Covered(ax.spans, r)
    ensures Sum(WantedTo(ax, r + 1)) == Sum(WantedTo(ax, r)) + TrackWanted(ax, r)
  {
    SumSnoc(WantedTo(ax, r), TrackWanted(ax, r));
  }

  lemma {:induction false} WantedSpan(ax: Axis, i: nat, n: nat)
    requires ax.Valid() && i < |ax.spans| && n <= ax.spans[i].len
    ensures Sum(WantedTo(ax, ax.spans[i].start + n)) == Sum(WantedTo(ax, ax.spans[i].start)) + WantedFrom(ax, ax.spans[i].start, n)
  {
    hide TrackWanted, WantedTo;
    if n > 0 {
      WantedSpan(ax, i, n - 1);
      assert Covers(ax.spans[i], ax.spans[i].start + n - 1);
      WantedNext(ax, ax.spans[i].start + n - 1);
    }
  }

  /** When the wanted tracks fit, a child's extent is exactly what its tracks want and the spacing between them. */
  lemma NestedExtent(ax: Axis, i: nat)
    requires ax.Valid() && ax.spacing >= 0 && i < |ax.spans| && ax.spans[i].len >= 1 && WantedFits(ax)
    ensures CellExtent(ax, i) == WantedExtent(ax, i)
  {
    hide TrackWanted, WantedTo, FinalTracks, CellExtent, Gaps;
    var start, end := ax.spans[i].start, ax.spans[i].start + ax.spans[i].len;
    CellExtentExact(ax, i);
    SpanAllCovered(ax.spans, i, ax.spans[i].len);
    WantedIsFinal(ax);
    WantedPrefix(ax, start, Count(ax));
    WantedPrefix(ax, end, Count(ax));
    SumOfPrefix(WantedTo(ax, Count(ax)), CoveredTo(ax.spans, start));
    SumOfPrefix(WantedTo(ax, Count(ax)), CoveredTo(ax.spans, end));
    WantedSpan(ax, i, ax.spans[i].len);
  }

  // ---- more room never hurts ---------------------------------------------------------------------------------------------------

  function WithInner(ax: Axis, start: int, inner: int): Axis { ax.(start := start, inner := inner) }

  lemma {:induction false} TracksSame(ax: Axis, start: int, inner: int, r: int, k: nat)
    requires ax.Valid() && k <= |ax.spans|
    ensures WithInner(ax, start, inner).Valid()
    ensures FixedAt(WithInner(ax, start, inner), r, k) == FixedAt(ax, r, k)
  {
    if k > 0 { TracksSame(ax, start, inner, r, k - 1); }
  }

  lemma {:induction false} TotalsSame(ax: Axis, start: int, inner: int, n: nat)
    requires ax.Valid()
    ensures WithInner(ax, start, inner).Valid()
    ensures FixedSumTo(WithInner(ax, start, inner), n) == FixedSumTo(ax, n) && FlexTo(WithInner(ax, start, inner), n) == FlexTo(ax, n)
  {
    hide Covered;
    if n > 0 {
      TotalsSame(ax, start, inner, n - 1);
      TracksSame(ax, start, inner, n - 1, |ax.spans|);
    }
  }

  lemma TruncMonotone(a: int, b: int, d: int)
    requires a <= b && d > 0
    ensures TruncDiv(a, d) <= TruncDiv(b, d)
    ensures TruncDiv(b, d) >= 1 ==> d * TruncDiv(b, d) <= b
  {
    if a >= 0 { DivMonotone(a, b, d); } else if b < 0 { DivMonotone(-b, -a, d); }
    QuotientBounds(b, d);
  }

  lemma QuotientBounds(b: int, d: int)
    requires d > 0
    ensures b >= 0 ==> b / d >= 0 && d * (b / d) <= b
    ensures b < 0 ==> (-b) / d >= 0
  {
  }

  lemma DivMonotone(a: int, b: int, d: int)
    requires a <= b && d > 0
    ensures a / d <= b / d
  {
    DivStep(a / d, a % d, b / d, b % d, d);
  }

  lemma DivStep(q: int, r: int, p: int, t: int, d: int)
    requires d > 0 && 0 <= r < d && 0 <= t < d && d * q + r <= d * p + t
    ensures q <= p
  {
    assert (p + 1) * d == p * d + d;
    if q > p { MulMono(p + 1, q, d); }
  }

  lemma {:induction false} WantedTotal(ax: Axis, n: nat)
    requires ax.Valid()
    ensures Sum(WantedTo(ax, n)) == FixedSumTo(ax, n) + FlexTo(ax, n) * FlexSize(ax)
  {
    hide FlexSize, Covered;
    if n > 0 {
      WantedTotal(ax, n - 1);
      if Covered(ax.spans, n - 1) {
        WantedNext(ax, n - 1);
        assert (FlexTo(ax, n - 1) + 1) * FlexSize(ax) == FlexTo(ax, n - 1) * FlexSize(ax) + FlexSize(ax);
      } else {
        assert WantedTo(ax, n) == WantedTo(ax, n - 1);
      }
    }
  }

  lemma FlexGrows(ax: Axis, start: int, inner: int)
    requires ax.Valid() && ax.inner <= inner
    ensures WithInner(ax, start, inner).Valid() && FlexSize(ax) <= FlexSize(WithInner(ax, start, inner))
  {
    TotalsSame(ax, start, inner, Count(ax));
    var flex, fixed := FlexTo(ax, Count(ax)), FixedSumTo(ax, Count(ax));
    var g := Gaps(ax.spacing, ActiveCount(ax));
    if flex > 0 { TruncMonotone(ax.inner - fixed - g, inner - fixed - g, flex); }
  }

  /** If the wanted tracks fit, they fit in more room. */
  lemma WantedFitsMore(ax: Axis, start: int, inner: int)
    requires ax.Valid() && ax.inner <= inner && WantedFits(ax)
    ensures WithInner(ax, start, inner).Valid() && WantedFits(WithInner(ax, start, inner))
  {
    hide WantedTo, FixedSumTo, FlexTo, Gaps;
    var more := WithInner(ax, start, inner);
    TotalsSame(ax, start, inner, Count(ax));
    WantedTotal(ax, Count(ax));
    WantedTotal(more, Count(ax));
    var k, fixed, g := FlexTo(ax, Count(ax)), FixedSumTo(ax, Count(ax)), Gaps(ax.spacing, ActiveCount(ax));
    if k > 0 { FlexStillFits(k, ax.flexMin, fixed, ax.inner - fixed - g, inner - fixed - g); }
  }

  /** Flexible tracks that fit with the fixed ones still do in more room, of which they take whole shares. */
  lemma FlexStillFits(k: int, low: int, fixed: int, rest: int, more: int)
    requires k > 0 && low >= 1 && rest <= more
    requires fixed + k * Max(low, TruncDiv(rest, k)) <= Max(1, fixed + rest)
    ensures fixed + k * Max(low, TruncDiv(more, k)) <= Max(1, fixed + more)
  {
    TruncMonotone(rest, more, k);
    if TruncDiv(more, k) <= low { assert Max(low, TruncDiv(more, k)) == low == Max(low, TruncDiv(rest, k)); }
  }

  lemma {:induction false} WantedFromGrows(ax: Axis, start: int, inner: int, r: int, n: nat)
    requires ax.Valid() && ax.inner <= inner
    ensures WithInner(ax, start, inner).Valid() && WantedFrom(ax, r, n) <= WantedFrom(WithInner(ax, start, inner), r, n)
  {
    hide FlexSize;
    FlexGrows(ax, start, inner);
    if n > 0 {
      WantedFromGrows(ax, start, inner, r, n - 1);
      TracksSame(ax, start, inner, r + n - 1, |ax.spans|);
    }
  }

  /**
   The exact condition for a layout nested in a grid cell, checked before placing: if the wanted tracks
   fit, it gets at least its measure in all the room there is, and in any more, if and only if its tracks
   want that much.
   */
  lemma NestedGetsMeasure(ax: Axis, i: nat, measure: int)
    requires ax.Valid() && ax.spacing >= 0 && i < |ax.spans| && ax.spans[i].len >= 1 && WantedFits(ax)
    ensures WantedExtent(ax, i) >= measure
            <==> forall start, inner :: inner >= ax.inner ==>
                   WithInner(ax, start, inner).Valid() && CellExtent(WithInner(ax, start, inner), i) >= measure
  {
    hide CellExtent, WantedFits;
    NestedExtent(ax, i);
    assert WithInner(ax, ax.start, ax.inner) == ax;
    forall start, inner | inner >= ax.inner
      ensures WithInner(ax, start, inner).Valid() && CellExtent(WithInner(ax, start, inner), i) >= WantedExtent(ax, i)
    {
      WantedFitsMore(ax, start, inner);
      NestedExtent(WithInner(ax, start, inner), i);
      WantedFromGrows(ax, start, inner, ax.spans[i].start, ax.spans[i].len);
    }
  }

  // ---- any grid, shrunk or not ---------------------------------------------------------------------------------------------------

  /** The room from which on the wanted tracks fit. */
  function WantedRoom(ax: Axis): int
    requires ax.Valid()
  {
    FixedSumTo(ax, Count(ax)) + FlexTo(ax, Count(ax)) * ax.flexMin + Gaps(ax.spacing, ActiveCount(ax))
  }

  lemma WantedFitsFrom(ax: Axis)
    requires ax.Valid() && ax.inner >= WantedRoom(ax)
    ensures WantedFits(ax)
  {
    hide WantedTo, FixedSumTo, FlexTo, Gaps;
    WantedTotal(ax, Count(ax));
    var k, rest := FlexTo(ax, Count(ax)), ax.inner - FixedSumTo(ax, Count(ax)) - Gaps(ax.spacing, ActiveCount(ax));
    if k > 0 {
      TruncMonotone(rest, rest, k);
      assert k * FlexSize(ax) == FlexSize(ax) * k;
    }
  }

  lemma {:induction false} WantedSame(ax: Axis, start: int, n: nat)
    requires ax.Valid()
    ensures WithInner(ax, start, ax.inner).Valid() && WantedTo(WithInner(ax, start, ax.inner), n) == WantedTo(ax, n)
  {
    hide Covered, FixedSumTo, FlexTo;
    if n > 0 {
      WantedSame(ax, start, n - 1);
      TracksSame(ax, start, ax.inner, n - 1, |ax.spans|);
      TotalsSame(ax, start, ax.inner, Count(ax));
    }
  }

  /** Where an axis starts has no influence on extents. */
  lemma ExtentSame(ax: Axis, start: int, i: nat)
    requires ax.Valid() && i < |ax.spans|
    ensures WithInner(ax, start, ax.inner).Valid() && CellExtent(WithInner(ax, start, ax.inner), i) == CellExtent(ax, i)
  {
    hide WantedTo, MinsTo, Fitted, CoveredTo;
    WantedSame(ax, start, Count(ax));
    MinsSame(ax, start, ax.inner, Count(ax));
  }

  /** In this room, and in each larger one until the wanted tracks fit, the tracks of child `i` are long enough. */
  predicate LongEnough(ax: Axis, i: nat, measure: int)
    requires ax.Valid() && i < |ax.spans|
  {
    forall inner :: ax.inner <= inner <= Max(ax.inner, WantedRoom(ax)) ==>
      WithInner(ax, ax.start, inner).Valid() && CellExtent(WithInner(ax, ax.start, inner), i) >= measure
  }

  /**
   For any grid, shrunk or not: finitely many rooms decide whether a child gets some measure in this room
   and in every larger one.
   */
  lemma EnoughInAnyRoom(ax: Axis, i: nat, measure: int)
    requires ax.Valid() && ax.spacing >= 0 && i < |ax.spans| && ax.spans[i].len >= 1
    ensures LongEnough(ax, i, measure)
            <==> forall start, inner :: inner >= ax.inner ==>
                   WithInner(ax, start, inner).Valid() && CellExtent(WithInner(ax, start, inner), i) >= measure
  {
    hide CellExtent, WantedFits, WantedRoom;
    if LongEnough(ax, i, measure) {
      forall start, inner | inner >= ax.inner
        ensures WithInner(ax, start, inner).Valid() && CellExtent(WithInner(ax, start, inner), i) >= measure
      {
        LongInRoom(ax, start, inner, i, measure);
      }
    }
  }

  lemma LongInRoom(ax: Axis, start: int, inner: int, i: nat, measure: int)
    requires ax.Valid() && ax.spacing >= 0 && i < |ax.spans| && ax.spans[i].len >= 1 && LongEnough(ax, i, measure)
    requires inner >= ax.inner
    ensures WithInner(ax, start, inner).Valid() && CellExtent(WithInner(ax, start, inner), i) >= measure
  {
    hide CellExtent, WantedFits;
    var enough := Max(ax.inner, WantedRoom(ax));
    if inner <= enough {
      ExtentSame(WithInner(ax, ax.start, inner), start, i);
    } else {
      var more := WithInner(ax, ax.start, enough);
      TotalsSame(ax, ax.start, enough, Count(ax));
      WantedFitsFrom(more);
      NestedExtent(more, i);
      NestedGetsMeasure(more, i, measure);
      assert WithInner(more, start, inner) == WithInner(ax, start, inner);
    }
  }

  /** The least extent of child `i` in the rooms from `inner` to `last`. */
  function LeastTo(ax: Axis, i: nat, inner: int, last: int): (e: int)
    requires ax.Valid() && i < |ax.spans| && inner <= last
    ensures forall r :: inner <= r <= last ==> WithInner(ax, ax.start, r).Valid() && CellExtent(WithInner(ax, ax.start, r), i) >= e
    ensures exists r :: inner <= r <= last && WithInner(ax, ax.start, r).Valid() && CellExtent(WithInner(ax, ax.start, r), i) == e
    decreases last - inner
  {
    TotalsSame(ax, ax.start, inner, 0);
    var here := CellExtent(WithInner(ax, ax.start, inner), i);
    if inner == last then here
    else
      var later := LeastTo(ax, i, inner + 1, last);
      Min(here, later)
  }

  /** The extent that child `i` surely has in this room and in every larger one. */
  function LeastExtent(ax: Axis, i: nat): int
    requires ax.Valid() && i < |ax.spans|
  {
    LeastTo(ax, i, ax.inner, Max(ax.inner, WantedRoom(ax)))
  }

  /** It is the largest such extent. */
  lemma LeastExtentExact(ax: Axis, i: nat, measure: int)
    requires ax.Valid() && i < |ax.spans|
    ensures LongEnough(ax, i, measure) <==> LeastExtent(ax, i) >= measure
  {
    hide CellExtent, WantedRoom;
  }

  /** More room never lowers it. */
  lemma LeastExtentGrows(ax: Axis, start: int, inner: int, i: nat)
    requires ax.Valid() && ax.spacing >= 0 && i < |ax.spans| && ax.spans[i].len >= 1 && ax.inner <= inner
    ensures WithInner(ax, start, inner).Valid()
    ensures LeastExtent(ax, i) <= LeastExtent(WithInner(ax, start, inner), i) <= CellExtent(WithInner(ax, start, inner), i)
  {
    hide CellExtent, WantedRoom, LeastExtent, LongEnough;
    TotalsSame(ax, start, inner, 0);
    var more, e := WithInner(ax, start, inner), LeastExtent(ax, i);
    LeastExtentExact(ax, i, e);
    EnoughInAnyRoom(ax, i, e);
    forall s, r | r >= inner ensures WithInner(more, s, r).Valid() && CellExtent(WithInner(more, s, r), i) >= e {
      assert WithInner(more, s, r) == WithInner(ax, s, r);
    }
    EnoughInAnyRoom(more, i, e);
    LeastExtentExact(more, i, e);
    LeastExtentExact(more, i, LeastExtent(more, i));
    EnoughInAnyRoom(more, i, LeastExtent(more, i));
    assert WithInner(more, start, inner) == more;
  }
}
