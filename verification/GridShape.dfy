/**
 Where and how large the children of a grid are, and what a grid measures: what children ask of their rows and
 columns, how the rest is shared, and what the measured tracks cover.
 */
module GridShape {
  import opened Arith
  import opened Text
  import opened Xml
  import opened UiReader
  import opened Tracks
  import opened Measure
  import opened Segments
  import opened BoxLayout
  import opened GridLayout
  import opened GridAgreement
  import opened BoxShape
  import opened Placement
  import opened ImportTree

  // ---- what children ask ---------------------------------------------------------------------------------------------------

  /** What a child asks of the only row it spans, by its own maximum and minimum height, its layout and its class. */
  lemma RowAsked(lc: LayoutChild, size: Size)
    ensures var min, max := MinimumOf(lc.node, "height"), MaximumOf(lc.node, "height");
            && (lc.kind.Layout? ==> RowFixed(lc, size) == 0)
            && (lc.kind.Spacer? ==> RowFixed(lc, size) == if Contains(ToLower(lc.orientation), "vertical") && SpacerCanExpand(lc) then 0 else lc.sizeHintH)
            && (lc.kind.Widget? && max.Some? && max.value < 300 ==> RowFixed(lc, size) == max.value)
            && (lc.kind.Widget? && max.Some? && max.value >= 300 && min == max ==> RowFixed(lc, size) == max.value)
            && (lc.kind.Widget? && (max.None? || max.value >= 300) && (min.None? || min != max) ==>
                  RowFixed(lc, size) == if MaximumSizeLayout(lc.node) then size.h else ClassPreferredH(lc.node.Attr("class", "")))
  {
    hide ReadSizeConstraints, MinimumOf, MaximumOf, ClassPreferredH, MaximumSizeLayout, SpacerCanExpand;
    BoundsRead(lc.node);
  }

  /** What it asks of the only column it spans; only bounds and hints count there. */
  lemma ColAsked(lc: LayoutChild, alone: bool)
    ensures var min, max := MinimumOf(lc.node, "width"), MaximumOf(lc.node, "width");
            && (lc.kind.Layout? ==> ColFixed(lc, alone) == 0)
            && (lc.kind.Spacer? && Contains(ToLower(lc.orientation), "horizontal") ==>
                  ColFixed(lc, alone) == if SpacerCanExpand(lc) then 0 else lc.sizeHintW)
            && (lc.kind.Spacer? && !Contains(ToLower(lc.orientation), "horizontal") ==>
                  ColFixed(lc, alone) == if alone then lc.sizeHintW else 0)
            && (lc.kind.Widget? ==>
                  ColFixed(lc, alone) == if max.Some? && (max.value < 400 || min == max) then max.value else 0)
  {
    hide ReadSizeConstraints, MinimumOf, MaximumOf, SpacerCanExpand;
    BoundsRead(lc.node);
  }

  lemma SetsMaximum(node: XmlNode, k: nat, j: nat)
    requires k < |node.children| && node.children[k].name == "layout" && j < |node.children[k].ChildrenNamed("property")|
    requires var p := node.children[k].ChildrenNamed("property")[j];
             p.Attr("name", "") == "sizeConstraint" && p.FirstChild("enum").Some? && Contains(p.FirstChild("enum").value.text, "SetMaximumSize")
    ensures MaximumSizeLayout(node)
  {
    var c := node.children[k];
    assert c.ChildrenNamed("property")[j] in c.ChildrenNamed("property");
    assert AsksMaximumSize(c);
    assert c in node.children;
  }

  /** A layout counts only if it asks for the maximum size itself. */
  lemma SetsNoMaximum(node: XmlNode)
    requires forall c :: c in node.children && c.name == "layout" ==>
               forall p :: p in c.ChildrenNamed("property") ==> p.Attr("name", "") != "sizeConstraint"
    ensures !MaximumSizeLayout(node)
  {
  }

  /** The children of a grid along its two axes: rows from row numbers and heights, columns from column numbers and widths. */
  lemma AxesRead(act: seq<LayoutChild>, sizes: seq<Size>, inner: Rect, lp: LayoutProps, i: nat, t: int)
    requires |act| == |sizes| && i < |act|
    ensures var rows, lc := RowAxis(act, sizes, inner, lp.vSpacing), act[i];
            && (Covers(rows.spans[i], t) <==> lc.row <= t < lc.row + lc.rowspan) && rows.spans[i].start == lc.row
            && rows.start == inner.y && rows.inner == inner.h && rows.spacing == lp.vSpacing && rows.flexMin == 24
            && rows.fixed[i] == RowFixed(lc, sizes[i]) && rows.mins[i] == RowMinimum(lc)
    ensures var cols, lc := ColAxis(act, inner, lp.hSpacing), act[i];
            && (Covers(cols.spans[i], t) <==> lc.col <= t < lc.col + lc.colspan) && cols.spans[i].start == lc.col
            && cols.start == inner.x && cols.inner == inner.w && cols.spacing == lp.hSpacing && cols.flexMin == 40
            && cols.fixed[i] == ColFixed(lc, OnlySpacers(act, lc.col)) && cols.mins[i] == ColMinimum(lc, OnlySpacers(act, lc.col))
  {
    hide RowFixed, ColFixed, RowMinimum, ColMinimum, OnlySpacers;
  }

  // ---- one track -----------------------------------------------------------------------------------------------------------------

  lemma {:induction false} FixedIsLargest(ax: Axis, r: int, k: nat)
    requires ax.Valid() && k <= |ax.spans|
    ensures forall j :: 0 <= j < k && ax.spans[j] == Span(r, 1) ==> ax.fixed[j] <= FixedAt(ax, r, k)
    ensures FixedAt(ax, r, k) == 0 || exists j :: 0 <= j < k && ax.spans[j] == Span(r, 1) && ax.fixed[j] == FixedAt(ax, r, k)
  {
    if k > 0 { FixedIsLargest(ax, r, k - 1); }
  }

  lemma OneTrack(ax: Axis, i: nat)
    requires ax.Valid() && ax.spacing >= 0 && i < |ax.spans| && ax.spans[i].len == 1 && WantedFits(ax)
    ensures CellExtent(ax, i) == TrackWanted(ax, ax.spans[i].start)
  {
    hide CellExtent, TrackWanted, WantedFits;
    NestedExtent(ax, i);
    assert WantedFrom(ax, ax.spans[i].start, 0) == 0;
    assert WantedFrom(ax, ax.spans[i].start, 1) == TrackWanted(ax, ax.spans[i].start);
  }

  /** When the tracks get what they want, the child that asks most of its one track gets exactly that. */
  lemma LargestAskWins(ax: Axis, i: nat)
    requires ax.Valid() && ax.spacing >= 0 && i < |ax.spans| && ax.spans[i].len == 1 && WantedFits(ax) && ax.fixed[i] > 0
    requires forall j :: 0 <= j < |ax.spans| && ax.spans[j] == ax.spans[i] ==> ax.fixed[j] <= ax.fixed[i]
    ensures CellExtent(ax, i) == ax.fixed[i]
  {
    hide CellExtent, WantedFits;
    var r := ax.spans[i].start;
    assert ax.spans[i] == Span(r, 1);
    FixedIsLargest(ax, r, |ax.spans|);
    OneTrack(ax, i);
  }

  /** A track of which nobody asks anything is flexible: it gets the common share. */
  lemma UnaskedIsFlexible(ax: Axis, i: nat)
    requires ax.Valid() && ax.spacing >= 0 && i < |ax.spans| && ax.spans[i].len == 1 && WantedFits(ax)
    requires forall j :: 0 <= j < |ax.spans| && ax.spans[j] == ax.spans[i] ==> ax.fixed[j] <= 0
    ensures CellExtent(ax, i) == FlexSize(ax)
  {
    hide CellExtent, WantedFits, FlexSize;
    var r := ax.spans[i].start;
    assert ax.spans[i] == Span(r, 1);
    FixedIsLargest(ax, r, |ax.spans|);
    OneTrack(ax, i);
  }

  /**
   The flexible tracks take all the room that the others leave, but for less than a pixel each, as long as
   that gives each of them its least size; otherwise they have exactly that.
   */
  lemma FlexibleTracksFill(ax: Axis)
    requires ax.Valid() && FlexTo(ax, Count(ax)) > 0
    ensures var flex := FlexTo(ax, Count(ax));
            var rest := ax.inner - FixedSumTo(ax, Count(ax)) - Gaps(ax.spacing, ActiveCount(ax));
            && (rest >= flex * ax.flexMin ==> 0 <= rest - flex * FlexSize(ax) < flex)
            && (rest < flex * ax.flexMin ==> FlexSize(ax) == ax.flexMin)
  {
    hide FixedSumTo, FlexTo, Gaps;
    var flex := FlexTo(ax, Count(ax));
    var rest := ax.inner - FixedSumTo(ax, Count(ax)) - Gaps(ax.spacing, ActiveCount(ax));
    ShareOfRest(rest, flex, ax.flexMin);
  }

  lemma ShareOfRest(rest: int, flex: int, low: int)
    requires flex > 0 && low >= 1
    ensures rest >= flex * low ==> TruncDiv(rest, flex) >= low && 0 <= rest - flex * TruncDiv(rest, flex) < flex
    ensures rest < flex * low ==> TruncDiv(rest, flex) <= low
  {
    if rest >= flex * low {
      MulMono(0, low, flex);
      assert rest == flex * (rest / flex) + rest % flex;
      DivStep(low, 0, rest / flex, rest % flex, flex);
    } else if rest >= 0 {
      assert rest == flex * (rest / flex) + rest % flex;
      DivStep(rest / flex, rest % flex, low, 0, flex);
    } else {
      QuotientBounds(rest, flex);
    }
  }

  lemma {:induction false} MinHolds(ax: Axis, r: int, k: nat, j: nat)
    requires ax.Valid() && j < k <= |ax.spans| && ax.spans[j] == Span(r, 1)
    ensures MinAt(ax, r, k) >= ax.mins[j]
  {
    if j < k - 1 { MinHolds(ax, r, k - 1, j); }
  }

  lemma {:induction false} MinsAtTrack(ax: Axis, n: nat, r: nat)
    requires ax.Valid() && r < n && Covered(ax.spans, r)
    ensures CoveredTo(ax.spans, r) < CoveredTo(ax.spans, n) && MinsTo(ax, n)[CoveredTo(ax.spans, r)] == TrackMin(ax, r)
  {
    hide TrackMin, Covered;
    if r < n - 1 { MinsAtTrack(ax, n - 1, r); }
    else { CoveredMonotone(ax.spans, r, n); }
  }

  /** Shrinking never takes a track below what a child of it needs: the hint of a spacer that holds it, or a pixel. */
  lemma TrackKeepsNeed(ax: Axis, i: nat)
    requires ax.Valid() && ax.spacing >= 0 && i < |ax.spans| && ax.spans[i].len == 1
    ensures CellExtent(ax, i) >= ax.mins[i]
  {
    hide FinalTracks, MinsTo, WantedTo, CellExtent;
    var r := ax.spans[i].start;
    assert ax.spans[i] == Span(r, 1) && Covers(ax.spans[i], r);
    CellExtentExact(ax, i);
    TracksKeepMinimums(ax);
    MinsAtTrack(ax, Count(ax), r);
    MinHolds(ax, r, |ax.spans|, i);
    var f, c := FinalTracks(ax), FirstTrack(ax, i);
    assert SumTo(f, c + 1) == SumTo(f, c) + f[c];
  }

  /**
   A spacer needs its hint of a row unless it can expand downwards, and of a column unless it can expand
   sideways or, lying across it, shares it with something else; every other child needs a pixel.
   */
  lemma NeedOf(lc: LayoutChild, alone: bool)
    ensures !lc.kind.Spacer? ==> RowMinimum(lc) == 1 && ColMinimum(lc, alone) == 1
    ensures lc.kind.Spacer? ==>
              RowMinimum(lc) == if Contains(ToLower(lc.orientation), "vertical") && SpacerCanExpand(lc) then 1 else Max(1, lc.sizeHintH)
    ensures lc.kind.Spacer? && Contains(ToLower(lc.orientation), "horizontal")
            ==> ColMinimum(lc, alone) == if SpacerCanExpand(lc) then 1 else Max(1, lc.sizeHintW)
    ensures lc.kind.Spacer? && !Contains(ToLower(lc.orientation), "horizontal")
            ==> ColMinimum(lc, alone) == if alone then Max(1, lc.sizeHintW) else 1
  {
    hide SpacerCanExpand;
  }

  /** A column is shared as soon as one widget or layout reaches into it. */
  lemma SharedColumn(act: seq<LayoutChild>, col: int)
    ensures OnlySpacers(act, col)
            <==> !exists i :: 0 <= i < |act| && !act[i].kind.Spacer? && act[i].col <= col < act[i].col + act[i].colspan
  {
    if i :| 0 <= i < |act| && !act[i].kind.Spacer? && act[i].col <= col < act[i].col + act[i].colspan {
      assert Covers(Span(act[i].col, act[i].colspan), col);
    }
  }

  // ---- positions --------------------------------------------------------------------------------------------------------------------

  /** The first column starts at the left margin and the first row at the top one. */
  lemma GridStarts(layout: XmlNode, rect: Rect, i: nat)
    requires layout.Attr("class", "") == "QGridLayout" && i < |ActiveItems(layout)| && ValidCells(ActiveItems(layout))
    ensures ActiveItems(layout)[i].col == 0 ==> RectAt(layout, rect, i).x == rect.x + ReadLayoutProps(layout).left
    ensures ActiveItems(layout)[i].row == 0 ==> RectAt(layout, rect, i).y == rect.y + ReadLayoutProps(layout).top
  {
    hide ReadLayoutProps, ChildSize, FinalTracks, CellExtent, RowFixed, ColFixed, RowMinimum, ColMinimum, OnlySpacers, ActiveItems;
    assert "QGridLayout"[1] != "QVBoxLayout"[1] && "QGridLayout"[1] != "QFormLayout"[1] && "QGridLayout"[1] != "QHBoxLayout"[1];
    var act, lp := ActiveItems(layout), ReadLayoutProps(layout);
    AxesValid(act, SizesOf(act), Inner(rect, lp), lp);
  }

  // ---- what a grid measures --------------------------------------------------------------------------------------------------------------

  /** The sum of what is claimed of `n` tracks from `r` on. */
  function ClaimedFrom(spans: seq<Span>, extents: seq<int>, r: int, n: nat): int
    requires |spans| == |extents|
  {
    if n == 0 then 0 else ClaimedFrom(spans, extents, r, n - 1) + ClaimTo(spans, extents, r + n - 1, |spans|)
  }

  lemma {:induction false} ClaimIsLargest(spans: seq<Span>, extents: seq<int>, r: int, k: nat, i: nat)
    requires i < k <= |spans| == |extents| && Covers(spans[i], r)
    ensures ClaimTo(spans, extents, r, k) >= Shared(extents[i], spans[i].len)
  {
    if i < k - 1 { ClaimIsLargest(spans, extents, r, k - 1, i); }
  }

  /** What is claimed of a track is an equal share, rounded up, of one of the children that span it. */
  lemma {:induction false} ClaimIsAShare(spans: seq<Span>, extents: seq<int>, r: int, k: nat)
    requires k <= |spans| == |extents|
    ensures ClaimTo(spans, extents, r, k) == 0
            || exists i :: 0 <= i < k && Covers(spans[i], r) && ClaimTo(spans, extents, r, k) == Shared(extents[i], spans[i].len)
  {
    if k > 0 { ClaimIsAShare(spans, extents, r, k - 1); }
  }

  /** An equal share, rounded up: enough, and by less than a pixel per track. */
  lemma SharedIsLeast(extent: int, len: int)
    requires len >= 1 && extent >= 1
    ensures Shared(extent, len) * len >= extent > (Shared(extent, len) - 1) * len
  {
    var q := (extent + len - 1) / len;
    assert extent + len - 1 == len * q + (extent + len - 1) % len;
    assert (q - 1) * len == len * q - len;
  }

  lemma {:induction false} ClaimsGrow(spans: seq<Span>, extents: seq<int>, i: nat, n: nat)
    requires i < |spans| == |extents| && n <= spans[i].len
    ensures ClaimedFrom(spans, extents, spans[i].start, n) >= n * Shared(extents[i], spans[i].len)
  {
    if n > 0 {
      ClaimsGrow(spans, extents, i, n - 1);
      assert Covers(spans[i], spans[i].start + n - 1);
      ClaimIsLargest(spans, extents, spans[i].start + n - 1, |spans|, i);
      assert n * Shared(extents[i], spans[i].len) == (n - 1) * Shared(extents[i], spans[i].len) + Shared(extents[i], spans[i].len);
    }
  }

  /** The tracks as measured cover what every child measures. */
  lemma ClaimsCoverChild(spans: seq<Span>, extents: seq<int>, i: nat)
    requires i < |spans| == |extents| && spans[i].len >= 1
    ensures ClaimedFrom(spans, extents, spans[i].start, spans[i].len) >= extents[i]
  {
    ClaimsGrow(spans, extents, i, spans[i].len);
    var len := spans[i].len;
    if extents[i] >= 1 {
      SharedIsLeast(extents[i], len);
      assert len * Shared(extents[i], len) == Shared(extents[i], len) * len;
    } else {
      assert Shared(extents[i], len) == (len - 1) / len >= 0;
      MulMono(0, Shared(extents[i], len), len);
    }
  }

  /** A grid measures its claimed tracks, with its spacing between those that are used, and its margins on both sides. */
  lemma GridMeasure(layout: XmlNode)
    requires layout.Attr("class", "") == "QGridLayout" && ActiveItems(layout) != []
    ensures var act, lp, size := ActiveItems(layout), ReadLayoutProps(layout), LayoutSize(layout);
            var ws, hs := Widths(SizesOf(act)), Heights(SizesOf(act));
            && size.w == lp.left + ClaimsTo(ColSpans(act), ws, TrackCount(ColSpans(act)))
                           + lp.hSpacing * Max(0, CoveredTo(ColSpans(act), TrackCount(ColSpans(act))) - 1) + lp.right
            && size.h == lp.top + ClaimsTo(RowSpans(act), hs, TrackCount(RowSpans(act)))
                           + lp.vSpacing * Max(0, CoveredTo(RowSpans(act), TrackCount(RowSpans(act))) - 1) + lp.bottom
  {
    hide ChildSize, ReadLayoutProps, LayoutSize, ActiveItems;
    assert "QGridLayout"[1] != "QVBoxLayout"[1] && "QGridLayout"[1] != "QFormLayout"[1] && "QGridLayout"[1] != "QHBoxLayout"[1];
    BoxMeasure(layout);
  }
}
