/** The measuring and the placing pass agree on boxes. */
module BoxAgreement {
  import opened Arith
  import opened UiReader
  import opened Measure
  import opened Segments
  import opened BoxLayout
  import opened BoxRoom

  ghost predicate DisjointRects(a: Rect, b: Rect) {
    a.x + a.w <= b.x || b.x + b.w <= a.x || a.y + a.h <= b.y || b.y + b.h <= a.y
  }

  ghost predicate WithinRect(a: Rect, b: Rect) {
    b.x <= a.x && b.y <= a.y && a.x + a.w <= b.x + b.w && a.y + a.h <= b.y + b.h
  }

  /** The sizes are those the measuring pass gives to visible children of a layout. */
  ghost predicate MeasuredBy(act: seq<LayoutChild>, sizes: seq<Size>) {
    |act| == |sizes| && forall i :: 0 <= i < |act| ==> Genuine(act[i]) && !act[i].hidden && sizes[i] == ChildSize(act[i])
  }

  /** Every child measures at least one pixel in both directions. */
  predicate AllPositive(sizes: seq<Size>) { forall i :: 0 <= i < |sizes| ==> sizes[i].w >= 1 && sizes[i].h >= 1 }

  // ---- one rectangle of a run that fits ----------------------------------------------------------------------------

  predicate Roomy(lens: seq<int>, spacing: int, room: int) {
    (forall i :: 0 <= i < |lens| ==> lens[i] >= 1) && Sum(lens) + Gaps(spacing, |lens|) <= room
  }

  lemma RunFitsAt(lens: seq<int>, spacing: int, start: int, end: int, i: nat)
    requires i < |lens| && spacing >= 0 && Roomy(lens, spacing, end - start)
    ensures var p, e := PosAt(lens, spacing, start, end, i), ExtentAt(lens, spacing, start, end, i);
            && start <= p && p + e <= end && e == lens[i]
            && (i == |lens| - 1 && Sum(lens) + Gaps(spacing, |lens|) == end - start ==> p + e == end)
  {
    HasRoom(lens, spacing, end - start);
    SegmentFits(lens, spacing, start, end, i);
    if i == |lens| - 1 { RunUnclipped(lens, spacing, start, end, i); }
  }

  lemma HRectFits(lc: LayoutChild, size: Size, inner: Rect, spacing: int, lens: seq<int>, i: nat)
    requires i < |lens| && spacing >= 0 && Roomy(lens, spacing, inner.w)
    ensures var r := HBoxRect(lc, size, inner, spacing, lens, i);
            && inner.x <= r.x && r.x + r.w <= inner.x + inner.w && r.w == lens[i]
            && (i == |lens| - 1 && Sum(lens) + Gaps(spacing, |lens|) == inner.w ==> r.x + r.w == inner.x + inner.w)
  {
    RunFitsAt(lens, spacing, inner.x, inner.x + inner.w, i);
  }

  // ---- every input ------------------------------------------------------------------------------------------

  lemma OrderedDisjointV(a: LayoutChild, sa: Size, b: LayoutChild, sb: Size, inner: Rect, spacing: int, lens: seq<int>, i: nat, j: nat)
    requires i < j < |lens| && spacing >= 0
    ensures DisjointRects(VBoxRect(a, sa, inner, spacing, lens, i), VBoxRect(b, sb, inner, spacing, lens, j))
  {
    RunOrdered(lens, spacing, inner.y, inner.y + inner.h, i, j);
  }

  lemma OrderedDisjointH(a: LayoutChild, sa: Size, b: LayoutChild, sb: Size, inner: Rect, spacing: int, lens: seq<int>, i: nat, j: nat)
    requires i < j < |lens| && spacing >= 0
    ensures DisjointRects(HBoxRect(a, sa, inner, spacing, lens, i), HBoxRect(b, sb, inner, spacing, lens, j))
  {
    RunOrdered(lens, spacing, inner.x, inner.x + inner.w, i, j);
  }

  /** With a spacing that is not negative, the rectangles of a vertical box never overlap. */
  lemma VBoxDisjoint(act: seq<LayoutChild>, sizes: seq<Size>, inner: Rect, spacing: int, i: nat, j: nat)
    requires |act| == |sizes| && i < j < |act| && spacing >= 0
    ensures DisjointRects(VBoxRectAt(act, sizes, inner, spacing, i), VBoxRectAt(act, sizes, inner, spacing, j))
  {
    OrderedDisjointV(act[i], sizes[i], act[j], sizes[j], inner, spacing, VLengths(act, sizes, inner.h, spacing), i, j);
  }

  lemma HBoxDisjoint(act: seq<LayoutChild>, sizes: seq<Size>, inner: Rect, spacing: int, i: nat, j: nat)
    requires |act| == |sizes| && i < j < |act| && spacing >= 0
    ensures DisjointRects(HBoxRectAt(act, sizes, inner, spacing, i), HBoxRectAt(act, sizes, inner, spacing, j))
  {
    OrderedDisjointH(act[i], sizes[i], act[j], sizes[j], inner, spacing, HLengths(act, sizes, inner.w, spacing), i, j);
  }

  /**
   For every input: neighbours are separated by exactly the spacing, every child is at least one
   pixel high and wide, and a child that starts before the far inner edge does not cross it.
   */
  lemma VBoxRun(act: seq<LayoutChild>, sizes: seq<Size>, inner: Rect, spacing: int, i: nat)
    requires |act| == |sizes| && i < |act|
    ensures var r := VBoxRectAt(act, sizes, inner, spacing, i);
            && (i == 0 ==> r.y == inner.y) && r.x == inner.x && r.h >= 1 && r.w >= 1
            && (r.y < inner.y + inner.h ==> r.y + r.h <= inner.y + inner.h)
            && (i + 1 < |act| ==> VBoxRectAt(act, sizes, inner, spacing, i + 1).y == r.y + r.h + spacing)
  {
    RunSeparated(VLengths(act, sizes, inner.h, spacing), spacing, inner.y, inner.y + inner.h, i);
  }

  lemma HBoxRun(act: seq<LayoutChild>, sizes: seq<Size>, inner: Rect, spacing: int, i: nat)
    requires |act| == |sizes| && i < |act|
    ensures var r := HBoxRectAt(act, sizes, inner, spacing, i);
            && (i == 0 ==> r.x == inner.x) && r.w >= 1 && r.h >= 1
            && (r.x < inner.x + inner.w ==> r.x + r.w <= inner.x + inner.w)
            && (i + 1 < |act| ==> HBoxRectAt(act, sizes, inner, spacing, i + 1).x == r.x + r.w + spacing)
  {
    RunSeparated(HLengths(act, sizes, inner.w, spacing), spacing, inner.x, inner.x + inner.w, i);
  }

  // ---- shrinking a horizontal box -----------------------------------------------------------------------------

  lemma {:induction false} FloorBelowMins(sizes: seq<int>, mins: seq<int>, k: nat)
    requires k <= |sizes| == |mins|
    ensures FloorTo(sizes, mins, k) <= SumTo(mins, k)
  {
    if k > 0 { FloorBelowMins(sizes, mins, k - 1); }
  }

  lemma HLengthsShrink(act: seq<LayoutChild>, sizes: seq<Size>, inner: int, spacing: int)
    requires |act| == |sizes| && act != [] && spacing >= 0
    requires forall i :: 0 <= i < |act| ==> Spread(HorizontalSlots(act, sizes), inner, spacing)[i] >= 1
    requires Sum(MinWidths(act)) + Gaps(spacing, |act|) <= inner
    ensures var lens := HLengths(act, sizes, inner, spacing);
            Roomy(lens, spacing, inner)
  {
    var wanted, mins := Spread(HorizontalSlots(act, sizes), inner, spacing), MinWidths(act);
    SumToMonotone(mins, 1, |mins|);
    assert SumTo(mins, 1) == mins[0];
    FittedExact(wanted, mins, Max(1, inner - Gaps(spacing, |act|)));
    FloorBelowMins(wanted, mins, |act|);
  }

  /**
   A horizontal box whose segments are at least one pixel and whose minimums and spacing fit keeps
   every child inside, whatever the segments wanted.
   */
  lemma HBoxMinimumsFit(act: seq<LayoutChild>, sizes: seq<Size>, inner: Rect, spacing: int, i: nat)
    requires |act| == |sizes| && i < |act| && spacing >= 0
    requires forall k :: 0 <= k < |act| ==> Spread(HorizontalSlots(act, sizes), inner.w, spacing)[k] >= 1
    requires Sum(MinWidths(act)) + Gaps(spacing, |act|) <= inner.w
    ensures var r := HBoxRectAt(act, sizes, inner, spacing, i); inner.x <= r.x && r.x + r.w <= inner.x + inner.w
  {
    HLengthsShrink(act, sizes, inner.w, spacing);
    HRectFits(act[i], sizes[i], inner, spacing, HLengths(act, sizes, inner.w, spacing), i);
  }

  // ---- the exact room along the axis ----------------------------------------------------------------------------------

  /** Neither an expanding spacer nor a child that measures nothing. */
  predicate FixedInVBox(lc: LayoutChild, size: Size) { if lc.kind.Spacer? then !SpacerCanExpand(lc) else size.h > 0 }

  predicate FixedInHBox(lc: LayoutChild, size: Size) {
    if lc.kind.Spacer? then !SpacerCanExpand(lc) else !FlexibleHorizontally(lc) && size.w > 0
  }

  lemma VFixed(act: seq<LayoutChild>, sizes: seq<Size>)
    requires MeasuredBy(act, sizes)
    ensures FixedMeasured(VerticalSlots(act, sizes), Heights(sizes)) && FromChildren(VerticalSlots(act, sizes))
    ensures forall i :: 0 <= i < |act| ==> (VerticalSlots(act, sizes)[i].counted <==> !FixedInVBox(act[i], sizes[i]))
  {
    SlotsFromChildren(act, sizes);
  }

  lemma HFixed(act: seq<LayoutChild>, sizes: seq<Size>)
    requires MeasuredBy(act, sizes)
    ensures FixedMeasured(HorizontalSlots(act, sizes), Widths(sizes)) && FromChildren(HorizontalSlots(act, sizes))
    ensures forall i :: 0 <= i < |act| ==> (HorizontalSlots(act, sizes)[i].counted <==> !FixedInHBox(act[i], sizes[i]))
  {
    hide FlexibleHorizontally;
    SlotsFromChildren(act, sizes);
  }

  /** Along a vertical box every child is inside and every fixed one has exactly its measured height. */
  predicate VBoxHolds(act: seq<LayoutChild>, sizes: seq<Size>, inner: Rect, spacing: int)
    requires |act| == |sizes|
  {
    forall i :: 0 <= i < |act| ==> VHolds(act[i], sizes[i], inner, VBoxRectAt(act, sizes, inner, spacing, i))
  }

  predicate VHolds(lc: LayoutChild, size: Size, inner: Rect, r: Rect) {
    inner.y <= r.y && r.y + r.h <= inner.y + inner.h && (FixedInVBox(lc, size) ==> r.h == size.h)
  }

  predicate VBoxRoom(act: seq<LayoutChild>, sizes: seq<Size>, room: int, spacing: int)
    requires |act| == |sizes|
  {
    BoxFits(VerticalSlots(act, sizes), room, spacing)
  }

  /** The exact condition, for children of any measure and a room of any size. */
  lemma VBoxAgrees(act: seq<LayoutChild>, sizes: seq<Size>, inner: Rect, spacing: int)
    requires MeasuredBy(act, sizes) && spacing >= 0 && act != []
    ensures VBoxHolds(act, sizes, inner, spacing) <==> VBoxRoom(act, sizes, inner.h, spacing)
  {
    hide PosAt, ExtentAt, Spread, BoxFits, VerticalSlots, ChildSize, FixedInVBox, ResolvedVBoxWidth;
    var slots, lens, end := VerticalSlots(act, sizes), VLengths(act, sizes, inner.h, spacing), inner.y + inner.h;
    VFixed(act, sizes);
    SpreadHolds(slots, spacing, inner.y, end);
    forall i | 0 <= i < |act|
      ensures VHolds(act[i], sizes[i], inner, VBoxRectAt(act, sizes, inner, spacing, i))
              <==> SegmentHolds(slots[i], PosAt(lens, spacing, inner.y, end, i), ExtentAt(lens, spacing, inner.y, end, i), inner.y, end)
    {
      assert !slots[i].counted ==> slots[i].size == Heights(sizes)[i];
    }
  }

  /**
   In its measured height a vertical box holds its children if and only if no fixed spacer is empty and the
   flexible children measure a pixel each on average; so it does when every child measures something.
   */
  lemma VMeasureSuffices(act: seq<LayoutChild>, sizes: seq<Size>, spacing: int)
    requires MeasuredBy(act, sizes)
    ensures var slots, hs := VerticalSlots(act, sizes), Heights(sizes);
            && (VBoxRoom(act, sizes, Sum(hs) + Gaps(spacing, |act|), spacing)
                <==> FixedShow(slots) && CountedTo(slots, |slots|) <= CountedMeasure(slots, hs, |slots|))
            && (AllPositive(sizes) ==> VBoxRoom(act, sizes, Sum(hs) + Gaps(spacing, |act|), spacing))
  {
    VFixed(act, sizes);
    MeasuredRoom(VerticalSlots(act, sizes), Heights(sizes), spacing);
    if AllPositive(sizes) { PositiveMeasures(VerticalSlots(act, sizes), Heights(sizes), |act|); }
  }

  /** The exact condition for the run to end at the far edge. */
  lemma VBoxFills(act: seq<LayoutChild>, sizes: seq<Size>, inner: Rect, spacing: int)
    requires MeasuredBy(act, sizes) && spacing >= 0 && act != [] && VBoxRoom(act, sizes, inner.h, spacing)
    ensures var r := VBoxRectAt(act, sizes, inner, spacing, |act| - 1);
            r.y + r.h == inner.y + inner.h <==> EndsAtEdge(VerticalSlots(act, sizes), inner.h, spacing)
  {
    hide ChildSize, EndsAtEdge, VerticalSlots, Spread, PosAt, ExtentAt, ResolvedVBoxWidth, BoxFits;
    VFixed(act, sizes);
    ShownSum(VerticalSlots(act, sizes), inner.h, spacing);
    ShownFits(VLengths(act, sizes, inner.h, spacing), spacing, inner.y, inner.y + inner.h, |act| - 1);
  }

  predicate HBoxHolds(act: seq<LayoutChild>, sizes: seq<Size>, inner: Rect, spacing: int)
    requires |act| == |sizes|
  {
    forall i :: 0 <= i < |act| ==> HHolds(act[i], sizes[i], inner, HBoxRectAt(act, sizes, inner, spacing, i))
  }

  predicate HHolds(lc: LayoutChild, size: Size, inner: Rect, r: Rect) {
    inner.x <= r.x && r.x + r.w <= inner.x + inner.w && (FixedInHBox(lc, size) ==> r.w == size.w)
  }

  predicate HBoxRoom(act: seq<LayoutChild>, sizes: seq<Size>, room: int, spacing: int)
    requires |act| == |sizes|
  {
    BoxFits(HorizontalSlots(act, sizes), room, spacing)
  }

  /** In the exact room nothing in a horizontal box is shrunk. */
  lemma HLengthsAgree(act: seq<LayoutChild>, sizes: seq<Size>, inner: int, spacing: int)
    requires MeasuredBy(act, sizes) && HBoxRoom(act, sizes, inner, spacing)
    ensures HLengths(act, sizes, inner, spacing) == Spread(HorizontalSlots(act, sizes), inner, spacing)
  {
    hide Spread, Fitted, ChildSize;
    HFixed(act, sizes);
    NothingShrunk(HorizontalSlots(act, sizes), MinWidths(act), inner, spacing);
  }

  /** The exact condition for a horizontal box, shrinking included. */
  lemma HBoxAgrees(act: seq<LayoutChild>, sizes: seq<Size>, inner: Rect, spacing: int)
    requires MeasuredBy(act, sizes) && spacing >= 0 && act != []
    ensures HBoxHolds(act, sizes, inner, spacing) <==> HBoxRoom(act, sizes, inner.w, spacing)
  {
    hide PosAt, ExtentAt, Spread, Fitted, BoxFits, HorizontalSlots, ChildSize, FixedInHBox, ResolvedHBoxHeight;
    var slots, lens, end := HorizontalSlots(act, sizes), HLengths(act, sizes, inner.w, spacing), inner.x + inner.w;
    HFixed(act, sizes);
    SpreadHolds(slots, spacing, inner.x, end);
    if HBoxRoom(act, sizes, inner.w, spacing) { HLengthsAgree(act, sizes, inner.w, spacing); }
    else if RunHolds(slots, lens, spacing, inner.x, end) { HoldsNeedsRoom(slots, lens, spacing, inner.x, end); }
    forall i | 0 <= i < |act|
      ensures HHolds(act[i], sizes[i], inner, HBoxRectAt(act, sizes, inner, spacing, i))
              <==> SegmentHolds(slots[i], PosAt(lens, spacing, inner.x, end, i), ExtentAt(lens, spacing, inner.x, end, i), inner.x, end)
    {
      assert !slots[i].counted ==> slots[i].size == Widths(sizes)[i];
    }
  }

  lemma HMeasureSuffices(act: seq<LayoutChild>, sizes: seq<Size>, spacing: int)
    requires MeasuredBy(act, sizes)
    ensures var slots, ws := HorizontalSlots(act, sizes), Widths(sizes);
            && (HBoxRoom(act, sizes, Sum(ws) + Gaps(spacing, |act|), spacing)
                <==> FixedShow(slots) && CountedTo(slots, |slots|) <= CountedMeasure(slots, ws, |slots|))
            && (AllPositive(sizes) ==> HBoxRoom(act, sizes, Sum(ws) + Gaps(spacing, |act|), spacing))
  {
    hide FlexibleHorizontally;
    HFixed(act, sizes);
    MeasuredRoom(HorizontalSlots(act, sizes), Widths(sizes), spacing);
    if AllPositive(sizes) { PositiveMeasures(HorizontalSlots(act, sizes), Widths(sizes), |act|); }
  }

  lemma HBoxFills(act: seq<LayoutChild>, sizes: seq<Size>, inner: Rect, spacing: int)
    requires MeasuredBy(act, sizes) && spacing >= 0 && act != [] && HBoxRoom(act, sizes, inner.w, spacing)
    ensures var r := HBoxRectAt(act, sizes, inner, spacing, |act| - 1);
            r.x + r.w == inner.x + inner.w <==> EndsAtEdge(HorizontalSlots(act, sizes), inner.w, spacing)
  {
    hide ChildSize, EndsAtEdge, HLengths, HorizontalSlots, Spread, PosAt, ExtentAt, ResolvedHBoxHeight, BoxFits;
    HFixed(act, sizes);
    HLengthsAgree(act, sizes, inner.w, spacing);
    ShownSum(HorizontalSlots(act, sizes), inner.w, spacing);
    ShownFits(HLengths(act, sizes, inner.w, spacing), spacing, inner.x, inner.x + inner.w, |act| - 1);
  }

  // ---- what a child gets in the exact room and in any larger one ---------------------------------------------------------

  /** A child of a vertical box has its share, or a pixel. */
  lemma VExtent(act: seq<LayoutChild>, sizes: seq<Size>, inner: Rect, spacing: int, i: nat)
    requires MeasuredBy(act, sizes) && spacing >= 0 && i < |act| && VBoxRoom(act, sizes, inner.h, spacing)
    ensures VBoxRectAt(act, sizes, inner, spacing, i).h == Max(1, VLengths(act, sizes, inner.h, spacing)[i])
  {
    hide ChildSize, VerticalSlots, Spread, PosAt, ExtentAt, ResolvedVBoxWidth, BoxFits;
    VFixed(act, sizes);
    ShownSum(VerticalSlots(act, sizes), inner.h, spacing);
    ShownFits(VLengths(act, sizes, inner.h, spacing), spacing, inner.y, inner.y + inner.h, i);
  }

  lemma HExtent(act: seq<LayoutChild>, sizes: seq<Size>, inner: Rect, spacing: int, i: nat)
    requires MeasuredBy(act, sizes) && spacing >= 0 && i < |act| && HBoxRoom(act, sizes, inner.w, spacing)
    ensures HBoxRectAt(act, sizes, inner, spacing, i).w == Max(1, HLengths(act, sizes, inner.w, spacing)[i])
  {
    hide ChildSize, HLengths, HorizontalSlots, Spread, PosAt, ExtentAt, ResolvedHBoxHeight, BoxFits;
    HFixed(act, sizes);
    HLengthsAgree(act, sizes, inner.w, spacing);
    ShownSum(HorizontalSlots(act, sizes), inner.w, spacing);
    ShownFits(HLengths(act, sizes, inner.w, spacing), spacing, inner.x, inner.x + inner.w, i);
  }

  /**
   The exact condition for a flexible child that must have some width: if its share of the exact room is
   that much, so is its share of any larger room.
   */
  lemma FlexibleGetsMeasure(act: seq<LayoutChild>, sizes: seq<Size>, room: int, spacing: int, i: nat, measure: int)
    requires MeasuredBy(act, sizes) && i < |act| && HBoxRoom(act, sizes, room, spacing)
    ensures HLengths(act, sizes, room, spacing)[i] >= measure
            <==> forall inner :: inner >= room ==> HLengths(act, sizes, inner, spacing)[i] >= measure
  {
    hide HLengths, Spread, ChildSize;
    HFixed(act, sizes);
    HLengthsAgree(act, sizes, room, spacing);
    forall inner | inner >= room
      ensures HLengths(act, sizes, inner, spacing)[i] >= HLengths(act, sizes, room, spacing)[i]
    {
      HLengthsAgree(act, sizes, inner, spacing);
      SpreadGrows(HorizontalSlots(act, sizes), room, inner, spacing, i);
    }
  }

  // ---- measured space suffices across the axis -----------------------------------------------------------------------

  /** A child of a vertical box is never wider than the inner width once that covers its measure. */
  lemma VBoxWidthFits(lc: LayoutChild, available: int)
    requires Genuine(lc) && !lc.hidden && available >= 1
    requires ChildSize(lc).w <= available
    ensures 1 <= ResolvedVBoxWidth(lc, ChildSize(lc), available) <= available
  {
    if lc.kind.Widget? {
      assert WidgetSize(lc.node).w == ChildSize(lc).w;
    }
  }

  lemma HBoxHeightFits(lc: LayoutChild, available: int)
    requires Genuine(lc) && !lc.hidden && available >= 1
    requires ChildSize(lc).h <= available
    ensures 1 <= ResolvedHBoxHeight(lc, ChildSize(lc), available) <= available
    ensures lc.kind.Layout? && ChildSize(lc).h >= 1 ==> ResolvedHBoxHeight(lc, ChildSize(lc), available) == ChildSize(lc).h
  {
    if lc.kind.Widget? { assert WidgetSize(lc.node).h == ChildSize(lc).h; }
  }
}
