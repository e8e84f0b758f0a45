/**
 Measuring and placing agree on whole trees: in a regular tree every layout that is given what it
 measures holds its children and gives each at least what the layout in it measures.
 */
module TreeFit {
  import opened Arith
  import opened Text
  import opened Xml
  import opened UiReader
  import opened Measure
  import opened BoxLayout
  import opened BoxRoom
  import opened BoxAgreement
  import opened GridLayout
  import opened GridAgreement
  import opened Placement
  import opened ImportTree
  import opened TreeRoom

  // ---- what a child holds -----------------------------------------------------------------------------------------------------

  function ContentSize(lc: LayoutChild): Size {
    if Content(lc).Some? then LayoutSize(Content(lc).value) else ZERO
  }

  predicate Admits(max: Option<int>, extent: int) { max.None? || max.value >= extent }

  /** A child's maximum width, if it has one, leaves room for the layout it holds. */
  predicate AdmitsWidth(lc: LayoutChild) { Admits(CrossConstraints(lc).maxW, ContentSize(lc).w) }

  predicate AdmitsHeight(lc: LayoutChild) { Admits(CrossConstraints(lc).maxH, ContentSize(lc).h) }

  /** The exact condition under which a widget measures at least its layout: its maximum sizes admit it. */
  lemma WidgetCoversLayout(node: XmlNode, inner: Size)
    ensures inner.w >= 1 ==> (AdjustWidget(node, inner).w >= inner.w <==> Admits(ReadSizeConstraints(node).maxW, inner.w))
    ensures inner.h >= 1 ==> (AdjustWidget(node, inner).h >= inner.h <==> Admits(ReadSizeConstraints(node).maxH, inner.h))
  {
    hide ReadSizeConstraints;
  }

  /** A child measures at least what it holds, or that is no more than the pixel every child gets. */
  lemma SizeCoversContent(lc: LayoutChild)
    requires Genuine(lc) && !lc.hidden
    ensures AdmitsWidth(lc) ==> ContentSize(lc).w <= Max(1, ChildSize(lc).w)
    ensures AdmitsHeight(lc) ==> ContentSize(lc).h <= Max(1, ChildSize(lc).h)
  {
    hide LayoutSize, AdjustWidget, ReadSizeConstraints;
    if lc.kind.Widget? && Content(lc).Some? {
      WidgetCoversLayout(lc.node, LayoutSize(Content(lc).value));
    }
  }

  // ---- regular trees ------------------------------------------------------------------------------------------------------------

  /** The room inside the margins of a layout that is given what it measures. */
  function OwnRoom(layout: XmlNode): Rect { RoomIn(LayoutSize(layout), ReadLayoutProps(layout)) }

  predicate VerticalSuits(act: seq<LayoutChild>, sizes: seq<Size>, room: Rect, spacing: int)
    requires |act| == |sizes|
  {
    && VBoxRoom(act, sizes, room.h, spacing)
    && forall i :: 0 <= i < |act| ==> AdmitsWidth(act[i]) && AdmitsHeight(act[i])
  }

  /** The share of a child that holds a layout covers it, whether the child is flexible or not. */
  predicate HorizontalSuits(act: seq<LayoutChild>, sizes: seq<Size>, room: Rect, spacing: int)
    requires |act| == |sizes|
  {
    && HBoxRoom(act, sizes, room.w, spacing)
    && forall i :: 0 <= i < |act| ==>
         AdmitsHeight(act[i]) && ContentSize(act[i]).w <= Max(1, HLengths(act, sizes, room.w, spacing)[i])
  }

  /** The tracks of a child that holds a layout are long enough for it. */
  predicate GridSuits(act: seq<LayoutChild>, sizes: seq<Size>, room: Rect, lp: LayoutProps)
    requires |act| == |sizes|
  {
    && GridFits(act, sizes, room, lp)
    && (AxesValid(act, sizes, room, lp);
        forall i :: 0 <= i < |act| && Content(act[i]).Some? ==>
          && LongEnough(RowAxis(act, sizes, room, lp.vSpacing), i, ContentSize(act[i]).h)
          && LongEnough(ColAxis(act, room, lp.hSpacing), i, ContentSize(act[i]).w))
  }

  /** The conditions under which its measured size suffices for a layout and for what its children hold. */
  predicate MeasureSuits(layout: XmlNode) {
    var cls, lp, act := layout.Attr("class", ""), ReadLayoutProps(layout), ActiveItems(layout);
    && NonNegativeProps(lp)
    && (act != [] ==>
          && LayoutSize(layout).w > lp.left && LayoutSize(layout).h > lp.top
          && (if IsVertical(cls) then VerticalSuits(act, SizesOf(act), OwnRoom(layout), lp.vSpacing)
              else if IsHorizontal(cls) then HorizontalSuits(act, SizesOf(act), OwnRoom(layout), lp.hSpacing)
              else IsGrid(cls) && GridSuits(act, SizesOf(act), OwnRoom(layout), lp)))
  }

  /** A tree of boxes and grids, through nested layouts and the layouts of widgets, that its measures suit. */
  ghost predicate RegularTree(layout: XmlNode)
    decreases layout
  {
    && MeasureSuits(layout)
    && forall i :: 0 <= i < |ActiveItems(layout)| && Content(ActiveItems(layout)[i]).Some? ==>
         (ContentSmaller(ActiveItems(layout)[i], layout);
          RegularTree(Content(ActiveItems(layout)[i]).value))
  }

  lemma ItemsNotEmpty(layout: XmlNode)
    requires ActiveItems(layout) != []
    ensures LayoutItems(layout) != []
  {}

  /** Across a box the measured room covers every child. */
  lemma RoomAcross(layout: XmlNode, i: nat)
    requires i < |ActiveItems(layout)|
    ensures IsVertical(layout.Attr("class", "")) ==> SizesOf(ActiveItems(layout))[i].w <= OwnRoom(layout).w
    ensures IsHorizontal(layout.Attr("class", "")) ==> SizesOf(ActiveItems(layout))[i].h <= OwnRoom(layout).h
  {
    hide ChildSize, ReadLayoutProps;
    var lp, act := ReadLayoutProps(layout), ActiveItems(layout);
    var sizes := SizesOf(act);
    MeasuredSizes(layout);
    ItemsNotEmpty(layout);
    assert LayoutSize(layout) == Combine(layout.Attr("class", ""), lp, act, sizes);
    assert Widths(sizes)[i] == sizes[i].w && Heights(sizes)[i] == sizes[i].h;
  }

  // ---- one child ------------------------------------------------------------------------------------------------------------------

  /** The width of a child across a vertical box covers what it holds. */
  lemma VWidthCovers(lc: LayoutChild, available: int)
    requires Genuine(lc) && !lc.hidden && AdmitsWidth(lc) && available >= 1 && ChildSize(lc).w <= available
    ensures ResolvedVBoxWidth(lc, ChildSize(lc), available) >= ContentSize(lc).w
  {
    hide ReadSizeConstraints, LayoutSize, ContentSize, ChildSize;
    SizeCoversContent(lc);
    VBoxWidthFits(lc, available);
    if lc.kind.Spacer? { SpacerHoldsNothing(lc); }
  }

  lemma HHeightCovers(lc: LayoutChild, available: int)
    requires Genuine(lc) && !lc.hidden && AdmitsHeight(lc) && available >= 1 && ChildSize(lc).h <= available
    ensures ResolvedHBoxHeight(lc, ChildSize(lc), available) >= ContentSize(lc).h
  {
    hide ReadSizeConstraints, LayoutSize, ContentSize, ChildSize;
    SizeCoversContent(lc);
    HBoxHeightFits(lc, available);
    if lc.kind.Spacer? { SpacerHoldsNothing(lc); }
  }

  lemma SpacerHoldsNothing(lc: LayoutChild)
    requires lc.kind.Spacer?
    ensures ContentSize(lc) == ZERO
  {
  }

  lemma VerticalSuffices(act: seq<LayoutChild>, sizes: seq<Size>, room: Rect, spacing: int, i: nat)
    requires MeasuredBy(act, sizes) && i < |act| && VerticalSuits(act, sizes, room, spacing)
    requires room.w >= 1 && sizes[i].w <= room.w
    ensures ContentSize(act[i]).w <= ResolvedVBoxWidth(act[i], sizes[i], room.w) <= room.w
    ensures ContentSize(act[i]).h <= Max(1, VLengths(act, sizes, room.h, spacing)[i])
  {
    hide ChildSize, ContentSize, ResolvedVBoxWidth, AdmitsWidth, AdmitsHeight, FixedInVBox;
    VBoxWidthFits(act[i], room.w);
    VWidthCovers(act[i], room.w);
    SizeCoversContent(act[i]);
    VFixed(act, sizes);
    if FixedInVBox(act[i], sizes[i]) {
      FixedKept(VerticalSlots(act, sizes), room.h, spacing, i);
      assert VerticalSlots(act, sizes)[i].size == Heights(sizes)[i];
    } else {
      FlexibleHoldsLittle(act[i], sizes[i]);
    }
  }

  lemma FlexibleHoldsLittle(lc: LayoutChild, size: Size)
    requires !FixedInVBox(lc, size) && ContentSize(lc).h <= Max(1, size.h)
    ensures ContentSize(lc).h <= 1
  {
    hide LayoutSize;
  }

  lemma HorizontalSuffices(act: seq<LayoutChild>, sizes: seq<Size>, room: Rect, spacing: int, i: nat)
    requires MeasuredBy(act, sizes) && i < |act| && HorizontalSuits(act, sizes, room, spacing)
    requires room.h >= 1 && sizes[i].h <= room.h
    ensures ContentSize(act[i]).h <= ResolvedHBoxHeight(act[i], sizes[i], room.h) <= room.h
    ensures ContentSize(act[i]).w <= Max(1, HLengths(act, sizes, room.w, spacing)[i])
  {
    hide ChildSize, ContentSize, ResolvedHBoxHeight, AdmitsHeight, HLengths;
    HBoxHeightFits(act[i], room.h);
    HHeightCovers(act[i], room.h);
  }

  lemma GridSuffices(act: seq<LayoutChild>, sizes: seq<Size>, room: Rect, lp: LayoutProps, i: nat)
    requires |act| == |sizes| && i < |act| && lp.hSpacing >= 0 && lp.vSpacing >= 0 && GridSuits(act, sizes, room, lp)
    ensures RowAxis(act, sizes, room, lp.vSpacing).Valid() && ColAxis(act, room, lp.hSpacing).Valid()
    ensures ContentSize(act[i]).h <= LeastExtent(RowAxis(act, sizes, room, lp.vSpacing), i)
    ensures ContentSize(act[i]).w <= LeastExtent(ColAxis(act, room, lp.hSpacing), i)
  {
    hide RowAxis, ColAxis, ContentSize, CellExtent, LeastExtent, LongEnough, Content, MinimumsFit;
    AxesValid(act, sizes, room, lp);
    AxisFields(act, sizes, room, lp);
    var rows, cols := RowAxis(act, sizes, room, lp.vSpacing), ColAxis(act, room, lp.hSpacing);
    if Content(act[i]).None? {
      NothingHeld(act[i]);
      LeastPositive(rows, i);
      LeastPositive(cols, i);
    } else {
      LeastExtentExact(rows, i, ContentSize(act[i]).h);
      LeastExtentExact(cols, i, ContentSize(act[i]).w);
    }
  }

  lemma NothingHeld(lc: LayoutChild)
    requires Content(lc).None?
    ensures ContentSize(lc) == ZERO
  {
  }

  lemma LeastPositive(ax: Axis, i: nat)
    requires ax.Valid() && i < |ax.spans|
    ensures LeastExtent(ax, i) >= 1
  {
    hide TrackPos, WantedRoom;
  }

  lemma ClassSuffices(layout: XmlNode, i: nat)
    requires MeasureSuits(layout) && i < |ActiveItems(layout)|
    ensures ClassHolds(layout.Attr("class", ""), ReadLayoutProps(layout), ActiveItems(layout), SizesOf(ActiveItems(layout)), OwnRoom(layout))
    ensures Holds(layout, LayoutSize(layout))
    ensures SizeCovers(Given(layout, LayoutSize(layout), i), ContentSize(ActiveItems(layout)[i]))
  {
    hide ReadLayoutProps, LayoutSize, ActiveItems, ContentSize, ChildSize, VBoxRoom, HBoxRoom, ResolvedVBoxWidth, ResolvedHBoxHeight, VLengths, HLengths;
    hide RowAxis, ColAxis, LeastExtent, LongEnough, MinimumsFit, AdmitsWidth, AdmitsHeight, Content;
    var cls, lp, act := layout.Attr("class", ""), ReadLayoutProps(layout), ActiveItems(layout);
    var sizes, room := SizesOf(act), OwnRoom(layout);
    MeasuredSizes(layout);
    forall j | 0 <= j < |act|
      ensures IsVertical(cls) ==> ResolvedVBoxWidth(act[j], sizes[j], room.w) <= room.w
      ensures !IsVertical(cls) && IsHorizontal(cls) ==> ResolvedHBoxHeight(act[j], sizes[j], room.h) <= room.h
    {
      RoomAcross(layout, j);
      if IsVertical(cls) { VerticalSuffices(act, sizes, room, lp.vSpacing, j); }
      else if IsHorizontal(cls) { HorizontalSuffices(act, sizes, room, lp.hSpacing, j); }
    }
    RoomAcross(layout, i);
    if IsVertical(cls) { VerticalSuffices(act, sizes, room, lp.vSpacing, i); }
    else if IsHorizontal(cls) { HorizontalSuffices(act, sizes, room, lp.hSpacing, i); }
    else { GridSuffices(act, sizes, room, lp, i); }
  }

  /** A child of a regular layout that has its measured size is inside it and has room for the layout it holds. */
  lemma ChildFits(layout: XmlNode, rect: Rect, i: nat)
    requires MeasureSuits(layout) && i < |ActiveItems(layout)| && SizeCovers(SizeOf(rect), LayoutSize(layout))
    ensures WithinRect(RectAt(layout, rect, i), rect)
    ensures SizeCovers(SizeOf(RectAt(layout, rect, i)), ContentSize(ActiveItems(layout)[i]))
  {
    hide MeasureSuits, Holds, Given, LayoutSize, RectAt, ActiveItems, ContentSize;
    ClassSuffices(layout, i);
    GivenGrows(layout, LayoutSize(layout), SizeOf(rect));
    ChildHas(layout, rect, i);
  }

  // ---- whole trees ----------------------------------------------------------------------------------------------------------------

  lemma HeldSize(lc: LayoutChild)
    requires Content(lc).Some?
    ensures ContentSize(lc) == LayoutSize(Content(lc).value)
  {
  }

  lemma EmptyHolds(layout: XmlNode)
    requires MeasureSuits(layout) && ActiveItems(layout) == []
    ensures Holds(layout, LayoutSize(layout))
  {
  }

  /** A regular tree holds, at every level, when it is given what it measures. */
  lemma {:induction false} MeasureHolds(layout: XmlNode)
    requires RegularTree(layout)
    ensures HoldsDeep(layout, LayoutSize(layout))
    decreases layout
  {
    hide MeasureSuits, Holds, Given, LayoutSize, Content, ActiveItems;
    if ActiveItems(layout) == [] { EmptyHolds(layout); } else { ClassSuffices(layout, 0); }
    forall i | 0 <= i < |ActiveItems(layout)| && Content(ActiveItems(layout)[i]).Some?
      ensures (ContentSmaller(ActiveItems(layout)[i], layout);
               HoldsDeep(Content(ActiveItems(layout)[i]).value, Given(layout, LayoutSize(layout), i)))
    {
      ContentSmaller(ActiveItems(layout)[i], layout);
      ClassSuffices(layout, i);
      HeldSize(ActiveItems(layout)[i]);
      MeasureHolds(Content(ActiveItems(layout)[i]).value);
      HoldsMore(Content(ActiveItems(layout)[i]).value, ContentSize(ActiveItems(layout)[i]), Given(layout, LayoutSize(layout), i));
    }
  }

  /**
   A regular tree placed in at least its measured size: every element written, however deeply nested in
   layouts and widgets, lies inside what holds it, and no two elements of one layout overlap.
   */
  lemma TreeFits(layout: XmlNode, rect: Rect)
    requires RegularTree(layout) && SizeCovers(SizeOf(rect), LayoutSize(layout))
    ensures FitsDeep(layout, rect)
  {
    MeasureHolds(layout);
    MoreRoomFits(layout, LayoutSize(layout), rect);
  }
}
