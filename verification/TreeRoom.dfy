/**
 Whole trees in any room: what the children of a layout are surely given, that more room never takes any
 of it away, and that a tree which holds in some room fits, at every level, in every larger one.
 */
module TreeRoom {
  import opened Arith
  import opened Text
  import opened Xml
  import opened UiReader
  import opened Measure
  import opened Segments
  import opened BoxLayout
  import opened BoxRoom
  import opened BoxAgreement
  import opened GridLayout
  import opened GridAgreement
  import opened Placement
  import opened ImportTree

  predicate NonNegativeProps(lp: LayoutProps) {
    lp.left >= 0 && lp.top >= 0 && lp.right >= 0 && lp.bottom >= 0 && lp.hSpacing >= 0 && lp.vSpacing >= 0
  }

  // ---- what a child holds -----------------------------------------------------------------------------------------------------

  /** The layout placed in a child's rectangle: a nested layout itself, or the layout of a widget that is not a splitter. */
  function Content(lc: LayoutChild): (r: Option<XmlNode>)
    ensures r.Some? ==> r.value == lc.node || r.value in lc.node.children
  {
    match lc.kind
    case Layout => Some(lc.node)
    case Widget => if lc.node.Attr("class", "QWidget") == "QSplitter" then None else lc.node.FirstChild("layout")
    case Spacer => None
  }

  lemma ContentSmaller(lc: LayoutChild, owner: XmlNode)
    requires Inside(lc.node, owner.children) && Content(lc).Some?
    ensures Content(lc).value < owner
  {
    InsideSmaller(lc.node, owner);
    if Content(lc).value in lc.node.children {
      var j :| 0 <= j < |lc.node.children| && lc.node.children[j] == Content(lc).value;
      assert lc.node.children[j] < lc.node;
    }
  }

  /** A widget holds its first layout, except a splitter, whose children are arranged by itself. */
  lemma WidgetHolds(lc: LayoutChild)
    requires lc.kind.Widget?
    ensures lc.node.Attr("class", "QWidget") == "QSplitter" ==> Content(lc) == None
    ensures lc.node.Attr("class", "QWidget") != "QSplitter" ==> Content(lc) == lc.node.FirstChild("layout")
  {
  }

  // ---- rooms ------------------------------------------------------------------------------------------------------------------

  /** Cells that span a track and do not overlap. */
  predicate ApartCells(act: seq<LayoutChild>) {
    && ProperCells(act)
    && (forall i, j :: 0 <= i < j < |act| ==>
          ApartSpans(RowSpans(act)[i], RowSpans(act)[j]) || ApartSpans(ColSpans(act)[i], ColSpans(act)[j]))
  }

  predicate SizeCovers(s: Size, t: Size) { s.w >= t.w && s.h >= t.h }

  function SizeOf(r: Rect): Size { Size(r.w, r.h) }

  /** The room inside the margins of a layout of some size. */
  function RoomIn(size: Size, lp: LayoutProps): Rect { Inner(Rect(0, 0, size.w, size.h), lp) }

  /** A vertical box holds its children along the axis, and none is wider than the room. */
  predicate VerticalHolds(act: seq<LayoutChild>, sizes: seq<Size>, room: Rect, spacing: int)
    requires |act| == |sizes|
  {
    && VBoxRoom(act, sizes, room.h, spacing)
    && forall i :: 0 <= i < |act| ==> ResolvedVBoxWidth(act[i], sizes[i], room.w) <= room.w
  }

  predicate HorizontalHolds(act: seq<LayoutChild>, sizes: seq<Size>, room: Rect, spacing: int)
    requires |act| == |sizes|
  {
    && HBoxRoom(act, sizes, room.w, spacing)
    && forall i :: 0 <= i < |act| ==> ResolvedHBoxHeight(act[i], sizes[i], room.h) <= room.h
  }

  predicate GridFits(act: seq<LayoutChild>, sizes: seq<Size>, room: Rect, lp: LayoutProps)
    requires |act| == |sizes|
  {
    && ApartCells(act)
    && (AxesValid(act, sizes, room, lp);
        MinimumsFit(RowAxis(act, sizes, room, lp.vSpacing)) && MinimumsFit(ColAxis(act, room, lp.hSpacing)))
  }

  /** The equal slices of an unknown layout class, of at least 24 pixels each. */
  predicate FallbackFits(n: nat, room: Rect, spacing: int) { 24 * n + Gaps(spacing, n) <= room.h }

  predicate ClassHolds(cls: string, lp: LayoutProps, act: seq<LayoutChild>, sizes: seq<Size>, room: Rect)
    requires |act| == |sizes|
  {
    if IsVertical(cls) then VerticalHolds(act, sizes, room, lp.vSpacing)
    else if IsHorizontal(cls) then HorizontalHolds(act, sizes, room, lp.hSpacing)
    else if IsGrid(cls) then GridFits(act, sizes, room, lp)
    else FallbackFits(|act|, room, lp.vSpacing)
  }

  /** A layout of this size holds its children: its room lies inside it, and suffices by the exact condition of its class. */
  predicate Holds(layout: XmlNode, size: Size) {
    var lp, act := ReadLayoutProps(layout), ActiveItems(layout);
    && NonNegativeProps(lp)
    && (act != [] ==>
          size.w > lp.left && size.h > lp.top && ClassHolds(layout.Attr("class", ""), lp, act, SizesOf(act), RoomIn(size, lp)))
  }

  /** What child `i` is surely given in a room, and in every larger one. */
  function ClassGives(cls: string, lp: LayoutProps, act: seq<LayoutChild>, sizes: seq<Size>, room: Rect, i: nat): Size
    requires |act| == |sizes| && i < |act| && ClassHolds(cls, lp, act, sizes, room)
  {
    if IsVertical(cls) then Size(ResolvedVBoxWidth(act[i], sizes[i], room.w), Max(1, VLengths(act, sizes, room.h, lp.vSpacing)[i]))
    else if IsHorizontal(cls) then Size(Max(1, HLengths(act, sizes, room.w, lp.hSpacing)[i]), ResolvedHBoxHeight(act[i], sizes[i], room.h))
    else if IsGrid(cls) then
      AxesValid(act, sizes, room, lp);
      Size(LeastExtent(ColAxis(act, room, lp.hSpacing), i), LeastExtent(RowAxis(act, sizes, room, lp.vSpacing), i))
    else Size(room.w, FallbackRect(|act|, room, lp.vSpacing, i).h)
  }

  function Given(layout: XmlNode, size: Size, i: nat): Size
    requires Holds(layout, size) && i < |ActiveItems(layout)|
  {
    var lp, act := ReadLayoutProps(layout), ActiveItems(layout);
    ClassGives(layout.Attr("class", ""), lp, act, SizesOf(act), RoomIn(size, lp), i)
  }

  /** The layout holds its children, and so do the layouts in them, each in what its child is given. */
  ghost predicate HoldsDeep(layout: XmlNode, size: Size)
    decreases layout
  {
    && Holds(layout, size)
    && forall i :: 0 <= i < |ActiveItems(layout)| && Content(ActiveItems(layout)[i]).Some? ==>
         (ContentSmaller(ActiveItems(layout)[i], layout);
          HoldsDeep(Content(ActiveItems(layout)[i]).value, Given(layout, size, i)))
  }

  // ---- more room takes nothing away --------------------------------------------------------------------------------------------

  lemma VWidthGrows(lc: LayoutChild, size: Size, a: int, b: int)
    requires 1 <= a <= b && ResolvedVBoxWidth(lc, size, a) <= a
    ensures ResolvedVBoxWidth(lc, size, a) <= ResolvedVBoxWidth(lc, size, b) <= b
  {
    hide ReadSizeConstraints;
  }

  lemma HHeightGrows(lc: LayoutChild, a: int, b: int)
    requires Genuine(lc) && !lc.hidden && 1 <= a <= b && ResolvedHBoxHeight(lc, ChildSize(lc), a) <= a
    ensures ResolvedHBoxHeight(lc, ChildSize(lc), a) <= ResolvedHBoxHeight(lc, ChildSize(lc), b) <= b
  {
    hide ReadSizeConstraints, LayoutSize;
    if lc.kind.Widget? { assert WidgetSize(lc.node).h == ChildSize(lc).h; }
  }

  lemma VerticalGrows(act: seq<LayoutChild>, sizes: seq<Size>, room: Rect, more: Rect, spacing: int, i: nat)
    requires MeasuredBy(act, sizes) && VerticalHolds(act, sizes, room, spacing) && i < |act|
    requires room.w >= 1 && more.w >= room.w && more.h >= room.h
    ensures VBoxRoom(act, sizes, more.h, spacing)
    ensures ResolvedVBoxWidth(act[i], sizes[i], room.w) <= ResolvedVBoxWidth(act[i], sizes[i], more.w) <= more.w
    ensures VLengths(act, sizes, room.h, spacing)[i] <= VLengths(act, sizes, more.h, spacing)[i]
  {
    hide ResolvedVBoxWidth, Spread, ChildSize;
    VFixed(act, sizes);
    VWidthGrows(act[i], sizes[i], room.w, more.w);
    SpreadGrows(VerticalSlots(act, sizes), room.h, more.h, spacing, i);
  }

  lemma HorizontalGrows(act: seq<LayoutChild>, sizes: seq<Size>, room: Rect, more: Rect, spacing: int, i: nat)
    requires MeasuredBy(act, sizes) && HorizontalHolds(act, sizes, room, spacing) && i < |act|
    requires room.h >= 1 && more.w >= room.w && more.h >= room.h
    ensures HBoxRoom(act, sizes, more.w, spacing)
    ensures ResolvedHBoxHeight(act[i], sizes[i], room.h) <= ResolvedHBoxHeight(act[i], sizes[i], more.h) <= more.h
    ensures HLengths(act, sizes, room.w, spacing)[i] <= HLengths(act, sizes, more.w, spacing)[i]
  {
    hide ResolvedHBoxHeight, HLengths, ChildSize;
    HHeightGrows(act[i], room.h, more.h);
    FlexibleGetsMeasure(act, sizes, room.w, spacing, i, HLengths(act, sizes, room.w, spacing)[i]);
  }

  /** The axes of a grid in different rooms differ in nothing else. */
  lemma AxesWithInner(act: seq<LayoutChild>, sizes: seq<Size>, a: Rect, b: Rect, lp: LayoutProps)
    requires |act| == |sizes|
    ensures RowAxis(act, sizes, b, lp.vSpacing) == WithInner(RowAxis(act, sizes, a, lp.vSpacing), b.y, b.h)
    ensures ColAxis(act, b, lp.hSpacing) == WithInner(ColAxis(act, a, lp.hSpacing), b.x, b.w)
  {
    hide RowFixed, RowMinimum, ColFixed, ColMinimum, OnlySpacers;
    var r, s := RowAxis(act, sizes, a, lp.vSpacing), RowAxis(act, sizes, b, lp.vSpacing);
    var c, d := ColAxis(act, a, lp.hSpacing), ColAxis(act, b, lp.hSpacing);
    assert r.fixed == s.fixed && r.mins == s.mins && c.fixed == d.fixed && c.mins == d.mins;
  }

  lemma AxisFields(act: seq<LayoutChild>, sizes: seq<Size>, m: Rect, lp: LayoutProps)
    requires |act| == |sizes|
    ensures var rows := RowAxis(act, sizes, m, lp.vSpacing);
            rows.spans == RowSpans(act) && rows.start == m.y && rows.inner == m.h && rows.spacing == lp.vSpacing
    ensures var cols := ColAxis(act, m, lp.hSpacing);
            cols.spans == ColSpans(act) && cols.start == m.x && cols.inner == m.w && cols.spacing == lp.hSpacing
  {
  }

  lemma GridGrows(act: seq<LayoutChild>, sizes: seq<Size>, room: Rect, more: Rect, lp: LayoutProps, i: nat)
    requires |act| == |sizes| && GridFits(act, sizes, room, lp) && i < |act| && lp.hSpacing >= 0 && lp.vSpacing >= 0
    requires more.w >= room.w && more.h >= room.h
    ensures GridFits(act, sizes, more, lp)
    ensures RowAxis(act, sizes, room, lp.vSpacing).Valid() && ColAxis(act, room, lp.hSpacing).Valid()
    ensures var rows, cols := RowAxis(act, sizes, more, lp.vSpacing), ColAxis(act, more, lp.hSpacing);
            && rows.Valid() && cols.Valid()
            && LeastExtent(RowAxis(act, sizes, room, lp.vSpacing), i) <= LeastExtent(rows, i) <= CellExtent(rows, i)
            && LeastExtent(ColAxis(act, room, lp.hSpacing), i) <= LeastExtent(cols, i) <= CellExtent(cols, i)
  {
    hide RowAxis, ColAxis, MinimumsFit, CellExtent, LeastExtent;
    AxesValid(act, sizes, room, lp);
    AxesValid(act, sizes, more, lp);
    AxesWithInner(act, sizes, room, more, lp);
    AxisFields(act, sizes, room, lp);
    var rows, cols := RowAxis(act, sizes, room, lp.vSpacing), ColAxis(act, room, lp.hSpacing);
    MinimumsFitMore(rows, more.y, more.h);
    MinimumsFitMore(cols, more.x, more.w);
    LeastExtentGrows(rows, more.y, more.h, i);
    LeastExtentGrows(cols, more.x, more.w, i);
  }

  lemma FallbackGrows(n: nat, room: Rect, more: Rect, spacing: int, i: nat)
    requires i < n && FallbackFits(n, room, spacing) && more.h >= room.h
    ensures FallbackFits(n, more, spacing) && FallbackRect(n, room, spacing, i).h <= FallbackRect(n, more, spacing, i).h
  {
    TruncMonotone(room.h - Gaps(spacing, n), more.h - Gaps(spacing, n), n);
  }

  lemma ClassGrows(cls: string, lp: LayoutProps, act: seq<LayoutChild>, sizes: seq<Size>, room: Rect, more: Rect, i: nat)
    requires MeasuredBy(act, sizes) && i < |act| && NonNegativeProps(lp) && ClassHolds(cls, lp, act, sizes, room)
    requires room.w >= 1 && room.h >= 1 && more.w >= room.w && more.h >= room.h
    ensures ClassHolds(cls, lp, act, sizes, more)
    ensures SizeCovers(ClassGives(cls, lp, act, sizes, more, i), ClassGives(cls, lp, act, sizes, room, i))
  {
    hide VLengths, HLengths, ResolvedVBoxWidth, ResolvedHBoxHeight, VBoxRoom, HBoxRoom, GridFits, FallbackRect, FallbackFits, ChildSize, RowAxis, ColAxis, LeastExtent;
    if IsVertical(cls) {
      forall j | 0 <= j < |act| ensures ResolvedVBoxWidth(act[j], sizes[j], more.w) <= more.w {
        VerticalGrows(act, sizes, room, more, lp.vSpacing, j);
      }
      VerticalGrows(act, sizes, room, more, lp.vSpacing, i);
    } else if IsHorizontal(cls) {
      forall j | 0 <= j < |act| ensures ResolvedHBoxHeight(act[j], sizes[j], more.h) <= more.h {
        HorizontalGrows(act, sizes, room, more, lp.hSpacing, j);
      }
      HorizontalGrows(act, sizes, room, more, lp.hSpacing, i);
    } else if IsGrid(cls) {
      GridGrows(act, sizes, room, more, lp, i);
    } else {
      FallbackGrows(|act|, room, more, lp.vSpacing, i);
    }
  }

  lemma RoomGrows(lp: LayoutProps, s: Size, t: Size)
    requires SizeCovers(t, s)
    ensures var room, more := RoomIn(s, lp), RoomIn(t, lp);
            room.w >= 1 && room.h >= 1 && more.w >= room.w && more.h >= room.h
  {}

  /** More room never makes a layout stop holding its children, and never gives one of them less. */
  lemma GivenGrows(layout: XmlNode, s: Size, t: Size)
    requires Holds(layout, s) && SizeCovers(t, s)
    ensures Holds(layout, t)
    ensures forall i :: 0 <= i < |ActiveItems(layout)| ==> SizeCovers(Given(layout, t, i), Given(layout, s, i))
  {
    hide ReadLayoutProps, ActiveItems, ClassHolds, ClassGives, RoomIn;
    var lp, act := ReadLayoutProps(layout), ActiveItems(layout);
    RoomGrows(lp, s, t);
    MeasuredSizes(layout);
    if act != [] { ClassGrows(layout.Attr("class", ""), lp, act, SizesOf(act), RoomIn(s, lp), RoomIn(t, lp), 0); }
    assert Holds(layout, t);
    forall i | 0 <= i < |act|
      ensures SizeCovers(Given(layout, t, i), Given(layout, s, i))
    {
      ClassGrows(layout.Attr("class", ""), lp, act, SizesOf(act), RoomIn(s, lp), RoomIn(t, lp), i);
    }
  }

  /** The same for whole trees. */
  lemma {:induction false} HoldsMore(layout: XmlNode, s: Size, t: Size)
    requires HoldsDeep(layout, s) && SizeCovers(t, s)
    ensures HoldsDeep(layout, t)
    decreases layout
  {
    hide Holds, Given, Content, ActiveItems;
    GivenGrows(layout, s, t);
    forall i | 0 <= i < |ActiveItems(layout)| && Content(ActiveItems(layout)[i]).Some?
      ensures (ContentSmaller(ActiveItems(layout)[i], layout);
               HoldsDeep(Content(ActiveItems(layout)[i]).value, Given(layout, t, i)))
    {
      ContentSmaller(ActiveItems(layout)[i], layout);
      HoldsMore(Content(ActiveItems(layout)[i]).value, Given(layout, s, i), Given(layout, t, i));
    }
  }

  // ---- a child has what it is given -----------------------------------------------------------------------------------------------

  lemma VerticalGives(act: seq<LayoutChild>, sizes: seq<Size>, inner: Rect, spacing: int, i: nat)
    requires MeasuredBy(act, sizes) && spacing >= 0 && i < |act| && VerticalHolds(act, sizes, inner, spacing)
    ensures var r := VBoxRectAt(act, sizes, inner, spacing, i);
            && WithinRect(r, inner) && r.w == ResolvedVBoxWidth(act[i], sizes[i], inner.w)
            && r.h == Max(1, VLengths(act, sizes, inner.h, spacing)[i])
  {
    hide VLengths, PosAt, ExtentAt, ChildSize, ResolvedVBoxWidth, VerticalSlots;
    VBoxAgrees(act, sizes, inner, spacing);
    assert VHolds(act[i], sizes[i], inner, VBoxRectAt(act, sizes, inner, spacing, i));
    VExtent(act, sizes, inner, spacing, i);
  }

  lemma HorizontalGives(act: seq<LayoutChild>, sizes: seq<Size>, inner: Rect, spacing: int, i: nat)
    requires MeasuredBy(act, sizes) && spacing >= 0 && i < |act| && HorizontalHolds(act, sizes, inner, spacing)
    ensures var r := HBoxRectAt(act, sizes, inner, spacing, i);
            && WithinRect(r, inner) && r.h == ResolvedHBoxHeight(act[i], sizes[i], inner.h)
            && r.w == Max(1, HLengths(act, sizes, inner.w, spacing)[i])
  {
    hide HLengths, PosAt, ExtentAt, ChildSize, ResolvedHBoxHeight, HorizontalSlots;
    HBoxAgrees(act, sizes, inner, spacing);
    assert HHolds(act[i], sizes[i], inner, HBoxRectAt(act, sizes, inner, spacing, i));
    HExtent(act, sizes, inner, spacing, i);
  }

  lemma GridGives(act: seq<LayoutChild>, sizes: seq<Size>, inner: Rect, lp: LayoutProps, i: nat)
    requires |act| == |sizes| && i < |act| && lp.hSpacing >= 0 && lp.vSpacing >= 0 && inner.w >= 1 && inner.h >= 1
    requires GridFits(act, sizes, inner, lp)
    ensures RowAxis(act, sizes, inner, lp.vSpacing).Valid() && ColAxis(act, inner, lp.hSpacing).Valid()
    ensures WithinRect(GridRect(RowAxis(act, sizes, inner, lp.vSpacing), ColAxis(act, inner, lp.hSpacing), i), inner)
  {
    hide RowAxis, ColAxis, MinimumsFit, GridRect;
    AxisFields(act, sizes, inner, lp);
    GridAgrees(act, sizes, inner, lp);
  }

  lemma FallbackGives(n: nat, inner: Rect, spacing: int, i: nat)
    requires i < n && spacing >= 0 && FallbackFits(n, inner, spacing)
    ensures WithinRect(FallbackRect(n, inner, spacing, i), inner)
  {
    var rest := inner.h - Gaps(spacing, n);
    var h := Max(24, TruncDiv(rest, n));
    TruncMonotone(rest, rest, n);
    assert h * n <= rest;
    assert h >= 0 && i * (h + spacing) >= 0 by { MulMono(0, i, h + spacing); }
    MulMono(i + 1, n, h + spacing);
    assert (i + 1) * (h + spacing) == i * (h + spacing) + h + spacing;
    assert n * (h + spacing) == h * n + spacing * (n - 1) + spacing;
  }

  lemma ClassPlaces(cls: string, lp: LayoutProps, act: seq<LayoutChild>, sizes: seq<Size>, rect: Rect, i: nat)
    requires MeasuredBy(act, sizes) && i < |act| && NonNegativeProps(lp) && ClassHolds(cls, lp, act, sizes, Inner(rect, lp))
    ensures WithinRect(ChildRect(cls, lp, act, sizes, rect, i), Inner(rect, lp))
    ensures SizeCovers(SizeOf(ChildRect(cls, lp, act, sizes, rect, i)), ClassGives(cls, lp, act, sizes, Inner(rect, lp), i))
  {
    hide VBoxRectAt, HBoxRectAt, VLengths, HLengths, ResolvedVBoxWidth, ResolvedHBoxHeight, VBoxRoom, HBoxRoom, FallbackFits, ChildSize, RowAxis, ColAxis, LeastExtent, CellExtent, CellPos, MinimumsFit;
    var inner := Inner(rect, lp);
    if IsVertical(cls) { VerticalGives(act, sizes, inner, lp.vSpacing, i); }
    else if IsHorizontal(cls) { HorizontalGives(act, sizes, inner, lp.hSpacing, i); }
    else if IsGrid(cls) {
      GridGives(act, sizes, inner, lp, i);
      GridGrows(act, sizes, inner, inner, lp, i);
    } else { FallbackGives(|act|, inner, lp.vSpacing, i); }
  }

  /** Where a layout stands has no influence on whether it holds its children and what it gives them. */
  lemma ClassMoved(cls: string, lp: LayoutProps, act: seq<LayoutChild>, sizes: seq<Size>, a: Rect, b: Rect, i: nat)
    requires MeasuredBy(act, sizes) && i < |act| && NonNegativeProps(lp) && ClassHolds(cls, lp, act, sizes, a)
    requires a.w == b.w >= 1 && a.h == b.h >= 1
    ensures ClassHolds(cls, lp, act, sizes, b)
    ensures SizeCovers(ClassGives(cls, lp, act, sizes, b, i), ClassGives(cls, lp, act, sizes, a, i))
  {
    ClassGrows(cls, lp, act, sizes, a, b, i);
  }

  lemma InnerOf(rect: Rect, lp: LayoutProps)
    requires NonNegativeProps(lp) && rect.w > lp.left && rect.h > lp.top
    ensures WithinRect(Inner(rect, lp), rect) && SizeOf(Inner(rect, lp)) == SizeOf(RoomIn(SizeOf(rect), lp))
  {}

  /** A child of a layout that holds its children is inside it and has at least what it is given. */
  lemma ChildHas(layout: XmlNode, rect: Rect, i: nat)
    requires Holds(layout, SizeOf(rect)) && i < |ActiveItems(layout)|
    ensures WithinRect(RectAt(layout, rect, i), rect) && SizeCovers(SizeOf(RectAt(layout, rect, i)), Given(layout, SizeOf(rect), i))
  {
    hide ReadLayoutProps, ActiveItems, ClassHolds, ClassGives, ChildRect, Inner;
    var lp, act, cls := ReadLayoutProps(layout), ActiveItems(layout), layout.Attr("class", "");
    MeasuredSizes(layout);
    InnerOf(rect, lp);
    InnerPositive(rect, lp);
    ClassMoved(cls, lp, act, SizesOf(act), RoomIn(SizeOf(rect), lp), Inner(rect, lp), i);
    ClassPlaces(cls, lp, act, SizesOf(act), rect, i);
  }

  lemma InnerPositive(rect: Rect, lp: LayoutProps)
    ensures Inner(rect, lp).w >= 1 && Inner(rect, lp).h >= 1
  {}

  // ---- siblings never overlap ---------------------------------------------------------------------------------------------------

  lemma FallbackDisjoint(n: nat, inner: Rect, spacing: int, i: nat, j: nat)
    requires i < j < n && spacing >= 0
    ensures DisjointRects(FallbackRect(n, inner, spacing, i), FallbackRect(n, inner, spacing, j))
  {
    var perH := Max(24, TruncDiv(inner.h - Gaps(spacing, n), n));
    assert (j - i) * (perH + spacing) >= perH + spacing by { MulMono(1, j - i, perH + spacing); }
    assert j * (perH + spacing) == i * (perH + spacing) + (j - i) * (perH + spacing);
  }

  /** In a layout of any class with spacings that are not negative, and proper cells in a grid, no two children overlap. */
  lemma ChildrenDisjoint(layout: XmlNode, rect: Rect, i: nat, j: nat)
    requires i < j < |ActiveItems(layout)|
    requires ReadLayoutProps(layout).hSpacing >= 0 && ReadLayoutProps(layout).vSpacing >= 0
    requires IsGrid(layout.Attr("class", "")) ==> ApartCells(ActiveItems(layout))
    ensures DisjointRects(RectAt(layout, rect, i), RectAt(layout, rect, j))
  {
    hide ReadLayoutProps, ChildSize, VBoxRectAt, HBoxRectAt, GridRect, Inner, FallbackRect;
    var lp, act := ReadLayoutProps(layout), ActiveItems(layout);
    var sizes, inner, cls := SizesOf(act), Inner(rect, lp), layout.Attr("class", "");
    if IsVertical(cls) {
      VBoxDisjoint(act, sizes, inner, lp.vSpacing, i, j);
    } else if IsHorizontal(cls) {
      HBoxDisjoint(act, sizes, inner, lp.hSpacing, i, j);
    } else if IsGrid(cls) {
      AxesValid(act, sizes, inner, lp);
      GridDisjoint(RowAxis(act, sizes, inner, lp.vSpacing), ColAxis(act, inner, lp.hSpacing), i, j);
    } else {
      FallbackDisjoint(|act|, inner, lp.vSpacing, i, j);
    }
  }

  // ---- whole trees ----------------------------------------------------------------------------------------------------------------

  ghost predicate AllWithin(es: seq<Element>, r: Rect) { forall i :: 0 <= i < |es| ==> WithinRect(es[i].rect, r) }

  ghost predicate AllDisjoint(es: seq<Element>) {
    forall i, j :: 0 <= i < j < |es| ==> DisjointRects(es[i].rect, es[j].rect)
  }

  /** A layout written into `rect`: its elements, through nested layouts, lie inside and apart. */
  ghost predicate Fits(layout: XmlNode, rect: Rect) { AllWithin(EmitLayout(layout, rect), rect) && AllDisjoint(EmitLayout(layout, rect)) }

  /** A widget's layout is placed in the widget's own coordinates. */
  function Local(lc: LayoutChild, r: Rect): Rect { if lc.kind.Widget? then Rect(0, 0, r.w, r.h) else r }

  /** The layout fits, and so does everything its children hold, at every level. */
  ghost predicate FitsDeep(layout: XmlNode, rect: Rect)
    decreases layout
  {
    && Fits(layout, rect)
    && forall i :: 0 <= i < |ActiveItems(layout)| && Content(ActiveItems(layout)[i]).Some? ==>
         (ContentSmaller(ActiveItems(layout)[i], layout);
          FitsDeep(Content(ActiveItems(layout)[i]).value, Local(ActiveItems(layout)[i], RectAt(layout, rect, i))))
  }

  /** Every element so far lies in the rectangle of one of the first `k` children. */
  ghost predicate Housed(es: seq<Element>, layout: XmlNode, rect: Rect, k: nat)
    requires k <= |ActiveItems(layout)|
  {
    forall i :: 0 <= i < |es| ==> exists c :: 0 <= c < k && WithinRect(es[i].rect, RectAt(layout, rect, c))
  }

  /**
   A tree that holds in some room, placed in that room or any larger one: every element written, however
   deeply nested in layouts and widgets, lies inside what holds it, and no two elements of one layout overlap.
   */
  lemma {:induction false} MoreRoomFits(layout: XmlNode, size: Size, rect: Rect)
    requires HoldsDeep(layout, size) && SizeCovers(SizeOf(rect), size)
    ensures FitsDeep(layout, rect)
    decreases layout
  {
    hide RectAt, Holds, Given, ActiveItems, Content, Fits;
    var act := ActiveItems(layout);
    HoldsMore(layout, size, SizeOf(rect));
    forall i | 0 <= i < |act| && Content(act[i]).Some?
      ensures (ContentSmaller(act[i], layout); FitsDeep(Content(act[i]).value, Local(act[i], RectAt(layout, rect, i))))
    {
      ContentSmaller(act[i], layout);
      ChildHas(layout, rect, i);
      MoreRoomFits(Content(act[i]).value, Given(layout, SizeOf(rect), i), Local(act[i], RectAt(layout, rect, i)));
    }
    forall i | 0 <= i < |act| && act[i].kind.Layout? ensures Fits(act[i].node, RectAt(layout, rect, i)) {
      NestedContent(act[i], RectAt(layout, rect, i));
    }
    LayoutFits(layout, rect);
  }

  lemma NestedContent(lc: LayoutChild, r: Rect)
    requires lc.kind.Layout?
    ensures Content(lc) == Some(lc.node) && Local(lc, r) == r
  {
  }

  /** The elements of one layout, given that the layouts nested in it fit. */
  lemma LayoutFits(layout: XmlNode, rect: Rect)
    requires Holds(layout, SizeOf(rect))
    requires forall i :: 0 <= i < |ActiveItems(layout)| && ActiveItems(layout)[i].kind.Layout? ==>
               Fits(ActiveItems(layout)[i].node, RectAt(layout, rect, i))
    ensures Fits(layout, rect)
  {
    hide RectAt, Holds, Given;
    var act := ActiveItems(layout);
    LayoutFitsTo(layout, rect, |act|);
    var es := EmitLayout(layout, rect);
    forall i | 0 <= i < |es| ensures WithinRect(es[i].rect, rect) {
      var c := HouseOf(es, layout, rect, |act|, i);
      ChildHas(layout, rect, c);
    }
  }

  lemma {:induction false} LayoutFitsTo(layout: XmlNode, rect: Rect, k: nat)
    requires Holds(layout, SizeOf(rect)) && k <= |ActiveItems(layout)|
    requires forall i :: 0 <= i < |ActiveItems(layout)| && ActiveItems(layout)[i].kind.Layout? ==>
               Fits(ActiveItems(layout)[i].node, RectAt(layout, rect, i))
    ensures Housed(EmitTo(layout, rect, k), layout, rect, k) && AllDisjoint(EmitTo(layout, rect, k))
    decreases k
  {
    hide RectAt, ChildSize, ActiveItems, DisjointRects, WithinRect, Holds, EmitLayout;
    if k > 0 {
      var lc, r := ActiveItems(layout)[k - 1], RectAt(layout, rect, k - 1);
      var before, mine := EmitTo(layout, rect, k - 1), EmitChild(lc, r);
      LayoutFitsTo(layout, rect, k - 1);
      if !lc.kind.Layout? { SelfWithin(lc, r); }
      ApartFromEarlier(before, mine, layout, rect, k);
      JoinDisjoint(before, mine);
      JoinHoused(before, mine, layout, rect, k);
    }
  }

  lemma HouseOf(es: seq<Element>, layout: XmlNode, rect: Rect, k: nat, i: nat) returns (c: nat)
    requires k <= |ActiveItems(layout)| && Housed(es, layout, rect, k) && i < |es|
    ensures c < k && WithinRect(es[i].rect, RectAt(layout, rect, c))
  {
    hide RectAt, ActiveItems, WithinRect;
    var r := es[i].rect;
    c :| 0 <= c < k && WithinRect(r, RectAt(layout, rect, c));
  }

  lemma ApartFromEarlier(before: seq<Element>, mine: seq<Element>, layout: XmlNode, rect: Rect, k: nat)
    requires Holds(layout, SizeOf(rect)) && 0 < k <= |ActiveItems(layout)|
    requires Housed(before, layout, rect, k - 1) && AllWithin(mine, RectAt(layout, rect, k - 1))
    ensures forall i, j :: 0 <= i < |before| && 0 <= j < |mine| ==> DisjointRects(before[i].rect, mine[j].rect)
  {
    hide RectAt, ActiveItems, DisjointRects, WithinRect, Holds;
    forall i, j | 0 <= i < |before| && 0 <= j < |mine| ensures DisjointRects(before[i].rect, mine[j].rect) {
      var c := HouseOf(before, layout, rect, k - 1, i);
      HeldApart(layout, SizeOf(rect));
      ChildrenDisjoint(layout, rect, c, k - 1);
      DisjointNested(before[i].rect, RectAt(layout, rect, c), mine[j].rect, RectAt(layout, rect, k - 1));
    }
  }

  lemma HeldApart(layout: XmlNode, size: Size)
    requires Holds(layout, size) && ActiveItems(layout) != []
    ensures ReadLayoutProps(layout).hSpacing >= 0 && ReadLayoutProps(layout).vSpacing >= 0
    ensures IsGrid(layout.Attr("class", "")) ==> ApartCells(ActiveItems(layout))
  {
    hide ReadLayoutProps, VerticalHolds, HorizontalHolds, ActiveItems, RoomIn, RowAxis, ColAxis, MinimumsFit;
  }

  lemma JoinHoused(xs: seq<Element>, ys: seq<Element>, layout: XmlNode, rect: Rect, k: nat)
    requires 0 < k <= |ActiveItems(layout)| && Housed(xs, layout, rect, k - 1)
    requires AllWithin(ys, RectAt(layout, rect, k - 1))
    ensures Housed(xs + ys, layout, rect, k)
  {
    hide RectAt, WithinRect, ActiveItems;
    var es := xs + ys;
    forall i | 0 <= i < |es| ensures exists c :: 0 <= c < k && WithinRect(es[i].rect, RectAt(layout, rect, c)) {
      if i < |xs| {
        var c :| 0 <= c < k - 1 && WithinRect(xs[i].rect, RectAt(layout, rect, c));
        assert es[i] == xs[i];
      } else {
        assert es[i] == ys[i - |xs|];
      }
    }
  }

  lemma SelfWithin(lc: LayoutChild, r: Rect)
    ensures AllWithin([Element(lc, r)], r)
  {}

  lemma DisjointNested(a: Rect, outerA: Rect, b: Rect, outerB: Rect)
    requires WithinRect(a, outerA) && WithinRect(b, outerB) && DisjointRects(outerA, outerB)
    ensures DisjointRects(a, b)
  {}

  lemma JoinDisjoint(xs: seq<Element>, ys: seq<Element>)
    requires AllDisjoint(xs) && AllDisjoint(ys)
    requires forall i, j :: 0 <= i < |xs| && 0 <= j < |ys| ==> DisjointRects(xs[i].rect, ys[j].rect)
    ensures AllDisjoint(xs + ys)
  {
    hide DisjointRects;
    var es := xs + ys;
    forall i, j | 0 <= i < j < |es| ensures DisjointRects(es[i].rect, es[j].rect) {
      if j < |xs| { assert es[i] == xs[i] && es[j] == xs[j]; }
      else if i >= |xs| { assert es[i] == ys[i - |xs|] && es[j] == ys[j - |xs|]; }
      else { assert es[i] == xs[i] && es[j] == ys[j - |xs|]; }
    }
  }
}
