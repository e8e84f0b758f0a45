/**
 Where and how large the children of a box are, read off the XML: what margins, size constraints and size
 hints mean for the rectangles, and that what a box measures is the least it needs.
 */
module BoxShape {
  import opened Arith
  import opened Text
  import opened Xml
  import opened UiReader
  import opened UiLookups
  import opened Measure
  import opened Segments
  import opened BoxLayout
  import opened BoxRoom
  import opened BoxAgreement
  import opened Placement
  import opened ImportTree

  /** The extent inside the margins. */
  function InnerWidth(layout: XmlNode, rect: Rect): int { Max(1, rect.w - ReadLayoutProps(layout).left - ReadLayoutProps(layout).right) }

  function InnerHeight(layout: XmlNode, rect: Rect): int { Max(1, rect.h - ReadLayoutProps(layout).top - ReadLayoutProps(layout).bottom) }

  function MinimumOf(node: XmlNode, dimension: string): Option<int> {
    LastSaid(node.ChildrenNamed("property"), p => MinimumSaid(p, dimension))
  }

  function MaximumOf(node: XmlNode, dimension: string): Option<int> {
    LastSaid(node.ChildrenNamed("property"), p => MaximumSaid(p, dimension))
  }

  lemma BoundsRead(node: XmlNode)
    ensures var sc := ReadSizeConstraints(node);
            && sc.minW == MinimumOf(node, "width") && sc.maxW == MaximumOf(node, "width")
            && sc.minH == MinimumOf(node, "height") && sc.maxH == MaximumOf(node, "height")
    ensures MinimumOf(node, "width").Some? ==> MinimumOf(node, "width").value > 0
    ensures MaximumOf(node, "width").Some? ==> MaximumOf(node, "width").value > 0
    ensures MinimumOf(node, "height").Some? ==> MinimumOf(node, "height").value > 0
    ensures MaximumOf(node, "height").Some? ==> MaximumOf(node, "height").value > 0
  {
    hide LastSaid, MinimumSaid, MaximumSaid;
    ConstraintsByLookup(node);
    assert ReadSizeConstraints(node).Valid();
  }

  // ---- across a vertical box --------------------------------------------------------------------------------------------

  /**
   Across a vertical box a child has the inner width, whatever it measures, unless its own bounds say
   otherwise: no more than its maximum, no less than its minimum, and the maximum has the last word.
   */
  lemma VBoxWidthIs(layout: XmlNode, rect: Rect, i: nat)
    requires layout.Attr("class", "") in ["QVBoxLayout", "QFormLayout"] && i < |ActiveItems(layout)|
    ensures var lc, r, room := ActiveItems(layout)[i], RectAt(layout, rect, i), InnerWidth(layout, rect);
            var min, max := MinimumOf(lc.node, "width"), MaximumOf(lc.node, "width");
            && r.x == rect.x + ReadLayoutProps(layout).left
            && (!lc.kind.Widget? || (min.None? && max.None?) ==> r.w == room)
            && (lc.kind.Widget? && min.Some? && max.Some? && min == max ==> r.w == min.value)
            && (lc.kind.Widget? && max.None? && min.Some? ==> r.w == if min.value <= room then room else min.value)
            && (lc.kind.Widget? && max.Some? && min.None? ==> r.w == if max.value <= room then max.value else room)
            && (lc.kind.Widget? && max.Some? && min.Some? && min.value <= room && min.value <= max.value ==> r.w == if max.value <= room then max.value else room)
            && (lc.kind.Widget? && max.Some? && min.Some? && room < min.value <= max.value ==> r.w == min.value)
            && (lc.kind.Widget? && max.Some? && min.Some? && max.value < min.value ==> r.w == max.value)
  {
    hide ReadLayoutProps, ReadSizeConstraints, ChildSize, MinimumOf, MaximumOf, VLengths, PosAt, ExtentAt;
    BoundsRead(ActiveItems(layout)[i].node);
  }

  /** The first child of a box starts at its top left corner inside the margins. */
  lemma BoxStarts(layout: XmlNode, rect: Rect)
    requires ActiveItems(layout) != []
    ensures layout.Attr("class", "") in ["QVBoxLayout", "QFormLayout"] ==> RectAt(layout, rect, 0).y == rect.y + ReadLayoutProps(layout).top
    ensures layout.Attr("class", "") == "QHBoxLayout" ==> RectAt(layout, rect, 0).x == rect.x + ReadLayoutProps(layout).left
  {
    hide ReadLayoutProps, ChildSize, VLengths, HLengths, ResolvedVBoxWidth, ResolvedHBoxHeight, ExtentAt;
  }

  /** Neighbours in a box are exactly its own spacing apart. */
  lemma BoxSpacing(layout: XmlNode, rect: Rect, i: nat)
    requires i + 1 < |ActiveItems(layout)|
    ensures layout.Attr("class", "") in ["QVBoxLayout", "QFormLayout"]
            ==> RectAt(layout, rect, i + 1).y == RectAt(layout, rect, i).y + RectAt(layout, rect, i).h + ReadLayoutProps(layout).vSpacing
    ensures layout.Attr("class", "") == "QHBoxLayout"
            ==> RectAt(layout, rect, i + 1).x == RectAt(layout, rect, i).x + RectAt(layout, rect, i).w + ReadLayoutProps(layout).hSpacing
  {
    hide ReadLayoutProps, ChildSize, VBoxRectAt, HBoxRectAt, Inner;
    var act, lp := ActiveItems(layout), ReadLayoutProps(layout);
    if layout.Attr("class", "") in ["QVBoxLayout", "QFormLayout"] { VBoxRun(act, SizesOf(act), Inner(rect, lp), lp.vSpacing, i); }
    else if layout.Attr("class", "") == "QHBoxLayout" { HBoxRun(act, SizesOf(act), Inner(rect, lp), lp.hSpacing, i); }
  }

  // ---- across a horizontal box ---------------------------------------------------------------------------------------------

  /** What a child of a horizontal box would be high if it had no bounds: what it measures, if that is something, within the room. */
  function NaturalHeight(measure: int, room: int): int { if 0 < measure <= room then measure else room }

  /** The height of a child of a horizontal box, given its bounds. */
  predicate HeightIs(lc: LayoutChild, h: int, room: int, own: int, min: Option<int>, max: Option<int>) {
    && (lc.kind.Spacer? ==> h == room)
    && (lc.kind.Layout? || (lc.kind.Widget? && min.None? && max.None?) ==> h == own)
    && (lc.kind.Widget? && min.Some? && max.Some? && min == max ==> h == min.value)
    && (lc.kind.Widget? && max.None? && min.Some? ==> h == if min.value <= own then own else min.value)
    && (lc.kind.Widget? && max.Some? && min.None? ==> h == if max.value < room then max.value else own)
    && (lc.kind.Widget? && max.Some? && min.Some? && min.value <= max.value ==> min.value <= h <= max.value)
  }

  lemma ResolvedHeightIs(lc: LayoutChild, size: Size, room: int)
    requires room >= 1
    ensures HeightIs(lc, ResolvedHBoxHeight(lc, size, room), room, NaturalHeight(size.h, room), MinimumOf(lc.node, "height"), MaximumOf(lc.node, "height"))
  {
    hide ReadSizeConstraints, MinimumOf, MaximumOf;
    BoundsRead(lc.node);
  }

  /**
   Across a horizontal box a child has the height it measures, or the inner height when it measures nothing,
   within its own bounds.
   */
  lemma HBoxHeightIs(layout: XmlNode, rect: Rect, i: nat)
    requires layout.Attr("class", "") == "QHBoxLayout" && i < |ActiveItems(layout)|
    ensures var lc, r, room := ActiveItems(layout)[i], RectAt(layout, rect, i), InnerHeight(layout, rect);
            HeightIs(lc, r.h, room, NaturalHeight(ChildSize(lc).h, room), MinimumOf(lc.node, "height"), MaximumOf(lc.node, "height"))
  {
    hide ReadLayoutProps, ReadSizeConstraints, ChildSize, MinimumOf, MaximumOf, HLengths, PosAt, ExtentAt, ResolvedHBoxHeight, HeightIs, NaturalHeight, ActiveItems;
    var lc := ActiveItems(layout)[i];
    SizeAt(ActiveItems(layout), i);
    ResolvedHeightIs(lc, ChildSize(lc), InnerHeight(layout, rect));
    assert "QHBoxLayout"[1] != "QVBoxLayout"[1] && "QHBoxLayout"[1] != "QFormLayout"[1];
  }

  lemma HalfOf(d: int)
    requires d >= 0
    ensures d - TruncDiv(d, 2) - TruncDiv(d, 2) == 0 || d - TruncDiv(d, 2) - TruncDiv(d, 2) == 1
    ensures 0 <= TruncDiv(d, 2)
  {}

  lemma HalfBelow(d: int)
    requires d < 0
    ensures TruncDiv(d, 2) <= 0
  {}

  /** The rectangle of a child of a horizontal box, across the box. */
  lemma AcrossHBox(layout: XmlNode, rect: Rect, i: nat)
    requires layout.Attr("class", "") == "QHBoxLayout" && i < |ActiveItems(layout)|
    ensures var r, inner := RectAt(layout, rect, i), Inner(rect, ReadLayoutProps(layout));
            r.y == inner.y + Max(0, TruncDiv(inner.h - r.h, 2))
  {
    hide ReadLayoutProps, ChildSize, HLengths, PosAt, ExtentAt, ResolvedHBoxHeight, Inner, TruncDiv, ActiveItems;
    assert "QHBoxLayout"[1] != "QVBoxLayout"[1] && "QHBoxLayout"[1] != "QFormLayout"[1];
  }

  /** It is centred across the box, the odd pixel below it, or starts at the top when it is higher than the room. */
  lemma HBoxCentred(layout: XmlNode, rect: Rect, i: nat)
    requires layout.Attr("class", "") == "QHBoxLayout" && i < |ActiveItems(layout)|
    ensures var r, top, room := RectAt(layout, rect, i), rect.y + ReadLayoutProps(layout).top, InnerHeight(layout, rect);
            var above, below := r.y - top, top + room - (r.y + r.h);
            if r.h <= room then above == below || above + 1 == below else r.y == top
  {
    hide ReadLayoutProps, RectAt, TruncDiv, ActiveItems;
    AcrossHBox(layout, rect, i);
    var d := InnerHeight(layout, rect) - RectAt(layout, rect, i).h;
    if d >= 0 { HalfOf(d); } else { HalfBelow(d); }
  }

  // ---- along a box -----------------------------------------------------------------------------------------------------------

  /** A spacer that does not expand takes its hint: the height in a vertical box, the width in a horizontal one. */
  lemma SpacerTakesHint(act: seq<LayoutChild>, sizes: seq<Size>, inner: Rect, spacing: int, i: nat)
    requires MeasuredBy(act, sizes) && spacing >= 0 && i < |act| && act[i].kind.Spacer? && !SpacerCanExpand(act[i])
    ensures VBoxRoom(act, sizes, inner.h, spacing) ==> VBoxRectAt(act, sizes, inner, spacing, i).h == act[i].sizeHintH
    ensures HBoxRoom(act, sizes, inner.w, spacing) ==> HBoxRectAt(act, sizes, inner, spacing, i).w == act[i].sizeHintW
  {
    hide VBoxRectAt, HBoxRectAt, BoxFits, SpacerCanExpand;
    if VBoxRoom(act, sizes, inner.h, spacing) {
      VBoxAgrees(act, sizes, inner, spacing);
      assert VHolds(act[i], sizes[i], inner, VBoxRectAt(act, sizes, inner, spacing, i));
    }
    if HBoxRoom(act, sizes, inner.w, spacing) {
      HBoxAgrees(act, sizes, inner, spacing);
      assert HHolds(act[i], sizes[i], inner, HBoxRectAt(act, sizes, inner, spacing, i));
    }
  }

  /** What a child of a horizontal box needs: a widget its minimum width, a spacer that does not expand its hint, else a pixel. */
  lemma NeedInHBox(lc: LayoutChild)
    ensures lc.kind.Layout? ==> MinWidth(lc) == 1
    ensures lc.kind.Spacer? ==> MinWidth(lc) == if SpacerCanExpand(lc) then 1 else Max(1, lc.sizeHintW)
    ensures lc.kind.Widget? ==> MinWidth(lc) == if MinimumOf(lc.node, "width").Some? then MinimumOf(lc.node, "width").value else 1
  {
    hide MinimumOf, MaximumOf, ReadSizeConstraints, SpacerCanExpand;
    BoundsRead(lc.node);
  }

  /** A horizontal box never shrinks a child below its own minimum: a widget's minimum width, or the hint of a spacer that does not expand. */
  lemma HBoxKeepsMinimum(act: seq<LayoutChild>, sizes: seq<Size>, inner: int, spacing: int, i: nat, m: int)
    requires |act| == |sizes| && i < |act|
    requires forall k :: 0 <= k < |act| ==> Spread(HorizontalSlots(act, sizes), inner, spacing)[k] >= 0
    requires m == 1 || (act[i].kind.Widget? && MinimumOf(act[i].node, "width") == Some(m))
             || (act[i].kind.Spacer? && !SpacerCanExpand(act[i]) && m == act[i].sizeHintW)
    requires Spread(HorizontalSlots(act, sizes), inner, spacing)[i] >= m
    ensures HLengths(act, sizes, inner, spacing)[i] >= m
  {
    hide Spread, MinimumOf, MaximumOf, ReadSizeConstraints, SpacerCanExpand;
    BoundsRead(act[i].node);
    FittedExact(Spread(HorizontalSlots(act, sizes), inner, spacing), MinWidths(act), Max(1, inner - Gaps(spacing, |act|)));
  }

  /** A widget of a flexible class is shared out in a horizontal box unless its width is fixed or has a maximum below 400. */
  lemma FlexibleUnlessBounded(lc: LayoutChild)
    requires lc.kind.Widget? && lc.node.Attr("class", "") in ["QLineEdit", "QTextEdit", "QPlainTextEdit", "QTreeWidget", "QListWidget", "QTableWidget", "QTreeView", "QListView", "QTableView"]
    ensures var min, max := MinimumOf(lc.node, "width"), MaximumOf(lc.node, "width");
            FlexibleHorizontally(lc) <==> !(min.Some? && max.Some? && min == max) && (max.None? || max.value >= 400)
  {
    hide ReadSizeConstraints, MinimumOf, MaximumOf;
    BoundsRead(lc.node);
  }

  // ---- what a box measures is the least it needs -------------------------------------------------------------------------------

  lemma {:induction false} FixedSum(slots: seq<Slot>, lengths: seq<int>, k: nat)
    requires k <= |slots| && FixedMeasured(slots, lengths) && forall i :: 0 <= i < |slots| ==> !slots[i].counted
    ensures FixedTo(slots, k) == SumTo(lengths, k) && CountedTo(slots, k) == 0
  {
    if k > 0 { FixedSum(slots, lengths, k - 1); }
  }

  lemma BoxMeasure(layout: XmlNode)
    requires ActiveItems(layout) != []
    ensures var act, lp, size := ActiveItems(layout), ReadLayoutProps(layout), LayoutSize(layout);
            && size == Combine(layout.Attr("class", ""), lp, act, SizesOf(act)) && MeasuredBy(act, SizesOf(act))
  {
    hide ChildSize, ReadLayoutProps, Combine;
    MeasuredSizes(layout);
  }

  lemma FixedBoxFits(slots: seq<Slot>, lengths: seq<int>, inner: int, spacing: int)
    requires slots != [] && FixedMeasured(slots, lengths) && spacing >= 0
    requires forall i :: 0 <= i < |slots| ==> !slots[i].counted && lengths[i] >= 1
    ensures BoxFits(slots, inner, spacing) <==> Sum(lengths) + Gaps(spacing, |slots|) <= inner
    ensures Sum(lengths) + Gaps(spacing, |slots|) >= 1
  {
    FixedSum(slots, lengths, |slots|);
    SumToMonotone(lengths, 1, |lengths|);
    assert SumTo(lengths, 1) == lengths[0];
    assert Gaps(spacing, |slots|) >= 0 by { MulMono(0, |slots| - 1, spacing); }
  }

  /** A vertical box of fixed children that leaves any room holds them, each at its own height, exactly from its measured height on. */
  lemma VMeasureIsLeast(layout: XmlNode, rect: Rect)
    requires layout.Attr("class", "") in ["QVBoxLayout", "QFormLayout"] && ActiveItems(layout) != [] && ReadLayoutProps(layout).vSpacing >= 0
    requires rect.h > ReadLayoutProps(layout).top + ReadLayoutProps(layout).bottom
    requires var act := ActiveItems(layout); forall i :: 0 <= i < |act| ==> FixedInVBox(act[i], SizesOf(act)[i]) && SizesOf(act)[i].h >= 1
    ensures var act, lp := ActiveItems(layout), ReadLayoutProps(layout);
            VBoxHolds(act, SizesOf(act), Inner(rect, lp), lp.vSpacing) <==> rect.h >= LayoutSize(layout).h
  {
    hide ChildSize, ReadLayoutProps, LayoutSize, VBoxHolds, FixedInVBox, VerticalSlots, ActiveItems, BoxFits, Sum, Gaps, FixedMeasured;
    var act, lp := ActiveItems(layout), ReadLayoutProps(layout);
    var sizes := SizesOf(act);
    var slots := VerticalSlots(act, sizes);
    BoxMeasure(layout);
    VBoxAgrees(act, sizes, Inner(rect, lp), lp.vSpacing);
    VFixed(act, sizes);
    FixedBoxFits(slots, Heights(sizes), Inner(rect, lp).h, lp.vSpacing);
  }

  /** The same for a horizontal box without flexible children. */
  lemma HMeasureIsLeast(layout: XmlNode, rect: Rect)
    requires layout.Attr("class", "") == "QHBoxLayout" && ActiveItems(layout) != [] && ReadLayoutProps(layout).hSpacing >= 0
    requires rect.w > ReadLayoutProps(layout).left + ReadLayoutProps(layout).right
    requires var act := ActiveItems(layout); forall i :: 0 <= i < |act| ==> FixedInHBox(act[i], SizesOf(act)[i]) && SizesOf(act)[i].w >= 1
    ensures var act, lp := ActiveItems(layout), ReadLayoutProps(layout);
            HBoxHolds(act, SizesOf(act), Inner(rect, lp), lp.hSpacing) <==> rect.w >= LayoutSize(layout).w
  {
    hide ChildSize, ReadLayoutProps, LayoutSize, HBoxHolds, FixedInHBox, HorizontalSlots, ActiveItems, BoxFits, Sum, Gaps, FixedMeasured;
    var act, lp := ActiveItems(layout), ReadLayoutProps(layout);
    var sizes := SizesOf(act);
    var slots := HorizontalSlots(act, sizes);
    assert "QHBoxLayout"[1] != "QVBoxLayout"[1] && "QHBoxLayout"[1] != "QFormLayout"[1];
    BoxMeasure(layout);
    HBoxAgrees(act, sizes, Inner(rect, lp), lp.hSpacing);
    HFixed(act, sizes);
    FixedBoxFits(slots, Widths(sizes), Inner(rect, lp).w, lp.hSpacing);
  }

  lemma {:induction false} LargestIs(s: seq<int>, k: nat, room: int)
    requires k <= |s| && room >= 0
    ensures LargestTo(s, k) <= room <==> forall i :: 0 <= i < k ==> s[i] <= room
  {
    if k > 0 { LargestIs(s, k - 1, room); }
  }

  /** Across a box, what it measures is the least that covers what every child measures. */
  lemma MeasureAcrossIsLeast(layout: XmlNode, rect: Rect)
    requires ActiveItems(layout) != []
    ensures var act, lp := ActiveItems(layout), ReadLayoutProps(layout);
            && (layout.Attr("class", "") in ["QVBoxLayout", "QFormLayout"] && rect.w >= lp.left + lp.right ==>
                  (rect.w >= LayoutSize(layout).w <==> forall i :: 0 <= i < |act| ==> ChildSize(act[i]).w <= rect.w - lp.left - lp.right))
            && (layout.Attr("class", "") == "QHBoxLayout" && rect.h >= lp.top + lp.bottom ==>
                  (rect.h >= LayoutSize(layout).h <==> forall i :: 0 <= i < |act| ==> ChildSize(act[i]).h <= rect.h - lp.top - lp.bottom))
  {
    hide ChildSize, ReadLayoutProps, LayoutSize, ActiveItems;
    var act, lp := ActiveItems(layout), ReadLayoutProps(layout);
    var ws, hs := Widths(SizesOf(act)), Heights(SizesOf(act));
    assert "QHBoxLayout"[1] != "QVBoxLayout"[1] && "QHBoxLayout"[1] != "QFormLayout"[1];
    BoxMeasure(layout);
    if rect.w >= lp.left + lp.right { LargestIs(ws, |act|, rect.w - lp.left - lp.right); }
    if rect.h >= lp.top + lp.bottom { LargestIs(hs, |act|, rect.h - lp.top - lp.bottom); }
    forall i | 0 <= i < |act| ensures ws[i] == ChildSize(act[i]).w && hs[i] == ChildSize(act[i]).h { SizeAt(act, i); }
  }

  /** A box whose children are all hidden measures its margins; a layout without items measures nothing, and one of an unknown class too. */
  lemma EmptyLayouts(layout: XmlNode)
    ensures LayoutItems(layout) == [] ==> LayoutSize(layout) == ZERO
    ensures layout.Attr("class", "") !in ["QVBoxLayout", "QFormLayout", "QHBoxLayout", "QGridLayout"] ==> LayoutSize(layout) == ZERO
    ensures var lp := ReadLayoutProps(layout);
            LayoutItems(layout) != [] && ActiveItems(layout) == [] && layout.Attr("class", "") in ["QVBoxLayout", "QFormLayout", "QHBoxLayout"]
            ==> LayoutSize(layout) == Size(lp.left + lp.right, lp.top + lp.bottom)
  {
    hide ReadLayoutProps, LayoutItems, ActiveItems;
  }

  // ---- other classes ------------------------------------------------------------------------------------------------------------

  /** A layout of an unknown class gives all its children the inner width and one height of at least 24, one below the other. */
  lemma FallbackSlices(layout: XmlNode, rect: Rect, i: nat, j: nat)
    requires layout.Attr("class", "") !in ["QVBoxLayout", "QFormLayout", "QHBoxLayout", "QGridLayout"]
    requires i < |ActiveItems(layout)| && j < |ActiveItems(layout)|
    ensures var a, b, lp := RectAt(layout, rect, i), RectAt(layout, rect, j), ReadLayoutProps(layout);
            && a.w == InnerWidth(layout, rect) && a.x == rect.x + lp.left && a.h == b.h >= 24
            && (i == 0 ==> a.y == rect.y + lp.top) && (j == i + 1 ==> b.y == a.y + a.h + lp.vSpacing)
  {
    hide ReadLayoutProps, ChildSize, TruncDiv, ActiveItems;
    var h := FallbackRect(|ActiveItems(layout)|, Inner(rect, ReadLayoutProps(layout)), ReadLayoutProps(layout).vSpacing, i).h;
    assert (i + 1) * (h + ReadLayoutProps(layout).vSpacing) == i * (h + ReadLayoutProps(layout).vSpacing) + h + ReadLayoutProps(layout).vSpacing;
  }
}
