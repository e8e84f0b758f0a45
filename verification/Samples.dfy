/** Concrete layouts at which exact filling and the measured room fail. */
module Samples {
  import opened Arith
  import opened Text
  import opened Xml
  import opened UiReader
  import opened Tracks
  import opened Measure
  import opened Segments
  import opened BoxLayout
  import opened BoxAgreement
  import opened GridLayout
  import opened GridAgreement

  function Margin(name: string, value: string): XmlNode {
    XmlNode("property", [Attribute("name", name)], "", [XmlNode("number", [], value, [])])
  }

  function SpacerItem(): XmlNode { XmlNode("item", [], "", [XmlNode("spacer", [], "", [])]) }

  /** A layout of one default spacer with one margin of its own. */
  function Sample(cls: string, margin: string, value: string): XmlNode {
    XmlNode("layout", [Attribute("class", cls)], "", [Margin(margin, value), SpacerItem()])
  }

  lemma ReadSamples()
    ensures ToInt("-50") == -50 && ToInt("200") == 200 && ToInt("9") == 9
  {
    assert Decimal(50) == Decimal(5) + [DigitChar(0)] == "50";
    assert IntText(-50) == "-50";
    ToIntOfIntText(-50);
    assert Decimal(20) == Decimal(2) + [DigitChar(0)] == "20";
    assert Decimal(200) == Decimal(20) + [DigitChar(0)] == "200";
    ToIntOfIntText(200);
    assert Decimal(9) == "9";
    ToIntOfIntText(9);
  }

  lemma SampleProps(cls: string, margin: string, value: string)
    requires margin == "leftMargin" || margin == "topMargin"
    ensures var base := LayoutProps(9, 9, 9, 9, 6, 6);
            ReadLayoutProps(Sample(cls, margin, value))
            == if margin == "leftMargin" then base.(left := ToInt(value)) else base.(top := ToInt(value))
  {
    hide ToInt;
    var p, item, base := Margin(margin, value), SpacerItem(), LayoutProps(9, 9, 9, 9, 6, 6);
    assert [p, item][1..] == [item] && [item][1..] == [] && [p][1..] == [];
    assert AllNamed([item], "property") == [];
    assert AllNamed([p, item], "property") == [p];
    assert p.FirstChild("number") == Some(XmlNode("number", [], value, []));
    assert p.Attr("name", "") == margin;
    assert AddLayoutProps(base, [p]) == AddLayoutProps(AddLayoutProp(base, p), []);
  }

  lemma SampleItems(cls: string, margin: string, value: string)
    ensures var items := LayoutItems(Sample(cls, margin, value));
            |items| == 1 && items[0].kind.Spacer? && !items[0].hidden && items[0].sizeHintW == 20 && items[0].sizeHintH == 20
  {
    hide ToInt;
    var spacer := XmlNode("spacer", [], "", []);
    var p, item := Margin(margin, value), SpacerItem();
    assert [p, item][1..] == [item] && [item][1..] == [];
    assert FirstRecognised([spacer]) == Some(spacer);
    assert AllNamed([], "property") == [];
    assert Collected([]) == [];
    assert Collected([item]) == ItemChild(item) + Collected([]);
    assert Collected([p, item]) == Collected([item]);
  }

  lemma SampleClass(cls: string, margin: string, value: string)
    ensures Sample(cls, margin, value).Attr("class", "") == cls
  {
  }

  /** A box of one default spacer measures that spacer and its margins. */
  lemma OneSpacerSize(node: XmlNode)
    requires IsHorizontal(node.Attr("class", "")) || IsVertical(node.Attr("class", ""))
    requires var items := LayoutItems(node);
             |items| == 1 && items[0].kind.Spacer? && !items[0].hidden && items[0].sizeHintW == 20 && items[0].sizeHintH == 20
    ensures var lp := ReadLayoutProps(node);
            LayoutSize(node) == Size(20 + lp.left + lp.right, 20 + lp.top + lp.bottom)
  {
    hide ReadLayoutProps, LayoutItems;
    var items := LayoutItems(node);
    assert Active(items[1..]) == [];
    assert Active(items) == [items[0]];
    var sizes := ChildSizes(ActiveItems(node), node);
    ChildSizeAt(ActiveItems(node), node, 0);
    assert sizes == [ChildSize(items[0])] && Widths(sizes) == [20] && Heights(sizes) == [20];
    assert SumTo([20], 0) == 0 && SumTo([20], 1) == 20;
    assert LargestTo([20], 0) == 0 && LargestTo([20], 1) == 20;
  }

  lemma SampleSizes()
    ensures LayoutSize(Sample("QHBoxLayout", "leftMargin", "-50")).w == -21
    ensures LayoutSize(Sample("QVBoxLayout", "topMargin", "200")).h == 229
    ensures LayoutSize(Sample("QVBoxLayout", "topMargin", "9")).h == 38
  {
    hide Sample, ReadLayoutProps, LayoutItems, LayoutSize;
    ReadSamples();
    SampleSize("QHBoxLayout", "leftMargin", "-50");
    SampleSize("QVBoxLayout", "topMargin", "200");
    SampleSize("QVBoxLayout", "topMargin", "9");
  }

  lemma SampleSize(cls: string, margin: string, value: string)
    requires IsHorizontal(cls) || IsVertical(cls)
    requires margin == "leftMargin" || margin == "topMargin"
    ensures LayoutSize(Sample(cls, margin, value))
            == if margin == "leftMargin" then Size(20 + ToInt(value) + 9, 38) else Size(38, 20 + ToInt(value) + 9)
  {
    hide Sample, ReadLayoutProps, LayoutItems, LayoutSize, ToInt;
    SampleProps(cls, margin, value);
    SampleItems(cls, margin, value);
    SampleClass(cls, margin, value);
    OneSpacerSize(Sample(cls, margin, value));
  }

  function Nested(node: XmlNode, row: int): LayoutChild { PlainChild(Layout, node, row, 0, 1, 1, false) }

  /**
   A horizontal box whose only child is a layout with a left margin of -50: the child counts as flexible
   but receives nothing, and the box falls short of every inner width.
   */
  lemma NegativeFallsShort(inner: int, spacing: int)
    requires inner >= 0
    ensures var act := [Nested(Sample("QHBoxLayout", "leftMargin", "-50"), 0)];
            var slots := HorizontalSlots(act, [ChildSize(act[0])]);
            && CountedTo(slots, 1) == 1 && ReceivingTo(slots, 1) == 0
            && FixedTo(slots, 1) + Gaps(spacing, 1) <= inner
            && Sum(Spread(slots, inner, spacing)) + Gaps(spacing, 1) == -21
  {
    hide Sample, LayoutSize;
    SampleSizes();
    var act := [Nested(Sample("QHBoxLayout", "leftMargin", "-50"), 0)];
    var slots := HorizontalSlots(act, [ChildSize(act[0])]);
    assert slots[0] == MeasuredSlot(-21);
    assert FixedTo(slots, 0) == 0 && CountedTo(slots, 0) == 0 && ReceivingTo(slots, 0) == 0;
    assert Spread(slots, inner, spacing) == [-21];
    assert SumTo([-21], 0) == 0 && SumTo([-21], 1) == -21;
  }

  // ---- a tall and a short layout in two rows ---------------------------------------------------------------------------------

  function Tall(): LayoutChild { Nested(Sample("QVBoxLayout", "topMargin", "200"), 0) }

  function Short(): LayoutChild { Nested(Sample("QVBoxLayout", "topMargin", "9"), 1) }

  /** The rows of a grid with two layouts, one in each row, in a given height. */
  lemma TwoRows(a: LayoutChild, b: LayoutChild, sizes: seq<Size>, inner: Rect)
    requires a.kind.Layout? && b.kind.Layout? && |sizes| == 2
    requires a.row == 0 && b.row == 1 && a.rowspan == b.rowspan == 1
    ensures RowAxis([a, b], sizes, inner, 6) == Axis([Span(0, 1), Span(1, 1)], [0, 0], [1, 1], inner.y, inner.h, 6, 24)
    ensures RowSpans([a, b]) == [Span(0, 1), Span(1, 1)]
  {
  }

  lemma TwoSpans(spans: seq<Span>)
    requires spans == [Span(0, 1), Span(1, 1)]
    ensures TrackCount(spans) == 2 && Covered(spans, 0) && Covered(spans, 1)
    ensures CoveredTo(spans, 1) == 1 && CoveredTo(spans, 2) == 2
  {
    assert LastTrack(spans, 0) == 0 && LastTrack(spans, 1) == 0 && LastTrack(spans, 2) == 1;
    assert Covers(spans[0], 0) && Covers(spans[1], 1);
    assert CoveredTo(spans, 0) == 0;
  }

  /** Two flexible rows share the height evenly. */
  lemma EvenRows(ax: Axis, inner: int)
    requires ax == Axis([Span(0, 1), Span(1, 1)], [0, 0], [1, 1], ax.start, inner, 6, 24) && inner >= 54
    ensures ax.Valid() && FlexSize(ax) == (inner - 6) / 2
    ensures WantedFits(ax) && WantedExtent(ax, 0) == FlexSize(ax)
  {
    TwoSpans(ax.spans);
    assert FixedAt(ax, 0, 0) == 0 && FixedAt(ax, 0, 1) == 0 && FixedAt(ax, 0, 2) == 0;
    assert FixedAt(ax, 1, 0) == 0 && FixedAt(ax, 1, 1) == 0 && FixedAt(ax, 1, 2) == 0;
    assert FixedSumTo(ax, 0) == 0 && FixedSumTo(ax, 1) == 0 && FixedSumTo(ax, 2) == 0;
    assert FlexTo(ax, 0) == 0 && FlexTo(ax, 1) == 1 && FlexTo(ax, 2) == 2;
    WantedTotal(ax, 2);
    assert WantedFrom(ax, 0, 0) == 0 && WantedFrom(ax, 0, 1) == TrackWanted(ax, 0);
  }

  /**
   A grid with a layout measuring 229 above one measuring 38, placed in exactly what it measures: both rows
   get 133, so the first layout gets less than it measures.
   */
  lemma NestedSqueezed()
    ensures var act := [Tall(), Short()];
            var sizes := [ChildSize(Tall()), ChildSize(Short())];
            var height := GridExtent(RowSpans(act), Heights(sizes), 6);
            var rows := RowAxis(act, sizes, Rect(0, 0, 100, height), 6);
            sizes[0].h == 229 && height == 273 && rows.Valid() && CellExtent(rows, 0) == 133
  {
    hide Sample, LayoutSize, CellExtent, WantedFits, WantedExtent, FlexSize;
    SampleSizes();
    var act, sizes := [Tall(), Short()], [ChildSize(Tall()), ChildSize(Short())];
    assert sizes[0].h == 229 && sizes[1].h == 38;
    assert Heights(sizes) == [229, 38];
    TwoRows(Tall(), Short(), sizes, Rect(0, 0, 100, 273));
    TwoExtents();
    var rows := RowAxis(act, sizes, Rect(0, 0, 100, 273), 6);
    EvenRows(rows, 273);
    NestedExtent(rows, 0);
  }

  lemma TwoExtents()
    ensures GridExtent([Span(0, 1), Span(1, 1)], [229, 38], 6) == 273
  {
    var spans, extents := [Span(0, 1), Span(1, 1)], [229, 38];
    TwoSpans(spans);
    assert ClaimTo(spans, extents, 0, 0) == 0 && ClaimTo(spans, extents, 0, 1) == 229 && ClaimTo(spans, extents, 0, 2) == 229;
    assert ClaimTo(spans, extents, 1, 0) == 0 && ClaimTo(spans, extents, 1, 1) == 0 && ClaimTo(spans, extents, 1, 2) == 38;
    assert ClaimsTo(spans, extents, 0) == 0 && ClaimsTo(spans, extents, 1) == 229 && ClaimsTo(spans, extents, 2) == 267;
  }

  // ---- widgets without a size of their own --------------------------------------------------------------------------------------

  function BareWidget(cls: string, children: seq<XmlNode>): XmlNode { XmlNode("widget", [Attribute("class", cls)], "", children) }

  function Edit(children: seq<XmlNode>): LayoutChild { PlainChild(Widget, BareWidget("QTextEdit", children), 0, 0, 1, 1, false) }

  function Line(): LayoutChild { PlainChild(Widget, BareWidget("QLineEdit", []), 0, 0, 1, 1, false) }

  lemma NoProperties(cls: string, children: seq<XmlNode>)
    requires children == [] || (|children| == 1 && children[0].name == "layout")
    ensures var node := BareWidget(cls, children);
            && node.Attr("class", "") == cls && ReadSizeConstraints(node) == UNCONSTRAINED && IsNodeVisible(node)
            && WidgetGeometry(node.ChildrenNamed("property")) == None
            && node.FirstChild("layout") == (if children == [] then None else Some(children[0]))
            && (cls == "QTextEdit" || cls == "QLineEdit" ==> EstimatedTextWidth(node) == 0)
  {
    assert AllNamed([], "property") == [];
    if children != [] { assert children[1..] == []; }
    assert AllNamed(children, "property") == [];
  }

  lemma BareSizes(children: seq<XmlNode>)
    requires children == [] || (|children| == 1 && children[0].name == "layout" && LayoutSize(children[0]).w > 0)
    ensures children == [] ==> ChildSize(Edit(children)) == ZERO && Widths([ZERO]) == [0]
    ensures children != [] ==> ChildSize(Edit(children)).w == LayoutSize(children[0]).w
    ensures ChildSize(Line()) == Size(80, 28)
  {
    hide LayoutSize, ReadSizeConstraints, WidgetGeometry, IsNodeVisible, EstimatedTextWidth;
    NoProperties("QTextEdit", children);
    NoProperties("QLineEdit", []);
    assert FlexibleClass("QTextEdit");
  }

  /** Two widgets that are flexible in a horizontal box share its width evenly, whatever they hold. */
  lemma TwoFlexible(a: LayoutChild, b: LayoutChild, sizes: seq<Size>)
    requires |sizes| == 2 && a.kind.Widget? && b.kind.Widget? && FlexibleHorizontally(a) && FlexibleHorizontally(b)
    ensures HLengths([a, b], sizes, 315, 6) == [155, 154]
  {
    hide FlexibleHorizontally, MinWidth;
    var slots := HorizontalSlots([a, b], sizes);
    assert slots == [FlexSlot(), FlexSlot()];
    assert CountedTo(slots, 0) == 0 && CountedTo(slots, 1) == 1 && CountedTo(slots, 2) == 2;
    assert ReceivingTo(slots, 0) == 0 && ReceivingTo(slots, 1) == 1;
    assert FixedTo(slots, 0) == 0 && FixedTo(slots, 1) == 0 && FixedTo(slots, 2) == 0;
    assert Spread(slots, 315, 6) == [155, 154];
    assert OccupiedTo([155, 154], 0) == 0 && OccupiedTo([155, 154], 1) == 155 && OccupiedTo([155, 154], 2) == 309;
  }

  /**
   A horizontal box of a text edit that holds a layout measuring 229 and a line edit measuring 80, placed in
   exactly what it measures: the text edit gets 155.
   */
  lemma TextEditSqueezed()
    ensures var act := [Edit([Sample("QHBoxLayout", "leftMargin", "200")]), Line()];
            var sizes := [ChildSize(act[0]), ChildSize(act[1])];
            && Widths(sizes) == [229, 80] && Sum(Widths(sizes)) + Gaps(6, 2) == 315
            && HLengths(act, sizes, 315, 6) == [155, 154]
  {
    hide Sample, LayoutSize, ChildSize, HLengths, FlexibleHorizontally, ToInt, BareWidget;
    ReadSamples();
    SampleSize("QHBoxLayout", "leftMargin", "200");
    SampleName("QHBoxLayout", "leftMargin", "200");
    var held := [Sample("QHBoxLayout", "leftMargin", "200")];
    BareSizes(held);
    BothFlexible(held);
    TwoFlexible(Edit(held), Line(), [ChildSize(Edit(held)), ChildSize(Line())]);
    assert SumTo([229, 80], 0) == 0 && SumTo([229, 80], 1) == 229 && SumTo([229, 80], 2) == 309;
  }

  lemma SampleName(cls: string, margin: string, value: string)
    ensures Sample(cls, margin, value).name == "layout"
  {
  }

  lemma BothFlexible(children: seq<XmlNode>)
    requires children == [] || (|children| == 1 && children[0].name == "layout")
    ensures FlexibleHorizontally(Edit(children)) && FlexibleHorizontally(Line())
  {
    hide ReadSizeConstraints;
    NoProperties("QTextEdit", children);
    NoProperties("QLineEdit", []);
  }

  /**
   A vertical box of two text edits measures only its spacing. Placed in exactly that, the second one
   stands below the box.
   */
  lemma EmptyChildrenOverflow()
    ensures var act := [Edit([]), Edit([])];
            var sizes := [ChildSize(act[0]), ChildSize(act[1])];
            var room := Sum(Heights(sizes)) + Gaps(6, 2);
            && room == 6 && !VBoxRoom(act, sizes, room, 6)
            && VBoxRectAt(act, sizes, Rect(0, 0, 100, room), 6, 1).y == 7
  {
    hide ChildSize, ResolvedVBoxWidth;
    BareSizes([]);
    var act, sizes := [Edit([]), Edit([])], [ZERO, ZERO];
    assert Heights(sizes) == [0, 0];
    assert SumTo([0, 0], 0) == 0 && SumTo([0, 0], 1) == 0 && SumTo([0, 0], 2) == 0;
    var slots := VerticalSlots(act, sizes);
    assert slots == [FlexSlot(), FlexSlot()];
    assert CountedTo(slots, 0) == 0 && CountedTo(slots, 1) == 1 && CountedTo(slots, 2) == 2;
    assert FixedTo(slots, 0) == 0 && FixedTo(slots, 1) == 0 && FixedTo(slots, 2) == 0;
    assert Spread(slots, 6, 6) == [0, 0];
    assert PosAt([0, 0], 6, 0, 6, 0) == 0 && PosAt([0, 0], 6, 0, 6, 1) == 7;
  }
}
