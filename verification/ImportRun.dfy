/** The measuring recursion and the emission of layouts as they run, with their loops over children. */
module ImportRun {
  import opened Arith
  import opened Xml
  import opened UiReader
  import opened Tracks
  import opened Measure
  import opened GridLayout
  import opened GridRun
  import opened Placement
  import opened ChildRects
  import opened ImportTree

  // ---- trees whose grid tables are never indexed outside -----------------------------------------------------------------

  /** What measuring a widget asks of the grids below it. */
  ghost predicate MeasurableWidget(node: XmlNode)
    decreases node, 0
  {
    var layout := node.FirstChild("layout");
    IsNodeVisible(node) && layout.Some? ==> MeasurableLayout(layout.value)
  }

  ghost predicate MeasurableLayout(node: XmlNode)
    decreases node, 1
  {
    && (IsGrid(node.Attr("class", "")) ==> MarkableCells(ActiveItems(node)))
    && forall i :: 0 <= i < |ActiveItems(node)| ==>
         (InsideSmaller(ActiveItems(node)[i].node, node); MeasurableChild(ActiveItems(node)[i]))
  }

  ghost predicate MeasurableChild(lc: LayoutChild)
    decreases lc.node, 2
  {
    match lc.kind
    case Spacer => true
    case Layout => MeasurableLayout(lc.node)
    case Widget => MeasurableWidget(lc.node)
  }

  predicate MarkableCells(act: seq<LayoutChild>) { MarkableSpans(RowSpans(act)) && MarkableSpans(ColSpans(act)) }

  /** The widgets of a grid that placing measures: those whose layout limits them to their size. */
  predicate MeasuredInGrid(lc: LayoutChild) {
    lc.kind.Widget? && lc.rowspan == 1 && MaximumSizeLayout(lc.node) &&
    var sc := ReadSizeConstraints(lc.node);
    !(sc.maxH.Some? && sc.maxH.value < 300) && !FixedSize(sc.minH, sc.maxH)
  }

  /** What placing asks of a layout and of the layouts nested in it: cells within the tables, and measurable children. */
  ghost predicate PlaceableLayout(node: XmlNode)
    decreases node
  {
    var cls, act := node.Attr("class", ""), ActiveItems(node);
    && (IsGrid(cls) ==> ValidCells(act))
    && (forall i :: 0 <= i < |act| && (IsVertical(cls) || IsHorizontal(cls) || (IsGrid(cls) && MeasuredInGrid(act[i]))) ==>
          MeasurableChild(act[i]))
    && forall i :: 0 <= i < |act| && act[i].kind.Layout? ==> (InsideSmaller(act[i].node, node); PlaceableLayout(act[i].node))
  }

  // ---- positions ------------------------------------------------------------------------------------------------------------

  /** Item `i`, when visible, is the next active child. */
  lemma NextActive(items: seq<LayoutChild>, i: nat)
    requires i < |items|
    ensures var k := |Active(items[..i])|;
            && (items[i].hidden ==> |Active(items[..i + 1])| == k)
            && (!items[i].hidden ==>
                  && |Active(items[..i + 1])| == k + 1 && k < |Active(items)| && Active(items)[k] == items[i]
                  && k < |ActiveIndices(items, |items|)| && ActiveIndices(items, |items|)[k] == i)
  {
    hide Active;
    ActiveSnoc(items[..i], items[i]);
    assert items[..i + 1] == items[..i] + [items[i]];
    ActiveCount(items, i);
    ActiveCount(items, i + 1);
    if !items[i].hidden {
      ActiveIsAt(items, |items|);
      IndicesPrefix(items, i + 1, |items|);
      assert items[..|items|] == items;
    }
  }

  lemma ActiveCount(items: seq<LayoutChild>, k: nat)
    requires k <= |items|
    ensures |ActiveIndices(items, k)| == |Active(items[..k])|
  {
    ActiveIsAt(items, k);
  }

  lemma {:induction false} IndicesPrefix(items: seq<LayoutChild>, i: nat, n: nat)
    requires i <= n <= |items|
    ensures ActiveIndices(items, i) <= ActiveIndices(items, n)
  {
    if i < n { IndicesPrefix(items, i, n - 1); }
  }

  // ---- measuring --------------------------------------------------------------------------------------------------------------

  method EstimateWidget(node: XmlNode) returns (size: Size)
    requires MeasurableWidget(node)
    ensures size == WidgetSize(node)
    decreases node, 0
  {
    if !IsNodeVisible(node) { return ZERO; }
    size := ZERO;
    var layout := node.FirstChild("layout");
    if layout.Some? { size := EstimateLayout(layout.value); }
    size := AdjustWidget(node, size);
  }

  method EstimateChild(lc: LayoutChild) returns (size: Size)
    requires MeasurableChild(lc)
    ensures size == ChildSize(lc)
    decreases lc.node, 2
  {
    match lc.kind
    case Spacer => size := Size(lc.sizeHintW, lc.sizeHintH);
    case Layout => size := EstimateLayout(lc.node);
    case Widget => size := EstimateWidget(lc.node);
  }

  lemma NextChild(node: XmlNode, items: seq<LayoutChild>, i: nat)
    requires MeasurableLayout(node) && items == LayoutItems(node) && i < |items|
    ensures var k := |Active(items[..i])|;
            && (items[i].hidden ==> |Active(items[..i + 1])| == k)
            && (!items[i].hidden ==>
                  && |Active(items[..i + 1])| == k + 1 && k < |ActiveItems(node)| && ActiveItems(node)[k] == items[i]
                  && SizesOf(ActiveItems(node))[k] == ChildSize(items[i])
                  && MeasurableChild(items[i]) && items[i].node < node)
  {
    hide ChildSize, IsGrid;
    NextActive(items, i);
    if !items[i].hidden {
      var k := |Active(items[..i])|;
      SizeAt(ActiveItems(node), k);
      InsideSmaller(ActiveItems(node)[k].node, node);
    }
  }

  lemma PrefixNext(want: seq<Size>, k: nat, x: Size)
    requires k < |want| && want[k] == x
    ensures want[..k] + [x] == want[..k + 1]
  {}

  lemma NoneActive(items: seq<LayoutChild>)
    ensures Active(items[..0]) == []
  {}

  /** Measures the visible children in order. */
  method EstimateChildren(node: XmlNode, items: seq<LayoutChild>) returns (sizes: seq<Size>)
    requires MeasurableLayout(node) && items == LayoutItems(node)
    ensures sizes == SizesOf(ActiveItems(node))
    decreases node, 0
  {
    hide ChildSize, SizesOf, MeasurableLayout, MeasurableChild, Active, LayoutItems;
    ghost var want := SizesOf(ActiveItems(node));
    sizes := [];
    NoneActive(items);
    for i := 0 to |items|
      invariant |Active(items[..i])| <= |want|
      invariant sizes == want[..|Active(items[..i])|]
    {
      NextChild(node, items, i);
      if !items[i].hidden {
        var size := EstimateChild(items[i]);
        PrefixNext(want, |Active(items[..i])|, size);
        sizes := sizes + [size];
      }
    }
    assert items[..|items|] == items;
  }

  method EstimateLayout(node: XmlNode) returns (size: Size)
    requires MeasurableLayout(node)
    ensures size == LayoutSize(node)
    decreases node, 1
  {
    hide ChildSize, ReadLayoutProps, Combine, SizesOf;
    var items := CollectFromLayout(node);
    if items == [] { return ZERO; }
    var sizes := EstimateChildren(node, items);
    MeasuredSizes(node);
    size := CombineSizes(node.Attr("class", ""), ReadLayoutProps(node), Active(items), sizes);
  }

  /** The branches over the layout class. */
  method CombineSizes(cls: string, lp: LayoutProps, act: seq<LayoutChild>, sizes: seq<Size>) returns (size: Size)
    requires |act| == |sizes| && (IsGrid(cls) ==> MarkableCells(act))
    ensures size == Combine(cls, lp, act, sizes)
  {
    hide GridExtent, Largest, Sum, Gaps;
    if IsVertical(cls) {
      var contentW, contentH := Accumulate(Widths(sizes), Heights(sizes), lp.vSpacing);
      size := Size(contentW + lp.left + lp.right, contentH + lp.top + lp.bottom);
    } else if IsHorizontal(cls) {
      var contentH, contentW := Accumulate(Heights(sizes), Widths(sizes), lp.hSpacing);
      size := Size(contentW + lp.left + lp.right, contentH + lp.top + lp.bottom);
    } else if IsGrid(cls) {
      var totalW := GridTotal(ColSpans(act), Widths(sizes), lp.hSpacing);
      var totalH := GridTotal(RowSpans(act), Heights(sizes), lp.vSpacing);
      size := Size(totalW + lp.left + lp.right, totalH + lp.top + lp.bottom);
    } else {
      size := ZERO;
    }
  }

  /** The accumulators of a box: the largest extent across and the sum along the axis. */
  method Accumulate(across: seq<int>, along: seq<int>, spacing: int) returns (largest: int, total: int)
    requires |across| == |along|
    ensures largest == Largest(across) && total == Sum(along) + Gaps(spacing, |along|)
  {
    largest, total := 0, 0;
    var count := 0;
    for i := 0 to |along|
      invariant largest == LargestTo(across, i) && total == SumTo(along, i) && count == i
    {
      largest := Max(largest, across[i]);
      total := total + along[i];
      count := count + 1;
    }
    total := total + spacing * Max(0, count - 1);
  }

  /** The measured extent of a grid along one axis, from a table of claims. */
  method GridTotal(spans: seq<Span>, extents: seq<int>, spacing: int) returns (total: int)
    requires |spans| == |extents| && MarkableSpans(spans)
    ensures total == GridExtent(spans, extents, spacing)
  {
    var n := CountTracks(spans);
    var has := MarkCovered(spans, n);
    var claims := FillClaims(spans, extents, n);
    total := 0;
    var active := 0;
    for r := 0 to n
      invariant total == ClaimsTo(spans, extents, r) && active == CoveredTo(spans, r)
    {
      if has[r] {
        total := total + claims[r];
        active := active + 1;
      }
    }
    total := total + spacing * Max(0, active - 1);
  }

  method FillClaims(spans: seq<Span>, extents: seq<int>, n: nat) returns (claims: array<int>)
    requires |spans| == |extents| && MarkableSpans(spans) && n == TrackCount(spans)
    ensures fresh(claims) && claims.Length == n
    ensures forall r :: 0 <= r < n ==> claims[r] == ClaimTo(spans, extents, r, |spans|)
  {
    claims := new int[n](_ => 0);
    for k := 0 to |spans|
      invariant forall r :: 0 <= r < n ==> claims[r] == ClaimTo(spans, extents, r, k)
    {
      var shared := Shared(extents[k], spans[k].len);
      var r := spans[k].start;
      while r < spans[k].start + spans[k].len
        invariant spans[k].start <= r <= Max(spans[k].start, spans[k].start + spans[k].len)
        invariant forall q :: 0 <= q < n ==>
                    claims[q] == if q < r then ClaimTo(spans, extents, q, k + 1) else ClaimTo(spans, extents, q, k)
      {
        claims[r] := Max(claims[r], shared);
        r := r + 1;
      }
    }
  }

  // ---- emission -----------------------------------------------------------------------------------------------------------------

  /** `emitLayoutContent`: nested layouts are emitted in place, into their rectangle. */
  method EmitLayoutContent(layout: XmlNode, rect: Rect) returns (out: seq<Element>)
    requires PlaceableLayout(layout)
    ensures out == EmitLayout(layout, rect)
    decreases layout
  {
    hide ChildRect, ChildSize, ReadLayoutProps;
    var items := CollectFromLayout(layout);
    var rects := ComputeChildRects(layout, items, rect);
    out := [];
    for i := 0 to |items|
      invariant |Active(items[..i])| <= |ActiveItems(layout)|
      invariant out == EmitTo(layout, rect, |Active(items[..i])|)
    {
      NextActive(items, i);
      if !items[i].hidden {
        ghost var k := |Active(items[..i])|;
        assert ActiveItems(layout)[k] == items[i] && rects[i] == RectAt(layout, rect, k);
        InsideSmaller(items[i].node, layout);
        if items[i].kind.Layout? {
          var nested := EmitLayoutContent(items[i].node, rects[i]);
          out := out + nested;
        } else {
          out := out + [Element(items[i], rects[i])];
        }
      }
    }
    assert items[..|items|] == items;
  }
}
