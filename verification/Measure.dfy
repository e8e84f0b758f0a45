/** The measuring pass: preferred sizes of widgets and layouts, bottom-up over the tree. */
module Measure {
  import opened Arith
  import opened Text
  import opened Xml
  import opened UiReader
  import opened Tracks

  datatype Size = Size(w: int, h: int)

  const ZERO := Size(0, 0)

  function Widths(sizes: seq<Size>): (r: seq<int>)
    ensures |r| == |sizes|
  {
    seq(|sizes|, i requires 0 <= i < |sizes| => sizes[i].w)
  }

  function Heights(sizes: seq<Size>): (r: seq<int>)
    ensures |r| == |sizes|
  {
    seq(|sizes|, i requires 0 <= i < |sizes| => sizes[i].h)
  }

  /** The largest of the first `k` elements and zero. */
  function LargestTo(s: seq<int>, k: nat): (m: int)
    requires k <= |s|
    ensures m >= 0 && forall i :: 0 <= i < k ==> s[i] <= m
  {
    if k == 0 then 0 else Max(LargestTo(s, k - 1), s[k - 1])
  }

  function Largest(s: seq<int>): (m: int)
    ensures m >= 0 && forall i :: 0 <= i < |s| ==> s[i] <= m
  {
    LargestTo(s, |s|)
  }

  /** The spacing between `n` segments. */
  function Gaps(spacing: int, n: nat): int { spacing * Max(0, n - 1) }

  // ---- grids ------------------------------------------------------------------------------------------

  /** A child's share of each track it spans, rounded up. */
  function Shared(extent: int, len: int): int {
    if len > 0 then (Max(0, extent) + len - 1) / len else Max(0, extent)
  }

  /** The largest share that the first `k` children claim on a track. */
  function ClaimTo(spans: seq<Span>, extents: seq<int>, r: int, k: nat): (m: int)
    requires k <= |spans| == |extents|
  {
    if k == 0 then 0
    else
      var m := ClaimTo(spans, extents, r, k - 1);
      if Covers(spans[k - 1], r) then Max(m, Shared(extents[k - 1], spans[k - 1].len)) else m
  }

  /** The total of the claims of the covered tracks among the first `n`. */
  function ClaimsTo(spans: seq<Span>, extents: seq<int>, n: nat): int
    requires |spans| == |extents|
  {
    if n == 0 then 0
    else ClaimsTo(spans, extents, n - 1) + if Covered(spans, n - 1) then ClaimTo(spans, extents, n - 1, |spans|) else 0
  }

  function CoveredTo(spans: seq<Span>, n: nat): nat {
    if n == 0 then 0 else CoveredTo(spans, n - 1) + if Covered(spans, n - 1) then 1 else 0
  }

  /** The extent of a grid along one axis: the claims of the covered tracks and the spacing between them. */
  function GridExtent(spans: seq<Span>, extents: seq<int>, spacing: int): int
    requires |spans| == |extents|
  {
    ClaimsTo(spans, extents, TrackCount(spans)) + Gaps(spacing, CoveredTo(spans, TrackCount(spans)))
  }

  function RowSpans(items: seq<LayoutChild>): (r: seq<Span>)
    ensures |r| == |items|
  {
    seq(|items|, i requires 0 <= i < |items| => Span(items[i].row, items[i].rowspan))
  }

  function ColSpans(items: seq<LayoutChild>): (r: seq<Span>)
    ensures |r| == |items|
  {
    seq(|items|, i requires 0 <= i < |items| => Span(items[i].col, items[i].colspan))
  }

  // ---- combination --------------------------------------------------------------------------------------

  predicate IsVertical(cls: string) { cls == "QVBoxLayout" || cls == "QFormLayout" }

  predicate IsHorizontal(cls: string) { cls == "QHBoxLayout" }

  predicate IsGrid(cls: string) { cls == "QGridLayout" }

  /** The preferred size of a layout from those of its active children. */
  function Combine(cls: string, lp: LayoutProps, act: seq<LayoutChild>, sizes: seq<Size>): Size
    requires |act| == |sizes|
  {
    var ws, hs := Widths(sizes), Heights(sizes);
    if IsVertical(cls) then
      Size(Largest(ws) + lp.left + lp.right, Sum(hs) + Gaps(lp.vSpacing, |act|) + lp.top + lp.bottom)
    else if IsHorizontal(cls) then
      Size(Sum(ws) + Gaps(lp.hSpacing, |act|) + lp.left + lp.right, Largest(hs) + lp.top + lp.bottom)
    else if IsGrid(cls) then
      Size(GridExtent(ColSpans(act), ws, lp.hSpacing) + lp.left + lp.right,
           GridExtent(RowSpans(act), hs, lp.vSpacing) + lp.top + lp.bottom)
    else ZERO
  }

  /** A measured extent under its constraints; `cap` bounds the maximums that stand in for a size. */
  function Constrain(extent: int, min: Option<int>, max: Option<int>, cap: int): int {
    if FixedSize(min, max) then min.value
    else
      var a := if extent <= 0 && max.Some? && max.value < cap then max.value else extent;
      var b := if min.Some? then Max(a, min.value) else a;
      if b > 0 && max.Some? then Min(b, max.value) else b
  }

  /** The preferred size of a visible widget, given that of its layout. */
  function AdjustWidget(node: XmlNode, inner: Size): Size {
    var cls, sc := node.Attr("class", ""), ReadSizeConstraints(node);
    var geom := WidgetGeometry(node.ChildrenNamed("property"));
    var w := Max(if inner.w <= 0 then ClassPreferredW(cls) else inner.w, EstimatedTextWidth(node));
    var h := if inner.h <= 0 then ClassPreferredH(cls) else inner.h;
    Size(Constrain(if w <= 0 && geom.Some? then geom.value.w else w, sc.minW, sc.maxW, 400),
         Constrain(if h <= 0 && geom.Some? then geom.value.h else h, sc.minH, sc.maxH, 300))
  }

  lemma InsideSmaller(x: XmlNode, owner: XmlNode)
    requires Inside(x, owner.children)
    ensures x < owner
  {
    var i :| 0 <= i < |owner.children| && x in owner.children[i].children;
    assert owner.children[i] < owner;
    var j :| 0 <= j < |owner.children[i].children| && owner.children[i].children[j] == x;
  }

  function ActiveItems(layout: XmlNode): (r: seq<LayoutChild>)
    ensures forall lc :: lc in r ==> Inside(lc.node, layout.children) && !lc.hidden && Genuine(lc)
  {
    Active(LayoutItems(layout))
  }

  function WidgetSize(node: XmlNode): Size
    decreases node, 0
  {
    if !IsNodeVisible(node) then ZERO
    else
      var layout := node.FirstChild("layout");
      AdjustWidget(node, if layout.Some? then LayoutSize(layout.value) else ZERO)
  }

  function LayoutSize(node: XmlNode): Size
    decreases node, 1
  {
    if LayoutItems(node) == [] then ZERO
    else Combine(node.Attr("class", ""), ReadLayoutProps(node), ActiveItems(node), ChildSizes(ActiveItems(node), node))
  }

  function ChildSizes(items: seq<LayoutChild>, ghost owner: XmlNode): (r: seq<Size>)
    requires forall lc :: lc in items ==> Inside(lc.node, owner.children)
    ensures |r| == |items|
    decreases owner, 0, |items|
  {
    if items == [] then []
    else
      InsideSmaller(items[0].node, owner);
      [ChildSize(items[0])] + ChildSizes(items[1..], owner)
  }

  function ChildSize(lc: LayoutChild): Size
    decreases lc.node, 2
  {
    match lc.kind
    case Spacer => Size(lc.sizeHintW, lc.sizeHintH)
    case Layout => LayoutSize(lc.node)
    case Widget => WidgetSize(lc.node)
  }

  lemma {:induction false} ChildSizeAt(items: seq<LayoutChild>, owner: XmlNode, k: nat)
    requires forall lc :: lc in items ==> Inside(lc.node, owner.children)
    requires k < |items|
    ensures ChildSizes(items, owner)[k] == ChildSize(items[k])
  {
    if k > 0 { ChildSizeAt(items[1..], owner, k - 1); }
  }
}
