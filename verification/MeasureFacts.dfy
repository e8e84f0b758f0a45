/** What a widget measures, read off its XML: caption, layout, class, geometry and size constraints. */
module MeasureFacts {
  import opened Arith
  import opened Text
  import opened Xml
  import opened UiReader
  import opened UiLookups
  import opened Measure

  // ---- captions --------------------------------------------------------------------------------------------------------

  predicate TextClass(cls: string) {
    cls in ["QLabel", "QPushButton", "QToolButton", "QCheckBox", "QRadioButton", "QCommandLinkButton"]
  }

  /** The room around the text. */
  function Padding(cls: string): int {
    if cls in ["QPushButton", "QToolButton"] then 24
    else if cls in ["QCheckBox", "QRadioButton"] then 28
    else if cls == "QCommandLinkButton" then 40
    else 12
  }

  /** The caption of a widget: the first caption property that has a value. */
  predicate HasCaption(node: XmlNode, k: nat) {
    var props := node.ChildrenNamed("property");
    k < |props| && IsCaption(props[k]) && forall j :: 0 <= j < k ==> !IsCaption(props[j])
  }

  function Caption(node: XmlNode, k: nat): string
    requires HasCaption(node, k)
  {
    Trimmed(node.ChildrenNamed("property")[k].children[0].text)
  }

  function WithText(w: int, node: XmlNode): int {
    Max(w, EstimatedTextWidth(node))
  }

  lemma TextWidth(node: XmlNode, k: nat)
    requires HasCaption(node, k)
    ensures EstimatedTextWidth(node)
            == if TextClass(node.Attr("class", "")) && Caption(node, k) != "" then 7 * |Caption(node, k)| + Padding(node.Attr("class", "")) else 0
  {
    FirstCaption(node.ChildrenNamed("property"), k);
  }

  lemma NoText(node: XmlNode)
    requires !TextClass(node.Attr("class", "")) || forall p :: p in node.ChildrenNamed("property") ==> !IsCaption(p)
    ensures EstimatedTextWidth(node) == 0
  {
    var props := node.ChildrenNamed("property");
    if forall p :: p in props ==> !IsCaption(p) {
      forall j | 0 <= j < |props| ensures !IsCaption(props[j]) { assert props[j] in props; }
      NoCaption(props);
    }
  }

  // ---- the extent before constraints --------------------------------------------------------------------------------------

  predicate NoMaximumWidth(node: XmlNode) {
    LastSaid(node.ChildrenNamed("property"), p => MaximumSaid(p, "width")) == None
  }

  predicate Unconstrained(node: XmlNode) {
    forall p :: p in node.ChildrenNamed("property") ==> p.Attr("name", "") !in ["minimumSize", "maximumSize"]
  }

  lemma UnconstrainedReads(node: XmlNode)
    requires Unconstrained(node)
    ensures ReadSizeConstraints(node) == UNCONSTRAINED
  {
    hide ToInt;
    var props := node.ChildrenNamed("property");
    ConstraintsByLookup(node);
    forall j | 0 <= j < |props|
      ensures MinimumSaid(props[j], "width").None? && MinimumSaid(props[j], "height").None?
              && MaximumSaid(props[j], "width").None? && MaximumSaid(props[j], "height").None?
    {
      assert props[j] in props;
    }
    NothingSaid(props, p => MinimumSaid(p, "width"));
    NothingSaid(props, p => MinimumSaid(p, "height"));
    NothingSaid(props, p => MaximumSaid(p, "width"));
    NothingSaid(props, p => MaximumSaid(p, "height"));
  }

  function LayoutOf(node: XmlNode): Size {
    if node.FirstChild("layout").Some? then LayoutSize(node.FirstChild("layout").value) else ZERO
  }

  /** A visible widget with a caption and no maximum width is wide enough for its text and the room around it. */
  lemma TextFits(node: XmlNode, k: nat)
    requires IsNodeVisible(node) && TextClass(node.Attr("class", "")) && HasCaption(node, k) && Caption(node, k) != "" && NoMaximumWidth(node)
    ensures WidgetSize(node).w >= 7 * |Caption(node, k)| + Padding(node.Attr("class", ""))
  {
    hide LayoutSize, ReadSizeConstraints, EstimatedTextWidth, Caption, WidgetGeometry, ClassPreferredW, ClassPreferredH, Padding, TextClass;
    TextWidth(node, k);
    PaddingPositive(node.Attr("class", ""));
    ConstraintsByLookup(node);
    assert ReadSizeConstraints(node).maxW == None;
  }

  lemma PaddingPositive(cls: string)
    ensures Padding(cls) > 0
  {}

  lemma ClassNotNegative(cls: string)
    ensures ClassPreferredW(cls) >= 0
  {}

  /** Without constraints: the layout's size where it has one, else that of the class; the text may need more width. */
  lemma LayoutOrClassWins(node: XmlNode)
    requires IsNodeVisible(node) && Unconstrained(node)
    ensures LayoutOf(node).w > 0 ==> WidgetSize(node).w == WithText(LayoutOf(node).w, node)
    ensures LayoutOf(node).h > 0 ==> WidgetSize(node).h == LayoutOf(node).h
    ensures LayoutOf(node).w <= 0 && ClassPreferredW(node.Attr("class", "")) > 0
            ==> WidgetSize(node).w == WithText(ClassPreferredW(node.Attr("class", "")), node)
    ensures LayoutOf(node).h <= 0 && ClassPreferredH(node.Attr("class", "")) > 0
            ==> WidgetSize(node).h == ClassPreferredH(node.Attr("class", ""))
    ensures LayoutOf(node).w <= 0 && EstimatedTextWidth(node) > ClassPreferredW(node.Attr("class", ""))
            ==> WidgetSize(node).w == EstimatedTextWidth(node)
  {
    hide LayoutSize, ReadSizeConstraints, EstimatedTextWidth, WidgetGeometry, ClassPreferredW, ClassPreferredH;
    UnconstrainedReads(node);
    ClassNotNegative(node.Attr("class", ""));
  }

  /** The position of the geometry property that counts, and its rectangle. */
  predicate HasGeometry(node: XmlNode, k: nat) {
    var props := node.ChildrenNamed("property");
    && k < |props| && props[k].Attr("name", "") == "geometry" && props[k].FirstChild("rect").Some?
    && props[k].FirstChild("rect").value.FirstChild("width").Some? && props[k].FirstChild("rect").value.FirstChild("height").Some?
    && forall j :: 0 <= j < k ==> props[j].Attr("name", "") != "geometry" || props[j].FirstChild("rect").None?
  }

  function GeometrySaid(node: XmlNode, k: nat, dimension: string): int
    requires HasGeometry(node, k) && dimension in ["width", "height"]
  {
    ToInt(node.ChildrenNamed("property")[k].FirstChild("rect").value.FirstChild(dimension).value.text)
  }

  /**
   A widget with nothing else to measure by has the size of its geometry, its width from the width and its
   height from the height.
   */
  lemma GeometryIsLast(node: XmlNode, k: nat)
    requires IsNodeVisible(node) && Unconstrained(node) && HasGeometry(node, k)
    ensures LayoutOf(node).w <= 0 && ClassPreferredW(node.Attr("class", "")) == 0 && EstimatedTextWidth(node) == 0
            ==> WidgetSize(node).w == GeometrySaid(node, k, "width")
    ensures LayoutOf(node).h <= 0 && ClassPreferredH(node.Attr("class", "")) == 0
            ==> WidgetSize(node).h == GeometrySaid(node, k, "height")
  {
    hide LayoutSize, ReadSizeConstraints, EstimatedTextWidth, WidgetGeometry, ClassPreferredW, ClassPreferredH, ToInt;
    UnconstrainedReads(node);
    FirstGeometry(node.ChildrenNamed("property"), k);
  }

  lemma HiddenMeasuresNothing(node: XmlNode)
    requires !IsNodeVisible(node)
    ensures WidgetSize(node) == ZERO
  {
  }

  // ---- constraints ------------------------------------------------------------------------------------------------------------

  /** A measured extent and its bounds: equal bounds fix it, a maximum caps it, and the minimum holds unless the maximum is smaller. */
  predicate Bounded(extent: int, min: Option<int>, max: Option<int>) {
    && (min.Some? && max.Some? && min.value == max.value ==> extent == min.value)
    && (min.Some? && (max.None? || min.value <= max.value) ==> extent >= min.value)
    && (max.Some? && extent > 0 ==> extent <= max.value)
  }

  /** Whatever else a visible widget measures by, its size keeps to its own minimum and maximum sizes. */
  lemma SizeIsBounded(node: XmlNode)
    requires IsNodeVisible(node)
    ensures var props := node.ChildrenNamed("property");
            && Bounded(WidgetSize(node).w, LastSaid(props, p => MinimumSaid(p, "width")), LastSaid(props, p => MaximumSaid(p, "width")))
            && Bounded(WidgetSize(node).h, LastSaid(props, p => MinimumSaid(p, "height")), LastSaid(props, p => MaximumSaid(p, "height")))
  {
    hide LayoutSize, ReadSizeConstraints, EstimatedTextWidth, WidgetGeometry, ClassPreferredW, ClassPreferredH, LastSaid;
    ConstraintsByLookup(node);
  }

  predicate Within(extent: int, min: Option<int>, max: Option<int>) {
    extent > 0 && (min.Some? ==> min.value <= extent) && (max.Some? ==> extent <= max.value)
  }

  /** Bounds that the size of the layout, with the text, already keeps change nothing. */
  lemma BoundsLeaveAlone(node: XmlNode)
    requires IsNodeVisible(node)
    ensures var props := node.ChildrenNamed("property");
            && (LayoutOf(node).w > 0 && Within(WithText(LayoutOf(node).w, node), LastSaid(props, p => MinimumSaid(p, "width")), LastSaid(props, p => MaximumSaid(p, "width")))
                ==> WidgetSize(node).w == WithText(LayoutOf(node).w, node))
            && (Within(LayoutOf(node).h, LastSaid(props, p => MinimumSaid(p, "height")), LastSaid(props, p => MaximumSaid(p, "height")))
                ==> WidgetSize(node).h == LayoutOf(node).h)
  {
    hide LayoutSize, ReadSizeConstraints, EstimatedTextWidth, WidgetGeometry, ClassPreferredW, ClassPreferredH, LastSaid;
    ConstraintsByLookup(node);
  }

  /** With nothing to measure by, a maximum below 400 wide or 300 high stands in for the size; a larger one does not. */
  lemma MaximumStandsIn(node: XmlNode)
    requires IsNodeVisible(node) && LayoutOf(node) == ZERO && ClassPreferredW(node.Attr("class", "")) == 0
    requires ClassPreferredH(node.Attr("class", "")) == 0 && EstimatedTextWidth(node) == 0
    requires forall p :: p in node.ChildrenNamed("property") ==> p.Attr("name", "") !in ["minimumSize", "geometry"]
    ensures var props := node.ChildrenNamed("property");
            var w, h := LastSaid(props, p => MaximumSaid(p, "width")), LastSaid(props, p => MaximumSaid(p, "height"));
            WidgetSize(node) == Size(if w.Some? && w.value < 400 then w.value else 0, if h.Some? && h.value < 300 then h.value else 0)
  {
    hide LayoutSize, ReadSizeConstraints, EstimatedTextWidth, ClassPreferredW, ClassPreferredH, ToInt;
    var props := node.ChildrenNamed("property");
    ConstraintsByLookup(node);
    forall j | 0 <= j < |props|
      ensures MinimumSaid(props[j], "width").None? && MinimumSaid(props[j], "height").None? && props[j].Attr("name", "") != "geometry"
    {
      assert props[j] in props;
    }
    NothingSaid(props, p => MinimumSaid(p, "width"));
    NothingSaid(props, p => MinimumSaid(p, "height"));
    NoGeometry(props);
  }

  lemma {:induction false} NoGeometry(props: seq<XmlNode>)
    requires forall j :: 0 <= j < |props| ==> props[j].Attr("name", "") != "geometry"
    ensures WidgetGeometry(props) == None
    decreases |props|
  {
    hide ToInt;
    if props != [] { NoGeometry(props[1..]); }
  }
}
