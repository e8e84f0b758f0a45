/** Reading a Qt `.ui` tree: visibility, size constraints, layout properties and layout children. */
module UiReader {
  import opened Arith
  import opened Text
  import opened Xml

  datatype Rect = Rect(x: int, y: int, w: int, h: int)

  /** The value of a default-constructed rectangle. */
  const DEFAULT_RECT := Rect(0, 0, 400, 300)

  function IntOf(node: Option<XmlNode>, default: int): int {
    if node.Some? then ToInt(node.value.text) else default
  }

  function ParseRect(node: XmlNode): Rect {
    Rect(IntOf(node.FirstChild("x"), 0), IntOf(node.FirstChild("y"), 0),
         IntOf(node.FirstChild("width"), 400), IntOf(node.FirstChild("height"), 300))
  }

  /** The geometry property of a widget, from the first such property that holds a rectangle. */
  function WidgetGeometry(props: seq<XmlNode>): Option<Rect>
    decreases |props|
  {
    if props == [] then None
    else if props[0].Attr("name", "") == "geometry" && props[0].FirstChild("rect").Some? then
      Some(ParseRect(props[0].FirstChild("rect").value))
    else WidgetGeometry(props[1..])
  }

  predicate IsTrueText(text: string) {
    var value := ToLower(Trimmed(text));
    value != "false" && value != "0"
  }

  /** The first `visible` property decides; without one a node is visible. */
  predicate PropertiesVisible(props: seq<XmlNode>)
    decreases |props|
  {
    if props == [] then true
    else if props[0].Attr("name", "") != "visible" then PropertiesVisible(props[1..])
    else
      var b, n := props[0].FirstChild("bool"), props[0].FirstChild("number");
      if b.Some? then IsTrueText(b.value.text)
      else if n.Some? then ToInt(n.value.text) != 0
      else if props[0].children != [] then IsTrueText(props[0].children[0].text)
      else true
  }

  predicate IsNodeVisible(node: XmlNode) { PropertiesVisible(node.ChildrenNamed("property")) }

  // ---- size constraints -----------------------------------------------------------------------------

  const NO_MAXIMUM := 16777215

  /** Minimum and maximum sizes, where set. A set minimum is positive; a set maximum is proper. */
  datatype SizeConstraints = SizeConstraints(minW: Option<int>, minH: Option<int>, maxW: Option<int>, maxH: Option<int>)
  {
    predicate Valid() {
      && (minW.Some? ==> minW.value > 0) && (minH.Some? ==> minH.value > 0)
      && (maxW.Some? ==> 0 < maxW.value < NO_MAXIMUM) && (maxH.Some? ==> 0 < maxH.value < NO_MAXIMUM)
    }
  }

  const UNCONSTRAINED := SizeConstraints(None, None, None, None)

  function AddConstraint(sc: SizeConstraints, prop: XmlNode): SizeConstraints {
    var name, size := prop.Attr("name", ""), prop.FirstChild("size");
    if (name != "minimumSize" && name != "maximumSize") || size.None? then sc
    else
      var w, h := IntOf(size.value.FirstChild("width"), 0), IntOf(size.value.FirstChild("height"), 0);
      if name == "minimumSize" then
        sc.(minW := if w > 0 then Some(w) else sc.minW, minH := if h > 0 then Some(h) else sc.minH)
      else
        sc.(maxW := if 0 < w < NO_MAXIMUM then Some(w) else sc.maxW, maxH := if 0 < h < NO_MAXIMUM then Some(h) else sc.maxH)
  }

  function AddConstraints(sc: SizeConstraints, props: seq<XmlNode>): (r: SizeConstraints)
    ensures sc.Valid() ==> r.Valid()
    decreases |props|
  {
    if props == [] then sc else AddConstraints(AddConstraint(sc, props[0]), props[1..])
  }

  function ReadSizeConstraints(node: XmlNode): (r: SizeConstraints)
    ensures r.Valid()
  {
    AddConstraints(UNCONSTRAINED, node.ChildrenNamed("property"))
  }

  predicate FixedSize(min: Option<int>, max: Option<int>) { min.Some? && max.Some? && min.value == max.value }

  // ---- class tables -----------------------------------------------------------------------------------

  function ClassPreferredH(cls: string): int {
    if cls == "QLabel" || cls == "QCheckBox" || cls == "QRadioButton" then 22
    else if cls == "QLineEdit" || cls == "QToolButton" || cls == "QComboBox" || cls == "QSlider"
         || cls == "QSpinBox" || cls == "QDoubleSpinBox" then 28
    else if cls == "QPushButton" then 32
    else if cls == "QProgressBar" then 20
    else if cls == "QCommandLinkButton" then 50
    else 0
  }

  function ClassPreferredW(cls: string): int {
    if cls == "QLabel" then 60
    else if cls == "QLineEdit" || cls == "QPushButton" || cls == "QCheckBox" || cls == "QRadioButton"
         || cls == "QProgressBar" || cls == "QDoubleSpinBox" then 80
    else if cls == "QToolButton" then 40
    else if cls == "QComboBox" then 100
    else if cls == "QSpinBox" then 70
    else if cls == "QCommandLinkButton" then 120
    else 0
  }

  function WidgetText(props: seq<XmlNode>): string
    decreases |props|
  {
    if props == [] then ""
    else
      var name := props[0].Attr("name", "");
      if (name == "text" || name == "title" || name == "windowTitle") && props[0].children != []
      then Trimmed(props[0].children[0].text)
      else WidgetText(props[1..])
  }

  function EstimatedTextWidth(node: XmlNode): int {
    var cls := node.Attr("class", "");
    var text := WidgetText(node.ChildrenNamed("property"));
    var button := cls == "QPushButton" || cls == "QToolButton";
    var choice := cls == "QCheckBox" || cls == "QRadioButton";
    var padding := if button then 24 else if choice then 28 else if cls == "QCommandLinkButton" then 40 else 12;
    if (button || choice || cls == "QLabel" || cls == "QCommandLinkButton") && text != ""
    then |text| * 7 + padding else 0
  }

  predicate FlexibleClass(cls: string) {
    cls == "QLineEdit" || cls == "QTextEdit" || cls == "QPlainTextEdit" || cls == "QTreeWidget"
    || cls == "QListWidget" || cls == "QTableWidget" || cls == "QTreeView" || cls == "QListView" || cls == "QTableView"
  }

  // ---- layouts ------------------------------------------------------------------------------------------

  datatype LayoutProps = LayoutProps(left: int, top: int, right: int, bottom: int, hSpacing: int, vSpacing: int)

  function AddLayoutProp(p: LayoutProps, prop: XmlNode): LayoutProps {
    var name, num := prop.Attr("name", ""), prop.FirstChild("number");
    if num.None? then p
    else
      var v := ToInt(num.value.text);
      if name == "leftMargin" then p.(left := v)
      else if name == "topMargin" then p.(top := v)
      else if name == "rightMargin" then p.(right := v)
      else if name == "bottomMargin" then p.(bottom := v)
      else if name == "spacing" then p.(hSpacing := v, vSpacing := v)
      else if name == "horizontalSpacing" then p.(hSpacing := v)
      else if name == "verticalSpacing" then p.(vSpacing := v)
      else if name == "margin" then p.(left := v, top := v, right := v, bottom := v)
      else p
  }

  function AddLayoutProps(p: LayoutProps, props: seq<XmlNode>): LayoutProps
    decreases |props|
  {
    if props == [] then p else AddLayoutProps(AddLayoutProp(p, props[0]), props[1..])
  }

  function ReadLayoutProps(node: XmlNode): LayoutProps {
    AddLayoutProps(LayoutProps(9, 9, 9, 9, 6, 6), node.ChildrenNamed("property"))
  }

  datatype Kind = Widget | Layout | Spacer

  datatype LayoutChild = LayoutChild(
    kind: Kind, node: XmlNode, row: int, col: int, rowspan: int, colspan: int,
    sizeHintW: int, sizeHintH: int, orientation: string, sizeType: string, hidden: bool)

  datatype SpacerHints = SpacerHints(w: int, h: int, orientation: string, sizeType: Option<string>)

  function AddSpacerHint(s: SpacerHints, prop: XmlNode): SpacerHints {
    var name, e := prop.Attr("name", ""), prop.FirstChild("enum");
    if name == "sizeHint" then
      var size := prop.FirstChild("size");
      if size.None? then s
      else
        var w, h := size.value.FirstChild("width"), size.value.FirstChild("height");
        s.(w := if w.Some? then Max(0, ToInt(w.value.text)) else s.w,
           h := if h.Some? then Max(0, ToInt(h.value.text)) else s.h)
    else if name == "orientation" && e.Some? && e.value.text != "" then s.(orientation := Trimmed(e.value.text))
    else if name == "sizeType" && e.Some? && e.value.text != "" then s.(sizeType := Some(Trimmed(e.value.text)))
    else s
  }

  function AddSpacerHints(s: SpacerHints, props: seq<XmlNode>): (r: SpacerHints)
    ensures s.w >= 0 && s.h >= 0 ==> r.w >= 0 && r.h >= 0
    decreases |props|
  {
    if props == [] then s else AddSpacerHints(AddSpacerHint(s, props[0]), props[1..])
  }

  const SIZE_HINT := 20

  /** A spacer without a size type expands. */
  function SpacerChild(node: XmlNode, row: int, col: int, rowspan: int, colspan: int): (r: LayoutChild)
    ensures r.kind.Spacer? && r.node == node && r.sizeHintW >= 0 && r.sizeHintH >= 0 && !r.hidden
    ensures r.row == row && r.col == col && r.rowspan == rowspan && r.colspan == colspan
  {
    var s := AddSpacerHints(SpacerHints(SIZE_HINT, SIZE_HINT, "Qt::Horizontal", None), node.ChildrenNamed("property"));
    LayoutChild(Spacer, node, row, col, rowspan, colspan, s.w, s.h, s.orientation,
                if s.sizeType.Some? then s.sizeType.value else "QSizePolicy::Expanding", false)
  }

  function PlainChild(kind: Kind, node: XmlNode, row: int, col: int, rowspan: int, colspan: int, hidden: bool): LayoutChild {
    LayoutChild(kind, node, row, col, rowspan, colspan, SIZE_HINT, SIZE_HINT, "Qt::Horizontal", "QSizePolicy::Minimum", hidden)
  }

  function NormalizedSpacerPolicy(value: string): string { Trimmed(AfterLast(Trimmed(value), ':')) }

  predicate SpacerCanExpand(lc: LayoutChild) {
    lc.kind.Spacer? &&
    var policy := NormalizedSpacerPolicy(lc.sizeType);
    policy == "Expanding" || policy == "MinimumExpanding" || policy == "Ignored"
  }

  predicate FlexibleHorizontally(lc: LayoutChild) {
    lc.kind.Widget? &&
    var sc := ReadSizeConstraints(lc.node);
    && !FixedSize(sc.minW, sc.maxW)
    && !(sc.maxW.Some? && sc.maxW.value < 400)
    && FlexibleClass(lc.node.Attr("class", ""))
  }

  predicate VerticalSpacer(lc: LayoutChild) { Contains(ToLower(lc.orientation), "vertical") }

  predicate HorizontalSpacer(lc: LayoutChild) { Contains(ToLower(lc.orientation), "horizontal") }

  // ---- collecting the children of a layout -----------------------------------------------------------------

  predicate Recognised(node: XmlNode) { node.name == "widget" || node.name == "layout" || node.name == "spacer" }

  /** The first recognised child of an item stands for the item. */
  function FirstRecognised(nodes: seq<XmlNode>): (r: Option<XmlNode>)
    ensures r.Some? ==> r.value in nodes && Recognised(r.value)
  {
    if nodes == [] then None else if Recognised(nodes[0]) then Some(nodes[0]) else FirstRecognised(nodes[1..])
  }

  /** What holds of every collected child: only invisible widgets are hidden and hints are not negative. */
  predicate Genuine(lc: LayoutChild) {
    && lc.hidden == (lc.kind.Widget? && !IsNodeVisible(lc.node))
    && (lc.kind.Spacer? ==> lc.sizeHintW >= 0 && lc.sizeHintH >= 0)
  }

  function ItemChild(item: XmlNode): (r: seq<LayoutChild>)
    ensures |r| <= 1 && forall lc :: lc in r ==> lc.node in item.children
    ensures forall lc :: lc in r ==> Genuine(lc)
  {
    var row, col := ToInt(item.Attr("row", "0")), ToInt(item.Attr("column", "0"));
    var rowspan, colspan := ToInt(item.Attr("rowspan", "1")), ToInt(item.Attr("colspan", "1"));
    match FirstRecognised(item.children)
    case None => []
    case Some(child) =>
      if child.name == "widget" then [PlainChild(Widget, child, row, col, rowspan, colspan, !IsNodeVisible(child))]
      else if child.name == "layout" then [PlainChild(Layout, child, row, col, rowspan, colspan, false)]
      else [SpacerChild(child, row, col, rowspan, colspan)]
  }

  /** `x` lies strictly inside one of the nodes. */
  ghost predicate Inside(x: XmlNode, nodes: seq<XmlNode>) {
    exists i :: 0 <= i < |nodes| && x in nodes[i].children
  }

  function Collected(nodes: seq<XmlNode>): (r: seq<LayoutChild>)
    ensures forall lc :: lc in r ==> Inside(lc.node, nodes)
    ensures forall lc :: lc in r ==> Genuine(lc)
  {
    if nodes == [] then []
    else
      var first := if nodes[0].name == "item" then ItemChild(nodes[0]) else [];
      var rest := Collected(nodes[1..]);
      assert forall x: XmlNode :: Inside(x, nodes[1..]) ==> Inside(x, nodes) by {
        forall x: XmlNode | Inside(x, nodes[1..]) ensures Inside(x, nodes) {
          var i :| 0 <= i < |nodes[1..]| && x in nodes[1..][i].children;
          assert x in nodes[i + 1].children;
        }
      }
      first + rest
  }

  /** The children of a layout in document order. */
  function LayoutItems(layout: XmlNode): (r: seq<LayoutChild>)
    ensures forall lc :: lc in r ==> Inside(lc.node, layout.children)
    ensures forall lc :: lc in r ==> Genuine(lc)
  {
    Collected(layout.children)
  }

  lemma {:induction false} CollectedSnoc(nodes: seq<XmlNode>, n: XmlNode)
    ensures Collected(nodes + [n]) == Collected(nodes) + if n.name == "item" then ItemChild(n) else []
  {
    hide ItemChild;
    var last := if n.name == "item" then ItemChild(n) else [];
    if nodes == [] {
      assert nodes + [n] == [n];
      assert [n][1..] == [];
    } else {
      var first := if nodes[0].name == "item" then ItemChild(nodes[0]) else [];
      assert (nodes + [n])[1..] == nodes[1..] + [n];
      CollectedSnoc(nodes[1..], n);
      assert Collected(nodes + [n]) == first + (Collected(nodes[1..]) + last);
    }
  }

  /** The inner loop: the first recognised child of an item is taken and ends the search. */
  method CollectItem(item: XmlNode) returns (found: seq<LayoutChild>)
    ensures found == ItemChild(item)
  {
    hide ToInt, IsNodeVisible, SpacerChild, PlainChild;
    var row, col := ToInt(item.Attr("row", "0")), ToInt(item.Attr("column", "0"));
    var rowspan, colspan := ToInt(item.Attr("rowspan", "1")), ToInt(item.Attr("colspan", "1"));
    for k := 0 to |item.children|
      invariant FirstRecognised(item.children[k..]) == FirstRecognised(item.children)
    {
      var child := item.children[k];
      assert item.children[k..][1..] == item.children[k + 1..];
      if child.name == "widget" {
        return [PlainChild(Widget, child, row, col, rowspan, colspan, !IsNodeVisible(child))];
      } else if child.name == "layout" {
        return [PlainChild(Layout, child, row, col, rowspan, colspan, false)];
      } else if child.name == "spacer" {
        return [SpacerChild(child, row, col, rowspan, colspan)];
      }
    }
    found := [];
  }

  /** The outer loop over the items of a layout. */
  method CollectFromLayout(layout: XmlNode) returns (out: seq<LayoutChild>)
    ensures out == LayoutItems(layout)
  {
    out := [];
    for i := 0 to |layout.children|
      invariant out == Collected(layout.children[..i])
    {
      CollectedSnoc(layout.children[..i], layout.children[i]);
      assert layout.children[..i + 1] == layout.children[..i] + [layout.children[i]];
      if layout.children[i].name == "item" {
        var found := CollectItem(layout.children[i]);
        out := out + found;
      }
    }
    assert layout.children[..|layout.children|] == layout.children;
  }

  /** The children that take part in the layout. */
  function Active(items: seq<LayoutChild>): (r: seq<LayoutChild>)
    ensures forall lc :: lc in r ==> lc in items && !lc.hidden
  {
    if items == [] then [] else (if items[0].hidden then [] else [items[0]]) + Active(items[1..])
  }
}
