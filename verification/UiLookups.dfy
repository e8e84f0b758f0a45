/**
 What the readers of the importer find, stated by lookup: which property of a node decides each value. The
 readers go through all properties once; here every value has a lookup of its own.
 */
module UiLookups {
  import opened Arith
  import opened Text
  import opened Xml
  import opened UiReader

  // ---- lookups ------------------------------------------------------------------------------------------------------

  /** What the last of the nodes that says something says. */
  function LastSaid<T>(nodes: seq<XmlNode>, says: XmlNode -> Option<T>): Option<T>
    decreases |nodes|
  {
    if nodes == [] then None
    else
      var later := LastSaid(nodes[1..], says);
      if later.Some? then later else says(nodes[0])
  }

  function Else<T>(a: Option<T>, b: Option<T>): Option<T> { if a.Some? then a else b }

  function Value<T>(a: Option<T>, default: T): T { if a.Some? then a.value else default }

  /** The last of the nodes that says something, by its position. */
  lemma {:induction false} LastSaidAt<T>(nodes: seq<XmlNode>, says: XmlNode -> Option<T>, k: nat)
    requires k < |nodes| && says(nodes[k]).Some? && forall j :: k < j < |nodes| ==> says(nodes[j]).None?
    ensures LastSaid(nodes, says) == says(nodes[k])
    decreases |nodes|
  {
    if k > 0 { LastSaidAt(nodes[1..], says, k - 1); }
    else { NothingSaid(nodes[1..], says); }
  }

  lemma {:induction false} NothingSaid<T>(nodes: seq<XmlNode>, says: XmlNode -> Option<T>)
    requires forall j :: 0 <= j < |nodes| ==> says(nodes[j]).None?
    ensures LastSaid(nodes, says) == None
    decreases |nodes|
  {
    if nodes != [] { NothingSaid(nodes[1..], says); }
  }

  // ---- size constraints ------------------------------------------------------------------------------------------------

  /** The extent along a dimension that a property of this name gives. */
  function ExtentSaid(p: XmlNode, name: string, dimension: string): Option<int> {
    if p.Attr("name", "") == name && p.FirstChild("size").Some? && p.FirstChild("size").value.FirstChild(dimension).Some?
    then Some(ToInt(p.FirstChild("size").value.FirstChild(dimension).value.text)) else None
  }

  /** A minimum counts when it is positive. */
  function MinimumSaid(p: XmlNode, dimension: string): Option<int> {
    var e := ExtentSaid(p, "minimumSize", dimension);
    if e.Some? && e.value > 0 then e else None
  }

  /** A maximum counts when it is positive and below the value that stands for none. */
  function MaximumSaid(p: XmlNode, dimension: string): Option<int> {
    var e := ExtentSaid(p, "maximumSize", dimension);
    if e.Some? && 0 < e.value < 16777215 then e else None
  }

  lemma OneConstraint(sc: SizeConstraints, p: XmlNode)
    ensures AddConstraint(sc, p)
            == SizeConstraints(Else(MinimumSaid(p, "width"), sc.minW), Else(MinimumSaid(p, "height"), sc.minH),
                               Else(MaximumSaid(p, "width"), sc.maxW), Else(MaximumSaid(p, "height"), sc.maxH))
  {
    hide ToInt;
    assert "minimumSize"[1] != "maximumSize"[1];
  }

  lemma {:induction false} AllConstraints(sc: SizeConstraints, props: seq<XmlNode>)
    ensures AddConstraints(sc, props)
            == SizeConstraints(Else(LastSaid(props, p => MinimumSaid(p, "width")), sc.minW),
                               Else(LastSaid(props, p => MinimumSaid(p, "height")), sc.minH),
                               Else(LastSaid(props, p => MaximumSaid(p, "width")), sc.maxW),
                               Else(LastSaid(props, p => MaximumSaid(p, "height")), sc.maxH))
    decreases |props|
  {
    hide MinimumSaid, MaximumSaid, AddConstraint;
    if props != [] {
      OneConstraint(sc, props[0]);
      AllConstraints(AddConstraint(sc, props[0]), props[1..]);
    }
  }

  /** Each bound comes from the last property of its name that gives a usable extent along its own dimension. */
  lemma ConstraintsByLookup(node: XmlNode)
    ensures var sc, props := ReadSizeConstraints(node), node.ChildrenNamed("property");
            && sc.minW == LastSaid(props, p => MinimumSaid(p, "width"))
            && sc.minH == LastSaid(props, p => MinimumSaid(p, "height"))
            && sc.maxW == LastSaid(props, p => MaximumSaid(p, "width"))
            && sc.maxH == LastSaid(props, p => MaximumSaid(p, "height"))
  {
    hide MinimumSaid, MaximumSaid;
    AllConstraints(UNCONSTRAINED, node.ChildrenNamed("property"));
  }

  // ---- layout properties -------------------------------------------------------------------------------------------------

  /** The number that a property of one of two names gives. */
  function NumberSaid(p: XmlNode, name: string, general: string): Option<int> {
    if (p.Attr("name", "") == name || p.Attr("name", "") == general) && p.FirstChild("number").Some?
    then Some(ToInt(p.FirstChild("number").value.text)) else None
  }

  lemma OneLayoutProp(lp: LayoutProps, p: XmlNode)
    ensures AddLayoutProp(lp, p)
            == LayoutProps(Value(NumberSaid(p, "leftMargin", "margin"), lp.left), Value(NumberSaid(p, "topMargin", "margin"), lp.top),
                           Value(NumberSaid(p, "rightMargin", "margin"), lp.right), Value(NumberSaid(p, "bottomMargin", "margin"), lp.bottom),
                           Value(NumberSaid(p, "horizontalSpacing", "spacing"), lp.hSpacing),
                           Value(NumberSaid(p, "verticalSpacing", "spacing"), lp.vSpacing))
  {
    hide ToInt;
    assert |"leftMargin"| == 10 && |"topMargin"| == 9 && |"rightMargin"| == 11 && |"bottomMargin"| == 12 && |"margin"| == 6;
    assert |"spacing"| == 7 && |"horizontalSpacing"| == 17 && |"verticalSpacing"| == 15;
  }

  lemma {:induction false} AllLayoutProps(lp: LayoutProps, props: seq<XmlNode>)
    ensures AddLayoutProps(lp, props)
            == LayoutProps(Value(LastSaid(props, p => NumberSaid(p, "leftMargin", "margin")), lp.left),
                           Value(LastSaid(props, p => NumberSaid(p, "topMargin", "margin")), lp.top),
                           Value(LastSaid(props, p => NumberSaid(p, "rightMargin", "margin")), lp.right),
                           Value(LastSaid(props, p => NumberSaid(p, "bottomMargin", "margin")), lp.bottom),
                           Value(LastSaid(props, p => NumberSaid(p, "horizontalSpacing", "spacing")), lp.hSpacing),
                           Value(LastSaid(props, p => NumberSaid(p, "verticalSpacing", "spacing")), lp.vSpacing))
    decreases |props|
  {
    hide NumberSaid, AddLayoutProp;
    if props != [] {
      OneLayoutProp(lp, props[0]);
      AllLayoutProps(AddLayoutProp(lp, props[0]), props[1..]);
    }
  }

  /** Each margin comes from the last property of its own name or of the general one, and so does each spacing. */
  lemma LayoutPropsByLookup(node: XmlNode)
    ensures var lp, props := ReadLayoutProps(node), node.ChildrenNamed("property");
            && lp.left == Value(LastSaid(props, p => NumberSaid(p, "leftMargin", "margin")), 9)
            && lp.top == Value(LastSaid(props, p => NumberSaid(p, "topMargin", "margin")), 9)
            && lp.right == Value(LastSaid(props, p => NumberSaid(p, "rightMargin", "margin")), 9)
            && lp.bottom == Value(LastSaid(props, p => NumberSaid(p, "bottomMargin", "margin")), 9)
            && lp.hSpacing == Value(LastSaid(props, p => NumberSaid(p, "horizontalSpacing", "spacing")), 6)
            && lp.vSpacing == Value(LastSaid(props, p => NumberSaid(p, "verticalSpacing", "spacing")), 6)
  {
    hide NumberSaid;
    AllLayoutProps(LayoutProps(9, 9, 9, 9, 6, 6), node.ChildrenNamed("property"));
  }

  // ---- spacers -------------------------------------------------------------------------------------------------------------

  /** A size hint is never negative. */
  function HintSaid(p: XmlNode, dimension: string): Option<int> {
    var e := ExtentSaid(p, "sizeHint", dimension);
    if e.Some? then Some(Max(0, e.value)) else None
  }

  /** The trimmed text of an enum property of this name, unless it is empty. */
  function EnumSaid(p: XmlNode, name: string): Option<string> {
    var e := p.FirstChild("enum");
    if p.Attr("name", "") == name && e.Some? && e.value.text != "" then Some(Trimmed(e.value.text)) else None
  }

  lemma OneHint(s: SpacerHints, p: XmlNode)
    ensures AddSpacerHint(s, p)
            == SpacerHints(Value(HintSaid(p, "width"), s.w), Value(HintSaid(p, "height"), s.h),
                           Value(EnumSaid(p, "orientation"), s.orientation), Else(EnumSaid(p, "sizeType"), s.sizeType))
  {
    hide ToInt, Trimmed;
    assert "sizeHint"[4] != "sizeType"[4] && "orientation"[0] != "sizeHint"[0] && "orientation"[0] != "sizeType"[0];
  }

  lemma {:induction false} AllHints(s: SpacerHints, props: seq<XmlNode>)
    ensures AddSpacerHints(s, props)
            == SpacerHints(Value(LastSaid(props, p => HintSaid(p, "width")), s.w), Value(LastSaid(props, p => HintSaid(p, "height")), s.h),
                           Value(LastSaid(props, p => EnumSaid(p, "orientation")), s.orientation),
                           Else(LastSaid(props, p => EnumSaid(p, "sizeType")), s.sizeType))
    decreases |props|
  {
    hide HintSaid, EnumSaid, AddSpacerHint;
    if props != [] {
      OneHint(s, props[0]);
      AllHints(AddSpacerHint(s, props[0]), props[1..]);
    }
  }

  /** A spacer without a size type expands, without an orientation it is horizontal, and without a hint it measures 20 x 20. */
  lemma SpacerByLookup(node: XmlNode, row: int, col: int, rowspan: int, colspan: int)
    ensures var lc, props := SpacerChild(node, row, col, rowspan, colspan), node.ChildrenNamed("property");
            && lc.sizeHintW == Value(LastSaid(props, p => HintSaid(p, "width")), 20)
            && lc.sizeHintH == Value(LastSaid(props, p => HintSaid(p, "height")), 20)
            && lc.orientation == Value(LastSaid(props, p => EnumSaid(p, "orientation")), "Qt::Horizontal")
            && lc.sizeType == Value(LastSaid(props, p => EnumSaid(p, "sizeType")), "QSizePolicy::Expanding")
  {
    hide HintSaid, EnumSaid;
    AllHints(SpacerHints(20, 20, "Qt::Horizontal", None), node.ChildrenNamed("property"));
  }

  // ---- expanding spacers ------------------------------------------------------------------------------------------------------

  lemma PolicyName(scope: string, name: string)
    requires name != "" && ':' !in name && !IsBlank(name[0]) && !IsBlank(name[|name| - 1])
    requires scope == "" || !IsBlank(scope[0])
    ensures NormalizedSpacerPolicy(name) == name
    ensures NormalizedSpacerPolicy(scope + ":" + name) == name
  {
    var s := scope + ":" + name;
    TrimmedUnchanged(name);
    assert s[|s| - 1] == name[|name| - 1] && s[0] == if scope == "" then ':' else scope[0];
    TrimmedUnchanged(s);
    AfterLastPrefix(scope, ':', name);
    NoColon(name);
  }

  lemma {:induction false} NoColon(s: string)
    requires ':' !in s
    ensures AfterLast(s, ':') == s
  {
  }

  /** With or without a scope before it: these three policies let a spacer take more than its hint, the other four do not. */
  lemma ExpandingPolicies(lc: LayoutChild, scope: string)
    requires lc.kind.Spacer? && (scope == "" || !IsBlank(scope[0]))
    ensures forall p :: p in ["Expanding", "MinimumExpanding", "Ignored"] && lc.sizeType in [p, scope + ":" + p] ==> SpacerCanExpand(lc)
    ensures forall p :: p in ["Fixed", "Minimum", "Maximum", "Preferred"] && lc.sizeType in [p, scope + ":" + p] ==> !SpacerCanExpand(lc)
  {
    hide NormalizedSpacerPolicy;
    PolicyName(scope, "Expanding");
    PolicyName(scope, "MinimumExpanding");
    PolicyName(scope, "Ignored");
    PolicyName(scope, "Fixed");
    PolicyName(scope, "Minimum");
    PolicyName(scope, "Maximum");
    PolicyName(scope, "Preferred");
  }

  // ---- first properties -----------------------------------------------------------------------------------------------------------

  /** The first geometry property with a rectangle decides, each field from the element of its own name. */
  lemma {:induction false} FirstGeometry(props: seq<XmlNode>, k: nat)
    requires k < |props| && props[k].Attr("name", "") == "geometry" && props[k].FirstChild("rect").Some?
    requires forall j :: 0 <= j < k ==> props[j].Attr("name", "") != "geometry" || props[j].FirstChild("rect").None?
    ensures var r, g := props[k].FirstChild("rect").value, WidgetGeometry(props);
            && g.Some?
            && (r.FirstChild("x").Some? ==> g.value.x == ToInt(r.FirstChild("x").value.text))
            && (r.FirstChild("y").Some? ==> g.value.y == ToInt(r.FirstChild("y").value.text))
            && (r.FirstChild("width").Some? ==> g.value.w == ToInt(r.FirstChild("width").value.text))
            && (r.FirstChild("height").Some? ==> g.value.h == ToInt(r.FirstChild("height").value.text))
    decreases |props|
  {
    hide ToInt;
    if k > 0 { FirstGeometry(props[1..], k - 1); }
  }

  predicate IsCaption(p: XmlNode) {
    p.Attr("name", "") in ["text", "title", "windowTitle"] && p.children != []
  }

  /** The first caption decides. */
  lemma {:induction false} FirstCaption(props: seq<XmlNode>, k: nat)
    requires k < |props| && IsCaption(props[k]) && forall j :: 0 <= j < k ==> !IsCaption(props[j])
    ensures WidgetText(props) == Trimmed(props[k].children[0].text)
    decreases |props|
  {
    hide Trimmed;
    if k > 0 { FirstCaption(props[1..], k - 1); }
  }

  lemma {:induction false} NoCaption(props: seq<XmlNode>)
    requires forall j :: 0 <= j < |props| ==> !IsCaption(props[j])
    ensures WidgetText(props) == ""
    decreases |props|
  {
    hide Trimmed;
    if props != [] { NoCaption(props[1..]); }
  }

  /** The first visible property decides; "false" and "0" hide, in any case and with blanks around; without one a widget is shown. */
  lemma {:induction false} FirstVisible(props: seq<XmlNode>, k: nat)
    requires k < |props| && props[k].Attr("name", "") == "visible" && props[k].FirstChild("bool").Some?
    requires forall j :: 0 <= j < k ==> props[j].Attr("name", "") != "visible"
    ensures PropertiesVisible(props) <==> ToLower(Trimmed(props[k].FirstChild("bool").value.text)) !in ["false", "0"]
    decreases |props|
  {
    hide Trimmed, ToLower, ToInt;
    if k > 0 { FirstVisible(props[1..], k - 1); }
  }

  /** Without a truth value its number decides. */
  lemma {:induction false} FirstVisibleNumber(props: seq<XmlNode>, k: nat)
    requires k < |props| && props[k].Attr("name", "") == "visible" && props[k].FirstChild("bool").None? && props[k].FirstChild("number").Some?
    requires forall j :: 0 <= j < k ==> props[j].Attr("name", "") != "visible"
    ensures PropertiesVisible(props) <==> ToInt(props[k].FirstChild("number").value.text) != 0
    decreases |props|
  {
    hide Trimmed, ToLower, ToInt;
    if k > 0 { FirstVisibleNumber(props[1..], k - 1); }
  }

  lemma {:induction false} ShownByDefault(props: seq<XmlNode>)
    requires forall j :: 0 <= j < |props| ==> props[j].Attr("name", "") != "visible"
    ensures PropertiesVisible(props)
    decreases |props|
  {
    hide Trimmed, ToLower, ToInt;
    if props != [] { ShownByDefault(props[1..]); }
  }

  // ---- items ------------------------------------------------------------------------------------------------------------------------

  predicate IsPart(node: XmlNode) { node.name in ["widget", "layout", "spacer"] }

  lemma {:induction false} FirstPart(nodes: seq<XmlNode>, k: nat)
    requires k < |nodes| && IsPart(nodes[k]) && forall j :: 0 <= j < k ==> !IsPart(nodes[j])
    ensures FirstRecognised(nodes) == Some(nodes[k])
    decreases |nodes|
  {
    if k > 0 { FirstPart(nodes[1..], k - 1); }
  }

  /** An item stands for its first widget, layout or spacer, in the cell that its own attributes name. */
  lemma ItemReads(item: XmlNode, k: nat)
    requires k < |item.children| && IsPart(item.children[k]) && forall j :: 0 <= j < k ==> !IsPart(item.children[j])
    ensures var child, r := item.children[k], ItemChild(item);
            && |r| == 1 && r[0].node == child
            && (child.name == "widget" ==> r[0].kind.Widget? && r[0].hidden == !IsNodeVisible(child))
            && (child.name == "layout" ==> r[0].kind.Layout? && !r[0].hidden)
            && (child.name == "spacer" ==> r[0].kind.Spacer? && !r[0].hidden)
            && r[0].row == ToInt(item.Attr("row", "0")) && r[0].col == ToInt(item.Attr("column", "0"))
            && r[0].rowspan == ToInt(item.Attr("rowspan", "1")) && r[0].colspan == ToInt(item.Attr("colspan", "1"))
  {
    hide ToInt, IsNodeVisible;
    FirstPart(item.children, k);
    assert "widget"[0] == 'w' && "layout"[0] == 'l' && "spacer"[0] == 's';
  }
}
