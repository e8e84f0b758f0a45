/**
 Spacers through a whole cycle: a saved spacer becomes a designer widget when it is loaded, and the next
 save reads the widget's properties. What the widget says, and what a cycle keeps.
 */
module SpacerReload {
  import opened Arith
  import opened Text
  import opened Xml
  import opened XmlParser
  import opened XmlPrinter
  import opened XmlRoundTrip
  import opened Spacers
  import opened CanvasText

  // ---- reading a designer widget, `spacerInfoFromWidget_` --------------------------------------------------------------

  /** The text of a property of the widget, empty when it has none: the last property of that name counts. */
  function PropertyText(props: seq<XmlNode>, name: string): string
    decreases |props|
  {
    if props == [] then ""
    else
      var last := props[|props| - 1];
      if last.Attr("name", "") == name && last.children != [] then last.children[0].text else PropertyText(props[..|props| - 1], name)
  }

  /** The extent of the widget along a dimension, from its geometry. */
  function GeometryExtent(props: seq<XmlNode>, dimension: string, default: int): int
    decreases |props|
  {
    if props == [] then default
    else
      var rect := props[0].FirstChild("rect");
      if props[0].Attr("name", "") == "geometry" && rect.Some? && rect.value.FirstChild(dimension).Some?
      then ToInt(rect.value.FirstChild(dimension).value.text)
      else GeometryExtent(props[1..], dimension, default)
  }

  /** The spacer that the next save sees in a widget node. */
  function InfoFromWidget(node: XmlNode): SpacerInfo {
    var props := node.ChildrenNamed("property");
    var orientation, w, h := PropertyText(props, "Orientation"), PropertyText(props, "SizeHintWidth"), PropertyText(props, "SizeHintHeight");
    SpacerInfo(
      node.Attr("name", ""),
      if orientation != "" && ToLower(Trimmed(orientation)) == "vertical" then "Qt::Vertical" else "Qt::Horizontal",
      SpacerPolicyFromString(PropertyText(props, "HorizontalPolicy")),
      SpacerPolicyFromString(PropertyText(props, "VerticalPolicy")),
      Max(0, if w != "" then ToInt(w) else GeometryExtent(props, "width", 0)),
      Max(0, if h != "" then ToInt(h) else GeometryExtent(props, "height", 0)))
  }

  /** A spacer as a designer widget knows it: one of two orientations, and sizes that are not negative. */
  function Plainly(info: SpacerInfo): SpacerInfo {
    SpacerInfo(info.name, if IsVertical(info.orientation) then "Qt::Vertical" else "Qt::Horizontal",
               info.horizontalPolicy, info.verticalPolicy, Max(0, info.width), Max(0, info.height))
  }

  // ---- lookups in the printed properties ------------------------------------------------------------------------------------

  lemma PropertyHere(props: seq<XmlNode>, k: nat, name: string, value: XmlNode)
    requires k < |props| && props[k] == Property(name, value)
    requires forall i :: k < i < |props| ==> props[i].Attr("name", "") != name
    ensures PropertyText(props, name) == value.text
    decreases |props|
  {
    if k < |props| - 1 { PropertyHere(props[..|props| - 1], k, name, value); }
  }

  lemma DesignerNamed(info: SpacerInfo, indent: nat)
    ensures DesignerNode(info, indent).ChildrenNamed("property") == DesignerProperties(info)
    ensures DesignerNode(info, indent).Attr("name", "") == info.name
  {
    hide Leaf, IntText, PolicyToString, IsVertical, NameAttribute;
    AllProperties(DesignerProperties(info));
    DesignerNameRead(info.name, DesignerNode(info, indent));
  }

  lemma DesignerNameRead(name: string, node: XmlNode)
    requires node.attributes == [Attribute("class", "SwSpacer")] + NameAttribute(name)
    ensures node.Attr("name", "") == name
  {
    var rest := NameAttribute(name);
    assert node.attributes[1..] == rest && |"class"| != |"name"|;
    assert Lookup(node.attributes, "name", "") == Lookup(rest, "name", "");
  }

  lemma NamesOfProperties(info: SpacerInfo)
    ensures var ps := DesignerProperties(info);
            && |ps| == 7 && ps[2].Attr("name", "") == "Orientation" && ps[3].Attr("name", "") == "HorizontalPolicy"
            && ps[4].Attr("name", "") == "VerticalPolicy" && ps[5].Attr("name", "") == "SizeHintWidth"
            && ps[6].Attr("name", "") == "SizeHintHeight"
  {
    hide Leaf, IntText, PolicyToString, IsVertical;
  }

  lemma DesignerTexts(info: SpacerInfo)
    ensures var ps := DesignerProperties(info);
            && PropertyText(ps, "Orientation") == (if IsVertical(info.orientation) then "Vertical" else "Horizontal")
            && PropertyText(ps, "HorizontalPolicy") == PolicyToString(info.horizontalPolicy)
            && PropertyText(ps, "VerticalPolicy") == PolicyToString(info.verticalPolicy)
            && PropertyText(ps, "SizeHintWidth") == IntText(info.width)
            && PropertyText(ps, "SizeHintHeight") == IntText(info.height)
  {
    hide PropertyText, IntText, PolicyToString, IsVertical;
    var ps := DesignerProperties(info);
    NamesOfProperties(info);
    PropertyHere(ps, 2, "Orientation", ps[2].children[0]);
    PropertyHere(ps, 3, "HorizontalPolicy", ps[3].children[0]);
    PropertyHere(ps, 4, "VerticalPolicy", ps[4].children[0]);
    PropertyHere(ps, 5, "SizeHintWidth", ps[5].children[0]);
    PropertyHere(ps, 6, "SizeHintHeight", ps[6].children[0]);
  }

  lemma BarePolicy(p: Policy)
    ensures SpacerPolicyFromString(PolicyToString(p)) == p
  {
    PolicyNamesClean(p);
    TrimmedUnchanged(PolicyToString(p));
    NoLast(PolicyToString(p), ':');
  }

  lemma {:induction false} NoLast(s: string, c: char)
    requires c !in s
    ensures AfterLast(s, c) == s
  {
  }

  lemma Orientations()
    ensures ToLower(Trimmed("Vertical")) == "vertical" && ToLower(Trimmed("Horizontal")) != "vertical"
    ensures IsVertical("Qt::Vertical") && !IsVertical("Qt::Horizontal")
  {
    hide ToLower, Trimmed, Contains;
    CleanLower("Vertical", "vertical");
    CleanLower("Horizontal", "horizontal");
    CleanLower("Qt::Vertical", "qt::vertical");
    CleanLower("Qt::Horizontal", "qt::horizontal");
    HoldsVertical();
    assert "horizontal"[0] != "vertical"[0];
  }

  lemma CleanLower(s: string, t: string)
    requires s != "" && !IsBlank(s[0]) && !IsBlank(s[|s| - 1])
    requires |s| == |t| && forall i :: 0 <= i < |s| ==> t[i] == LowerChar(s[i])
    ensures ToLower(Trimmed(s)) == t
  {
    hide ToLower, Trimmed;
    TrimmedUnchanged(s);
    LowerOf(s, t);
  }

  lemma FirstIn(s: string, t: string)
    requires Contains(s, t) && t != ""
    ensures t[0] in s
  {
    hide Contains;
    var k := ContainedAt(s, t);
    assert s[k] == s[k..k + |t|][0];
  }

  lemma HoldsVertical()
    ensures Contains("qt::vertical", "vertical") && !Contains("qt::horizontal", "vertical")
  {
    hide Contains;
    var s, t := "qt::vertical", "vertical";
    assert s[4..4 + |t|] == t;
    ContainsAt(s, t, 4);
    assert 'v' !in "qt::horizontal" && t[0] == 'v';
    if Contains("qt::horizontal", t) { FirstIn("qt::horizontal", t); }
  }

  lemma {:induction false} LowerOf(s: string, t: string)
    requires |s| == |t| && forall i :: 0 <= i < |s| ==> t[i] == LowerChar(s[i])
    ensures ToLower(s) == t
  {
    LowerEach(s);
  }

  function RectNode(w: string, h: string): XmlNode {
    XmlNode("rect", [], "", [Leaf("x", "0"), Leaf("y", "0"), Leaf("width", w), Leaf("height", h)])
  }

  lemma {:induction false} FirstNamedAt(nodes: seq<XmlNode>, k: nat, name: string)
    requires k < |nodes| && nodes[k].name == name && forall j :: 0 <= j < k ==> nodes[j].name != name
    ensures FirstNamed(nodes, name) == Some(nodes[k])
    decreases |nodes|
  {
    if k > 0 { FirstNamedAt(nodes[1..], k - 1, name); }
  }

  lemma RectFields(w: string, h: string)
    ensures RectNode(w, h).FirstChild("width") == Some(Leaf("width", w))
    ensures RectNode(w, h).FirstChild("height") == Some(Leaf("height", h))
  {
    var kids := RectNode(w, h).children;
    assert |"x"| == 1 && |"y"| == 1 && |"width"| == 5 && |"height"| == 6;
    FirstNamedAt(kids, 2, "width");
    FirstNamedAt(kids, 3, "height");
  }

  lemma GeometryHere(props: seq<XmlNode>, w: string, h: string)
    requires props != [] && props[0] == Property("geometry", RectNode(w, h))
    ensures GeometryExtent(props, "width", 0) == ToInt(w) && GeometryExtent(props, "height", 0) == ToInt(h)
  {
    hide ToInt, RectNode;
    RectFields(w, h);
    RectNamed(w, h);
    assert props[0].FirstChild("rect") == Some(RectNode(w, h));
  }

  lemma RectNamed(w: string, h: string)
    ensures RectNode(w, h).name == "rect"
  {}

  lemma DesignerGeometry(info: SpacerInfo)
    ensures DesignerProperties(info)[0] == Property("geometry", RectNode(IntText(info.width), IntText(info.height)))
    ensures DesignerProperties(info)[1] == Property("__SwCreator_DesignWidget", Leaf("bool", "true"))
  {
    hide IntText, PolicyToString, IsVertical, Leaf, Property;
  }

  lemma DesignerClass(info: SpacerInfo, indent: nat)
    ensures DesignerNode(info, indent).name == "widget" && DesignerNode(info, indent).Attr("class", "") == "SwSpacer"
  {
    hide DesignerProperties, NameAttribute;
  }

  lemma MarkerApart()
    ensures "__SwCreator_DesignWidget" !in ["Orientation", "HorizontalPolicy", "VerticalPolicy", "SizeHintWidth", "SizeHintHeight"]
  {
    assert |"__SwCreator_DesignWidget"| == 24;
  }

  /** The designer widget is a spacer marked as a design widget, as wide and high as the spacer asks to be. */
  lemma DesignerIsMarked(info: SpacerInfo, indent: nat)
    requires MachineInt(info.width) && MachineInt(info.height)
    ensures var node := DesignerNode(info, indent);
            && node.name == "widget" && node.Attr("class", "") == "SwSpacer"
            && PropertyText(node.ChildrenNamed("property"), "__SwCreator_DesignWidget") == "true"
            && GeometryExtent(node.ChildrenNamed("property"), "width", 0) == info.width
            && GeometryExtent(node.ChildrenNamed("property"), "height", 0) == info.height
  {
    hide PropertyText, IntText, ToInt, PolicyToString, IsVertical, GeometryExtent, DesignerProperties, RectNode, DesignerNode, Property;
    var ps := DesignerProperties(info);
    DesignerNamed(info, indent);
    NamesOfProperties(info);
    DesignerGeometry(info);
    DesignerClass(info, indent);
    MarkerApart();
    PropertyHere(ps, 1, "__SwCreator_DesignWidget", Leaf("bool", "true"));
    GeometryHere(ps, IntText(info.width), IntText(info.height));
    ToIntOfIntText(info.width);
    ToIntOfIntText(info.height);
  }

  // ---- what the widget says ----------------------------------------------------------------------------------------------------

  /** The designer widget made for a spacer gives back its name, both policies, both sizes and its direction. */
  lemma DesignerNodeKeepsInfo(info: SpacerInfo, indent: nat)
    requires MachineInt(info.width) && MachineInt(info.height)
    ensures InfoFromWidget(DesignerNode(info, indent)) == Plainly(info)
  {
    hide DesignerProperties, PropertyText, DesignerNode, SpacerPolicyFromString, IntText, ToInt, PolicyToString, IsVertical, GeometryExtent;
    DesignerNamed(info, indent);
    DesignerTexts(info);
    BarePolicy(info.horizontalPolicy);
    BarePolicy(info.verticalPolicy);
    ToIntOfIntText(info.width);
    ToIntOfIntText(info.height);
    IntTextNotEmpty(info.width);
    IntTextNotEmpty(info.height);
    Orientations();
  }

  lemma IntTextNotEmpty(n: int)
    ensures IntText(n) != ""
  {}

  /** The same on text, whatever follows it. */
  lemma DesignerTextKeepsInfo(info: SpacerInfo, indent: nat, rest: string)
    requires MachineInt(info.width) && MachineInt(info.height)
    ensures var r := ParseElement(DesignerText(info, indent) + rest);
            r.Success? && r.rest == rest && InfoFromWidget(r.value) == Plainly(info)
  {
    ReadDesigner(info, indent);
    DesignerNodeKeepsInfo(info, indent);
  }

  // ---- load and save again --------------------------------------------------------------------------------------------------------

  /** Loading the text of a saved spacer, as the designer widget it becomes. */
  function Loaded(saved: string, indent: nat): Option<XmlNode> {
    var spacer := ParseElement(saved);
    if spacer.Failure? then None
    else
      var widget := ParseElement(DesignerText(SpacerInfoFromNode(spacer.value), indent));
      if widget.Failure? then None else Some(widget.value)
  }

  /** Saving a spacer, loading what was saved and saving again: the second save has the same policies, sizes and direction. */
  lemma CycleKeepsSpacer(info: SpacerInfo, indent: nat)
    requires MachineInt(info.width) && MachineInt(info.height)
    ensures var w := Loaded(SpacerText(info, indent), indent);
            && w.Some? && InfoFromWidget(w.value) == Plainly(info)
            && IsVertical(InfoFromWidget(w.value).orientation) == IsVertical(info.orientation)
  {
    hide SpacerText, DesignerText, ParseElement, SpacerInfoFromNode, InfoFromWidget, IsVertical;
    assert SpacerText(info, indent) + "" == SpacerText(info, indent);
    SpacerSaveLoad(info, indent, "");
    var read := Normalised(info);
    assert DesignerText(read, indent) + "" == DesignerText(read, indent);
    DesignerTextKeepsInfo(read, indent, "");
    TrimmedVertical(info.orientation);
    Orientations();
  }

  lemma TrimmedVertical(orientation: string)
    ensures IsVertical(Trimmed(orientation)) == IsVertical(orientation)
  {
    TrimmedIdempotent(orientation);
  }

  /** From the first cycle on a further one changes nothing. */
  lemma CycleSettles(info: SpacerInfo, indent: nat)
    requires MachineInt(info.width) && MachineInt(info.height)
    ensures var w := Loaded(SpacerText(Plainly(info), indent), indent);
            w.Some? && InfoFromWidget(w.value) == Plainly(info)
  {
    hide SpacerText, Loaded, InfoFromWidget, IsVertical;
    CycleKeepsSpacer(Plainly(info), indent);
    Orientations();
  }

  // ---- a whole document --------------------------------------------------------------------------------------------------------------

  lemma {:induction false} HintsFit(props: seq<XmlNode>, dimension: string)
    ensures LastHint(props, dimension).Some? ==> MachineInt(LastHint(props, dimension).value)
    decreases |props|
  {
    if props != [] { HintsFit(props[..|props| - 1], dimension); }
  }

  /** A spacer read from any node has machine sizes. */
  lemma ReadSizesFit(node: XmlNode)
    ensures MachineInt(SpacerInfoFromNode(node).width) && MachineInt(SpacerInfoFromNode(node).height)
  {
    hide SpacerInfoFromNode, LastHint, LastEnum, IsVertical, SpacerPolicyFromString;
    SpacerReadByLookup(node);
    HintsFit(node.ChildrenNamed("property"), "width");
    HintsFit(node.ChildrenNamed("property"), "height");
  }

  /**
   Preparing a document: wherever a spacer stood there is now a widget that the next save reads as that very
   spacer, with its name, both policies, both sizes and its direction.
   */
  lemma PreparedSpacerIsKept(root: XmlNode, path: seq<nat>)
    requires NoSpacerAbove(root, path) && NodeAt(root, path).Some? && NodeAt(root, path).value.name == "spacer"
    ensures NodeAt(Reloaded(root, 0), path).Some?
    ensures InfoFromWidget(NodeAt(Reloaded(root, 0), path).value) == Plainly(SpacerInfoFromNode(NodeAt(root, path).value))
  {
    hide Reloaded, InfoFromWidget, SpacerInfoFromNode, DesignerNode, NoSpacerAbove;
    NodesKeepTheirPlace(root, path, 0);
    var spacer := NodeAt(root, path).value;
    ReadSizesFit(spacer);
    DesignerNodeKeepsInfo(SpacerInfoFromNode(spacer), 2 * |path|);
  }
}
