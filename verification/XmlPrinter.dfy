/**
 The text output of the canvas serializer: `xmlEscape`, the recursive tree printer, and the two
 printed forms of a spacer (`<spacer>` in a saved file, a designer widget in a canvas).
 */
module XmlPrinter {
  import opened Arith
  import opened Text
  import opened Xml

  // ---- escaping ---------------------------------------------------------------------------------

  function EscapeChar(c: char): string {
    if c == '&' then "&amp;"
    else if c == '<' then "&lt;"
    else if c == '>' then "&gt;"
    else if c == '"' then "&quot;"
    else if c == '\'' then "&apos;"
    else [c]
  }

  function Escape(s: string): string {
    if s == "" then "" else EscapeChar(s[0]) + Escape(s[1..])
  }

  lemma {:induction false} EscapeConcat(a: string, b: string)
    ensures Escape(a + b) == Escape(a) + Escape(b)
  {
    if a == "" {
      assert a + b == b;
    } else {
      assert (a + b)[1..] == a[1..] + b;
      EscapeConcat(a[1..], b);
    }
  }

  /** The escaping loop over the characters. */
  method XmlEscape(s: string) returns (out: string)
    ensures out == Escape(s)
  {
    out := "";
    for i := 0 to |s|
      invariant out == Escape(s[..i])
    {
      EscapeConcat(s[..i], [s[i]]);
      assert s[..i + 1] == s[..i] + [s[i]];
      assert [s[i]][1..] == "";
      out := out + EscapeChar(s[i]);
    }
    assert s[..|s|] == s;
  }

  function Indent(n: nat): (r: string)
    ensures |r| == n && forall i :: 0 <= i < n ==> r[i] == ' '
  {
    if n == 0 then "" else " " + Indent(n - 1)
  }

  function EmitAttributes(attributes: seq<Attribute>): string {
    if attributes == [] then ""
    else " " + attributes[0].key + "=\"" + Escape(attributes[0].value) + "\"" + EmitAttributes(attributes[1..])
  }

  // ---- one-line elements, as used for properties ---------------------------------------------------

  function Leaf(tag: string, text: string): XmlNode { XmlNode(tag, [], text, []) }

  function Compact(node: XmlNode): string {
    "<" + node.name + EmitAttributes(node.attributes) + ">" +
    (if node.children == [] then Escape(node.text) else CompactAll(node.children)) +
    "</" + node.name + ">"
  }

  function CompactAll(nodes: seq<XmlNode>): string {
    if nodes == [] then "" else Compact(nodes[0]) + CompactAll(nodes[1..])
  }

  function Property(name: string, value: XmlNode): XmlNode {
    XmlNode("property", [Attribute("name", name)], "", [value])
  }

  /** Each piece on a line of its own. */
  function Lines(pieces: seq<string>, indent: nat): string {
    if pieces == [] then "" else Indent(indent) + pieces[0] + "\n" + Lines(pieces[1..], indent)
  }

  function CompactEach(nodes: seq<XmlNode>): (r: seq<string>)
    ensures |r| == |nodes|
  {
    seq(|nodes|, i requires 0 <= i < |nodes| => Compact(nodes[i]))
  }

  // ---- spacers ----------------------------------------------------------------------------------

  datatype Policy = Fixed | Minimum | Maximum | Preferred | MinimumExpanding | Expanding | Ignored

  function PolicyToString(p: Policy): string {
    match p
    case Fixed => "Fixed"
    case Minimum => "Minimum"
    case Maximum => "Maximum"
    case Preferred => "Preferred"
    case MinimumExpanding => "MinimumExpanding"
    case Expanding => "Expanding"
    case Ignored => "Ignored"
  }

  function PolicyFromString(text: string): Policy {
    var value := Trimmed(AfterLast(Trimmed(text), ':'));
    if value == "Fixed" then Fixed
    else if value == "Minimum" then Minimum
    else if value == "Maximum" then Maximum
    else if value == "Preferred" then Preferred
    else if value == "MinimumExpanding" then MinimumExpanding
    else if value == "Expanding" then Expanding
    else if value == "Ignored" then Ignored
    else Minimum
  }

  /** The serializer's own reading: a prefix is dropped before the widget's reader sees the text. */
  function SpacerPolicyFromString(text: string): Policy {
    PolicyFromString(AfterLast(Trimmed(text), ':'))
  }

  datatype SpacerInfo = SpacerInfo(
    name: string, orientation: string, horizontalPolicy: Policy, verticalPolicy: Policy, width: int, height: int)

  const DEFAULT_SPACER := SpacerInfo("", "Qt::Horizontal", Minimum, Minimum, 40, 20)

  predicate IsVertical(orientation: string) { Contains(ToLower(Trimmed(orientation)), "vertical") }

  /** What the property loop has gathered so far. */
  datatype SpacerScan = SpacerScan(
    info: SpacerInfo, explicitHorizontal: bool, explicitVertical: bool, sizeType: Option<Policy>)

  function ScanProperty(st: SpacerScan, prop: XmlNode): SpacerScan {
    var name := prop.Attr("name", "");
    var value := prop.FirstChild("enum");
    if name == "orientation" then
      if value.None? then st else st.(info := st.info.(orientation := Trimmed(value.value.text)))
    else if name == "sizeHint" then
      var size := prop.FirstChild("size");
      if size.None? then st
      else
        var w, h := size.value.FirstChild("width"), size.value.FirstChild("height");
        st.(info := st.info.(
          width := if w.None? then st.info.width else Max(0, ToInt(w.value.text)),
          height := if h.None? then st.info.height else Max(0, ToInt(h.value.text))))
    else if name == "sizeType" then
      if value.None? then st else st.(sizeType := Some(SpacerPolicyFromString(Trimmed(value.value.text))))
    else if name == "horizontalSizeType" then
      if value.None? then st
      else st.(explicitHorizontal := true,
               info := st.info.(horizontalPolicy := SpacerPolicyFromString(Trimmed(value.value.text))))
    else if name == "verticalSizeType" then
      if value.None? then st
      else st.(explicitVertical := true,
               info := st.info.(verticalPolicy := SpacerPolicyFromString(Trimmed(value.value.text))))
    else st
  }

  function ScanProperties(st: SpacerScan, props: seq<XmlNode>): SpacerScan
    decreases |props|
  {
    if props == [] then st else ScanProperties(ScanProperty(st, props[0]), props[1..])
  }

  /** The general size policy fills the axes that have no explicit one. */
  function ResolveSpacer(st: SpacerScan): SpacerInfo {
    if st.sizeType.None? then st.info
    else
      var vertical := IsVertical(st.info.orientation);
      var h := if vertical then Minimum else st.sizeType.value;
      var v := if vertical then st.sizeType.value else Minimum;
      st.info.(
        horizontalPolicy := if st.explicitHorizontal then st.info.horizontalPolicy else h,
        verticalPolicy := if st.explicitVertical then st.info.verticalPolicy else v)
  }

  function SpacerInfoFromNode(node: XmlNode): SpacerInfo {
    ResolveSpacer(ScanProperties(
      SpacerScan(DEFAULT_SPACER.(name := node.Attr("name", "")), false, false, None),
      node.ChildrenNamed("property")))
  }

  function NameAttribute(name: string): seq<Attribute> {
    if name == "" then [] else [Attribute("name", name)]
  }

  /** The properties of a saved `<spacer>`. */
  function SpacerProperties(info: SpacerInfo): seq<XmlNode> {
    var primary := if IsVertical(info.orientation) then info.verticalPolicy else info.horizontalPolicy;
    [ Property("orientation", Leaf("enum", info.orientation)),
      Property("sizeType", Leaf("enum", "QSizePolicy::" + PolicyToString(primary))),
      Property("horizontalSizeType", Leaf("enum", "QSizePolicy::" + PolicyToString(info.horizontalPolicy))),
      Property("verticalSizeType", Leaf("enum", "QSizePolicy::" + PolicyToString(info.verticalPolicy))),
      Property("sizeHint", XmlNode("size", [], "", [Leaf("width", IntText(info.width)), Leaf("height", IntText(info.height))])) ]
  }

  /** The properties of the designer widget that stands for a spacer on the canvas. */
  function DesignerProperties(info: SpacerInfo): seq<XmlNode> {
    [ Property("geometry", XmlNode("rect", [], "",
        [Leaf("x", "0"), Leaf("y", "0"), Leaf("width", IntText(info.width)), Leaf("height", IntText(info.height))])),
      Property("__SwCreator_DesignWidget", Leaf("bool", "true")),
      Property("Orientation", Leaf("string", if IsVertical(info.orientation) then "Vertical" else "Horizontal")),
      Property("HorizontalPolicy", Leaf("string", PolicyToString(info.horizontalPolicy))),
      Property("VerticalPolicy", Leaf("string", PolicyToString(info.verticalPolicy))),
      Property("SizeHintWidth", Leaf("number", IntText(info.width))),
      Property("SizeHintHeight", Leaf("number", IntText(info.height))) ]
  }

  /** An element whose children stand on lines of their own, from its first to its last character. */
  function Block(name: string, attributes: seq<Attribute>, pieces: seq<string>, indent: nat): string {
    "<" + name + EmitAttributes(attributes) + ">\n" + Lines(pieces, indent + 2) + Indent(indent) + "</" + name + ">"
  }

  /** A saved spacer, `emitSpacerNode_`, without its indentation and final line break. */
  function SpacerText(info: SpacerInfo, indent: nat): string {
    Block("spacer", NameAttribute(info.name), CompactEach(SpacerProperties(info)), indent)
  }

  function DesignerAttributes(info: SpacerInfo): seq<Attribute> {
    [Attribute("class", "SwSpacer")] + NameAttribute(info.name)
  }

  /** A materialised spacer, `emitDesignerSpacerWidget_`. */
  function DesignerText(info: SpacerInfo, indent: nat): string {
    Block("widget", DesignerAttributes(info), CompactEach(DesignerProperties(info)), indent)
  }

  // ---- the tree printer -----------------------------------------------------------------------------

  /** The text of one element from `<` to its closing `>`. */
  function Tag(node: XmlNode, indent: nat): string
    decreases node
  {
    if node.name == "spacer" then DesignerText(SpacerInfoFromNode(node), indent)
    else if node.children == [] then
      if node.text == "" then "<" + node.name + EmitAttributes(node.attributes) + "/>"
      else "<" + node.name + EmitAttributes(node.attributes) + ">" + Escape(node.text) + "</" + node.name + ">"
    else Block(node.name, node.attributes, Tags(node.children, indent + 2), indent)
  }

  function Tags(nodes: seq<XmlNode>, indent: nat): (r: seq<string>)
    ensures |r| == |nodes|
    decreases nodes
  {
    if nodes == [] then [] else [Tag(nodes[0], indent)] + Tags(nodes[1..], indent)
  }

  /** What the recursive printer appends to the stream for a node. */
  function Emit(node: XmlNode, indent: nat): string { Indent(indent) + Tag(node, indent) + "\n" }

  lemma {:induction false} TagAt(nodes: seq<XmlNode>, indent: nat, k: nat)
    requires k < |nodes|
    ensures Tags(nodes, indent)[k] == Tag(nodes[k], indent)
  {
    if k > 0 { TagAt(nodes[1..], indent, k - 1); }
  }
}
