/** Loading a saved canvas: the text is parsed, its spacers become designer widgets, and it is printed again. */
module CanvasText {
  import opened Text
  import opened Xml
  import opened XmlParser
  import opened XmlPrinter
  import opened XmlRoundTrip

  datatype Outcome = Refused(error: string) | Prepared(xml: string)

  function MaterializeCanvasSpacers(xml: string): Outcome {
    match Parse(xml)
    case Failure(e) => Refused(if e == "" then "Invalid XML" else e)
    case Success(root, _) => Prepared(Emit(root, 0))
  }

  // ---- printed documents are read back ------------------------------------------------------------

  /** The printed text of a well-formed tree parses to the reloaded tree. */
  lemma ParsePrinted(node: XmlNode)
    requires WellFormed(node)
    ensures Parse(Emit(node, 0)) == Parsed.Success(Reloaded(node, 0), "\n")
  {
    hide Tag, Reloaded, Parse, ParseElement, WellFormed;
    ReadTag(node, 0);
    var t := Tag(node, 0) + "\n";
    assert Emit(node, 0) == t;
    NoProlog(t);
  }

  lemma NoProlog(t: string)
    requires ElementStart(t)
    ensures Parse(t) == ParseElement(t)
  {
    StartIsPlain(t);
    assert SkipSpace(t) == t;
    assert BOM[0] != '<' && "<!DOCTYPE"[1] == '!';
    assert SkipProlog(t) == Parsed.Success((), t);
  }

  ghost predicate SpacerFree(node: XmlNode) {
    node.name != "spacer" && forall c :: c in node.children ==> SpacerFree(c)
  }

  /** The tree without the text of elements that have children: all that printing looks at. */
  function Stripped(node: XmlNode): XmlNode
    decreases node
  {
    if node.children == [] then node
    else XmlNode(node.name, node.attributes, "", StrippedAll(node.children))
  }

  function StrippedAll(nodes: seq<XmlNode>): (r: seq<XmlNode>)
    ensures |r| == |nodes|
    decreases nodes
  {
    if nodes == [] then [] else [Stripped(nodes[0])] + StrippedAll(nodes[1..])
  }

  lemma {:induction false} TagOfStripped(node: XmlNode, indent: nat)
    requires SpacerFree(node)
    ensures Tag(Stripped(node), indent) == Tag(node, indent)
    decreases node, 1
  {
    if node.children != [] { TagsOfStripped(node.children, indent + 2); }
  }

  lemma {:induction false} TagsOfStripped(nodes: seq<XmlNode>, indent: nat)
    requires forall c :: c in nodes ==> SpacerFree(c)
    ensures Tags(StrippedAll(nodes), indent) == Tags(nodes, indent)
    decreases nodes, 0
  {
    if nodes != [] {
      TagOfStripped(nodes[0], indent);
      TagsOfStripped(nodes[1..], indent);
      assert StrippedAll(nodes)[1..] == StrippedAll(nodes[1..]);
    }
  }

  lemma {:induction false} StrippedReloaded(node: XmlNode, indent: nat)
    requires SpacerFree(node)
    ensures Stripped(Reloaded(node, indent)) == Stripped(node) && SpacerFree(Reloaded(node, indent))
    decreases node, 1
  {
    if node.children != [] { StrippedReloadedAll(node.children, indent + 2); }
  }

  lemma {:induction false} StrippedReloadedAll(nodes: seq<XmlNode>, indent: nat)
    requires forall c :: c in nodes ==> SpacerFree(c)
    ensures StrippedAll(ReloadedAll(nodes, indent)) == StrippedAll(nodes)
    ensures forall c :: c in ReloadedAll(nodes, indent) ==> SpacerFree(c)
    decreases nodes, 0
  {
    if nodes != [] {
      StrippedReloaded(nodes[0], indent);
      StrippedReloadedAll(nodes[1..], indent);
      assert ReloadedAll(nodes, indent)[1..] == ReloadedAll(nodes[1..], indent);
    }
  }

  /**
   Printing identifies spacer-free trees exactly up to the text of elements with children, so it
   is injective where such elements carry no text.
   */
  lemma PrintInjective(a: XmlNode, b: XmlNode, indent: nat)
    requires WellFormed(a) && WellFormed(b) && SpacerFree(a) && SpacerFree(b)
    ensures Emit(a, indent) == Emit(b, indent) <==> Stripped(a) == Stripped(b)
  {
    TagOfStripped(a, indent);
    TagOfStripped(b, indent);
    if Emit(a, indent) == Emit(b, indent) {
      DropIndent(Tag(a, indent), Tag(b, indent), indent);
      ReadTag(a, indent);
      ReadTag(b, indent);
      assert ParseElement(Tag(a, indent) + "") == ParseElement(Tag(b, indent) + "");
      StrippedReloaded(a, indent);
      StrippedReloaded(b, indent);
    }
  }

  lemma DropIndent(x: string, y: string, indent: nat)
    requires Indent(indent) + x + "\n" == Indent(indent) + y + "\n"
    ensures x == y
  {
    var i := Indent(indent);
    assert (i + x + "\n")[indent..] == x + "\n" && (i + y + "\n")[indent..] == y + "\n";
    assert (x + "\n")[..|x|] == x && (y + "\n")[..|y|] == y;
  }

  // ---- materialising ------------------------------------------------------------------------------

  lemma DesignerNodeSpacerFree(info: SpacerInfo, indent: nat)
    ensures SpacerFree(DesignerNode(info, indent))
  {
    hide DesignerProperties;
    DesignerFilled(info);
    forall c | c in DesignerProperties(info) ensures SpacerFree(c) { FilledSpacerFree(c); }
  }

  lemma {:induction false} FilledSpacerFree(node: XmlNode)
    requires Filled(node)
    ensures SpacerFree(node)
  {
    forall c | c in node.children ensures SpacerFree(c) { FilledSpacerFree(c); }
  }

  /** A reloaded tree has no spacer element left. */
  lemma {:induction false} ReloadedSpacerFree(node: XmlNode, indent: nat)
    ensures SpacerFree(Reloaded(node, indent))
    decreases node, 1
  {
    if node.name == "spacer" { DesignerNodeSpacerFree(SpacerInfoFromNode(node), indent); }
    else if node.children != [] { ReloadedAllSpacerFree(node.children, indent + 2); }
  }

  lemma {:induction false} ReloadedAllSpacerFree(nodes: seq<XmlNode>, indent: nat)
    ensures forall c :: c in ReloadedAll(nodes, indent) ==> SpacerFree(c)
    decreases nodes, 0
  {
    if nodes != [] {
      ReloadedSpacerFree(nodes[0], indent);
      ReloadedAllSpacerFree(nodes[1..], indent);
    }
  }

  /** The node reached by child positions. */
  function NodeAt(node: XmlNode, path: seq<nat>): Option<XmlNode>
    decreases |path|
  {
    if path == [] then Some(node)
    else if path[0] < |node.children| then NodeAt(node.children[path[0]], path[1..])
    else None
  }

  /** No node strictly above the one reached is a spacer. */
  predicate NoSpacerAbove(node: XmlNode, path: seq<nat>)
    decreases |path|
  {
    path == [] || (node.name != "spacer" && path[0] < |node.children| && NoSpacerAbove(node.children[path[0]], path[1..]))
  }

  lemma {:induction false} ReloadedAllAt(nodes: seq<XmlNode>, indent: nat, k: nat)
    requires k < |nodes|
    ensures ReloadedAll(nodes, indent)[k] == Reloaded(nodes[k], indent)
  {
    if k > 0 { ReloadedAllAt(nodes[1..], indent, k - 1); }
  }

  /**
   A spacer is replaced by its designer widget; every other node keeps its name, its attributes, its
   number of children and, without children, its text.
   */
  predicate Replaces(before: XmlNode, after: XmlNode, indent: nat) {
    if before.name == "spacer" then after == DesignerNode(SpacerInfoFromNode(before), indent)
    else
      && after.name == before.name && after.attributes == before.attributes
      && |after.children| == |before.children|
      && (before.children == [] ==> after.text == before.text)
  }

  lemma ReloadedReplaces(node: XmlNode, indent: nat)
    ensures Replaces(node, Reloaded(node, indent), indent)
  {
    hide DesignerNode, SpacerInfoFromNode, BlockText;
  }

  /** Every node stays where it stood, whatever the spacers around it have become. */
  lemma {:induction false} NodesKeepTheirPlace(node: XmlNode, path: seq<nat>, indent: nat)
    requires NoSpacerAbove(node, path)
    ensures NodeAt(node, path).Some? && NodeAt(Reloaded(node, indent), path).Some?
    ensures Replaces(NodeAt(node, path).value, NodeAt(Reloaded(node, indent), path).value, indent + 2 * |path|)
    decreases |path|
  {
    hide Replaces, DesignerNode, SpacerInfoFromNode, BlockText, ReloadedAll;
    if path == [] {
      ReloadedReplaces(node, indent);
    } else {
      ReloadedAllAt(node.children, indent + 2, path[0]);
      NodesKeepTheirPlace(node.children[path[0]], path[1..], indent + 2);
    }
  }

  /**
   For every text that parses: the prepared text parses again to the tree with its spacers replaced,
   no spacer remains, preparing again leaves that tree as it is up to the white space between its lines,
   and the text of the second time is one that further loads never change.
   */
  lemma MaterializeStabilises(xml: string)
    requires Parse(xml).Success?
    ensures var root := Parse(xml).value;
            var once := MaterializeCanvasSpacers(xml);
            && once.Prepared?
            && Parse(once.xml) == Parsed.Success(Reloaded(root, 0), "\n")
            && SpacerFree(Parse(once.xml).value)
            && var twice := MaterializeCanvasSpacers(once.xml);
               && twice.Prepared? && MaterializeCanvasSpacers(twice.xml) == twice
               && Parse(twice.xml).Success?
               && Stripped(Parse(twice.xml).value) == Stripped(Parse(once.xml).value)
  {
    var root := Parse(xml).value;
    ParsedWellFormed(xml);
    ParsePrinted(root);
    ReloadedSpacerFree(root, 0);
    var loaded := Reloaded(root, 0);
    ParsedWellFormed(Emit(root, 0));
    ParsePrinted(loaded);
    StrippedReloaded(loaded, 0);
    ReloadedSpacerFree(loaded, 0);
    TagOfStripped(loaded, 0);
    TagOfStripped(Reloaded(loaded, 0), 0);
    ParsedWellFormed(Emit(loaded, 0));
  }

  // ---- when one load is enough --------------------------------------------------------------------

  /** Elements whose leaves all carry text, as the printed properties do. */
  ghost predicate Filled(node: XmlNode) {
    && node.name != "spacer"
    && (node.children == [] ==> node.text != "")
    && forall c :: c in node.children ==> Filled(c)
  }

  /** The printed tree form of a filled element is at least as long as its one-line form. */
  lemma {:induction false} CompactIsShorter(node: XmlNode, indent: nat)
    requires Filled(node)
    ensures |Compact(node)| <= |Tag(node, indent)|
    ensures node.children != [] ==> |Compact(node)| < |Tag(node, indent)|
    decreases node, 1
  {
    if node.children != [] { CompactAllIsShorter(node.children, indent + 2); }
  }

  lemma {:induction false} CompactAllIsShorter(nodes: seq<XmlNode>, indent: nat)
    requires forall c :: c in nodes ==> Filled(c)
    ensures |CompactAll(nodes)| <= |Lines(Tags(nodes, indent), indent)|
    decreases nodes, 0
  {
    if nodes != [] {
      CompactIsShorter(nodes[0], indent);
      CompactAllIsShorter(nodes[1..], indent);
      assert Tags(nodes, indent)[1..] == Tags(nodes[1..], indent);
    }
  }

  lemma {:induction false} PropertiesGrow(nodes: seq<XmlNode>, indent: nat)
    requires forall c :: c in nodes ==> Filled(c) && c.children != []
    ensures |Lines(CompactEach(nodes), indent)| <= |Lines(Tags(nodes, indent), indent)|
    ensures nodes != [] ==> |Lines(CompactEach(nodes), indent)| < |Lines(Tags(nodes, indent), indent)|
    decreases |nodes|
  {
    hide Filled, Compact, Tag, Indent;
    if nodes != [] {
      CompactIsShorter(nodes[0], indent);
      PropertiesGrow(nodes[1..], indent);
      assert Tags(nodes, indent)[1..] == Tags(nodes[1..], indent);
      assert CompactEach(nodes)[1..] == CompactEach(nodes[1..]);
    }
  }

  lemma FilledProperty(name: string, value: XmlNode)
    requires value.name != "spacer" && value.children == [] && value.text != ""
    ensures Filled(Property(name, value))
  {
    assert Filled(value);
    assert forall c :: c in Property(name, value).children ==> c == value;
  }

  lemma FilledGeometry(info: SpacerInfo)
    ensures Filled(DesignerProperties(info)[0])
  {
    var rect := DesignerProperties(info)[0].children[0];
    forall c | c in rect.children ensures Filled(c) {
      assert c.children == [] && c.text != "";
    }
    assert Filled(rect);
    assert forall c :: c in DesignerProperties(info)[0].children ==> c == rect;
  }

  lemma DesignerFilled(info: SpacerInfo)
    ensures forall c :: c in DesignerProperties(info) ==> Filled(c) && c.children != []
  {
    var ps := DesignerProperties(info);
    FilledGeometry(info);
    FilledProperty("__SwCreator_DesignWidget", ps[1].children[0]);
    FilledProperty("Orientation", ps[2].children[0]);
    FilledProperty("HorizontalPolicy", ps[3].children[0]);
    FilledProperty("VerticalPolicy", ps[4].children[0]);
    FilledProperty("SizeHintWidth", ps[5].children[0]);
    FilledProperty("SizeHintHeight", ps[6].children[0]);
  }

  /** A block of one-line properties grows when it is printed as a tree. */
  lemma BlockGrows(name: string, attrs: seq<Attribute>, text: string, ps: seq<XmlNode>, indent: nat)
    requires name != "spacer" && ps != [] && forall c :: c in ps ==> Filled(c) && c.children != []
    ensures |Block(name, attrs, CompactEach(ps), indent)| < |Tag(XmlNode(name, attrs, text, ps), indent)|
  {
    PropertiesGrow(ps, indent + 2);
    assert Tag(XmlNode(name, attrs, text, ps), indent) == Block(name, attrs, Tags(ps, indent + 2), indent);
  }

  lemma DesignerGrows(info: SpacerInfo, indent: nat)
    ensures |DesignerText(info, indent)| < |Tag(DesignerNode(info, indent), indent)|
  {
    DesignerFilled(info);
    BlockGrows("widget", DesignerAttributes(info), BlockText(7, indent), DesignerProperties(info), indent);
  }

  lemma {:induction false} ReloadGrows(node: XmlNode, depth: nat, indent: nat)
    requires depth == indent
    ensures |Tag(node, indent)| <= |Tag(Reloaded(node, depth), indent)|
    ensures !SpacerFree(node) ==> |Tag(node, indent)| < |Tag(Reloaded(node, depth), indent)|
    decreases node, 1
  {
    if node.name == "spacer" { DesignerGrows(SpacerInfoFromNode(node), indent); }
    else if node.children != [] { ReloadAllGrows(node.children, indent + 2); }
  }

  lemma {:induction false} ReloadAllGrows(nodes: seq<XmlNode>, indent: nat)
    ensures |Lines(Tags(nodes, indent), indent)| <= |Lines(Tags(ReloadedAll(nodes, indent), indent), indent)|
    ensures (exists c :: c in nodes && !SpacerFree(c)) ==>
              |Lines(Tags(nodes, indent), indent)| < |Lines(Tags(ReloadedAll(nodes, indent), indent), indent)|
    decreases nodes, 0
  {
    if nodes != [] {
      ReloadGrows(nodes[0], indent, indent);
      ReloadAllGrows(nodes[1..], indent);
      assert ReloadedAll(nodes, indent)[1..] == ReloadedAll(nodes[1..], indent);
      assert Tags(nodes, indent)[1..] == Tags(nodes[1..], indent);
      var rs := ReloadedAll(nodes, indent);
      assert Tags(rs, indent)[1..] == Tags(rs[1..], indent);
      if c :| c in nodes && !SpacerFree(c) {
        if c != nodes[0] { assert c in nodes[1..]; }
      }
    }
  }

  /** Preparing is idempotent on exactly the documents that hold no spacer. */
  lemma IdempotentIffSpacerFree(xml: string)
    requires Parse(xml).Success?
    ensures var once := MaterializeCanvasSpacers(xml);
            once.Prepared? &&
            (MaterializeCanvasSpacers(once.xml) == once <==> SpacerFree(Parse(xml).value))
  {
    var root := Parse(xml).value;
    ParsedWellFormed(xml);
    ParsePrinted(root);
    if SpacerFree(root) {
      StrippedReloaded(root, 0);
      TagOfStripped(root, 0);
      TagOfStripped(Reloaded(root, 0), 0);
    } else {
      ReloadGrows(root, 0, 0);
    }
  }

  /** The smallest text with a spacer is read as just that. */
  lemma LoneSpacer()
    ensures Parse("<spacer/>") == Parsed.Success(XmlNode("spacer", [], "", []), "")
  {
    hide ParseElement, ParseAttributes, ParseName, NameLength, SkipProlog;
    var s := "<spacer/>";
    assert s[1..] == "spacer" + ("/>" + "");
    assert TagEnd(true) + "" == "/>";
    ReadName("spacer", "/>");
    AttributesEnd(true, "", []);
    ElementStep(s, "spacer", "/>", [], true, "");
    NoProlog(s);
  }

  /** Preparing it once and twice gives different texts. */
  lemma LoneSpacerNotIdempotent()
    ensures var once := MaterializeCanvasSpacers("<spacer/>");
            once.Prepared? && MaterializeCanvasSpacers(once.xml) != once
  {
    LoneSpacer();
    IdempotentIffSpacerFree("<spacer/>");
  }
}
