/** The serializer's emitters as they run: they append to an output stream. */
module XmlStream {
  import opened Xml
  import opened XmlPrinter

  class Stream {
    var text: string

    constructor ()
      ensures text == ""
    {
      text := "";
    }

    /** `oss << s`: `out` is what has been appended since the text was `base`. */
    method Put(ghost base: string, ghost out: string, s: string) returns (ghost out': string)
      requires text == base + out
      modifies this
      ensures out' == out + s && text == base + out'
    {
      text := text + s;
      Assoc(base, out, s);
      out' := out + s;
    }

    method PutIndent(ghost base: string, ghost out: string, spaces: nat) returns (ghost out': string)
      requires text == base + out
      modifies this
      ensures out' == out + Indent(spaces) && text == base + out'
    {
      var pad := "";
      for i := 0 to spaces
        invariant pad == Indent(i) && text == old(text)
      {
        IndentSnoc(i);
        pad := pad + " ";
      }
      out' := Put(base, out, pad);
    }

    method PutProperties(ghost base: string, ghost out: string, props: seq<XmlNode>, indent: nat) returns (ghost out': string)
      requires text == base + out
      modifies this
      ensures out' == out + Lines(CompactEach(props), indent) && text == base + out'
    {
      ghost var pieces := CompactEach(props);
      out' := out;
      assert out == out + Lines(pieces[..0], indent);
      for i := 0 to |props|
        invariant text == base + out' && out' == out + Lines(pieces[..i], indent)
      {
        ghost var done := Lines(pieces[..i], indent);
        LinesSnoc(pieces, i, indent);
        Flatten4(out, done, Indent(indent), pieces[i], "\n");
        out' := PutIndent(base, out', indent);
        out' := Put(base, out', Compact(props[i]));
        out' := Put(base, out', "\n");
      }
      assert pieces[..|props|] == pieces;
    }

    method PutAttributes(ghost base: string, ghost out: string, attributes: seq<Attribute>) returns (ghost out': string)
      requires text == base + out
      modifies this
      ensures out' == out + EmitAttributes(attributes) && text == base + out'
    {
      out' := out;
      assert out == out + EmitAttributes(attributes[..0]);
      for i := 0 to |attributes|
        invariant text == base + out' && out' == out + EmitAttributes(attributes[..i])
      {
        ghost var done := EmitAttributes(attributes[..i]);
        var value := XmlEscape(attributes[i].value);
        AttributesSnoc(attributes, i);
        Flatten6(out, done, " ", attributes[i].key, "=\"", value, "\"");
        out' := Put(base, out', " ");
        out' := Put(base, out', attributes[i].key);
        out' := Put(base, out', "=\"");
        out' := Put(base, out', value);
        out' := Put(base, out', "\"");
      }
      assert attributes[..|attributes|] == attributes;
    }

    /** The opening of an element up to its attributes. */
    method PutOpen(ghost base: string, name: string, attributes: seq<Attribute>, indent: nat) returns (ghost out': string)
      requires text == base
      modifies this
      ensures out' == Indent(indent) + "<" + name + EmitAttributes(attributes) && text == base + out'
    {
      assert base == base + "";
      out' := PutIndent(base, "", indent);
      assert out' == Indent(indent);
      out' := Put(base, out', "<");
      out' := Put(base, out', name);
      out' := PutAttributes(base, out', attributes);
    }

    method PutClose(ghost base: string, ghost out: string, name: string, indent: nat) returns (ghost out': string)
      requires text == base + out
      modifies this
      ensures out' == out + Indent(indent) + "</" + name + ">" + "\n" && text == base + out'
    {
      out' := PutIndent(base, out, indent);
      out' := Put(base, out', "</");
      out' := Put(base, out', name);
      out' := Put(base, out', ">");
      out' := Put(base, out', "\n");
    }

    /** `emitDesignerSpacerWidget_` */
    method EmitDesignerSpacer(info: SpacerInfo, indent: nat)
      modifies this
      ensures text == old(text) + (Indent(indent) + DesignerText(info, indent) + "\n")
    {
      ghost var base := text;
      var attrs, props := DesignerAttributes(info), DesignerProperties(info);
      ghost var out := PutOpen(base, "widget", attrs, indent);
      out := Put(base, out, ">\n");
      out := PutProperties(base, out, props, indent + 2);
      out := PutClose(base, out, "widget", indent);
      FlatBlock("widget", attrs, CompactEach(props), indent);
    }

    /** `emitXmlNodeRecursive_` */
    method EmitNode(node: XmlNode, indent: nat)
      modifies this
      ensures text == old(text) + Emit(node, indent)
      decreases node, 1
    {
      if node.name == "spacer" {
        EmitDesignerSpacer(SpacerInfoFromNode(node), indent);
      } else if node.children == [] {
        EmitLeaf(node, indent);
      } else {
        EmitParent(node, indent);
      }
    }

    method EmitLeaf(node: XmlNode, indent: nat)
      requires node.name != "spacer" && node.children == []
      modifies this
      ensures text == old(text) + Emit(node, indent)
    {
      ghost var base, i, attrs := text, Indent(indent), EmitAttributes(node.attributes);
      ghost var out := PutOpen(base, node.name, node.attributes, indent);
      if node.text == "" {
        out := Put(base, out, "/>");
        out := Put(base, out, "\n");
        Flatten4(i, "<", node.name, attrs, "/>");
      } else {
        var body := XmlEscape(node.text);
        out := Put(base, out, ">");
        out := Put(base, out, body);
        out := Put(base, out, "</");
        out := Put(base, out, node.name);
        out := Put(base, out, ">");
        out := Put(base, out, "\n");
        Flatten8(i, "<", node.name, attrs, ">", body, "</", node.name, ">");
      }
    }

    method EmitParent(node: XmlNode, indent: nat)
      requires node.name != "spacer" && node.children != []
      modifies this
      ensures text == old(text) + Emit(node, indent)
      decreases node, 0
    {
      ghost var base, pieces := text, Tags(node.children, indent + 2);
      ghost var out := PutOpen(base, node.name, node.attributes, indent);
      out := Put(base, out, ">\n");
      ghost var head := out;
      EmitChildren(node.children, indent + 2);
      Assoc(base, head, Lines(pieces, indent + 2));
      out := head + Lines(pieces, indent + 2);
      out := PutClose(base, out, node.name, indent);
      FlatBlock(node.name, node.attributes, pieces, indent);
    }

    method EmitChildren(nodes: seq<XmlNode>, indent: nat)
      modifies this
      ensures text == old(text) + Lines(Tags(nodes, indent), indent)
      decreases nodes
    {
      ghost var base, pieces := text, Tags(nodes, indent);
      ghost var out := "";
      assert base == base + "";
      for k := 0 to |nodes|
        invariant text == base + out && out == Lines(pieces[..k], indent)
      {
        EmitNode(nodes[k], indent);
        LineAdded(base, out, nodes, indent, k);
        out := out + Emit(nodes[k], indent);
      }
      assert pieces[..|nodes|] == pieces;
    }
  }

  lemma LineAdded(base: string, out: string, nodes: seq<XmlNode>, indent: nat, k: nat)
    requires k < |nodes| && out == Lines(Tags(nodes, indent)[..k], indent)
    ensures base + out + Emit(nodes[k], indent) == base + (out + Emit(nodes[k], indent))
    ensures out + Emit(nodes[k], indent) == Lines(Tags(nodes, indent)[..k + 1], indent)
  {
    TagAt(nodes, indent, k);
    LinesSnoc(Tags(nodes, indent), k, indent);
    Assoc(base, out, Emit(nodes[k], indent));
    Assoc(out, Indent(indent) + Tag(nodes[k], indent), "\n");
    Assoc(out, Indent(indent), Tag(nodes[k], indent));
  }

  lemma FlatBlock(name: string, attrs: seq<Attribute>, pieces: seq<string>, indent: nat)
    ensures Indent(indent) + Block(name, attrs, pieces, indent) + "\n"
         == Indent(indent) + "<" + name + EmitAttributes(attrs) + ">\n" + Lines(pieces, indent + 2)
            + Indent(indent) + "</" + name + ">" + "\n"
  {
    Flatten9(Indent(indent), "<", name, EmitAttributes(attrs), ">\n", Lines(pieces, indent + 2), Indent(indent), "</", name, ">");
  }

  lemma Assoc(a: string, b: string, c: string)
    ensures a + b + c == a + (b + c)
  {}

  lemma Flatten4(o: string, a: string, b: string, c: string, d: string)
    ensures o + (a + b + c + d) == o + a + b + c + d
  {
    Assoc(o, a + b + c, d);
    Assoc(o, a + b, c);
    Assoc(o, a, b);
  }

  lemma Flatten6(o: string, a: string, b: string, c: string, d: string, e: string, f: string)
    ensures o + (a + b + c + d + e + f) == o + a + b + c + d + e + f
  {
    Assoc(o, a + b + c + d + e, f);
    Assoc(o, a + b + c + d, e);
    Flatten4(o, a, b, c, d);
  }

  lemma Flatten8(o: string, a: string, b: string, c: string, d: string, e: string, f: string, g: string, h: string)
    ensures o + (a + b + c + d + e + f + g + h) == o + a + b + c + d + e + f + g + h
  {
    Assoc(o, a + b + c + d + e + f + g, h);
    Assoc(o, a + b + c + d + e + f, g);
    Flatten6(o, a, b, c, d, e, f);
  }

  lemma Flatten9(o: string, a: string, b: string, c: string, d: string, e: string, f: string, g: string, h: string, k: string)
    ensures o + (a + b + c + d + e + f + g + h + k) == o + a + b + c + d + e + f + g + h + k
  {
    Assoc(o, a + b + c + d + e + f + g + h, k);
    Flatten8(o, a, b, c, d, e, f, g, h);
  }

  lemma {:induction false} IndentSnoc(n: nat)
    ensures Indent(n) + " " == Indent(n + 1)
  {
    if n > 0 { IndentSnoc(n - 1); }
  }

  lemma {:induction false} LinesSnoc(pieces: seq<string>, i: nat, indent: nat)
    requires i < |pieces|
    ensures Lines(pieces[..i + 1], indent) == Lines(pieces[..i], indent) + Indent(indent) + pieces[i] + "\n"
  {
    if i == 0 {
      assert pieces[..1][1..] == [];
    } else {
      LinesSnoc(pieces[1..], i - 1, indent);
      assert pieces[..i + 1][1..] == pieces[1..][..i];
      assert pieces[..i][1..] == pieces[1..][..i - 1];
    }
  }

  lemma {:induction false} AttributesSnoc(attributes: seq<Attribute>, i: nat)
    requires i < |attributes|
    ensures EmitAttributes(attributes[..i + 1])
         == EmitAttributes(attributes[..i]) + " " + attributes[i].key + "=\"" + Escape(attributes[i].value) + "\""
  {
    if i == 0 {
      assert attributes[..1][1..] == [];
    } else {
      AttributesSnoc(attributes[1..], i - 1);
      var first, last := attributes[0], attributes[i];
      Flatten6(" " + first.key + "=\"" + Escape(first.value) + "\"", EmitAttributes(attributes[1..][..i - 1]),
               " ", last.key, "=\"", Escape(last.value), "\"");
      assert attributes[..i + 1][1..] == attributes[1..][..i];
      assert attributes[..i][1..] == attributes[1..][..i - 1];
    }
  }
}
