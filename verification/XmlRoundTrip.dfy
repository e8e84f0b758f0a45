/** Printing and reading XML: the reader recovers every printed tree. */
module XmlRoundTrip {
  import opened Text
  import opened Xml
  import opened XmlParser
  import opened XmlPrinter

  // ---- entities ---------------------------------------------------------------------------------

  lemma DecodeEntity(ent: string, rest: string)
    requires ';' !in ent
    ensures DecodeEntities("&" + ent + ";" + rest) == Entity(ent) + DecodeEntities(rest)
  {
    var s := "&" + ent + ";" + rest;
    assert s[1..] == ent + [';'] + rest;
    FindCharAfter(ent, ';', rest);
    assert s[1..|ent| + 1] == ent && s[|ent| + 2..] == rest;
  }

  /** The entity that stands for an escaped character. */
  function EntityName(c: char): string {
    if c == '&' then "amp" else if c == '<' then "lt" else if c == '>' then "gt"
    else if c == '"' then "quot" else if c == '\'' then "apos" else ""
  }

  lemma EscapedForm(c: char)
    ensures EntityName(c) == "" ==> EscapeChar(c) == [c] && c != '&'
    ensures EntityName(c) != "" ==> EscapeChar(c) == "&" + EntityName(c) + ";" && Entity(EntityName(c)) == [c]
    ensures ';' !in EntityName(c)
  {}

  lemma DecodeEscapedChar(c: char, rest: string)
    ensures DecodeEntities(EscapeChar(c) + rest) == [c] + DecodeEntities(rest)
  {
    EscapedForm(c);
    if EntityName(c) == "" {
      assert ([c] + rest)[1..] == rest;
    } else {
      DecodeEntity(EntityName(c), rest);
    }
  }

  /** Decoding undoes escaping. */
  lemma {:induction false} DecodeEscape(s: string)
    ensures DecodeEntities(Escape(s)) == s
  {
    if s != "" {
      DecodeEscapedChar(s[0], Escape(s[1..]));
      DecodeEscape(s[1..]);
    }
  }

  /** Escaped text holds no delimiter. */
  lemma {:induction false} EscapeClean(s: string, d: char)
    requires d == '<' || d == '>' || d == '"' || d == '\''
    ensures d !in Escape(s)
  {
    if s != "" { EscapeClean(s[1..], d); }
  }

  lemma {:induction false} DecodePlain(s: string)
    requires '&' !in s
    ensures DecodeEntities(s) == s
  {
    if s != "" { DecodePlain(s[1..]); }
  }

  // ---- tags -------------------------------------------------------------------------------------

  lemma {:induction false} NameLengthExact(n: string, rest: string)
    requires forall i :: 0 <= i < |n| ==> IsNameChar(n[i])
    requires rest == "" || !IsNameChar(rest[0])
    ensures NameLength(n + rest) == |n|
  {
    if n == "" {
      assert n + rest == rest;
    } else {
      assert (n + rest)[1..] == n[1..] + rest;
      NameLengthExact(n[1..], rest);
    }
  }

  lemma ReadName(n: string, rest: string)
    requires ValidName(n) && (rest == "" || !IsNameChar(rest[0]))
    ensures ParseName(n + rest) == Parsed.Success(n, rest)
  {
    NameLengthExact(n, rest);
    assert (n + rest)[..|n|] == n && (n + rest)[|n|..] == rest;
  }

  lemma QuotedStep(t: string, k: nat)
    requires t != "" && t[0] == '"' && FindChar(t[1..], '"') == Some(k)
    ensures ParseAttributeValue(t) == Parsed.Success(DecodeEntities(t[1..k + 1]), t[k + 2..])
  {
    assert SkipSpace(t) == t;
  }

  lemma QuotedParts(e: string, rest: string)
    ensures var t := "\"" + e + "\"" + rest;
            t[0] == '"' && t[1..] == e + ['"'] + rest && t[1..|e| + 1] == e && t[|e| + 2..] == rest
  {}

  lemma ReadQuoted(e: string, rest: string)
    requires '"' !in e
    ensures ParseAttributeValue("\"" + e + "\"" + rest) == Parsed.Success(DecodeEntities(e), rest)
  {
    QuotedParts(e, rest);
    FindCharAfter(e, '"', rest);
    QuotedStep("\"" + e + "\"" + rest, |e|);
  }

  lemma ReadValue(v: string, rest: string)
    ensures ParseAttributeValue("\"" + Escape(v) + "\"" + rest) == Parsed.Success(v, rest)
  {
    EscapeClean(v, '"');
    ReadQuoted(Escape(v), rest);
    DecodeEscape(v);
  }

  function TagEnd(selfClosing: bool): string { if selfClosing then "/>" else ">" }

  lemma AttributesEnd(selfClosing: bool, rest: string, acc: seq<Attribute>)
    ensures ParseAttributes(TagEnd(selfClosing) + rest, acc) == Parsed.Success(Header(acc, selfClosing), rest)
  {
    var t := TagEnd(selfClosing) + rest;
    assert SkipSpace(t) == t;
    assert t[|TagEnd(selfClosing)|..] == rest;
    if selfClosing { assert "/>" <= t; } else { assert t[0] == '>'; }
  }

  lemma SkipOneSpace(t: string)
    requires t != "" && !IsSpace(t[0])
    ensures SkipSpace(" " + t) == t
  {
    assert (" " + t)[1..] == t;
  }

  lemma AttributesStep(s: string, t: string, acc: seq<Attribute>, key: string, u: string, value: string, rest: string)
    requires SkipSpace(s) == t && t != "" && IsNameStart(t[0]) && ParseName(t) == Parsed.Success(key, u)
    requires SkipSpace(u) == u && u != "" && u[0] == '='
    requires ParseAttributeValue(u[1..]) == Parsed.Success(value, rest)
    ensures ParseAttributes(s, acc) == ParseAttributes(rest, Insert(acc, key, value))
  {}

  lemma AttributeParts(attrs: seq<Attribute>, end: string)
    requires attrs != []
    ensures EmitAttributes(attrs) + end
         == " " + (attrs[0].key + ("=" + ("\"" + Escape(attrs[0].value) + "\"" + (EmitAttributes(attrs[1..]) + end))))
  {}

  /** Reading resumes with the first `k` attributes in the map and recovers all of them. */
  lemma {:induction false} ReadAttributes(all: seq<Attribute>, k: nat, selfClosing: bool, rest: string)
    requires ValidAttributes(all) && k <= |all|
    ensures ParseAttributes(EmitAttributes(all[k..]) + (TagEnd(selfClosing) + rest), all[..k])
         == Parsed.Success(Header(all, selfClosing), rest)
    decreases |all| - k
  {
    var end := TagEnd(selfClosing) + rest;
    if k == |all| {
      assert EmitAttributes(all[k..]) + end == end && all[..k] == all;
      AttributesEnd(selfClosing, rest, all);
    } else {
      ReadAttributes(all, k + 1, selfClosing, rest);
      assert all[k..][1..] == all[k + 1..];
      AttributeParts(all[k..], end);
      ReadOneAttribute(all, k, EmitAttributes(all[k + 1..]) + end);
    }
  }

  lemma InsertNext(all: seq<Attribute>, k: nat)
    requires Sorted(all) && k < |all|
    ensures Insert(all[..k], all[k].key, all[k].value) == all[..k + 1]
  {
    InsertLast(all[..k], all[k].key, all[k].value);
    assert all[..k] + [all[k]] == all[..k + 1];
  }

  lemma KeyValueParts(key: string, quoted: string)
    requires ValidName(key)
    ensures var u := "=" + quoted; u[0] == '=' && u[1..] == quoted && SkipSpace(u) == u
    ensures var t := key + ("=" + quoted);
            t != "" && IsNameStart(t[0]) && SkipSpace(" " + t) == t && ParseName(t) == Parsed.Success(key, "=" + quoted)
  {
    hide ParseName;
    ReadName(key, "=" + quoted);
    assert (key + ("=" + quoted))[0] == key[0];
    SkipOneSpace(key + ("=" + quoted));
  }

  lemma ReadOneAttribute(all: seq<Attribute>, k: nat, more: string)
    requires ValidAttributes(all) && k < |all|
    ensures ParseAttributes(" " + (all[k].key + ("=" + ("\"" + Escape(all[k].value) + "\"" + more))), all[..k])
         == ParseAttributes(more, all[..k + 1])
  {
    ReadValue(all[k].value, more);
    ReadKeyValue(all[k].key, "\"" + Escape(all[k].value) + "\"" + more, all[k].value, more, all[..k]);
    InsertNext(all, k);
  }

  lemma ReadKeyValue(key: string, quoted: string, v: string, more: string, acc: seq<Attribute>)
    requires ValidName(key) && ParseAttributeValue(quoted) == Parsed.Success(v, more)
    ensures ParseAttributes(" " + (key + ("=" + quoted)), acc) == ParseAttributes(more, Insert(acc, key, v))
  {
    KeyValueParts(key, quoted);
    AttributesStep(" " + (key + ("=" + quoted)), key + ("=" + quoted), acc, key, "=" + quoted, v, more);
  }

  predicate ElementStart(x: string) { |x| >= 2 && x[0] == '<' && IsNameStart(x[1]) }

  function OpenText(name: string, attrs: seq<Attribute>, selfClosing: bool): string {
    "<" + name + EmitAttributes(attrs) + TagEnd(selfClosing)
  }

  lemma EmittedAttributesStart(attrs: seq<Attribute>, end: string)
    requires end != "" && !IsNameChar(end[0])
    ensures EmitAttributes(attrs) + end != "" && !IsNameChar((EmitAttributes(attrs) + end)[0])
  {}

  /** The reader at the `<` of an opening tag. */
  lemma ElementStep(s: string, name: string, u: string, attrs: seq<Attribute>, selfClosing: bool, rest: string)
    requires ElementStart(s) && ParseName(s[1..]) == Parsed.Success(name, u)
    requires ParseAttributes(u, []) == Parsed.Success(Header(attrs, selfClosing), rest)
    ensures ParseElement(s)
         == if selfClosing then Parsed.Success(XmlNode(name, attrs, "", []), rest)
            else ParseContent(rest, name, attrs, "", [])
  {
    assert SkipSpace(s) == s;
    StartIsPlain(s);
  }

  lemma StartIsPlain(s: string)
    requires ElementStart(s)
    ensures !("<!--" <= s) && !("<?" <= s) && !(CDATA <= s) && !("</" <= s)
  {}

  lemma OpenParts(name: string, attrs: seq<Attribute>, selfClosing: bool, rest: string)
    requires ValidName(name)
    ensures var s := OpenText(name, attrs, selfClosing) + rest;
            ElementStart(s) && s[1..] == name + (EmitAttributes(attrs) + (TagEnd(selfClosing) + rest))
  {
    hide EmitAttributes;
    var u := name + (EmitAttributes(attrs) + (TagEnd(selfClosing) + rest));
    assert OpenText(name, attrs, selfClosing) + rest == "<" + u;
    assert u[0] == name[0];
  }

  lemma ReadOpenTag(name: string, attrs: seq<Attribute>, selfClosing: bool, rest: string)
    requires ValidName(name) && ValidAttributes(attrs)
    ensures ParseElement(OpenText(name, attrs, selfClosing) + rest)
         == if selfClosing then Parsed.Success(XmlNode(name, attrs, "", []), rest)
            else ParseContent(rest, name, attrs, "", [])
  {
    var u := EmitAttributes(attrs) + (TagEnd(selfClosing) + rest);
    OpenParts(name, attrs, selfClosing, rest);
    EmittedAttributesStart(attrs, TagEnd(selfClosing) + rest);
    ReadName(name, u);
    assert attrs[0..] == attrs && attrs[..0] == [];
    ReadAttributes(attrs, 0, selfClosing, rest);
    ElementStep(OpenText(name, attrs, selfClosing) + rest, name, u, attrs, selfClosing, rest);
  }

  function CloseText(name: string): string { "</" + name + ">" }

  lemma ReadCloseTag(name: string, attrs: seq<Attribute>, text: string, children: seq<XmlNode>, rest: string)
    requires ValidName(name)
    ensures ParseContent(CloseText(name) + rest, name, attrs, text, children)
         == Parsed.Success(XmlNode(name, attrs, DecodeEntities(text), children), rest)
  {
    var s := CloseText(name) + rest;
    assert s == "</" + (name + (">" + rest));
    assert s[2..] == name + (">" + rest);
    ReadName(name, ">" + rest);
    assert (">" + rest)[1..] == rest;
    assert ParseEnd(s, name) == Parsed.Success(name, rest);
  }

  lemma TextStep(s: string, name: string, attrs: seq<Attribute>, text: string, children: seq<XmlNode>, k: nat)
    requires s != "" && s[0] != '<' && FindChar(s, '<') == Some(k)
    ensures ParseContent(s, name, attrs, text, children)
         == ParseContent(s[k..], name, attrs, text + s[..k], children)
  {
    assert ParseContent(s, name, attrs, text, children) == ParseText(s, name, attrs, text, children);
  }

  lemma ReadText(p: string, rest: string, name: string, attrs: seq<Attribute>, text: string, children: seq<XmlNode>)
    requires '<' !in p && rest != "" && rest[0] == '<'
    ensures ParseContent(p + rest, name, attrs, text, children)
         == ParseContent(rest, name, attrs, text + p, children)
  {
    if p == "" {
      assert p + rest == rest && text + p == text;
    } else {
      var s := p + rest;
      assert s[0] == p[0];
      assert s == p + ['<'] + rest[1..];
      FindCharAfter(p, '<', rest[1..]);
      assert s[..|p|] == p && s[|p|..] == rest;
      TextStep(s, name, attrs, text, children, |p|);
    }
  }

  /** The reader takes exactly `x` from any input that starts with it and produces `n`. */
  ghost predicate Reads(x: string, n: XmlNode) {
    ElementStart(x) && forall r: string :: ParseElement(x + r) == Parsed.Success(n, r)
  }

  lemma ReadChild(x: string, n: XmlNode, rest: string, name: string, attrs: seq<Attribute>, text: string, children: seq<XmlNode>)
    requires Reads(x, n)
    ensures ParseContent(x + rest, name, attrs, text, children)
         == ParseContent(rest, name, attrs, text, children + [n])
  {
    var s := x + rest;
    assert s[0] == '<' && s[1] == x[1];
    assert ParseElement(s) == Parsed.Success(n, rest);
    ChildStep(s, name, attrs, text, children);
  }

  lemma ChildStep(s: string, name: string, attrs: seq<Attribute>, text: string, children: seq<XmlNode>)
    requires ElementStart(s)
    ensures ParseContent(s, name, attrs, text, children) == ParseChild(s, name, attrs, text, children)
  {
    StartIsPlain(s);
    assert ParseContent(s, name, attrs, text, children) == ParseMarkup(s, name, attrs, text, children);
  }

  lemma ReadTextElement(name: string, attrs: seq<Attribute>, text: string, r: string)
    requires ValidName(name) && ValidAttributes(attrs)
    ensures ParseElement(OpenText(name, attrs, false) + (Escape(text) + (CloseText(name) + r)))
         == Parsed.Success(XmlNode(name, attrs, text, []), r)
  {
    var tail := CloseText(name) + r;
    ReadOpenTag(name, attrs, false, Escape(text) + tail);
    EscapeClean(text, '<');
    assert tail[0] == '<';
    ReadText(Escape(text), tail, name, attrs, "", []);
    assert "" + Escape(text) == Escape(text);
    DecodeEscape(text);
    ReadCloseTag(name, attrs, Escape(text), [], r);
  }

  // ---- one-line elements ----------------------------------------------------------------------------

  /** Trees whose inner elements carry no text. */
  predicate Plain(node: XmlNode) {
    && ValidName(node.name) && ValidAttributes(node.attributes)
    && (node.children != [] ==> node.text == "")
    && forall c :: c in node.children ==> Plain(c)
  }

  lemma {:induction false} ReadCompact(node: XmlNode, r: string)
    requires Plain(node)
    ensures ElementStart(Compact(node)) && ParseElement(Compact(node) + r) == Parsed.Success(node, r)
    decreases node, 1
  {
    assert Compact(node)[1] == node.name[0];
    CompactParts(node, r);
    if node.children == [] {
      ReadTextElement(node.name, node.attributes, node.text, r);
    } else {
      var tail := CloseText(node.name) + r;
      ReadOpenTag(node.name, node.attributes, false, CompactAll(node.children) + tail);
      ReadCompactAll(node.children, tail, node.name, node.attributes, []);
      assert [] + node.children == node.children;
      ReadCloseTag(node.name, node.attributes, "", node.children, r);
    }
  }

  lemma CompactParts(node: XmlNode, r: string)
    ensures var body := if node.children == [] then Escape(node.text) else CompactAll(node.children);
            Compact(node) + r == OpenText(node.name, node.attributes, false) + (body + (CloseText(node.name) + r))
  {}

  lemma MoveHead(done: seq<XmlNode>, nodes: seq<XmlNode>)
    requires nodes != []
    ensures done + [nodes[0]] + nodes[1..] == done + nodes
  {}

  lemma CompactAllParts(nodes: seq<XmlNode>, tail: string)
    requires nodes != []
    ensures CompactAll(nodes) + tail == Compact(nodes[0]) + (CompactAll(nodes[1..]) + tail)
  {}

  lemma {:induction false} ReadCompactAll(nodes: seq<XmlNode>, tail: string, name: string, attrs: seq<Attribute>, done: seq<XmlNode>)
    requires forall c :: c in nodes ==> Plain(c)
    ensures ParseContent(CompactAll(nodes) + tail, name, attrs, "", done)
         == ParseContent(tail, name, attrs, "", done + nodes)
    decreases nodes, 0
  {
    if nodes == [] {
      assert CompactAll(nodes) + tail == tail && done + nodes == done;
    } else {
      var rest := CompactAll(nodes[1..]) + tail;
      CompactAllParts(nodes, tail);
      forall r: string ensures ParseElement(Compact(nodes[0]) + r) == Parsed.Success(nodes[0], r) {
        ReadCompact(nodes[0], r);
      }
      ReadCompact(nodes[0], rest);
      ReadChild(Compact(nodes[0]), nodes[0], rest, name, attrs, "", done);
      ReadCompactAll(nodes[1..], tail, name, attrs, done + [nodes[0]]);
      MoveHead(done, nodes);
    }
  }

  // ---- blocks -----------------------------------------------------------------------------------------

  /** The character data the reader collects before `n` children on lines of their own. */
  function Gaps(n: nat, indent: nat): string {
    if n == 0 then "" else "\n" + Indent(indent) + Gaps(n - 1, indent)
  }

  /** The character data of a printed element with `n` children. */
  function BlockText(n: nat, indent: nat): string { Gaps(n, indent + 2) + "\n" + Indent(indent) }

  lemma {:induction false} GapsPlain(n: nat, indent: nat)
    ensures '&' !in Gaps(n, indent)
  {
    if n > 0 { GapsPlain(n - 1, indent); }
  }

  lemma Regroup(n: string, i: string, x: string, l: string, tail: string)
    ensures n + (i + x + n + l) + tail == (n + i) + (x + (n + l + tail))
  {}

  lemma LineParts(xs: seq<string>, indent: nat, tail: string)
    requires xs != []
    ensures "\n" + Lines(xs, indent) + tail
         == ("\n" + Indent(indent)) + (xs[0] + ("\n" + Lines(xs[1..], indent) + tail))
  {
    Regroup("\n", Indent(indent), xs[0], Lines(xs[1..], indent), tail);
  }

  lemma {:induction false} ReadLines(
      xs: seq<string>, ns: seq<XmlNode>, indent: nat, tail: string,
      name: string, attrs: seq<Attribute>, text: string, done: seq<XmlNode>)
    requires |xs| == |ns| && forall k :: 0 <= k < |xs| ==> Reads(xs[k], ns[k])
    ensures ParseContent("\n" + Lines(xs, indent) + tail, name, attrs, text, done)
         == ParseContent("\n" + tail, name, attrs, text + Gaps(|xs|, indent), done + ns)
    decreases |xs|
  {
    if xs == [] {
      assert "\n" + Lines(xs, indent) + tail == "\n" + tail;
      assert text + Gaps(0, indent) == text && done + ns == done;
    } else {
      var gap := "\n" + Indent(indent);
      var rest := "\n" + Lines(xs[1..], indent) + tail;
      LineParts(xs, indent, tail);
      ReadLine(gap, xs[0], ns[0], rest, name, attrs, text, done);
      ReadLines(xs[1..], ns[1..], indent, tail, name, attrs, text + gap, done + [ns[0]]);
      assert text + gap + Gaps(|xs| - 1, indent) == text + Gaps(|xs|, indent);
      MoveHead(done, ns);
    }
  }

  lemma ReadLine(gap: string, x: string, n: XmlNode, rest: string,
      name: string, attrs: seq<Attribute>, text: string, done: seq<XmlNode>)
    requires Reads(x, n) && '<' !in gap
    ensures ParseContent(gap + (x + rest), name, attrs, text, done)
         == ParseContent(rest, name, attrs, text + gap, done + [n])
  {
    assert (x + rest)[0] == '<';
    ReadText(gap, x + rest, name, attrs, text, done);
    ReadChild(x, n, rest, name, attrs, text + gap, done);
  }

  lemma BlockParts(name: string, attrs: seq<Attribute>, xs: seq<string>, indent: nat, r: string)
    ensures Block(name, attrs, xs, indent) + r
         == OpenText(name, attrs, false) + ("\n" + Lines(xs, indent + 2) + (Indent(indent) + (CloseText(name) + r)))
    ensures "\n" + (Indent(indent) + (CloseText(name) + r)) == ("\n" + Indent(indent)) + (CloseText(name) + r)
  {}

  lemma BlockTextDecoded(n: nat, indent: nat)
    ensures DecodeEntities(BlockText(n, indent)) == BlockText(n, indent)
  {
    GapsPlain(n, indent + 2);
    DecodePlain(BlockText(n, indent));
  }

  lemma ReadBlockEnd(name: string, attrs: seq<Attribute>, n: nat, ns: seq<XmlNode>, indent: nat, r: string)
    requires ValidName(name)
    ensures ParseContent(("\n" + Indent(indent)) + (CloseText(name) + r), name, attrs, Gaps(n, indent + 2), ns)
         == Parsed.Success(XmlNode(name, attrs, BlockText(n, indent), ns), r)
  {
    var gap := "\n" + Indent(indent);
    assert (CloseText(name) + r)[0] == '<';
    ReadText(gap, CloseText(name) + r, name, attrs, Gaps(n, indent + 2), ns);
    assert Gaps(n, indent + 2) + gap == BlockText(n, indent);
    BlockTextDecoded(n, indent);
    ReadCloseTag(name, attrs, BlockText(n, indent), ns, r);
  }

  lemma ReadBlockAt(name: string, attrs: seq<Attribute>, xs: seq<string>, ns: seq<XmlNode>, indent: nat, r: string)
    requires ValidName(name) && ValidAttributes(attrs)
    requires |xs| == |ns| && forall k :: 0 <= k < |xs| ==> Reads(xs[k], ns[k])
    ensures ParseElement(Block(name, attrs, xs, indent) + r)
         == Parsed.Success(XmlNode(name, attrs, BlockText(|xs|, indent), ns), r)
  {
    var tail := Indent(indent) + (CloseText(name) + r);
    BlockParts(name, attrs, xs, indent, r);
    ReadOpenTag(name, attrs, false, "\n" + Lines(xs, indent + 2) + tail);
    ReadLines(xs, ns, indent + 2, tail, name, attrs, "", []);
    assert "" + Gaps(|xs|, indent + 2) == Gaps(|xs|, indent + 2) && [] + ns == ns;
    ReadBlockEnd(name, attrs, |xs|, ns, indent, r);
  }

  lemma ReadBlock(name: string, attrs: seq<Attribute>, xs: seq<string>, ns: seq<XmlNode>, indent: nat)
    requires ValidName(name) && ValidAttributes(attrs)
    requires |xs| == |ns| && forall k :: 0 <= k < |xs| ==> Reads(xs[k], ns[k])
    ensures Reads(Block(name, attrs, xs, indent), XmlNode(name, attrs, BlockText(|xs|, indent), ns))
  {
    var x := Block(name, attrs, xs, indent);
    assert x[1] == name[0];
    forall r: string
      ensures ParseElement(x + r) == Parsed.Success(XmlNode(name, attrs, BlockText(|xs|, indent), ns), r)
    {
      ReadBlockAt(name, attrs, xs, ns, indent, r);
    }
  }

  lemma ReadPropertyBlock(name: string, attrs: seq<Attribute>, props: seq<XmlNode>, indent: nat)
    requires ValidName(name) && ValidAttributes(attrs)
    requires forall i :: 0 <= i < |props| ==> Plain(props[i])
    ensures Reads(Block(name, attrs, CompactEach(props), indent), XmlNode(name, attrs, BlockText(|props|, indent), props))
  {
    var xs := CompactEach(props);
    forall k | 0 <= k < |xs| ensures Reads(xs[k], props[k]) {
      ReadCompact(props[k], "");
      forall r: string ensures ParseElement(xs[k] + r) == Parsed.Success(props[k], r) {
        ReadCompact(props[k], r);
      }
    }
    ReadBlock(name, attrs, xs, props, indent);
  }

  // ---- spacers ------------------------------------------------------------------------------------------

  lemma PropertyPlain(name: string, value: XmlNode)
    requires Plain(value)
    ensures Plain(Property(name, value))
  {
    assert ValidName("property") && ValidName("name");
  }

  lemma LeafPlain(tag: string, text: string)
    requires ValidName(tag)
    ensures Plain(Leaf(tag, text))
  {}

  lemma SpacerPropertiesPlain(info: SpacerInfo)
    ensures forall i :: 0 <= i < |SpacerProperties(info)| ==> Plain(SpacerProperties(info)[i])
  {
    assert ValidName("enum");
    var ps := SpacerProperties(info);
    HintPlain(info);
    forall i | 0 <= i < 4 ensures Plain(ps[i]) {
      LeafPlain("enum", ps[i].children[0].text);
      PropertyPlain(ps[i].attributes[0].value, ps[i].children[0]);
    }
  }

  lemma HintPlain(info: SpacerInfo)
    ensures Plain(SpacerProperties(info)[4])
  {
    assert ValidName("size") && ValidName("width") && ValidName("height");
    LeafPlain("width", IntText(info.width));
    LeafPlain("height", IntText(info.height));
    PropertyPlain("sizeHint", SpacerProperties(info)[4].children[0]);
  }

  lemma GeometryPlain(info: SpacerInfo)
    ensures Plain(DesignerProperties(info)[0])
  {
    assert ValidName("rect") && ValidName("x") && ValidName("y") && ValidName("width") && ValidName("height");
    LeafPlain("x", "0");
    LeafPlain("y", "0");
    LeafPlain("width", IntText(info.width));
    LeafPlain("height", IntText(info.height));
    PropertyPlain("geometry", DesignerProperties(info)[0].children[0]);
  }

  lemma DesignerPropertiesPlain(info: SpacerInfo)
    ensures forall i :: 0 <= i < |DesignerProperties(info)| ==> Plain(DesignerProperties(info)[i])
  {
    assert ValidName("bool") && ValidName("string") && ValidName("number");
    var ps := DesignerProperties(info);
    GeometryPlain(info);
    forall i | 1 <= i < |ps| ensures Plain(ps[i]) {
      LeafPlain(ps[i].children[0].name, ps[i].children[0].text);
      PropertyPlain(ps[i].attributes[0].value, ps[i].children[0]);
    }
  }

  lemma NameAttributesValid(name: string)
    ensures ValidAttributes(NameAttribute(name))
    ensures ValidAttributes([Attribute("class", "SwSpacer")] + NameAttribute(name))
  {
    assert ValidName("name") && ValidName("class");
    assert Less("class", "name");
  }

  /** The element that the reader obtains from a saved spacer. */
  function SpacerNode(info: SpacerInfo, indent: nat): XmlNode {
    XmlNode("spacer", NameAttribute(info.name), BlockText(5, indent), SpacerProperties(info))
  }

  lemma ReadSpacer(info: SpacerInfo, indent: nat)
    ensures Reads(SpacerText(info, indent), SpacerNode(info, indent))
  {
    NameAttributesValid(info.name);
    SpacerPropertiesPlain(info);
    assert ValidName("spacer");
    ReadPropertyBlock("spacer", NameAttribute(info.name), SpacerProperties(info), indent);
  }

  /** The element that the reader obtains from a materialised spacer. */
  function DesignerNode(info: SpacerInfo, indent: nat): XmlNode {
    XmlNode("widget", DesignerAttributes(info), BlockText(7, indent), DesignerProperties(info))
  }

  lemma ReadDesigner(info: SpacerInfo, indent: nat)
    ensures Reads(DesignerText(info, indent), DesignerNode(info, indent))
  {
    NameAttributesValid(info.name);
    DesignerPropertiesPlain(info);
    assert ValidName("widget");
    ReadPropertyBlock("widget", DesignerAttributes(info), DesignerProperties(info), indent);
  }

  // ---- trees --------------------------------------------------------------------------------------------

  /**
   What a printed tree reads back as: spacers have become designer widgets and an element with
   children carries the white space of its lines as text.
   */
  function Reloaded(node: XmlNode, indent: nat): XmlNode
    decreases node
  {
    if node.name == "spacer" then DesignerNode(SpacerInfoFromNode(node), indent)
    else if node.children == [] then node
    else XmlNode(node.name, node.attributes, BlockText(|node.children|, indent), ReloadedAll(node.children, indent + 2))
  }

  function ReloadedAll(nodes: seq<XmlNode>, indent: nat): (r: seq<XmlNode>)
    ensures |r| == |nodes|
    decreases nodes
  {
    if nodes == [] then [] else [Reloaded(nodes[0], indent)] + ReloadedAll(nodes[1..], indent)
  }

  /** The reader recovers every printed well-formed tree, whatever follows it in the input. */
  lemma {:induction false} ReadTag(node: XmlNode, indent: nat)
    requires WellFormed(node)
    ensures Reads(Tag(node, indent), Reloaded(node, indent))
    decreases node, 1
  {
    if node.name == "spacer" {
      ReadDesigner(SpacerInfoFromNode(node), indent);
    } else if node.children == [] {
      ReadLeaf(node, indent);
    } else {
      ReadTags(node.children, indent + 2);
      ReadBlock(node.name, node.attributes, Tags(node.children, indent + 2), ReloadedAll(node.children, indent + 2), indent);
    }
  }

  lemma LeafParts(node: XmlNode, indent: nat, r: string)
    requires node.name != "spacer" && node.children == []
    ensures Tag(node, indent) + r
         == if node.text == "" then OpenText(node.name, node.attributes, true) + r
            else OpenText(node.name, node.attributes, false) + (Escape(node.text) + (CloseText(node.name) + r))
  {}

  lemma ReadLeaf(node: XmlNode, indent: nat)
    requires WellFormed(node) && node.name != "spacer" && node.children == []
    ensures Reads(Tag(node, indent), node)
  {
    var x := Tag(node, indent);
    assert x[1] == node.name[0];
    forall r: string ensures ParseElement(x + r) == Parsed.Success(node, r) {
      LeafParts(node, indent, r);
      if node.text == "" {
        ReadOpenTag(node.name, node.attributes, true, r);
      } else {
        ReadTextElement(node.name, node.attributes, node.text, r);
      }
    }
  }

  lemma {:induction false} ReadTags(nodes: seq<XmlNode>, indent: nat)
    requires forall c :: c in nodes ==> WellFormed(c)
    ensures forall k :: 0 <= k < |nodes| ==> Reads(Tags(nodes, indent)[k], ReloadedAll(nodes, indent)[k])
    decreases nodes, 0
  {
    hide Reads, Tag, Reloaded, WellFormed;
    if nodes != [] {
      ReadTag(nodes[0], indent);
      ReadTags(nodes[1..], indent);
      forall k | 0 <= k < |nodes| ensures Reads(Tags(nodes, indent)[k], ReloadedAll(nodes, indent)[k]) {
        if k > 0 { assert Reads(Tags(nodes[1..], indent)[k - 1], ReloadedAll(nodes[1..], indent)[k - 1]); }
      }
    }
  }
}
