/**
 The XML reader `SwXmlDocument::parse`. Its cursor is modelled by the text that is still unread,
 so every parsing function returns the rest of the input next to what it read.
 */
module XmlParser {
  import opened Text
  import opened Xml

  datatype Parsed<+T> = Failure(error: string) | Success(value: T, rest: string)
  {
    predicate IsFailure() { Failure? }
    function PropagateFailure<U>(): Parsed<U> requires Failure? { Failure(error) }
    function Extract(): (T, string) requires Success? { (value, rest) }
  }

  // ---- entities -------------------------------------------------------------------------------

  /** UTF-8 bytes of a code point. */
  function Utf8(cp: nat): string
    requires cp <= 0x10FFFF
  {
    if cp <= 0x7F then [cp as char]
    else if cp <= 0x7FF then [(0xC0 + cp / 64) as char, (0x80 + cp % 64) as char]
    else if cp <= 0xFFFF then
      [(0xE0 + cp / 4096) as char, (0x80 + cp / 64 % 64) as char, (0x80 + cp % 64) as char]
    else
      [(0xF0 + cp / 262144) as char, (0x80 + cp / 4096 % 64) as char,
       (0x80 + cp / 64 % 64) as char, (0x80 + cp % 64) as char]
  }

  /** The digits of a character reference, refused once the value passes the source's guard. */
  function CodePoint(s: string, base: nat, acc: nat): (r: Option<nat>)
    requires base == 10 || base == 16
  {
    if s == "" then Some(acc)
    else if DigitValue(s[0]) >= base || acc > 0x10FFFF / base then None
    else CodePoint(s[1..], base, acc * base + DigitValue(s[0]))
  }

  function Entity(ent: string): string {
    if ent == "lt" then "<"
    else if ent == "gt" then ">"
    else if ent == "amp" then "&"
    else if ent == "quot" then "\""
    else if ent == "apos" then "'"
    else if ent != "" && ent[0] == '#' then
      var hex := |ent| >= 2 && (ent[1] == 'x' || ent[1] == 'X');
      var digits := if hex then ent[2..] else ent[1..];
      var cp := if digits == "" then None else CodePoint(digits, if hex then 16 else 10, 0);
      if cp.Some? && cp.value <= 0x10FFFF && !(0xD800 <= cp.value <= 0xDFFF) then Utf8(cp.value)
      else "&" + ent + ";"
    else "&" + ent + ";"
  }

  function DecodeEntities(s: string): string
    decreases |s|
  {
    if s == "" then ""
    else if s[0] != '&' then [s[0]] + DecodeEntities(s[1..])
    else match FindChar(s[1..], ';')
      case None => "&" + DecodeEntities(s[1..])
      case Some(k) => Entity(s[1..k + 1]) + DecodeEntities(s[k + 2..])
  }

  // ---- names and attributes -----------------------------------------------------------------------

  function NameLength(s: string): (n: nat)
    ensures n <= |s| && forall i :: 0 <= i < n ==> IsNameChar(s[i])
    ensures n < |s| ==> !IsNameChar(s[n])
  {
    if s != "" && IsNameChar(s[0]) then
      var n := 1 + NameLength(s[1..]);
      assert forall i :: 1 <= i < n ==> s[i] == s[1..][i - 1];
      n
    else 0
  }

  function ParseName(s: string): (r: Parsed<string>)
    ensures r.Success? ==> ValidName(r.value) && |r.rest| < |s|
  {
    if s == "" || !IsNameStart(s[0]) then Failure("")
    else Success(s[..NameLength(s)], s[NameLength(s)..])
  }

  function ParseAttributeValue(s: string): (r: Parsed<string>)
    ensures r.Success? ==> |r.rest| <= |s|
  {
    var t := SkipSpace(s);
    if t == "" then Failure("Unexpected end of input while parsing attribute value")
    else if t[0] != '"' && t[0] != '\'' then Failure("Expected quoted attribute value")
    else match FindChar(t[1..], t[0])
      case None => Failure("Unterminated attribute value")
      case Some(k) => Success(DecodeEntities(t[1..k + 1]), t[k + 2..])
  }

  datatype Header = Header(attributes: seq<Attribute>, selfClosing: bool)

  function ParseAttributes(s: string, acc: seq<Attribute>): (r: Parsed<Header>)
    ensures r.Success? ==> |r.rest| <= |s|
    decreases |s|
  {
    var t := SkipSpace(s);
    if t == "" then Failure("Unexpected end of input while parsing attributes")
    else if "/>" <= t then Success(Header(acc, true), t[2..])
    else if t[0] == '>' then Success(Header(acc, false), t[1..])
    else match ParseName(t)
      case Failure(_) => Failure("Invalid attribute name")
      case Success(key, u) =>
        var v := SkipSpace(u);
        if v == "" || v[0] != '=' then Failure("Expected '=' after attribute name")
        else
          var (value, rest) :- ParseAttributeValue(v[1..]);
          ParseAttributes(rest, Insert(acc, key, value))
  }

  lemma {:induction false} ParsedAttributesValid(s: string, acc: seq<Attribute>)
    requires ValidAttributes(acc)
    ensures var r := ParseAttributes(s, acc); r.Success? ==> ValidAttributes(r.value.attributes)
    decreases |s|
  {
    var t := SkipSpace(s);
    if t != "" && !("/>" <= t) && t[0] != '>' {
      var n := ParseName(t);
      if n.Success? {
        var v := SkipSpace(n.rest);
        if v != "" && v[0] == '=' {
          var value := ParseAttributeValue(v[1..]);
          if value.Success? {
            InsertValid(acc, n.value, value.value);
            ParsedAttributesValid(value.rest, Insert(acc, n.value, value.value));
          }
        }
      }
    }
  }

  // ---- elements -------------------------------------------------------------------------------

  /** Skips to the end of a construct that closes with `token`. */
  function SkipUntil(s: string, token: string): (r: Option<string>)
    requires token != ""
    ensures r.Some? ==> |r.value| < |s|
  {
    match FindToken(s, token)
    case None => None
    case Some(k) => Some(s[k + |token|..])
  }

  const CDATA := "<![CDATA["

  function ParseElement(s: string): (r: Parsed<XmlNode>)
    ensures r.Success? ==> |r.rest| < |s|
    decreases |s|, 0
  {
    var t := SkipSpace(s);
    if t == "" || t[0] != '<' then Failure("Expected '<' to start element")
    else if "<!--" <= t then
      match SkipUntil(t, "-->")
      case None => Failure("Unterminated XML comment")
      case Some(rest) => ParseElement(rest)
    else if "<?" <= t then
      match SkipUntil(t, "?>")
      case None => Failure("Unterminated XML processing instruction")
      case Some(rest) => ParseElement(rest)
    else if |t| > 1 && t[1] == '/' then Failure("Unexpected closing tag")
    else match ParseName(t[1..])
      case Failure(_) => Failure("Invalid element name")
      case Success(name, u) =>
        var (header, v) :- ParseAttributes(u, []);
        if header.selfClosing then Success(XmlNode(name, header.attributes, "", []), v)
        else ParseContent(v, name, header.attributes, "", [])
  }

  /** The content loop; `text` is the raw character data and `children` the elements read so far. */
  function ParseContent(s: string, name: string, attributes: seq<Attribute>, text: string, children: seq<XmlNode>)
    : (r: Parsed<XmlNode>)
    ensures r.Success? ==> |r.rest| <= |s|
    decreases |s|, 3
  {
    if s == "" then Success(XmlNode(name, attributes, DecodeEntities(text), children), "")
    else if "</" <= s then
      var (_, rest) :- ParseEnd(s, name);
      Success(XmlNode(name, attributes, DecodeEntities(text), children), rest)
    else if s[0] == '<' then ParseMarkup(s, name, attributes, text, children)
    else ParseText(s, name, attributes, text, children)
  }

  /** The closing tag of the element called `name`. */
  function ParseEnd(s: string, name: string): (r: Parsed<string>)
    requires "</" <= s
    ensures r.Success? ==> |r.rest| <= |s|
  {
    match ParseName(s[2..])
    case Failure(_) => Failure("Invalid closing tag name")
    case Success(endName, u) =>
      var v := SkipSpace(u);
      if v == "" || v[0] != '>' then Failure("Expected '>' after closing tag name")
      else if endName != name then
        Failure("Mismatched closing tag: expected </" + name + ">, got </" + endName + ">")
      else Success(name, v[1..])
  }

  /** Comments, processing instructions, character data sections and nested elements. */
  function ParseMarkup(s: string, name: string, attributes: seq<Attribute>, text: string, children: seq<XmlNode>)
    : (r: Parsed<XmlNode>)
    requires s != "" && s[0] == '<'
    ensures r.Success? ==> |r.rest| <= |s|
    decreases |s|, 2
  {
    if "<!--" <= s then
      match SkipUntil(s, "-->")
      case None => Failure("Unterminated XML comment")
      case Some(rest) => ParseContent(rest, name, attributes, text, children)
    else if "<?" <= s then
      match SkipUntil(s, "?>")
      case None => Failure("Unterminated XML processing instruction")
      case Some(rest) => ParseContent(rest, name, attributes, text, children)
    else if CDATA <= s then
      match FindToken(s[9..], "]]>")
      case None => Failure("Unterminated CDATA section")
      case Some(k) => ParseContent(s[9 + k + 3..], name, attributes, text + s[9..9 + k], children)
    else
      ParseChild(s, name, attributes, text, children)
  }

  /** Character data up to the next tag or the end of the input. */
  function ParseText(s: string, name: string, attributes: seq<Attribute>, text: string, children: seq<XmlNode>)
    : (r: Parsed<XmlNode>)
    requires s != "" && s[0] != '<'
    ensures r.Success? ==> |r.rest| <= |s|
    decreases |s|, 2
  {
    match FindChar(s, '<')
    case None => ParseContent("", name, attributes, text + s, children)
    case Some(k) => ParseContent(s[k..], name, attributes, text + s[..k], children)
  }

  /** One nested element, then the rest of the content. */
  function ParseChild(s: string, name: string, attributes: seq<Attribute>, text: string, children: seq<XmlNode>)
    : (r: Parsed<XmlNode>)
    requires s != "" && s[0] == '<'
    ensures r.Success? ==> |r.rest| <= |s|
    decreases |s|, 1
  {
    match ParseElement(s)
    case Failure(e) => Failure(e)
    case Success(child, rest) => ParseContent(rest, name, attributes, text, children + [child])
  }

  /** The prolog loop before the root element: declarations, comments and a document type. */
  function SkipProlog(s: string): Parsed<()>
    decreases |s|
  {
    var t := SkipSpace(s);
    if "<?" <= t then
      match SkipUntil(t, "?>")
      case None => Failure("Unterminated XML processing instruction")
      case Some(rest) => SkipProlog(rest)
    else if "<!--" <= t then
      match SkipUntil(t, "-->")
      case None => Failure("Unterminated XML comment")
      case Some(rest) => SkipProlog(rest)
    else if "<!DOCTYPE" <= t then
      match SkipUntil(t, ">")
      case None => Failure("Unterminated DOCTYPE")
      case Some(rest) => SkipProlog(rest)
    else Success((), t)
  }

  const BOM := "\U{EF}\U{BB}\U{BF}"

  /** The whole document. Text after the root element is ignored, as in the source. */
  function Parse(xml: string): Parsed<XmlNode> {
    var s := SkipSpace(xml);
    var (_, t) :- SkipProlog(if BOM <= s then s[3..] else s);
    ParseElement(t)
  }

  // ---- what the reader guarantees ------------------------------------------------------------------

  lemma {:induction false} ParsedElementWellFormed(s: string)
    ensures var r := ParseElement(s); r.Success? ==> WellFormed(r.value)
    decreases |s|, 0
  {
    var t := SkipSpace(s);
    if t == "" || t[0] != '<' {
    } else if "<!--" <= t {
      var u := SkipUntil(t, "-->");
      if u.Some? { ParsedElementWellFormed(u.value); }
    } else if "<?" <= t {
      var u := SkipUntil(t, "?>");
      if u.Some? { ParsedElementWellFormed(u.value); }
    } else if !(|t| > 1 && t[1] == '/') {
      var n := ParseName(t[1..]);
      if n.Success? {
        ParsedAttributesValid(n.rest, []);
        var h := ParseAttributes(n.rest, []);
        if h.Success? && !h.value.selfClosing {
          ParsedContentWellFormed(h.rest, n.value, h.value.attributes, "", []);
        }
      }
    }
  }

  lemma {:induction false} ParsedContentWellFormed(
      s: string, name: string, attributes: seq<Attribute>, text: string, children: seq<XmlNode>)
    requires ValidName(name) && ValidAttributes(attributes)
    requires forall c :: c in children ==> WellFormed(c)
    ensures var r := ParseContent(s, name, attributes, text, children); r.Success? ==> WellFormed(r.value)
    decreases |s|, 3
  {
    if s == "" || "</" <= s {
    } else if s[0] == '<' {
      ParsedMarkupWellFormed(s, name, attributes, text, children);
    } else {
      var k := FindChar(s, '<');
      if k.Some? {
        ParsedContentWellFormed(s[k.value..], name, attributes, text + s[..k.value], children);
      } else {
        ParsedContentWellFormed("", name, attributes, text + s, children);
      }
      assert ParseContent(s, name, attributes, text, children) == ParseText(s, name, attributes, text, children);
    }
  }

  lemma {:induction false} ParsedMarkupWellFormed(
      s: string, name: string, attributes: seq<Attribute>, text: string, children: seq<XmlNode>)
    requires s != "" && s[0] == '<'
    requires ValidName(name) && ValidAttributes(attributes)
    requires forall c :: c in children ==> WellFormed(c)
    ensures var r := ParseMarkup(s, name, attributes, text, children); r.Success? ==> WellFormed(r.value)
    decreases |s|, 2
  {
    if "<!--" <= s {
      var u := SkipUntil(s, "-->");
      if u.Some? { ParsedContentWellFormed(u.value, name, attributes, text, children); }
    } else if "<?" <= s {
      var u := SkipUntil(s, "?>");
      if u.Some? { ParsedContentWellFormed(u.value, name, attributes, text, children); }
    } else if CDATA <= s {
      var k := FindToken(s[9..], "]]>");
      if k.Some? {
        ParsedContentWellFormed(s[9 + k.value + 3..], name, attributes, text + s[9..9 + k.value], children);
      }
    } else {
      ParsedChildWellFormed(s, name, attributes, text, children);
    }
  }

  lemma {:induction false} ParsedChildWellFormed(
      s: string, name: string, attributes: seq<Attribute>, text: string, children: seq<XmlNode>)
    requires s != "" && s[0] == '<'
    requires ValidName(name) && ValidAttributes(attributes)
    requires forall c :: c in children ==> WellFormed(c)
    ensures var r := ParseChild(s, name, attributes, text, children); r.Success? ==> WellFormed(r.value)
    decreases |s|, 1
  {
    ParsedElementWellFormed(s);
    var e := ParseElement(s);
    if e.Success? {
      ParsedContentWellFormed(e.rest, name, attributes, text, children + [e.value]);
    }
  }

  /** Whatever text is read successfully, the resulting tree is well formed. */
  lemma ParsedWellFormed(xml: string)
    ensures Parse(xml).Success? ==> WellFormed(Parse(xml).value)
  {
    var s := SkipSpace(xml);
    var p := SkipProlog(if BOM <= s then s[3..] else s);
    if p.Success? { ParsedElementWellFormed(p.rest); }
  }
}
