/** XML element trees (`SwXmlNode`) with their lookups. Attributes are kept in key order. */
module Xml {
  import opened Text

  datatype Attribute = Attribute(key: string, value: string)

  datatype XmlNode = XmlNode(name: string, attributes: seq<Attribute>, text: string, children: seq<XmlNode>)
  {
    function Attr(key: string, default: string): string { Lookup(attributes, key, default) }

    function FirstChild(childName: string): (r: Option<XmlNode>)
      ensures r.Some? ==> r.value in children && r.value.name == childName
    {
      if childName == "" then None else FirstNamed(children, childName)
    }

    function ChildrenNamed(childName: string): (r: seq<XmlNode>)
      ensures forall c :: c in r ==> c in children
    {
      if childName == "" then [] else AllNamed(children, childName)
    }
  }

  function Lookup(attributes: seq<Attribute>, key: string, default: string): string {
    if attributes == [] then default
    else if attributes[0].key == key then attributes[0].value
    else Lookup(attributes[1..], key, default)
  }

  function FirstNamed(nodes: seq<XmlNode>, name: string): (r: Option<XmlNode>)
    ensures r.Some? ==> r.value in nodes && r.value.name == name
  {
    if nodes == [] then None
    else if nodes[0].name == name then Some(nodes[0])
    else FirstNamed(nodes[1..], name)
  }

  function AllNamed(nodes: seq<XmlNode>, name: string): (r: seq<XmlNode>)
    ensures forall c :: c in r ==> c in nodes && c.name == name
  {
    if nodes == [] then []
    else (if nodes[0].name == name then [nodes[0]] else []) + AllNamed(nodes[1..], name)
  }

  predicate IsNameStart(c: char) { 'a' <= c <= 'z' || 'A' <= c <= 'Z' || c == '_' || c == ':' }

  predicate IsNameChar(c: char) { IsNameStart(c) || IsDigit(c) || c == '-' || c == '.' }

  predicate ValidName(s: string) {
    s != "" && IsNameStart(s[0]) && forall i :: 0 <= i < |s| ==> IsNameChar(s[i])
  }

  predicate Sorted(attributes: seq<Attribute>) {
    forall i, j :: 0 <= i < j < |attributes| ==> Less(attributes[i].key, attributes[j].key)
  }

  predicate ValidAttributes(attributes: seq<Attribute>) {
    Sorted(attributes) && forall i :: 0 <= i < |attributes| ==> ValidName(attributes[i].key)
  }

  /** Names are XML names and attributes form a map, throughout the tree. */
  predicate WellFormed(node: XmlNode) {
    && ValidName(node.name)
    && ValidAttributes(node.attributes)
    && forall c :: c in node.children ==> WellFormed(c)
  }

  /** Insertion into the ordered attribute map. */
  function Insert(attributes: seq<Attribute>, key: string, value: string): (r: seq<Attribute>)
  {
    if attributes == [] then [Attribute(key, value)]
    else if attributes[0].key == key then [Attribute(key, value)] + attributes[1..]
    else if Less(key, attributes[0].key) then [Attribute(key, value)] + attributes
    else [attributes[0]] + Insert(attributes[1..], key, value)
  }

  lemma {:induction false} InsertLast(attributes: seq<Attribute>, key: string, value: string)
    requires forall i :: 0 <= i < |attributes| ==> Less(attributes[i].key, key)
    ensures Insert(attributes, key, value) == attributes + [Attribute(key, value)]
  {
    if attributes != [] {
      LessAsymmetric(attributes[0].key, key);
      InsertLast(attributes[1..], key, value);
    }
  }

  function Keys(attributes: seq<Attribute>): set<string> {
    set i | 0 <= i < |attributes| :: attributes[i].key
  }

  lemma {:induction false} InsertKeys(attributes: seq<Attribute>, key: string, value: string)
    ensures Keys(Insert(attributes, key, value)) <= Keys(attributes) + {key}
  {
    var r := Insert(attributes, key, value);
    if attributes != [] {
      InsertKeys(attributes[1..], key, value);
      forall i | 0 <= i < |r| ensures r[i].key in Keys(attributes) + {key} {
        if r[i].key != key {
          if r[i] == attributes[0] {
          } else if attributes[0].key == key {
            assert r[i] == attributes[i];
          } else if Less(key, attributes[0].key) {
            assert r[i] == attributes[i - 1];
          } else {
            var tail := Insert(attributes[1..], key, value);
            assert r[i] == tail[i - 1] && tail[i - 1].key in Keys(tail);
            var j :| 0 <= j < |attributes[1..]| && attributes[1..][j].key == r[i].key;
            assert attributes[j + 1].key == r[i].key;
          }
        }
      }
    }
  }

  /** The attribute map stays ordered and keeps valid keys. */
  lemma {:induction false} InsertValid(attributes: seq<Attribute>, key: string, value: string)
    requires ValidAttributes(attributes) && ValidName(key)
    ensures ValidAttributes(Insert(attributes, key, value))
  {
    if attributes != [] {
      var head, tail := attributes[0], attributes[1..];
      assert ValidAttributes(tail);
      if head.key == key {
      } else if Less(key, head.key) {
        forall j | 0 <= j < |attributes| ensures Less(key, attributes[j].key) {
          if j > 0 { LessTransitive(key, head.key, attributes[j].key); }
        }
      } else {
        LessTotal(key, head.key);
        InsertValid(tail, key, value);
        InsertKeys(tail, key, value);
        var r := Insert(tail, key, value);
        forall i | 0 <= i < |r| ensures Less(head.key, r[i].key) {
          if r[i].key != key {
            assert r[i].key in Keys(r);
            assert r[i].key in Keys(tail);
            var j :| 0 <= j < |tail| && tail[j].key == r[i].key;
            assert tail[j] == attributes[j + 1];
          }
        }
        assert ([head] + r)[0] == head && ([head] + r)[1..] == r;
      }
    }
  }
}
