/** What a spacer keeps when it is saved and loaded, and what its properties mean. */
module Spacers {
  import opened Arith
  import opened Text
  import opened Xml
  import opened XmlParser
  import opened XmlPrinter
  import opened XmlRoundTrip

  // ---- the meaning of a property list ---------------------------------------------------------------

  /** The trimmed text of the `enum` child of the last property called `name` that has one. */
  function LastEnum(props: seq<XmlNode>, name: string): Option<string>
    decreases |props|
  {
    if props == [] then None
    else
      var last := props[|props| - 1];
      var value := last.FirstChild("enum");
      if last.Attr("name", "") == name && value.Some? then Some(Trimmed(value.value.text))
      else LastEnum(props[..|props| - 1], name)
  }

  /** The last usable size along one dimension. */
  function LastHint(props: seq<XmlNode>, dimension: string): Option<int>
    decreases |props|
  {
    if props == [] then None
    else
      var last := props[|props| - 1];
      var size := last.FirstChild("size");
      if last.Attr("name", "") == "sizeHint" && size.Some? && size.value.FirstChild(dimension).Some?
      then Some(Max(0, ToInt(size.value.FirstChild(dimension).value.text)))
      else LastHint(props[..|props| - 1], dimension)
  }

  function OrElse<T>(o: Option<T>, default: T): T { if o.Some? then o.value else default }

  function PolicyOr(text: Option<string>, default: Policy): Policy {
    if text.Some? then SpacerPolicyFromString(text.value) else default
  }

  /** A spacer stated through lookups: an explicit axis policy wins over the general size type. */
  function Described(name: string, props: seq<XmlNode>): SpacerInfo {
    var orientation := OrElse(LastEnum(props, "orientation"), "Qt::Horizontal");
    var general := LastEnum(props, "sizeType");
    var vertical := IsVertical(orientation);
    SpacerInfo(
      name, orientation,
      PolicyOr(LastEnum(props, "horizontalSizeType"), if vertical then Minimum else PolicyOr(general, Minimum)),
      PolicyOr(LastEnum(props, "verticalSizeType"), if vertical then PolicyOr(general, Minimum) else Minimum),
      OrElse(LastHint(props, "width"), 40),
      OrElse(LastHint(props, "height"), 20))
  }

  /** The state of the scanning loop, stated through the same lookups. */
  function ScanState(name: string, props: seq<XmlNode>): SpacerScan {
    var h, v := LastEnum(props, "horizontalSizeType"), LastEnum(props, "verticalSizeType");
    var general := LastEnum(props, "sizeType");
    SpacerScan(
      SpacerInfo(name, OrElse(LastEnum(props, "orientation"), "Qt::Horizontal"),
                 PolicyOr(h, Minimum), PolicyOr(v, Minimum),
                 OrElse(LastHint(props, "width"), 40), OrElse(LastHint(props, "height"), 20)),
      h.Some?, v.Some?,
      if general.Some? then Some(SpacerPolicyFromString(general.value)) else None)
  }

  lemma {:induction false} ScanConcat(st: SpacerScan, a: seq<XmlNode>, p: XmlNode)
    ensures ScanProperties(st, a + [p]) == ScanProperty(ScanProperties(st, a), p)
    decreases |a|
  {
    if a == [] {
      assert a + [p] == [p];
      assert [p][1..] == [];
    } else {
      assert (a + [p])[1..] == a[1..] + [p];
      ScanConcat(ScanProperty(st, a[0]), a[1..], p);
    }
  }

  lemma LastEnumSnoc(init: seq<XmlNode>, last: XmlNode, name: string)
    ensures LastEnum(init + [last], name)
         == if last.Attr("name", "") == name && last.FirstChild("enum").Some?
            then Some(Trimmed(last.FirstChild("enum").value.text)) else LastEnum(init, name)
  {
    assert (init + [last])[..|init|] == init;
  }

  lemma LastHintSnoc(init: seq<XmlNode>, last: XmlNode, dimension: string)
    ensures LastHint(init + [last], dimension)
         == if last.Attr("name", "") == "sizeHint" && last.FirstChild("size").Some?
               && last.FirstChild("size").value.FirstChild(dimension).Some?
            then Some(Max(0, ToInt(last.FirstChild("size").value.FirstChild(dimension).value.text)))
            else LastHint(init, dimension)
  {
    assert (init + [last])[..|init|] == init;
  }

  lemma ScanStateStep(name: string, init: seq<XmlNode>, last: XmlNode)
    ensures ScanProperty(ScanState(name, init), last) == ScanState(name, init + [last])
  {
    LastEnumSnoc(init, last, "orientation");
    LastEnumSnoc(init, last, "sizeType");
    LastEnumSnoc(init, last, "horizontalSizeType");
    LastEnumSnoc(init, last, "verticalSizeType");
    LastHintSnoc(init, last, "width");
    LastHintSnoc(init, last, "height");
    assert last.Attr("name", "") == "sizeType" ==>
      last.Attr("name", "") != "sizeHint" && last.Attr("name", "") != "orientation";
  }

  lemma {:induction false} ScanIsLookup(name: string, props: seq<XmlNode>)
    ensures ScanProperties(SpacerScan(DEFAULT_SPACER.(name := name), false, false, None), props)
         == ScanState(name, props)
    decreases |props|
  {
    if props != [] {
      var init, last := props[..|props| - 1], props[|props| - 1];
      assert props == init + [last];
      ScanIsLookup(name, init);
      ScanConcat(SpacerScan(DEFAULT_SPACER.(name := name), false, false, None), init, last);
      ScanStateStep(name, init, last);
    }
  }

  /** Reading a spacer depends only on the last usable property of each name; explicit axis policies always win. */
  lemma SpacerReadByLookup(node: XmlNode)
    ensures SpacerInfoFromNode(node) == Described(node.Attr("name", ""), node.ChildrenNamed("property"))
  {
    ScanIsLookup(node.Attr("name", ""), node.ChildrenNamed("property"));
  }

  // ---- the order of properties ----------------------------------------------------------------------------

  predicate DistinctNames(props: seq<XmlNode>) {
    forall i, j :: 0 <= i < j < |props| ==> props[i].Attr("name", "") != props[j].Attr("name", "")
  }

  predicate HasEnum(p: XmlNode, name: string) { p.Attr("name", "") == name && p.FirstChild("enum").Some? }

  predicate HasHint(p: XmlNode, dimension: string) {
    p.Attr("name", "") == "sizeHint" && p.FirstChild("size").Some? && p.FirstChild("size").value.FirstChild(dimension).Some?
  }

  lemma {:induction false} EnumFound(props: seq<XmlNode>, name: string, p: XmlNode)
    requires DistinctNames(props) && p in props && HasEnum(p, name)
    ensures LastEnum(props, name) == Some(Trimmed(p.FirstChild("enum").value.text))
    decreases |props|
  {
    var last := |props| - 1;
    if p != props[last] {
      var i :| 0 <= i < |props| && props[i] == p;
      assert props[..last][i] == p;
      EnumFound(props[..last], name, p);
    }
  }

  lemma {:induction false} EnumSource(props: seq<XmlNode>, name: string)
    ensures LastEnum(props, name).Some? ==> exists p :: p in props && HasEnum(p, name)
    decreases |props|
  {
    if props != [] {
      EnumSource(props[..|props| - 1], name);
      assert props[|props| - 1] in props;
    }
  }

  lemma {:induction false} HintFound(props: seq<XmlNode>, dimension: string, p: XmlNode)
    requires DistinctNames(props) && p in props && HasHint(p, dimension)
    ensures LastHint(props, dimension)
            == Some(Max(0, ToInt(p.FirstChild("size").value.FirstChild(dimension).value.text)))
    decreases |props|
  {
    var last := |props| - 1;
    if p != props[last] {
      var i :| 0 <= i < |props| && props[i] == p;
      assert props[..last][i] == p;
      HintFound(props[..last], dimension, p);
    }
  }

  lemma {:induction false} HintSource(props: seq<XmlNode>, dimension: string)
    ensures LastHint(props, dimension).Some? ==> exists p :: p in props && HasHint(p, dimension)
    decreases |props|
  {
    if props != [] {
      HintSource(props[..|props| - 1], dimension);
      assert props[|props| - 1] in props;
    }
  }

  lemma SameLookups(a: seq<XmlNode>, b: seq<XmlNode>, name: string, dimension: string)
    requires DistinctNames(a) && DistinctNames(b) && forall p :: p in a <==> p in b
    ensures LastEnum(a, name) == LastEnum(b, name) && LastHint(a, dimension) == LastHint(b, dimension)
  {
    hide HasEnum, HasHint, LastEnum, LastHint, DistinctNames;
    EnumSource(a, name);
    EnumSource(b, name);
    HintSource(a, dimension);
    HintSource(b, dimension);
    if p :| p in a && HasEnum(p, name) {
      EnumHas(p, name);
      EnumFound(a, name, p);
      EnumFound(b, name, p);
    }
    if p :| p in a && HasHint(p, dimension) {
      HintHas(p, dimension);
      HintFound(a, dimension, p);
      HintFound(b, dimension, p);
    }
  }

  lemma EnumHas(p: XmlNode, name: string)
    requires HasEnum(p, name)
    ensures p.FirstChild("enum").Some?
  {
  }

  lemma HintHas(p: XmlNode, dimension: string)
    requires HasHint(p, dimension)
    ensures p.FirstChild("size").Some? && p.FirstChild("size").value.FirstChild(dimension).Some?
  {
  }

  lemma {:induction false} CountedTwice(props: seq<XmlNode>, i: nat, j: nat)
    requires i < j < |props| && props[i] == props[j]
    ensures multiset(props)[props[i]] >= 2
  {
    assert props == props[..j] + [props[j]] + props[j + 1..];
    assert props[i] in props[..j];
  }

  lemma {:induction false} CountedOnce(props: seq<XmlNode>, p: XmlNode)
    requires DistinctNames(props)
    ensures multiset(props)[p] <= 1
    decreases |props|
  {
    if props != [] {
      var last := |props| - 1;
      assert props == props[..last] + [props[last]];
      CountedOnce(props[..last], p);
      if p in props[..last] {
        var i :| 0 <= i < last && props[i] == p;
      }
    }
  }

  /** Reordering properties with distinct names leaves the names distinct. */
  lemma ReorderedDistinct(a: seq<XmlNode>, b: seq<XmlNode>)
    requires DistinctNames(a) && multiset(a) == multiset(b)
    ensures DistinctNames(b)
  {
    forall i, j | 0 <= i < j < |b| ensures b[i].Attr("name", "") != b[j].Attr("name", "") {
      CountedOnce(a, b[i]);
      assert b[i] in multiset(a) && b[j] in multiset(a);
      if b[i] == b[j] { CountedTwice(b, i, j); }
      var k :| 0 <= k < |a| && a[k] == b[i];
      var l :| 0 <= l < |a| && a[l] == b[j];
    }
  }

  /** Reordering properties with distinct names changes nothing about the spacer that is read. */
  lemma PropertyOrderIrrelevant(a: XmlNode, b: XmlNode)
    requires a.Attr("name", "") == b.Attr("name", "") && DistinctNames(a.ChildrenNamed("property"))
    requires multiset(a.ChildrenNamed("property")) == multiset(b.ChildrenNamed("property"))
    ensures SpacerInfoFromNode(a) == SpacerInfoFromNode(b)
  {
    hide SpacerInfoFromNode, DistinctNames, LastEnum, LastHint;
    var ps, qs := a.ChildrenNamed("property"), b.ChildrenNamed("property");
    ReorderedDistinct(ps, qs);
    forall p ensures p in ps <==> p in qs { assert p in ps <==> p in multiset(ps); assert p in qs <==> p in multiset(qs); }
    SpacerReadByLookup(a);
    SpacerReadByLookup(b);
    SameLookups(ps, qs, "orientation", "width");
    SameLookups(ps, qs, "sizeType", "height");
    SameLookups(ps, qs, "horizontalSizeType", "width");
    SameLookups(ps, qs, "verticalSizeType", "height");
  }

  // ---- saving and loading -----------------------------------------------------------------------------

  predicate MachineInt(n: int) { INT_MIN <= n <= INT_MAX }

  /** What survives of a spacer: its sizes clamped at zero and its orientation trimmed. */
  function Normalised(info: SpacerInfo): SpacerInfo {
    info.(orientation := Trimmed(info.orientation), width := Max(0, info.width), height := Max(0, info.height))
  }

  lemma PolicyNamesClean(p: Policy)
    ensures var s := PolicyToString(p); s != "" && ':' !in s && !IsBlank(s[0]) && !IsBlank(s[|s| - 1])
    ensures PolicyFromString(PolicyToString(p)) == p
  {
    var s := PolicyToString(p);
    TrimmedUnchanged(s);
    NoColon(s);
  }

  lemma {:induction false} NoColon(s: string)
    requires ':' !in s
    ensures AfterLast(s, ':') == s
  {}

  /** A printed policy is read back. */
  /** A policy is read from its own name only, after any scope and without blanks; any other text means the default one. */
  lemma PolicyExactly(text: string, p: Policy)
    ensures var name := Trimmed(AfterLast(Trimmed(text), ':'));
            PolicyFromString(text) == p <==> name == PolicyToString(p) || (p == Minimum && forall q :: name != PolicyToString(q))
  {
    hide Trimmed, AfterLast;
    var name := Trimmed(AfterLast(Trimmed(text), ':'));
    NamesApart(p, PolicyFromString(text));
    if PolicyFromString(text) == Minimum && name != "Minimum" {
      forall q ensures name != PolicyToString(q) {}
    }
  }

  lemma NamesApart(p: Policy, q: Policy)
    ensures PolicyToString(p) == PolicyToString(q) <==> p == q
  {
    PolicyNamesClean(p);
    PolicyNamesClean(q);
  }

  lemma PolicyRoundTrip(p: Policy)
    ensures SpacerPolicyFromString(Trimmed("QSizePolicy::" + PolicyToString(p))) == p
  {
    var s := PolicyToString(p);
    var t := "QSizePolicy::" + s;
    PolicyNamesClean(p);
    assert t[|t| - 1] == s[|s| - 1];
    TrimmedUnchanged(t);
    AfterLastPrefix("QSizePolicy:", ':', s);
    assert t == "QSizePolicy:" + [':'] + s;
  }

  lemma EnumProperty(name: string, text: string)
    ensures var p := Property(name, Leaf("enum", text));
            p.Attr("name", "") == name && p.FirstChild("enum") == Some(Leaf("enum", text)) && p.FirstChild("size") == None
  {}

  lemma HintProperty(w: string, h: string)
    ensures var size := XmlNode("size", [], "", [Leaf("width", w), Leaf("height", h)]);
            var p := Property("sizeHint", size);
            && p.Attr("name", "") == "sizeHint" && p.FirstChild("size") == Some(size)
            && size.FirstChild("width") == Some(Leaf("width", w))
            && size.FirstChild("height") == Some(Leaf("height", h))
  {
    var kids := [Leaf("width", w), Leaf("height", h)];
    assert kids[1..] == [Leaf("height", h)];
    assert FirstNamed(kids[1..], "height") == Some(Leaf("height", h));
    var size := XmlNode("size", [], "", kids);
    assert size.FirstChild("height") == Some(Leaf("height", h));
    assert Property("sizeHint", size).FirstChild("size") == Some(size);
  }

  lemma {:induction false} AllProperties(ps: seq<XmlNode>)
    requires forall i :: 0 <= i < |ps| ==> ps[i].name == "property"
    ensures AllNamed(ps, "property") == ps
    decreases |ps|
  {
    if ps != [] {
      AllProperties(ps[1..]);
      assert ps == [ps[0]] + ps[1..];
    }
  }

  /** Scanning the five saved properties one after the other. */
  lemma ScanSaved(info: SpacerInfo)
    requires MachineInt(info.width) && MachineInt(info.height)
    ensures var st := ScanProperties(SpacerScan(DEFAULT_SPACER.(name := info.name), false, false, None), SpacerProperties(info));
            st.info == Normalised(info) && st.explicitHorizontal && st.explicitVertical
  {
    var ps := SpacerProperties(info);
    var st0 := SpacerScan(DEFAULT_SPACER.(name := info.name), false, false, None);
    var primary := if IsVertical(info.orientation) then info.verticalPolicy else info.horizontalPolicy;
    EnumProperty("orientation", info.orientation);
    EnumProperty("sizeType", "QSizePolicy::" + PolicyToString(primary));
    EnumProperty("horizontalSizeType", "QSizePolicy::" + PolicyToString(info.horizontalPolicy));
    EnumProperty("verticalSizeType", "QSizePolicy::" + PolicyToString(info.verticalPolicy));
    HintProperty(IntText(info.width), IntText(info.height));
    PolicyRoundTrip(primary);
    PolicyRoundTrip(info.horizontalPolicy);
    PolicyRoundTrip(info.verticalPolicy);
    ToIntOfIntText(info.width);
    ToIntOfIntText(info.height);
    var st1 := ScanProperty(st0, ps[0]);
    var st2 := ScanProperty(st1, ps[1]);
    var st3 := ScanProperty(st2, ps[2]);
    var st4 := ScanProperty(st3, ps[3]);
    var st5 := ScanProperty(st4, ps[4]);
    assert st5.info == Normalised(info) && st5.explicitHorizontal && st5.explicitVertical;
    ScanFive(st0, ps);
  }

  lemma ScanFive(st: SpacerScan, ps: seq<XmlNode>)
    requires |ps| == 5
    ensures ScanProperties(st, ps)
         == ScanProperty(ScanProperty(ScanProperty(ScanProperty(ScanProperty(st, ps[0]), ps[1]), ps[2]), ps[3]), ps[4])
  {
    ScanConcat(st, ps[..4], ps[4]);
    ScanConcat(st, ps[..3], ps[3]);
    ScanConcat(st, ps[..2], ps[2]);
    ScanConcat(st, ps[..1], ps[1]);
    ScanConcat(st, [], ps[0]);
    assert ps[..4] + [ps[4]] == ps && ps[..3] + [ps[3]] == ps[..4] && ps[..2] + [ps[2]] == ps[..3];
    assert ps[..1] + [ps[1]] == ps[..2] && [] + [ps[0]] == ps[..1];
  }

  /** A saved spacer is loaded with its name, orientation, policies and sizes. */
  lemma SpacerNodeKeepsInfo(info: SpacerInfo, indent: nat)
    requires MachineInt(info.width) && MachineInt(info.height)
    ensures SpacerInfoFromNode(SpacerNode(info, indent)) == Normalised(info)
  {
    hide ScanProperties, SpacerProperties, Normalised;
    SpacerNodeParts(info, indent);
    ScanSaved(info);
  }

  lemma SpacerNodeParts(info: SpacerInfo, indent: nat)
    ensures SpacerNode(info, indent).ChildrenNamed("property") == SpacerProperties(info)
    ensures SpacerNode(info, indent).Attr("name", "") == info.name
  {
    hide Leaf, IntText, PolicyToString, IsVertical, NameAttribute;
    AllProperties(SpacerProperties(info));
    NameRead(info.name, SpacerNode(info, indent));
  }

  lemma NameRead(name: string, node: XmlNode)
    requires node.attributes == NameAttribute(name)
    ensures node.Attr("name", "") == name
  {
  }

  /** The same on text: whatever follows it, a printed spacer is read back to its normalised info. */
  lemma SpacerSaveLoad(info: SpacerInfo, indent: nat, rest: string)
    requires MachineInt(info.width) && MachineInt(info.height)
    ensures var r := ParseElement(SpacerText(info, indent) + rest);
            r.Success? && r.rest == rest && r.value.name == "spacer" && SpacerInfoFromNode(r.value) == Normalised(info)
  {
    ReadSpacer(info, indent);
    SpacerNodeKeepsInfo(info, indent);
  }

  /** Saving what was loaded changes nothing more. */
  lemma NormalisedStable(info: SpacerInfo)
    ensures Normalised(Normalised(info)) == Normalised(info)
  {
    TrimmedIdempotent(info.orientation);
  }
}
