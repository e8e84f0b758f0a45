/**
 `emitLayoutContent`: nested layouts are flattened into one run of elements. What is written for a
 layout, and when everything written fits.
 */
module ImportTree {
  import opened Xml
  import opened UiReader
  import opened Measure
  import opened BoxAgreement
  import opened Placement

  /** An element written for a widget or a spacer, with the rectangle it is given. */
  datatype Element = Element(child: LayoutChild, rect: Rect)

  function RectAt(layout: XmlNode, rect: Rect, i: nat): Rect
    requires i < |ActiveItems(layout)|
  {
    var act := ActiveItems(layout);
    ChildRect(layout.Attr("class", ""), ReadLayoutProps(layout), act, SizesOf(act), rect, i)
  }

  /** The elements written for a layout that is placed in `rect`. */
  function EmitLayout(layout: XmlNode, rect: Rect): seq<Element>
    decreases layout, 1, 0
  {
    EmitTo(layout, rect, |ActiveItems(layout)|)
  }

  function EmitTo(layout: XmlNode, rect: Rect, k: nat): seq<Element>
    requires k <= |ActiveItems(layout)|
    decreases layout, 0, k
  {
    if k == 0 then []
    else
      InsideSmaller(ActiveItems(layout)[k - 1].node, layout);
      EmitTo(layout, rect, k - 1) + EmitChild(ActiveItems(layout)[k - 1], RectAt(layout, rect, k - 1))
  }

  function EmitChild(lc: LayoutChild, r: Rect): seq<Element>
    decreases lc.node, 2, 0
  {
    if lc.kind.Layout? then EmitLayout(lc.node, r) else [Element(lc, r)]
  }

  // ---- flattening -----------------------------------------------------------------------------------------------------

  /** The visible widgets and the spacers of a layout tree in document order, read off the XML. */
  function Leaves(layout: XmlNode): seq<XmlNode>
    decreases layout, 1
  {
    LeavesOf(layout.children)
  }

  function LeavesOf(nodes: seq<XmlNode>): seq<XmlNode>
    decreases nodes, 0
  {
    if nodes == [] then []
    else (if nodes[0].name == "item" then ItemLeaves(nodes[0]) else []) + LeavesOf(nodes[1..])
  }

  function ItemLeaves(item: XmlNode): seq<XmlNode>
    decreases item, 2
  {
    var child := FirstRecognised(item.children);
    if child.None? then []
    else if child.value.name == "layout" then Leaves(child.value)
    else if child.value.name == "widget" && !IsNodeVisible(child.value) then []
    else [child.value]
  }

  function NodesOf(es: seq<Element>): (r: seq<XmlNode>)
    ensures |r| == |es|
  {
    if es == [] then [] else NodesOf(es[..|es| - 1]) + [es[|es| - 1].child.node]
  }

  lemma {:induction false} NodesConcat(a: seq<Element>, b: seq<Element>)
    ensures NodesOf(a + b) == NodesOf(a) + NodesOf(b)
  {
    if b == [] {
      assert a + b == a;
    } else {
      assert (a + b)[..|a + b| - 1] == a + b[..|b| - 1];
      NodesConcat(a, b[..|b| - 1]);
    }
  }

  /** The leaves of a list of children. */
  function ChildrenLeaves(items: seq<LayoutChild>): seq<XmlNode> {
    if items == [] then [] else ChildrenLeaves(items[..|items| - 1]) + ChildLeaves(items[|items| - 1])
  }

  function ChildLeaves(lc: LayoutChild): seq<XmlNode> {
    if lc.kind.Layout? then Leaves(lc.node) else [lc.node]
  }

  lemma {:induction false} ChildrenLeavesConcat(a: seq<LayoutChild>, b: seq<LayoutChild>)
    ensures ChildrenLeaves(a + b) == ChildrenLeaves(a) + ChildrenLeaves(b)
  {
    if b == [] {
      assert a + b == a;
    } else {
      assert (a + b)[..|a + b| - 1] == a + b[..|b| - 1];
      ChildrenLeavesConcat(a, b[..|b| - 1]);
    }
  }

  lemma ItemLeavesAgree(item: XmlNode)
    ensures ChildrenLeaves(Active(ItemChild(item))) == ItemLeaves(item)
  {
    var items := ItemChild(item);
    if items != [] {
      assert items == [items[0]];
      assert items[1..] == [];
      var act := Active(items);
      if act != [] {
        assert act == [items[0]] && act[..0] == [];
        assert ChildrenLeaves(act) == ChildLeaves(items[0]);
      }
    }
  }

  lemma {:induction false} ActiveConcat(a: seq<LayoutChild>, b: seq<LayoutChild>)
    ensures Active(a + b) == Active(a) + Active(b)
  {
    if a == [] { assert a + b == b; }
    else {
      assert (a + b)[1..] == a[1..] + b;
      ActiveConcat(a[1..], b);
    }
  }

  lemma {:induction false} CollectedLeaves(nodes: seq<XmlNode>)
    ensures ChildrenLeaves(Active(Collected(nodes))) == LeavesOf(nodes)
  {
    if nodes != [] {
      var first := if nodes[0].name == "item" then ItemChild(nodes[0]) else [];
      CollectedLeaves(nodes[1..]);
      ActiveConcat(first, Collected(nodes[1..]));
      ChildrenLeavesConcat(Active(first), Active(Collected(nodes[1..])));
      if nodes[0].name == "item" { ItemLeavesAgree(nodes[0]); }
    }
  }

  lemma NothingEmitted(layout: XmlNode, rect: Rect)
    ensures NodesOf(EmitTo(layout, rect, 0)) == []
  {
  }

  lemma OneEmitted(lc: LayoutChild, r: Rect)
    requires !lc.kind.Layout?
    ensures NodesOf(EmitChild(lc, r)) == [lc.node]
  {
  }

  /**
   Flattening: for any rectangle, what is written for a layout is exactly the visible widgets and the
   spacers of its tree, in document order; nested layouts contribute no element of their own.
   */
  lemma {:induction false} FlattenedInOrder(layout: XmlNode, rect: Rect)
    ensures NodesOf(EmitLayout(layout, rect)) == Leaves(layout)
    decreases layout, 1, 0
  {
    hide ChildRect;
    var act := ActiveItems(layout);
    FlattenedTo(layout, rect, |act|);
    assert act[..|act|] == act;
    CollectedLeaves(layout.children);
  }

  lemma {:induction false} FlattenedTo(layout: XmlNode, rect: Rect, k: nat)
    requires k <= |ActiveItems(layout)|
    ensures NodesOf(EmitTo(layout, rect, k)) == ChildrenLeaves(ActiveItems(layout)[..k])
    decreases layout, 0, k
  {
    hide RectAt, ActiveItems, EmitLayout, Leaves, NodesOf;
    if k == 0 { NothingEmitted(layout, rect); }
    else {
      var act := ActiveItems(layout);
      var lc, r := act[k - 1], RectAt(layout, rect, k - 1);
      FlattenedTo(layout, rect, k - 1);
      InsideSmaller(lc.node, layout);
      if lc.kind.Layout? { FlattenedInOrder(lc.node, r); } else { OneEmitted(lc, r); }
      NodesConcat(EmitTo(layout, rect, k - 1), EmitChild(lc, r));
      assert act[..k][..k - 1] == act[..k - 1];
    }
  }

  // ---- the measures of the children --------------------------------------------------------------------------------------

  lemma {:induction false} SizesAgree(items: seq<LayoutChild>, owner: XmlNode, k: nat)
    requires forall lc :: lc in items ==> Inside(lc.node, owner.children)
    requires k < |items|
    ensures ChildSizes(items, owner)[k] == SizesOf(items)[k] == ChildSize(items[k])
  {
    hide ChildSize;
    ChildSizeAt(items, owner, k);
    SizeAt(items, k);
  }

  lemma MeasuredSizes(layout: XmlNode)
    ensures ChildSizes(ActiveItems(layout), layout) == SizesOf(ActiveItems(layout))
    ensures MeasuredBy(ActiveItems(layout), SizesOf(ActiveItems(layout)))
  {
    hide ChildSize;
    var act := ActiveItems(layout);
    forall k | 0 <= k < |act|
      ensures ChildSizes(act, layout)[k] == SizesOf(act)[k] == ChildSize(act[k]) && Genuine(act[k]) && !act[k].hidden
    {
      SizesAgree(act, layout, k);
      assert act[k] in act;
    }
  }
}
