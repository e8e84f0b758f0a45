/**
 Saving a canvas as it runs: the traversal that fills the lists, and the recursion that writes from the lists
 and from the cells of grid layouts.
 */
module DocWriter {
  import opened Text
  import opened DocForest
  import opened DocCells

  ghost predicate SortedOut(lists: Option<Id> -> seq<Id>, before: Option<Id> -> seq<Id>, es: seq<Entry>) {
    forall key :: lists(key) == before(key) + Group(es, key)
  }

  lemma SortOne(lists: Option<Id> -> seq<Id>, before: Option<Id> -> seq<Id>, after: Option<Id> -> seq<Id>,
                es: seq<Entry>, e: Entry)
    requires SortedOut(lists, before, es)
    requires forall key :: after(key) == lists(key) + if key == e.parent then [e.id] else []
    ensures SortedOut(after, before, es + [e])
  {
    forall key ensures after(key) == before(key) + Group(es + [e], key) {
      GroupConcat(es, [e], key);
      assert [e][1..] == [];
    }
  }

  lemma SortMore(lists: Option<Id> -> seq<Id>, before: Option<Id> -> seq<Id>, after: Option<Id> -> seq<Id>,
                 es: seq<Entry>, more: seq<Entry>)
    requires SortedOut(lists, before, es) && SortedOut(after, lists, more)
    ensures SortedOut(after, before, es + more)
  {
    forall key ensures after(key) == before(key) + Group(es + more, key) { GroupConcat(es, more, key); }
  }

  class ForestBuilder {
    var added: set<Id>
    var children: map<Option<Id>, seq<Id>>

    constructor ()
      ensures added == {} && children == map[]
    {
      added, children := {}, map[];
    }

    function ListUnder(key: Option<Id>): seq<Id>
      reads this
    {
      if key in children then children[key] else []
    }

    ghost function Lists(): Option<Id> -> seq<Id>
      reads this
    {
      var kept := children;
      key => if key in kept then kept[key] else []
    }

    method Append(key: Option<Id>, id: Id)
      modifies `children
      ensures forall k :: Lists()(k) == old(Lists())(k) + if k == key then [id] else []
    {
      children := children[key := ListUnder(key) + [id]];
    }

    /** Lists every document widget below `nodes` under its nearest document ancestor. */
    method Visit(nodes: seq<Obj>, chain: seq<Obj>, doc: set<Id>)
      requires UniqueIds(nodes) && Ids(nodes) !! added
      modifies this
      ensures SortedOut(Lists(), old(Lists()), Visited(nodes, chain, doc))
      ensures old(added) <= added <= old(added) + Ids(nodes)
      decreases nodes
    {
      if nodes == [] { return; }
      var child := nodes[0];
      if IsWidget(child) {
        ghost var es: seq<Entry> := [];
        if child.id in doc {
          var parent := LogicalParent(chain, doc);
          if child.id !in added {
            added := added + {child.id};
            Append(parent, child.id);
          }
          es := [Entry(parent, child.id)];
          SortOne(old(Lists()), old(Lists()), Lists(), [], Entry(parent, child.id));
          assert [] + es == es;
        }
        assert SortedOut(Lists(), old(Lists()), es);
        label Below:
        Visit(child.children, [child] + chain, doc);
        SortMore(old@Below(Lists()), old(Lists()), Lists(), es, Visited(child.children, [child] + chain, doc));
        es := es + Visited(child.children, [child] + chain, doc);
        label Rest:
        Visit(nodes[1..], chain, doc);
        SortMore(old@Rest(Lists()), old(Lists()), Lists(), es, Visited(nodes[1..], chain, doc));
      } else {
        Visit(nodes[1..], chain, doc);
      }
    }

    /** Writes a widget and everything below it: in the order of its cells, or of the list kept for it. */
    method WriteNode(id: Id, grids: Grids, ghost d: Doc) returns (order: seq<Id>)
      requires d.id == id && ListUnder(Some(id)) == RootIds(d.kids) && Holds(Lists(), d.kids) && CellsFit([d], grids)
      ensures order == WrittenNode(d, grids)
      decreases d, 1
    {
      hide Sited, WrittenNode, WrittenIn;
      NodeParts(d, grids);
      NodeIs(d, grids);
      var ids := if id in grids then CellIds(Ordered(grids[id])) else ListUnder(Some(id));
      IdsListed(d, grids);
      var below := WriteAll(ids, grids, d.kids);
      order := [id] + below;
    }

    /** The loop over cells or over a list; `kids` are the trees that the lists hold for it. */
    method WriteAll(ids: seq<Id>, grids: Grids, ghost kids: seq<Doc>) returns (order: seq<Id>)
      requires Holds(Lists(), kids) && CellsFit(kids, grids) && forall x :: x in ids ==> x in RootIds(kids)
      ensures order == WrittenIn(kids, ids, grids)
      decreases kids, 0
    {
      hide WrittenNode, Sited;
      order := [];
      for i := 0 to |ids|
        invariant order == WrittenIn(kids, ids[..i], grids)
      {
        ghost var k := Find(kids, ids[i]).value;
        HeldAlone(Lists(), grids, kids, k);
        var one := WriteNode(ids[i], grids, k);
        InSnoc(kids, ids[..i], ids[i], grids);
        assert ids[..i + 1] == ids[..i] + [ids[i]];
        order := order + one;
      }
      assert ids[..|ids|] == ids;
    }
  }

  lemma NodeIs(d: Doc, grids: Grids)
    ensures WrittenNode(d, grids) == [d.id] + WrittenIn(d.kids, ChildOrder(d, grids), grids)
  {}

  lemma IdsListed(d: Doc, grids: Grids)
    requires d.id in grids ==> Sited(d.kids, grids[d.id])
    ensures forall x :: x in ChildOrder(d, grids) ==> x in RootIds(d.kids)
  {
    if d.id in grids {
      OrderedSorts(grids[d.id]);
      SameIds(Ordered(grids[d.id]), grids[d.id]);
    }
  }

  lemma {:induction false} HeldAlone(lists: Option<Id> -> seq<Id>, grids: Grids, kids: seq<Doc>, k: Doc)
    requires Holds(lists, kids) && CellsFit(kids, grids) && k in kids
    ensures lists(Some(k.id)) == RootIds(k.kids) && Holds(lists, k.kids) && CellsFit([k], grids)
    decreases |kids|
  {
    FitsAlone(kids, grids);
    if k != kids[0] {
      assert kids == [kids[0]] + kids[1..];
      HeldAlone(lists, grids, kids[1..], k);
    }
  }

  lemma {:induction false} InSnoc(kids: seq<Doc>, ids: seq<Id>, x: Id, grids: Grids)
    requires x in RootIds(kids)
    ensures WrittenIn(kids, ids + [x], grids) == WrittenIn(kids, ids, grids) + WrittenNode(Find(kids, x).value, grids)
  {
    hide WrittenNode, WrittenIn, Find;
    InNothing(kids, grids);
    if ids == [] {
      InHead(kids, x, [], grids);
      assert [] + [x] == [x] + [];
    } else {
      InHead(kids, ids[0], ids[1..], grids);
      InHead(kids, ids[0], ids[1..] + [x], grids);
      assert ids == [ids[0]] + ids[1..] && ids + [x] == [ids[0]] + (ids[1..] + [x]);
      InSnoc(kids, ids[1..], x, grids);
    }
  }

  lemma InNothing(kids: seq<Doc>, grids: Grids)
    ensures WrittenIn(kids, [], grids) == []
  {}

  lemma InHead(kids: seq<Doc>, x: Id, ids: seq<Id>, grids: Grids)
    ensures WrittenIn(kids, [x] + ids, grids)
            == (if Find(kids, x).Some? then WrittenNode(Find(kids, x).value, grids) else []) + WrittenIn(kids, ids, grids)
  {
    hide WrittenNode, Find;
    assert ([x] + ids)[1..] == ids;
  }

  /**
   Saving end to end: from the design widgets and the grid layouts to the order in which widgets are written.
   Without grids that is tree order, each widget exactly once; with them, nothing else is ever written, all
   of it exactly when every child in a grid has a cell, and in tree order exactly when the cells follow the lists.
   */
  method SaveOrder(nodes: seq<Obj>, design: set<Id>, grids: Grids) returns (order: seq<Id>)
    requires UniqueIds(nodes) && CellsFit(Forest(nodes, [], DocSet(AllObjects(nodes, []), design)), grids)
    ensures var doc := DocSet(AllObjects(nodes, []), design);
            && multiset(order) <= multiset(TreeOrder(nodes, doc))
            && (multiset(order) == multiset(TreeOrder(nodes, doc)) <==> Complete(Forest(nodes, [], doc), grids))
            && (order == TreeOrder(nodes, doc) <==> Listed(Forest(nodes, [], doc), grids))
  {
    hide Complete, Listed, CellsFit, WrittenIn, Written, Holds;
    var doc := BuildDocSet(nodes, design);
    var builder := new ForestBuilder();
    ghost var before := builder.Lists();
    builder.Visit(nodes, [], doc);
    ghost var f := Forest(nodes, [], doc);
    ListingIsPartition(nodes, doc);
    ListsAre(builder.Lists(), before, Visited(nodes, [], doc), f);
    order := builder.WriteAll(builder.ListUnder(None), grids, f);
    GridsLoseOnlyCellless(f, grids);
    GridsKeepTreeOrder(f, grids);
  }

  /** Without grid layouts the lists are followed everywhere. */
  lemma {:induction false} NoGrids(f: seq<Doc>)
    ensures CellsFit(f, map[]) && Listed(f, map[])
    decreases f
  {
    if f != [] { NoGrids(f[0].kids); NoGrids(f[1..]); }
  }

  lemma ListsAre(lists: Option<Id> -> seq<Id>, before: Option<Id> -> seq<Id>, es: seq<Entry>, f: seq<Doc>)
    requires SortedOut(lists, before, es) && forall key :: before(key) == []
    requires Holds(ListsOf(es), f)
    ensures Holds(lists, f) && lists(None) == Group(es, None)
  {
    assert before(None) == [];
    forall i ensures ListsOf(es)(Some(i)) == lists(Some(i)) { assert before(Some(i)) == []; }
    HoldsTransfer(ListsOf(es), lists, f);
  }
}
