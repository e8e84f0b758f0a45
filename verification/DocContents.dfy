/**
 What a saved document holds, read off the widget tree: exactly which widgets belong to it, and under
 which of them each is listed. A scroll area's content belongs to it, the parts beside the content do not.
 */
module DocContents {
  import opened Text
  import opened DocForest

  /** A part of a scroll area other than its content: the viewport or a scroll bar. */
  predicate BesideContent(l: Located) {
    l.chain != [] && l.chain[0].kind.ScrollArea? && l.chain[0].kind.content != Some(l.obj.id)
  }

  // ---- one object per id ---------------------------------------------------------------------------------------------

  lemma {:induction false} LocatedId(nodes: seq<Obj>, chain: seq<Obj>, l: Located)
    requires l in AllObjects(nodes, chain)
    ensures l.obj.id in Ids(nodes)
    decreases nodes
  {
    var n := nodes[0];
    if l in AllObjects(n.children, [n] + chain) { LocatedId(n.children, [n] + chain, l); }
    else if l != Located(n, chain) { LocatedId(nodes[1..], chain, l); }
  }

  lemma {:induction false} OnePlace(nodes: seq<Obj>, chain: seq<Obj>, l: Located, m: Located)
    requires UniqueIds(nodes) && l in AllObjects(nodes, chain) && m in AllObjects(nodes, chain) && l.obj.id == m.obj.id
    ensures l == m
    decreases nodes
  {
    var n := nodes[0];
    var inner, rest := AllObjects(n.children, [n] + chain), AllObjects(nodes[1..], chain);
    if l in inner { LocatedId(n.children, [n] + chain, l); }
    if m in inner { LocatedId(n.children, [n] + chain, m); }
    if l in rest { LocatedId(nodes[1..], chain, l); }
    if m in rest { LocatedId(nodes[1..], chain, m); }
    if l in inner && m in inner { OnePlace(n.children, [n] + chain, l, m); }
    else if l in rest && m in rest { OnePlace(nodes[1..], chain, l, m); }
  }

  // ---- the document set ------------------------------------------------------------------------------------------------

  /** `l` is an ancestor of `m`. */
  predicate Above(l: Located, m: Located) { exists k :: 0 <= k < |m.chain| && m.chain[k] == l.obj && m.chain[k + 1..] == l.chain }

  /** The content of a design scroll area, or a child of another design container that is a page. */
  predicate HeldByDesign(all: seq<Located>, design: set<Id>, l: Located) {
    || (exists s :: s in all && s.obj.id in design && s.obj.kind == ScrollArea(Some(l.obj.id)))
    || (l.chain != [] && l.chain[0].id in design && (l.chain[0].kind.TabWidget? || l.chain[0].kind.StackedWidget?))
    || (l.chain != [] && l.chain[0].id in design && l.chain[0].kind.ToolBox? && !l.obj.kind.ToolButton?)
  }

  predicate AboveDesign(all: seq<Located>, design: set<Id>, l: Located) {
    exists m :: m in all && m.obj.id in design && Above(l, m)
  }

  lemma {:induction false} ClimbAllHas(chain: seq<Obj>, k: nat)
    requires k < |chain| && IsWidget(chain[k]) && !BesideContent(Located(chain[k], chain[k + 1..]))
    ensures chain[k].id in ClimbAll(chain)
  {
    if k > 0 {
      assert chain[1..][k - 1] == chain[k] && chain[1..][k - 1 + 1..] == chain[k + 1..];
      ClimbAllHas(chain[1..], k - 1);
    }
  }

  /** What a climb adds stands in the chain and is no part beside a content. */
  lemma {:induction false} Climbed(chain: seq<Obj>, design: set<Id>, i: Id) returns (k: nat)
    requires i in Climb(chain, design)
    ensures k < |chain| && chain[k].id == i && IsWidget(chain[k]) && !BesideContent(Located(chain[k], chain[k + 1..]))
  {
    if IsWidget(chain[0]) && chain[0].id == i && !IsInternal(chain[0], chain[1..]) { k := 0; }
    else {
      var j := Climbed(chain[1..], design, i);
      assert chain[1..][j + 1..] == chain[j + 2..];
      k := j + 1;
    }
  }

  lemma {:induction false} ClimbedFrom(all: seq<Located>, design: set<Id>, n: nat, i: Id) returns (m: Located)
    requires n <= |all| && i in ClimbedTo(all, design, n)
    ensures m in all && m.obj.id in design && i in Climb(m.chain, design)
  {
    if all[n - 1].obj.id in design && i in Climb(all[n - 1].chain, design) { m := all[n - 1]; }
    else { m := ClimbedFrom(all, design, n - 1, i); }
  }

  lemma AncestorsSaved(nodes: seq<Obj>, design: set<Id>, l: Located, m: Located)
    requires var all := AllObjects(nodes, []); m in all && m.obj.id in design
    requires IsWidget(l.obj) && !BesideContent(l) && Above(l, m)
    ensures l.obj.id in DocSet(AllObjects(nodes, []), design)
  {
    var k :| 0 <= k < |m.chain| && m.chain[k] == l.obj && m.chain[k + 1..] == l.chain;
    DocSetHasAncestors(nodes, design, m);
    ClimbAllHas(m.chain, k);
  }

  lemma HeldSaved(nodes: seq<Obj>, design: set<Id>, l: Located)
    requires var all := AllObjects(nodes, []); l in all && IsWidget(l.obj) && !BesideContent(l) && HeldByDesign(all, design, l)
    ensures l.obj.id in DocSet(AllObjects(nodes, []), design)
  {
    var all := AllObjects(nodes, []);
    assert IsPage(l, all, design);
    assert l.obj.id in Pages(all, design);
  }

  lemma SavedIsHeld(nodes: seq<Obj>, design: set<Id>, l: Located)
    requires var all := AllObjects(nodes, []); UniqueIds(nodes) && l in all && l.obj.id in Pages(all, design)
    ensures IsWidget(l.obj) && !BesideContent(l) && HeldByDesign(AllObjects(nodes, []), design, l)
  {
    var all := AllObjects(nodes, []);
    var p :| p in all && IsPage(p, all, design) && p.obj.id == l.obj.id;
    OnePlace(nodes, [], l, p);
  }

  lemma SavedIsAbove(nodes: seq<Obj>, design: set<Id>, l: Located)
    requires var all := AllObjects(nodes, []); UniqueIds(nodes) && l in all && l.obj.id in ClimbedTo(all, design, |all|)
    ensures IsWidget(l.obj) && !BesideContent(l) && AboveDesign(AllObjects(nodes, []), design, l)
  {
    var all := AllObjects(nodes, []);
    var m := ClimbedFrom(all, design, |all|, l.obj.id);
    var k := Climbed(m.chain, design, l.obj.id);
    AncestorsLocated(nodes, [], m, k);
    OnePlace(nodes, [], l, Located(m.chain[k], m.chain[k + 1..]));
    assert Above(l, m);
  }

  /**
   The document set, read off the tree: the design widgets, and every other widget that is above one, the
   content of a design scroll area or a page of another design container, unless it stands beside the
   content of a scroll area.
   */
  lemma DocSetExactly(nodes: seq<Obj>, design: set<Id>, l: Located)
    requires UniqueIds(nodes) && l in AllObjects(nodes, [])
    ensures var all := AllObjects(nodes, []);
            l.obj.id in DocSet(all, design)
            <==> || l.obj.id in design
                 || (IsWidget(l.obj) && !BesideContent(l) && (AboveDesign(all, design, l) || HeldByDesign(all, design, l)))
  {
    hide Climb, Pages, HeldByDesign, BesideContent, Above;
    var all := AllObjects(nodes, []);
    if l.obj.id in ClimbedTo(all, design, |all|) { SavedIsAbove(nodes, design, l); }
    if l.obj.id in Pages(all, design) { SavedIsHeld(nodes, design, l); }
    if IsWidget(l.obj) && !BesideContent(l) {
      if AboveDesign(all, design, l) {
        var m :| m in all && m.obj.id in design && Above(l, m);
        AncestorsSaved(nodes, design, l, m);
      }
      if HeldByDesign(all, design, l) { HeldSaved(nodes, design, l); }
    }
  }

  /** The content of a design scroll area is saved, whether it stands in the scroll area or in its viewport. */
  lemma ContentSaved(nodes: seq<Obj>, design: set<Id>, s: Located, c: Located)
    requires UniqueIds(nodes) && s in AllObjects(nodes, []) && c in AllObjects(nodes, [])
    requires s.obj.id in design && s.obj.kind == ScrollArea(Some(c.obj.id)) && IsWidget(c.obj)
    requires c.chain != [] && (c.chain[0] == s.obj || !c.chain[0].kind.ScrollArea?)
    ensures c.obj.id in DocSet(AllObjects(nodes, []), design)
  {
    DocSetExactly(nodes, design, c);
  }

  /** Any other child of a scroll area is saved only if it is a design widget itself. */
  lemma BesideSavedOnlyAsDesign(nodes: seq<Obj>, design: set<Id>, s: Obj, l: Located)
    requires UniqueIds(nodes) && l in AllObjects(nodes, [])
    requires l.chain != [] && l.chain[0] == s && s.kind.ScrollArea? && s.kind.content != Some(l.obj.id)
    ensures l.obj.id in DocSet(AllObjects(nodes, []), design) <==> l.obj.id in design
  {
    DocSetExactly(nodes, design, l);
  }

  // ---- under which widget ------------------------------------------------------------------------------------------------

  /** The ancestor at `k` can list others: a document widget that stands beside no content. */
  predicate Lists(chain: seq<Obj>, doc: set<Id>, k: nat)
    requires k < |chain|
  {
    IsWidget(chain[k]) && chain[k].id in doc && !BesideContent(Located(chain[k], chain[k + 1..]))
  }

  lemma {:induction false} NearestLists(chain: seq<Obj>, doc: set<Id>, k: nat)
    requires k < |chain| && Lists(chain, doc, k) && forall j :: 0 <= j < k ==> !Lists(chain, doc, j)
    ensures LogicalParent(chain, doc) == Some(chain[k].id)
  {
    if k > 0 {
      assert !Lists(chain, doc, 0);
      forall j | 0 <= j < k ensures Lists(chain[1..], doc, j) <==> Lists(chain, doc, j + 1) {
        assert chain[1..][j + 1..] == chain[j + 2..];
      }
      NearestLists(chain[1..], doc, k - 1);
    }
  }

  lemma {:induction false} NoneLists(chain: seq<Obj>, doc: set<Id>)
    requires forall j :: 0 <= j < |chain| ==> !Lists(chain, doc, j)
    ensures LogicalParent(chain, doc) == None
  {
    if chain != [] {
      assert !Lists(chain, doc, 0);
      forall j | 0 <= j < |chain| - 1 ensures !Lists(chain[1..], doc, j) {
        assert chain[1..][j + 1..] == chain[j + 2..];
        assert !Lists(chain, doc, j + 1);
      }
      NoneLists(chain[1..], doc);
    }
  }

  lemma {:induction false} EntryOf(nodes: seq<Obj>, chain: seq<Obj>, doc: set<Id>, l: Located)
    requires l in AllObjects(nodes, chain) && IsWidget(l.obj) && l.obj.id in doc
    requires forall k :: 0 <= k < |l.chain| ==> IsWidget(l.chain[k])
    ensures Entry(LogicalParent(l.chain, doc), l.obj.id) in Visited(nodes, chain, doc)
    decreases nodes
  {
    var n := nodes[0];
    if l == Located(n, chain) {
    } else if l in AllObjects(n.children, [n] + chain) {
      BelowHasAncestor(n.children, [n] + chain, l, n);
      EntryOf(n.children, [n] + chain, doc, l);
    } else {
      EntryOf(nodes[1..], chain, doc, l);
    }
  }

  lemma {:induction false} EntryGrouped(es: seq<Entry>, e: Entry)
    requires e in es
    ensures e.id in Group(es, e.parent)
  {
    if es[0] != e { EntryGrouped(es[1..], e); }
  }

  /** A document widget is listed under its nearest ancestor that is in the document and beside no content. */
  lemma ListedUnderNearest(nodes: seq<Obj>, doc: set<Id>, l: Located, k: nat)
    requires l in AllObjects(nodes, []) && IsWidget(l.obj) && l.obj.id in doc
    requires forall j :: 0 <= j < |l.chain| ==> IsWidget(l.chain[j])
    requires k < |l.chain| && Lists(l.chain, doc, k) && forall j :: 0 <= j < k ==> !Lists(l.chain, doc, j)
    ensures l.obj.id in ListsOf(Visited(nodes, [], doc))(Some(l.chain[k].id))
  {
    NearestLists(l.chain, doc, k);
    EntryOf(nodes, [], doc, l);
    EntryGrouped(Visited(nodes, [], doc), Entry(Some(l.chain[k].id), l.obj.id));
  }

  /** A document widget directly in the content of a scroll area is listed under the content. */
  lemma ListedUnderContent(nodes: seq<Obj>, doc: set<Id>, w: Located)
    requires w in AllObjects(nodes, []) && IsWidget(w.obj) && w.obj.id in doc && |w.chain| >= 2
    requires forall j :: 0 <= j < |w.chain| ==> IsWidget(w.chain[j])
    requires w.chain[0].id in doc
    requires w.chain[1].kind == ScrollArea(Some(w.chain[0].id)) || !w.chain[1].kind.ScrollArea?
    ensures w.obj.id in ListsOf(Visited(nodes, [], doc))(Some(w.chain[0].id))
  {
    ListedUnderNearest(nodes, doc, w, 0);
  }

  /** The content is listed under its scroll area, also when it stands in the viewport. */
  lemma ContentListed(nodes: seq<Obj>, doc: set<Id>, c: Located, k: nat)
    requires c in AllObjects(nodes, []) && IsWidget(c.obj) && c.obj.id in doc && k < 2 && |c.chain| > k
    requires forall j :: 0 <= j < |c.chain| ==> IsWidget(c.chain[j])
    requires c.chain[k].id in doc && c.chain[k].kind == ScrollArea(Some(c.obj.id))
    requires k == 1 ==> c.chain[0].id != c.obj.id
    requires |c.chain| > k + 1 && c.chain[k + 1].kind.ScrollArea? ==> c.chain[k + 1].kind.content == Some(c.chain[k].id)
    ensures c.obj.id in ListsOf(Visited(nodes, [], doc))(Some(c.chain[k].id))
  {
    if k == 1 { assert c.chain[1..][0] == c.chain[1]; }
    ListedUnderNearest(nodes, doc, c, k);
  }

  lemma {:induction false} ParentOfEntry(nodes: seq<Obj>, chain: seq<Obj>, doc: set<Id>, e: Entry) returns (l: Located)
    requires e in Visited(nodes, chain, doc)
    ensures l in AllObjects(nodes, chain) && e == Entry(LogicalParent(l.chain, doc), l.obj.id)
    decreases nodes
  {
    var n := nodes[0];
    if IsWidget(n) && n.id in doc && e == Entry(LogicalParent(chain, doc), n.id) { l := Located(n, chain); }
    else if IsWidget(n) && e in Visited(n.children, [n] + chain, doc) { l := ParentOfEntry(n.children, [n] + chain, doc, e); }
    else { l := ParentOfEntry(nodes[1..], chain, doc, e); }
  }

  lemma {:induction false} ListingAncestor(chain: seq<Obj>, doc: set<Id>) returns (k: nat)
    requires LogicalParent(chain, doc).Some?
    ensures k < |chain| && Lists(chain, doc, k) && LogicalParent(chain, doc) == Some(chain[k].id)
  {
    if IsWidget(chain[0]) && !IsInternal(chain[0], chain[1..]) && chain[0].id in doc { k := 0; }
    else {
      var j := ListingAncestor(chain[1..], doc);
      assert chain[1..][j + 1..] == chain[j + 2..];
      k := j + 1;
    }
  }

  lemma {:induction false} GroupedEntry(es: seq<Entry>, key: Option<Id>) returns (e: Entry)
    requires Group(es, key) != []
    ensures e in es && e.parent == key
  {
    if es[0].parent == key { e := es[0]; } else { e := GroupedEntry(es[1..], key); }
  }

  /** Nothing is ever listed under a part beside the content of a scroll area, design widget or not. */
  lemma NothingListedBeside(nodes: seq<Obj>, doc: set<Id>, s: Obj, l: Located)
    requires UniqueIds(nodes) && l in AllObjects(nodes, [])
    requires l.chain != [] && l.chain[0] == s && s.kind.ScrollArea? && s.kind.content != Some(l.obj.id)
    ensures ListsOf(Visited(nodes, [], doc))(Some(l.obj.id)) == []
  {
    var es := Visited(nodes, [], doc);
    if Group(es, Some(l.obj.id)) != [] {
      var e := GroupedEntry(es, Some(l.obj.id));
      var m := ParentOfEntry(nodes, [], doc, e);
      var k := ListingAncestor(m.chain, doc);
      AncestorsLocated(nodes, [], m, k);
      OnePlace(nodes, [], l, Located(m.chain[k], m.chain[k + 1..]));
    }
  }

  function SampleArea(): Obj { Obj(1, ScrollArea(Some(2)), [Obj(2, Widget, [Obj(4, Widget, [])]), Obj(3, Widget, [])]) }

  lemma SampleUnique()
    ensures UniqueIds([SampleArea()])
  {
    var four, three := Obj(4, Widget, []), Obj(3, Widget, []);
    var two := Obj(2, Widget, [four]);
    var one := SampleArea();
    assert [one][1..] == [] && [two, three][1..] == [three] && [three][1..] == [] && [four][1..] == [];
    assert Ids([four]) == {4} && Ids([three]) == {3} && Ids([two, three]) == {2} + {4} + {3};
    assert UniqueIds([four]) && UniqueIds([three]) && UniqueIds([two, three]);
  }

  /** A design scroll area with a content, a design widget in it and a viewport beside it. */
  lemma ScrollAreaSaved()
    ensures TreeOrder([SampleArea()], DocSet(AllObjects([SampleArea()], []), {1, 4})) == [1, 2, 4]
  {
    hide DocSet, AllObjects;
    var four, three := Obj(4, Widget, []), Obj(3, Widget, []);
    var two := Obj(2, Widget, [four]);
    var one := SampleArea();
    var nodes, design := [one], {1, 4};
    SampleUnique();
    DirectLocated(nodes, [], one);
    assert [one] + [] == [one];
    ChildLocated(nodes, [], Located(one, []), two);
    ChildLocated(nodes, [], Located(one, []), three);
    ContentSaved(nodes, design, Located(one, []), Located(two, [one]));
    BesideSavedOnlyAsDesign(nodes, design, one, Located(three, [one]));
    DesignSaved(nodes, design);
    assert nodes[1..] == [] && [two, three][1..] == [three] && [three][1..] == [] && [four][1..] == [];
    var doc := DocSet(AllObjects(nodes, []), design);
    assert TreeOrder([four], doc) == [4] && TreeOrder([three], doc) == [];
    assert TreeOrder([two, three], doc) == [2, 4];
  }

  lemma DesignSaved(nodes: seq<Obj>, design: set<Id>)
    ensures design <= DocSet(AllObjects(nodes, []), design)
  {}
}
