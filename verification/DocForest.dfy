/**
 Saving a canvas: which widgets belong to the document, under which of them each is listed, and in
 which order the listing is written.
 */
module DocForest {
  import opened Text

  type Id = nat

  datatype Kind = Plain | Widget | ScrollArea(content: Option<Id>) | TabWidget | StackedWidget | ToolBox | ToolButton

  /** The live object tree at the time of saving. `Plain` objects are not widgets. */
  datatype Obj = Obj(id: Id, kind: Kind, children: seq<Obj>)

  predicate IsWidget(o: Obj) { !o.kind.Plain? }

  /**
   A scroll area's own parts are internal: any direct child but the content widget. `chain` holds
   the ancestors of the object below the canvas, nearest first.
   */
  predicate IsInternal(o: Obj, chain: seq<Obj>) {
    chain != [] && chain[0].kind.ScrollArea? && chain[0].kind.content != Some(o.id)
  }

  // ---- every object with its ancestors ----------------------------------------------------------------------------------

  datatype Located = Located(obj: Obj, chain: seq<Obj>)

  function AllObjects(nodes: seq<Obj>, chain: seq<Obj>): seq<Located>
    decreases nodes
  {
    if nodes == [] then []
    else [Located(nodes[0], chain)] + AllObjects(nodes[0].children, [nodes[0]] + chain) + AllObjects(nodes[1..], chain)
  }

  function Ids(nodes: seq<Obj>): set<Id>
    decreases nodes
  {
    if nodes == [] then {} else {nodes[0].id} + Ids(nodes[0].children) + Ids(nodes[1..])
  }

  predicate UniqueIds(nodes: seq<Obj>)
    decreases nodes
  {
    nodes == [] ||
    (&& UniqueIds(nodes[0].children) && UniqueIds(nodes[1..])
     && nodes[0].id !in Ids(nodes[0].children) && nodes[0].id !in Ids(nodes[1..])
     && Ids(nodes[0].children) !! Ids(nodes[1..]))
  }

  /** The ancestors of a located object are located themselves. */
  lemma {:induction false} AncestorsLocated(nodes: seq<Obj>, chain: seq<Obj>, l: Located, k: nat)
    requires l in AllObjects(nodes, chain) && k < |l.chain|
    ensures |chain| <= |l.chain| && l.chain[|l.chain| - |chain|..] == chain
    ensures k < |l.chain| - |chain| ==> Located(l.chain[k], l.chain[k + 1..]) in AllObjects(nodes, chain)
    decreases nodes
  {
    var n := nodes[0];
    var inner, rest := AllObjects(n.children, [n] + chain), AllObjects(nodes[1..], chain);
    if l == Located(n, chain) {
    } else if l in inner {
      AncestorsLocated(n.children, [n] + chain, l, k);
      assert l.chain[|l.chain| - |chain|..] == l.chain[|l.chain| - |chain| - 1..][1..] == chain;
      if k == |l.chain| - |chain| - 1 {
        assert l.chain[k] == l.chain[k..][0] == n;
        assert l.chain[k + 1..] == chain;
      }
    } else {
      AncestorsLocated(nodes[1..], chain, l, k);
    }
  }

  // ---- the document set ------------------------------------------------------------------------------------------------------

  /** Climbing from a design widget stops at the first design ancestor. */
  function Climb(chain: seq<Obj>, design: set<Id>): set<Id> {
    if chain == [] then {}
    else if !IsWidget(chain[0]) then Climb(chain[1..], design)
    else if chain[0].id in design then {}
    else (if IsInternal(chain[0], chain[1..]) then {} else {chain[0].id}) + Climb(chain[1..], design)
  }

  /** All widget ancestors that are not internal. */
  function ClimbAll(chain: seq<Obj>): set<Id> {
    if chain == [] then {}
    else (if IsWidget(chain[0]) && !IsInternal(chain[0], chain[1..]) then {chain[0].id} else {}) + ClimbAll(chain[1..])
  }

  /** Content and page widgets of design containers are kept even when they are empty. */
  predicate IsPage(l: Located, all: seq<Located>, design: set<Id>) {
    && IsWidget(l.obj) && !IsInternal(l.obj, l.chain)
    && ((exists s :: s in all && s.obj.id in design && s.obj.kind.ScrollArea? && s.obj.kind.content == Some(l.obj.id))
        || (l.chain != [] && l.chain[0].id in design &&
              match l.chain[0].kind
              case TabWidget => true
              case StackedWidget => true
              case ToolBox => !l.obj.kind.ToolButton?
              case _ => false))
  }

  function Pages(all: seq<Located>, design: set<Id>): set<Id> {
    set l | l in all && IsPage(l, all, design) :: l.obj.id
  }

  /** What climbing adds for the first `k` located objects. */
  function ClimbedTo(all: seq<Located>, design: set<Id>, k: nat): set<Id>
    requires k <= |all|
  {
    if k == 0 then {}
    else ClimbedTo(all, design, k - 1) + if all[k - 1].obj.id in design then Climb(all[k - 1].chain, design) else {}
  }

  function DocSet(all: seq<Located>, design: set<Id>): set<Id> {
    design + ClimbedTo(all, design, |all|) + Pages(all, design)
  }

  /** What the rule adds for one design widget: a scroll area's content, the page children of the others. */
  function PagesOf(all: seq<Located>, l: Located): set<Id> {
    match l.obj.kind
    case ScrollArea(content) =>
      set m | m in all && content == Some(m.obj.id) && IsWidget(m.obj) && !IsInternal(m.obj, m.chain) :: m.obj.id
    case TabWidget => PageChildren(l, l.obj.children, true)
    case StackedWidget => PageChildren(l, l.obj.children, true)
    case ToolBox => PageChildren(l, l.obj.children, false)
    case _ => {}
  }

  function PageChildren(l: Located, children: seq<Obj>, buttons: bool): set<Id> {
    set c | c in children && IsWidget(c) && !IsInternal(c, [l.obj] + l.chain) && (buttons || !c.kind.ToolButton?) :: c.id
  }

  function PagesTo(all: seq<Located>, design: set<Id>, k: nat): set<Id>
    requires k <= |all|
  {
    if k == 0 then {}
    else PagesTo(all, design, k - 1) + if all[k - 1].obj.id in design then PagesOf(all, all[k - 1]) else {}
  }

  lemma {:induction false} DirectLocated(nodes: seq<Obj>, chain: seq<Obj>, c: Obj)
    requires c in nodes
    ensures Located(c, chain) in AllObjects(nodes, chain)
  {
    if c != nodes[0] { DirectLocated(nodes[1..], chain, c); }
  }

  lemma {:induction false} ChildLocated(nodes: seq<Obj>, chain: seq<Obj>, l: Located, c: Obj)
    requires l in AllObjects(nodes, chain) && c in l.obj.children
    ensures Located(c, [l.obj] + l.chain) in AllObjects(nodes, chain)
    decreases nodes
  {
    var n := nodes[0];
    if l == Located(n, chain) { DirectLocated(n.children, [n] + chain, c); }
    else if l in AllObjects(n.children, [n] + chain) { ChildLocated(n.children, [n] + chain, l, c); }
    else { ChildLocated(nodes[1..], chain, l, c); }
  }

  lemma {:induction false} ParentHolds(nodes: seq<Obj>, chain: seq<Obj>, l: Located)
    requires l in AllObjects(nodes, chain)
    ensures (l.obj in nodes && l.chain == chain) || (l.chain != [] && l.obj in l.chain[0].children)
    decreases nodes
  {
    var n := nodes[0];
    if l == Located(n, chain) {
    } else if l in AllObjects(n.children, [n] + chain) { ParentHolds(n.children, [n] + chain, l); }
    else { ParentHolds(nodes[1..], chain, l); }
  }

  lemma {:induction false} PagesHas(all: seq<Located>, design: set<Id>, i: nat, k: nat)
    requires i < k <= |all| && all[i].obj.id in design
    ensures PagesOf(all, all[i]) <= PagesTo(all, design, k)
  {
    hide PagesOf;
    if i < k - 1 { PagesHas(all, design, i, k - 1); }
  }

  /** Every page is added by the rule for its container. */
  lemma PageAdded(nodes: seq<Obj>, design: set<Id>, l: Located)
    requires var all := AllObjects(nodes, []); l in all && IsPage(l, all, design)
    ensures var all := AllObjects(nodes, []); l.obj.id in PagesTo(all, design, |all|)
  {
    var all := AllObjects(nodes, []);
    if s :| s in all && s.obj.id in design && s.obj.kind.ScrollArea? && s.obj.kind.content == Some(l.obj.id) {
      var i :| 0 <= i < |all| && all[i] == s;
      PagesHas(all, design, i, |all|);
    } else {
      var p := l.chain[0];
      ParentHolds(nodes, [], l);
      AncestorsLocated(nodes, [], l, 0);
      assert [p] + l.chain[1..] == l.chain;
      var i :| 0 <= i < |all| && all[i] == Located(p, l.chain[1..]);
      PagesHas(all, design, i, |all|);
      assert l.obj.id in PagesOf(all, all[i]);
    }
  }

  /** Only pages are added. */
  lemma {:induction false} AddedPage(nodes: seq<Obj>, design: set<Id>, k: nat, id: Id)
    requires var all := AllObjects(nodes, []); k <= |all| && id in PagesTo(all, design, k)
    ensures id in Pages(AllObjects(nodes, []), design)
  {
    var all := AllObjects(nodes, []);
    if id in PagesTo(all, design, k - 1) { AddedPage(nodes, design, k - 1, id); }
    else {
      var l := all[k - 1];
      assert l in all;
      if l.obj.kind.ScrollArea? {
        var m :| m in all && l.obj.kind.content == Some(m.obj.id) && IsWidget(m.obj) && !IsInternal(m.obj, m.chain) && m.obj.id == id;
        assert IsPage(m, all, design);
      } else {
        var c :| c in l.obj.children && IsWidget(c) && c.id == id && (!l.obj.kind.ToolBox? || !c.kind.ToolButton?);
        ChildLocated(nodes, [], l, c);
        var m := Located(c, [l.obj] + l.chain);
        assert IsPage(m, all, design);
        assert m.obj.id in Pages(all, design);
      }
    }
  }

  lemma PagesAgree(nodes: seq<Obj>, design: set<Id>)
    ensures var all := AllObjects(nodes, []); PagesTo(all, design, |all|) == Pages(all, design)
  {
    var all := AllObjects(nodes, []);
    forall id | id in Pages(all, design) ensures id in PagesTo(all, design, |all|) {
      var l :| l in all && IsPage(l, all, design) && l.obj.id == id;
      PageAdded(nodes, design, l);
    }
    forall id | id in PagesTo(all, design, |all|) ensures id in Pages(all, design) { AddedPage(nodes, design, |all|, id); }
  }

  /** Climbing from one design widget, up to the first design ancestor. */
  method ClimbFrom(start: seq<Obj>, design: set<Id>, doc: set<Id>) returns (r: set<Id>)
    ensures r == doc + Climb(start, design)
  {
    r := doc;
    var chain, stop := start, false;
    while chain != [] && !stop
      invariant r + (if stop then {} else Climb(chain, design)) == doc + Climb(start, design)
      decreases |chain|, !stop
    {
      var p := chain[0];
      if IsWidget(p) {
        if p.id in design { stop := true; }
        else if !IsInternal(p, chain[1..]) { r := r + {p.id}; }
      }
      if !stop { chain := chain[1..]; }
    }
  }

  /** The content of a scroll area, wherever it is. */
  method AddContent(all: seq<Located>, content: Option<Id>, doc: set<Id>) returns (r: set<Id>)
    ensures r == doc + set m | m in all && content == Some(m.obj.id) && IsWidget(m.obj) && !IsInternal(m.obj, m.chain) :: m.obj.id
  {
    r := doc;
    for k := 0 to |all|
      invariant r == doc + set m | m in all[..k] && content == Some(m.obj.id) && IsWidget(m.obj) && !IsInternal(m.obj, m.chain) :: m.obj.id
    {
      assert all[..k + 1] == all[..k] + [all[k]];
      if content == Some(all[k].obj.id) && IsWidget(all[k].obj) && !IsInternal(all[k].obj, all[k].chain) {
        r := r + {all[k].obj.id};
      }
    }
    assert all[..|all|] == all;
  }

  /** The children of a container that are pages. */
  method AddPageChildren(l: Located, buttons: bool, doc: set<Id>) returns (r: set<Id>)
    ensures r == doc + PageChildren(l, l.obj.children, buttons)
  {
    r := doc;
    var children := l.obj.children;
    for k := 0 to |children|
      invariant r == doc + PageChildren(l, children[..k], buttons)
    {
      assert children[..k + 1] == children[..k] + [children[k]];
      if !IsWidget(children[k]) { continue; }
      if !buttons && children[k].kind.ToolButton? { continue; }
      if !IsInternal(children[k], [l.obj] + l.chain) { r := r + {children[k].id}; }
    }
    assert children[..|children|] == children;
  }

  method AddPages(all: seq<Located>, l: Located, doc: set<Id>) returns (r: set<Id>)
    ensures r == doc + PagesOf(all, l)
  {
    match l.obj.kind
    case ScrollArea(content) => r := AddContent(all, content, doc);
    case TabWidget => r := AddPageChildren(l, true, doc);
    case StackedWidget => r := AddPageChildren(l, true, doc);
    case ToolBox => r := AddPageChildren(l, false, doc);
    case _ => r := doc;
  }

  /** The loops over design widgets: the climb from each, then the pages of each. */
  method BuildDocSet(nodes: seq<Obj>, design: set<Id>) returns (doc: set<Id>)
    ensures doc == DocSet(AllObjects(nodes, []), design)
  {
    hide Climb, PagesOf, Pages;
    var all := AllObjects(nodes, []);
    doc := design;
    for k := 0 to |all|
      invariant doc == design + ClimbedTo(all, design, k)
    {
      if all[k].obj.id in design { doc := ClimbFrom(all[k].chain, design, doc); }
    }
    for k := 0 to |all|
      invariant doc == design + ClimbedTo(all, design, |all|) + PagesTo(all, design, k)
    {
      if all[k].obj.id in design { doc := AddPages(all, all[k], doc); }
    }
    PagesAgree(nodes, design);
  }

  lemma {:induction false} ClimbedHas(all: seq<Located>, design: set<Id>, i: nat, k: nat)
    requires i < k <= |all| && all[i].obj.id in design
    ensures Climb(all[i].chain, design) <= ClimbedTo(all, design, k)
  {
    if i < k - 1 { ClimbedHas(all, design, i, k - 1); }
  }

  /**
   Stopping at the first design ancestor loses nothing: every widget ancestor of a design widget that
   is not internal belongs to the document.
   */
  lemma {:induction false} ClimbLosesNothing(nodes: seq<Obj>, design: set<Id>, l: Located, k: nat)
    requires l in AllObjects(nodes, []) && k <= |l.chain|
    requires Climb(l.chain[k..], design) <= DocSet(AllObjects(nodes, []), design)
    ensures ClimbAll(l.chain[k..]) <= DocSet(AllObjects(nodes, []), design)
    decreases |l.chain| - k
  {
    var all := AllObjects(nodes, []);
    if k < |l.chain| {
      var p := l.chain[k];
      assert l.chain[k..][1..] == l.chain[k + 1..];
      if IsWidget(p) && p.id in design {
        AncestorsLocated(nodes, [], l, k);
        var i :| 0 <= i < |all| && all[i] == Located(p, l.chain[k + 1..]);
        ClimbedHas(all, design, i, |all|);
      }
      ClimbLosesNothing(nodes, design, l, k + 1);
    }
  }

  lemma DocSetHasAncestors(nodes: seq<Obj>, design: set<Id>, l: Located)
    requires l in AllObjects(nodes, []) && l.obj.id in design
    ensures ClimbAll(l.chain) <= DocSet(AllObjects(nodes, []), design)
  {
    var all := AllObjects(nodes, []);
    var i :| 0 <= i < |all| && all[i] == l;
    ClimbedHas(all, design, i, |all|);
    assert l.chain[0..] == l.chain;
    ClimbLosesNothing(nodes, design, l, 0);
  }

  // ---- listing under the nearest document ancestor ------------------------------------------------------------------------------

  /** The nearest ancestor that is a document widget and not internal; none below the canvas itself. */
  function LogicalParent(chain: seq<Obj>, doc: set<Id>): Option<Id> {
    if chain == [] then None
    else if IsWidget(chain[0]) && !IsInternal(chain[0], chain[1..]) && chain[0].id in doc then Some(chain[0].id)
    else LogicalParent(chain[1..], doc)
  }

  datatype Entry = Entry(parent: Option<Id>, id: Id)

  /** The entries made by the traversal, which does not descend below objects that are not widgets. */
  function Visited(nodes: seq<Obj>, chain: seq<Obj>, doc: set<Id>): seq<Entry>
    decreases nodes
  {
    if nodes == [] then []
    else if !IsWidget(nodes[0]) then Visited(nodes[1..], chain, doc)
    else (if nodes[0].id in doc then [Entry(LogicalParent(chain, doc), nodes[0].id)] else [])
         + Visited(nodes[0].children, [nodes[0]] + chain, doc) + Visited(nodes[1..], chain, doc)
  }

  /** The ids listed under `key`, in the order they were added. */
  function Group(es: seq<Entry>, key: Option<Id>): seq<Id> {
    if es == [] then [] else (if es[0].parent == key then [es[0].id] else []) + Group(es[1..], key)
  }

  lemma {:induction false} GroupConcat(a: seq<Entry>, b: seq<Entry>, key: Option<Id>)
    ensures Group(a + b, key) == Group(a, key) + Group(b, key)
  {
    if a == [] { assert a + b == b; }
    else {
      assert (a + b)[1..] == a[1..] + b;
      GroupConcat(a[1..], b, key);
      var head := if a[0].parent == key then [a[0].id] else [];
      assert Group(a + b, key) == head + (Group(a[1..], key) + Group(b, key));
    }
  }

  // ---- the intended forest -------------------------------------------------------------------------------------------------------

  datatype Doc = Doc(id: Id, kids: seq<Doc>)

  /** The document trees below a list of siblings: an internal document widget keeps no children. */
  function Forest(nodes: seq<Obj>, chain: seq<Obj>, doc: set<Id>): seq<Doc>
    decreases nodes
  {
    if nodes == [] then []
    else if !IsWidget(nodes[0]) then Forest(nodes[1..], chain, doc)
    else
      var below := Forest(nodes[0].children, [nodes[0]] + chain, doc);
      Head(nodes[0].id, below, nodes[0].id in doc, IsInternal(nodes[0], chain)) + Forest(nodes[1..], chain, doc)
  }

  /** What one object adds above the trees `below` it. */
  function Head(id: Id, below: seq<Doc>, listed: bool, internal: bool): seq<Doc> {
    if !listed then below else if internal then [Doc(id, [])] + below else [Doc(id, below)]
  }

  function RootIds(f: seq<Doc>): seq<Id> { if f == [] then [] else [f[0].id] + RootIds(f[1..]) }

  /** Ids in the order a recursive writer of the forest emits them. */
  function Written(f: seq<Doc>): seq<Id>
    decreases f
  {
    if f == [] then [] else [f[0].id] + Written(f[0].kids) + Written(f[1..])
  }

  /** The document widgets in the order of the widget tree. */
  function TreeOrder(nodes: seq<Obj>, doc: set<Id>): seq<Id>
    decreases nodes
  {
    if nodes == [] then []
    else if !IsWidget(nodes[0]) then TreeOrder(nodes[1..], doc)
    else (if nodes[0].id in doc then [nodes[0].id] else []) + TreeOrder(nodes[0].children, doc) + TreeOrder(nodes[1..], doc)
  }

  lemma {:induction false} WrittenConcat(a: seq<Doc>, b: seq<Doc>)
    ensures Written(a + b) == Written(a) + Written(b)
    ensures RootIds(a + b) == RootIds(a) + RootIds(b)
    decreases |a|
  {
    if a == [] { assert a + b == b; }
    else {
      assert (a + b)[1..] == a[1..] + b;
      WrittenConcat(a[1..], b);
    }
  }

  /** Writing the forest lists every document widget once, in the order of the widget tree. */
  lemma {:induction false} WrittenInTreeOrder(nodes: seq<Obj>, chain: seq<Obj>, doc: set<Id>)
    ensures Written(Forest(nodes, chain, doc)) == TreeOrder(nodes, doc)
    decreases nodes
  {
    if nodes != [] {
      WrittenInTreeOrder(nodes[1..], chain, doc);
      if IsWidget(nodes[0]) {
        var n := nodes[0];
        var below, rest := Forest(n.children, [n] + chain, doc), Forest(nodes[1..], chain, doc);
        WrittenInTreeOrder(n.children, [n] + chain, doc);
        HeadWritten(n.id, below, n.id in doc, IsInternal(n, chain));
        WrittenConcat(Head(n.id, below, n.id in doc, IsInternal(n, chain)), rest);
      }
    }
  }

  lemma HeadWritten(id: Id, below: seq<Doc>, listed: bool, internal: bool)
    ensures Written(Head(id, below, listed, internal)) == (if listed then [id] else []) + Written(below)
  {
    WrittenSingle(id, []);
    WrittenSingle(id, below);
    WrittenConcat([Doc(id, [])], below);
  }

  lemma WrittenSingle(id: Id, kids: seq<Doc>)
    ensures Written([Doc(id, kids)]) == [id] + Written(kids)
  {
    assert [Doc(id, kids)][1..] == [];
  }

  // ---- the lists hold exactly that forest ------------------------------------------------------------------------------------------

  lemma {:induction false} ForestIds(nodes: seq<Obj>, chain: seq<Obj>, doc: set<Id>)
    ensures forall i :: i in TreeOrder(nodes, doc) ==> i in Ids(nodes) && i in doc
    decreases nodes
  {
    if nodes != [] {
      ForestIds(nodes[0].children, chain, doc);
      ForestIds(nodes[1..], chain, doc);
    }
  }

  /** Nothing below `nodes` is listed under an id from elsewhere, except under their common parent. */
  lemma {:induction false} NotListedElsewhere(nodes: seq<Obj>, chain: seq<Obj>, doc: set<Id>, i: Id)
    requires i !in Ids(nodes) && LogicalParent(chain, doc) != Some(i)
    ensures Group(Visited(nodes, chain, doc), Some(i)) == []
    decreases nodes
  {
    if nodes != [] {
      NotListedElsewhere(nodes[1..], chain, doc, i);
      if IsWidget(nodes[0]) {
        var n := nodes[0];
        NotListedElsewhere(n.children, [n] + chain, doc, i);
        SplitGroup(nodes, chain, doc, Some(i));
      }
    }
  }

  lemma NothingListed(chain: seq<Obj>, doc: set<Id>, key: Option<Id>)
    ensures Group(Visited([], chain, doc), key) == []
  {
  }

  lemma SkipListed(nodes: seq<Obj>, chain: seq<Obj>, doc: set<Id>)
    requires nodes != [] && !IsWidget(nodes[0])
    ensures Visited(nodes, chain, doc) == Visited(nodes[1..], chain, doc)
  {
  }

  lemma SplitGroup(nodes: seq<Obj>, chain: seq<Obj>, doc: set<Id>, key: Option<Id>)
    requires nodes != [] && IsWidget(nodes[0])
    ensures Group(Visited(nodes, chain, doc), key)
            == (if nodes[0].id in doc && LogicalParent(chain, doc) == key then [nodes[0].id] else [])
               + Group(Visited(nodes[0].children, [nodes[0]] + chain, doc), key) + Group(Visited(nodes[1..], chain, doc), key)
  {
    var n := nodes[0];
    var head := if n.id in doc then [Entry(LogicalParent(chain, doc), n.id)] else [];
    var below, rest := Visited(n.children, [n] + chain, doc), Visited(nodes[1..], chain, doc);
    GroupConcat(head, below, key);
    GroupConcat(head + below, rest, key);
    if head != [] { assert head[1..] == []; }
  }

  ghost predicate FromOutside(key: Option<Id>, nodes: seq<Obj>) { key.Some? ==> key.value !in Ids(nodes) }

  /** The siblings' own parent lists exactly the roots of their forest. */
  lemma {:induction false} ParentListsRoots(nodes: seq<Obj>, chain: seq<Obj>, doc: set<Id>)
    requires UniqueIds(nodes) && FromOutside(LogicalParent(chain, doc), nodes)
    ensures Group(Visited(nodes, chain, doc), LogicalParent(chain, doc)) == RootIds(Forest(nodes, chain, doc))
    decreases nodes
  {
    hide Group, Head, Written, Visited;
    if nodes == [] {
      NothingListed(chain, doc, LogicalParent(chain, doc));
    } else {
      if !IsWidget(nodes[0]) { SkipListed(nodes, chain, doc); }
      ParentListsRoots(nodes[1..], chain, doc);
      if IsWidget(nodes[0]) {
        var n, key := nodes[0], LogicalParent(chain, doc);
        var below, rest := Forest(n.children, [n] + chain, doc), Forest(nodes[1..], chain, doc);
        SplitGroup(nodes, chain, doc, key);
        HeadRoots(n.id, below, n.id in doc, IsInternal(n, chain));
        WrittenConcat(Head(n.id, below, n.id in doc, IsInternal(n, chain)), rest);
        assert ([n] + chain)[1..] == chain;
        if n.id in doc && !IsInternal(n, chain) {
          if key.Some? { NotListedElsewhere(n.children, [n] + chain, doc, key.value); }
          else { NeverTopBelow(n.children, [n] + chain, doc); }
        } else {
          ParentListsRoots(n.children, [n] + chain, doc);
        }
      }
    }
  }

  lemma HeadRoots(id: Id, below: seq<Doc>, listed: bool, internal: bool)
    ensures RootIds(Head(id, below, listed, internal))
            == (if listed then [id] else []) + (if listed && !internal then [] else RootIds(below))
  {
    RootsSingle(id, below);
    RootsSingle(id, []);
    WrittenConcat([Doc(id, [])], below);
  }

  lemma RootsSingle(id: Id, kids: seq<Doc>)
    ensures RootIds([Doc(id, kids)]) == [id]
  {
    assert [Doc(id, kids)][1..] == [];
  }

  /** Below a document widget nothing is listed at the top level. */
  lemma {:induction false} NeverTopBelow(nodes: seq<Obj>, chain: seq<Obj>, doc: set<Id>)
    requires LogicalParent(chain, doc).Some?
    ensures Group(Visited(nodes, chain, doc), None) == []
    decreases nodes
  {
    if nodes != [] {
      NeverTopBelow(nodes[1..], chain, doc);
      if IsWidget(nodes[0]) {
        assert ([nodes[0]] + chain)[1..] == chain;
        NeverTopBelow(nodes[0].children, [nodes[0]] + chain, doc);
        SplitGroup(nodes, chain, doc, None);
      }
    }
  }

  /** Throughout a forest, the list kept for a document widget holds exactly its children. */
  ghost predicate Holds(lists: Option<Id> -> seq<Id>, f: seq<Doc>)
    decreases f
  {
    f == [] || (lists(Some(f[0].id)) == RootIds(f[0].kids) && Holds(lists, f[0].kids) && Holds(lists, f[1..]))
  }

  ghost function ListsOf(es: seq<Entry>): Option<Id> -> seq<Id> { key => Group(es, key) }

  lemma {:induction false} HoldsConcat(lists: Option<Id> -> seq<Id>, a: seq<Doc>, b: seq<Doc>)
    requires Holds(lists, a) && Holds(lists, b)
    ensures Holds(lists, a + b)
    decreases |a|
  {
    if a == [] { assert a + b == b; }
    else {
      assert (a + b)[1..] == a[1..] + b;
      HoldsConcat(lists, a[1..], b);
    }
  }

  /** Lists that agree on the ids of a forest hold it alike. */
  lemma {:induction false} HoldsTransfer(l1: Option<Id> -> seq<Id>, l2: Option<Id> -> seq<Id>, f: seq<Doc>)
    requires Holds(l1, f) && forall i :: i in Written(f) ==> l1(Some(i)) == l2(Some(i))
    ensures Holds(l2, f)
    decreases f
  {
    if f != [] {
      assert f[0].id in Written(f);
      HoldsTransfer(l1, l2, f[0].kids);
      HoldsTransfer(l1, l2, f[1..]);
    }
  }

  lemma {:induction false} ListsHoldForest(nodes: seq<Obj>, chain: seq<Obj>, doc: set<Id>)
    requires UniqueIds(nodes) && FromOutside(LogicalParent(chain, doc), nodes)
    ensures Holds(ListsOf(Visited(nodes, chain, doc)), Forest(nodes, chain, doc))
    decreases nodes
  {
    if nodes != [] {
      ListsHoldForest(nodes[1..], chain, doc);
      if IsWidget(nodes[0]) {
        var n := nodes[0];
        var below, rest := Forest(n.children, [n] + chain, doc), Forest(nodes[1..], chain, doc);
        var all := ListsOf(Visited(nodes, chain, doc));
        var inner, outer := ListsOf(Visited(n.children, [n] + chain, doc)), ListsOf(Visited(nodes[1..], chain, doc));
        assert ([n] + chain)[1..] == chain;
        ListsHoldForest(n.children, [n] + chain, doc);
        BelowAgrees(nodes, chain, doc);
        RestAgrees(nodes, chain, doc);
        HoldsTransfer(inner, all, below);
        HoldsTransfer(outer, all, rest);
        if n.id in doc { OwnList(nodes, chain, doc); }
        var head := Head(n.id, below, n.id in doc, IsInternal(n, chain));
        HeadHolds(all, n.id, below, head);
        HoldsConcat(all, head, rest);
      }
    }
  }

  lemma HeadHolds(all: Option<Id> -> seq<Id>, id: Id, below: seq<Doc>, head: seq<Doc>)
    requires Holds(all, below)
    requires head == below || (head == [Doc(id, [])] + below && all(Some(id)) == [])
             || (head == [Doc(id, below)] && all(Some(id)) == RootIds(below))
    ensures Holds(all, head)
  {
    if head == [Doc(id, [])] + below {
      assert head[1..] == below;
    } else if head == [Doc(id, below)] {
      assert head[1..] == [];
    }
  }

  lemma BelowAgrees(nodes: seq<Obj>, chain: seq<Obj>, doc: set<Id>)
    requires nodes != [] && IsWidget(nodes[0]) && UniqueIds(nodes) && FromOutside(LogicalParent(chain, doc), nodes)
    ensures var n := nodes[0];
            forall i :: i in Written(Forest(n.children, [n] + chain, doc)) ==>
              Group(Visited(nodes, chain, doc), Some(i)) == Group(Visited(n.children, [n] + chain, doc), Some(i))
  {
    var n := nodes[0];
    WrittenInTreeOrder(n.children, [n] + chain, doc);
    ForestIds(n.children, chain, doc);
    forall i | i in Written(Forest(n.children, [n] + chain, doc))
      ensures Group(Visited(nodes, chain, doc), Some(i)) == Group(Visited(n.children, [n] + chain, doc), Some(i))
    {
      SplitGroup(nodes, chain, doc, Some(i));
      NotListedElsewhere(nodes[1..], chain, doc, i);
    }
  }

  lemma RestAgrees(nodes: seq<Obj>, chain: seq<Obj>, doc: set<Id>)
    requires nodes != [] && IsWidget(nodes[0]) && UniqueIds(nodes) && FromOutside(LogicalParent(chain, doc), nodes)
    ensures forall i :: i in Written(Forest(nodes[1..], chain, doc)) ==>
              Group(Visited(nodes, chain, doc), Some(i)) == Group(Visited(nodes[1..], chain, doc), Some(i))
  {
    var n := nodes[0];
    WrittenInTreeOrder(nodes[1..], chain, doc);
    ForestIds(nodes[1..], chain, doc);
    assert ([n] + chain)[1..] == chain;
    forall i | i in Written(Forest(nodes[1..], chain, doc))
      ensures Group(Visited(nodes, chain, doc), Some(i)) == Group(Visited(nodes[1..], chain, doc), Some(i))
    {
      SplitGroup(nodes, chain, doc, Some(i));
      NotListedElsewhere(n.children, [n] + chain, doc, i);
    }
  }

  lemma OwnList(nodes: seq<Obj>, chain: seq<Obj>, doc: set<Id>)
    requires nodes != [] && IsWidget(nodes[0]) && UniqueIds(nodes) && FromOutside(LogicalParent(chain, doc), nodes)
    requires nodes[0].id in doc
    ensures Group(Visited(nodes, chain, doc), Some(nodes[0].id))
            == if IsInternal(nodes[0], chain) then [] else RootIds(Forest(nodes[0].children, [nodes[0]] + chain, doc))
  {
    var n := nodes[0];
    assert ([n] + chain)[1..] == chain;
    SplitGroup(nodes, chain, doc, Some(n.id));
    NotListedElsewhere(nodes[1..], chain, doc, n.id);
    if IsInternal(n, chain) {
      NotListedElsewhere(n.children, [n] + chain, doc, n.id);
    } else {
      ParentListsRoots(n.children, [n] + chain, doc);
    }
  }

  // ---- membership ----------------------------------------------------------------------------------------------------------------------

  /** Every object from the canvas down to this one is a widget. */
  predicate WidgetsOnly(l: Located) { IsWidget(l.obj) && forall i :: 0 <= i < |l.chain| ==> IsWidget(l.chain[i]) }

  ghost predicate HasPath(nodes: seq<Obj>, chain: seq<Obj>, i: Id) {
    exists l :: l in AllObjects(nodes, chain) && l.obj.id == i && WidgetsOnly(l)
  }

  /** Exactly the document widgets that are reached through widgets alone are written. */
  lemma {:induction false} WrittenExactly(nodes: seq<Obj>, chain: seq<Obj>, doc: set<Id>, i: Id)
    requires forall c :: 0 <= c < |chain| ==> IsWidget(chain[c])
    ensures i in TreeOrder(nodes, doc) <==> i in doc && HasPath(nodes, chain, i)
    decreases nodes
  {
    if nodes != [] {
      var n := nodes[0];
      var inner, rest := AllObjects(n.children, [n] + chain), AllObjects(nodes[1..], chain);
      WrittenExactly(nodes[1..], chain, doc, i);
      if IsWidget(n) {
        WrittenExactly(n.children, [n] + chain, doc, i);
        if n.id == i { assert Located(n, chain) in AllObjects(nodes, chain); }
      } else {
        forall l | l in inner ensures !WidgetsOnly(l) { BelowHasAncestor(n.children, [n] + chain, l, n); }
      }
    }
  }

  lemma {:induction false} BelowHasAncestor(nodes: seq<Obj>, chain: seq<Obj>, l: Located, p: Obj)
    requires l in AllObjects(nodes, chain) && p in chain
    ensures p in l.chain
    decreases nodes
  {
    var n := nodes[0];
    if l in AllObjects(n.children, [n] + chain) && l != Located(n, chain) {
      BelowHasAncestor(n.children, [n] + chain, l, p);
    } else if l != Located(n, chain) {
      BelowHasAncestor(nodes[1..], chain, l, p);
    }
  }

  lemma {:induction false} TreeOrderDistinct(nodes: seq<Obj>, doc: set<Id>)
    requires UniqueIds(nodes)
    ensures forall a, b :: 0 <= a < b < |TreeOrder(nodes, doc)| ==> TreeOrder(nodes, doc)[a] != TreeOrder(nodes, doc)[b]
    decreases nodes
  {
    if nodes != [] {
      TreeOrderDistinct(nodes[0].children, doc);
      TreeOrderDistinct(nodes[1..], doc);
      ForestIds(nodes[0].children, [], doc);
      ForestIds(nodes[1..], [], doc);
      var a, b := TreeOrder(nodes[0].children, doc), TreeOrder(nodes[1..], doc);
      assert forall i :: 0 <= i < |a| ==> a[i] in a;
      assert forall i :: 0 <= i < |b| ==> b[i] in b;
    }
  }

  /**
   The saved listing is a partition: the lists kept by the traversal hold exactly the forest, writing
   from the top-level list reaches every document widget once in tree order, and a document widget is
   left out exactly when an object that is not a widget lies above it.
   */
  lemma ListingIsPartition(nodes: seq<Obj>, doc: set<Id>)
    requires UniqueIds(nodes)
    ensures var lists, f := ListsOf(Visited(nodes, [], doc)), Forest(nodes, [], doc);
            && lists(None) == RootIds(f) && Holds(lists, f)
            && Written(f) == TreeOrder(nodes, doc)
            && (forall a, b :: 0 <= a < b < |Written(f)| ==> Written(f)[a] != Written(f)[b])
            && (forall i :: i in Written(f) <==> i in doc && HasPath(nodes, [], i))
  {
    ParentListsRoots(nodes, [], doc);
    ListsHoldForest(nodes, [], doc);
    WrittenInTreeOrder(nodes, [], doc);
    TreeOrderDistinct(nodes, doc);
    forall i ensures i in TreeOrder(nodes, doc) <==> i in doc && HasPath(nodes, [], i) {
      WrittenExactly(nodes, [], doc, i);
    }
  }

  /** A design widget below an object that is not a widget: it belongs to the document but is not written. */
  lemma BelowPlainIsLost()
    ensures var nodes, design := [Obj(1, Plain, [Obj(2, Widget, [])])], {2};
            && UniqueIds(nodes)
            && 2 in DocSet(AllObjects(nodes, []), design)
            && TreeOrder(nodes, DocSet(AllObjects(nodes, []), design)) == []
  {
    var plain := Obj(1, Plain, [Obj(2, Widget, [])]);
    assert [plain][1..] == [];
  }

  /** Where only widgets have children, as the designer and the loader build trees, every located document widget is written. */
  lemma WidgetParentsLoseNothing(nodes: seq<Obj>, doc: set<Id>, l: Located)
    requires UniqueIds(nodes) && l in AllObjects(nodes, []) && IsWidget(l.obj) && l.obj.id in doc
    requires forall m :: m in AllObjects(nodes, []) ==> forall p :: p in m.chain ==> IsWidget(p)
    ensures l.obj.id in Written(Forest(nodes, [], doc))
  {
    assert WidgetsOnly(l);
    assert HasPath(nodes, [], l.obj.id);
    ListingIsPartition(nodes, doc);
  }
}
