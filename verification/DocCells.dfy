/**
 Grid cells in a saved document: below a widget with a grid layout the writer follows the cells, by row and
 column, instead of the kept list. What this changes about the written order, and what it can lose.
 */
module DocCells {
  import opened Text
  import opened Sequences
  import opened DocForest

  /** An occupied cell of a grid layout. */
  datatype Cell = Cell(row: int, column: int, rowSpan: int, columnSpan: int, widget: Id)

  type Grids = map<Id, seq<Cell>>

  // ---- cells by row and column ------------------------------------------------------------------------------------

  predicate Before(a: Cell, b: Cell) {
    if a.row != b.row then a.row < b.row
    else if a.column != b.column then a.column < b.column
    else if a.rowSpan != b.rowSpan then a.rowSpan < b.rowSpan
    else a.columnSpan < b.columnSpan
  }

  function Insert(c: Cell, cells: seq<Cell>): seq<Cell> {
    if cells == [] || !Before(cells[0], c) then [c] + cells else [cells[0]] + Insert(c, cells[1..])
  }

  function Ordered(cells: seq<Cell>): seq<Cell> { if cells == [] then [] else Insert(cells[0], Ordered(cells[1..])) }

  predicate InOrder(cells: seq<Cell>) { forall i, j :: 0 <= i < j < |cells| ==> !Before(cells[j], cells[i]) }

  lemma BeforeIsOrder(a: Cell, b: Cell, c: Cell)
    ensures Before(a, b) ==> !Before(b, a)
    ensures !Before(a, b) && !Before(b, c) ==> !Before(a, c)
  {}

  lemma OrderCons(c: Cell, cells: seq<Cell>)
    requires InOrder(cells) && forall d :: d in cells ==> !Before(d, c)
    ensures InOrder([c] + cells)
  {
    hide Before;
    var r := [c] + cells;
    forall i, j | 0 <= i < j < |r| ensures !Before(r[j], r[i]) {
      assert r[j] == cells[j - 1];
      if i > 0 { assert r[i] == cells[i - 1]; } else { assert cells[j - 1] in cells; }
    }
  }

  lemma {:induction false} InsertKeeps(c: Cell, cells: seq<Cell>)
    ensures multiset(Insert(c, cells)) == multiset(cells) + multiset{c}
    ensures forall d :: d in Insert(c, cells) <==> d == c || d in cells
  {
    hide Before;
    if cells != [] {
      assert cells == [cells[0]] + cells[1..];
      InsertKeeps(c, cells[1..]);
    }
  }

  lemma {:induction false} InsertKeepsOrder(c: Cell, cells: seq<Cell>)
    requires InOrder(cells)
    ensures InOrder(Insert(c, cells))
  {
    hide Before, InOrder;
    if cells != [] {
      RestOf(cells);
      if Before(cells[0], c) {
        InsertKeepsOrder(c, cells[1..]);
        InsertKeeps(c, cells[1..]);
        BeforeIsOrder(cells[0], c, c);
        FirstBefore(cells);
        OrderCons(cells[0], Insert(c, cells[1..]));
      } else {
        FirstBefore(cells);
        forall d | d in cells ensures !Before(d, c) { BeforeIsOrder(d, cells[0], c); }
        OrderCons(c, cells);
      }
    } else {
      OneInOrder(c);
    }
  }

  lemma OneInOrder(c: Cell)
    ensures InOrder([]) && InOrder([c]) && [c] + [] == [c]
  {}

  lemma FirstBefore(cells: seq<Cell>)
    requires InOrder(cells) && cells != []
    ensures forall d :: d in cells ==> !Before(d, cells[0])
  {
    BeforeIsOrder(cells[0], cells[0], cells[0]);
  }

  lemma RestOf(a: seq<Cell>)
    requires a != []
    ensures a == [a[0]] + a[1..] && multiset(a) == multiset{a[0]} + multiset(a[1..])
    ensures multiset(a[1..]) == multiset(a) - multiset{a[0]}
    ensures InOrder(a) ==> InOrder(a[1..])
    ensures Apart(a) ==> Apart(a[1..])
  {
    hide Before;
    assert a == [a[0]] + a[1..];
    if InOrder(a) { forall i, j | 0 <= i < j < |a[1..]| ensures !Before(a[1..][j], a[1..][i]) { assert a[1..][i] == a[i + 1]; } }
  }

  /** The cells in order, none lost and none added. */
  lemma {:induction false} OrderedSorts(cells: seq<Cell>)
    ensures InOrder(Ordered(cells)) && multiset(Ordered(cells)) == multiset(cells)
  {
    if cells != [] {
      OrderedSorts(cells[1..]);
      InsertKeepsOrder(cells[0], Ordered(cells[1..]));
      InsertKeeps(cells[0], Ordered(cells[1..]));
      RestOf(cells);
    }
  }

  /** No two cells start at the same place, as in a grid whose cells do not overlap. */
  predicate Apart(cells: seq<Cell>) {
    forall i, j :: 0 <= i < j < |cells| ==> cells[i].row != cells[j].row || cells[i].column != cells[j].column
  }

  lemma FirstIsLeast(a: seq<Cell>, b: seq<Cell>)
    requires InOrder(a) && InOrder(b) && multiset(a) == multiset(b) && Apart(a) && a != [] && b != []
    ensures a[0] == b[0]
  {
    assert a[0] in multiset(b) && b[0] in multiset(a);
    var i :| 0 <= i < |b| && b[i] == a[0];
    var j :| 0 <= j < |a| && a[j] == b[0];
  }

  /** Whatever way they are sorted, cells that start at different places have only one order. */
  lemma {:induction false} OneOrder(a: seq<Cell>, b: seq<Cell>)
    requires InOrder(a) && InOrder(b) && multiset(a) == multiset(b) && Apart(a)
    ensures a == b
  {
    hide InOrder, Apart;
    assert |a| == |multiset(a)| == |multiset(b)| == |b|;
    if a != [] {
      FirstIsLeast(a, b);
      RestOf(a);
      RestOf(b);
      OneOrder(a[1..], b[1..]);
    }
  }

  lemma {:induction false} CellAmong(cells: seq<Cell>, c: Cell) returns (i: nat)
    requires c in cells
    ensures i < |Ordered(cells)| && Ordered(cells)[i] == c
  {
    OrderedSorts(cells);
    assert c in multiset(Ordered(cells));
    i :| 0 <= i < |Ordered(cells)| && Ordered(cells)[i] == c;
  }

  /** Row by row, and within a row from left to right: the upper of two children, or the left one of a row, is written first. */
  lemma RowByRow(d: Doc, grids: Grids, a: Cell, b: Cell) returns (i: nat, j: nat)
    requires d.id in grids && a in grids[d.id] && b in grids[d.id]
    requires a.row < b.row || (a.row == b.row && a.column < b.column)
    ensures i < j < |ChildOrder(d, grids)| && ChildOrder(d, grids)[i] == a.widget && ChildOrder(d, grids)[j] == b.widget
  {
    var cells := grids[d.id];
    i := CellAmong(cells, a);
    j := CellAmong(cells, b);
    OrderedSorts(cells);
  }

  function CellIds(cells: seq<Cell>): (r: seq<Id>)
    ensures |r| == |cells| && forall i :: 0 <= i < |r| ==> r[i] == cells[i].widget
  {
    seq(|cells|, i requires 0 <= i < |cells| => cells[i].widget)
  }

  // ---- what is written ----------------------------------------------------------------------------------------------

  function Find(kids: seq<Doc>, id: Id): (r: Option<Doc>)
    ensures r.Some? ==> r.value in kids && r.value.id == id
    ensures r.Some? <==> id in RootIds(kids)
  {
    if kids == [] then None else if kids[0].id == id then Some(kids[0]) else Find(kids[1..], id)
  }

  /** The order in which the children of a widget are written. */
  function ChildOrder(d: Doc, grids: Grids): seq<Id> {
    if d.id in grids then CellIds(Ordered(grids[d.id])) else RootIds(d.kids)
  }

  /** A widget and what is written below it. */
  function WrittenNode(d: Doc, grids: Grids): seq<Id>
    decreases d, 1, 0
  {
    [d.id] + WrittenIn(d.kids, ChildOrder(d, grids), grids)
  }

  function WrittenIn(kids: seq<Doc>, ids: seq<Id>, grids: Grids): seq<Id>
    decreases kids, 0, |ids|
  {
    if ids == [] then []
    else (if Find(kids, ids[0]).Some? then WrittenNode(Find(kids, ids[0]).value, grids) else []) + WrittenIn(kids, ids[1..], grids)
  }

  /** What a grid layout sees to: its cells hold children of the widget, each in one cell, at different places. */
  predicate Sited(kids: seq<Doc>, cells: seq<Cell>) {
    Apart(cells) && Distinct(CellIds(cells)) && forall c :: c in cells ==> c.widget in RootIds(kids)
  }

  predicate CellsFit(f: seq<Doc>, grids: Grids)
    decreases f
  {
    f == [] || ((f[0].id in grids ==> Sited(f[0].kids, grids[f[0].id])) && CellsFit(f[0].kids, grids) && CellsFit(f[1..], grids))
  }

  /** Every child of a widget with a grid layout has a cell. */
  predicate Complete(f: seq<Doc>, grids: Grids)
    decreases f
  {
    f == [] ||
    (&& (f[0].id in grids ==> forall k :: k in f[0].kids ==> k.id in CellIds(grids[f[0].id]))
     && Complete(f[0].kids, grids) && Complete(f[1..], grids))
  }

  /** The cells of every grid are in the order of the kept list. */
  predicate Listed(f: seq<Doc>, grids: Grids)
    decreases f
  {
    f == [] || (ChildOrder(f[0], grids) == RootIds(f[0].kids) && Listed(f[0].kids, grids) && Listed(f[1..], grids))
  }

  // ---- one list of children ---------------------------------------------------------------------------------------------

  lemma {:induction false} RootIdAt(f: seq<Doc>, i: nat)
    requires i < |f|
    ensures |RootIds(f)| == |f| && RootIds(f)[i] == f[i].id
  {
    if i > 0 { RootIdAt(f[1..], i - 1); } else if |f| > 1 { RootIdAt(f[1..], 0); }
  }

  lemma RootIdsAre(f: seq<Doc>)
    ensures |RootIds(f)| == |f| && forall i :: 0 <= i < |f| ==> RootIds(f)[i] == f[i].id
  {
    forall i | 0 <= i < |f| ensures |RootIds(f)| == |f| && RootIds(f)[i] == f[i].id { RootIdAt(f, i); }
  }

  lemma {:induction false} FindAmong(a: seq<Doc>, b: seq<Doc>, id: Id)
    ensures Find(a + b, id) == if id in RootIds(a) then Find(a, id) else Find(b, id)
  {
    if a == [] { assert a + b == b; }
    else {
      assert (a + b)[1..] == a[1..] + b;
      FindAmong(a[1..], b, id);
    }
  }

  /** The children without the one at `j`. */
  function Without(kids: seq<Doc>, j: nat): seq<Doc>
    requires j < |kids|
  {
    kids[..j] + kids[j + 1..]
  }

  lemma DistinctHalves(a: seq<Id>, b: seq<Id>)
    requires Distinct(a + b)
    ensures Distinct(a) && Distinct(b) && forall x :: x in a ==> x !in b
  {
    forall i, j | 0 <= i < j < |a| ensures a[i] != a[j] { assert (a + b)[i] == a[i] && (a + b)[j] == a[j]; }
    forall i, j | 0 <= i < j < |b| ensures b[i] != b[j] { assert (a + b)[|a| + i] == b[i] && (a + b)[|a| + j] == b[j]; }
    forall i, j | 0 <= i < |a| && 0 <= j < |b| ensures a[i] != b[j] { assert (a + b)[i] == a[i] && (a + b)[|a| + j] == b[j]; }
  }

  lemma DistinctJoin(a: seq<Id>, b: seq<Id>)
    requires Distinct(a) && Distinct(b) && forall x :: x in a ==> x !in b
    ensures Distinct(a + b)
  {
    forall i, j | 0 <= i < j < |a + b| ensures (a + b)[i] != (a + b)[j] {
      if i < |a| <= j { assert a[i] in a && b[j - |a|] in b; }
    }
  }

  lemma RootsOfThree(a: seq<Doc>, k: Doc, b: seq<Doc>)
    ensures RootIds(a + [k] + b) == RootIds(a) + [k.id] + RootIds(b) && RootIds(a + b) == RootIds(a) + RootIds(b)
    ensures Written(a + [k] + b) == Written(a) + Written([k]) + Written(b) && Written(a + b) == Written(a) + Written(b)
  {
    hide Written, RootIds;
    WrittenConcat(a + [k], b);
    WrittenConcat(a, [k]);
    WrittenConcat(a, b);
    RootsSingle(k.id, k.kids);
  }

  lemma FindOfThree(a: seq<Doc>, k: Doc, b: seq<Doc>, id: Id)
    ensures Find(a + [k] + b, id)
            == if id in RootIds(a) then Find(a, id) else if id == k.id then Some(k) else Find(b, id)
    ensures Find(a + b, id) == if id in RootIds(a) then Find(a, id) else Find(b, id)
  {
    hide Find;
    FindAmong(a + [k], b, id);
    FindAmong(a, [k], id);
    FindAmong(a, b, id);
    RootsOfThree(a, k, []);
    assert a + [k] + [] == a + [k];
    FindOne(k, id);
  }

  lemma FindOne(k: Doc, id: Id)
    ensures Find([k], id) == if k.id == id then Some(k) else None
  {
    assert [k][1..] == [];
  }

  lemma WithoutParts(kids: seq<Doc>, j: nat)
    requires j < |kids| && Distinct(RootIds(kids))
    ensures Find(kids, kids[j].id) == Some(kids[j])
    ensures forall id :: id != kids[j].id ==> Find(Without(kids, j), id) == Find(kids, id)
    ensures Distinct(RootIds(Without(kids, j))) && kids[j].id !in RootIds(Without(kids, j))
    ensures forall k :: k in kids <==> k == kids[j] || k in Without(kids, j)
    ensures multiset(Written(kids)) == multiset(Written([kids[j]])) + multiset(Written(Without(kids, j)))
  {
    hide Find, Written, RootIds, Distinct;
    var a, k, b := kids[..j], kids[j], kids[j + 1..];
    assert kids == a + [k] + b;
    RootsOfThree(a, k, b);
    forall id ensures Find(kids, id) == (if id in RootIds(a) then Find(a, id) else if id == k.id then Some(k) else Find(b, id))
                      && Find(a + b, id) == if id in RootIds(a) then Find(a, id) else Find(b, id)
    {
      FindOfThree(a, k, b, id);
    }
    DistinctHalves(RootIds(a) + [k.id], RootIds(b));
    DistinctHalves(RootIds(a), [k.id]);
    assert k.id in RootIds(a) + [k.id] && k.id in [k.id];
    assert forall x :: x in RootIds(a) ==> x in RootIds(a) + [k.id];
    DistinctJoin(RootIds(a), RootIds(b));
  }

  lemma {:induction false} WrittenWithout(kids: seq<Doc>, j: nat, ids: seq<Id>, grids: Grids)
    requires j < |kids| && Distinct(RootIds(kids)) && kids[j].id !in ids
    ensures WrittenIn(Without(kids, j), ids, grids) == WrittenIn(kids, ids, grids)
  {
    hide WrittenNode, Without, Find;
    if ids != [] {
      WithoutParts(kids, j);
      WrittenWithout(kids, j, ids[1..], grids);
    }
  }

  /** What is known of each child: nothing is written twice, and everything exactly when nothing lacks a cell. */
  ghost predicate Bounded(d: Doc, grids: Grids) {
    && multiset(WrittenNode(d, grids)) <= multiset(Written([d]))
    && (multiset(WrittenNode(d, grids)) == multiset(Written([d])) <==> Complete([d], grids))
  }

  lemma {:induction false} CompleteEach(f: seq<Doc>, grids: Grids)
    ensures Complete(f, grids) <==> forall k :: k in f ==> Complete([k], grids)
    decreases |f|
  {
    if f != [] {
      CompleteEach(f[1..], grids);
      assert [f[0]][1..] == [];
      assert f == [f[0]] + f[1..];
    }
  }

  lemma SubSums(a: multiset<Id>, b: multiset<Id>, c: multiset<Id>, d: multiset<Id>)
    requires a <= b && c <= d
    ensures a + c <= b + d
    ensures a + c == b + d <==> a == b && c == d
  {
    if a + c == b + d {
      forall x ensures a[x] == b[x] && c[x] == d[x] { assert (a + c)[x] == (b + d)[x]; }
    }
  }

  lemma TailApart(ids: seq<Id>)
    requires Distinct(ids) && ids != []
    ensures ids[0] !in ids[1..] && Distinct(ids[1..]) && forall x :: x in ids <==> x == ids[0] || x in ids[1..]
  {
    hide Distinct;
    assert ids == [ids[0]] + ids[1..];
    DistinctHalves([ids[0]], ids[1..]);
    assert ids[0] in [ids[0]];
  }

  lemma StillAmong(kids: seq<Doc>, j: nat, x: Id)
    requires j < |kids| && Distinct(RootIds(kids)) && x in RootIds(kids) && x != kids[j].id
    ensures x in RootIds(Without(kids, j))
  {
    hide Without, Find, RootIds, Distinct;
    WithoutParts(kids, j);
    FindSome(Without(kids, j), x);
    FindSome(kids, x);
  }

  lemma RestAmong(kids: seq<Doc>, ids: seq<Id>) returns (j: nat)
    requires Distinct(ids) && Distinct(RootIds(kids)) && ids != [] && forall x :: x in ids ==> x in RootIds(kids)
    ensures j < |kids| && kids[j].id == ids[0] && ids[0] !in ids[1..] && Distinct(ids[1..])
    ensures forall x :: x in ids[1..] ==> x in RootIds(Without(kids, j))
    ensures (forall k :: k in kids ==> k.id in ids) <==> forall k :: k in Without(kids, j) ==> k.id in ids[1..]
  {
    hide Without, Distinct, RootIds;
    TailApart(ids);
    j := IndexOf(kids, ids[0]);
    WithoutParts(kids, j);
    forall x | x in ids[1..] ensures x in RootIds(Without(kids, j)) { StillAmong(kids, j, x); }
    forall k | k in Without(kids, j) ensures k.id != ids[0] { InRoots(Without(kids, j), k); }
  }

  lemma CompleteWithout(kids: seq<Doc>, j: nat, grids: Grids)
    requires j < |kids| && forall k :: k in kids <==> k == kids[j] || k in Without(kids, j)
    ensures Complete(kids, grids) <==> Complete([kids[j]], grids) && Complete(Without(kids, j), grids)
  {
    hide Complete, Without;
    CompleteEach(kids, grids);
    CompleteEach(Without(kids, j), grids);
  }

  lemma {:induction false} InParts(kids: seq<Doc>, ids: seq<Id>, grids: Grids)
    requires Distinct(ids) && Distinct(RootIds(kids)) && (forall x :: x in ids ==> x in RootIds(kids))
    requires forall k :: k in kids ==> Bounded(k, grids)
    ensures multiset(WrittenIn(kids, ids, grids)) <= multiset(Written(kids))
    ensures multiset(WrittenIn(kids, ids, grids)) == multiset(Written(kids))
            <==> (forall k :: k in kids ==> k.id in ids) && Complete(kids, grids)
    decreases |ids|
  {
    hide Bounded, WrittenNode, WrittenIn, Without, Written, Find, Complete, Distinct, RootIds;
    if ids == [] {
      NothingIn(kids, grids);
    } else {
      var j := RestAmong(kids, ids);
      var left := Without(kids, j);
      WithoutParts(kids, j);
      HeadIn(kids, ids, j, grids);
      InParts(left, ids[1..], grids);
      CompleteWithout(kids, j, grids);
      BoundedNode(kids[j], grids);
      SubSums(multiset(WrittenNode(kids[j], grids)), multiset(Written([kids[j]])),
              multiset(WrittenIn(left, ids[1..], grids)), multiset(Written(left)));
    }
  }

  lemma HeadIn(kids: seq<Doc>, ids: seq<Id>, j: nat, grids: Grids)
    requires j < |kids| && Distinct(RootIds(kids)) && ids != [] && kids[j].id == ids[0] && ids[0] !in ids[1..]
    ensures WrittenIn(kids, ids, grids) == WrittenNode(kids[j], grids) + WrittenIn(Without(kids, j), ids[1..], grids)
  {
    hide WrittenNode, Without, Find, Distinct, RootIds;
    WithoutParts(kids, j);
    WrittenWithout(kids, j, ids[1..], grids);
  }

  lemma FindSome(kids: seq<Doc>, id: Id)
    ensures Find(kids, id).Some? <==> id in RootIds(kids)
  {}

  lemma BoundedNode(d: Doc, grids: Grids)
    requires Bounded(d, grids)
    ensures multiset(WrittenNode(d, grids)) <= multiset(Written([d]))
    ensures multiset(WrittenNode(d, grids)) == multiset(Written([d])) <==> Complete([d], grids)
  {}

  lemma InRoots(kids: seq<Doc>, k: Doc)
    requires k in kids
    ensures k.id in RootIds(kids)
  {
    RootIdsAre(kids);
    var i :| 0 <= i < |kids| && kids[i] == k;
    assert RootIds(kids)[i] == k.id;
  }

  lemma NothingIn(kids: seq<Doc>, grids: Grids)
    ensures WrittenIn(kids, [], grids) == []
    ensures multiset(Written(kids)) == multiset{} <==> kids == []
    ensures kids == [] ==> Complete(kids, grids)
    ensures kids != [] ==> kids[0] in kids
  {
    if kids != [] { assert kids[0].id in Written(kids); assert kids[0].id in multiset(Written(kids)); }
  }

  lemma IndexOf(kids: seq<Doc>, id: Id) returns (j: nat)
    requires id in RootIds(kids)
    ensures j < |kids| && kids[j].id == id
  {
    RootIdsAre(kids);
    var i :| 0 <= i < |RootIds(kids)| && RootIds(kids)[i] == id;
    j := i;
  }

  // ---- whole documents --------------------------------------------------------------------------------------------------

  lemma DistinctParts(f: seq<Doc>)
    requires f != [] && Distinct(Written(f))
    ensures Distinct(Written(f[0].kids)) && Distinct(Written(f[1..])) && Distinct(Written([f[0]]))
    ensures f[0].id !in Written(f[1..])
  {
    hide Distinct;
    var below, rest := Written(f[0].kids), Written(f[1..]);
    assert [f[0]][1..] == [];
    assert Written([f[0]]) == [f[0].id] + below && Written(f) == Written([f[0]]) + rest;
    DistinctHalves([f[0].id] + below, rest);
    DistinctHalves([f[0].id], below);
    assert f[0].id in [f[0].id] + below;
  }

  lemma {:induction false} RootsAmongWritten(f: seq<Doc>)
    requires Distinct(Written(f))
    ensures Distinct(RootIds(f)) && forall x :: x in RootIds(f) ==> x in Written(f)
    decreases |f|
  {
    hide Distinct;
    if f != [] {
      DistinctParts(f);
      RootsAmongWritten(f[1..]);
      DistinctOne(f[0].id);
      DistinctJoin([f[0].id], RootIds(f[1..]));
    } else {
      DistinctNothing();
    }
  }

  lemma DistinctOne(x: Id)
    ensures Distinct([x])
  {}

  lemma DistinctNothing()
    ensures Distinct<Id>([])
  {}

  lemma OrderFits(d: Doc, grids: Grids)
    requires (d.id in grids ==> Sited(d.kids, grids[d.id])) && Distinct(RootIds(d.kids))
    ensures Distinct(ChildOrder(d, grids)) && forall x :: x in ChildOrder(d, grids) ==> x in RootIds(d.kids)
    ensures (forall k :: k in d.kids ==> k.id in ChildOrder(d, grids))
            <==> (d.id in grids ==> forall k :: k in d.kids ==> k.id in CellIds(grids[d.id]))
  {
    if d.id in grids {
      var cells := grids[d.id];
      OrderedSorts(cells);
      SameIds(Ordered(cells), cells);
      forall x | x in CellIds(cells) ensures x in RootIds(d.kids) {
        var i :| 0 <= i < |cells| && CellIds(cells)[i] == x;
        assert cells[i] in cells;
      }
    } else {
      forall k | k in d.kids ensures k.id in RootIds(d.kids) { InRoots(d.kids, k); }
    }
  }

  /** Sorting neither repeats nor loses a widget. */
  lemma SameIds(a: seq<Cell>, b: seq<Cell>)
    requires multiset(a) == multiset(b) && Distinct(CellIds(b))
    ensures Distinct(CellIds(a)) && forall x :: x in CellIds(a) <==> x in CellIds(b)
  {
    forall i | 0 <= i < |a| ensures a[i] in b { assert a[i] in multiset(b); }
    forall i | 0 <= i < |b| ensures b[i] in a { assert b[i] in multiset(a); }
    forall i, j | 0 <= i < j < |a| ensures CellIds(a)[i] != CellIds(a)[j] {
      if a[i].widget == a[j].widget {
        var k :| 0 <= k < |b| && b[k] == a[i];
        var l :| 0 <= l < |b| && b[l] == a[j];
        assert CellIds(b)[k] == CellIds(b)[l];
        assert k == l;
        TwiceInMultiset(a, i, j);
        OnceInMultiset(b, k);
      }
    }
    forall x | x in CellIds(a) ensures x in CellIds(b) {
      var i :| 0 <= i < |a| && CellIds(a)[i] == x;
      var k :| 0 <= k < |b| && b[k] == a[i];
      assert CellIds(b)[k] == x;
    }
    forall x | x in CellIds(b) ensures x in CellIds(a) {
      var i :| 0 <= i < |b| && CellIds(b)[i] == x;
      var k :| 0 <= k < |a| && a[k] == b[i];
      assert CellIds(a)[k] == x;
    }
  }

  lemma TwiceInMultiset(a: seq<Cell>, i: nat, j: nat)
    requires i < j < |a| && a[i] == a[j]
    ensures multiset(a)[a[i]] >= 2
  {
    assert a == a[..i] + [a[i]] + a[i + 1..j] + [a[j]] + a[j + 1..];
  }

  lemma OnceInMultiset(b: seq<Cell>, k: nat)
    requires k < |b| && Distinct(CellIds(b))
    ensures multiset(b)[b[k]] == 1
  {
    assert b == b[..k] + [b[k]] + b[k + 1..];
    forall i | 0 <= i < |b| && i != k ensures b[i] != b[k] { assert CellIds(b)[i] == b[i].widget && CellIds(b)[k] == b[k].widget; }
    assert b[k] !in b[..k] && b[k] !in b[k + 1..];
  }

  lemma {:induction false} NodeBounded(d: Doc, grids: Grids)
    requires Distinct(Written([d])) && CellsFit([d], grids)
    ensures Bounded(d, grids)
    decreases d, 0
  {
    hide Distinct, Written, WrittenIn, WrittenNode, ChildOrder, Sited, Complete, CellsFit;
    DistinctParts([d]);
    RootsAmongWritten(d.kids);
    NodeParts(d, grids);
    OrderFits(d, grids);
    AllBounded(d.kids, grids);
    InParts(d.kids, ChildOrder(d, grids), grids);
    NodeSplits(d, grids);
    SubSums(multiset{d.id}, multiset{d.id}, multiset(WrittenIn(d.kids, ChildOrder(d, grids), grids)), multiset(Written(d.kids)));
  }

  lemma NodeParts(d: Doc, grids: Grids)
    ensures CellsFit([d], grids) ==> (d.id in grids ==> Sited(d.kids, grids[d.id])) && CellsFit(d.kids, grids)
    ensures Complete([d], grids)
            <==> (d.id in grids ==> forall k :: k in d.kids ==> k.id in CellIds(grids[d.id])) && Complete(d.kids, grids)
  {
    assert [d][1..] == [];
  }

  lemma NodeSplits(d: Doc, grids: Grids)
    ensures multiset(WrittenNode(d, grids)) == multiset{d.id} + multiset(WrittenIn(d.kids, ChildOrder(d, grids), grids))
    ensures multiset(Written([d])) == multiset{d.id} + multiset(Written(d.kids))
  {
    assert [d][1..] == [];
  }

  lemma {:induction false} AllBounded(f: seq<Doc>, grids: Grids)
    requires Distinct(Written(f)) && CellsFit(f, grids)
    ensures forall k :: k in f ==> Bounded(k, grids)
    decreases f
  {
    hide Bounded;
    if f != [] {
      DistinctParts(f);
      FitsAlone(f, grids);
      NodeBounded(f[0], grids);
      AllBounded(f[1..], grids);
    }
  }

  lemma FitsAlone(f: seq<Doc>, grids: Grids)
    requires f != [] && CellsFit(f, grids)
    ensures CellsFit([f[0]], grids)
  {
    assert [f[0]][1..] == [];
  }

  /**
   Whatever the grids: nothing is written that tree order does not hold, nothing more often, and everything
   is written if and only if every child of a widget with a grid has a cell.
   */
  lemma GridsLoseOnlyCellless(f: seq<Doc>, grids: Grids)
    requires Distinct(Written(f)) && CellsFit(f, grids)
    ensures multiset(WrittenIn(f, RootIds(f), grids)) <= multiset(Written(f))
    ensures multiset(WrittenIn(f, RootIds(f), grids)) == multiset(Written(f)) <==> Complete(f, grids)
  {
    RootsAmongWritten(f);
    AllBounded(f, grids);
    InParts(f, RootIds(f), grids);
    forall k | k in f ensures k.id in RootIds(f) { InRoots(f, k); }
  }

  // ---- tree order -----------------------------------------------------------------------------------------------------------

  predicate InTreeOrder(d: Doc, grids: Grids) { WrittenNode(d, grids) == Written([d]) }

  lemma LengthsOf(a: seq<Id>, b: seq<Id>)
    requires multiset(a) <= multiset(b)
    ensures |a| <= |b|
  {
    assert |a| == |multiset(a)|;
    assert multiset(b) == multiset(a) + (multiset(b) - multiset(a));
    assert |b| == |multiset(b)|;
  }

  lemma FirstOf(kids: seq<Doc>, ids: seq<Id>, grids: Grids)
    requires kids != [] && ids != [] && Distinct(ids) && Distinct(RootIds(kids)) && ids[0] == kids[0].id
    ensures WrittenIn(kids, ids, grids) == WrittenNode(kids[0], grids) + WrittenIn(kids[1..], ids[1..], grids)
    ensures Written(kids) == Written([kids[0]]) + Written(kids[1..])
    ensures Distinct(ids[1..]) && Distinct(RootIds(kids[1..])) && forall x :: x in ids[1..] && x in RootIds(kids) ==> x in RootIds(kids[1..])
  {
    hide Written, WrittenNode;
    assert kids == [kids[0]] + kids[1..];
    TailApart(ids);
    DistinctHalves([kids[0].id], RootIds(kids[1..]));
    WithoutParts(kids, 0);
    assert Without(kids, 0) == kids[1..];
    WrittenWithout(kids, 0, ids[1..], grids);
    WrittenConcat([kids[0]], kids[1..]);
  }

  lemma HeadsOf(kids: seq<Doc>, ids: seq<Id>, grids: Grids)
    requires forall x :: x in ids ==> x in RootIds(kids)
    ensures ids != [] ==> WrittenIn(kids, ids, grids) != [] && WrittenIn(kids, ids, grids)[0] == ids[0]
    ensures kids != [] ==> Written(kids) != [] && Written(kids)[0] == kids[0].id
    ensures kids == [] ==> ids == [] && RootIds(kids) == [] && Written(kids) == []
  {
    if ids != [] { assert ids[0] in RootIds(kids); }
  }

  lemma {:induction false} SameOrder(kids: seq<Doc>, ids: seq<Id>, grids: Grids)
    requires Distinct(ids) && Distinct(RootIds(kids)) && (forall x :: x in ids ==> x in RootIds(kids))
    requires forall k :: k in kids ==> Bounded(k, grids)
    ensures WrittenIn(kids, ids, grids) == Written(kids)
            <==> ids == RootIds(kids) && forall k :: k in kids ==> InTreeOrder(k, grids)
    decreases |kids|
  {
    hide Bounded, WrittenNode, WrittenIn, Written, Distinct;
    HeadsOf(kids, ids, grids);
    if kids == [] {
      NothingIn(kids, grids);
    } else if ids == [] {
      NothingIn(kids, grids);
      assert RootIds(kids) != [];
    } else if ids[0] != kids[0].id {
      assert RootIds(kids)[0] == kids[0].id;
    } else {
      FirstOf(kids, ids, grids);
      SameOrder(kids[1..], ids[1..], grids);
      InParts(kids[1..], ids[1..], grids);
      BoundedNode(kids[0], grids);
      LengthsOf(WrittenNode(kids[0], grids), Written([kids[0]]));
      LengthsOf(WrittenIn(kids[1..], ids[1..], grids), Written(kids[1..]));
      JoinsAgree(WrittenNode(kids[0], grids), Written([kids[0]]), WrittenIn(kids[1..], ids[1..], grids), Written(kids[1..]));
      assert RootIds(kids) == [kids[0].id] + RootIds(kids[1..]) && ids == [ids[0]] + ids[1..];
      assert ids[1..] == RootIds(kids[1..]) <==> ids == RootIds(kids) by {
        if ids == RootIds(kids) { assert ids[1..] == RootIds(kids)[1..]; }
      }
      assert kids == [kids[0]] + kids[1..];
      assert (forall k :: k in kids ==> InTreeOrder(k, grids))
             <==> InTreeOrder(kids[0], grids) && forall k :: k in kids[1..] ==> InTreeOrder(k, grids);
      assert InTreeOrder(kids[0], grids) <==> WrittenNode(kids[0], grids) == Written([kids[0]]);
    }
  }

  lemma JoinsAgree(a: seq<Id>, b: seq<Id>, c: seq<Id>, d: seq<Id>)
    requires |a| <= |b| && |c| <= |d|
    ensures a + c == b + d <==> a == b && c == d
  {
    if a + c == b + d {
      assert |a| == |b|;
      assert (a + c)[..|a|] == a && (b + d)[..|b|] == b && (a + c)[|a|..] == c && (b + d)[|b|..] == d;
    }
  }

  lemma {:induction false} NodeInOrder(d: Doc, grids: Grids)
    requires Distinct(Written([d])) && CellsFit([d], grids)
    ensures InTreeOrder(d, grids) <==> Listed([d], grids)
    decreases d, 0
  {
    hide Distinct, WrittenIn, Bounded, ChildOrder, Sited, CellsFit;
    assert [d][1..] == [];
    DistinctParts([d]);
    RootsAmongWritten(d.kids);
    NodeParts(d, grids);
    OrderFits(d, grids);
    AllBounded(d.kids, grids);
    SameOrder(d.kids, ChildOrder(d, grids), grids);
    AllInOrder(d.kids, grids);
    JoinsAgree([d.id], [d.id], WrittenIn(d.kids, ChildOrder(d, grids), grids), WrittenIn(d.kids, ChildOrder(d, grids), grids));
    NodeAgrees(d, grids);
  }

  lemma NodeAgrees(d: Doc, grids: Grids)
    ensures InTreeOrder(d, grids) <==> WrittenIn(d.kids, ChildOrder(d, grids), grids) == Written(d.kids)
    ensures Listed([d], grids) <==> ChildOrder(d, grids) == RootIds(d.kids) && Listed(d.kids, grids)
  {
    hide ChildOrder, WrittenIn;
    assert [d][1..] == [];
    var a, b := WrittenIn(d.kids, ChildOrder(d, grids), grids), Written(d.kids);
    assert ([d.id] + a)[1..] == a && ([d.id] + b)[1..] == b;
    assert Written([d]) == [d.id] + b;
  }

  lemma {:induction false} AllInOrder(f: seq<Doc>, grids: Grids)
    requires Distinct(Written(f)) && CellsFit(f, grids)
    ensures (forall k :: k in f ==> InTreeOrder(k, grids)) <==> Listed(f, grids)
    decreases f
  {
    hide InTreeOrder, ChildOrder, Distinct, Sited;
    if f != [] {
      DistinctParts(f);
      FitsAlone(f, grids);
      NodeInOrder(f[0], grids);
      AllInOrder(f[1..], grids);
      assert f == [f[0]] + f[1..];
      assert [f[0]][1..] == [];
    }
  }

  /** The document is written in tree order if and only if every grid has a cell per child, in the order of the kept list. */
  lemma GridsKeepTreeOrder(f: seq<Doc>, grids: Grids)
    requires Distinct(Written(f)) && CellsFit(f, grids)
    ensures WrittenIn(f, RootIds(f), grids) == Written(f) <==> Listed(f, grids)
  {
    RootsAmongWritten(f);
    AllBounded(f, grids);
    SameOrder(f, RootIds(f), grids);
    AllInOrder(f, grids);
  }

  lemma TwoKids(two: Doc, three: Doc, grids: Grids)
    requires two.kids == [] && three.kids == [] && two.id !in grids && three.id !in grids && two.id != three.id
    ensures WrittenIn([two, three], [three.id], grids) == [three.id]
    ensures WrittenIn([two, three], [three.id, two.id], grids) == [three.id, two.id]
  {
    var kids, a, b := [two, three], two.id, three.id;
    assert kids[1..] == [three] && [three][1..] == [];
    assert [b, a][1..] == [a] && [b][1..] == [] && [a][1..] == [];
    LeafWritten(two, grids);
    LeafWritten(three, grids);
    assert Find(kids, a) == Some(two) && Find([three], b) == Some(three) && Find(kids, b) == Some(three);
    assert WrittenIn(kids, [], grids) == [];
    assert WrittenIn(kids, [a], grids) == [a] + [] && WrittenIn(kids, [b], grids) == [b] + [];
    assert WrittenIn(kids, [b, a], grids) == [b] + [a];
  }

  lemma OneRoot(d: Doc, grids: Grids)
    ensures WrittenIn([d], RootIds([d]), grids) == [d.id] + WrittenIn(d.kids, ChildOrder(d, grids), grids)
  {
    assert [d][1..] == [] && [d.id][1..] == [] && RootIds([d]) == [d.id];
  }

  /**
   A grid of two children: with a cell for only one of them the other is lost, and cells in another order
   than the list change the order that is written.
   */
  lemma CelllessIsLost()
    ensures var f := [Doc(1, [Doc(2, []), Doc(3, [])])];
            && Written(f) == [1, 2, 3]
            && WrittenIn(f, RootIds(f), map[1 := [Cell(0, 0, 1, 1, 3)]]) == [1, 3]
            && WrittenIn(f, RootIds(f), map[1 := [Cell(1, 0, 1, 1, 2), Cell(0, 0, 1, 1, 3)]]) == [1, 3, 2]
  {
    hide WrittenIn;
    var two, three := Doc(2, []), Doc(3, []);
    var d := Doc(1, [two, three]);
    assert [two, three][1..] == [three] && [three][1..] == [] && [d][1..] == [];
    var low, high := Cell(1, 0, 1, 1, 2), Cell(0, 0, 1, 1, 3);
    assert [high][1..] == [] && [low, high][1..] == [high];
    var one: Grids, both: Grids := map[1 := [high]], map[1 := [low, high]];
    assert Ordered([]) == [] && Insert(high, []) == [high] && Ordered([high]) == [high];
    assert Insert(low, []) == [low] && Insert(low, [high]) == [high] + [low] && Ordered([low, high]) == [high, low];
    assert ChildOrder(d, one) == [3] && ChildOrder(d, both) == [3, 2];
    TwoKids(two, three, one);
    TwoKids(two, three, both);
    OneRoot(d, one);
    OneRoot(d, both);
  }

  lemma LeafWritten(d: Doc, grids: Grids)
    requires d.kids == [] && d.id !in grids
    ensures WrittenNode(d, grids) == [d.id]
  {}
}
