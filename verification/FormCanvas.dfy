/**
 The designer canvas: the list of design widgets, the selection and drop target, deleting a widget
 with everything below it, clearing the canvas, and moving a widget into another container.
 */
module FormCanvas {
  import opened Arith
  import opened Geometry
  import opened Sequences
  import opened Text
  import opened WidgetTree
  import opened CanvasMoves

  lemma EmptyOrHasFirst(s: seq<Id>)
    ensures s == [] || s[0] in s
  {
  }

  // ---- what is freed --------------------------------------------------------------------------------------------------------

  /** Between two states of the log every widget of `gone` was freed once, and nothing else was. */
  ghost predicate FreedExactly(before: seq<Id>, after: seq<Id>, gone: set<Id>) {
    && before <= after && Distinct(after[|before|..])
    && forall x :: x in gone <==> x in after[|before|..]
  }

  /** No widget stands after one it is below: children before their parents. */
  ghost predicate BottomUp(parent: Links, s: seq<Id>) { forall i, j :: 0 <= i < j < |s| ==> !Inside(parent, s[j], s[i]) }

  lemma BottomUpMore(parent: Links, gone: set<Id>, s: seq<Id>, t: seq<Id>)
    requires Closed(parent, gone) && BottomUp(parent, s) && (forall x :: x in s ==> x in gone)
    requires BottomUp(Pruned(parent, gone), t) && (forall x :: x in t ==> x !in gone)
    ensures BottomUp(parent, s + t)
  {
    forall i, j | 0 <= i < j < |s + t| ensures !Inside(parent, (s + t)[j], (s + t)[i]) {
      if i < |s| <= j {
        var x, a := t[j - |s|], s[i];
        assert x !in gone && a in gone;
        InsideKept(parent, gone, x, a);
      } else if |s| <= i {
        var x := t[j - |s|];
        assert x !in gone;
        InsideKept(parent, gone, x, t[i - |s|]);
      }
    }
  }

  lemma NothingOrdered(parent: Links, log: seq<Id>)
    ensures BottomUp(parent, log[|log|..])
  {
  }

  lemma FreedNothing(log: seq<Id>)
    ensures FreedExactly(log, log, {})
  {
  }

  lemma FreedOne(log: seq<Id>, w: Id)
    ensures FreedExactly(log, log + [w], {w})
  {
    assert (log + [w])[|log|..] == [w];
  }

  lemma FreedMore(a: seq<Id>, b: seq<Id>, c: seq<Id>, g: set<Id>, h: set<Id>)
    requires FreedExactly(a, b, g) && FreedExactly(b, c, h) && g !! h
    ensures FreedExactly(a, c, g + h)
  {
    var s, t := b[|a|..], c[|b|..];
    assert c[|a|..] == s + t;
    forall i, j | 0 <= i < j < |s + t| ensures (s + t)[i] != (s + t)[j] {
      if i < |s| <= j { assert s[i] in g && t[j - |s|] in h; }
    }
  }

  /** What is freed later, among the widgets left, keeps the order. */
  lemma OrderMore(parent: Links, gone: set<Id>, a: seq<Id>, b: seq<Id>, c: seq<Id>, more: set<Id>)
    requires Closed(parent, gone) && FreedExactly(a, b, gone) && FreedExactly(b, c, more) && gone !! more
    requires BottomUp(parent, b[|a|..]) && BottomUp(Pruned(parent, gone), c[|b|..])
    ensures BottomUp(parent, c[|a|..])
  {
    hide BottomUp;
    assert c[|a|..] == b[|a|..] + c[|b|..];
    BottomUpMore(parent, gone, b[|a|..], c[|b|..]);
  }

  lemma OneOrdered(parent: Links, log: seq<Id>, w: Id)
    ensures BottomUp(parent, (log + [w])[|log|..])
  {
    assert (log + [w])[|log|..] == [w];
  }

  lemma BelowSnoc(parent: Links, roots: seq<Id>, w: Id)
    ensures Below(parent, roots + [w]) == Below(parent, roots) + Subtree(parent, w)
  {
    forall x | x in Below(parent, roots + [w]) ensures x in Below(parent, roots) + Subtree(parent, w) {
      var r :| r in roots + [w] && Inside(parent, x, r);
    }
    forall x | x in Subtree(parent, w) ensures x in Below(parent, roots + [w]) { assert w in roots + [w]; }
    forall x | x in Below(parent, roots) ensures x in Below(parent, roots + [w]) {
      var r :| r in roots && Inside(parent, x, r);
      assert r in roots + [w];
    }
  }

  lemma BelowClosed(parent: Links, roots: seq<Id>)
    ensures Closed(parent, Below(parent, roots))
  {
    forall x | x in parent && parent[x] in Below(parent, roots) ensures x in Below(parent, roots) {
      var w :| w in roots && Inside(parent, parent[x], w);
      InsideStep(parent, x, w);
    }
  }

  lemma SubtreeWithout(parent: Links, gone: set<Id>, a: Id)
    requires Closed(parent, gone)
    ensures Subtree(Pruned(parent, gone), a) == Subtree(parent, a) - gone
    ensures Pruned(Pruned(parent, gone), Subtree(parent, a) - gone) == Pruned(parent, gone + Subtree(parent, a))
  {
    forall x | x in parent && x !in gone ensures Inside(Pruned(parent, gone), x, a) <==> Inside(parent, x, a) {
      InsideKept(parent, gone, x, a);
    }
  }

  lemma BelowDownward(parent: Links, roots: seq<Id>, w: Id)
    requires w in Below(parent, roots)
    ensures Subtree(parent, w) <= Below(parent, roots)
  {
    var r :| r in roots && Inside(parent, w, r);
    forall x | x in Subtree(parent, w) ensures x in Below(parent, roots) { InsideTrans(parent, x, w, r); }
  }

  /** One round of the destructor's loop over children. */
  lemma DeleteStep(parent: Links, w: Id, gone: set<Id>, c: Id)
    requires Forest(parent) && w in parent && gone <= Subtree(parent, w) && Closed(parent, gone) && w !in gone
    requires c in Pruned(parent, gone) && parent[c] == w
    ensures Forest(Pruned(parent, gone))
    ensures gone + Subtree(parent, c) <= Subtree(parent, w) && Closed(parent, gone + Subtree(parent, c))
    ensures w !in gone + Subtree(parent, c) && c in Subtree(parent, c)
    ensures Subtree(Pruned(parent, gone), c) < Subtree(parent, w)
  {
    SubtreeWithout(parent, gone, c);
    ForestKept(parent, gone) by { forall x | x in gone ensures x in parent {} }
    SubtreeClosed(parent, c);
    InsideSelf(parent, c);
    InsideSelf(parent, w);
    InsideStep(parent, c, w);
    forall x | x in Subtree(parent, c) ensures x in Subtree(parent, w) { InsideTrans(parent, x, c, w); }
    if Inside(parent, w, c) {
      ForestAntisymmetric(parent, w, c);
      var n: nat :| Up(parent, w, n) == Some(ROOT);
      assert Up(parent, w, 1) == Some(w);
      LoopNeverEnds(parent, w, 1, n);
    }
    assert w in Subtree(parent, w) && w !in Subtree(Pruned(parent, gone), c);
  }

  lemma RootOutside(parent: Links, w: Id)
    requires Forest(parent)
    ensures ROOT !in Subtree(parent, w)
  {
  }

  lemma LogStaysSound(before: seq<Id>, after: seq<Id>, parent: Links, gone: set<Id>, nextId: Id)
    requires Distinct(before) && FreedExactly(before, after, gone) && gone <= parent.Keys
    requires forall x :: x in parent ==> x < nextId && x !in before
    requires forall x :: x in before ==> x < nextId
    ensures Distinct(after) && forall x :: x in after ==> x < nextId && x !in Pruned(parent, gone)
    ensures forall x :: x in after ==> x in before || x in gone
  {
    var tail := after[|before|..];
    assert after == before + tail;
    forall i, j | 0 <= i < j < |after| ensures after[i] != after[j] {
      if i < |before| <= j { assert tail[j - |before|] in gone && before[i] in before; }
    }
  }

  // ---- the list of design widgets ------------------------------------------------------------------------------------------

  /** The widgets of `s` that are not inside `w`, in order. */
  ghost function Outside(s: seq<Id>, parent: Links, w: Id): (r: seq<Id>)
    ensures forall x :: x in r <==> x in s && !Inside(parent, x, w)
    ensures Distinct(s) ==> Distinct(r)
  {
    if s == [] then []
    else
      var last := |s| - 1;
      assert s == s[..last] + [s[last]];
      Outside(s[..last], parent, w) + if Inside(parent, s[last], w) then [] else [s[last]]
  }

  /** The rest of a list stays in its order. */
  lemma {:induction false} OutsideJoin(a: seq<Id>, b: seq<Id>, parent: Links, w: Id)
    ensures Outside(a + b, parent, w) == Outside(a, parent, w) + Outside(b, parent, w)
    decreases |b|
  {
    hide Inside, Outside;
    NothingOutside(parent, w);
    if b == [] { assert a + b == a; }
    else {
      var n := |b| - 1;
      OutsideJoin(a, b[..n], parent, w);
      OutsideLast(a + b[..n], b[n], parent, w);
      OutsideLast(b[..n], b[n], parent, w);
      assert a + b == (a + b[..n]) + [b[n]] && b == b[..n] + [b[n]];
    }
  }

  lemma OutsideLast(s: seq<Id>, x: Id, parent: Links, w: Id)
    ensures Outside(s + [x], parent, w) == Outside(s, parent, w) + if Inside(parent, x, w) then [] else [x]
  {
    hide Inside;
    var t := s + [x];
    assert t != [] && t[..|t| - 1] == s && t[|t| - 1] == x;
  }

  lemma NothingOutside(parent: Links, w: Id)
    ensures Outside([], parent, w) == []
  {
  }

  lemma OutsideSnoc(s: seq<Id>, i: nat, parent: Links, w: Id)
    requires i < |s|
    ensures Outside(s[..i + 1], parent, w) == Outside(s[..i], parent, w) + if Inside(parent, s[i], w) then [] else [s[i]]
  {
    hide Inside;
    var t := s[..i + 1];
    assert t != [] && t[..|t| - 1] == s[..i] && t[|t| - 1] == s[i];
  }

  // ---- the container under the cursor ---------------------------------------------------------------------------------------

  function Area(r: Rect): int { Max(0, r.width) * Max(0, r.height) }

  predicate Covers(r: Rect, x: int, y: int) { r.x <= x <= r.x + r.width && r.y <= y <= r.y + r.height }

  /** A rectangle covers every point from its top left to its bottom right corner, both included, and no other. */
  lemma CoversItsPoints(r: Rect, dx: int, dy: int)
    ensures Covers(r, r.x + dx, r.y + dy) <==> 0 <= dx <= r.width && 0 <= dy <= r.height
  {
  }

  /** Widgets are compared by area: width times height, and nothing when there is no extent. */
  lemma AreaIsProduct(r: Rect)
    ensures r.width >= 0 && r.height >= 0 ==> Area(r) == r.width * r.height
    ensures r.width <= 0 || r.height <= 0 ==> Area(r) == 0
  {
  }

  /** So of two containers one inside the other the inner one is never larger, and smaller if it is narrower or lower. */
  lemma InnerIsSmaller(a: Rect, b: Rect)
    requires 0 < a.width <= b.width && 0 < a.height <= b.height
    ensures Area(a) <= Area(b) && (a.width < b.width || a.height < b.height ==> Area(a) < Area(b))
  {
    AreaIsProduct(a);
    AreaIsProduct(b);
    assert a.width * a.height <= b.width * a.height && b.width * a.height <= b.width * b.height by {
      TimesMonotone(a.width, b.width, a.height);
      TimesMonotone(a.height, b.height, b.width);
    }
    if a.width < b.width { TimesMonotone(a.width + 1, b.width, a.height); }
    if a.height < b.height { TimesMonotone(a.height + 1, b.height, b.width); }
  }

  lemma TimesMonotone(a: int, b: int, c: int)
    requires a <= b && 0 <= c
    ensures a * c <= b * c && a * c == c * a
  {
  }

  /** A shown container under the cursor that is not inside the ignored widget. */
  ghost predicate Eligible(parent: Links, kinds: map<Id, Kind>, ignore: Option<Id>, w: Id, shown: bool, r: Rect, x: int, y: int) {
    && (ignore.Some? ==> !Inside(parent, w, ignore.value))
    && w in kinds && !kinds[w].Plain? && shown && Covers(r, x, y)
  }

  /** Who never takes a drop: a widget that is no container or not shown, one away from the cursor, and the ignored widget with all inside it. */
  lemma NeverEligible(parent: Links, kinds: map<Id, Kind>, ignore: Option<Id>, w: Id, shown: bool, r: Rect, x: int, y: int)
    requires w !in kinds || kinds[w].Plain? || !shown || x < r.x || y < r.y || x > r.x + r.width || y > r.y + r.height
             || (ignore.Some? && (w == ignore.value || Inside(parent, w, ignore.value)))
    ensures !Eligible(parent, kinds, ignore, w, shown, r, x, y)
  {
    if ignore.Some? { InsideSelf(parent, w); }
  }

  // ---- the canvas ----------------------------------------------------------------------------------------------------------------

  class Canvas {
    var parent: Links
    var kinds: map<Id, Kind>
    var inner: map<Id, Id>          // content of a scroll area, current page of a tab or stacked widget
    var designWidgets: seq<Id>
    var selected: Option<Id>
    var dropTarget: Option<Id>
    var nextId: Id                  // ids are never used twice
    var freed: seq<Id>              // every object deleted so far, in order

    predicate Live(x: Id)
      reads this
    {
      Alive(parent, x)
    }

    predicate PointsToLive(p: Option<Id>)
      reads this
    {
      p.Some? ==> Live(p.value)
    }

    /** Everything but the shape of the links. */
    ghost predicate Sound()
      reads this
    {
      && ROOT < nextId && ROOT !in freed && ROOT !in kinds && ROOT !in inner
      && (forall x :: x in parent ==> x < nextId && x !in freed)
      && (forall x :: x in freed ==> x < nextId)
      && (forall c :: c in inner ==> inner[c] < nextId)
      && (forall c :: c in kinds && kinds[c].ScrollArea? ==> kinds[c].viewport < nextId)
      && Distinct(freed)
      && Distinct(designWidgets) && (forall w :: w in designWidgets ==> w in parent)
      && PointsToLive(selected) && PointsToLive(dropTarget)
    }

    ghost predicate Valid()
      reads this
    {
      Forest(parent) && Sound()
    }

    constructor ()
      ensures Valid() && parent == map[] && designWidgets == [] && freed == []
    {
      parent, kinds, inner := map[], map[], map[];
      designWidgets, selected, dropTarget := [], None, None;
      nextId, freed := 1, [];
    }

    /** The walk up the parent links. */
    method IsDescendantOf(child: Id, ancestor: Id) returns (r: bool)
      requires Forest(parent) && Live(child)
      ensures r == Inside(parent, child, ancestor)
    {
      InsideSelf(parent, ROOT);
      ghost var n: nat :| Up(parent, child, n) == Some(ROOT);
      var p := child;
      while p != ancestor && p in parent
        invariant Up(parent, p, n) == Some(ROOT)
        invariant Inside(parent, child, ancestor) == Inside(parent, p, ancestor)
        decreases n
      {
        InsideStep(parent, p, ancestor);
        p, n := parent[p], n - 1;
      }
      InsideSelf(parent, p);
      if p != ancestor { forall k: nat ensures Up(parent, p, k) != Some(ancestor) {} }
      r := p == ancestor;
    }

    method SetSelected(w: Option<Id>)
      modifies `selected
      ensures selected == w
    {
      if selected != w { selected := w; }
    }

    /** `register`: a widget is listed once, however often it is registered. */
    method RegisterDesignWidget(w: Option<Id>)
      requires Valid() && (w.Some? ==> w.value in parent)
      modifies `designWidgets
      ensures Valid()
      ensures designWidgets == old(designWidgets) + if w.None? || w.value in old(designWidgets) then [] else [w.value]
    {
      if w.None? || w.value in designWidgets { return; }
      designWidgets := designWidgets + [w.value];
    }

    // ---- deleting ----

    ghost predicate Unused(x: Id)
      reads this
    {
      x !in designWidgets && selected != Some(x) && dropTarget != Some(x)
    }

    /** The end of one object's life; nobody points to it any more. */
    method Free(x: Id)
      requires x in parent && Unused(x)
      requires forall c :: c in parent ==> parent[c] != x
      modifies `parent, `freed
      ensures parent == Pruned(old(parent), {x}) && freed == old(freed) + [x]
    {
      parent := map y | y in parent && y != x :: parent[y];
      freed := freed + [x];
    }

    /** The destructor: the children first, in any order, each with everything below it. */
    method Delete(w: Id)
      requires Forest(parent) && w in parent
      requires forall x :: x in Subtree(parent, w) ==> Unused(x)
      modifies `parent, `freed
      ensures parent == Pruned(old(parent), Subtree(old(parent), w))
      ensures old(freed) <= freed && FreedExactly(old(freed), freed, Subtree(old(parent), w))
      ensures BottomUp(old(parent), freed[|old(freed)|..])
      decreases Subtree(parent, w)
    {
      hide Inside, Forest, FreedExactly, BottomUp;
      ghost var links, log := parent, freed;
      FreedNothing(log);
      NothingOrdered(links, log);
      ghost var gone: set<Id> := {};
      assert Pruned(links, {}) == links;
      InsideSelf(links, w);
      while exists c :: c in parent && parent[c] == w
        invariant gone <= Subtree(links, w) && Closed(links, gone) && w !in gone
        invariant parent == Pruned(links, gone) && FreedExactly(log, freed, gone)
        invariant log <= freed && BottomUp(links, freed[|log|..])
        decreases parent.Keys
      {
        var c :| c in parent && parent[c] == w;
        DeleteStep(links, w, gone, c);
        SubtreeWithout(links, gone, c);
        ghost var logNow := freed;
        Delete(c);
        OrderMore(links, gone, log, logNow, freed, Subtree(links, c) - gone);
        FreedMore(log, logNow, freed, gone, Subtree(links, c) - gone);
        assert gone + (Subtree(links, c) - gone) == gone + Subtree(links, c);
        gone := gone + Subtree(links, c);
      }
      assert forall c :: c in links && c !in gone ==> c in parent;
      ClosedIsSubtree(links, w, gone);
      ghost var logNow := freed;
      Free(w);
      FreedOne(logNow, w);
      OneOrdered(Pruned(links, gone), logNow, w);
      OrderMore(links, gone, log, logNow, freed, {w});
      FreedMore(log, logNow, freed, gone, {w});
    }

    /**
     Removes a listed widget: it and everything below it are freed, once each, after the list, the
     selection and the drop target have let go of them; nothing else changes.
     */
    method RemoveDesignWidget(w: Option<Id>) returns (removed: bool)
      requires Valid()
      modifies `parent, `freed, `designWidgets, `selected, `dropTarget
      ensures Valid()
      ensures removed == (w.Some? && w.value in old(designWidgets))
      ensures !removed ==> parent == old(parent) && freed == old(freed) && designWidgets == old(designWidgets)
                           && selected == old(selected) && dropTarget == old(dropTarget)
      ensures removed ==>
                && parent == Pruned(old(parent), Subtree(old(parent), w.value))
                && FreedExactly(old(freed), freed, Subtree(old(parent), w.value))
                && BottomUp(old(parent), freed[|old(freed)|..])
                && designWidgets == Outside(old(designWidgets), old(parent), w.value)
                && selected == Cleared(old(selected), old(parent), w.value)
                && dropTarget == Cleared(old(dropTarget), old(parent), w.value)
      ensures removed && ContentsAlive(old(parent), inner) ==>
                (ContentsAlive(parent, inner)
                 <==> forall c :: c in inner && c in old(parent) && Inside(old(parent), inner[c], w.value) ==> Inside(old(parent), c, w.value))
    {
      hide Inside, Forest, FreedExactly, BottomUp, ContentsAlive, Outside, Pruned;
      if w.None? || w.value !in designWidgets { return false; }
      if ContentsAlive(parent, inner) { RemovalKeepsContents(parent, inner, w.value); }
      LetGo(w.value);
      DeleteReleased(w.value);
      removed := true;
    }

    /** The second half of a removal: nothing refers to the widget or to anything below it any more. */
    method DeleteReleased(w: Id)
      requires Valid() && w in parent && forall x :: x in Subtree(parent, w) ==> Unused(x)
      modifies `parent, `freed
      ensures Valid() && parent == Pruned(old(parent), Subtree(old(parent), w))
      ensures FreedExactly(old(freed), freed, Subtree(old(parent), w)) && old(freed) <= freed
      ensures BottomUp(old(parent), freed[|old(freed)|..])
    {
      hide Inside, Forest, FreedExactly, BottomUp;
      SubtreeClosed(parent, w);
      ghost var links, log := parent, freed;
      Delete(w);
      RootOutside(links, w);
      ForestKept(links, Subtree(links, w));
      LogStaysSound(log, freed, links, Subtree(links, w), nextId);
    }

    /** List, selection and drop target let go of a widget and of everything below it. */
    method LetGo(w: Id)
      requires Valid()
      modifies `designWidgets, `selected, `dropTarget
      ensures designWidgets == Outside(old(designWidgets), parent, w)
      ensures selected == Cleared(old(selected), parent, w) && dropTarget == Cleared(old(dropTarget), parent, w)
      ensures Valid() && forall x :: x in Subtree(parent, w) ==> Unused(x)
    {
      hide Inside, Forest, Distinct, Outside;
      DropPointers(w);
      EraseInside(w);
    }

    method DropPointers(w: Id)
      requires Valid()
      modifies `selected, `dropTarget
      ensures selected == Cleared(old(selected), parent, w) && dropTarget == Cleared(old(dropTarget), parent, w)
      ensures Valid()
    {
      hide Inside, Forest, Distinct;
      var dropSelection := PointsInside(selected, w);
      if dropSelection { SetSelected(None); }
      var dropDropTarget := PointsInside(dropTarget, w);
      if dropDropTarget { dropTarget := None; }
    }

    method PointsInside(p: Option<Id>, w: Id) returns (r: bool)
      requires Forest(parent) && PointsToLive(p)
      ensures r == (p.Some? && Inside(parent, p.value, w))
    {
      r := false;
      if p.Some? { r := IsDescendantOf(p.value, w); }
    }

    static ghost function Cleared(p: Option<Id>, parent: Links, w: Id): Option<Id> {
      if p.Some? && Inside(parent, p.value, w) then None else p
    }

    method EraseInside(w: Id)
      requires Forest(parent) && forall d :: d in designWidgets ==> d in parent
      modifies `designWidgets
      ensures designWidgets == Outside(old(designWidgets), parent, w)
    {
      hide Inside, Forest, Outside;
      var list, kept := designWidgets, [];
      NothingOutside(parent, w);
      for i := 0 to |list|
        invariant kept == Outside(list[..i], parent, w)
      {
        OutsideSnoc(list, i, parent, w);
        var inside := IsDescendantOf(list[i], w);
        if !inside { kept := kept + [list[i]]; }
      }
      assert list[..|list|] == list;
      designWidgets := kept;
    }

    /** One round of a clearing: `gone` is what earlier rounds freed, perhaps with this widget among it. */
    method RemoveNext(w: Id, ghost links: Links, ghost log: seq<Id>, ghost gone: set<Id>)
      requires Valid() && Closed(links, gone) && parent == Pruned(links, gone)
      requires FreedExactly(log, freed, gone) && log <= freed && BottomUp(links, freed[|log|..])
      requires w in designWidgets <==> w !in gone
      requires w in gone ==> Subtree(links, w) <= gone
      modifies `parent, `freed, `designWidgets, `selected, `dropTarget
      ensures Valid() && parent == Pruned(links, gone + Subtree(links, w))
      ensures FreedExactly(log, freed, gone + Subtree(links, w)) && log <= freed && BottomUp(links, freed[|log|..])
      ensures forall x :: x in designWidgets <==> x in old(designWidgets) && x !in Subtree(links, w)
    {
      hide Inside, Forest, FreedExactly, Distinct, ContentsAlive, BottomUp;
      ghost var logNow := freed;
      SubtreeWithout(links, gone, w);
      forall x | x in designWidgets ensures Inside(parent, x, w) <==> Inside(links, x, w) { InsideKept(links, gone, x, w); }
      var removed := RemoveDesignWidget(Some(w));
      if removed {
        OrderMore(links, gone, log, logNow, freed, Subtree(links, w) - gone);
        FreedMore(log, logNow, freed, gone, Subtree(links, w) - gone);
        assert gone + (Subtree(links, w) - gone) == gone + Subtree(links, w);
      } else {
        assert gone + Subtree(links, w) == gone;
      }
    }

    /**
     Clearing works through a copy of the list, some of whose widgets are gone by the time their turn
     comes. Each listed widget, and each widget below one, is freed exactly once, and the list is empty.
     */
    method Clear()
      requires Valid()
      modifies `parent, `freed, `designWidgets, `selected, `dropTarget
      ensures Valid() && designWidgets == []
      ensures parent == Pruned(old(parent), Below(old(parent), old(designWidgets)))
      ensures FreedExactly(old(freed), freed, Below(old(parent), old(designWidgets)))
      ensures BottomUp(old(parent), freed[|old(freed)|..])
      ensures forall w :: w in old(designWidgets) ==> w in Below(old(parent), old(designWidgets))
      ensures ContentsAlive(old(parent), inner) ==>
                (ContentsAlive(parent, inner)
                 <==> forall c :: c in inner && c in old(parent) && inner[c] in Below(old(parent), old(designWidgets)) ==>
                        c in Below(old(parent), old(designWidgets)))
    {
      hide Inside, Forest, FreedExactly, Distinct, ContentsAlive, BottomUp;
      var copy := designWidgets;
      ghost var links, log := parent, freed;
      assert Below(links, copy[..0]) == {} && Pruned(links, {}) == links;
      FreedNothing(log);
      NothingOrdered(links, log);
      for k := 0 to |copy|
        invariant Valid()
        invariant parent == Pruned(links, Below(links, copy[..k]))
        invariant FreedExactly(log, freed, Below(links, copy[..k]))
        invariant log <= freed && BottomUp(links, freed[|log|..])
        invariant forall w :: w in copy ==> (w in designWidgets <==> w !in Below(links, copy[..k]))
        invariant forall w :: w in designWidgets ==> w in copy
      {
        BelowClosed(links, copy[..k]);
        BelowSnoc(links, copy[..k], copy[k]);
        assert copy[..k + 1] == copy[..k] + [copy[k]];
        if copy[k] in Below(links, copy[..k]) { BelowDownward(links, copy[..k], copy[k]); }
        RemoveNext(copy[k], links, log, Below(links, copy[..k]));
      }
      assert copy[..|copy|] == copy;
      forall w | w in copy ensures w in Below(links, copy) { InsideSelf(links, w); }
      EmptyOrHasFirst(designWidgets);
      if ContentsAlive(links, inner) { PruningKeepsContents(links, inner, Below(links, copy)); }
    }

    // ---- moving ----

    /** A new widget becomes a child of `home`. */
    method NewWidget(home: Id, kind: Kind) returns (x: Id)
      requires Sound() && !kind.ScrollArea?
      modifies `parent, `kinds, `nextId
      ensures Sound() && x == old(nextId) && nextId == x + 1
      ensures parent == old(parent)[x := home] && kinds == old(kinds)[x := kind]
    {
      x := nextId;
      parent, kinds, nextId := parent[x := home], kinds[x := kind], nextId + 1;
    }

    /**
     The content of a container; an empty scroll area, tab or stacked widget gets a frame first. Whether
     the content is still alive is not looked at.
     */
    method DropContentParent(container: Id) returns (p: Id)
      requires Valid() && Live(container)
      modifies `parent, `kinds, `inner, `nextId
      ensures Sound()
      ensures p == DropParent(old(kinds), old(inner), container, old(nextId))
      ensures parent == Framed(old(parent), old(kinds), old(inner), container, old(nextId))
      ensures !NeedsFrame(old(kinds), old(inner), container) ==> kinds == old(kinds) && inner == old(inner) && nextId == old(nextId)
      ensures NeedsFrame(old(kinds), old(inner), container) ==>
                kinds == old(kinds)[p := Frame] && inner == old(inner)[container := p] && nextId == p + 1
    {
      p := container;
      if container in kinds {
        match kinds[container]
        case ScrollArea(viewport) =>
          if container !in inner { p := NewWidget(viewport, Frame); inner := inner[container := p]; }
          p := inner[container];
        case TabWidget =>
          if container !in inner { p := NewWidget(container, Frame); inner := inner[container := p]; }
          p := inner[container];
        case StackedWidget =>
          if container !in inner { p := NewWidget(container, Frame); inner := inner[container := p]; }
          p := inner[container];
        case _ =>
      }
    }

    /**
     Moves a design widget into a container, or onto the canvas when there is none. The list, the
     selection and the drop target stay as they are. The links stay a forest exactly when the widget it
     lands in is alive and not inside the moved one; the guard looks at neither.
     */
    method ReparentDesignWidget(w: Option<Id>, container: Option<Id>) returns (moved: bool)
      requires Valid() && PointsToLive(container)
      modifies `parent, `kinds, `inner, `nextId
      ensures Sound()
      ensures moved == (w.Some? && MayMove(old(parent), designWidgets, w.value, TargetOf(container)))
      ensures !moved ==> parent == old(parent) && kinds == old(kinds) && inner == old(inner) && nextId == old(nextId)
      ensures moved ==>
                Scene(parent, kinds, inner, nextId)
                == Moved(Scene(old(parent), old(kinds), old(inner), old(nextId)), w.value, TargetOf(container))
      ensures Valid() <==> moved ==>
                LandsSafely(old(parent), old(kinds), old(inner), w.value, TargetOf(container), old(nextId))
    {
      hide Inside, Forest, LandsSafely, Distinct, Framed, DropParent, NeedsFrame;
      if w.None? || w.value == ROOT || w.value !in designWidgets { return false; }
      InsideSelf(parent, w.value);
      if container == w { return false; }
      var target := TargetOf(container);
      var inside := IsDescendantOf(target, w.value);
      if inside { return false; }
      LandedForest(parent, kinds, inner, w.value, target, nextId);
      Land(w.value, target);
      moved := true;
    }

    /** The second half of a move: the widget becomes a child of the splitter or of what takes dropped children. */
    method Land(w: Id, target: Id)
      requires Valid() && w in parent && Live(target)
      modifies `parent, `kinds, `inner, `nextId
      ensures Sound()
      ensures Scene(parent, kinds, inner, nextId) == Moved(Scene(old(parent), old(kinds), old(inner), old(nextId)), w, target)
    {
      hide Forest, Distinct;
      if target in kinds && kinds[target].Splitter? {
        if parent[w] != target { parent := parent[w := target]; }
        return;
      }
      var newParent := DropContentParent(target);
      if parent[w] != newParent { parent := parent[w := newParent]; }
    }

    ghost predicate EligibleAt(ignore: Option<Id>, rects: map<Id, Rect>, shown: set<Id>, x: int, y: int, i: int)
      requires 0 <= i < |designWidgets| && forall w :: w in designWidgets ==> w in rects
      reads this
    {
      Eligible(parent, kinds, ignore, designWidgets[i], designWidgets[i] in shown, rects[designWidgets[i]], x, y)
    }

    /**
     The first of the smallest eligible containers, if there is one; the ignored widget may always be
     moved into it as far as the guard of the move is concerned.
     */
    method FindContainerAt(x: int, y: int, ignore: Option<Id>, rects: map<Id, Rect>, shown: set<Id>) returns (best: Option<Id>)
      requires Valid() && forall w :: w in designWidgets ==> w in rects
      ensures best.None? ==> forall i :: 0 <= i < |designWidgets| ==> !EligibleAt(ignore, rects, shown, x, y, i)
      ensures best.Some? ==>
                exists b :: 0 <= b < |designWidgets| && best == Some(designWidgets[b]) && EligibleAt(ignore, rects, shown, x, y, b)
                  && forall i :: 0 <= i < |designWidgets| && EligibleAt(ignore, rects, shown, x, y, i) ==>
                       && Area(rects[best.value]) <= Area(rects[designWidgets[i]])
                       && (i < b ==> Area(rects[best.value]) < Area(rects[designWidgets[i]]))
      ensures best.Some? && ignore.Some? && ignore.value in designWidgets ==> MayMove(parent, designWidgets, ignore.value, best.value)
    {
      hide Inside, Area, Covers;
      best := None;
      var bestArea := 0;
      ghost var b := 0;
      for k := 0 to |designWidgets|
        invariant best.None? ==> forall i :: 0 <= i < k ==> !EligibleAt(ignore, rects, shown, x, y, i)
        invariant best.Some? ==>
                    && 0 <= b < k && best == Some(designWidgets[b]) && EligibleAt(ignore, rects, shown, x, y, b)
                    && bestArea == Area(rects[best.value])
                    && (forall i :: 0 <= i < k && EligibleAt(ignore, rects, shown, x, y, i) ==>
                          bestArea <= Area(rects[designWidgets[i]]) && (i < b ==> bestArea < Area(rects[designWidgets[i]])))
      {
        var w := designWidgets[k];
        InsideSelf(parent, w);
        if ignore == Some(w) { continue; }
        if ignore.Some? {
          var inside := IsDescendantOf(w, ignore.value);
          if inside { continue; }
        }
        if w !in kinds || kinds[w].Plain? { continue; }
        if w !in shown || !Covers(rects[w], x, y) { continue; }
        var area := Area(rects[w]);
        if best.None? || area < bestArea {
          best, bestArea, b := Some(w), area, k;
        }
      }
    }
  }

  /** Selection and drop target let go of what is inside the removed widget, and of nothing else. */
  lemma PointerKept(p: Id, parent: Links, w: Id)
    ensures Inside(parent, p, w) ==> Canvas.Cleared(Some(p), parent, w) == None
    ensures !Inside(parent, p, w) ==> Canvas.Cleared(Some(p), parent, w) == Some(p)
    ensures Canvas.Cleared(None, parent, w) == None
  {
  }
}
