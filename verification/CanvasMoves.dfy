/**
 Moving a widget into a container and removing one, as changes of the parent links: where a widget lands,
 when the links stay a forest, and when containers are left referring to widgets that are gone.
 */
module CanvasMoves {
  import opened Text
  import opened WidgetTree

  datatype Kind = Plain | Frame | GroupBox | ScrollArea(viewport: Id) | TabWidget | StackedWidget | Splitter

  // ---- where a widget lands -------------------------------------------------------------------------------------------------

  function TargetOf(container: Option<Id>): Id { if container.Some? then container.value else ROOT }

  /** Scroll areas, tab widgets and stacked widgets keep dropped children in a content widget or page. */
  predicate HasContent(kinds: map<Id, Kind>, container: Id) {
    container in kinds && (kinds[container].ScrollArea? || kinds[container].TabWidget? || kinds[container].StackedWidget?)
  }

  /** The widget inside `container` that takes dropped children; `frame` is the one made when there is none. */
  function DropParent(kinds: map<Id, Kind>, inner: map<Id, Id>, container: Id, frame: Id): Id {
    if !HasContent(kinds, container) then container
    else if container in inner then inner[container]
    else frame
  }

  /** The parent of a container's content: the viewport of a scroll area, the container itself otherwise. */
  function Home(kinds: map<Id, Kind>, container: Id): Id {
    if container in kinds && kinds[container].ScrollArea? then kinds[container].viewport else container
  }

  /**
   Where a dropped widget goes: into the content of a scroll area, the current page of a tab or stacked widget,
   a new frame where these are empty, which a scroll area keeps in its viewport, and into any other container itself.
   */
  lemma WhereItLands(kinds: map<Id, Kind>, inner: map<Id, Id>, c: Id, frame: Id)
    requires c in kinds
    ensures var keeps := kinds[c].ScrollArea? || kinds[c].TabWidget? || kinds[c].StackedWidget?;
            && (keeps && c in inner ==> DropParent(kinds, inner, c, frame) == inner[c])
            && (keeps && c !in inner ==> DropParent(kinds, inner, c, frame) == frame)
            && (!keeps ==> DropParent(kinds, inner, c, frame) == c)
    ensures kinds[c].ScrollArea? ==> Home(kinds, c) == kinds[c].viewport
    ensures !kinds[c].ScrollArea? ==> Home(kinds, c) == c
  {
  }

  predicate NeedsFrame(kinds: map<Id, Kind>, inner: map<Id, Id>, container: Id) {
    HasContent(kinds, container) && container !in inner
  }

  /** The links once that frame, if one is needed, has been made. */
  function Framed(parent: Links, kinds: map<Id, Kind>, inner: map<Id, Id>, container: Id, frame: Id): Links {
    if NeedsFrame(kinds, inner, container) then parent[frame := Home(kinds, container)] else parent
  }

  function Landed(parent: Links, kinds: map<Id, Kind>, inner: map<Id, Id>, w: Id, container: Id, frame: Id): Links {
    Framed(parent, kinds, inner, container, frame)[w := DropParent(kinds, inner, container, frame)]
  }

  predicate Alive(parent: Links, x: Id) { x == ROOT || x in parent }

  /** Ids not given out yet are referred to by nobody. */
  predicate Fresh(parent: Links, kinds: map<Id, Kind>, inner: map<Id, Id>, frame: Id) {
    && frame != ROOT && frame !in parent
    && (forall c :: c in inner ==> inner[c] != frame)
    && (forall c :: c in kinds && kinds[c].ScrollArea? ==> kinds[c].viewport != frame)
  }

  /** What the guard leaves out: the widget landed in is alive and not inside the moved one. */
  ghost predicate LandsSafely(parent: Links, kinds: map<Id, Kind>, inner: map<Id, Id>, w: Id, container: Id, frame: Id) {
    var landing, framed := DropParent(kinds, inner, container, frame), Framed(parent, kinds, inner, container, frame);
    && (NeedsFrame(kinds, inner, container) ==> Alive(parent, Home(kinds, container)))
    && Alive(framed, landing) && !Inside(framed, landing, w)
  }

  /** The exact condition under which a move keeps the links a forest, whatever state earlier removals left. */
  lemma LandedForest(parent: Links, kinds: map<Id, Kind>, inner: map<Id, Id>, w: Id, container: Id, frame: Id)
    requires Forest(parent) && w in parent && Alive(parent, container) && Fresh(parent, kinds, inner, frame)
    ensures Forest(Framed(parent, kinds, inner, container, frame))
            <==> (NeedsFrame(kinds, inner, container) ==> Alive(parent, Home(kinds, container)))
    ensures Forest(Landed(parent, kinds, inner, w, container, frame)) <==> LandsSafely(parent, kinds, inner, w, container, frame)
  {
    hide Inside, Forest;
    var landing, framed := DropParent(kinds, inner, container, frame), Framed(parent, kinds, inner, container, frame);
    if NeedsFrame(kinds, inner, container) {
      var home := Home(kinds, container);
      LeafKeepsForestExactly(parent, frame, home);
      if Alive(parent, home) { MoveKeepsForestExactly(framed, w, landing); }
      else { FrameOverNothing(parent, w, frame, home); }
    } else {
      MoveKeepsForestExactly(parent, w, landing);
    }
  }

  /** A frame made in a viewport that is gone never reaches the canvas. */
  lemma FrameOverNothing(parent: Links, w: Id, frame: Id, home: Id)
    requires Forest(parent) && w in parent && frame !in parent && frame != ROOT && home != frame && !Alive(parent, home)
    ensures !Forest(parent[frame := home][w := frame])
  {
    DeadEnd(parent[frame := home][w := frame], frame);
  }

  /** The guard of the move: the container is not the widget itself or anything inside it. */
  ghost predicate MayMove(parent: Links, design: seq<Id>, w: Id, target: Id) {
    w != ROOT && w in design && !Inside(parent, target, w)
  }

  /**
   The guard looks at the container, but the widget lands in the container's content. When that content
   is a child of the container, the links stay a forest exactly when the moved widget is not that very
   content.
   */
  lemma MoveFailsOnlyAtContent(parent: Links, design: seq<Id>, w: Id, container: Id, content: Id)
    requires Forest(parent) && w in parent && content in parent && container in parent && parent[content] == container
    requires MayMove(parent, design, w, container)
    ensures Forest(parent[w := content]) <==> w != content
  {
    MoveKeepsForest(parent, w, content);
    InsideStep(parent, content, w);
  }

  /** The same for a scroll area, whose content lies below its viewport. */
  lemma MoveFailsOnlyAtScrollContent(parent: Links, design: seq<Id>, w: Id, container: Id, viewport: Id, content: Id)
    requires Forest(parent) && w in parent && content in parent && viewport in parent && container in parent
    requires parent[content] == viewport && parent[viewport] == container && viewport !in design
    requires MayMove(parent, design, w, container)
    ensures Forest(parent[w := content]) <==> w != content
  {
    MoveKeepsForest(parent, w, content);
    InsideStep(parent, content, w);
    InsideStep(parent, viewport, w);
  }

  /**
   A tab widget whose only page is itself a design widget: dragging the page onto its tab widget passes
   the guard, makes the page its own parent, and walking up from it never ends.
   */
  lemma PageOntoItsTabWidget()
    ensures var parent, kinds, inner := map[1 := ROOT, 2 := 1], map[1 := TabWidget, 2 := Frame], map[1 := 2];
            var landed := Landed(parent, kinds, inner, 2, 1, 3);
            && Forest(parent) && MayMove(parent, [1, 2], 2, 1)
            && landed == map[1 := ROOT, 2 := 2] && !Forest(landed)
            && forall n: nat :: Up(landed, 2, n) == Some(2)
  {
    var parent: Links := map[1 := ROOT, 2 := 1];
    InsideSelf(parent, ROOT);
    InsideStep(parent, 1, ROOT);
    InsideStep(parent, 2, ROOT);
    forall n: nat ensures Up(parent, 1, n) != Some(2) { if n > 1 { assert Up(parent, ROOT, n - 1) == None; } }
    assert !Inside(parent, 1, 2);
    InsideSelf(parent, 2);
    MoveKeepsForest(parent, 2, 2);
    var landed := parent[2 := 2];
    forall n: nat ensures Up(landed, 2, n) == Some(2) { SelfLoop(landed, 2, n); }
  }

  lemma {:induction false} SelfLoop(parent: Links, x: Id, n: nat)
    requires x in parent && parent[x] == x
    ensures Up(parent, x, n) == Some(x)
    decreases n
  {
    if n > 0 { SelfLoop(parent, x, n - 1); }
  }

  // ---- containers left referring to removed widgets --------------------------------------------------------------------------

  /** Every live container refers to a live content or page. */
  predicate ContentsAlive(parent: Links, inner: map<Id, Id>) { forall c :: c in inner && c in parent ==> inner[c] in parent }

  /**
   Removing `w` leaves every content alive if and only if each container whose content is inside `w` is
   inside `w` itself.
   */
  lemma RemovalKeepsContents(parent: Links, inner: map<Id, Id>, w: Id)
    requires ContentsAlive(parent, inner)
    ensures ContentsAlive(Pruned(parent, Subtree(parent, w)), inner)
            <==> forall c :: c in inner && c in parent && Inside(parent, inner[c], w) ==> Inside(parent, c, w)
  {
    hide Inside;
    var gone := Subtree(parent, w);
    forall c | c in inner && c in parent ensures inner[c] in gone <==> Inside(parent, inner[c], w) {}
    assert forall c :: c in parent ==> (c in gone <==> Inside(parent, c, w));
  }

  /** The same for any set of widgets: every container whose content goes must go as well. */
  lemma PruningKeepsContents(parent: Links, inner: map<Id, Id>, gone: set<Id>)
    requires ContentsAlive(parent, inner)
    ensures ContentsAlive(Pruned(parent, gone), inner)
            <==> forall c :: c in inner && c in parent && inner[c] in gone ==> c in gone
  {
  }

  /**
   A tab widget whose page is a design widget, and a third widget beside it. Removing the page leaves the
   tab widget referring to it; moving the third widget onto the tab widget then passes the guard and lands
   in a widget that is gone.
   */
  lemma RemovedPageStaysReferred()
    ensures var parent, kinds, inner := map[1 := ROOT, 2 := 1, 3 := ROOT], map[1 := TabWidget, 2 := Frame, 3 := Frame], map[1 := 2];
            var left := Pruned(parent, Subtree(parent, 2));
            && Forest(parent) && ContentsAlive(parent, inner)
            && left == map[1 := ROOT, 3 := ROOT] && !ContentsAlive(left, inner)
            && MayMove(left, [1, 3], 3, 1)
            && Landed(left, kinds, inner, 3, 1, 4) == map[1 := ROOT, 3 := 2]
            && !Forest(Landed(left, kinds, inner, 3, 1, 4))
  {
    var parent: Links := map[1 := ROOT, 2 := 1, 3 := ROOT];
    var left: Links := map[1 := ROOT, 3 := ROOT];
    InsideSelf(parent, ROOT);
    InsideSelf(parent, 2);
    InsideStep(parent, 1, ROOT);
    InsideStep(parent, 2, ROOT);
    InsideStep(parent, 3, ROOT);
    RootNotInside(parent, 2);
    InsideStep(parent, 1, 2);
    InsideStep(parent, 3, 2);
    assert Subtree(parent, 2) == {2};
    assert Pruned(parent, {2}) == left;
    var inner: map<Id, Id> := map[1 := 2];
    assert 1 in inner && 1 in left && inner[1] !in left;
    RootNotInside(left, 3);
    InsideStep(left, 1, 3);
    assert left[3 := 2] == map[1 := ROOT, 3 := 2];
    DeadEnd(map[1 := ROOT, 3 := 2], 3);
  }

  lemma RootNotInside(parent: Links, a: Id)
    requires ROOT !in parent && a != ROOT
    ensures !Inside(parent, ROOT, a)
  {
    forall n: nat ensures Up(parent, ROOT, n) != Some(a) {}
  }

  // ---- runs of moves ------------------------------------------------------------------------------------------------------------

  datatype Scene = Scene(parent: Links, kinds: map<Id, Kind>, inner: map<Id, Id>, nextId: Id)

  /** The frame that becomes the content of an empty container. */
  function WithFrame(s: Scene, container: Id): Scene {
    var parent := Framed(s.parent, s.kinds, s.inner, container, s.nextId);
    if NeedsFrame(s.kinds, s.inner, container)
    then Scene(parent, s.kinds[s.nextId := Frame], s.inner[container := s.nextId], s.nextId + 1)
    else s
  }

  /** One move, after the frame it may need. */
  function Moved(s: Scene, w: Id, container: Id): Scene {
    WithFrame(s, container).(parent := Landed(s.parent, s.kinds, s.inner, w, container, s.nextId))
  }

  /** Every live container keeps its content where it was put: in it, or in its viewport, which is in it. */
  predicate InPlace(s: Scene) {
    && (forall c :: c in s.inner && c in s.parent ==>
          HasContent(s.kinds, c) && s.inner[c] in s.parent && s.parent[s.inner[c]] == Home(s.kinds, c))
    && (forall c :: c in s.kinds && c in s.parent && s.kinds[c].ScrollArea? ==>
          s.kinds[c].viewport in s.parent && s.parent[s.kinds[c].viewport] == c)
  }

  /** Ids are given out in order. */
  predicate Numbered(s: Scene) {
    && ROOT < s.nextId && ROOT !in s.kinds && ROOT !in s.inner
    && (forall x :: x in s.parent ==> x < s.nextId)
    && (forall x :: x in s.kinds ==> x < s.nextId)
    && (forall x :: x in s.inner ==> x < s.nextId)
    && (forall c :: c in s.inner ==> s.inner[c] < s.nextId)
    && (forall c :: c in s.kinds && s.kinds[c].ScrollArea? ==> s.kinds[c].viewport < s.nextId)
  }

  /** A part of a live container: its content or its viewport. */
  predicate IsPart(s: Scene, w: Id) {
    || (exists c :: c in s.inner && c in s.parent && s.inner[c] == w)
    || (exists c :: c in s.kinds && c in s.parent && s.kinds[c].ScrollArea? && s.kinds[c].viewport == w)
  }

  /** A move that passes the guard and does not move a part of a container. */
  ghost predicate CarefulMove(s: Scene, w: Id, container: Id) {
    w in s.parent && Alive(s.parent, container) && !Inside(s.parent, container, w) && !IsPart(s, w)
  }

  lemma CarefulKeepsForest(s: Scene, w: Id, container: Id)
    requires Forest(s.parent) && Numbered(s) && InPlace(s) && CarefulMove(s, w, container)
    ensures Forest(Moved(s, w, container).parent)
  {
    hide Inside, Forest;
    PartsOutside(s, w, container);
    LandedForest(s.parent, s.kinds, s.inner, w, container, s.nextId);
    if NeedsFrame(s.kinds, s.inner, container) { FrameOutside(s, w, container); }
  }

  lemma MovedNumbered(s: Scene, w: Id, container: Id)
    requires Numbered(s) && w in s.parent && Alive(s.parent, container)
    ensures Numbered(Moved(s, w, container))
  {
  }

  lemma FramedInPlace(s: Scene, w: Id, container: Id)
    requires Numbered(s) && InPlace(s) && w in s.parent && !IsPart(s, w)
    ensures InPlace(WithFrame(s, container)) && !IsPart(WithFrame(s, container), w)
  {
  }

  lemma MovedInPlace(s: Scene, w: Id, container: Id)
    requires Numbered(s) && InPlace(s) && w in s.parent && !IsPart(s, w)
    ensures InPlace(Moved(s, w, container))
  {
    hide Framed, NeedsFrame, WithFrame, HasContent, Numbered;
    var t := WithFrame(s, container);
    FramedInPlace(s, w, container);
    FramedLinks(s, w, container);
    forall c | c in t.inner && c in t.parent ensures t.inner[c] != w {}
    forall c | c in t.kinds && c in t.parent && t.kinds[c].ScrollArea? ensures t.kinds[c].viewport != w {}
  }

  lemma FramedLinks(s: Scene, w: Id, container: Id)
    requires w in s.parent
    ensures w in WithFrame(s, container).parent
    ensures Moved(s, w, container).parent
            == WithFrame(s, container).parent[w := DropParent(s.kinds, s.inner, container, s.nextId)]
  {
  }

  /** Such a move keeps the forest, and contents in place. */
  lemma CarefulMoveKeeps(s: Scene, w: Id, container: Id)
    requires Forest(s.parent) && Numbered(s) && InPlace(s) && CarefulMove(s, w, container)
    ensures Forest(Moved(s, w, container).parent) && Numbered(Moved(s, w, container)) && InPlace(Moved(s, w, container))
  {
    hide Forest, InPlace, Numbered, Moved;
    CarefulKeepsForest(s, w, container);
    MovedNumbered(s, w, container);
    MovedInPlace(s, w, container);
  }

  /** Where a container keeps its content is not inside the moved widget either. */
  lemma PartsOutside(s: Scene, w: Id, container: Id)
    requires InPlace(s) && CarefulMove(s, w, container) && ROOT !in s.kinds && ROOT !in s.inner
    ensures !Inside(s.parent, Home(s.kinds, container), w) && Alive(s.parent, Home(s.kinds, container))
    ensures container in s.inner && HasContent(s.kinds, container) ==>
              s.inner[container] in s.parent && !Inside(s.parent, s.inner[container], w)
  {
    hide Inside;
    var home := Home(s.kinds, container);
    if home != container { InsideStep(s.parent, home, w); }
    if container in s.inner && HasContent(s.kinds, container) { InsideStep(s.parent, s.inner[container], w); }
  }

  lemma FrameOutside(s: Scene, w: Id, container: Id)
    requires NeedsFrame(s.kinds, s.inner, container) && Numbered(s) && Forest(s.parent) && w in s.parent
    requires Alive(s.parent, Home(s.kinds, container)) && !Inside(s.parent, Home(s.kinds, container), w)
    ensures !Inside(Framed(s.parent, s.kinds, s.inner, container, s.nextId), s.nextId, w)
  {
    hide Inside;
    var home := Home(s.kinds, container);
    InsideStep(s.parent[s.nextId := home], s.nextId, w);
    LeafKeepsInside(s.parent, s.nextId, home, home, w);
  }

  ghost predicate CarefulRun(s: Scene, moves: seq<(Id, Id)>)
    decreases |moves|
  {
    moves == [] || (CarefulMove(s, moves[0].0, moves[0].1) && CarefulRun(Moved(s, moves[0].0, moves[0].1), moves[1..]))
  }

  function RunMoves(s: Scene, moves: seq<(Id, Id)>): Scene
    decreases |moves|
  {
    if moves == [] then s else RunMoves(Moved(s, moves[0].0, moves[0].1), moves[1..])
  }

  /** Any run of guarded moves in which no container's part is moved keeps the forest, and contents in place. */
  lemma {:induction false} CarefulRunKeeps(s: Scene, moves: seq<(Id, Id)>)
    requires Forest(s.parent) && Numbered(s) && InPlace(s) && CarefulRun(s, moves)
    ensures Forest(RunMoves(s, moves).parent) && InPlace(RunMoves(s, moves))
    decreases |moves|
  {
    hide Forest, Numbered, InPlace, CarefulMove, Moved;
    if moves != [] {
      CarefulMoveKeeps(s, moves[0].0, moves[0].1);
      CarefulRunKeeps(Moved(s, moves[0].0, moves[0].1), moves[1..]);
    }
  }

  /**
   Clearing with contents in place leaves every content alive if and only if each container whose content or
   viewport is on the list is one of the listed widgets or below one.
   */
  lemma ClearingKeepsContents(s: Scene, roots: seq<Id>)
    requires InPlace(s)
    ensures ContentsAlive(Pruned(s.parent, Below(s.parent, roots)), s.inner)
            <==> forall c :: c in s.inner && c in s.parent && (s.inner[c] in roots || Home(s.kinds, c) in roots) ==>
                   c in Below(s.parent, roots)
  {
    hide Inside;
    PruningKeepsContents(s.parent, s.inner, Below(s.parent, roots));
    forall c | c in s.inner && c in s.parent && c !in Below(s.parent, roots)
      ensures s.inner[c] in Below(s.parent, roots) <==> s.inner[c] in roots || Home(s.kinds, c) in roots
    {
      ContentGoes(s, roots, c);
    }
  }

  lemma ContentGoes(s: Scene, roots: seq<Id>, c: Id)
    requires InPlace(s) && c in s.inner && c in s.parent && c !in Below(s.parent, roots)
    ensures s.inner[c] in Below(s.parent, roots) <==> s.inner[c] in roots || Home(s.kinds, c) in roots
  {
    hide Inside;
    var content, home := s.inner[c], Home(s.kinds, c);
    forall w | w in roots
      ensures Inside(s.parent, content, w) <==> content == w || home == w
    {
      InsideSelf(s.parent, w);
      InsideStep(s.parent, content, w);
      if home != c { InsideStep(s.parent, home, w); }
    }
  }

  /**
   Without that care two moves suffice: the page of a tab widget into a frame, then the frame onto the tab
   widget. Both pass the guard, and the second closes a cycle.
   */
  lemma PageThenItsFrame()
    ensures var s := Scene(map[1 := ROOT, 2 := 1, 3 := ROOT], map[1 := TabWidget, 2 := Frame, 3 := Frame], map[1 := 2], 4);
            var t := Moved(s, 2, 3);
            && Forest(s.parent) && InPlace(s) && MayMove(s.parent, [1, 2, 3], 2, 3)
            && Forest(t.parent) && !InPlace(t) && MayMove(t.parent, [1, 2, 3], 3, 1)
            && Moved(t, 3, 1).parent == map[1 := ROOT, 2 := 3, 3 := 2] && !Forest(Moved(t, 3, 1).parent)
  {
    var a: Links := map[1 := ROOT, 2 := 1, 3 := ROOT];
    var b: Links := map[1 := ROOT, 2 := 3, 3 := ROOT];
    InsideSelf(a, ROOT);
    InsideStep(a, 1, ROOT);
    InsideStep(a, 2, ROOT);
    InsideStep(a, 3, ROOT);
    RootNotInside(a, 2);
    InsideStep(a, 3, 2);
    MoveKeepsForest(a, 2, 3);
    assert a[2 := 3] == b;
    RootNotInside(b, 3);
    InsideStep(b, 1, 3);
    InsideSelf(b, 3);
    InsideStep(b, 2, 3);
    MoveKeepsForest(b, 3, 2);
    assert b[3 := 2] == map[1 := ROOT, 2 := 3, 3 := 2];
  }
}
