/**
 Parent links of the widgets on the canvas. `parent` maps every live widget below the canvas to its
 parent; the canvas itself is `ROOT`.
 */
module WidgetTree {
  import opened Text

  type Id = nat
  type Links = map<Id, Id>

  const ROOT: Id := 0

  /** The `n`-th ancestor of `x`. */
  function Up(parent: Links, x: Id, n: nat): Option<Id>
    decreases n
  {
    if n == 0 then Some(x) else if x in parent then Up(parent, parent[x], n - 1) else None
  }

  /** `x` is `a` or a descendant of it. */
  ghost predicate Inside(parent: Links, x: Id, a: Id) { exists n: nat :: Up(parent, x, n) == Some(a) }

  /** Every live widget is below the canvas, which has no parent here. */
  ghost predicate Forest(parent: Links) { ROOT !in parent && forall x :: x in parent ==> Inside(parent, x, ROOT) }

  ghost function Subtree(parent: Links, a: Id): set<Id> { set x | x in parent && Inside(parent, x, a) }

  function Pruned(parent: Links, gone: set<Id>): Links { map x | x in parent && x !in gone :: parent[x] }

  // ---- walking up ---------------------------------------------------------------------------------------------------------

  lemma {:induction false} UpUp(parent: Links, x: Id, n: nat, m: nat)
    requires Up(parent, x, n).Some?
    ensures Up(parent, x, n + m) == Up(parent, Up(parent, x, n).value, m)
    decreases n
  {
    if n > 0 { UpUp(parent, parent[x], n - 1, m); }
  }

  lemma InsideTrans(parent: Links, x: Id, a: Id, b: Id)
    requires Inside(parent, x, a) && Inside(parent, a, b)
    ensures Inside(parent, x, b)
  {
    var n: nat :| Up(parent, x, n) == Some(a);
    var m: nat :| Up(parent, a, m) == Some(b);
    UpUp(parent, x, n, m);
    assert Up(parent, x, n + m) == Some(b);
  }

  lemma InsideSelf(parent: Links, x: Id)
    ensures Inside(parent, x, x)
  {
    assert Up(parent, x, 0) == Some(x);
  }

  lemma InsideStep(parent: Links, x: Id, a: Id)
    requires x in parent
    ensures Inside(parent, x, a) <==> x == a || Inside(parent, parent[x], a)
  {
    if Inside(parent, x, a) && x != a {
      var n: nat :| Up(parent, x, n) == Some(a);
      assert Up(parent, parent[x], n - 1) == Some(a);
    }
    if x == a { InsideSelf(parent, x); }
    if Inside(parent, parent[x], a) {
      var n: nat :| Up(parent, parent[x], n) == Some(a);
      assert Up(parent, x, n + 1) == Some(a);
    }
  }

  /** A walk that returns to its start never ends at the canvas. */
  lemma {:induction false} LoopNeverEnds(parent: Links, x: Id, k: nat, n: nat)
    requires ROOT !in parent && k > 0 && Up(parent, x, k) == Some(x)
    ensures Up(parent, x, n) != Some(ROOT)
    decreases n
  {
    if Up(parent, x, n) == Some(ROOT) {
      if n >= k {
        UpUp(parent, x, k, n - k);
        LoopNeverEnds(parent, x, k, n - k);
      } else {
        UpUp(parent, x, n, k - n);
      }
    }
  }

  /** In a forest nothing is inside its own descendant. */
  lemma ForestAntisymmetric(parent: Links, a: Id, b: Id)
    requires Forest(parent) && Inside(parent, a, b) && Inside(parent, b, a) && b in parent
    ensures a == b
  {
    if a != b {
      var n: nat :| Up(parent, a, n) == Some(b);
      var m: nat :| Up(parent, b, m) == Some(a);
      UpUp(parent, b, m, n);
      var k: nat :| Up(parent, b, k) == Some(ROOT);
      LoopNeverEnds(parent, b, m + n, k);
    }
  }

  // ---- removing a closed set of widgets --------------------------------------------------------------------------------

  /** `gone` holds, with a widget, everything below it. */
  predicate Closed(parent: Links, gone: set<Id>) { forall x :: x in parent && parent[x] in gone ==> x in gone }

  lemma {:induction false} PathKept(parent: Links, gone: set<Id>, x: Id, n: nat)
    requires Closed(parent, gone) && x !in gone
    ensures Up(Pruned(parent, gone), x, n) == Up(parent, x, n)
    ensures Up(parent, x, n).Some? ==> Up(parent, x, n).value !in gone
    decreases n
  {
    if n > 0 && x in parent { PathKept(parent, gone, parent[x], n - 1); }
  }

  lemma InsideKept(parent: Links, gone: set<Id>, x: Id, a: Id)
    requires Closed(parent, gone) && x !in gone
    ensures Inside(Pruned(parent, gone), x, a) <==> Inside(parent, x, a)
    ensures Inside(parent, x, a) ==> a !in gone
  {
    forall n: nat ensures Up(Pruned(parent, gone), x, n) == Up(parent, x, n)
                  ensures Up(parent, x, n).Some? ==> Up(parent, x, n).value !in gone {
      PathKept(parent, gone, x, n);
    }
  }

  lemma ForestKept(parent: Links, gone: set<Id>)
    requires Forest(parent) && Closed(parent, gone) && ROOT !in gone
    ensures Forest(Pruned(parent, gone))
  {
    forall x | x in Pruned(parent, gone) ensures Inside(Pruned(parent, gone), x, ROOT) {
      InsideKept(parent, gone, x, ROOT);
    }
  }

  lemma SubtreeClosed(parent: Links, a: Id)
    ensures Closed(parent, Subtree(parent, a))
  {
    forall x | x in parent && parent[x] in Subtree(parent, a) ensures x in Subtree(parent, a) { InsideStep(parent, x, a); }
  }

  /** A closed set without a live child left out is all of the subtree. */
  lemma ClosedIsSubtree(parent: Links, a: Id, gone: set<Id>)
    requires Forest(parent) && a in parent && a !in gone
    requires gone <= Subtree(parent, a) && Closed(parent, gone)
    requires forall c :: c in parent && parent[c] == a ==> c in gone
    ensures gone + {a} == Subtree(parent, a)
  {
    InsideSelf(parent, a);
    forall x | x in Subtree(parent, a) ensures x in gone + {a} {
      var n: nat :| Up(parent, x, n) == Some(a);
      BelowGone(parent, a, gone, x, n);
    }
  }

  lemma {:induction false} BelowGone(parent: Links, a: Id, gone: set<Id>, x: Id, n: nat)
    requires Closed(parent, gone) && x in parent && Up(parent, x, n) == Some(a)
    requires forall c :: c in parent && parent[c] == a ==> c in gone
    ensures x in gone + {a}
    decreases n
  {
    if n > 1 { assert parent[x] in parent; BelowGone(parent, a, gone, parent[x], n - 1); }
    else if n == 1 { assert parent[x] == a; }
  }

  // ---- moving a widget ------------------------------------------------------------------------------------------------------

  lemma {:induction false} PathAvoids(parent: Links, w: Id, to: Id, x: Id, n: nat)
    requires !Inside(parent, x, w)
    ensures Up(parent[w := to], x, n) == Up(parent, x, n)
    decreases n
  {
    InsideSelf(parent, x);
    if n > 0 && x in parent {
      InsideStep(parent, x, w);
      PathAvoids(parent, w, to, parent[x], n - 1);
    }
  }

  lemma {:induction false} StillBelowRoot(parent: Links, w: Id, to: Id, x: Id, n: nat)
    requires Forest(parent) && w in parent && (to in parent || to == ROOT) && !Inside(parent, to, w)
    requires Up(parent, x, n) == Some(ROOT)
    ensures Inside(parent[w := to], x, ROOT)
    decreases n
  {
    var moved := parent[w := to];
    if x == w {
      InsideSelf(parent, ROOT);
      var k: nat :| Up(parent, to, k) == Some(ROOT);
      PathAvoids(parent, w, to, to, k);
      assert Inside(moved, to, ROOT);
      InsideStep(moved, w, ROOT);
    } else if n == 0 {
      InsideSelf(moved, x);
    } else {
      StillBelowRoot(parent, w, to, parent[x], n - 1);
      InsideStep(moved, x, ROOT);
    }
  }

  /** A walk from inside `w` reaches `w` by links that moving `w` does not touch. */
  lemma {:induction false} StillInside(parent: Links, w: Id, to: Id, x: Id, n: nat)
    requires w in parent && Up(parent, x, n) == Some(w)
    ensures Inside(parent[w := to], x, w)
    decreases n
  {
    if x == w { InsideSelf(parent[w := to], x); }
    else {
      StillInside(parent, w, to, parent[x], n - 1);
      InsideStep(parent[w := to], x, w);
    }
  }

  /** Giving `w` the parent `to` keeps the forest exactly when `to` is not inside `w`. */
  lemma MoveKeepsForest(parent: Links, w: Id, to: Id)
    requires Forest(parent) && w in parent && (to in parent || to == ROOT)
    ensures Forest(parent[w := to]) <==> !Inside(parent, to, w)
  {
    var moved := parent[w := to];
    if Inside(parent, to, w) {
      var n: nat :| Up(parent, to, n) == Some(w);
      StillInside(parent, w, to, to, n);
      var m: nat :| Up(moved, to, m) == Some(w);
      assert Up(moved, w, m + 1) == Some(w);
      forall k: nat ensures Up(moved, w, k) != Some(ROOT) { LoopNeverEnds(moved, w, m + 1, k); }
      assert !Inside(moved, w, ROOT);
    } else {
      forall x | x in moved ensures Inside(moved, x, ROOT) {
        var n: nat :| Up(parent, x, n) == Some(ROOT);
        StillBelowRoot(parent, w, to, x, n);
      }
    }
  }

  lemma {:induction false} LoopNeverLeaves(parent: Links, x: Id, k: nat, n: nat)
    requires k > 0 && Up(parent, x, k) == Some(x)
    ensures Up(parent, x, n).Some?
    decreases n
  {
    if n >= k {
      UpUp(parent, x, k, n - k);
      LoopNeverLeaves(parent, x, k, n - k);
    } else if Up(parent, x, n).None? {
      NoneStays(parent, x, n, k - n);
    }
  }

  lemma {:induction false} NoneStays(parent: Links, x: Id, n: nat, m: nat)
    requires Up(parent, x, n).None?
    ensures Up(parent, x, n + m).None?
    decreases n
  {
    if x in parent { NoneStays(parent, parent[x], n - 1, m); }
  }

  /** A walk up from `x` never ends. */
  ghost predicate Endless(parent: Links, x: Id) { forall n: nat :: Up(parent, x, n).Some? }

  /** A widget moved into something inside itself can be walked up from forever. */
  lemma MoveIntoItselfLoops(parent: Links, w: Id, to: Id)
    requires w in parent && Inside(parent, to, w)
    ensures Endless(parent[w := to], w)
  {
    var moved := parent[w := to];
    var n: nat :| Up(parent, to, n) == Some(w);
    StillInside(parent, w, to, to, n);
    var m: nat :| Up(moved, to, m) == Some(w);
    assert Up(moved, w, m + 1) == Some(w);
    forall k: nat ensures Up(moved, w, k).Some? { LoopNeverLeaves(moved, w, m + 1, k); }
  }

  // ---- adding a widget -----------------------------------------------------------------------------------------------------

  lemma {:induction false} LeafKeepsPath(parent: Links, x: Id, home: Id, y: Id, n: nat)
    requires x !in parent && Up(parent, y, n) == Some(ROOT)
    ensures Up(parent[x := home], y, n) == Some(ROOT)
    decreases n
  {
    if n > 0 { LeafKeepsPath(parent, x, home, parent[y], n - 1); }
  }

  lemma LeafKeepsForest(parent: Links, x: Id, home: Id)
    requires Forest(parent) && x !in parent && x != ROOT && (home in parent || home == ROOT)
    ensures Forest(parent[x := home])
  {
    InsideSelf(parent, ROOT);
    forall y | y in parent || y == ROOT ensures Inside(parent[x := home], y, ROOT) {
      var n: nat :| Up(parent, y, n) == Some(ROOT);
      LeafKeepsPath(parent, x, home, y, n);
    }
    InsideStep(parent[x := home], x, ROOT);
  }

  lemma {:induction false} LeafKeepsUp(parent: Links, x: Id, home: Id, y: Id, n: nat)
    requires Forest(parent) && x !in parent && x != ROOT && (y in parent || y == ROOT)
    ensures Up(parent[x := home], y, n) == Up(parent, y, n)
    decreases n
  {
    if n > 0 && y in parent {
      var k: nat :| Up(parent, y, k) == Some(ROOT);
      assert Up(parent, parent[y], k - 1) == Some(ROOT);
      LeafKeepsUp(parent, x, home, parent[y], n - 1);
    }
  }

  /** A new leaf changes nothing about who is inside whom among the others. */
  lemma LeafKeepsInside(parent: Links, x: Id, home: Id, y: Id, a: Id)
    requires Forest(parent) && x !in parent && x != ROOT && (y in parent || y == ROOT)
    ensures Inside(parent[x := home], y, a) <==> Inside(parent, y, a)
  {
    var grown := parent[x := home];
    forall n: nat ensures Up(grown, y, n) == Up(parent, y, n) { LeafKeepsUp(parent, x, home, y, n); }
  }

  // ---- links to widgets that are gone ----------------------------------------------------------------------------------------

  /** A walk that steps off the live widgets never ends at the canvas. */
  lemma DeadEnd(parent: Links, x: Id)
    requires ROOT !in parent && x in parent && parent[x] !in parent && parent[x] != ROOT
    ensures !Inside(parent, x, ROOT)
  {
    forall n: nat ensures Up(parent, x, n) != Some(ROOT) {
      if n > 1 { assert Up(parent, parent[x], n - 1) == None; }
    }
  }

  /** The exact condition for any new parent, alive or not. */
  lemma MoveKeepsForestExactly(parent: Links, w: Id, to: Id)
    requires Forest(parent) && w in parent
    ensures Forest(parent[w := to]) <==> (to == ROOT || to in parent) && !Inside(parent, to, w)
  {
    if to == ROOT || to in parent { MoveKeepsForest(parent, w, to); } else { DeadEnd(parent[w := to], w); }
  }

  lemma LeafKeepsForestExactly(parent: Links, x: Id, home: Id)
    requires Forest(parent) && x !in parent && x != ROOT && home != x
    ensures Forest(parent[x := home]) <==> home == ROOT || home in parent
  {
    if home == ROOT || home in parent { LeafKeepsForest(parent, x, home); } else { DeadEnd(parent[x := home], x); }
  }

  /** Everything that is one of `roots` or below one. */
  ghost function Below(parent: Links, roots: seq<Id>): set<Id> {
    set x | x in parent && exists w :: w in roots && Inside(parent, x, w)
  }
}
