/**
 Names for new widgets: the class name without its prefix, an underscore and the next number that no
 design widget uses.
 */
module FreshNames {
  import opened Arith
  import opened Text

  /** The key a class is counted under. */
  function Stem(className: string): string {
    var cls := if "Sw" <= className && |className| > 2 then className[2..] else className;
    if cls == "" then "widget" else [LowerChar(cls[0])] + cls[1..]
  }

  /** The class name without its prefix, its first letter in lower case. */
  lemma StemOf(c: char, rest: string)
    ensures Stem("Sw" + [c] + rest) == [LowerChar(c)] + rest
    ensures !("Sw" <= [c] + rest) ==> Stem([c] + rest) == [LowerChar(c)] + rest
    ensures Stem("") == "widget" && Stem("Sw") == "sw"
  {
    var s := "Sw" + [c] + rest;
    assert s[2..] == [c] + rest && s[..2] == "Sw" && ([c] + rest)[1..] == rest;
    assert "Sw"[1..] == "w";
  }

  function Name(stem: string, n: nat): string { stem + "_" + Decimal(n) }

  /** A name tells its stem and its number. */
  lemma NameInjective(s: string, m: nat, t: string, n: nat)
    requires Name(s, m) == Name(t, n)
    ensures s == t && m == n
  {
    var a, b := Decimal(m), Decimal(n);
    AfterLastPrefix(s, '_', a);
    AfterLastPrefix(t, '_', b);
    assert Name(s, m) == s + ['_'] + a && Name(t, n) == t + ['_'] + b;
    DecimalInjective(m, n);
    assert s == Name(s, m)[..|s|] == Name(t, n)[..|t|] == t;
  }

  function Names(stem: string, from: nat, to: nat): set<string> { set k | from <= k < to :: Name(stem, k) }

  lemma {:induction false} NamesCounted(stem: string, from: nat, to: nat)
    requires from <= to
    ensures |Names(stem, from, to)| == to - from
  {
    hide Name;
    if from < to {
      NamesCounted(stem, from, to - 1);
      var rest := Names(stem, from, to - 1);
      if Name(stem, to - 1) in rest {
        var k :| from <= k < to - 1 && Name(stem, k) == Name(stem, to - 1);
        NameInjective(stem, k, stem, to - 1);
      }
      assert Names(stem, from, to) == rest + {Name(stem, to - 1)};
    }
  }

  function Elements(taken: seq<string>): set<string> { set s | s in taken }

  lemma {:induction false} ElementsBounded(taken: seq<string>)
    ensures |Elements(taken)| <= |taken|
  {
    if taken != [] {
      var last := |taken| - 1;
      ElementsBounded(taken[..last]);
      assert taken == taken[..last] + [taken[last]];
      assert Elements(taken) == Elements(taken[..last]) + {taken[last]};
    }
  }

  lemma {:induction false} SubsetBounded(a: set<string>, b: set<string>)
    requires a <= b
    ensures |a| <= |b|
  {
    if a != {} {
      var x :| x in a;
      SubsetBounded(a - {x}, b - {x});
    }
  }

  /** Pigeonhole: as many different names as were skipped are all in use. */
  lemma SkippedBounded(stem: string, from: nat, to: nat, taken: seq<string>)
    requires from <= to && forall k :: from <= k < to ==> Name(stem, k) in taken
    ensures to - from <= |taken|
  {
    NamesCounted(stem, from, to);
    SubsetBounded(Names(stem, from, to), Elements(taken));
    ElementsBounded(taken);
  }

  type Counters = map<string, int>

  function Count(counters: Counters, stem: string): int { if stem in counters then counters[stem] else 0 }

  /** The first number tried. */
  function First(counters: Counters, stem: string): nat { Max(1, Max(0, Count(counters, stem)) + 1) }

  /** Numbers start at 1 for a class that has none yet, and just behind the last one otherwise. */
  lemma FirstTried(counters: Counters, stem: string)
    ensures stem !in counters ==> First(counters, stem) == 1
    ensures stem in counters && counters[stem] >= 0 ==> First(counters, stem) == counters[stem] + 1
  {
  }

  /** One issued name: the first free one, and the counter moved to its number. */
  ghost predicate Issued(before: Counters, after: Counters, className: string, taken: seq<string>, name: string) {
    var stem := Stem(className);
    && stem in after && after[stem] >= First(before, stem)
    && after == before[stem := after[stem]]
    && name == Name(stem, after[stem]) && name !in taken
    && forall k :: First(before, stem) <= k < after[stem] ==> Name(stem, k) in taken
  }

  class NameSource {
    var counters: Counters

    constructor ()
      ensures counters == map[]
    {
      counters := map[];
    }

    method IsTaken(candidate: string, taken: seq<string>) returns (r: bool)
      requires candidate != ""
      ensures r == (candidate in taken)
    {
      for i := 0 to |taken|
        invariant candidate !in taken[..i]
      {
        if taken[i] != "" && taken[i] == candidate { return true; }
      }
      return false;
    }

    /** `taken` are the names of the design widgets; at most one number more than there are widgets is tried. */
    method NextObjectName(className: string, taken: seq<string>) returns (candidate: string)
      modifies this
      ensures Issued(old(counters), counters, className, taken, candidate)
      ensures counters[Stem(className)] - First(old(counters), Stem(className)) <= |taken|
    {
      var stem := Stem(className);
      var start := First(counters, stem);
      var n := start;
      candidate := Name(stem, n);
      var used := IsTaken(candidate, taken);
      while used
        invariant counters == old(counters)
        invariant start <= n && candidate == Name(stem, n) && used == (candidate in taken)
        invariant forall k :: start <= k < n ==> Name(stem, k) in taken
        decreases start + |taken| + 1 - n
      {
        SkippedBounded(stem, start, n + 1, taken);
        n := n + 1;
        candidate := Name(stem, n);
        used := IsTaken(candidate, taken);
      }
      SkippedBounded(stem, start, n, taken);
      counters := counters[stem := n];
    }
  }

  // ---- over a whole run -----------------------------------------------------------------------------------------------------

  datatype Request = Request(className: string, taken: seq<string>)

  /** Any sequence of requests, whatever names are in use at each of them. */
  ghost predicate Run(states: seq<Counters>, requests: seq<Request>, names: seq<string>) {
    && |states| == |requests| + 1 && |names| == |requests|
    && forall i :: 0 <= i < |requests| ==>
         Issued(states[i], states[i + 1], requests[i].className, requests[i].taken, names[i])
  }

  lemma {:induction false} CountersGrow(states: seq<Counters>, requests: seq<Request>, names: seq<string>, i: nat, j: nat, stem: string)
    requires Run(states, requests, names) && i <= j < |states|
    ensures Count(states[i], stem) <= Count(states[j], stem)
    decreases j
  {
    if i < j {
      CountersGrow(states, requests, names, i, j - 1, stem);
      assert Issued(states[j - 1], states[j], requests[j - 1].className, requests[j - 1].taken, names[j - 1]);
    }
  }

  /**
   No name is ever issued twice, for one class or for different ones, even when widgets that carried
   earlier names are gone; and within a class the numbers increase.
   */
  lemma NamesNeverRepeat(states: seq<Counters>, requests: seq<Request>, names: seq<string>, i: nat, j: nat)
    requires Run(states, requests, names) && i < j < |requests|
    ensures names[i] != names[j]
    ensures var stem := Stem(requests[i].className);
            Stem(requests[j].className) == stem ==> Count(states[i + 1], stem) < Count(states[j + 1], stem)
  {
    var s, t := Stem(requests[i].className), Stem(requests[j].className);
    assert Issued(states[i], states[i + 1], requests[i].className, requests[i].taken, names[i]);
    assert Issued(states[j], states[j + 1], requests[j].className, requests[j].taken, names[j]);
    CountersGrow(states, requests, names, i + 1, j, s);
    if names[i] == names[j] { NameInjective(s, states[i + 1][s], t, states[j + 1][t]); }
  }
}
