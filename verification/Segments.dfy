/**
 Proportional shrinking of layout segments: `shrinkSegmentsToFit_`.

 The specification works on the dense sequences of active sizes and minimums. One pass of the
 outer loop takes `CutAt(j)` from segment `j`; `Shrunk` repeats passes as the source does.
 */
module Segments {
  import opened Arith
  import opened Sequences

  function SlackAt(sizes: seq<int>, mins: seq<int>, j: nat): int
    requires j < |sizes| == |mins|
  {
    Max(0, sizes[j] - mins[j])
  }

  function SlackTo(sizes: seq<int>, mins: seq<int>, k: nat): int
    requires k <= |sizes| == |mins|
  {
    if k == 0 then 0 else SlackTo(sizes, mins, k - 1) + SlackAt(sizes, mins, k - 1)
  }

  function TotalSlack(sizes: seq<int>, mins: seq<int>): int
    requires |sizes| == |mins|
  {
    SlackTo(sizes, mins, |sizes|)
  }

  /** What the source counts as the current total: negative sizes count as zero. */
  function OccupiedTo(sizes: seq<int>, k: nat): int
    requires k <= |sizes|
  {
    if k == 0 then 0 else OccupiedTo(sizes, k - 1) + Max(0, sizes[k - 1])
  }

  function Occupied(sizes: seq<int>): int { OccupiedTo(sizes, |sizes|) }

  /** The share a pass takes from segment `j` when `reduced` has been taken from earlier ones. */
  function Share(remaining: int, slack: int, totalSlack: int, reduced: int): int
    requires totalSlack > 0
  {
    if slack <= 0 then 0
    else Max(0, Min(Min(Max(1, remaining * slack / totalSlack), slack), remaining - reduced))
  }

  /** What one pass has taken from the first `k` segments. */
  function Taken(sizes: seq<int>, mins: seq<int>, remaining: int, k: nat): int
    requires k <= |sizes| == |mins| && TotalSlack(sizes, mins) > 0
    decreases k, 0
  {
    if k == 0 then 0
    else Taken(sizes, mins, remaining, k - 1) + CutAt(sizes, mins, remaining, k - 1)
  }

  function CutAt(sizes: seq<int>, mins: seq<int>, remaining: int, j: nat): int
    requires j < |sizes| == |mins| && TotalSlack(sizes, mins) > 0
    decreases j, 1
  {
    Share(remaining, SlackAt(sizes, mins, j), TotalSlack(sizes, mins), Taken(sizes, mins, remaining, j))
  }

  function AfterPass(sizes: seq<int>, mins: seq<int>, remaining: int): (r: seq<int>)
    requires |sizes| == |mins| && TotalSlack(sizes, mins) > 0
    ensures |r| == |sizes|
  {
    seq(|sizes|, j requires 0 <= j < |sizes| => sizes[j] - CutAt(sizes, mins, remaining, j))
  }

  /** The outer loop: passes are repeated until nothing remains, no slack is left or a pass stalls. */
  function Shrunk(sizes: seq<int>, mins: seq<int>, remaining: int): (r: seq<int>)
    requires |sizes| == |mins|
    ensures |r| == |sizes|
    decreases remaining
  {
    if remaining <= 0 || TotalSlack(sizes, mins) <= 0 then sizes
    else
      var reduced := Taken(sizes, mins, remaining, |sizes|);
      if reduced <= 0 then AfterPass(sizes, mins, remaining)
      else Shrunk(AfterPass(sizes, mins, remaining), mins, remaining - reduced)
  }

  /** The number of passes of the outer loop that find slack to take. */
  function PassCount(sizes: seq<int>, mins: seq<int>, remaining: int): nat
    requires |sizes| == |mins|
    decreases remaining
  {
    if remaining <= 0 || TotalSlack(sizes, mins) <= 0 then 0
    else
      var reduced := Taken(sizes, mins, remaining, |sizes|);
      if reduced <= 0 then 1
      else 1 + PassCount(AfterPass(sizes, mins, remaining), mins, remaining - reduced)
  }

  /** The whole function, including its early exits. */
  function Fitted(sizes: seq<int>, mins: seq<int>, available: int): (r: seq<int>)
    requires |sizes| == |mins|
    ensures |r| == |sizes|
  {
    if available <= 0 || Occupied(sizes) <= available then sizes
    else Shrunk(sizes, mins, Occupied(sizes) - available)
  }

  // ---- one pass ----------------------------------------------------------------------------

  lemma {:induction false} CutBounds(sizes: seq<int>, mins: seq<int>, remaining: int, k: nat)
    requires k <= |sizes| == |mins| && TotalSlack(sizes, mins) > 0 && remaining >= 0
    ensures 0 <= Taken(sizes, mins, remaining, k) <= remaining
    ensures Taken(sizes, mins, remaining, k) <= SlackTo(sizes, mins, k)
    ensures forall j :: 0 <= j < k ==> 0 <= CutAt(sizes, mins, remaining, j) <= SlackAt(sizes, mins, j)
  {
    if k > 0 { CutBounds(sizes, mins, remaining, k - 1); }
  }

  lemma {:induction false} SlackAfterPass(sizes: seq<int>, mins: seq<int>, remaining: int, k: nat)
    requires k <= |sizes| == |mins| && TotalSlack(sizes, mins) > 0 && remaining >= 0
    ensures SlackTo(AfterPass(sizes, mins, remaining), mins, k)
         == SlackTo(sizes, mins, k) - Taken(sizes, mins, remaining, k)
  {
    if k > 0 {
      CutBounds(sizes, mins, remaining, k);
      SlackAfterPass(sizes, mins, remaining, k - 1);
    }
  }

  lemma {:induction false} SlackNonNegative(sizes: seq<int>, mins: seq<int>, i: nat, k: nat)
    requires i <= k <= |sizes| == |mins|
    ensures 0 <= SlackTo(sizes, mins, i) <= SlackTo(sizes, mins, k)
    decreases k
  {
    if i < k { SlackNonNegative(sizes, mins, i, k - 1); }
    else if 0 < k { SlackNonNegative(sizes, mins, i - 1, k - 1); }
  }

  /** With an excess of at least the whole slack, a single pass consumes all of it. */
  lemma {:induction false} LargeExcessTakesAll(sizes: seq<int>, mins: seq<int>, remaining: int, k: nat)
    requires k <= |sizes| == |mins| && 0 < TotalSlack(sizes, mins) <= remaining
    ensures Taken(sizes, mins, remaining, k) == SlackTo(sizes, mins, k)
  {
    if k > 0 {
      LargeExcessTakesAll(sizes, mins, remaining, k - 1);
      SlackNonNegative(sizes, mins, k, |sizes|);
      var s, t := SlackAt(sizes, mins, k - 1), TotalSlack(sizes, mins);
      if s > 0 { QuotientAtLeast(remaining, s, t); }
    }
  }

  lemma QuotientAtLeast(r: int, s: int, t: int)
    requires 0 < t <= r && 0 < s
    ensures r * s / t >= s
  {
    var q := r * s / t;
    if q < s {
      assert r * s == q * t + r * s % t;
      assert (q + 1) * t <= s * t <= s * r by { MulMono(q + 1, s, t); MulMono(t, r, s); }
    }
  }

  lemma MulMono(a: int, b: int, c: int)
    requires a <= b && 0 <= c
    ensures a * c <= b * c
  {}

  /** Segments that still hold slack after the pass. */
  function HoldingTo(sizes: seq<int>, mins: seq<int>, k: nat): nat
    requires k <= |sizes| == |mins|
  {
    if k == 0 then 0
    else HoldingTo(sizes, mins, k - 1) + if SlackAt(sizes, mins, k - 1) > 0 then 1 else 0
  }

  /** Scaled rounding loss: each segment still holding slack accounts for less than one pixel. */
  lemma {:induction false} RoundingLoss(sizes: seq<int>, mins: seq<int>, remaining: int, k: nat)
    requires k <= |sizes| == |mins| && 0 < remaining < TotalSlack(sizes, mins)
    ensures var t := TotalSlack(sizes, mins);
            var taken := Taken(sizes, mins, remaining, k);
            taken == remaining
            || remaining * SlackTo(sizes, mins, k) - t * taken
                 <= (t - 1) * HoldingTo(AfterPass(sizes, mins, remaining), mins, k)
  {
    if k > 0 {
      RoundingLoss(sizes, mins, remaining, k - 1);
      CutBounds(sizes, mins, remaining, k);
      var t := TotalSlack(sizes, mins);
      var s := SlackAt(sizes, mins, k - 1);
      var after := AfterPass(sizes, mins, remaining);
      var before, cut := Taken(sizes, mins, remaining, k - 1), CutAt(sizes, mins, remaining, k - 1);
      if before != remaining && before + cut != remaining {
        if s > 0 { ShareLoss(remaining, s, t, before, cut); }
        var h, h' := HoldingTo(after, mins, k - 1), HoldingTo(after, mins, k);
        assert h' == h + if s > cut then 1 else 0;
        LossStep(remaining, t, SlackTo(sizes, mins, k - 1), s, before, cut, h, h');
      }
    }
  }

  lemma LossStep(r: int, t: int, total: int, s: int, before: int, cut: int, h: int, h': int)
    requires r * total - t * before <= (t - 1) * h
    requires r * s - t * cut <= (if s > cut then t - 1 else 0)
    requires h' == h + if s > cut then 1 else 0
    ensures r * (total + s) - t * (before + cut) <= (t - 1) * h'
  {
    assert r * (total + s) == r * total + r * s;
    assert t * (before + cut) == t * before + t * cut;
    assert (t - 1) * (h + 1) == (t - 1) * h + (t - 1);
  }

  lemma ShareLoss(r: int, s: int, t: int, before: int, cut: int)
    requires 0 < r < t && 0 < s && before < r
    requires cut == Share(r, s, t, before) && before + cut < r
    ensures r * s - t * cut <= if s > cut then t - 1 else 0
  {
    var q := r * s / t;
    assert r * s == q * t + r * s % t;
    assert r * s <= t * s by { MulMono(r, t, s); }
    if cut == s {
    } else {
      assert cut >= q;
      MulMono(q, cut, t);
    }
  }

  /** A pass takes at least one pixel from every segment holding slack until the excess is gone. */
  lemma {:induction false} OneFromEachHolder(sizes: seq<int>, mins: seq<int>, remaining: int, k: nat)
    requires k <= |sizes| == |mins| && TotalSlack(sizes, mins) > 0 && remaining > 0
    ensures Taken(sizes, mins, remaining, k) == remaining
         || Taken(sizes, mins, remaining, k) >= HoldingTo(sizes, mins, k)
  {
    if k > 0 {
      OneFromEachHolder(sizes, mins, remaining, k - 1);
      CutBounds(sizes, mins, remaining, k);
    }
  }

  lemma {:induction false} HoldersAreFew(sizes: seq<int>, mins: seq<int>, k: nat)
    requires k <= |sizes| == |mins|
    ensures HoldingTo(sizes, mins, k) <= SlackTo(sizes, mins, k)
  {
    if k > 0 { HoldersAreFew(sizes, mins, k - 1); }
  }

  /** The excess left by a first pass is smaller than the number of segments still holding slack. */
  lemma FirstPassRemainder(sizes: seq<int>, mins: seq<int>, remaining: int)
    requires |sizes| == |mins| && 0 < remaining < TotalSlack(sizes, mins)
    ensures var left := remaining - Taken(sizes, mins, remaining, |sizes|);
            left == 0 || 0 < left < HoldingTo(AfterPass(sizes, mins, remaining), mins, |sizes|)
  {
    var n, t := |sizes|, TotalSlack(sizes, mins);
    var taken := Taken(sizes, mins, remaining, n);
    var h := HoldingTo(AfterPass(sizes, mins, remaining), mins, n);
    RoundingLoss(sizes, mins, remaining, n);
    CutBounds(sizes, mins, remaining, n);
    if taken != remaining { LossBound(t, remaining, taken, h); }
  }

  lemma LossBound(t: int, remaining: int, taken: int, h: int)
    requires t > 0 && taken < remaining && remaining * t - t * taken <= (t - 1) * h
    ensures remaining - taken < h
  {
    var left := remaining - taken;
    assert t * left == remaining * t - t * taken;
    assert (t - 1) * h == t * h - h;
    if left >= h {
      MulMono(h, left, t);
      assert h <= 0;
      MulMono(h, 0, t - 1);
      MulMono(1, left, t);
    }
  }

  // ---- the whole loop -----------------------------------------------------------------------

  /** A pass over segments with slack always takes something. */
  lemma PassProgress(sizes: seq<int>, mins: seq<int>, remaining: int)
    requires |sizes| == |mins| && remaining > 0 && TotalSlack(sizes, mins) > 0
    ensures Taken(sizes, mins, remaining, |sizes|) > 0
  {
    OneFromEachHolder(sizes, mins, remaining, |sizes|);
    SomeoneHolds(sizes, mins, |sizes|);
  }

  /** Once the excess is below the number of holders, one more pass clears it. */
  lemma LastPass(sizes: seq<int>, mins: seq<int>, remaining: int)
    requires |sizes| == |mins| && 0 < remaining <= HoldingTo(sizes, mins, |sizes|)
    ensures PassCount(sizes, mins, remaining) == 1
  {
    HoldersAreFew(sizes, mins, |sizes|);
    OneFromEachHolder(sizes, mins, remaining, |sizes|);
    CutBounds(sizes, mins, remaining, |sizes|);
    assert Taken(sizes, mins, remaining, |sizes|) == remaining;
    assert PassCount(AfterPass(sizes, mins, remaining), mins, 0) == 0;
  }

  /** When the excess is at least the slack, the first pass leaves no slack. */
  lemma OnlyPass(sizes: seq<int>, mins: seq<int>, remaining: int)
    requires |sizes| == |mins| && 0 < TotalSlack(sizes, mins) <= remaining
    ensures PassCount(sizes, mins, remaining) == 1
  {
    var after := AfterPass(sizes, mins, remaining);
    LargeExcessTakesAll(sizes, mins, remaining, |sizes|);
    SlackAfterPass(sizes, mins, remaining, |sizes|);
    assert TotalSlack(after, mins) == 0;
    assert PassCount(after, mins, remaining - TotalSlack(sizes, mins)) == 0;
  }

  /**
   Every run needs at most two passes, for any sizes, minimums and excess. No pass stalls, so the
   source's exit for a pass that takes nothing is never used.
   */
  lemma TwoPassesSuffice(sizes: seq<int>, mins: seq<int>, remaining: int)
    requires |sizes| == |mins|
    ensures PassCount(sizes, mins, remaining) <= 2
    ensures remaining > 0 && TotalSlack(sizes, mins) > 0 ==> Taken(sizes, mins, remaining, |sizes|) > 0
    ensures remaining > 0 && 0 < TotalSlack(sizes, mins) <= remaining ==> PassCount(sizes, mins, remaining) == 1
  {
    var t := TotalSlack(sizes, mins);
    if remaining > 0 && t > 0 {
      PassProgress(sizes, mins, remaining);
      if t <= remaining {
        OnlyPass(sizes, mins, remaining);
      } else {
        FirstPassRemainder(sizes, mins, remaining);
        var after := AfterPass(sizes, mins, remaining);
        var left := remaining - Taken(sizes, mins, remaining, |sizes|);
        if left > 0 { LastPass(after, mins, left); }
        assert PassCount(after, mins, left) <= 1;
      }
    }
  }

  lemma {:induction false} SomeoneHolds(sizes: seq<int>, mins: seq<int>, k: nat)
    requires k <= |sizes| == |mins| && SlackTo(sizes, mins, k) > 0
    ensures HoldingTo(sizes, mins, k) > 0
  {
    if SlackTo(sizes, mins, k - 1) > 0 { SomeoneHolds(sizes, mins, k - 1); }
  }

  lemma {:induction false} SumAfterPass(sizes: seq<int>, mins: seq<int>, remaining: int, k: nat)
    requires k <= |sizes| == |mins| && TotalSlack(sizes, mins) > 0
    ensures SumTo(AfterPass(sizes, mins, remaining), k) == SumTo(sizes, k) - Taken(sizes, mins, remaining, k)
  {
    if k > 0 { SumAfterPass(sizes, mins, remaining, k - 1); }
  }

  /**
   Shrinking removes exactly the excess or, when there is less slack than that, all the slack.
   No segment grows or drops below the smaller of its size and its minimum, and a segment at or
   below its minimum keeps its size.
   */
  lemma {:induction false} ShrunkExact(sizes: seq<int>, mins: seq<int>, remaining: int)
    requires |sizes| == |mins|
    ensures var r := Shrunk(sizes, mins, remaining);
            && Sum(r) == Sum(sizes) - Max(0, Min(remaining, TotalSlack(sizes, mins)))
            && (forall j :: 0 <= j < |r| ==> Min(sizes[j], mins[j]) <= r[j] <= sizes[j])
            && (forall j :: 0 <= j < |r| && sizes[j] <= mins[j] ==> r[j] == sizes[j])
    decreases remaining
  {
    hide Share, Taken, SlackTo;
    SlackNonNegative(sizes, mins, 0, |sizes|);
    if remaining > 0 && TotalSlack(sizes, mins) > 0 {
      PassProgress(sizes, mins, remaining);
      CutBounds(sizes, mins, remaining, |sizes|);
      SlackAfterPass(sizes, mins, remaining, |sizes|);
      SumAfterPass(sizes, mins, remaining, |sizes|);
      var after := AfterPass(sizes, mins, remaining);
      ShrunkExact(after, mins, remaining - Taken(sizes, mins, remaining, |sizes|));
    }
  }

  /** The total that shrinking can never undercut: each segment at the smaller of size and minimum. */
  function FloorTo(sizes: seq<int>, mins: seq<int>, k: nat): int
    requires k <= |sizes| == |mins|
  {
    if k == 0 then 0 else FloorTo(sizes, mins, k - 1) + Min(sizes[k - 1], mins[k - 1])
  }

  lemma {:induction false} FloorIsSumMinusSlack(sizes: seq<int>, mins: seq<int>, k: nat)
    requires k <= |sizes| == |mins|
    ensures FloorTo(sizes, mins, k) == SumTo(sizes, k) - SlackTo(sizes, mins, k)
  {
    if k > 0 { FloorIsSumMinusSlack(sizes, mins, k - 1); }
  }

  lemma {:induction false} OccupiedIsSum(sizes: seq<int>, k: nat)
    requires k <= |sizes| && forall j :: 0 <= j < k ==> sizes[j] >= 0
    ensures OccupiedTo(sizes, k) == SumTo(sizes, k)
  {
    if k > 0 { OccupiedIsSum(sizes, k - 1); }
  }

  /** The exact final total of the function, on non-negative sizes. */
  lemma FittedExact(sizes: seq<int>, mins: seq<int>, available: int)
    requires |sizes| == |mins|
    requires forall j :: 0 <= j < |sizes| ==> sizes[j] >= 0
    ensures var r := Fitted(sizes, mins, available);
            && Sum(r) == (if available <= 0 || Sum(sizes) <= available then Sum(sizes)
                          else Max(available, FloorTo(sizes, mins, |sizes|)))
            && (forall j :: 0 <= j < |r| ==> Min(sizes[j], mins[j]) <= r[j] <= sizes[j])
            && (forall j :: 0 <= j < |r| && sizes[j] <= mins[j] ==> r[j] == sizes[j])
  {
    OccupiedIsSum(sizes, |sizes|);
    FloorIsSumMinusSlack(sizes, mins, |sizes|);
    SlackNonNegative(sizes, mins, 0, |sizes|);
    ShrunkExact(sizes, mins, Occupied(sizes) - available);
  }

  // ---- the in-place algorithm ---------------------------------------------------------------

  /** The values of `v` at the listed positions. */
  function Pick<T>(v: seq<T>, idx: seq<nat>): (r: seq<T>)
    requires forall i :: 0 <= i < |idx| ==> idx[i] < |v|
    ensures |r| == |idx|
  {
    seq(|idx|, i requires 0 <= i < |idx| => v[idx[i]])
  }

  predicate Indices(active: seq<nat>, n: nat) {
    Distinct(active) && forall i :: 0 <= i < |active| ==> active[i] < n
  }

  /** `v` and `w` agree outside the listed positions. */
  ghost predicate SameOutside(v: seq<int>, w: seq<int>, active: seq<nat>) {
    |v| == |w| && forall p :: 0 <= p < |v| && p !in active ==> v[p] == w[p]
  }

  /** Shrinks the active entries of `sizes` in place. */
  method ShrinkSegmentsToFit(sizes: array<int>, minSizes: seq<int>, active: seq<nat>, available: int)
    requires |minSizes| == sizes.Length && Indices(active, sizes.Length)
    modifies sizes
    ensures Pick(sizes[..], active) == Fitted(Pick(old(sizes[..]), active), Pick(minSizes, active), available)
    ensures SameOutside(sizes[..], old(sizes[..]), active)
  {
    if available <= 0 || |active| == 0 { return; }

    var total := MeasureTotal(sizes, active);
    if total <= available { return; }

    var remaining := total - available;
    ghost var mins := Pick(minSizes, active);
    ghost var goal := Shrunk(Pick(sizes[..], active), mins, remaining);
    while remaining > 0
      invariant Shrunk(Pick(sizes[..], active), mins, remaining) == goal
      invariant SameOutside(sizes[..], old(sizes[..]), active)
      decreases remaining
    {
      var totalSlack := MeasureSlack(sizes, minSizes, active);
      if totalSlack <= 0 { break; }

      var reduced := ShrinkPass(sizes, minSizes, active, remaining, totalSlack);
      if reduced <= 0 { break; }
      remaining := remaining - reduced;
    }
  }

  method MeasureTotal(sizes: array<int>, active: seq<nat>) returns (total: int)
    requires Indices(active, sizes.Length)
    ensures total == Occupied(Pick(sizes[..], active))
  {
    total := 0;
    for i := 0 to |active|
      invariant total == OccupiedTo(Pick(sizes[..], active), i)
    {
      total := total + Max(0, sizes[active[i]]);
    }
  }

  method MeasureSlack(sizes: array<int>, minSizes: seq<int>, active: seq<nat>) returns (totalSlack: int)
    requires |minSizes| == sizes.Length && Indices(active, sizes.Length)
    ensures totalSlack == TotalSlack(Pick(sizes[..], active), Pick(minSizes, active))
  {
    totalSlack := 0;
    for i := 0 to |active|
      invariant totalSlack == SlackTo(Pick(sizes[..], active), Pick(minSizes, active), i)
    {
      totalSlack := totalSlack + Max(0, sizes[active[i]] - minSizes[active[i]]);
    }
  }

  /** The state of a pass that has visited the first `i` segments. */
  ghost function PartialPass(sizes: seq<int>, mins: seq<int>, remaining: int, i: nat): (r: seq<int>)
    requires i <= |sizes| == |mins| && TotalSlack(sizes, mins) > 0
    ensures |r| == |sizes|
  {
    seq(|sizes|, j requires 0 <= j < |sizes| =>
      sizes[j] - if j < i then CutAt(sizes, mins, remaining, j) else 0)
  }

  lemma PassEnds(sizes: seq<int>, mins: seq<int>, remaining: int, i: nat)
    requires i <= |sizes| == |mins| && TotalSlack(sizes, mins) > 0
    requires i == |sizes| || Taken(sizes, mins, remaining, i) >= remaining
    ensures Taken(sizes, mins, remaining, |sizes|) == Taken(sizes, mins, remaining, i)
    ensures AfterPass(sizes, mins, remaining) == PartialPass(sizes, mins, remaining, i)
  {
    if i < |sizes| { NothingAfterExcess(sizes, mins, remaining, i, |sizes|); }
  }

  /** Lowering one listed entry by its cut advances the pass by one segment. */
  lemma PassStep(v: seq<int>, v': seq<int>, active: seq<nat>, cur: seq<int>, mins: seq<int>, remaining: int, i: nat)
    requires Indices(active, |v|) && i < |active| == |cur| == |mins| && TotalSlack(cur, mins) > 0
    requires Pick(v, active) == PartialPass(cur, mins, remaining, i)
    requires v' == v[active[i] := cur[i] - CutAt(cur, mins, remaining, i)]
    ensures Pick(v', active) == PartialPass(cur, mins, remaining, i + 1)
    ensures SameOutside(v', v, active)
  {
    assert Pick(v', active) == Pick(v, active)[i := cur[i] - CutAt(cur, mins, remaining, i)];
  }

  /** The body of the inner loop for the entry at `idx`. */
  method ShrinkOne(sizes: array<int>, minSizes: seq<int>, idx: nat, remaining: int, totalSlack: int, reduced: int)
    returns (shrink: int)
    requires idx < sizes.Length == |minSizes| && totalSlack > 0 && reduced < remaining
    modifies sizes
    ensures shrink == Share(remaining, Max(0, old(sizes[idx]) - minSizes[idx]), totalSlack, reduced)
    ensures sizes[..] == old(sizes[..])[idx := old(sizes[idx]) - shrink]
  {
    var slack := Max(0, sizes[idx] - minSizes[idx]);
    if slack <= 0 { return 0; }
    shrink := Max(1, remaining * slack / totalSlack);
    shrink := Min(shrink, slack);
    shrink := Min(shrink, remaining - reduced);
    if shrink > 0 { sizes[idx] := sizes[idx] - shrink; }
  }

  /** The inner loop of one pass, which stops once the excess is gone. */
  method ShrinkPass(sizes: array<int>, minSizes: seq<int>, active: seq<nat>, remaining: int, totalSlack: int)
    returns (reduced: int)
    requires |minSizes| == sizes.Length && remaining > 0 && Indices(active, sizes.Length)
    requires totalSlack == TotalSlack(Pick(sizes[..], active), Pick(minSizes, active)) > 0
    modifies sizes
    ensures reduced == Taken(old(Pick(sizes[..], active)), Pick(minSizes, active), remaining, |active|)
    ensures Pick(sizes[..], active) == AfterPass(old(Pick(sizes[..], active)), Pick(minSizes, active), remaining)
    ensures SameOutside(sizes[..], old(sizes[..]), active)
  {
    ghost var cur, mins := Pick(sizes[..], active), Pick(minSizes, active);
    reduced := 0;
    var i := 0;
    while i < |active| && reduced < remaining
      invariant 0 <= i <= |active|
      invariant reduced == Taken(cur, mins, remaining, i)
      invariant Pick(sizes[..], active) == PartialPass(cur, mins, remaining, i)
      invariant SameOutside(sizes[..], old(sizes[..]), active)
    {
      ghost var v := sizes[..];
      assert v[active[i]] == Pick(v, active)[i] == cur[i];
      var shrink := ShrinkOne(sizes, minSizes, active[i], remaining, totalSlack, reduced);
      PassStep(v, sizes[..], active, cur, mins, remaining, i);
      reduced := reduced + shrink;
      i := i + 1;
    }
    PassEnds(cur, mins, remaining, i);
  }

  lemma {:induction false} NothingAfterExcess(sizes: seq<int>, mins: seq<int>, remaining: int, i: nat, k: nat)
    requires i <= k <= |sizes| == |mins| && TotalSlack(sizes, mins) > 0
    requires Taken(sizes, mins, remaining, i) >= remaining
    ensures Taken(sizes, mins, remaining, k) == Taken(sizes, mins, remaining, i)
    ensures forall j :: i <= j < k ==> CutAt(sizes, mins, remaining, j) == 0
  {
    if i < k { NothingAfterExcess(sizes, mins, remaining, i, k - 1); }
  }
}
