/**
 How fair shrinking is: what a segment loses stays close to its share of the slack, so a little more room
 can cost a segment pixels, but only as many as rounding accounts for.
 */
module FairShrink {
  import opened Arith
  import opened Segments

  // ---- sums that skip one position -------------------------------------------------------------------------------

  function SumBut(v: seq<int>, j: nat, k: nat): int
    requires k <= |v|
  {
    if k == 0 then 0 else SumBut(v, j, k - 1) + if k - 1 == j then 0 else v[k - 1]
  }

  lemma {:induction false} SumSplits(v: seq<int>, j: nat, k: nat)
    requires k <= |v|
    ensures SumTo(v, k) == SumBut(v, j, k) + if j < k then v[j] else 0
  {
    if k > 0 { SumSplits(v, j, k - 1); }
  }

  lemma {:induction false} ButBounded(v: seq<int>, w: seq<int>, b: int, j: nat, k: nat)
    requires k <= |v| == |w| && forall i :: 0 <= i < k ==> v[i] <= b * w[i]
    ensures SumBut(v, j, k) <= b * SumBut(w, j, k)
  {
    if k > 0 {
      ButBounded(v, w, b, j, k - 1);
      if k - 1 != j { assert b * (SumBut(w, j, k - 1) + w[k - 1]) == b * SumBut(w, j, k - 1) + b * w[k - 1]; }
    }
  }

  lemma {:induction false} ButAbove(v: seq<int>, w: seq<int>, b: int, j: nat, k: nat)
    requires k <= |v| == |w| && forall i :: 0 <= i < k ==> v[i] >= -(b * w[i])
    ensures SumBut(v, j, k) >= -(b * SumBut(w, j, k))
  {
    if k > 0 {
      ButAbove(v, w, b, j, k - 1);
      if k - 1 != j { assert b * (SumBut(w, j, k - 1) + w[k - 1]) == b * SumBut(w, j, k - 1) + b * w[k - 1]; }
    }
  }

  lemma {:induction false} ButPositive(w: seq<int>, j: nat, k: nat)
    requires k <= |w| && forall i :: 0 <= i < k ==> w[i] >= 0
    ensures SumBut(w, j, k) >= 0
    ensures SumBut(w, j, k) == 0 ==> forall i :: 0 <= i < k && i != j ==> w[i] == 0
  {
    if k > 0 { ButPositive(w, j, k - 1); }
  }

  lemma {:induction false} ButZero(v: seq<int>, j: nat, k: nat)
    requires k <= |v| && forall i :: 0 <= i < k && i != j ==> v[i] == 0
    ensures SumBut(v, j, k) == 0
  {
    if k > 0 { ButZero(v, j, k - 1); }
  }

  // ---- deviation from the exact share ------------------------------------------------------------------------------

  /** What all passes take from each segment. */
  function Cuts(sizes: seq<int>, mins: seq<int>, excess: int): (r: seq<int>)
    requires |sizes| == |mins|
    ensures |r| == |sizes|
  {
    seq(|sizes|, i requires 0 <= i < |sizes| => sizes[i] - Shrunk(sizes, mins, excess)[i])
  }

  /** How far each cut, scaled by the total slack, is from the exact share of the excess. */
  function Deviations(sizes: seq<int>, mins: seq<int>, excess: int): (r: seq<int>)
    requires |sizes| == |mins|
    ensures |r| == |sizes|
  {
    seq(|sizes|, i requires 0 <= i < |sizes| =>
      TotalSlack(sizes, mins) * Cuts(sizes, mins, excess)[i] - excess * SlackAt(sizes, mins, i))
  }

  /** One for each segment that has slack. */
  function Holders(sizes: seq<int>, mins: seq<int>): (r: seq<int>)
    requires |sizes| == |mins|
    ensures |r| == |sizes| && forall i :: 0 <= i < |r| ==> 0 <= r[i] <= 1
  {
    seq(|sizes|, i requires 0 <= i < |sizes| => if SlackAt(sizes, mins, i) > 0 then 1 else 0)
  }

  /** The number of segments with slack. */
  function HolderCount(sizes: seq<int>, mins: seq<int>): nat
    requires |sizes| == |mins|
  {
    HoldingTo(sizes, mins, |sizes|)
  }

  lemma {:induction false} HoldersSum(sizes: seq<int>, mins: seq<int>, k: nat)
    requires k <= |sizes| == |mins|
    ensures SumTo(Holders(sizes, mins), k) == HoldingTo(sizes, mins, k)
  {
    if k > 0 { HoldersSum(sizes, mins, k - 1); }
  }

  lemma {:induction false} CutsSum(sizes: seq<int>, mins: seq<int>, excess: int, k: nat)
    requires k <= |sizes| == |mins|
    ensures SumTo(Cuts(sizes, mins, excess), k) == SumTo(sizes, k) - SumTo(Shrunk(sizes, mins, excess), k)
  {
    hide Shrunk;
    if k > 0 { CutsSum(sizes, mins, excess, k - 1); }
  }

  lemma {:induction false} DeviationsSum(sizes: seq<int>, mins: seq<int>, excess: int, k: nat)
    requires k <= |sizes| == |mins|
    ensures SumTo(Deviations(sizes, mins, excess), k)
            == TotalSlack(sizes, mins) * SumTo(Cuts(sizes, mins, excess), k) - excess * SlackTo(sizes, mins, k)
  {
    hide Cuts, TotalSlack;
    if k > 0 {
      DeviationsSum(sizes, mins, excess, k - 1);
      var t, c, s := TotalSlack(sizes, mins), Cuts(sizes, mins, excess), SlackAt(sizes, mins, k - 1);
      assert t * (SumTo(c, k - 1) + c[k - 1]) == t * SumTo(c, k - 1) + t * c[k - 1];
      assert excess * (SlackTo(sizes, mins, k - 1) + s) == excess * SlackTo(sizes, mins, k - 1) + excess * s;
    }
  }

  /** The deviations cancel out. */
  lemma DeviationsCancel(sizes: seq<int>, mins: seq<int>, excess: int)
    requires |sizes| == |mins| && 0 <= excess <= TotalSlack(sizes, mins)
    ensures Sum(Deviations(sizes, mins, excess)) == 0
  {
    hide Shrunk, SlackTo, Deviations, Cuts;
    ShrunkExact(sizes, mins, excess);
    CutsSum(sizes, mins, excess, |sizes|);
    DeviationsSum(sizes, mins, excess, |sizes|);
    assert TotalSlack(sizes, mins) * excess == excess * TotalSlack(sizes, mins);
  }

  lemma CutWithinSlack(sizes: seq<int>, mins: seq<int>, excess: int, i: nat)
    requires i < |sizes| == |mins|
    ensures 0 <= Cuts(sizes, mins, excess)[i] <= SlackAt(sizes, mins, i)
  {
    hide Shrunk, SlackTo;
    ShrunkExact(sizes, mins, excess);
  }

  // ---- one pass -----------------------------------------------------------------------------------------------------

  lemma ShareAbove(r: int, s: int, t: int, reduced: int)
    requires 0 < r && 0 < t && reduced <= r
    ensures t * Share(r, s, t, reduced) - r * s <= if s > 0 then t - 1 else -(r * s)
  {
    if s > 0 {
      var q, cut := r * s / t, Share(r, s, t, reduced);
      assert r * s == q * t + r * s % t;
      assert r * s >= 1 by { MulMono(1, r, s); }
      if q >= 1 { MulMono(cut, q, t); } else { MulMono(cut, 1, t); }
      assert t * cut == cut * t;
    }
  }

  /** If one pass is enough, no segment gives more than a rounded-up share. */
  lemma OnePassAbove(sizes: seq<int>, mins: seq<int>, excess: int, i: nat)
    requires i < |sizes| == |mins| && 0 < excess < TotalSlack(sizes, mins)
    requires Taken(sizes, mins, excess, |sizes|) == excess
    ensures Deviations(sizes, mins, excess)[i] <= (TotalSlack(sizes, mins) - 1) * Holders(sizes, mins)[i]
  {
    hide Share, Taken, TotalSlack;
    OnePassShrinks(sizes, mins, excess, i);
    CutBounds(sizes, mins, excess, i);
    ShareAbove(excess, SlackAt(sizes, mins, i), TotalSlack(sizes, mins), Taken(sizes, mins, excess, i));
    if SlackAt(sizes, mins, i) == 0 { CutWithinSlack(sizes, mins, excess, i); }
  }

  lemma OnePassShrinks(sizes: seq<int>, mins: seq<int>, excess: int, i: nat)
    requires i < |sizes| == |mins| && 0 < excess && TotalSlack(sizes, mins) > 0
    requires Taken(sizes, mins, excess, |sizes|) == excess
    ensures Cuts(sizes, mins, excess)[i] == CutAt(sizes, mins, excess, i)
  {
    hide Share, Taken, CutAt, SlackTo;
    assert Shrunk(AfterPass(sizes, mins, excess), mins, 0) == AfterPass(sizes, mins, excess);
    assert Shrunk(sizes, mins, excess) == AfterPass(sizes, mins, excess);
  }

  lemma {:induction false} TakenMonotone(sizes: seq<int>, mins: seq<int>, excess: int, i: nat, k: nat)
    requires i <= k <= |sizes| == |mins| && TotalSlack(sizes, mins) > 0 && excess >= 0
    ensures Taken(sizes, mins, excess, i) <= Taken(sizes, mins, excess, k)
  {
    if i < k {
      TakenMonotone(sizes, mins, excess, i, k - 1);
      CutBounds(sizes, mins, excess, k);
    }
  }

  /** If one pass is not enough, every segment has given its rounded-down share. */
  lemma MorePassesBelow(sizes: seq<int>, mins: seq<int>, excess: int, i: nat)
    requires i < |sizes| == |mins| && 0 < excess < TotalSlack(sizes, mins)
    requires Taken(sizes, mins, excess, |sizes|) < excess
    ensures Deviations(sizes, mins, excess)[i] >= -((TotalSlack(sizes, mins) - 1) * Holders(sizes, mins)[i])
  {
    hide Share, TotalSlack, Shrunk;
    var s, t, before := SlackAt(sizes, mins, i), TotalSlack(sizes, mins), Taken(sizes, mins, excess, i);
    var cut, all := CutAt(sizes, mins, excess, i), Cuts(sizes, mins, excess)[i];
    TakenMonotone(sizes, mins, excess, i, |sizes|);
    TakenMonotone(sizes, mins, excess, i + 1, |sizes|);
    LaterPasses(sizes, mins, excess, i);
    if s > 0 {
      ShareLoss(excess, s, t, before, cut);
      MulMono(cut, all, t);
      assert t * cut <= t * all;
    } else {
      CutWithinSlack(sizes, mins, excess, i);
    }
  }

  /** Later passes only take more. */
  lemma LaterPasses(sizes: seq<int>, mins: seq<int>, excess: int, i: nat)
    requires i < |sizes| == |mins| && 0 < excess && TotalSlack(sizes, mins) > 0
    ensures Cuts(sizes, mins, excess)[i] >= CutAt(sizes, mins, excess, i)
  {
    hide Share, Taken, CutAt, SlackTo;
    var after, left := AfterPass(sizes, mins, excess), excess - Taken(sizes, mins, excess, |sizes|);
    PassProgress(sizes, mins, excess);
    assert Shrunk(sizes, mins, excess) == Shrunk(after, mins, left);
    ShrunkExact(after, mins, left);
  }

  // ---- all passes ----------------------------------------------------------------------------------------------------

  /**
   Over all passes, for any excess up to the slack: what a segment gives differs from its exact share by less
   than a pixel for each other segment with slack.
   */
  lemma ShrunkProportional(sizes: seq<int>, mins: seq<int>, excess: int, j: nat)
    requires j < |sizes| == |mins| && 0 <= excess <= TotalSlack(sizes, mins) && SlackAt(sizes, mins, j) > 0
    ensures var t, k := TotalSlack(sizes, mins), HolderCount(sizes, mins);
            -((t - 1) * (k - 1)) <= t * (sizes[j] - Shrunk(sizes, mins, excess)[j]) - excess * SlackAt(sizes, mins, j) <= (t - 1) * (k - 1)
  {
    hide Shrunk, SlackTo, Deviations, Cuts, Holders, Taken;
    var t, dev, held, n := TotalSlack(sizes, mins), Deviations(sizes, mins, excess), Holders(sizes, mins), |sizes|;
    DeviationsCancel(sizes, mins, excess);
    SumSplits(dev, j, n);
    HoldersSum(sizes, mins, n);
    SumSplits(held, j, n);
    HolderOf(sizes, mins, excess, j);
    var others := SumBut(held, j, n);
    ButPositive(held, j, n);
    assert (t - 1) * others >= 0 by { MulMono(0, others, t - 1); }
    if others == 0 {
      OnlyHolder(sizes, mins, excess, j);
    } else {
      MulMono(1, others, t - 1);
      DeviationBounds(sizes, mins, excess, j);
    }
  }

  lemma HolderOf(sizes: seq<int>, mins: seq<int>, excess: int, j: nat)
    requires j < |sizes| == |mins| && SlackAt(sizes, mins, j) > 0
    ensures Holders(sizes, mins)[j] == 1 && TotalSlack(sizes, mins) > 0
    ensures Deviations(sizes, mins, excess)[j]
            == TotalSlack(sizes, mins) * (sizes[j] - Shrunk(sizes, mins, excess)[j]) - excess * SlackAt(sizes, mins, j)
  {
    hide Shrunk, SlackTo;
    SlackHere(sizes, mins, j);
  }

  lemma SlackHere(sizes: seq<int>, mins: seq<int>, j: nat)
    requires j < |sizes| == |mins|
    ensures TotalSlack(sizes, mins) >= SlackAt(sizes, mins, j)
  {
    SlackNonNegative(sizes, mins, 0, j);
    SlackNonNegative(sizes, mins, j + 1, |sizes|);
  }

  lemma OnlyHolder(sizes: seq<int>, mins: seq<int>, excess: int, j: nat)
    requires j < |sizes| == |mins| && SumBut(Holders(sizes, mins), j, |sizes|) == 0
    ensures SumBut(Deviations(sizes, mins, excess), j, |sizes|) == 0
  {
    hide Shrunk, SlackTo, Cuts;
    ButPositive(Holders(sizes, mins), j, |sizes|);
    forall i | 0 <= i < |sizes| && i != j ensures Deviations(sizes, mins, excess)[i] == 0 {
      CutWithinSlack(sizes, mins, excess, i);
      assert Holders(sizes, mins)[i] == 0;
      assert Cuts(sizes, mins, excess)[i] == 0 && SlackAt(sizes, mins, i) == 0;
    }
    ButZero(Deviations(sizes, mins, excess), j, |sizes|);
  }

  lemma DeviationBounds(sizes: seq<int>, mins: seq<int>, excess: int, j: nat)
    requires j < |sizes| == |mins| && 0 <= excess <= TotalSlack(sizes, mins) && SlackAt(sizes, mins, j) > 0
    requires SumBut(Holders(sizes, mins), j, |sizes|) >= 1
    ensures var t, others := TotalSlack(sizes, mins), SumBut(Holders(sizes, mins), j, |sizes|);
            -((t - 1) * others) <= Deviations(sizes, mins, excess)[j] <= (t - 1) * others
  {
    hide Shrunk, SlackTo, Deviations, Cuts, Holders, Taken;
    var t, dev, held, n := TotalSlack(sizes, mins), Deviations(sizes, mins, excess), Holders(sizes, mins), |sizes|;
    HolderOf(sizes, mins, excess, j);
    MulMono(1, SumBut(held, j, n), t - 1);
    if excess == 0 || excess == t {
      ExactAtEnds(sizes, mins, excess, j);
    } else {
      OthersRound(sizes, mins, excess, j);
    }
  }

  /** The rounding of the segment itself bounds it on one side, that of the others on the other. */
  lemma OthersRound(sizes: seq<int>, mins: seq<int>, excess: int, j: nat)
    requires j < |sizes| == |mins| && 0 < excess < TotalSlack(sizes, mins)
    ensures var t, dev, held := TotalSlack(sizes, mins), Deviations(sizes, mins, excess), Holders(sizes, mins);
            var others := SumBut(held, j, |sizes|);
            || -((t - 1) * others) <= dev[j] <= (t - 1) * held[j]
            || -((t - 1) * held[j]) <= dev[j] <= (t - 1) * others
  {
    hide Shrunk, SlackTo, Deviations, Cuts, Holders, Taken;
    var t, dev, held, n := TotalSlack(sizes, mins), Deviations(sizes, mins, excess), Holders(sizes, mins), |sizes|;
    DeviationsCancel(sizes, mins, excess);
    SumSplits(dev, j, n);
    CutBounds(sizes, mins, excess, n);
    if Taken(sizes, mins, excess, n) == excess {
      forall i | 0 <= i < n ensures dev[i] <= (t - 1) * held[i] { OnePassAbove(sizes, mins, excess, i); }
      ButBounded(dev, held, t - 1, j, n);
    } else {
      forall i | 0 <= i < n ensures dev[i] >= -((t - 1) * held[i]) { MorePassesBelow(sizes, mins, excess, i); }
      ButAbove(dev, held, t - 1, j, n);
    }
  }

  lemma ExactAtEnds(sizes: seq<int>, mins: seq<int>, excess: int, j: nat)
    requires j < |sizes| == |mins| && (excess == 0 || excess == TotalSlack(sizes, mins))
    ensures Deviations(sizes, mins, excess)[j] == 0
  {
    hide Shrunk, SlackTo, Cuts;
    CutIs(sizes, mins, excess, j);
    if excess == TotalSlack(sizes, mins) { AllTaken(sizes, mins, excess, j); } else { NothingTaken(sizes, mins, excess); }
  }

  /** An excess of at least the slack takes all of it from every segment. */
  lemma AllTaken(sizes: seq<int>, mins: seq<int>, excess: int, j: nat)
    requires j < |sizes| == |mins| && TotalSlack(sizes, mins) <= excess
    ensures Cuts(sizes, mins, excess)[j] == SlackAt(sizes, mins, j)
  {
    hide Shrunk, Cuts;
    var n := |sizes|;
    var slacks := seq(n, i requires 0 <= i < n => SlackAt(sizes, mins, i));
    var cuts := Cuts(sizes, mins, excess);
    ShrunkExact(sizes, mins, excess);
    CutsSum(sizes, mins, excess, n);
    SlacksSum(sizes, mins, slacks, n);
    SlackNonNegative(sizes, mins, 0, n);
    forall i | 0 <= i < n ensures 0 <= cuts[i] <= slacks[i] { CutWithinSlack(sizes, mins, excess, i); }
    ButBounded(cuts, slacks, 1, j, n);
    SumSplits(cuts, j, n);
    SumSplits(slacks, j, n);
  }

  lemma {:induction false} SlacksSum(sizes: seq<int>, mins: seq<int>, slacks: seq<int>, k: nat)
    requires k <= |sizes| == |mins| == |slacks| && forall i :: 0 <= i < |slacks| ==> slacks[i] == SlackAt(sizes, mins, i)
    ensures SumTo(slacks, k) == SlackTo(sizes, mins, k)
  {
    if k > 0 { SlacksSum(sizes, mins, slacks, k - 1); }
  }

  // ---- more room -----------------------------------------------------------------------------------------------------

  /** The most pixels that a smaller excess can cost a segment. */
  function WorstLoss(sizes: seq<int>, mins: seq<int>): nat
    requires |sizes| == |mins|
  {
    Max(0, 2 * HolderCount(sizes, mins) - 3)
  }

  lemma LossFromDeviation(t: int, k: nat, a: int, b: int, shareA: int, shareB: int)
    requires t >= 1 && k >= 1 && shareA <= shareB
    requires t * a - shareA <= (t - 1) * (k - 1) && t * b - shareB >= -((t - 1) * (k - 1))
    ensures a - b <= Max(0, 2 * k - 3)
  {
    var w := Max(0, 2 * k - 3);
    assert t * (a - b) == t * a - t * b <= 2 * ((t - 1) * (k - 1));
    assert (t - 1) * (k - 1) == t * (k - 1) - (k - 1);
    if a - b > w {
      MulMono(w + 1, a - b, t);
    }
  }

  /** A smaller excess can leave a segment smaller, but by no more than the bound. */
  lemma LessExcessCostsLittle(sizes: seq<int>, mins: seq<int>, less: int, excess: int, j: nat)
    requires j < |sizes| == |mins| && less <= excess
    ensures Shrunk(sizes, mins, excess)[j] - Shrunk(sizes, mins, less)[j] <= WorstLoss(sizes, mins)
  {
    hide Shrunk, SlackTo, Cuts;
    var t, s := TotalSlack(sizes, mins), SlackAt(sizes, mins, j);
    CutIs(sizes, mins, excess, j);
    CutIs(sizes, mins, less, j);
    CutWithinSlack(sizes, mins, less, j);
    CutWithinSlack(sizes, mins, excess, j);
    if t <= excess {
      AllTaken(sizes, mins, excess, j);
    } else if less < 0 {
      NothingTaken(sizes, mins, less);
      NothingTaken(sizes, mins, 0);
    } else if s > 0 {
      HolderOf(sizes, mins, less, j);
      SomeoneHolds(sizes, mins, |sizes|);
      ShrunkProportional(sizes, mins, less, j);
      ShrunkProportional(sizes, mins, excess, j);
      MulMono(less, excess, s);
      LossFromDeviation(t, HolderCount(sizes, mins), Cuts(sizes, mins, less)[j], Cuts(sizes, mins, excess)[j], less * s, excess * s);
    }
  }

  lemma NothingTaken(sizes: seq<int>, mins: seq<int>, excess: int)
    requires |sizes| == |mins| && excess <= 0
    ensures Shrunk(sizes, mins, excess) == sizes
  {
  }

  lemma CutIs(sizes: seq<int>, mins: seq<int>, excess: int, j: nat)
    requires j < |sizes| == |mins|
    ensures Cuts(sizes, mins, excess)[j] == sizes[j] - Shrunk(sizes, mins, excess)[j]
  {
    hide Shrunk;
  }

  /** The whole routine in more room: no segment ends more than the bound below what it had. */
  lemma MoreRoomCostsLittle(sizes: seq<int>, mins: seq<int>, room: int, more: int, j: nat)
    requires j < |sizes| == |mins| && 0 < room <= more
    ensures Fitted(sizes, mins, room)[j] - Fitted(sizes, mins, more)[j] <= WorstLoss(sizes, mins)
  {
    hide Shrunk;
    NothingTaken(sizes, mins, 0);
    NothingTaken(sizes, mins, Min(0, Occupied(sizes) - more));
    NothingTaken(sizes, mins, Min(0, Occupied(sizes) - room));
    LessExcessCostsLittle(sizes, mins, Occupied(sizes) - more, Occupied(sizes) - room, j);
  }

  /** The slack of three segments and what one pass takes from them. */
  lemma ThreePass(s: seq<int>, m: seq<int>, excess: int, t: int, a: int, b: int, c: int)
    requires |s| == |m| == 3 && excess > 0 && t > 0
    requires t == Max(0, s[0] - m[0]) + Max(0, s[1] - m[1]) + Max(0, s[2] - m[2])
    requires a == Share(excess, Max(0, s[0] - m[0]), t, 0) && b == Share(excess, Max(0, s[1] - m[1]), t, a)
    requires c == Share(excess, Max(0, s[2] - m[2]), t, a + b)
    ensures TotalSlack(s, m) == t && Taken(s, m, excess, 3) == a + b + c
    ensures AfterPass(s, m, excess) == [s[0] - a, s[1] - b, s[2] - c]
  {
    hide Share;
    assert SlackTo(s, m, 0) == 0 && SlackTo(s, m, 1) == Max(0, s[0] - m[0]);
    assert SlackTo(s, m, 2) == Max(0, s[0] - m[0]) + Max(0, s[1] - m[1]);
    assert Taken(s, m, excess, 0) == 0 && CutAt(s, m, excess, 0) == a;
    assert Taken(s, m, excess, 1) == a && CutAt(s, m, excess, 1) == b;
    assert Taken(s, m, excess, 2) == a + b && CutAt(s, m, excess, 2) == c;
  }

  /** Three segments in which one pixel more room costs the first a pixel. */
  lemma PixelLost()
    ensures Shrunk([3, 5, 5], [1, 1, 1], 5) == [2, 3, 3]
    ensures Shrunk([3, 5, 5], [1, 1, 1], 4) == [1, 4, 4]
  {
    hide Taken, SlackTo, AfterPass, CutAt;
    var s, m := [3, 5, 5], [1, 1, 1];
    ThreePass(s, m, 5, 10, 1, 2, 2);
    assert Shrunk([2, 3, 3], m, 0) == [2, 3, 3];
    ThreePass(s, m, 4, 10, 1, 1, 1);
    ThreePass([2, 4, 4], m, 1, 7, 1, 0, 0);
    assert Shrunk([1, 4, 4], m, 0) == [1, 4, 4];
    assert Shrunk([2, 4, 4], m, 1) == [1, 4, 4];
  }
}
