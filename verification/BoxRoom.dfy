/**
 The exact room a box needs: when every child shows inside it and every fixed one has its own length.
 Nothing is asked of what the children measure.
 */
module BoxRoom {
  import opened Arith
  import opened Measure
  import opened Segments
  import opened BoxLayout

  // ---- runs of segments of at least a pixel ---------------------------------------------------------------------

  /** The lengths that are shown: a segment takes at least a pixel. */
  function Shown(lens: seq<int>): (r: seq<int>)
    ensures |r| == |lens| && forall i :: 0 <= i < |r| ==> r[i] == Max(1, lens[i])
  {
    seq(|lens|, i requires 0 <= i < |lens| => Max(1, lens[i]))
  }

  lemma {:induction false} ShownRun(lens: seq<int>, spacing: int, start: int, end: int, i: nat)
    requires i <= |lens|
    ensures PosAt(Shown(lens), spacing, start, end, i) == PosAt(lens, spacing, start, end, i)
    ensures i < |lens| ==> ExtentAt(Shown(lens), spacing, start, end, i) == ExtentAt(lens, spacing, start, end, i)
  {
    if i > 0 { ShownRun(lens, spacing, start, end, i - 1); }
  }

  /** If what is shown fits, every segment is inside and has what it shows. */
  lemma ShownFits(lens: seq<int>, spacing: int, start: int, end: int, i: nat)
    requires i < |lens| && spacing >= 0 && Sum(Shown(lens)) + Gaps(spacing, |lens|) <= end - start
    ensures var p, e := PosAt(lens, spacing, start, end, i), ExtentAt(lens, spacing, start, end, i);
            && start <= p && p + e <= end && e == Max(1, lens[i])
            && (i == |lens| - 1 ==> p + e == start + Sum(Shown(lens)) + Gaps(spacing, |lens|))
  {
    ShownRun(lens, spacing, start, end, i);
    HasRoom(Shown(lens), spacing, end - start);
    SegmentFits(Shown(lens), spacing, start, end, i);
    RunUnclipped(Shown(lens), spacing, start, end, i);
  }

  // ---- the exact condition --------------------------------------------------------------------------------------

  /** The fixed lengths, a pixel for each flexible child, and the spacing. */
  function Needed(slots: seq<Slot>, spacing: int): int {
    FixedTo(slots, |slots|) + CountedTo(slots, |slots|) + Gaps(spacing, |slots|)
  }

  /** No fixed child is empty. */
  predicate FixedShow(slots: seq<Slot>) { forall i :: 0 <= i < |slots| && !slots[i].counted ==> slots[i].size >= 1 }

  predicate BoxFits(slots: seq<Slot>, inner: int, spacing: int) { FixedShow(slots) && Needed(slots, spacing) <= inner }

  predicate SegmentHolds(slot: Slot, pos: int, extent: int, start: int, end: int) {
    start <= pos && pos + extent <= end && (!slot.counted ==> extent == slot.size)
  }

  /** Every segment lies inside, and a fixed one has its own length. */
  predicate RunHolds(slots: seq<Slot>, lens: seq<int>, spacing: int, start: int, end: int)
    requires |slots| == |lens|
  {
    forall i :: 0 <= i < |lens| ==>
      SegmentHolds(slots[i], PosAt(lens, spacing, start, end, i), ExtentAt(lens, spacing, start, end, i), start, end)
  }

  lemma {:induction false} SharesPositive(slots: seq<Slot>, inner: int, spacing: int, i: nat)
    requires i < |slots| && slots[i].receives && 0 < CountedTo(slots, |slots|) <= Available(slots, inner, spacing)
    ensures Spread(slots, inner, spacing)[i] >= 1
  {
    QuotientPositive(Available(slots, inner, spacing), CountedTo(slots, |slots|));
  }

  lemma QuotientPositive(a: int, n: int)
    requires 0 < n <= a
    ensures a / n >= 1
  {}

  lemma {:induction false} ShownTo(slots: seq<Slot>, inner: int, spacing: int, k: nat)
    requires k <= |slots| && FromChildren(slots) && FixedShow(slots)
    requires 0 < CountedTo(slots, |slots|) <= Available(slots, inner, spacing)
    ensures SumTo(Shown(Spread(slots, inner, spacing)), k)
            == FixedTo(slots, k) + CountedTo(slots, k) - ReceivingTo(slots, k)
               + Handed(Available(slots, inner, spacing), CountedTo(slots, |slots|), ReceivingTo(slots, k))
  {
    hide Handed, Available;
    var a, n := Available(slots, inner, spacing), CountedTo(slots, |slots|);
    if k == 0 {
      HandedNext(a, n, 0);
    } else {
      ShownTo(slots, inner, spacing, k - 1);
      HandedNext(a, n, ReceivingTo(slots, k - 1));
      if slots[k - 1].receives { SharesPositive(slots, inner, spacing, k - 1); }
    }
  }

  lemma {:induction false} ShownFixed(slots: seq<Slot>, inner: int, spacing: int, k: nat)
    requires k <= |slots| && CountedTo(slots, k) == 0 && FromChildren(slots) && FixedShow(slots)
    ensures SumTo(Shown(Spread(slots, inner, spacing)), k) == FixedTo(slots, k)
  {
    if k > 0 { ShownFixed(slots, inner, spacing, k - 1); }
  }

  /** What is handed out, and a pixel for every counted child that receives nothing, stays within the room. */
  lemma HandedAndPixels(a: int, n: nat, m: nat)
    requires 0 < n <= a && m <= n
    ensures Handed(a, n, m) + n - m <= a
    ensures Handed(a, n, m) + n - m == a <==> m == n || a <= n + m
  {
    var q, t := a / n, a % n;
    QuotientPositive(a, n);
    assert n * q + t == a;
    assert n * q == m * q + (n - m) * q;
    assert (n - m) * q == (n - m) * (q - 1) + (n - m);
    MulMono(0, n - m, q - 1);
    if m < n {
      if q >= 2 { MulMono(1, n - m, q - 1); MulMono(2, q, n); assert n * q >= 2 * n; }
      else { assert q == 1; }
    }
  }

  /** The condition under which the run ends exactly at the far edge. */
  predicate EndsAtEdge(slots: seq<Slot>, inner: int, spacing: int) {
    var n, m := CountedTo(slots, |slots|), ReceivingTo(slots, |slots|);
    if n == 0 then FixedTo(slots, |slots|) + Gaps(spacing, |slots|) == inner
    else m == n || Available(slots, inner, spacing) <= n + m
  }

  lemma ShownSum(slots: seq<Slot>, inner: int, spacing: int)
    requires FromChildren(slots) && BoxFits(slots, inner, spacing)
    ensures Sum(Shown(Spread(slots, inner, spacing))) + Gaps(spacing, |slots|) <= inner
    ensures Sum(Shown(Spread(slots, inner, spacing))) + Gaps(spacing, |slots|) == inner <==> EndsAtEdge(slots, inner, spacing)
  {
    hide Handed, Spread;
    var n, m := CountedTo(slots, |slots|), ReceivingTo(slots, |slots|);
    ReceiversAreCountedTo(slots, |slots|);
    if n > 0 {
      ShownTo(slots, inner, spacing, |slots|);
      HandedAndPixels(Available(slots, inner, spacing), n, m);
    } else {
      ShownFixed(slots, inner, spacing, |slots|);
    }
  }

  lemma {:induction false} FixedKept(slots: seq<Slot>, inner: int, spacing: int, i: nat)
    requires i < |slots| && FromChildren(slots) && !slots[i].counted
    ensures Spread(slots, inner, spacing)[i] == slots[i].size
  {
  }

  /** The positions of a run, clipped or not, add up its extents. */
  lemma {:induction false} ExtentsAdd(slots: seq<Slot>, lens: seq<int>, spacing: int, start: int, end: int, k: nat)
    requires k <= |slots| == |lens| && RunHolds(slots, lens, spacing, start, end)
    ensures PosAt(lens, spacing, start, end, k) >= start + FixedTo(slots, k) + CountedTo(slots, k) + k * spacing
  {
    if k > 0 {
      ExtentsAdd(slots, lens, spacing, start, end, k - 1);
      assert k * spacing == (k - 1) * spacing + spacing;
      assert SegmentHolds(slots[k - 1], PosAt(lens, spacing, start, end, k - 1), ExtentAt(lens, spacing, start, end, k - 1), start, end);
    }
  }

  /** Whatever the lengths: children that are inside with their own lengths need the room. */
  lemma HoldsNeedsRoom(slots: seq<Slot>, lens: seq<int>, spacing: int, start: int, end: int)
    requires |slots| == |lens| > 0 && RunHolds(slots, lens, spacing, start, end)
    ensures BoxFits(slots, end - start, spacing)
  {
    var n := |slots|;
    ExtentsAdd(slots, lens, spacing, start, end, n);
    assert n * spacing == spacing * (n - 1) + spacing;
    forall i | 0 <= i < n && !slots[i].counted ensures slots[i].size >= 1 {
      assert SegmentHolds(slots[i], PosAt(lens, spacing, start, end, i), ExtentAt(lens, spacing, start, end, i), start, end);
    }
    assert SegmentHolds(slots[n - 1], PosAt(lens, spacing, start, end, n - 1), ExtentAt(lens, spacing, start, end, n - 1), start, end);
  }

  /**
   The exact room: after distribution every child is inside and every fixed one has its own length if and
   only if no fixed child is empty and the fixed lengths, a pixel per flexible child and the spacing fit.
   */
  lemma SpreadHolds(slots: seq<Slot>, spacing: int, start: int, end: int)
    requires FromChildren(slots) && spacing >= 0 && slots != []
    ensures RunHolds(slots, Spread(slots, end - start, spacing), spacing, start, end) <==> BoxFits(slots, end - start, spacing)
  {
    hide PosAt, ExtentAt, Spread;
    var lens := Spread(slots, end - start, spacing);
    if BoxFits(slots, end - start, spacing) {
      ShownSum(slots, end - start, spacing);
      forall i | 0 <= i < |lens|
        ensures SegmentHolds(slots[i], PosAt(lens, spacing, start, end, i), ExtentAt(lens, spacing, start, end, i), start, end)
      {
        ShownFits(lens, spacing, start, end, i);
        if !slots[i].counted { FixedKept(slots, end - start, spacing, i); }
      }
    } else if RunHolds(slots, lens, spacing, start, end) {
      HoldsNeedsRoom(slots, lens, spacing, start, end);
    }
  }

  /** In the exact room nothing is shrunk, whatever the minimums. */
  lemma NothingShrunk(slots: seq<Slot>, mins: seq<int>, inner: int, spacing: int)
    requires FromChildren(slots) && BoxFits(slots, inner, spacing) && |mins| == |slots|
    ensures Fitted(Spread(slots, inner, spacing), mins, Max(1, inner - Gaps(spacing, |slots|))) == Spread(slots, inner, spacing)
  {
    ShownSum(slots, inner, spacing);
    OccupiedBelowShown(Spread(slots, inner, spacing), |slots|);
  }

  lemma {:induction false} OccupiedBelowShown(lens: seq<int>, k: nat)
    requires k <= |lens|
    ensures OccupiedTo(lens, k) <= SumTo(Shown(lens), k)
  {
    if k > 0 { OccupiedBelowShown(lens, k - 1); }
  }

  // ---- what measuring leaves for the flexible children ----------------------------------------------------------------

  /** What the flexible children among the first `k` measure. */
  function CountedMeasure(slots: seq<Slot>, lengths: seq<int>, k: nat): int
    requires k <= |slots| == |lengths|
  {
    if k == 0 then 0 else CountedMeasure(slots, lengths, k - 1) + if slots[k - 1].counted then lengths[k - 1] else 0
  }

  /** Every fixed slot is as long as its child measures. */
  predicate FixedMeasured(slots: seq<Slot>, lengths: seq<int>) {
    |slots| == |lengths| && forall i :: 0 <= i < |slots| && !slots[i].counted ==> slots[i].size == lengths[i]
  }

  lemma {:induction false} MeasureSplits(slots: seq<Slot>, lengths: seq<int>, k: nat)
    requires FixedMeasured(slots, lengths) && k <= |slots|
    ensures SumTo(lengths, k) == FixedTo(slots, k) + CountedMeasure(slots, lengths, k)
  {
    if k > 0 { MeasureSplits(slots, lengths, k - 1); }
  }

  /** The measured size is the exact room if and only if the flexible children measure at least a pixel on average. */
  lemma MeasuredRoom(slots: seq<Slot>, lengths: seq<int>, spacing: int)
    requires FixedMeasured(slots, lengths)
    ensures BoxFits(slots, Sum(lengths) + Gaps(spacing, |slots|), spacing)
            <==> FixedShow(slots) && CountedTo(slots, |slots|) <= CountedMeasure(slots, lengths, |slots|)
  {
    MeasureSplits(slots, lengths, |slots|);
  }

  lemma {:induction false} PositiveMeasures(slots: seq<Slot>, lengths: seq<int>, k: nat)
    requires k <= |slots| == |lengths| && forall i :: 0 <= i < |lengths| ==> lengths[i] >= 1
    ensures CountedTo(slots, k) <= CountedMeasure(slots, lengths, k)
  {
    if k > 0 { PositiveMeasures(slots, lengths, k - 1); }
  }

  // ---- who receives a pixel -----------------------------------------------------------------------------------------

  lemma {:induction false} LastReceiver(slots: seq<Slot>, k: nat) returns (i: nat)
    requires k <= |slots| && ReceivingTo(slots, k) > 0
    ensures i < k && slots[i].receives && ReceivingTo(slots, i) == ReceivingTo(slots, k) - 1
  {
    if slots[k - 1].receives { i := k - 1; } else { i := LastReceiver(slots, k - 1); }
  }

  /** Every receiving child gets a pixel if and only if there are no more of them than pixels available. */
  lemma ReceiversShow(slots: seq<Slot>, inner: int, spacing: int)
    requires FromChildren(slots)
    ensures (forall i :: 0 <= i < |slots| && slots[i].receives ==> Spread(slots, inner, spacing)[i] >= 1)
            <==> ReceivingTo(slots, |slots|) <= Available(slots, inner, spacing)
  {
    hide Available;
    var a, n, m := Available(slots, inner, spacing), CountedTo(slots, |slots|), ReceivingTo(slots, |slots|);
    ReceiversAreCountedTo(slots, |slots|);
    if m <= a {
      forall i | 0 <= i < |slots| && slots[i].receives ensures Spread(slots, inner, spacing)[i] >= 1 {
        ReceivingMonotone(slots, i + 1, |slots|);
        ShareShows(a, n, ReceivingTo(slots, i));
      }
    } else {
      var i := LastReceiver(slots, |slots|);
      SmallDivision(a, n);
      assert Spread(slots, inner, spacing)[i] == 0;
    }
  }

  lemma SmallDivision(a: int, n: int)
    requires 0 <= a < n
    ensures a / n == 0 && a % n == a
  {}

  lemma ShareShows(a: int, n: nat, rank: nat)
    requires rank < n && rank < a
    ensures a / n + (if rank < a % n then 1 else 0) >= 1
  {
    if a < n { SmallDivision(a, n); } else { QuotientPositive(a, n); }
  }

  // ---- more room never hurts ---------------------------------------------------------------------------------------------

  lemma ShareStep(a: int, n: nat, rank: nat)
    requires a >= 0 && 0 <= rank < n
    ensures a / n + (if rank < a % n then 1 else 0) <= (a + 1) / n + if rank < (a + 1) % n then 1 else 0
  {
    var q, t := a / n, a % n;
    assert a == n * q + t;
    if t + 1 < n { DivisionIs(a + 1, n, q, t + 1); }
    else { assert n * (q + 1) == n * q + n; DivisionIs(a + 1, n, q + 1, 0); }
  }

  lemma DivisionIs(a: int, n: int, q: int, t: int)
    requires 0 <= t < n && a == n * q + t
    ensures a / n == q && a % n == t
  {
    var p, s := a / n, a % n;
    assert n * (p - q) == t - s;
    if p > q { MulMono(1, p - q, n); } else if p < q { MulMono(p - q, -1, n); }
  }

  lemma {:induction false} ShareMonotone(a: int, b: int, n: nat, rank: nat)
    requires 0 <= a <= b && 0 <= rank < n
    ensures a / n + (if rank < a % n then 1 else 0) <= b / n + if rank < b % n then 1 else 0
    decreases b - a
  {
    if a < b {
      ShareStep(a, n, rank);
      ShareMonotone(a + 1, b, n, rank);
    }
  }

  /** More room never lowers what a child is given. */
  lemma SpreadGrows(slots: seq<Slot>, inner: int, more: int, spacing: int, i: nat)
    requires FromChildren(slots) && i < |slots| && inner <= more
    ensures Spread(slots, inner, spacing)[i] <= Spread(slots, more, spacing)[i]
  {
    var n := CountedTo(slots, |slots|);
    if slots[i].receives && n > 0 {
      ReceivingMonotone(slots, i + 1, |slots|);
      ReceiversAreCountedTo(slots, |slots|);
      ShareMonotone(Available(slots, inner, spacing), Available(slots, more, spacing), n, ReceivingTo(slots, i));
    }
  }
}
