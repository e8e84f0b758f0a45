/**
 Placing the children of a vertical or horizontal box: fixed, flexible and spacer segments, the
 distribution of the remaining space and the run of rectangles.
 */
module BoxLayout {
  import opened Arith
  import opened Text
  import opened UiReader
  import opened Measure
  import opened Segments

  // ---- segments -----------------------------------------------------------------------------------------

  /**
   A child along the main axis. `size` is its length before distribution, `counted` says that it is
   one of the flexible children, `receives` that it takes part in the distribution.
   */
  datatype Slot = Slot(size: int, counted: bool, receives: bool)

  function FixedSlot(size: int): Slot { Slot(size, false, false) }

  function FlexSlot(): Slot { Slot(0, true, true) }

  /** A measured child: not positive means flexible, but only a zero length is filled in. */
  function MeasuredSlot(size: int): Slot { Slot(size, size <= 0, size == 0) }

  function VerticalSlot(lc: LayoutChild, size: Size): Slot {
    if lc.kind.Spacer? then (if SpacerCanExpand(lc) then FlexSlot() else FixedSlot(lc.sizeHintH))
    else MeasuredSlot(size.h)
  }

  function HorizontalSlot(lc: LayoutChild, size: Size): Slot {
    if lc.kind.Spacer? then (if SpacerCanExpand(lc) then FlexSlot() else FixedSlot(lc.sizeHintW))
    else if FlexibleHorizontally(lc) then FlexSlot()
    else MeasuredSlot(size.w)
  }

  function VerticalSlots(act: seq<LayoutChild>, sizes: seq<Size>): (r: seq<Slot>)
    requires |act| == |sizes|
    ensures |r| == |act|
  {
    seq(|act|, i requires 0 <= i < |act| => VerticalSlot(act[i], sizes[i]))
  }

  function HorizontalSlots(act: seq<LayoutChild>, sizes: seq<Size>): (r: seq<Slot>)
    requires |act| == |sizes|
    ensures |r| == |act|
  {
    seq(|act|, i requires 0 <= i < |act| => HorizontalSlot(act[i], sizes[i]))
  }

  function FixedTo(slots: seq<Slot>, k: nat): int
    requires k <= |slots|
  {
    if k == 0 then 0 else FixedTo(slots, k - 1) + if slots[k - 1].counted then 0 else slots[k - 1].size
  }

  function CountedTo(slots: seq<Slot>, k: nat): nat
    requires k <= |slots|
  {
    if k == 0 then 0 else CountedTo(slots, k - 1) + if slots[k - 1].counted then 1 else 0
  }

  function ReceivingTo(slots: seq<Slot>, k: nat): nat
    requires k <= |slots|
  {
    if k == 0 then 0 else ReceivingTo(slots, k - 1) + if slots[k - 1].receives then 1 else 0
  }

  /** The space left for the flexible children. */
  function Available(slots: seq<Slot>, inner: int, spacing: int): (r: int)
    ensures r >= 0
  {
    Max(0, inner - FixedTo(slots, |slots|) - Gaps(spacing, |slots|))
  }

  /** What the receiving child at position `i` gets: earlier receivers take the remainder pixels. */
  function ShareAt(slots: seq<Slot>, available: int, i: nat): int
    requires i < |slots| && available >= 0
  {
    var n := CountedTo(slots, |slots|);
    if n == 0 then 0
    else available / n + if ReceivingTo(slots, i) < available % n then 1 else 0
  }

  function Spread(slots: seq<Slot>, inner: int, spacing: int): (r: seq<int>)
    ensures |r| == |slots|
  {
    seq(|slots|, i requires 0 <= i < |slots| =>
      if slots[i].receives then ShareAt(slots, Available(slots, inner, spacing), i) else slots[i].size)
  }

  // ---- the run of rectangles --------------------------------------------------------------------------------

  /** The length given to a segment at `pos`, clipped at the far edge while it starts before it. */
  function Clip(length: int, pos: int, end: int): int {
    var remaining := Max(0, end - pos);
    Max(1, Min(length, if remaining > 0 then remaining else length))
  }

  function PosAt(lengths: seq<int>, spacing: int, start: int, end: int, i: nat): int
    requires i <= |lengths|
  {
    if i == 0 then start
    else
      var pos := PosAt(lengths, spacing, start, end, i - 1);
      pos + Clip(lengths[i - 1], pos, end) + spacing
  }

  function ExtentAt(lengths: seq<int>, spacing: int, start: int, end: int, i: nat): int
    requires i < |lengths|
  {
    Clip(lengths[i], PosAt(lengths, spacing, start, end, i), end)
  }

  // ---- sizes across the axis -----------------------------------------------------------------------------------

  function CrossConstraints(lc: LayoutChild): (sc: SizeConstraints)
    ensures sc.Valid()
  {
    if lc.kind.Widget? then ReadSizeConstraints(lc.node) else UNCONSTRAINED
  }

  function Limited(length: int, min: Option<int>, max: Option<int>): int {
    var a := if min.Some? then Max(length, min.value) else length;
    var b := if max.Some? then Min(a, max.value) else a;
    Max(1, b)
  }

  function ResolvedHBoxHeight(lc: LayoutChild, size: Size, available: int): int {
    if lc.kind.Spacer? then Max(1, available)
    else
      var sc := CrossConstraints(lc);
      var height :=
        if FixedSize(sc.minH, sc.maxH) then sc.minH.value
        else if sc.maxH.Some? && sc.maxH.value < available then sc.maxH.value
        else if size.h > 0 then Min(available, size.h)
        else available;
      Limited(height, sc.minH, sc.maxH)
  }

  function ResolvedVBoxWidth(lc: LayoutChild, size: Size, available: int): int {
    if lc.kind.Spacer? then Max(1, available)
    else
      var sc := CrossConstraints(lc);
      var width :=
        if FixedSize(sc.minW, sc.maxW) then sc.minW.value
        else if sc.maxW.Some? && sc.maxW.value < available then sc.maxW.value
        else if size.w > 0 && sc.maxW.Some? then Min(available, Max(size.w, sc.maxW.value))
        else available;
      Limited(width, sc.minW, sc.maxW)
  }

  // ---- boxes ------------------------------------------------------------------------------------------------

  function Inner(r: Rect, lp: LayoutProps): (i: Rect)
    ensures i.w >= 1 && i.h >= 1
  {
    Rect(r.x + lp.left, r.y + lp.top, Max(1, r.w - lp.left - lp.right), Max(1, r.h - lp.top - lp.bottom))
  }

  /** The minimum length of a child of a horizontal box. */
  function MinWidth(lc: LayoutChild): (m: int)
    ensures m >= 1
  {
    if lc.kind.Spacer? then (if SpacerCanExpand(lc) then 1 else Max(1, lc.sizeHintW))
    else if lc.kind.Widget? then
      var sc := ReadSizeConstraints(lc.node);
      if sc.minW.Some? then Max(1, sc.minW.value) else 1
    else 1
  }

  function MinWidths(act: seq<LayoutChild>): (r: seq<int>)
    ensures |r| == |act| && forall i :: 0 <= i < |r| ==> r[i] >= 1
  {
    seq(|act|, i requires 0 <= i < |act| => MinWidth(act[i]))
  }

  function VLengths(act: seq<LayoutChild>, sizes: seq<Size>, inner: int, spacing: int): (r: seq<int>)
    requires |act| == |sizes|
    ensures |r| == |act|
  {
    Spread(VerticalSlots(act, sizes), inner, spacing)
  }

  function HLengths(act: seq<LayoutChild>, sizes: seq<Size>, inner: int, spacing: int): (r: seq<int>)
    requires |act| == |sizes|
    ensures |r| == |act|
  {
    Fitted(Spread(HorizontalSlots(act, sizes), inner, spacing), MinWidths(act), Max(1, inner - Gaps(spacing, |act|)))
  }

  /** The rectangle of the child at position `i`, given the lengths along the axis. */
  function VBoxRect(lc: LayoutChild, size: Size, inner: Rect, spacing: int, lens: seq<int>, i: nat): Rect
    requires i < |lens|
  {
    Rect(inner.x, PosAt(lens, spacing, inner.y, inner.y + inner.h, i),
         ResolvedVBoxWidth(lc, size, inner.w), ExtentAt(lens, spacing, inner.y, inner.y + inner.h, i))
  }

  function HBoxRect(lc: LayoutChild, size: Size, inner: Rect, spacing: int, lens: seq<int>, i: nat): Rect
    requires i < |lens|
  {
    var height := ResolvedHBoxHeight(lc, size, inner.h);
    Rect(PosAt(lens, spacing, inner.x, inner.x + inner.w, i), inner.y + Max(0, TruncDiv(inner.h - height, 2)),
         ExtentAt(lens, spacing, inner.x, inner.x + inner.w, i), height)
  }

  function VBoxRectAt(act: seq<LayoutChild>, sizes: seq<Size>, inner: Rect, spacing: int, i: nat): Rect
    requires |act| == |sizes| && i < |act|
  {
    VBoxRect(act[i], sizes[i], inner, spacing, VLengths(act, sizes, inner.h, spacing), i)
  }

  function HBoxRectAt(act: seq<LayoutChild>, sizes: seq<Size>, inner: Rect, spacing: int, i: nat): Rect
    requires |act| == |sizes| && i < |act|
  {
    HBoxRect(act[i], sizes[i], inner, spacing, HLengths(act, sizes, inner.w, spacing), i)
  }

  // ---- facts about every run -----------------------------------------------------------------------------------

  /**
   For any lengths and spacing: segments follow each other at exactly the spacing, are at least one
   pixel long, and a segment that starts before the far edge does not cross it.
   */
  lemma RunSeparated(lengths: seq<int>, spacing: int, start: int, end: int, i: nat)
    requires i < |lengths|
    ensures var p, e := PosAt(lengths, spacing, start, end, i), ExtentAt(lengths, spacing, start, end, i);
            && PosAt(lengths, spacing, start, end, i + 1) - (p + e) == spacing
            && e >= 1
            && (p < end ==> p + e <= end)
  {}

  lemma {:induction false} RunOrdered(lengths: seq<int>, spacing: int, start: int, end: int, i: nat, j: nat)
    requires i < j <= |lengths| && spacing >= 0
    ensures PosAt(lengths, spacing, start, end, i) + ExtentAt(lengths, spacing, start, end, i)
         <= PosAt(lengths, spacing, start, end, j)
  {
    if i + 1 < j {
      RunOrdered(lengths, spacing, start, end, i, j - 1);
      RunSeparated(lengths, spacing, start, end, j - 1);
    }
  }

  /** The distance from the start of an unclipped run to its segment `i`. */
  function Offset(lengths: seq<int>, spacing: int, i: nat): int
    requires i <= |lengths|
  {
    if i == 0 then 0 else Offset(lengths, spacing, i - 1) + lengths[i - 1] + spacing
  }

  lemma {:induction false} OffsetSum(lengths: seq<int>, spacing: int, i: nat)
    requires i <= |lengths|
    ensures Offset(lengths, spacing, i) == SumTo(lengths, i) + i * spacing
  {
    if i > 0 {
      OffsetSum(lengths, spacing, i - 1);
      assert i * spacing == (i - 1) * spacing + spacing;
    }
  }

  lemma {:induction false} OffsetMonotone(lengths: seq<int>, spacing: int, i: nat, k: nat)
    requires i <= k <= |lengths| && spacing >= 0
    requires forall j :: 0 <= j < |lengths| ==> lengths[j] >= 1
    ensures Offset(lengths, spacing, i) <= Offset(lengths, spacing, k)
  {
    if i < k { OffsetMonotone(lengths, spacing, i, k - 1); }
  }

  predicate RunHasRoom(lengths: seq<int>, spacing: int, room: int) {
    && spacing >= 0
    && (forall j :: 0 <= j < |lengths| ==> lengths[j] >= 1)
    && Offset(lengths, spacing, |lengths|) - spacing <= room
  }

  lemma ClipFits(length: int, pos: int, end: int)
    requires length >= 1 && pos + length <= end
    ensures Clip(length, pos, end) == length
  {}

  /** A run of positive lengths that fits is not clipped anywhere. */
  lemma {:induction false} RunUnclipped(lengths: seq<int>, spacing: int, start: int, end: int, k: nat)
    requires k <= |lengths| && RunHasRoom(lengths, spacing, end - start)
    ensures PosAt(lengths, spacing, start, end, k) == start + Offset(lengths, spacing, k)
    ensures k < |lengths| ==> ExtentAt(lengths, spacing, start, end, k) == lengths[k]
  {
    if k > 0 { RunUnclipped(lengths, spacing, start, end, k - 1); }
    if k < |lengths| {
      OffsetMonotone(lengths, spacing, k + 1, |lengths|);
      ClipFits(lengths[k], start + Offset(lengths, spacing, k), end);
    }
  }

  lemma HasRoom(lengths: seq<int>, spacing: int, room: int)
    requires spacing >= 0 && forall j :: 0 <= j < |lengths| ==> lengths[j] >= 1
    requires lengths != [] && Sum(lengths) + Gaps(spacing, |lengths|) <= room
    ensures RunHasRoom(lengths, spacing, room)
    ensures Offset(lengths, spacing, |lengths|) - spacing == Sum(lengths) + Gaps(spacing, |lengths|)
  {
    OffsetSum(lengths, spacing, |lengths|);
    assert |lengths| * spacing == spacing * (|lengths| - 1) + spacing;
  }

  lemma SegmentFits(lengths: seq<int>, spacing: int, start: int, end: int, i: nat)
    requires i < |lengths| && RunHasRoom(lengths, spacing, end - start)
    ensures ExtentAt(lengths, spacing, start, end, i) == lengths[i]
    ensures start <= PosAt(lengths, spacing, start, end, i)
    ensures PosAt(lengths, spacing, start, end, i) + lengths[i] <= end
  {
    RunUnclipped(lengths, spacing, start, end, i);
    OffsetMonotone(lengths, spacing, 0, i);
    OffsetMonotone(lengths, spacing, i + 1, |lengths|);
  }

  // ---- distribution ------------------------------------------------------------------------------------------

  /** What the first `k` children have received when `m` of them are receivers. */
  function Handed(available: int, n: nat, m: nat): int
    requires n > 0 && available >= 0
  {
    m * (available / n) + Min(m, available % n)
  }

  /** The shares of two flexible children differ by at most one pixel, and earlier ones are not smaller. */
  lemma SharesEven(slots: seq<Slot>, inner: int, spacing: int, i: nat, j: nat)
    requires i < j < |slots| && slots[i].receives && slots[j].receives
    ensures var s := Spread(slots, inner, spacing); s[j] <= s[i] <= s[j] + 1
  {
    ReceivingMonotone(slots, i, j);
  }

  lemma {:induction false} ReceivingMonotone(slots: seq<Slot>, i: nat, j: nat)
    requires i <= j <= |slots|
    ensures ReceivingTo(slots, i) <= ReceivingTo(slots, j)
  {
    if i < j { ReceivingMonotone(slots, i, j - 1); }
  }

  /** No child measures negative: the guard under which every counted child also receives. */
  predicate NoNegative(slots: seq<Slot>) { forall i :: 0 <= i < |slots| ==> slots[i].size >= 0 }

  predicate FromChildren(slots: seq<Slot>) {
    forall i :: 0 <= i < |slots| ==>
      slots[i] == FlexSlot() || slots[i] == MeasuredSlot(slots[i].size) || (slots[i] == FixedSlot(slots[i].size) && slots[i].size >= 0)
  }

  /**
   Exactly the counted children receive a share if and only if no child measures negative; a
   negative measure is counted as flexible but left as it is.
   */
  lemma ReceiversAreCounted(slots: seq<Slot>)
    requires FromChildren(slots)
    ensures ReceivingTo(slots, |slots|) == CountedTo(slots, |slots|) <==> NoNegative(slots)
  {
    ReceiversAreCountedTo(slots, |slots|);
  }

  lemma {:induction false} ReceiversAreCountedTo(slots: seq<Slot>, k: nat)
    requires FromChildren(slots) && k <= |slots|
    ensures ReceivingTo(slots, k) <= CountedTo(slots, k)
    ensures ReceivingTo(slots, k) == CountedTo(slots, k) <==> forall i :: 0 <= i < k ==> slots[i].size >= 0
  {
    if k > 0 { ReceiversAreCountedTo(slots, k - 1); }
  }

  /** What negative measures take away: they are counted as flexible but left as they are. */
  function NegativeTo(slots: seq<Slot>, k: nat): int
    requires k <= |slots|
  {
    if k == 0 then 0
    else NegativeTo(slots, k - 1) + if slots[k - 1].counted && !slots[k - 1].receives then slots[k - 1].size else 0
  }

  lemma HandedNext(available: int, n: nat, m: nat)
    requires n > 0 && available >= 0
    ensures Handed(available, n, m + 1) == Handed(available, n, m) + available / n + if m < available % n then 1 else 0
    ensures Handed(available, n, 0) == 0
  {
    assert (m + 1) * (available / n) == m * (available / n) + available / n;
  }

  lemma {:induction false} SpreadTo(slots: seq<Slot>, inner: int, spacing: int, k: nat)
    requires k <= |slots| && CountedTo(slots, |slots|) > 0 && FromChildren(slots)
    ensures SumTo(Spread(slots, inner, spacing), k)
            == FixedTo(slots, k) + NegativeTo(slots, k)
               + Handed(Available(slots, inner, spacing), CountedTo(slots, |slots|), ReceivingTo(slots, k))
  {
    hide Handed, Available;
    if k == 0 {
      HandedNext(Available(slots, inner, spacing), CountedTo(slots, |slots|), 0);
    } else {
      SpreadTo(slots, inner, spacing, k - 1);
      HandedNext(Available(slots, inner, spacing), CountedTo(slots, |slots|), ReceivingTo(slots, k - 1));
    }
  }

  lemma {:induction false} NegativeSum(slots: seq<Slot>, k: nat)
    requires k <= |slots| && FromChildren(slots)
    ensures NegativeTo(slots, k) <= 0
    ensures NegativeTo(slots, k) == 0 <==> forall i :: 0 <= i < k ==> slots[i].size >= 0
  {
    if k > 0 { NegativeSum(slots, k - 1); }
  }

  lemma {:induction false} NoneCounted(slots: seq<Slot>, inner: int, spacing: int, k: nat)
    requires k <= |slots| && CountedTo(slots, k) == 0 && FromChildren(slots)
    ensures SumTo(Spread(slots, inner, spacing), k) == FixedTo(slots, k)
  {
    if k > 0 { NoneCounted(slots, inner, spacing, k - 1); }
  }

  /** No more than all the available space is handed out. */
  lemma HandedBounded(available: int, n: nat, m: nat)
    requires 0 < n && m <= n && available >= 0
    ensures Handed(available, n, m) <= available
    ensures m == n ==> Handed(available, n, m) == available
  {
    var q := available / n;
    assert n * q + available % n == available;
    assert (n - m) * q >= 0 by { MulMono(0, n - m, q); }
    assert n * q == m * q + (n - m) * q;
  }

  /** What the lengths and the spacing should add up to: the inner length if there is a flexible child. */
  function Goal(slots: seq<Slot>, inner: int, spacing: int): int {
    if CountedTo(slots, |slots|) > 0 then inner else FixedTo(slots, |slots|) + Gaps(spacing, |slots|)
  }

  /**
   When the fixed parts fit, distribution is exact if and only if no child measures negative, and falls
   short otherwise.
   */
  lemma SpreadExact(slots: seq<Slot>, inner: int, spacing: int)
    requires FromChildren(slots) && FixedTo(slots, |slots|) + Gaps(spacing, |slots|) <= inner
    ensures Sum(Spread(slots, inner, spacing)) + Gaps(spacing, |slots|) <= Goal(slots, inner, spacing)
    ensures Sum(Spread(slots, inner, spacing)) + Gaps(spacing, |slots|) == Goal(slots, inner, spacing) <==> NoNegative(slots)
  {
    hide Handed, Spread;
    var n := CountedTo(slots, |slots|);
    ReceiversAreCountedTo(slots, |slots|);
    NegativeSum(slots, |slots|);
    if n > 0 {
      SpreadTo(slots, inner, spacing, |slots|);
      HandedBounded(Available(slots, inner, spacing), n, ReceivingTo(slots, |slots|));
    } else {
      NoneCounted(slots, inner, spacing, |slots|);
    }
  }

  predicate HintsNotNegative(act: seq<LayoutChild>) {
    forall i :: 0 <= i < |act| && act[i].kind.Spacer? ==> act[i].sizeHintW >= 0 && act[i].sizeHintH >= 0
  }

  /** The same for the children of a vertical box: the condition is on what they measure. */
  lemma VerticalExact(act: seq<LayoutChild>, sizes: seq<Size>, inner: int, spacing: int)
    requires |act| == |sizes| && HintsNotNegative(act)
    requires var slots := VerticalSlots(act, sizes); FixedTo(slots, |slots|) + Gaps(spacing, |slots|) <= inner
    ensures Sum(VLengths(act, sizes, inner, spacing)) + Gaps(spacing, |act|) == Goal(VerticalSlots(act, sizes), inner, spacing)
            <==> forall i :: 0 <= i < |act| && !act[i].kind.Spacer? ==> sizes[i].h >= 0
  {
    var slots := VerticalSlots(act, sizes);
    SlotsFromChildren(act, sizes);
    SpreadExact(slots, inner, spacing);
    forall i | 0 <= i < |act| ensures slots[i].size >= 0 <==> act[i].kind.Spacer? || sizes[i].h >= 0 {
      assert slots[i] == VerticalSlot(act[i], sizes[i]);
    }
  }

  /** The same for a horizontal box before shrinking; the measure of a flexible widget does not matter. */
  lemma HorizontalExact(act: seq<LayoutChild>, sizes: seq<Size>, inner: int, spacing: int)
    requires |act| == |sizes| && HintsNotNegative(act)
    requires var slots := HorizontalSlots(act, sizes); FixedTo(slots, |slots|) + Gaps(spacing, |slots|) <= inner
    ensures var slots := HorizontalSlots(act, sizes);
            Sum(Spread(slots, inner, spacing)) + Gaps(spacing, |act|) == Goal(slots, inner, spacing)
            <==> forall i :: 0 <= i < |act| && !act[i].kind.Spacer? && !FlexibleHorizontally(act[i]) ==> sizes[i].w >= 0
  {
    hide FlexibleHorizontally;
    var slots := HorizontalSlots(act, sizes);
    SlotsFromChildren(act, sizes);
    SpreadExact(slots, inner, spacing);
    forall i | 0 <= i < |act|
      ensures slots[i].size >= 0 <==> act[i].kind.Spacer? || FlexibleHorizontally(act[i]) || sizes[i].w >= 0
    {
      assert slots[i] == HorizontalSlot(act[i], sizes[i]);
    }
  }

  lemma SlotsFromChildren(act: seq<LayoutChild>, sizes: seq<Size>)
    requires |act| == |sizes| && HintsNotNegative(act)
    ensures FromChildren(VerticalSlots(act, sizes)) && FromChildren(HorizontalSlots(act, sizes))
  {}
}
