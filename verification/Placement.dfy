/** The placing pass as it runs: `computeChildRects`, proved against the box and grid specifications. */
module Placement {
  import opened Arith
  import opened UiReader
  import opened Tracks
  import opened Measure
  import opened Segments
  import opened Sequences
  import opened BoxLayout
  import opened GridLayout

  // ---- specification ----------------------------------------------------------------------------------------------

  function SizesOf(act: seq<LayoutChild>): (r: seq<Size>)
    ensures |r| == |act|
  {
    if act == [] then [] else SizesOf(act[..|act| - 1]) + [ChildSize(act[|act| - 1])]
  }

  lemma {:induction false} SizeAt(act: seq<LayoutChild>, k: nat)
    requires k < |act|
    ensures SizesOf(act)[k] == ChildSize(act[k])
  {
    if k < |act| - 1 { SizeAt(act[..|act| - 1], k); }
  }

  /** Every cell starts and ends within the tables of track positions. */
  predicate ValidCells(act: seq<LayoutChild>) { ValidSpans(RowSpans(act)) && ValidSpans(ColSpans(act)) }

  /** The equal slices of an unknown layout class. */
  function FallbackRect(n: nat, inner: Rect, spacing: int, i: nat): Rect
    requires i < n
  {
    var perH := Max(24, TruncDiv(inner.h - Gaps(spacing, n), n));
    Rect(inner.x, inner.y + i * (perH + spacing), inner.w, perH)
  }

  /**
   The rectangle of active child `i`. A grid with a cell outside its tables has no defined placement in the source and is given the default rectangle.
   */
  function ChildRect(cls: string, lp: LayoutProps, act: seq<LayoutChild>, sizes: seq<Size>, rect: Rect, i: nat): Rect
    requires |act| == |sizes| && i < |act|
  {
    var inner := Inner(rect, lp);
    if IsVertical(cls) then VBoxRectAt(act, sizes, inner, lp.vSpacing, i)
    else if IsHorizontal(cls) then HBoxRectAt(act, sizes, inner, lp.hSpacing, i)
    else if IsGrid(cls) then
      if ValidCells(act) then
        AxesValid(act, sizes, inner, lp);
        GridRect(RowAxis(act, sizes, inner, lp.vSpacing), ColAxis(act, inner, lp.hSpacing), i)
      else DEFAULT_RECT
    else FallbackRect(|act|, inner, lp.vSpacing, i)
  }

  // ---- active children ----------------------------------------------------------------------------------------------

  /** The positions of the children that take part. */
  function ActiveIndices(items: seq<LayoutChild>, k: nat): seq<nat>
    requires k <= |items|
  {
    if k == 0 then [] else ActiveIndices(items, k - 1) + if items[k - 1].hidden then [] else [k - 1]
  }

  lemma {:induction false} ActiveIndicesSorted(items: seq<LayoutChild>, k: nat)
    requires k <= |items|
    ensures var r := ActiveIndices(items, k);
            && (forall i :: 0 <= i < |r| ==> r[i] < k && !items[r[i]].hidden)
            && Distinct(r)
            && (forall p :: 0 <= p < k && !items[p].hidden ==> p in r)
  {
    if k > 0 { ActiveIndicesSorted(items, k - 1); }
  }

  function IfShown(lc: LayoutChild): seq<LayoutChild> { if lc.hidden then [] else [lc] }

  lemma ActiveStep(items: seq<LayoutChild>)
    ensures items != [] ==> Active(items) == IfShown(items[0]) + Active(items[1..])
    ensures items == [] ==> Active(items) == []
  {
  }

  lemma {:induction false} ActiveSnoc(items: seq<LayoutChild>, lc: LayoutChild)
    ensures Active(items + [lc]) == Active(items) + IfShown(lc)
  {
    hide Active, IfShown;
    var w := items + [lc];
    ActiveStep(items);
    ActiveStep(w);
    if items == [] {
      assert w[1..] == [];
      ActiveStep([]);
    } else {
      assert w[1..] == items[1..] + [lc];
      ActiveSnoc(items[1..], lc);
    }
  }

  lemma {:induction false} ActiveIsAt(items: seq<LayoutChild>, k: nat)
    requires k <= |items|
    ensures |ActiveIndices(items, k)| == |Active(items[..k])|
    ensures forall i :: 0 <= i < |ActiveIndices(items, k)| ==>
              ActiveIndices(items, k)[i] < |items| && Active(items[..k])[i] == items[ActiveIndices(items, k)[i]]
  {
    if k > 0 {
      ActiveIsAt(items, k - 1);
      assert items[..k] == items[..k - 1] + [items[k - 1]];
      ActiveSnoc(items[..k - 1], items[k - 1]);
    }
  }

  /** `idx` lists exactly the positions of the active children, in order. */
  ghost predicate ListsActive(items: seq<LayoutChild>, idx: seq<nat>) {
    && Indices(idx, |items|)
    && Pick(items, idx) == Active(items)
    && forall p :: 0 <= p < |items| ==> (p in idx <==> !items[p].hidden)
  }

  method FindActive(items: seq<LayoutChild>) returns (idx: seq<nat>)
    ensures idx == ActiveIndices(items, |items|) && ListsActive(items, idx)
  {
    idx := [];
    for i := 0 to |items|
      invariant idx == ActiveIndices(items, i)
    {
      if !items[i].hidden { idx := idx + [i]; }
    }
    ActiveIndicesSorted(items, |items|);
    ActiveIsAt(items, |items|);
    assert items[..|items|] == items;
  }

  // ---- distribution ---------------------------------------------------------------------------------------------------

  lemma PickSet(v: seq<int>, idx: seq<nat>, i: nat, x: int)
    requires Indices(idx, |v|) && i < |idx|
    ensures Pick(v[idx[i] := x], idx) == Pick(v, idx)[i := x]
  {}

  /** Every segment below `k` has its final length, the others still have their raw one. */
  ghost predicate SpreadUpTo(v: seq<int>, slots: seq<Slot>, final: seq<int>, k: nat) {
    && |v| == |slots| == |final|
    && (forall j :: 0 <= j < |v| ==> v[j] == if j < k then final[j] else slots[j].size)
  }

  method SetFixedLengths(slots: seq<Slot>, idx: seq<nat>, lengths: array<int>) returns (fixedSum: int, flexCnt: nat)
    requires |slots| == |idx| && Indices(idx, lengths.Length)
    modifies lengths
    ensures fixedSum == FixedTo(slots, |slots|) && flexCnt == CountedTo(slots, |slots|)
    ensures forall j :: 0 <= j < |idx| ==> Pick(lengths[..], idx)[j] == slots[j].size
  {
    fixedSum, flexCnt := 0, 0;
    for k := 0 to |idx|
      invariant fixedSum == FixedTo(slots, k) && flexCnt == CountedTo(slots, k)
      invariant forall j :: 0 <= j < k ==> Pick(lengths[..], idx)[j] == slots[j].size
    {
      SetAt(lengths, idx, k, slots[k].size);
      if slots[k].counted { flexCnt := flexCnt + 1; } else { fixedSum := fixedSum + slots[k].size; }
    }
  }

  method SetAt(lengths: array<int>, idx: seq<nat>, k: nat, x: int)
    requires Indices(idx, lengths.Length) && k < |idx|
    modifies lengths
    ensures Pick(lengths[..], idx) == old(Pick(lengths[..], idx))[k := x]
  {
    PickSet(lengths[..], idx, k, x);
    ghost var before := lengths[..];
    lengths[idx[k]] := x;
    assert lengths[..] == before[idx[k] := x];
  }

  /** The loops that set fixed lengths, then share out the remaining space with its remainder. */
  method SpreadSegments(slots: seq<Slot>, idx: seq<nat>, n: nat, inner: int, spacing: int) returns (lengths: array<int>)
    requires |slots| == |idx| && Indices(idx, n)
    ensures fresh(lengths) && lengths.Length == n
    ensures Pick(lengths[..], idx) == Spread(slots, inner, spacing)
  {
    lengths := new int[n](_ => 0);
    var fixedSum, flexCnt := SetFixedLengths(slots, idx, lengths);
    var spacingTotal := spacing * Max(0, |idx| - 1);
    var avail := Max(0, inner - fixedSum - spacingTotal);
    var flex := if flexCnt > 0 then avail / flexCnt else 0;
    var remainder := if flexCnt > 0 then avail % flexCnt else 0;
    ghost var total, final := remainder, Spread(slots, inner, spacing);
    for k := 0 to |idx|
      invariant remainder == Max(0, total - ReceivingTo(slots, k))
      invariant SpreadUpTo(Pick(lengths[..], idx), slots, final, k)
    {
      if slots[k].receives {
        var share := flex;
        if remainder > 0 {
          share := share + 1;
          remainder := remainder - 1;
        }
        assert share == final[k];
        SetAt(lengths, idx, k, share);
      }
    }
  }

  // ---- boxes ------------------------------------------------------------------------------------------------------------

  /** The first `k` active children have their rectangles; every other child has the default one. */
  ghost predicate Placed(out: seq<Rect>, idx: seq<nat>, k: nat, want: seq<Rect>) {
    && k <= |idx| && k <= |want| && Indices(idx, |out|)
    && (forall i :: 0 <= i < k ==> out[idx[i]] == want[i])
    && (forall p :: 0 <= p < |out| && p !in idx[..k] ==> out[p] == DEFAULT_RECT)
  }

  lemma NothingPlaced(idx: seq<nat>, n: nat, want: seq<Rect>)
    requires Indices(idx, n)
    ensures Placed(seq(n, _ => DEFAULT_RECT), idx, 0, want)
  {
  }

  lemma PlaceNext(out: seq<Rect>, idx: seq<nat>, k: nat, want: seq<Rect>, r: Rect)
    requires Placed(out, idx, k, want) && k < |idx| && k < |want| && want[k] == r
    ensures Placed(out[idx[k] := r], idx, k + 1, want)
  {
    assert idx[..k + 1] == idx[..k] + [idx[k]];
  }

  function VRects(act: seq<LayoutChild>, inner: Rect, spacing: int, lens: seq<int>, k: nat): (r: seq<Rect>)
    requires k <= |act| == |lens|
    ensures |r| == k
  {
    if k == 0 then []
    else VRects(act, inner, spacing, lens, k - 1)
         + [VBoxRect(act[k - 1], ChildSize(act[k - 1]), inner, spacing, lens, k - 1)]
  }

  lemma {:induction false} VRectsAt(act: seq<LayoutChild>, inner: Rect, spacing: int, lens: seq<int>, k: nat, i: nat)
    requires i < k <= |act| == |lens|
    ensures VRects(act, inner, spacing, lens, k)[i] == VBoxRect(act[i], ChildSize(act[i]), inner, spacing, lens, i)
  {
    hide VBoxRect;
    if i < k - 1 { VRectsAt(act, inner, spacing, lens, k - 1, i); }
  }

  function HRects(act: seq<LayoutChild>, inner: Rect, spacing: int, lens: seq<int>, k: nat): (r: seq<Rect>)
    requires k <= |act| == |lens|
    ensures |r| == k
  {
    if k == 0 then []
    else HRects(act, inner, spacing, lens, k - 1)
         + [HBoxRect(act[k - 1], ChildSize(act[k - 1]), inner, spacing, lens, k - 1)]
  }

  lemma {:induction false} HRectsAt(act: seq<LayoutChild>, inner: Rect, spacing: int, lens: seq<int>, k: nat, i: nat)
    requires i < k <= |act| == |lens|
    ensures HRects(act, inner, spacing, lens, k)[i] == HBoxRect(act[i], ChildSize(act[i]), inner, spacing, lens, i)
  {
    hide HBoxRect;
    if i < k - 1 { HRectsAt(act, inner, spacing, lens, k - 1, i); }
  }

  /** The placing loop of a vertical box. */
  method RunVertical(items: seq<LayoutChild>, idx: seq<nat>, heights: array<int>, inner: Rect, spacing: int)
    returns (out: seq<Rect>)
    requires Indices(idx, |items|) && heights.Length == |items|
    ensures |out| == |items|
    ensures Placed(out, idx, |idx|, VRects(Pick(items, idx), inner, spacing, Pick(heights[..], idx), |idx|))
  {
    hide ResolvedVBoxWidth, ChildSize, VRects, Placed;
    ghost var act, lens := Pick(items, idx), Pick(heights[..], idx);
    ghost var want := VRects(act, inner, spacing, lens, |idx|);
    out := seq(|items|, _ => DEFAULT_RECT);
    NothingPlaced(idx, |items|, want);
    var curY := inner.y;
    for k := 0 to |idx|
      invariant |out| == |items| && Placed(out, idx, k, want)
      invariant curY == PosAt(lens, spacing, inner.y, inner.y + inner.h, k) - if k == |idx| > 0 then spacing else 0
    {
      var lc, length := items[idx[k]], heights[idx[k]];
      assert length == lens[k] && lc == act[k];
      var remainingHeight := Max(0, inner.y + inner.h - curY);
      var height := Max(1, Min(length, if remainingHeight > 0 then remainingHeight else length));
      var r := Rect(inner.x, curY, ResolvedVBoxWidth(lc, ChildSize(lc), inner.w), height);
      VRectsAt(act, inner, spacing, lens, |idx|, k);
      PlaceNext(out, idx, k, want, r);
      out := out[idx[k] := r];
      curY := curY + height;
      if k + 1 < |idx| { curY := curY + spacing; }
    }
  }

  /** The placing loop of a horizontal box. */
  method RunHorizontal(items: seq<LayoutChild>, idx: seq<nat>, widths: array<int>, inner: Rect, spacing: int)
    returns (out: seq<Rect>)
    requires Indices(idx, |items|) && widths.Length == |items|
    ensures |out| == |items|
    ensures Placed(out, idx, |idx|, HRects(Pick(items, idx), inner, spacing, Pick(widths[..], idx), |idx|))
  {
    hide ResolvedHBoxHeight, TruncDiv, ChildSize, HRects, Placed;
    ghost var act, lens := Pick(items, idx), Pick(widths[..], idx);
    ghost var want := HRects(act, inner, spacing, lens, |idx|);
    out := seq(|items|, _ => DEFAULT_RECT);
    NothingPlaced(idx, |items|, want);
    var curX := inner.x;
    for k := 0 to |idx|
      invariant |out| == |items| && Placed(out, idx, k, want)
      invariant curX == PosAt(lens, spacing, inner.x, inner.x + inner.w, k) - if k == |idx| > 0 then spacing else 0
    {
      var lc, length := items[idx[k]], widths[idx[k]];
      assert length == lens[k] && lc == act[k];
      var remainingWidth := Max(0, inner.x + inner.w - curX);
      var width := Max(1, Min(length, if remainingWidth > 0 then remainingWidth else length));
      var height := ResolvedHBoxHeight(lc, ChildSize(lc), inner.h);
      var r := Rect(curX, inner.y + Max(0, TruncDiv(inner.h - height, 2)), width, height);
      HRectsAt(act, inner, spacing, lens, |idx|, k);
      PlaceNext(out, idx, k, want, r);
      out := out[idx[k] := r];
      curX := curX + width;
      if k + 1 < |idx| { curX := curX + spacing; }
    }
  }

  lemma VerticalSlotAt(act: seq<LayoutChild>, k: nat)
    requires k < |act|
    ensures VerticalSlots(act, SizesOf(act))[k] == VerticalSlot(act[k], ChildSize(act[k]))
  {
    SizeAt(act, k);
  }

  lemma HorizontalSlotAt(act: seq<LayoutChild>, k: nat)
    requires k < |act|
    ensures HorizontalSlots(act, SizesOf(act))[k] == HorizontalSlot(act[k], ChildSize(act[k]))
  {
    SizeAt(act, k);
  }

  /** The classification loop of a vertical box. */
  method ClassifyVertical(items: seq<LayoutChild>, idx: seq<nat>) returns (slots: seq<Slot>)
    requires Indices(idx, |items|)
    ensures slots == VerticalSlots(Pick(items, idx), SizesOf(Pick(items, idx)))
  {
    hide VerticalSlot;
    ghost var act := Pick(items, idx);
    slots := [];
    for k := 0 to |idx|
      invariant |slots| == k && forall j :: 0 <= j < k ==> slots[j] == VerticalSlots(act, SizesOf(act))[j]
    {
      VerticalSlotAt(act, k);
      slots := slots + [VerticalSlot(items[idx[k]], ChildSize(items[idx[k]]))];
    }
  }

  method ClassifyHorizontal(items: seq<LayoutChild>, idx: seq<nat>) returns (slots: seq<Slot>)
    requires Indices(idx, |items|)
    ensures slots == HorizontalSlots(Pick(items, idx), SizesOf(Pick(items, idx)))
  {
    hide HorizontalSlot;
    ghost var act := Pick(items, idx);
    slots := [];
    for k := 0 to |idx|
      invariant |slots| == k && forall j :: 0 <= j < k ==> slots[j] == HorizontalSlots(act, SizesOf(act))[j]
    {
      HorizontalSlotAt(act, k);
      slots := slots + [HorizontalSlot(items[idx[k]], ChildSize(items[idx[k]]))];
    }
  }

  method VerticalLengths(items: seq<LayoutChild>, idx: seq<nat>, inner: int, spacing: int) returns (heights: array<int>)
    requires Indices(idx, |items|)
    ensures fresh(heights) && heights.Length == |items|
    ensures Pick(heights[..], idx) == VLengths(Pick(items, idx), SizesOf(Pick(items, idx)), inner, spacing)
  {
    hide VerticalSlot, Spread;
    var slots := ClassifyVertical(items, idx);
    heights := SpreadSegments(slots, idx, |items|, inner, spacing);
  }

  /** Widths before placing: distributed, then shrunk to the room between the spacing. */
  method HorizontalLengths(items: seq<LayoutChild>, idx: seq<nat>, inner: int, spacing: int) returns (widths: array<int>)
    requires Indices(idx, |items|)
    ensures fresh(widths) && widths.Length == |items|
    ensures Pick(widths[..], idx) == HLengths(Pick(items, idx), SizesOf(Pick(items, idx)), inner, spacing)
  {
    hide HorizontalSlot, MinWidth, Fitted, Spread;
    var slots := ClassifyHorizontal(items, idx);
    widths := SpreadSegments(slots, idx, |items|, inner, spacing);
    var minWidths := MinimumWidths(items, idx);
    ShrinkSegmentsToFit(widths, minWidths, idx, Max(1, inner - spacing * Max(0, |idx| - 1)));
  }

  method PlaceVertical(items: seq<LayoutChild>, idx: seq<nat>, inner: Rect, spacing: int) returns (out: seq<Rect>)
    requires ListsActive(items, idx)
    ensures var act := Active(items);
            && |out| == |items|
            && Placed(out, idx, |idx|, VRects(act, inner, spacing, VLengths(act, SizesOf(act), inner.h, spacing), |idx|))
  {
    hide VLengths, VRects;
    var heights := VerticalLengths(items, idx, inner.h, spacing);
    out := RunVertical(items, idx, heights, inner, spacing);
  }

  method PlaceHorizontal(items: seq<LayoutChild>, idx: seq<nat>, inner: Rect, spacing: int) returns (out: seq<Rect>)
    requires ListsActive(items, idx)
    ensures var act := Active(items);
            && |out| == |items|
            && Placed(out, idx, |idx|, HRects(act, inner, spacing, HLengths(act, SizesOf(act), inner.w, spacing), |idx|))
  {
    hide HLengths, HRects;
    var widths := HorizontalLengths(items, idx, inner.w, spacing);
    out := RunHorizontal(items, idx, widths, inner, spacing);
  }

  method MinimumWidths(items: seq<LayoutChild>, idx: seq<nat>) returns (minWidths: seq<int>)
    requires Indices(idx, |items|)
    ensures |minWidths| == |items| && Pick(minWidths, idx) == MinWidths(Pick(items, idx))
  {
    hide MinWidth;
    ghost var act := Pick(items, idx);
    minWidths := seq(|items|, _ => 1);
    for k := 0 to |idx|
      invariant |minWidths| == |items| && forall j :: 0 <= j < k ==> Pick(minWidths, idx)[j] == MinWidths(act)[j]
    {
      PickSet(minWidths, idx, k, MinWidth(items[idx[k]]));
      minWidths := minWidths[idx[k] := MinWidth(items[idx[k]])];
    }
  }
}
