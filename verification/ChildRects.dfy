/** `computeChildRects`: the dispatch over the layout class. */
module ChildRects {
  import opened Arith
  import opened Xml
  import opened UiReader
  import opened Measure
  import opened Segments
  import opened BoxLayout
  import opened GridLayout
  import opened GridRun
  import opened Placement

  /** Every active child has its specified rectangle and every hidden one the default. */
  ghost predicate RectsComputed(out: seq<Rect>, layout: XmlNode, items: seq<LayoutChild>, rect: Rect) {
    var act, idx := Active(items), ActiveIndices(items, |items|);
    && |out| == |items| && ListsActive(items, idx)
    && (forall k :: 0 <= k < |idx| ==>
          out[idx[k]] == ChildRect(layout.Attr("class", ""), ReadLayoutProps(layout), act, SizesOf(act), rect, k))
    && (forall p :: 0 <= p < |items| && items[p].hidden ==> out[p] == DEFAULT_RECT)
  }

  function GridRects(rows: Axis, cols: Axis, k: nat): (r: seq<Rect>)
    requires rows.Valid() && cols.Valid() && k <= |rows.spans| == |cols.spans|
    ensures |r| == k
  {
    if k == 0 then [] else GridRects(rows, cols, k - 1) + [GridRect(rows, cols, k - 1)]
  }

  lemma {:induction false} GridRectsAt(rows: Axis, cols: Axis, k: nat, i: nat)
    requires rows.Valid() && cols.Valid() && i < k <= |rows.spans| == |cols.spans|
    ensures GridRects(rows, cols, k)[i] == GridRect(rows, cols, i)
  {
    hide GridRect;
    if i < k - 1 { GridRectsAt(rows, cols, k - 1, i); }
  }

  /** The rectangles of grid children, from the starts of their first track and of the track after their last. */
  method PlaceGrid(n: nat, idx: seq<nat>, rows: Axis, cols: Axis) returns (out: seq<Rect>)
    requires rows.Valid() && cols.Valid() && |idx| == |rows.spans| == |cols.spans| && Indices(idx, n)
    ensures |out| == n && Placed(out, idx, |idx|, GridRects(rows, cols, |idx|))
  {
    hide TrackPos;
    var rowY := TrackStarts(rows);
    var colX := TrackStarts(cols);
    out := seq(n, _ => DEFAULT_RECT);
    for k := 0 to |idx|
      invariant |out| == n && Placed(out, idx, k, GridRects(rows, cols, |idx|))
    {
      var row, col := rows.spans[k], cols.spans[k];
      var x, y := colX[col.start], rowY[row.start];
      var w := colX[col.start + col.len] - x - cols.spacing;
      var h := rowY[row.start + row.len] - y - rows.spacing;
      var r := Rect(x, y, Max(1, w), Max(1, h));
      assert r == GridRect(rows, cols, k);
      GridRectsAt(rows, cols, |idx|, k);
      PlaceNext(out, idx, k, GridRects(rows, cols, |idx|), r);
      out := out[idx[k] := r];
    }
  }

  function FallbackRects(n: nat, inner: Rect, spacing: int, k: nat): (r: seq<Rect>)
    requires k <= n
    ensures |r| == k
  {
    if k == 0 then [] else FallbackRects(n, inner, spacing, k - 1) + [FallbackRect(n, inner, spacing, k - 1)]
  }

  lemma {:induction false} FallbackRectsAt(n: nat, inner: Rect, spacing: int, k: nat, i: nat)
    requires i < k <= n
    ensures FallbackRects(n, inner, spacing, k)[i] == FallbackRect(n, inner, spacing, i)
  {
    hide FallbackRect;
    if i < k - 1 { FallbackRectsAt(n, inner, spacing, k - 1, i); }
  }

  method PlaceEqually(n: nat, idx: seq<nat>, inner: Rect, spacing: int) returns (out: seq<Rect>)
    requires Indices(idx, n)
    ensures |out| == n && Placed(out, idx, |idx|, FallbackRects(|idx|, inner, spacing, |idx|))
  {
    out := seq(n, _ => DEFAULT_RECT);
    if idx == [] { return; }
    var spacingTotal := spacing * Max(0, |idx| - 1);
    var perH := Max(24, TruncDiv(inner.h - spacingTotal, |idx|));
    var curY := inner.y;
    for k := 0 to |idx|
      invariant |out| == n && Placed(out, idx, k, FallbackRects(|idx|, inner, spacing, |idx|))
      invariant curY == inner.y + k * (perH + spacing) - if k == |idx| then spacing else 0
    {
      var r := Rect(inner.x, curY, inner.w, perH);
      assert r == FallbackRect(|idx|, inner, spacing, k);
      FallbackRectsAt(|idx|, inner, spacing, |idx|, k);
      PlaceNext(out, idx, k, FallbackRects(|idx|, inner, spacing, |idx|), r);
      out := out[idx[k] := r];
      assert (k + 1) * (perH + spacing) == k * (perH + spacing) + perH + spacing;
      curY := curY + perH;
      if k + 1 < |idx| { curY := curY + spacing; }
    }
  }

  lemma PlacedComputes(out: seq<Rect>, layout: XmlNode, items: seq<LayoutChild>, rect: Rect, want: seq<Rect>)
    requires var idx := ActiveIndices(items, |items|);
             ListsActive(items, idx) && |out| == |items| && Placed(out, idx, |idx|, want)
    requires |want| == |Active(items)| && forall k :: 0 <= k < |want| ==>
               want[k] == ChildRect(layout.Attr("class", ""), ReadLayoutProps(layout), Active(items), SizesOf(Active(items)), rect, k)
    ensures RectsComputed(out, layout, items, rect)
  {
    hide ChildRect;
    var idx := ActiveIndices(items, |items|);
    assert idx[..|idx|] == idx;
  }

  method ComputeChildRects(layout: XmlNode, items: seq<LayoutChild>, rect: Rect) returns (out: seq<Rect>)
    requires IsGrid(layout.Attr("class", "")) ==> ValidCells(Active(items))
    ensures RectsComputed(out, layout, items, rect)
  {
    hide Inner, VBoxRect, HBoxRect, GridRect, FallbackRect, RowAxis, ColAxis, VLengths, HLengths, ReadLayoutProps;
    var lp, cls := ReadLayoutProps(layout), layout.Attr("class", "");
    var idx := FindActive(items);
    var inner := Inner(rect, lp);
    ghost var act, n := Active(items), |idx|;
    if IsVertical(cls) {
      out := PlaceVertical(items, idx, inner, lp.vSpacing);
      VerticalWant(layout, items, rect, out);
    } else if IsHorizontal(cls) {
      out := PlaceHorizontal(items, idx, inner, lp.hSpacing);
      HorizontalWant(layout, items, rect, out);
    } else if IsGrid(cls) {
      var children := Pick(items, idx);
      AxesValid(children, SizesOf(children), inner, lp);
      var rows, cols := RowAxis(children, SizesOf(children), inner, lp.vSpacing), ColAxis(children, inner, lp.hSpacing);
      out := PlaceGrid(|items|, idx, rows, cols);
      GridWant(layout, items, rect, out);
    } else {
      out := PlaceEqually(|items|, idx, inner, lp.vSpacing);
      FallbackWant(layout, items, rect, out);
    }
  }

  lemma VerticalWant(layout: XmlNode, items: seq<LayoutChild>, rect: Rect, out: seq<Rect>)
    requires IsVertical(layout.Attr("class", ""))
    requires var act, idx, lp := Active(items), ActiveIndices(items, |items|), ReadLayoutProps(layout);
             var lens := VLengths(act, SizesOf(act), Inner(rect, lp).h, lp.vSpacing);
             ListsActive(items, idx) && |out| == |items|
             && Placed(out, idx, |idx|, VRects(act, Inner(rect, lp), lp.vSpacing, lens, |act|))
    ensures RectsComputed(out, layout, items, rect)
  {
    hide VBoxRect, VLengths, Inner;
    var act, lp := Active(items), ReadLayoutProps(layout);
    var lens := VLengths(act, SizesOf(act), Inner(rect, lp).h, lp.vSpacing);
    var want := VRects(act, Inner(rect, lp), lp.vSpacing, lens, |act|);
    forall k | 0 <= k < |want|
      ensures want[k] == ChildRect(layout.Attr("class", ""), lp, act, SizesOf(act), rect, k)
    {
      VRectsAt(act, Inner(rect, lp), lp.vSpacing, lens, |act|, k);
      SizeAt(act, k);
    }
    PlacedComputes(out, layout, items, rect, want);
  }

  lemma HorizontalChild(cls: string, lp: LayoutProps, act: seq<LayoutChild>, sizes: seq<Size>, rect: Rect, lens: seq<int>, k: nat)
    requires IsHorizontal(cls) && |act| == |sizes| && k < |act| && sizes[k] == ChildSize(act[k])
    requires lens == HLengths(act, sizes, Inner(rect, lp).w, lp.hSpacing)
    ensures ChildRect(cls, lp, act, sizes, rect, k) == HBoxRect(act[k], ChildSize(act[k]), Inner(rect, lp), lp.hSpacing, lens, k)
  {
    hide HBoxRect, HLengths, Inner, ChildSize;
  }

  lemma HorizontalWant(layout: XmlNode, items: seq<LayoutChild>, rect: Rect, out: seq<Rect>)
    requires IsHorizontal(layout.Attr("class", ""))
    requires var act, idx, lp := Active(items), ActiveIndices(items, |items|), ReadLayoutProps(layout);
             var lens := HLengths(act, SizesOf(act), Inner(rect, lp).w, lp.hSpacing);
             ListsActive(items, idx) && |out| == |items|
             && Placed(out, idx, |idx|, HRects(act, Inner(rect, lp), lp.hSpacing, lens, |act|))
    ensures RectsComputed(out, layout, items, rect)
  {
    hide HBoxRect, HLengths, Inner, ChildRect, ReadLayoutProps, ChildSize, HRects;
    var act, lp := Active(items), ReadLayoutProps(layout);
    var lens := HLengths(act, SizesOf(act), Inner(rect, lp).w, lp.hSpacing);
    var want := HRects(act, Inner(rect, lp), lp.hSpacing, lens, |act|);
    forall k | 0 <= k < |want|
      ensures want[k] == ChildRect(layout.Attr("class", ""), lp, act, SizesOf(act), rect, k)
    {
      HRectsAt(act, Inner(rect, lp), lp.hSpacing, lens, |act|, k);
      SizeAt(act, k);
      HorizontalChild(layout.Attr("class", ""), lp, act, SizesOf(act), rect, lens, k);
    }
    PlacedComputes(out, layout, items, rect, want);
  }

  lemma GridChild(cls: string, lp: LayoutProps, act: seq<LayoutChild>, sizes: seq<Size>, rect: Rect, k: nat)
    requires IsGrid(cls) && ValidCells(act) && |act| == |sizes| && k < |act|
    ensures var rows, cols := RowAxis(act, sizes, Inner(rect, lp), lp.vSpacing), ColAxis(act, Inner(rect, lp), lp.hSpacing);
            rows.Valid() && cols.Valid() && ChildRect(cls, lp, act, sizes, rect, k) == GridRect(rows, cols, k)
  {
    hide GridRect, RowAxis, ColAxis, Inner;
    AxesValid(act, sizes, Inner(rect, lp), lp);
  }

  lemma GridWant(layout: XmlNode, items: seq<LayoutChild>, rect: Rect, out: seq<Rect>)
    requires IsGrid(layout.Attr("class", "")) && ValidCells(Active(items))
    requires var act, idx, lp := Active(items), ActiveIndices(items, |items|), ReadLayoutProps(layout);
             var rows, cols := RowAxis(act, SizesOf(act), Inner(rect, lp), lp.vSpacing), ColAxis(act, Inner(rect, lp), lp.hSpacing);
             ListsActive(items, idx) && |out| == |items| && rows.Valid() && cols.Valid()
             && Placed(out, idx, |idx|, GridRects(rows, cols, |act|))
    ensures RectsComputed(out, layout, items, rect)
  {
    hide GridRect, RowAxis, ColAxis, Inner, GridRects, ChildRect, ReadLayoutProps, SizesOf;
    var act, lp := Active(items), ReadLayoutProps(layout);
    var rows, cols := RowAxis(act, SizesOf(act), Inner(rect, lp), lp.vSpacing), ColAxis(act, Inner(rect, lp), lp.hSpacing);
    var want := GridRects(rows, cols, |act|);
    forall k | 0 <= k < |want|
      ensures want[k] == ChildRect(layout.Attr("class", ""), lp, act, SizesOf(act), rect, k)
    {
      GridRectsAt(rows, cols, |act|, k);
      GridChild(layout.Attr("class", ""), lp, act, SizesOf(act), rect, k);
    }
    PlacedComputes(out, layout, items, rect, want);
  }

  lemma FallbackWant(layout: XmlNode, items: seq<LayoutChild>, rect: Rect, out: seq<Rect>)
    requires var cls := layout.Attr("class", ""); !IsVertical(cls) && !IsHorizontal(cls) && !IsGrid(cls)
    requires var act, idx, lp := Active(items), ActiveIndices(items, |items|), ReadLayoutProps(layout);
             ListsActive(items, idx) && |out| == |items|
             && Placed(out, idx, |idx|, FallbackRects(|act|, Inner(rect, lp), lp.vSpacing, |act|))
    ensures RectsComputed(out, layout, items, rect)
  {
    hide FallbackRect, Inner;
    var act, lp := Active(items), ReadLayoutProps(layout);
    var want := FallbackRects(|act|, Inner(rect, lp), lp.vSpacing, |act|);
    forall k | 0 <= k < |want|
      ensures want[k] == ChildRect(layout.Attr("class", ""), lp, act, SizesOf(act), rect, k)
    {
      FallbackRectsAt(|act|, Inner(rect, lp), lp.vSpacing, |act|, k);
    }
    PlacedComputes(out, layout, items, rect, want);
  }
}
