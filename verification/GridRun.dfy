/** The track tables of a grid as they are computed: arrays filled in loops over children and tracks. */
module GridRun {
  import opened Arith
  import opened Tracks
  import opened Measure
  import opened Segments
  import opened Sequences
  import opened GridLayout

  method CountTracks(spans: seq<Span>) returns (n: nat)
    ensures n == TrackCount(spans)
  {
    var last := 0;
    for k := 0 to |spans|
      invariant last == LastTrack(spans, k)
    {
      last := Max(last, spans[k].start + spans[k].len - 1);
    }
    n := last + 1;
  }

  /** Marks the tracks that have items. */
  method MarkCovered(spans: seq<Span>, n: nat) returns (has: array<bool>)
    requires MarkableSpans(spans) && n == TrackCount(spans)
    ensures fresh(has) && has.Length == n && forall r :: 0 <= r < n ==> has[r] == Covered(spans, r)
  {
    has := new bool[n](_ => false);
    for k := 0 to |spans|
      invariant forall r :: 0 <= r < n ==> has[r] == Covered(spans[..k], r)
    {
      ghost var before := has[..];
      assert forall q :: 0 <= q < n ==> before[q] == Covered(spans[..k], q);
      var r := spans[k].start;
      while r < spans[k].start + spans[k].len
        invariant spans[k].start <= r <= Max(spans[k].start, spans[k].start + spans[k].len)
        invariant forall q :: 0 <= q < n ==> has[q] == (before[q] || spans[k].start <= q < r)
      {
        has[r] := true;
        r := r + 1;
      }
      forall q | 0 <= q < n ensures has[q] == Covered(spans[..k + 1], q) {
        CoveredSnoc(spans, k, q);
        assert has[q] == (before[q] || Covers(spans[k], q));
      }
    }
    assert spans[..|spans|] == spans;
  }

  lemma CoveredSnoc(spans: seq<Span>, k: nat, r: int)
    requires k < |spans|
    ensures Covered(spans[..k + 1], r) == (Covered(spans[..k], r) || Covers(spans[k], r))
  {
    var a, b := spans[..k], spans[..k + 1];
    if Covered(a, r) {
      var i :| 0 <= i < |a| && Covers(a[i], r);
      assert Covers(b[i], r);
    }
    if Covers(spans[k], r) { assert Covers(b[k], r); }
    if Covered(b, r) {
      var i :| 0 <= i < |b| && Covers(b[i], r);
      if i < k { assert Covers(a[i], r); }
    }
  }

  /** What the tables of sizes and minimums hold after `k` children: -1 and 0 where a track is empty. */
  ghost predicate Tabled(ax: Axis, sizes: seq<int>, mins: seq<int>, k: nat)
    requires ax.Valid() && k <= |ax.spans|
  {
    && |sizes| == |mins| == Count(ax)
    && forall r :: 0 <= r < Count(ax) ==>
         && sizes[r] == (if Covered(ax.spans, r) then FixedAt(ax, r, k) else -1)
         && mins[r] == (if Covered(ax.spans, r) then MinAt(ax, r, k) else 0)
  }

  /** One child that spans a single track. */
  lemma TableStep(ax: Axis, sizes: seq<int>, mins: seq<int>, k: nat)
    requires ax.Valid() && k < |ax.spans| && Tabled(ax, sizes, mins, k)
    ensures ax.spans[k].len != 1 ==> Tabled(ax, sizes, mins, k + 1)
    ensures var r := ax.spans[k].start;
            ax.spans[k].len == 1 ==>
              && 0 <= r < Count(ax)
              && Tabled(ax, sizes[r := Max(sizes[r], ax.fixed[k])], mins[r := Max(mins[r], ax.mins[k])], k + 1)
  {
    if ax.spans[k].len == 1 { assert Covers(ax.spans[k], ax.spans[k].start); }
  }

  method FillTables(ax: Axis) returns (sizes: array<int>, mins: array<int>)
    requires ax.Valid()
    ensures fresh(sizes) && fresh(mins) && sizes != mins && sizes.Length == mins.Length == Count(ax)
    ensures Tabled(ax, sizes[..], mins[..], |ax.spans|)
  {
    var n := CountTracks(ax.spans);
    var has := MarkCovered(ax.spans, n);
    sizes := new int[n](_ => -1);
    mins := new int[n](_ => 0);
    for r := 0 to n
      invariant forall q :: 0 <= q < n ==> has[q] == Covered(ax.spans, q)
      invariant forall q :: 0 <= q < r ==> sizes[q] == (if has[q] then 0 else -1) && mins[q] == if has[q] then 1 else 0
      invariant forall q :: r <= q < n ==> sizes[q] == -1 && mins[q] == 0
    {
      if has[r] {
        sizes[r] := 0;
        mins[r] := 1;
      }
    }
    forall r | 0 <= r < n
      ensures sizes[r] == (if Covered(ax.spans, r) then FixedAt(ax, r, 0) else -1)
      ensures mins[r] == if Covered(ax.spans, r) then MinAt(ax, r, 0) else 0
    {
      assert has[r] == Covered(ax.spans, r);
    }
    for k := 0 to |ax.spans|
      invariant Tabled(ax, sizes[..], mins[..], k)
    {
      ghost var s, m := sizes[..], mins[..];
      TableStep(ax, s, m, k);
      if ax.spans[k].len == 1 {
        var r := ax.spans[k].start;
        if ax.fixed[k] > 0 { sizes[r] := Max(sizes[r], ax.fixed[k]); }
        mins[r] := Max(mins[r], ax.mins[k]);
        assert Covers(ax.spans[k], r);
        assert sizes[..] == s[r := Max(s[r], ax.fixed[k])];
        assert mins[..] == m[r := Max(m[r], ax.mins[k])];
      }
    }
  }

  function ActiveTracks(spans: seq<Span>, n: nat): (r: seq<nat>)
    ensures |r| == CoveredTo(spans, n)
  {
    if n == 0 then [] else ActiveTracks(spans, n - 1) + if Covered(spans, n - 1) then [n - 1] else []
  }

  lemma {:induction false} ActiveTracksSorted(spans: seq<Span>, n: nat)
    ensures var r := ActiveTracks(spans, n);
            Distinct(r) && (forall i :: 0 <= i < |r| ==> r[i] < n && Covered(spans, r[i])) && forall q :: 0 <= q < n && Covered(spans, q) ==> q in r
  {
    if n > 0 { ActiveTracksSorted(spans, n - 1); }
  }

  /** The wanted size of every covered track; -1 marks an empty one. */
  ghost predicate Wants(ax: Axis, sizes: seq<int>)
    requires ax.Valid()
  {
    |sizes| == Count(ax) &&
    forall r :: 0 <= r < Count(ax) ==> sizes[r] == if Covered(ax.spans, r) then TrackWanted(ax, r) else -1
  }

  /** Sums up the fixed tracks and counts the flexible and the covered ones. */
  method SumTracks(ax: Axis, sizes: array<int>, ghost mins: seq<int>) returns (fixedSum: int, flexCnt: int, active: int)
    requires ax.Valid() && Tabled(ax, sizes[..], mins, |ax.spans|)
    ensures fixedSum == FixedSumTo(ax, Count(ax)) && flexCnt == FlexTo(ax, Count(ax)) && active == ActiveCount(ax)
  {
    ghost var table := sizes[..];
    fixedSum, flexCnt, active := 0, 0, 0;
    for r := 0 to sizes.Length
      invariant fixedSum == FixedSumTo(ax, r) && flexCnt == FlexTo(ax, r) && active == CoveredTo(ax.spans, r)
    {
      assert sizes[r] == table[r];
      if sizes[r] >= 0 {
        active := active + 1;
        if sizes[r] > 0 { fixedSum := fixedSum + sizes[r]; } else { flexCnt := flexCnt + 1; }
      }
    }
  }

  /** Gives the flexible tracks their size. */
  method SizeFlexible(ax: Axis, sizes: array<int>, ghost mins: seq<int>)
    requires ax.Valid() && Tabled(ax, sizes[..], mins, |ax.spans|)
    modifies sizes
    ensures Wants(ax, sizes[..])
  {
    var fixedSum, flexCnt, active := SumTracks(ax, sizes, mins);
    var spacing := ax.spacing * Max(0, active - 1);
    var flex := if flexCnt > 0 then Max(ax.flexMin, TruncDiv(ax.inner - fixedSum - spacing, flexCnt)) else ax.flexMin;
    assert flex == FlexSize(ax);
    ReplaceZeros(sizes, flex);
  }

  method ReplaceZeros(sizes: array<int>, flex: int)
    modifies sizes
    ensures forall r :: 0 <= r < sizes.Length ==> sizes[..][r] == if old(sizes[..])[r] == 0 then flex else old(sizes[..])[r]
  {
    for r := 0 to sizes.Length
      invariant forall q :: 0 <= q < r ==> sizes[q] == if old(sizes[q]) == 0 then flex else old(sizes[q])
      invariant forall q :: r <= q < sizes.Length ==> sizes[q] == old(sizes[q])
    {
      if sizes[r] == 0 { sizes[r] := flex; }
    }
  }

  method ListActive(sizes: array<int>, ghost ax: Axis) returns (idx: seq<nat>)
    requires ax.Valid() && Wants(ax, sizes[..])
    ensures idx == ActiveTracks(ax.spans, Count(ax))
  {
    idx := [];
    for r := 0 to sizes.Length
      invariant idx == ActiveTracks(ax.spans, r)
    {
      assert sizes[r] == sizes[..][r];
      if sizes[r] >= 0 { idx := idx + [r]; }
    }
  }

  lemma {:induction false} PickWanted(ax: Axis, sizes: seq<int>, n: nat)
    requires ax.Valid() && Wants(ax, sizes) && n <= Count(ax)
    requires forall i :: 0 <= i < |ActiveTracks(ax.spans, n)| ==> ActiveTracks(ax.spans, n)[i] < |sizes|
    ensures Pick(sizes, ActiveTracks(ax.spans, n)) == WantedTo(ax, n)
  {
    if n > 0 {
      ActiveTracksSorted(ax.spans, n - 1);
      PickWanted(ax, sizes, n - 1);
    }
  }

  lemma {:induction false} PickMins(ax: Axis, sizes: seq<int>, mins: seq<int>, n: nat)
    requires ax.Valid() && Tabled(ax, sizes, mins, |ax.spans|) && n <= Count(ax)
    requires forall i :: 0 <= i < |ActiveTracks(ax.spans, n)| ==> ActiveTracks(ax.spans, n)[i] < |mins|
    ensures Pick(mins, ActiveTracks(ax.spans, n)) == MinsTo(ax, n)
  {
    if n > 0 {
      ActiveTracksSorted(ax.spans, n - 1);
      PickMins(ax, sizes, mins, n - 1);
    }
  }

  /** The final size of every covered track; -1 marks an empty one. */
  ghost predicate Finals(ax: Axis, sizes: seq<int>)
    requires ax.Valid()
  {
    && |sizes| == Count(ax)
    && Indices(ActiveTracks(ax.spans, Count(ax)), |sizes|)
    && Pick(sizes, ActiveTracks(ax.spans, Count(ax))) == FinalTracks(ax)
    && forall r :: 0 <= r < Count(ax) && !Covered(ax.spans, r) ==> sizes[r] == -1
  }

  method FinalSizes(ax: Axis) returns (sizes: array<int>)
    requires ax.Valid()
    ensures fresh(sizes) && Finals(ax, sizes[..])
  {
    var mins;
    sizes, mins := FillTables(ax);
    ghost var tabled := sizes[..];
    SizeFlexible(ax, sizes, mins[..]);
    var idx := ListActive(sizes, ax);
    ActiveTracksSorted(ax.spans, Count(ax));
    PickWanted(ax, sizes[..], Count(ax));
    PickMins(ax, tabled, mins[..], Count(ax));
    ghost var wanted := sizes[..];
    ShrinkSegmentsToFit(sizes, mins[..], idx, Max(1, ax.inner - ax.spacing * Max(0, |idx| - 1)));
  }

  lemma {:induction false} ActiveTrackAt(spans: seq<Span>, r: nat, n: nat)
    requires r < n && Covered(spans, r)
    ensures CoveredTo(spans, r) < CoveredTo(spans, n) && ActiveTracks(spans, n)[CoveredTo(spans, r)] == r
  {
    if r < n - 1 { ActiveTrackAt(spans, r, n - 1); }
  }

  /** The cumulative starts: empty tracks contribute neither size nor spacing. */
  method TrackStarts(ax: Axis) returns (pos: seq<int>)
    requires ax.Valid()
    ensures |pos| == Count(ax) + 1 && forall r :: 0 <= r <= Count(ax) ==> pos[r] == TrackPos(ax, r)
  {
    var sizes := FinalSizes(ax);
    ghost var finals := sizes[..];
    pos := [ax.start];
    for r := 0 to sizes.Length
      invariant sizes[..] == finals
      invariant |pos| == r + 1 && forall q :: 0 <= q <= r ==> pos[q] == TrackPos(ax, q)
    {
      assert sizes[r] == finals[r];
      CoveredMonotone(ax.spans, r + 1, Count(ax));
      if Covered(ax.spans, r) {
        FinalAt(ax, finals, r);
      }
      var h := if sizes[r] < 0 then 0 else sizes[r];
      var sp := if sizes[r] < 0 then 0 else ax.spacing;
      pos := pos + [pos[r] + h + sp];
    }
  }

  lemma FinalAt(ax: Axis, sizes: seq<int>, r: nat)
    requires ax.Valid() && Finals(ax, sizes) && r < Count(ax) && Covered(ax.spans, r)
    ensures CoveredTo(ax.spans, r) < |FinalTracks(ax)| && sizes[r] == FinalTracks(ax)[CoveredTo(ax.spans, r)] >= 1
  {
    ActiveTrackAt(ax.spans, r, Count(ax));
    TracksKeepMinimums(ax);
    assert Pick(sizes, ActiveTracks(ax.spans, Count(ax)))[CoveredTo(ax.spans, r)] == sizes[r];
  }
}
