/** Cell ranges of grid children along one axis. */
module Tracks {
  import opened Arith

  datatype Span = Span(start: int, len: int)

  predicate Covers(s: Span, r: int) { s.start <= r < s.start + s.len }

  predicate Covered(spans: seq<Span>, r: int) { exists i :: 0 <= i < |spans| && Covers(spans[i], r) }

  /** The index of the last track that the first `k` spans reach, at least zero. */
  function LastTrack(spans: seq<Span>, k: nat): (r: nat)
    requires k <= |spans|
    ensures forall i :: 0 <= i < k ==> spans[i].start + spans[i].len - 1 <= r
  {
    if k == 0 then 0 else Max(LastTrack(spans, k - 1), spans[k - 1].start + spans[k - 1].len - 1)
  }

  function TrackCount(spans: seq<Span>): (n: nat)
    ensures n >= 1 && forall i :: 0 <= i < |spans| ==> spans[i].start + spans[i].len <= n
  {
    LastTrack(spans, |spans|) + 1
  }

  /** What marking tracks asks: a span that covers anything starts at track 0 or later. */
  predicate MarkableSpans(spans: seq<Span>) {
    forall i :: 0 <= i < |spans| && spans[i].len > 0 ==> spans[i].start >= 0
  }

  /** What reading positions asks: the start and the end of every span are positions of the table. */
  predicate ValidSpans(spans: seq<Span>) {
    forall i :: 0 <= i < |spans| ==> 0 <= spans[i].start <= TrackCount(spans) && spans[i].start + spans[i].len >= 0
  }
}
