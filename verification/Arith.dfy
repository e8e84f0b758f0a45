/** Integer helpers shared by the layout modules. Pixels are unbounded integers. */
module Arith {

  function Max(a: int, b: int): int { if a >= b then a else b }

  function Min(a: int, b: int): int { if a <= b then a else b }

  /** The C++ integer division, which truncates toward zero. */
  function TruncDiv(a: int, b: int): int
    requires b > 0
  {
    if a >= 0 then a / b else -((-a) / b)
  }

  /** The sum of the first `k` elements. */
  function SumTo(s: seq<int>, k: nat): int
    requires k <= |s|
  {
    if k == 0 then 0 else SumTo(s, k - 1) + s[k - 1]
  }

  function Sum(s: seq<int>): int { SumTo(s, |s|) }

  lemma {:induction false} SumToMonotone(s: seq<int>, i: nat, k: nat)
    requires i <= k <= |s|
    requires forall j :: i <= j < k ==> s[j] >= 0
    ensures SumTo(s, i) <= SumTo(s, k)
  {
    if i < k { SumToMonotone(s, i, k - 1); }
  }

  lemma {:induction false} SumToPrefix(s: seq<int>, x: int, k: nat)
    requires k <= |s|
    ensures SumTo(s + [x], k) == SumTo(s, k)
  {
    if k > 0 { SumToPrefix(s, x, k - 1); }
  }

  lemma SumSnoc(s: seq<int>, x: int)
    ensures Sum(s + [x]) == Sum(s) + x
  {
    SumToPrefix(s, x, |s|);
  }
}
