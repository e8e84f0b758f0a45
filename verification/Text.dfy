/** The string operations of `SwString` that the designer uses. Bytes are modelled by `char`. */
module Text {

  datatype Option<+T> = None | Some(value: T)

  // ---- trimming, case and search ---------------------------------------------------------------

  predicate IsBlank(c: char) { c == ' ' || c == '\t' || c == '\n' || c == '\r' }

  function TrimLeft(s: string): string {
    if s != "" && IsBlank(s[0]) then TrimLeft(s[1..]) else s
  }

  function TrimRight(s: string): string {
    if s != "" && IsBlank(s[|s| - 1]) then TrimRight(s[..|s| - 1]) else s
  }

  function Trimmed(s: string): string { TrimRight(TrimLeft(s)) }

  function LowerChar(c: char): char {
    if 'A' <= c <= 'Z' then c - 'A' + 'a' else c
  }

  function ToLower(s: string): (r: string)
    ensures |r| == |s|
  {
    if s == "" then "" else [LowerChar(s[0])] + ToLower(s[1..])
  }

  predicate Contains(s: string, t: string)
    decreases |s|
  {
    t <= s || (s != "" && Contains(s[1..], t))
  }

  lemma {:induction false} LowerEach(s: string)
    ensures forall i :: 0 <= i < |s| ==> ToLower(s)[i] == LowerChar(s[i])
  {
    if s != "" { LowerEach(s[1..]); }
  }

  lemma {:induction false} ContainsAt(s: string, t: string, k: nat)
    requires k + |t| <= |s| && s[k..k + |t|] == t
    ensures Contains(s, t)
    decreases |s|
  {
    if k > 0 {
      assert s[1..][k - 1..k - 1 + |t|] == s[k..k + |t|];
      ContainsAt(s[1..], t, k - 1);
    } else {
      assert s[..|t|] == t;
    }
  }

  lemma {:induction false} ContainedAt(s: string, t: string) returns (k: nat)
    requires Contains(s, t)
    ensures k + |t| <= |s| && s[k..k + |t|] == t
    decreases |s|
  {
    if t <= s { k := 0; }
    else {
      var j := ContainedAt(s[1..], t);
      k := j + 1;
      assert s[k..k + |t|] == s[1..][j..j + |t|];
    }
  }

  /** The position of the first occurrence of `c`. */
  function FindChar(s: string, c: char): (r: Option<nat>)
    ensures r.Some? ==> r.value < |s| && s[r.value] == c && c !in s[..r.value]
    ensures r.None? <==> c !in s
  {
    if s == "" then None
    else if s[0] == c then Some(0)
    else match FindChar(s[1..], c)
      case None => None
      case Some(k) =>
        assert s[..k + 1] == [s[0]] + s[1..][..k];
        Some(k + 1)
  }

  lemma {:induction false} FindCharAfter(p: string, c: char, x: string)
    requires c !in p
    ensures FindChar(p + [c] + x, c) == Some(|p|)
  {
    if p == "" {
      assert p + [c] + x == [c] + x;
    } else {
      FindCharAfter(p[1..], c, x);
      assert (p + [c] + x)[1..] == p[1..] + [c] + x;
    }
  }

  /** The position of the first occurrence of the token `t`. */
  function FindToken(s: string, t: string): (r: Option<nat>)
    ensures r.Some? ==> r.value + |t| <= |s|
    decreases |s|
  {
    if t <= s then Some(0)
    else if s == "" then None
    else match FindToken(s[1..], t)
      case None => None
      case Some(k) => Some(k + 1)
  }

  /** What follows the last occurrence of `c`, or the whole string when there is none. */
  function AfterLast(s: string, c: char): string
  {
    if s == "" then ""
    else if c in s[1..] then AfterLast(s[1..], c)
    else if s[0] == c then s[1..]
    else s
  }

  lemma {:induction false} AfterLastPrefix(p: string, c: char, s: string)
    requires c !in s
    ensures AfterLast(p + [c] + s, c) == s
  {
    var w := p + [c] + s;
    if p == "" {
      assert w[1..] == s;
    } else {
      assert w[1..] == p[1..] + [c] + s;
      assert w[1..][|p| - 1] == c;
      AfterLastPrefix(p[1..], c, s);
    }
  }

  lemma TrimmedUnchanged(s: string)
    requires s == "" || (!IsBlank(s[0]) && !IsBlank(s[|s| - 1]))
    ensures Trimmed(s) == s
  {}

  lemma {:induction false} TrimRightClean(s: string)
    ensures TrimRight(s) <= s
    ensures TrimRight(s) == "" || !IsBlank(TrimRight(s)[|TrimRight(s)| - 1])
  {
    if s != "" && IsBlank(s[|s| - 1]) { TrimRightClean(s[..|s| - 1]); }
  }

  lemma {:induction false} TrimLeftClean(s: string)
    ensures TrimLeft(s) == "" || !IsBlank(TrimLeft(s)[0])
  {
    if s != "" && IsBlank(s[0]) { TrimLeftClean(s[1..]); }
  }

  /** Spaces, tabs and line ends. */
  predicate AllBlank(s: string) { forall i :: 0 <= i < |s| ==> s[i] in " \t\n\r" }

  lemma {:induction false} TrimRightCuts(s: string) returns (tail: string)
    ensures s == TrimRight(s) + tail && AllBlank(tail)
  {
    if s != "" && IsBlank(s[|s| - 1]) {
      var t := TrimRightCuts(s[..|s| - 1]);
      tail := t + [s[|s| - 1]];
      assert s == s[..|s| - 1] + [s[|s| - 1]];
    } else {
      tail := "";
    }
  }

  lemma {:induction false} TrimLeftCuts(s: string) returns (head: string)
    ensures s == head + TrimLeft(s) && AllBlank(head)
  {
    if s != "" && IsBlank(s[0]) {
      var h := TrimLeftCuts(s[1..]);
      head := [s[0]] + h;
    } else {
      head := "";
    }
  }

  /** Trimming takes blanks off both ends, all of them, and nothing else. */
  lemma TrimmedExactly(s: string) returns (head: string, tail: string)
    ensures s == head + Trimmed(s) + tail && AllBlank(head) && AllBlank(tail)
    ensures Trimmed(s) != "" ==> Trimmed(s)[0] !in " \t\n\r" && Trimmed(s)[|Trimmed(s)| - 1] !in " \t\n\r"
  {
    hide TrimLeft, TrimRight;
    head := TrimLeftCuts(s);
    tail := TrimRightCuts(TrimLeft(s));
    TrimLeftClean(s);
    TrimRightClean(TrimLeft(s));
  }

  lemma TrimmedIdempotent(s: string)
    ensures Trimmed(Trimmed(s)) == Trimmed(s)
  {
    TrimLeftClean(s);
    TrimRightClean(TrimLeft(s));
    TrimmedUnchanged(Trimmed(s));
  }

  // ---- strict ordering of keys (std::less on strings) -------------------------------------------

  predicate Less(a: string, b: string)
    decreases |a|
  {
    if b == "" then false
    else if a == "" then true
    else a[0] < b[0] || (a[0] == b[0] && Less(a[1..], b[1..]))
  }

  lemma {:induction false} LessAsymmetric(a: string, b: string)
    requires Less(a, b)
    ensures !Less(b, a) && a != b
    decreases |a|
  {
    if a != "" && a[0] == b[0] { LessAsymmetric(a[1..], b[1..]); }
  }

  lemma {:induction false} LessTransitive(a: string, b: string, c: string)
    requires Less(a, b) && Less(b, c)
    ensures Less(a, c)
    decreases |a|
  {
    if a != "" && a[0] == b[0] == c[0] { LessTransitive(a[1..], b[1..], c[1..]); }
  }

  lemma {:induction false} LessTotal(a: string, b: string)
    ensures a == b || Less(a, b) || Less(b, a)
    decreases |a|
  {
    if a != "" && b != "" && a[0] == b[0] {
      LessTotal(a[1..], b[1..]);
      if a[1..] == b[1..] { assert a == [a[0]] + a[1..] == [b[0]] + b[1..] == b; }
    }
  }

  // ---- numbers ----------------------------------------------------------------------------------

  predicate IsDigit(c: char) { '0' <= c <= '9' }

  function DigitValue(c: char): int {
    if '0' <= c <= '9' then c as int - '0' as int
    else if 'a' <= c <= 'z' then c as int - 'a' as int + 10
    else if 'A' <= c <= 'Z' then c as int - 'A' as int + 10
    else 99
  }

  /** Reads the longest run of digits of the base and ignores the rest. */
  function DigitsValue(s: string, base: int, acc: int): int {
    if s != "" && DigitValue(s[0]) < base then DigitsValue(s[1..], base, acc * base + DigitValue(s[0])) else acc
  }

  function Without(s: string, c: char): string {
    if s == "" then "" else (if s[0] == c then "" else [s[0]]) + Without(s[1..], c)
  }

  predicate IsSpace(c: char) { IsBlank(c) || c == '\U{0B}' || c == '\U{0C}' }

  function SkipSpace(s: string): (r: string)
    ensures |r| <= |s|
    ensures r == "" || !IsSpace(r[0])
  {
    if s != "" && IsSpace(s[0]) then SkipSpace(s[1..]) else s
  }

  /** The unsigned part of `std::stoll` with base detection. */
  function Magnitude(s: string): Option<int> {
    if |s| >= 3 && s[0] == '0' && (s[1] == 'x' || s[1] == 'X') && DigitValue(s[2]) < 16 then
      Some(DigitsValue(s[2..], 16, 0))
    else if s != "" && s[0] == '0' then Some(DigitsValue(s[1..], 8, 0))
    else if s != "" && IsDigit(s[0]) then Some(DigitsValue(s, 10, 0))
    else None
  }

  function Sign(s: string): int { if s != "" && s[0] == '-' then -1 else 1 }

  function Unsigned(s: string): string { if s != "" && (s[0] == '-' || s[0] == '+') then s[1..] else s }

  predicate HasBinaryPrefix(s: string) { |s| >= 2 && s[0] == '0' && (s[1] == 'b' || s[1] == 'B') }

  function BinaryMagnitude(s: string): Option<int> {
    if |s| >= 3 && (forall c :: c in s[2..] ==> c == '0' || c == '1') then Some(DigitsValue(s[2..], 2, 0)) else None
  }

  const INT_MIN := -0x8000_0000
  const INT_MAX := 0x7FFF_FFFF

  /** `SwString::toInt`: separators dropped, C prefixes recognised, zero when nothing can be read. */
  function ToInt(s: string): int {
    var t := Without(Trimmed(s), '_');
    var binary := HasBinaryPrefix(Unsigned(t));
    var u := if binary then t else SkipSpace(t);
    var v := if binary then BinaryMagnitude(Unsigned(u)) else Magnitude(Unsigned(u));
    var sign := Sign(u);
    if v.Some? && INT_MIN <= sign * v.value <= INT_MAX then sign * v.value else 0
  }

  function DigitChar(d: nat): (c: char)
    requires d < 10
    ensures IsDigit(c) && DigitValue(c) == d
  {
    ('0' as int + d) as char
  }

  /** `std::to_string` of a non-negative number. */
  function Decimal(n: nat): (r: string)
    ensures r != "" && forall i :: 0 <= i < |r| ==> IsDigit(r[i])
    ensures n > 0 ==> r[0] != '0'
  {
    if n < 10 then [DigitChar(n)] else Decimal(n / 10) + [DigitChar(n % 10)]
  }

  /** `std::to_string` of any integer. */
  function IntText(n: int): string { if n < 0 then "-" + Decimal(-n) else Decimal(n) }

  lemma {:induction false} DigitsValueSnoc(s: string, c: char, acc: int)
    requires IsDigit(c) && forall i :: 0 <= i < |s| ==> IsDigit(s[i])
    ensures DigitsValue(s + [c], 10, acc) == DigitsValue(s, 10, acc) * 10 + DigitValue(c)
    decreases |s|
  {
    if s == "" {
      assert s + [c] == [c];
      assert [c][1..] == "";
    } else {
      assert (s + [c])[1..] == s[1..] + [c];
      DigitsValueSnoc(s[1..], c, acc * 10 + DigitValue(s[0]));
    }
  }

  lemma {:induction false} DecimalValue(n: nat)
    ensures DigitsValue(Decimal(n), 10, 0) == n
  {
    if n < 10 {
      assert [DigitChar(n)][1..] == "";
    } else {
      DecimalValue(n / 10);
      DigitsValueSnoc(Decimal(n / 10), DigitChar(n % 10), 0);
    }
  }

  /** Distinct numbers have distinct decimal texts. */
  lemma DecimalInjective(m: nat, n: nat)
    requires Decimal(m) == Decimal(n)
    ensures m == n
  {
    DecimalValue(m);
    DecimalValue(n);
  }

  lemma {:induction false} WithoutAbsent(s: string, c: char)
    requires c !in s
    ensures Without(s, c) == s
  {
    if s != "" { WithoutAbsent(s[1..], c); }
  }

  /** A text of digits without a leading zero is read in base ten. */
  lemma DigitsMagnitude(d: string)
    requires d != "" && IsDigit(d[0]) && (d[0] == '0' ==> |d| == 1)
    ensures Magnitude(d) == Some(DigitsValue(d, 10, 0))
  {
    if d[0] == '0' {
      assert d[1..] == "";
      assert DigitsValue(d[1..], 10, 0) == 0 == DigitsValue(d[1..], 8, 0);
    }
  }

  lemma DigitsUnsigned(d: string)
    requires d != "" && IsDigit(d[0])
    ensures Sign(d) == 1 && Unsigned(d) == d
  {}

  lemma DigitsNotSpace(d: string)
    requires d != "" && IsDigit(d[0])
    ensures SkipSpace(d) == d
  {}

  lemma ToIntStep(s: string, v: int)
    requires Without(Trimmed(s), '_') == s && SkipSpace(s) == s
    requires !HasBinaryPrefix(Unsigned(s)) && Magnitude(Unsigned(s)) == Some(v)
    requires INT_MIN <= Sign(s) * v <= INT_MAX
    ensures ToInt(s) == Sign(s) * v
  {}

  lemma DigitsClean(d: string)
    requires d != "" && forall i :: 0 <= i < |d| ==> IsDigit(d[i])
    ensures '_' !in d && IsDigit(d[0]) && IsDigit(d[|d| - 1]) && !HasBinaryPrefix(d)
  {
    if |d| >= 2 { assert IsDigit(d[1]); }
  }

  lemma DigitsRead(d: string)
    requires d != "" && '_' !in d && IsDigit(d[0]) && IsDigit(d[|d| - 1]) && !HasBinaryPrefix(d)
    requires d[0] == '0' ==> |d| == 1
    requires DigitsValue(d, 10, 0) <= INT_MAX && DigitsValue(d, 10, 0) >= 0
    ensures ToInt(d) == DigitsValue(d, 10, 0)
  {
    TrimmedUnchanged(d);
    WithoutAbsent(d, '_');
    DigitsUnsigned(d);
    DigitsNotSpace(d);
    DigitsMagnitude(d);
    ToIntStep(d, DigitsValue(d, 10, 0));
  }

  lemma MinusParts(d: string)
    requires d != "" && '_' !in d && IsDigit(d[|d| - 1])
    ensures var t := "-" + d;
            Trimmed(t) == t && Without(t, '_') == t && SkipSpace(t) == t && Sign(t) == -1 && Unsigned(t) == d
  {
    var t := "-" + d;
    assert t[|t| - 1] == d[|d| - 1];
    TrimmedUnchanged(t);
    WithoutAbsent(t, '_');
    assert t[1..] == d;
  }

  lemma MinusRead(d: string)
    requires d != "" && '_' !in d && IsDigit(d[0]) && IsDigit(d[|d| - 1]) && !HasBinaryPrefix(d) && d[0] != '0'
    requires 0 <= DigitsValue(d, 10, 0) <= -INT_MIN
    ensures ToInt("-" + d) == -DigitsValue(d, 10, 0)
  {
    MinusParts(d);
    DigitsMagnitude(d);
    ToIntStep("-" + d, DigitsValue(d, 10, 0));
  }

  lemma DecimalRead(n: nat)
    requires n <= INT_MAX
    ensures ToInt(Decimal(n)) == n
  {
    DecimalValue(n);
    if n == 0 { assert |Decimal(0)| == 1; }
    DigitsClean(Decimal(n));
    DigitsRead(Decimal(n));
  }

  /** Reading back a printed machine integer gives the integer. */
  lemma ToIntOfIntText(n: int)
    requires INT_MIN <= n <= INT_MAX
    ensures ToInt(IntText(n)) == n
  {
    if n < 0 {
      DecimalValue(-n);
      DigitsClean(Decimal(-n));
      MinusRead(Decimal(-n));
    } else {
      DecimalRead(n);
    }
  }
}
