/** Python number semantics the scripts depend on: `int()` of a float
    (truncation toward zero), `round(x, 4)`, `str(int)`, `int(str)`,
    `float(str)` and the `"{:,}"` thousands format. */
module Numbers {
  import opened Wrappers
  import opened Text

  lemma DivBounds(a: int, b: int)
    requires a >= 0 && b > 0
    ensures 0 <= (a / b) * b <= a < (a / b) * b + b
  {
  }

  lemma NegMul(q: int, b: int)
    ensures (-q) * b == -(q * b)
  {
  }

  lemma MulLess(x: int, y: int, b: int)
    requires b > 0 && x * b < y * b
    ensures x < y
  {
    if x >= y {
      MulMono(y, x, b);
    }
  }

  lemma MulMono(x: int, y: int, b: int)
    requires b > 0 && x <= y
    ensures x * b <= y * b
  {
  }

  /** `int(a / b)` for a positive divisor: the quotient truncated toward zero
      (Dafny's own `/` is Euclidean and differs for negative `a`). */
  function TruncDiv(a: int, b: int): (r: int)
    requires b > 0
    ensures a >= 0 ==> 0 <= r * b <= a < r * b + b
    ensures a < 0 ==> r * b - b < a <= r * b <= 0
  {
    if a >= 0 then DivBounds(a, b); a / b
    else DivBounds(-a, b); NegMul((-a) / b, b); -((-a) / b)
  }

  /** `int(x)` for a float: truncation toward zero. */
  function TruncReal(x: real): (r: int)
    ensures x >= 0.0 ==> 0.0 <= r as real <= x < r as real + 1.0
    ensures x < 0.0 ==> r as real - 1.0 < x <= r as real <= 0.0
  {
    if x >= 0.0 then x.Floor else -((-x).Floor)
  }

  function Sum(xs: seq<int>): int
  {
    if |xs| == 0 then 0 else Sum(xs[..|xs| - 1]) + xs[|xs| - 1]
  }

  function SumReal(xs: seq<real>): real
  {
    if |xs| == 0 then 0.0 else SumReal(xs[..|xs| - 1]) + xs[|xs| - 1]
  }

  /** `int(statistics.mean(xs))` for a non-empty list of integers. */
  function MeanInt(xs: seq<int>): int
    requires |xs| > 0
  {
    TruncDiv(Sum(xs), |xs|)
  }

  /** `int(mean)` of a non-empty list of floats. */
  function MeanTrunc(xs: seq<real>): int
    requires |xs| > 0
  {
    TruncReal(SumReal(xs) / |xs| as real)
  }

  /** `round(count / total, 4)` written as a whole number of ten-thousandths:
      the integer nearest to 10000 * count / total, halves to even. */
  function Share4(count: nat, total: nat): (r: int)
    requires total > 0
    ensures 2 * (r * total - 10000 * count) <= total
    ensures 2 * (10000 * count - r * total) <= total
    ensures count <= total ==> 0 <= r <= 10000
  {
    var n := 10000 * count;
    DivBounds(n, total);
    var q := n / total;
    var rem := n - q * total;
    assert (q + 1) * total == q * total + total;
    assert count <= total ==> q <= 10000 by {
      if count <= total && q > 10000 {
        MulMono(10001, q, total);
      }
    }
    assert count <= total && rem > 0 ==> q < 10000 by {
      if count <= total && rem > 0 {
        MulLess(q, 10000, total);
      }
    }
    if 2 * rem < total then q
    else if 2 * rem > total then q + 1
    else if q % 2 == 0 then q
    else q + 1
  }

  predicate IsDigit(c: char)
  {
    '0' <= c <= '9'
  }

  predicate AllDigits(s: string)
  {
    forall i :: 0 <= i < |s| ==> IsDigit(s[i])
  }

  function DigitChar(d: nat): (c: char)
    requires d < 10
    ensures IsDigit(c)
  {
    ('0' as int + d) as char
  }

  function DigitValue(c: char): (d: nat)
    requires IsDigit(c)
    ensures d < 10
  {
    (c as int) - ('0' as int)
  }

  /** The number written by a string of decimal digits ("" reads as 0). */
  function DigitsValue(s: string): nat
    requires AllDigits(s)
  {
    if |s| == 0 then 0 else DigitsValue(s[..|s| - 1]) * 10 + DigitValue(s[|s| - 1])
  }

  /** `str(n)` for a natural number. */
  function NatToString(n: nat): (s: string)
    ensures |s| > 0 && AllDigits(s)
    ensures n > 0 ==> s[0] != '0'
  {
    if n < 10 then [DigitChar(n)] else NatToString(n / 10) + [DigitChar(n % 10)]
  }

  /** `str(i)` for an integer. */
  function IntToString(i: int): string
  {
    if i < 0 then "-" + NatToString(-i) else NatToString(i)
  }

  /** Reading back the digits that `str(n)` writes gives `n`. */
  lemma {:induction false} NatToStringValue(n: nat)
    ensures DigitsValue(NatToString(n)) == n
  {
    var s := NatToString(n);
    if n >= 10 {
      NatToStringValue(n / 10);
      assert s[..|s| - 1] == NatToString(n / 10);
    }
  }

  /** `int(s)` for an optional sign followed by decimal digits. */
  function ParseInt(s: string): (r: Option<int>)
  {
    if |s| > 0 && (s[0] == '-' || s[0] == '+') then
      var body := s[1..];
      if |body| > 0 && AllDigits(body) then
        var v: int := DigitsValue(body);
        Some(if s[0] == '-' then -v else v)
      else None
    else if |s| > 0 && AllDigits(s) then Some(DigitsValue(s))
    else None
  }

  lemma IntToStringParses(i: int)
    ensures ParseInt(IntToString(i)) == Some(i)
  {
    var s := IntToString(i);
    if i < 0 {
      var n: nat := -i;
      var digits := NatToString(n);
      NatToStringValue(n);
      assert s[0] == '-' && s[1..] == digits;
      var v: int := DigitsValue(digits);
      assert ParseInt(s) == Some(-v);
    } else {
      var digits := NatToString(i);
      NatToStringValue(i);
      assert s == digits && IsDigit(s[0]);
      assert ParseInt(s) == Some(DigitsValue(digits));
    }
  }

  function Pow10(n: nat): (p: nat)
    ensures p >= 1
  {
    if n == 0 then 1 else 10 * Pow10(n - 1)
  }

  /** The value of the digits after a decimal point. */
  function FractionValue(digits: string): (r: real)
    requires AllDigits(digits)
    ensures r >= 0.0
  {
    DigitsValue(digits) as real / Pow10(|digits|) as real
  }

  /** `float(s)` for an unsigned decimal: digits with at most one point and
      at least one digit ("12", "12.", ".5", "12.50"). */
  function ParseUnsignedDecimal(s: string): (r: Option<real>)
    ensures r.Some? ==> r.value >= 0.0
  {
    match IndexOf(s, ".")
    case None => if |s| > 0 && AllDigits(s) then Some(DigitsValue(s) as real) else None
    case Some(i) =>
      var whole, fraction := s[..i], s[i + 1..];
      if AllDigits(whole) && AllDigits(fraction) && |whole| + |fraction| > 0 then
        Some(DigitsValue(whole) as real + FractionValue(fraction))
      else None
  }

  /** `float(s)` for an optionally signed decimal. */
  function ParseDecimal(s: string): (r: Option<real>)
  {
    if |s| > 0 && s[0] == '-' then
      match ParseUnsignedDecimal(s[1..])
      case None => None
      case Some(x) => Some(-x)
    else if |s| > 0 && s[0] == '+' then ParseUnsignedDecimal(s[1..])
    else ParseUnsignedDecimal(s)
  }

  lemma NoPointInDigits(s: string)
    requires AllDigits(s)
    ensures IndexOf(s, ".") == None
  {
    forall j ensures !OccursAt(s, ".", j) {
      if 0 <= j < |s| {
        assert s[j..j + 1][0] == s[j];
      }
    }
  }

  /** `float(str(i)) == i`. */
  lemma {:induction false} IntToStringIsDecimal(i: int)
    ensures ParseDecimal(IntToString(i)) == Some(i as real)
  {
    var n: nat := if i < 0 then -i else i;
    NatToStringValue(n);
    NoPointInDigits(NatToString(n));
    if i < 0 {
      assert IntToString(i)[1..] == NatToString(n);
    }
  }

  /** Three digits with leading zeros: the groups after the first in "{:,}". */
  function Pad3(m: nat): (s: string)
    requires m < 1000
    ensures |s| == 3 && AllDigits(s)
  {
    [DigitChar(m / 100), DigitChar(m / 10 % 10), DigitChar(m % 10)]
  }

  function GroupNat(n: nat): string
  {
    if n < 1000 then NatToString(n) else GroupNat(n / 1000) + " " + Pad3(n % 1000)
  }

  /** `"{:,}".format(n).replace(",", " ")`: digits in groups of three
      separated by single spaces, with a leading '-' for negatives. */
  function GroupThousands(n: int): string
  {
    if n < 0 then "-" + GroupNat(-n) else GroupNat(n)
  }

  lemma {:induction false} AppendDigit(a: nat, d: nat)
    requires a >= 1 && d < 10
    ensures NatToString(a * 10 + d) == NatToString(a) + [DigitChar(d)]
  {
    assert (a * 10 + d) / 10 == a;
    assert (a * 10 + d) % 10 == d;
  }

  lemma {:induction false} AppendGroup(q: nat, m: nat)
    requires q >= 1 && m < 1000
    ensures NatToString(q * 1000 + m) == NatToString(q) + Pad3(m)
  {
    var d2, d1, d0 := m / 100, m / 10 % 10, m % 10;
    var a := q * 10 + d2;
    var b := a * 10 + d1;
    assert m == d2 * 100 + d1 * 10 + d0;
    assert q * 1000 + m == b * 10 + d0;
    AppendDigit(q, d2);
    AppendDigit(a, d1);
    AppendDigit(b, d0);
    assert Pad3(m) == [DigitChar(d2)] + [DigitChar(d1)] + [DigitChar(d0)];
  }

  lemma {:induction false} WithoutConcat(a: string, b: string, c: char)
    ensures Without(a + b, c) == Without(a, c) + Without(b, c)
    decreases |a|
  {
    if |a| > 0 {
      assert (a + b)[1..] == a[1..] + b;
      WithoutConcat(a[1..], b, c);
    } else {
      assert a + b == b;
    }
  }

  lemma {:induction false} WithoutAbsent(s: string, c: char)
    requires c !in s
    ensures Without(s, c) == s
  {
    if |s| > 0 {
      WithoutAbsent(s[1..], c);
      assert s == [s[0]] + s[1..];
    }
  }

  /** Deleting the group separators of the thousands format gives `str(n)`. */
  lemma {:induction false} GroupNatDigits(n: nat)
    ensures Without(GroupNat(n), ' ') == NatToString(n)
  {
    if n < 1000 {
      WithoutAbsent(NatToString(n), ' ');
    } else {
      var q, m := n / 1000, n % 1000;
      GroupNatDigits(q);
      WithoutConcat(GroupNat(q) + " ", Pad3(m), ' ');
      WithoutConcat(GroupNat(q), " ", ' ');
      WithoutAbsent(Pad3(m), ' ');
      AppendGroup(q, m);
    }
  }

  /** The round trip that the salary filter relies on: the thousands-grouped
      text of an integer, with its spaces removed, reads back as that
      integer. */
  lemma GroupThousandsReadsBack(n: int)
    ensures ParseDecimal(Without(GroupThousands(n), ' ')) == Some(n as real)
  {
    if n < 0 {
      GroupNatDigits(-n);
      WithoutConcat("-", GroupNat(-n), ' ');
      assert Without("-", ' ') == "-";
    } else {
      GroupNatDigits(n);
    }
    IntToStringIsDecimal(n);
  }
}
