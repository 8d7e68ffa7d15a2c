/** Decimal renderings of naturals, and the text order the database sorts time columns by. */
module Decimal {

  function Digit(d: nat): char
    requires d < 10
  {
    "0123456789"[d]
  }

  predicate IsDigit(c: char) {
    '0' <= c <= '9'
  }

  /** `n.toString()` of a natural number. */
  function ToText(n: nat): string {
    if n < 10 then [Digit(n)] else ToText(n / 10) + [Digit(n % 10)]
  }

  /** `Number(text)` of a decimal rendering. */
  function ToNumber(text: string): nat
    requires forall c :: c in text ==> IsDigit(c)
  {
    if text == "" then 0
    else
      var last := text[|text| - 1];
      assert last in text && IsDigit(last);
      ToNumber(text[..|text| - 1]) * 10 + (last - '0') as nat
  }

  /** Lexicographic order of texts, as `orderBy` and `gte` compare them. */
  predicate TextLeq(a: string, b: string) {
    a == "" || (b != "" && (a[0] < b[0] || (a[0] == b[0] && TextLeq(a[1..], b[1..]))))
  }

  lemma DigitOrder(d: nat, e: nat)
    requires d < 10 && e < 10
    ensures IsDigit(Digit(d)) && (Digit(d) - '0') as nat == d
    ensures Digit(d) == Digit(e) <==> d == e
    ensures Digit(d) < Digit(e) <==> d < e
  {
  }

  /** A rendering is never empty, holds only digits, and `Number` reads it back. */
  lemma {:induction false} ToTextRoundTrip(n: nat)
    ensures ToText(n) != ""
    ensures forall c :: c in ToText(n) ==> IsDigit(c)
    ensures ToNumber(ToText(n)) == n
  {
    DigitOrder(n % 10, 0);
    if n < 10 {
      assert ToText(n)[..0] == "";
    } else {
      ToTextRoundTrip(n / 10);
      assert ToText(n)[..|ToText(n)| - 1] == ToText(n / 10);
    }
  }

  lemma {:induction false} TextLeqReflexive(a: string)
    ensures TextLeq(a, a)
  {
    if a != "" {
      TextLeqReflexive(a[1..]);
    }
  }

  lemma {:induction false} TextLeqAntisymmetric(a: string, b: string)
    requires TextLeq(a, b) && TextLeq(b, a)
    ensures a == b
  {
    if a != "" && b != "" {
      TextLeqAntisymmetric(a[1..], b[1..]);
      assert a == [a[0]] + a[1..] && b == [b[0]] + b[1..];
    }
  }

  /** Of two texts of one length, the last characters only decide a tie. */
  lemma {:induction false} TextLeqAppend(a: string, x: char, b: string, y: char)
    requires |a| == |b|
    ensures TextLeq(a + [x], b + [y]) <==> if a == b then x <= y else TextLeq(a, b)
  {
    if a == "" {
      assert a + [x] == [x] && b + [y] == [y];
    } else {
      TextLeqAppend(a[1..], x, b[1..], y);
      assert (a + [x])[1..] == a[1..] + [x] && (b + [y])[1..] == b[1..] + [y];
      assert a == b <==> a[0] == b[0] && a[1..] == b[1..] by {
        assert a == [a[0]] + a[1..] && b == [b[0]] + b[1..];
      }
      TextLeqReflexive(a[1..]);
    }
  }

  /** Renderings with the same number of digits sort as text the way their numbers do. */
  lemma {:induction false} SameLengthOrder(m: nat, n: nat)
    requires |ToText(m)| == |ToText(n)|
    ensures TextLeq(ToText(m), ToText(n)) <==> m <= n
    ensures ToText(m) == ToText(n) <==> m == n
  {
    DigitOrder(m % 10, n % 10);
    ToTextRoundTrip(m);
    ToTextRoundTrip(n);
    if m < 10 && n < 10 {
    } else if m < 10 || n < 10 {
      ToTextRoundTrip(m / 10);
      ToTextRoundTrip(n / 10);
    } else {
      SameLengthOrder(m / 10, n / 10);
      TextLeqAppend(ToText(m / 10), Digit(m % 10), ToText(n / 10), Digit(n % 10));
    }
  }

  /** More digits never make a smaller number: the length grows with the number. */
  lemma {:induction false} LengthMonotone(m: nat, n: nat)
    requires m <= n
    ensures |ToText(m)| <= |ToText(n)|
  {
    if m >= 10 {
      LengthMonotone(m / 10, n / 10);
    } else if n >= 10 {
      ToTextRoundTrip(n / 10);
    }
  }

  /** The seconds whose rendering has ten digits: from September 2001 to November 2286. */
  predicate TenDigits(n: nat) {
    1_000_000_000 <= n < 10_000_000_000
  }

  lemma TenDigitsLength(n: nat)
    requires TenDigits(n)
    ensures |ToText(n)| == 10
  {
    assert |ToText(1_000_000_000)| == 10 && |ToText(9_999_999_999)| == 10 by {
      PowerLengths();
    }
    LengthMonotone(1_000_000_000, n);
    LengthMonotone(n, 9_999_999_999);
  }

  lemma PowerLengths()
    ensures |ToText(1_000_000_000)| == 10 && |ToText(9_999_999_999)| == 10
  {
  }

  lemma NineDigitsLength(n: nat)
    requires 100_000_000 <= n < 1_000_000_000
    ensures |ToText(n)| == 9
  {
    TenDigitsLength(10 * n);
  }

  /** Two clock readings: the text order of the time column is the order of the clock. */
  lemma ClockOrder(m: nat, n: nat)
    requires TenDigits(m) && TenDigits(n)
    ensures TextLeq(ToText(m), ToText(n)) <==> m <= n
    ensures ToText(m) == ToText(n) <==> m == n
  {
    TenDigitsLength(m);
    TenDigitsLength(n);
    SameLengthOrder(m, n);
  }

  lemma {:induction false} TextLeqTotal(a: string, b: string)
    ensures TextLeq(a, b) || TextLeq(b, a)
  {
    if a != "" && b != "" && a[0] == b[0] {
      TextLeqTotal(a[1..], b[1..]);
    }
  }

  /** A further character at the end of a text that is no shorter decides nothing. */
  lemma {:induction false} TextLeqLonger(a: string, b: string, x: char)
    requires |a| <= |b|
    ensures TextLeq(a, b + [x]) <==> TextLeq(a, b)
  {
    if a != "" {
      TextLeqLonger(a[1..], b[1..], x);
      assert (b + [x])[1..] == b[1..] + [x];
    }
  }

  /** A number without its last `k` decimal digits. */
  function Leading(n: nat, k: nat): nat {
    if k == 0 then n else Leading(n / 10, k - 1)
  }

  /** Against a rendering with `k` more digits, a number sorts as text the way it sorts as a number
      against the leading digits of the other. */
  lemma {:induction false} ShorterOrder(m: nat, n: nat, k: nat)
    requires |ToText(m)| + k == |ToText(n)|
    ensures TextLeq(ToText(m), ToText(n)) <==> m <= Leading(n, k)
  {
    if k == 0 {
      SameLengthOrder(m, n);
    } else {
      ToTextRoundTrip(m);
      assert ToText(n) == ToText(n / 10) + [Digit(n % 10)];
      ShorterOrder(m, n / 10, k - 1);
      TextLeqLonger(ToText(m), ToText(n / 10), Digit(n % 10));
    }
  }

  /** Two renderings of different lengths are ordered one way only. */
  lemma LongerOrder(m: nat, n: nat, k: nat)
    requires |ToText(m)| == |ToText(n)| + k && k > 0
    ensures TextLeq(ToText(m), ToText(n)) <==> Leading(m, k) < n
  {
    ShorterOrder(n, m, k);
    TextLeqTotal(ToText(m), ToText(n));
    if TextLeq(ToText(m), ToText(n)) && TextLeq(ToText(n), ToText(m)) {
      TextLeqAntisymmetric(ToText(m), ToText(n));
    }
  }

  /** Whether two numbers sort as texts the way they do as numbers: with equally many digits always,
      else exactly if the shorter one is at most the leading digits of the longer one. */
  predicate SortsAsNumbers(m: nat, n: nat) {
    var x, y := |ToText(m)|, |ToText(n)|;
    if x <= y then x == y || m <= Leading(n, y - x) else n <= Leading(m, x - y)
  }

  /** The text order of two decimal renderings is right exactly under that condition. */
  lemma TextOrderExactly(m: nat, n: nat)
    ensures (TextLeq(ToText(m), ToText(n)) <==> m <= n) <==> SortsAsNumbers(m, n)
  {
    var x, y := |ToText(m)|, |ToText(n)|;
    if x == y {
      SameLengthOrder(m, n);
    } else if x < y {
      ShorterOrder(m, n, y - x);
      if n <= m {
        LengthMonotone(n, m);
      }
    } else {
      LongerOrder(m, n, x - y);
      if m <= n {
        LengthMonotone(m, n);
      }
    }
  }
}
