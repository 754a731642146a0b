/**
 * Decimal rendering and rounding as JavaScript performs them on the
 * integers this model works with: `String(n)`, `String(n).padStart(2, '0')`
 * and `Math.round`, which rounds halves towards positive infinity.
 */
module Numbers {

  predicate IsDigit(c: char)
  {
    '0' <= c <= '9'
  }

  predicate AllDigits(s: string)
  {
    forall i :: 0 <= i < |s| ==> IsDigit(s[i])
  }

  function DigitChar(n: nat): (c: char)
    requires n < 10
    ensures IsDigit(c) && c as int - '0' as int == n
  {
    ('0' as int + n) as char
  }

  /** `String(n)` for a non-negative integer: its decimal digits, most significant first. */
  function NatToString(n: nat): (s: string)
    ensures s != [] && AllDigits(s)
  {
    if n < 10 then [DigitChar(n)] else NatToString(n / 10) + [DigitChar(n % 10)]
  }

  /** `String(i)` for any integer: a minus sign before the digits of a negative value. */
  function IntToString(i: int): string
  {
    if i < 0 then "-" + NatToString(-i) else NatToString(i)
  }

  /** `String(n).padStart(2, '0')`: one leading zero for a single digit, unchanged otherwise. */
  function Pad2(n: nat): (s: string)
    ensures AllDigits(s)
  {
    if n < 10 then "0" + NatToString(n) else NatToString(n)
  }

  /** The value of a string of decimal digits (the inverse of the renderings above). */
  function DigitsValue(s: string): int
  {
    if s == [] then 0 else 10 * DigitsValue(s[..|s| - 1]) + (s[|s| - 1] as int - '0' as int)
  }

  lemma {:induction false} NatToStringRoundTrip(n: nat)
    ensures DigitsValue(NatToString(n)) == n
  {
    if n >= 10 {
      var s := NatToString(n);
      assert s[..|s| - 1] == NatToString(n / 10);
      NatToStringRoundTrip(n / 10);
    }
  }

  /** A two-digit value is rendered as exactly two digits that read back as the value. */
  lemma Pad2RoundTrip(n: nat)
    requires n < 100
    ensures |Pad2(n)| == 2 && DigitsValue(Pad2(n)) == n
  {
    if n < 10 {
      assert Pad2(n) == ['0', DigitChar(n)];
      assert Pad2(n)[..1] == "0";
      assert DigitsValue("0") == 0 by { assert "0"[..0] == []; }
    } else {
      assert NatToString(n) == [DigitChar(n / 10), DigitChar(n % 10)];
      NatToStringRoundTrip(n);
    }
  }

  /** A four-digit year is rendered as exactly four digits that read back as the year. */
  lemma FourDigits(n: nat)
    requires 1000 <= n <= 9999
    ensures |NatToString(n)| == 4 && DigitsValue(NatToString(n)) == n
  {
    assert NatToString(n / 1000) == [DigitChar(n / 1000)];
    assert |NatToString(n / 100)| == 2;
    assert |NatToString(n / 10)| == 3;
    NatToStringRoundTrip(n);
  }

  /**
   * `Math.round(a / b)` for a positive divisor: the integer nearest to a / b,
   * a half rounding upwards.
   */
  function RoundDiv(a: int, b: int): (r: int)
    requires b > 0
    ensures 2 * a - b < 2 * b * r <= 2 * a + b
  {
    var q := (2 * a + b) / (2 * b);
    assert 2 * b * q <= 2 * a + b < 2 * b * q + 2 * b;
    q
  }

  /** Rounding a quotient that lies between two integers stays between them. */
  lemma RoundDivBetween(a: int, b: int, lo: int, hi: int)
    requires b > 0 && b * lo <= a <= b * hi
    ensures lo <= RoundDiv(a, b) <= hi
  {
    var r := RoundDiv(a, b);
    if r > hi {
      assert 2 * b * r >= 2 * b * (hi + 1) by {
        assert r >= hi + 1;
        MulMonotone(2 * b, hi + 1, r);
      }
      assert false;
    }
    if r < lo {
      assert 2 * b * r <= 2 * b * (lo - 1) by {
        MulMonotone(2 * b, r, lo - 1);
      }
      assert false;
    }
  }

  /** The floor quotient is the one multiple that brackets the dividend. */
  lemma DivUnique(t: int, m: int, q: int)
    requires m > 0 && m * q <= t < m * q + m
    ensures t / m == q
  {
    var r := t / m;
    assert m * r <= t < m * r + m;
    if r < q {
      MulMonotone(m, r + 1, q);
    } else if r > q {
      MulMonotone(m, q + 1, r);
    }
  }

  lemma MulMonotone(k: int, x: int, y: int)
    requires k >= 0 && x <= y
    ensures k * x <= k * y
  {
  }
}
