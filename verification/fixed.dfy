/** `Number.prototype.toFixed(3)` applied to a correlation coefficient, over
    exact reals. The coefficient is num / sqrt(d) with 0 <= num² <= d, which
    has no closed form without square roots, so rounding is done by comparing
    squares: `MilliOfRoot(q, d)` is the integer k nearest to 1000·sqrt(q/d)
    (the larger one on a tie), and `ToFixed3` lays out ±k/1000 as text. */
module Fixed {

  predicate IsDigit(c: char) { '0' <= c <= '9' }

  predicate AllDigits(s: string) { forall i :: 0 <= i < |s| ==> IsDigit(s[i]) }

  function DigitChar(d: nat): (c: char)
    requires d < 10
    ensures IsDigit(c) && c as int - '0' as int == d
  {
    "0123456789"[d]
  }

  /** Decimal digits of n, most significant first; "0" for zero. */
  function Digits(n: nat): (s: string)
    ensures |s| > 0 && AllDigits(s)
    ensures n < 10 <==> |s| == 1
  {
    if n < 10 then [DigitChar(n)] else Digits(n / 10) + [DigitChar(n % 10)]
  }

  function Zeros(k: nat): (s: string)
    ensures |s| == k && forall i :: 0 <= i < k ==> s[i] == '0'
  {
    if k == 0 then [] else Zeros(k - 1) + ['0']
  }

  /** The value of a string of decimal digits. */
  function ParseDigits(s: string): int
  {
    if s == [] then 0 else 10 * ParseDigits(s[..|s| - 1]) + (s[|s| - 1] as int - '0' as int)
  }

  /** The digits of n, left-padded with zeros to at least four. */
  function Padded(n: nat): (s: string)
    ensures |s| >= 4 && AllDigits(s)
  {
    var m := Digits(n);
    if |m| <= 3 then Zeros(4 - |m|) + m else m
  }

  /** The unsigned text: a point before the last three padded digits. */
  function Magnitude(n: nat): (u: string)
    ensures |u| >= 5 && u[|u| - 4] == '.'
    ensures u[..|u| - 4] == Padded(n)[..|Padded(n)| - 3] && u[|u| - 3..] == Padded(n)[|Padded(n)| - 3..]
  {
    var padded := Padded(n);
    padded[..|padded| - 3] + "." + padded[|padded| - 3..]
  }

  /** The fixed-point text of a value whose magnitude is n thousandths:
      the digits of n, left-padded with zeros to at least four, with a point
      before the last three and a minus sign in front when `negative`. */
  function ToFixed3(negative: bool, n: nat): (s: string)
    ensures IsFixed3(s)
    ensures negative <==> s[0] == '-'
    ensures Unsigned(s)[..|Unsigned(s)| - 4] == Digits(n / 1000)
  {
    var u := Magnitude(n);
    assert u[0] != '-' by { assert u[0] == Padded(n)[0]; }
    IntegerPart(n);
    if negative then "-" + u else u
  }

  /** Before the last three digits, the padded digits of n are exactly the
      digits of n / 1000: no leading zero beyond a single "0". */
  lemma IntegerPart(n: nat)
    ensures Padded(n)[..|Padded(n)| - 3] == Digits(n / 1000)
  {
    var m := Digits(n);
    if n < 1000 {
      DigitsShort(n);
      var z := Zeros(4 - |m|);
      assert Padded(n)[..1] == [z[0]];
      assert Digits(0) == "0";
    } else {
      DigitsThousands(n);
    }
  }

  /** A number below a thousand has at most three digits. */
  lemma DigitsShort(n: nat)
    requires n < 1000
    ensures |Digits(n)| <= 3
  {
    if n >= 10 {
      assert n / 10 < 100;
      if n / 10 >= 10 {
        assert n / 10 / 10 < 10;
      }
    }
  }

  /** The digits of n >= 1000 are those of n / 1000 followed by three more. */
  lemma DigitsThousands(n: nat)
    requires n >= 1000
    ensures |Digits(n)| >= 4 && Digits(n)[..|Digits(n)| - 3] == Digits(n / 1000)
  {
    var a, b, c := n / 10, n / 100, n / 1000;
    assert a / 10 == b && b / 10 == c;
    assert b >= 10;
    var dc, db, da := Digits(c), Digits(b), Digits(a);
    assert db == dc + [DigitChar(b % 10)];
    assert da == db + [DigitChar(a % 10)];
    assert Digits(n) == da + [DigitChar(n % 10)];
    assert Digits(n) == dc + [DigitChar(b % 10), DigitChar(a % 10), DigitChar(n % 10)];
  }

  /** An optional minus sign, at least one digit, a point, exactly three digits. */
  predicate IsFixed3(s: string)
  {
    var u := Unsigned(s);
    |u| >= 5 && u[|u| - 4] == '.' && AllDigits(u[..|u| - 4]) && AllDigits(u[|u| - 3..])
  }

  function Unsigned(s: string): string
  {
    if |s| > 0 && s[0] == '-' then s[1..] else s
  }

  function Abs(k: int): nat { if k < 0 then -k else k }

  /** Reads a fixed-point text back, in thousandths. */
  function ParseFixed3(s: string): int
    requires IsFixed3(s)
  {
    var u := Unsigned(s);
    var v := ParseDigits(u[..|u| - 4]) * 1000 + ParseDigits(u[|u| - 3..]);
    if s[0] == '-' then -v else v
  }

  lemma {:induction false} DigitsRoundTrip(n: nat)
    ensures ParseDigits(Digits(n)) == n
  {
    if n >= 10 {
      DigitsRoundTrip(n / 10);
      var s := Digits(n);
      assert s[..|s| - 1] == Digits(n / 10);
    }
  }

  /** Reading one more digit shifts the value one decimal place. */
  lemma ParseDigitsSnoc(a: string, c: char)
    ensures ParseDigits(a + [c]) == 10 * ParseDigits(a) + (c as int - '0' as int)
  {
    assert (a + [c])[..|a + [c]| - 1] == a;
  }

  /** Leading zeros do not change the value. */
  lemma {:induction false} ParseZerosPrefix(k: nat, s: string)
    ensures ParseDigits(Zeros(k) + s) == ParseDigits(s)
    decreases |s|
  {
    if s == [] {
      assert Zeros(k) + s == Zeros(k);
      ParseZeros(k);
    } else {
      var s', c := s[..|s| - 1], s[|s| - 1];
      assert Zeros(k) + s == (Zeros(k) + s') + [c];
      assert s == s' + [c];
      ParseDigitsSnoc(Zeros(k) + s', c);
      ParseDigitsSnoc(s', c);
      ParseZerosPrefix(k, s');
    }
  }

  lemma {:induction false} ParseZeros(k: nat)
    ensures ParseDigits(Zeros(k)) == 0
  {
    if k > 0 {
      ParseZeros(k - 1);
      assert Zeros(k)[..k - 1] == Zeros(k - 1);
    }
  }

  /** Three trailing digits are worth their own value plus a thousand times
      what precedes them. */
  lemma ParseThousands(a: string, b: string)
    requires |b| == 3
    ensures ParseDigits(a + b) == 1000 * ParseDigits(a) + ParseDigits(b)
  {
    var b1, b2 := b[..1], b[..2];
    assert b1 == [] + [b[0]] && b2 == b1 + [b[1]] && b == b2 + [b[2]];
    assert a + b1 == a + [b[0]] && a + b2 == (a + b1) + [b[1]] && a + b == (a + b2) + [b[2]];
    ParseDigitsSnoc([], b[0]);
    ParseDigitsSnoc(b1, b[1]);
    ParseDigitsSnoc(b2, b[2]);
    ParseDigitsSnoc(a, b[0]);
    ParseDigitsSnoc(a + b1, b[1]);
    ParseDigitsSnoc(a + b2, b[2]);
  }

  lemma PaddedValue(n: nat)
    ensures ParseDigits(Padded(n)) == n
  {
    var m := Digits(n);
    DigitsRoundTrip(n);
    if |m| <= 3 {
      ParseZerosPrefix(4 - |m|, m);
    }
  }

  /** Reading the text back gives the signed number of thousandths. */
  lemma FixedRoundTrip(negative: bool, n: nat)
    ensures ParseFixed3(ToFixed3(negative, n)) == if negative then -(n as int) else n
  {
    var padded := Padded(n);
    var k := |padded|;
    var a, b := padded[..k - 3], padded[k - 3..];
    assert padded == a + b;
    PaddedValue(n);
    ParseThousands(a, b);
    var s := ToFixed3(negative, n);
    var u := Magnitude(n);
    assert u[0] == padded[0];
    assert Unsigned(s) == u;
    assert u[..|u| - 4] == a && u[|u| - 3..] == b;
  }

  /** The text is never "NaN", and its magnitude reads back as n. */
  lemma FixedMagnitude(negative: bool, n: nat)
    ensures ToFixed3(negative, n) != "NaN"
    ensures Abs(ParseFixed3(ToFixed3(negative, n))) == n
  {
    FixedRoundTrip(negative, n);
    assert Unsigned("NaN") == "NaN";
  }

  /** 1000·sqrt(q/d) is at least k - 1/2, compared through squares. */
  predicate AtLeastHalfBelow(q: real, d: real, k: nat)
  {
    (k as real - 0.5) * (k as real - 0.5) * d <= 1000000.0 * q
  }

  /** The largest j <= k with j = 0 or 1000·sqrt(q/d) >= j - 1/2. */
  function SearchMilli(q: real, d: real, k: nat): (j: nat)
    ensures j <= k
    ensures j == 0 || AtLeastHalfBelow(q, d, j)
    ensures forall i: nat :: j < i <= k ==> !AtLeastHalfBelow(q, d, i)
  {
    if k == 0 || AtLeastHalfBelow(q, d, k) then k else SearchMilli(q, d, k - 1)
  }

  /** toFixed(3)'s n: the integer closest to 1000·sqrt(q/d), the larger of
      two on a tie, within the 0..1000 a correlation can reach. */
  function MilliOfRoot(q: real, d: real): nat
  {
    SearchMilli(q, d, 1000)
  }

  /** k is 1000·sqrt(q/d) rounded to the nearest integer, halves upward,
      for a ratio q/d of at most one: k - 1/2 <= 1000·sqrt(q/d) < k + 1/2,
      compared through squares. */
  ghost predicate NearestMilli(k: int, q: real, d: real)
  {
    0 <= k <= 1000 && (k == 0 || AtLeastHalfBelow(q, d, k)) && !AtLeastHalfBelow(q, d, k + 1)
  }

  /** The search finds the rounded value whenever 0 <= q <= d and d > 0. */
  lemma MilliOfRootNearest(q: real, d: real)
    requires 0.0 < d && 0.0 <= q <= d
    ensures NearestMilli(MilliOfRoot(q, d), q, d)
  {
    var k := MilliOfRoot(q, d);
    if k < 1000 {
      assert !AtLeastHalfBelow(q, d, k + 1);
    } else {
      assert 1000000.0 * q <= 1000000.0 * d;
    }
  }

  /** A ratio of exactly one rounds to a thousand thousandths. */
  lemma MilliOfRootWhole(q: real)
    requires 0.0 < q
    ensures MilliOfRoot(q, q) == 1000
  {
    assert AtLeastHalfBelow(q, q, 1000);
  }

  /** An exact ±1 prints as "1.000" or "-1.000". */
  lemma UnitText(negative: bool)
    ensures ToFixed3(negative, 1000) == if negative then "-1.000" else "1.000"
  {
    assert Digits(1000) == "1000" by {
      assert Digits(1) == "1";
      assert Digits(10) == "10";
      assert Digits(100) == "100";
    }
    assert Padded(1000) == "1000";
    assert Magnitude(1000) == "1.000";
  }
}
