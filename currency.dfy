/**
 * Python's `format(x, ",.2f")` over exact reals: an optional minus sign,
 * the whole part with a comma between groups of three digits, a point and
 * exactly two decimals, the value rounded half to even at the cent.
 * `DigitsValue` reads the digits of such a string back and is the inverse
 * the rendering is proved against.
 */
module Currency {
  import opened Reals

  function Pow10(k: nat): (r: nat)
    ensures r >= 1
  {
    if k == 0 then 1 else 10 * Pow10(k - 1)
  }

  predicate IsDigit(c: char)
  {
    '0' <= c <= '9'
  }

  predicate AllDigits(s: string)
  {
    forall i :: 0 <= i < |s| ==> IsDigit(s[i])
  }

  function DigitChar(d: nat): (c: char)
    requires d < 10
    ensures IsDigit(c) && c as int - '0' as int == d
  {
    ('0' as int + d) as char
  }

  /** Decimal digits of n, without leading zeros ("0" for zero). */
  function Digits(n: nat): string
    decreases n
  {
    if n < 10 then [DigitChar(n)] else Digits(n / 10) + [DigitChar(n % 10)]
  }

  /** The last `width` decimal digits of n, padded with zeros on the left. */
  function Padded(n: nat, width: nat): (s: string)
    ensures |s| == width
  {
    if width == 0 then [] else Padded(n / 10, width - 1) + [DigitChar(n % 10)]
  }

  /** n in decimal with a comma between every group of three digits. */
  function Grouped(n: nat): string
    decreases n
  {
    if n < 1000 then Digits(n) else Grouped(n / 1000) + "," + Padded(n % 1000, 3)
  }

  /** The integer nearest to x; a tie goes to the even neighbour. */
  function RoundHalfEven(x: real): (r: int)
    ensures -0.5 <= r as real - x <= 0.5
    ensures (r as real - x == 0.5 || x - r as real == 0.5) ==> r % 2 == 0
  {
    var f := x.Floor;
    var frac := x - f as real;
    if frac < 0.5 then f
    else if frac > 0.5 then f + 1
    else if f % 2 == 0 then f
    else f + 1
  }

  /** The magnitude of x in whole cents, as the two-decimal rendering shows it. */
  function Cents(x: real): (c: nat)
    ensures -0.5 <= c as real - Abs(x) * 100.0 <= 0.5
  {
    RoundHalfEven(Abs(x) * 100.0)
  }

  /** `format(x, ",.2f")`; a negative x keeps its sign even when it rounds to zero. */
  function FixedTwo(x: real): (r: string)
    ensures |r| >= 4 && (r[0] == '-' <==> x < 0.0)
    ensures DigitsValue(r) == Cents(x)
  {
    SignedCentsDenotes(x < 0.0, Cents(x));
    SignedCents(x < 0.0, Cents(x))
  }

  /** c cents as "[-]whole.dd", the whole part grouped by thousands. */
  function SignedCents(negative: bool, c: nat): string
  {
    (if negative then "-" else "") + Grouped(c / 100) + "." + Padded(c % 100, 2)
  }

  /** The number the digits of s spell, every other character skipped. */
  function DigitsValue(s: string): nat
  {
    if s == [] then 0
    else if IsDigit(s[|s| - 1]) then DigitsValue(s[..|s| - 1]) * 10 + (s[|s| - 1] as int - '0' as int)
    else DigitsValue(s[..|s| - 1])
  }

  function DigitCount(s: string): nat
  {
    if s == [] then 0
    else DigitCount(s[..|s| - 1]) + (if IsDigit(s[|s| - 1]) then 1 else 0)
  }

  /** A leading group of one to three digits, then ",ddd" groups. */
  predicate WellGrouped(s: string)
    decreases |s|
  {
    if |s| <= 3 then 1 <= |s| && AllDigits(s)
    else |s| >= 5 && s[|s| - 4] == ',' && AllDigits(s[|s| - 3..]) && WellGrouped(s[..|s| - 4])
  }

  lemma AppendChar(s: string, c: char)
    ensures (s + [c])[..|s + [c]| - 1] == s && (s + [c])[|s + [c]| - 1] == c
  {
  }

  lemma ShiftDigit(v: nat, p: nat, w: nat, d: nat)
    ensures (v * p + w) * 10 + d == v * (10 * p) + (w * 10 + d)
  {
  }

  lemma {:induction false} ValueConcat(a: string, b: string)
    ensures DigitsValue(a + b) == DigitsValue(a) * Pow10(DigitCount(b)) + DigitsValue(b)
    ensures DigitCount(a + b) == DigitCount(a) + DigitCount(b)
  {
    if b == [] {
      assert a + b == a;
    } else {
      var b' := b[..|b| - 1];
      var c := b[|b| - 1];
      assert b == b' + [c];
      assert a + b == (a + b') + [c];
      AppendChar(a + b', c);
      ValueConcat(a, b');
      var k := DigitCount(b');
      if IsDigit(c) {
        var d := c as int - '0' as int;
        assert DigitsValue(a + b) == DigitsValue(a + b') * 10 + d;
        assert DigitsValue(b) == DigitsValue(b') * 10 + d;
        assert DigitCount(b) == k + 1;
        assert Pow10(k + 1) == 10 * Pow10(k);
        ShiftDigit(DigitsValue(a), Pow10(k), DigitsValue(b'), d);
      } else {
        assert DigitsValue(a + b) == DigitsValue(a + b');
        assert DigitsValue(b) == DigitsValue(b');
      }
    }
  }

  lemma {:induction false} DigitsValueOfDigits(n: nat)
    ensures DigitsValue(Digits(n)) == n && AllDigits(Digits(n)) && |Digits(n)| >= 1
    ensures n > 0 ==> Digits(n)[0] != '0'
    decreases n
  {
    if n < 10 {
      assert Digits(n) == [] + [DigitChar(n)];
      AppendChar([], DigitChar(n));
    } else {
      DigitsValueOfDigits(n / 10);
      AppendChar(Digits(n / 10), DigitChar(n % 10));
    }
  }

  lemma {:induction false} DigitsAtMostThree(n: nat)
    requires n < 1000
    ensures |Digits(n)| <= 3
  {
    if n >= 10 {
      if n >= 100 {
        assert Digits(n / 10 / 10) == [DigitChar(n / 100)];
      }
    }
  }

  lemma {:induction false} PaddedValue(n: nat, width: nat)
    requires n < Pow10(width)
    ensures DigitsValue(Padded(n, width)) == n && DigitCount(Padded(n, width)) == width
    ensures AllDigits(Padded(n, width))
  {
    if width > 0 {
      assert n / 10 < Pow10(width - 1);
      PaddedValue(n / 10, width - 1);
      AppendChar(Padded(n / 10, width - 1), DigitChar(n % 10));
    }
  }

  /** A comma and one more group of three digits after a well grouped prefix. */
  lemma GroupJoin(g: string, p: string)
    requires WellGrouped(g) && AllDigits(p) && |p| == 3 && DigitCount(p) == 3
    ensures WellGrouped(g + "," + p) && (g + "," + p)[0] == g[0]
    ensures DigitsValue(g + "," + p) == DigitsValue(g) * 1000 + DigitsValue(p)
  {
    var s := g + "," + p;
    assert s[..|s| - 4] == g;
    assert s[|s| - 3..] == p;
    WellGroupedStartsWithDigit(g);
    AppendChar(g, ',');
    assert g + "," == g + [','];
    assert s == (g + ",") + p;
    ValueConcat(g + ",", p);
    assert Pow10(3) == 1000;
  }

  /** Grouping keeps the digits of n and puts the commas where they belong. */
  lemma {:induction false} GroupedDenotes(n: nat)
    ensures WellGrouped(Grouped(n)) && DigitsValue(Grouped(n)) == n
    ensures n > 0 ==> Grouped(n)[0] != '0'
    ensures n == 0 ==> Grouped(n) == "0"
    decreases n
  {
    if n < 1000 {
      DigitsValueOfDigits(n);
      DigitsAtMostThree(n);
    } else {
      var g := Grouped(n / 1000);
      var p := Padded(n % 1000, 3);
      GroupedDenotes(n / 1000);
      PaddedValue(n % 1000, 3);
      assert Grouped(n) == g + "," + p;
      GroupJoin(g, p);
    }
  }

  lemma {:induction false} WellGroupedStartsWithDigit(s: string)
    requires WellGrouped(s)
    ensures |s| >= 1 && IsDigit(s[0])
    decreases |s|
  {
    if |s| > 3 {
      WellGroupedStartsWithDigit(s[..|s| - 4]);
    }
  }

  /** A whole part without leading zeros: it starts with 1-9 unless it is "0". */
  predicate NoLeadingZero(g: string)
  {
    |g| >= 1 && (g[0] == '0' ==> |g| == 1)
  }

  /** Digits, a point and two decimals, the whole part well grouped and without leading zeros. */
  predicate TwoDecimalShape(t: string)
  {
    && |t| >= 4 && t[|t| - 3] == '.' && AllDigits(t[|t| - 2..])
    && WellGrouped(t[..|t| - 3]) && NoLeadingZero(t[..|t| - 3])
  }

  lemma {:induction false} PointJoin(g: string, p: string)
    requires WellGrouped(g) && NoLeadingZero(g) && AllDigits(p) && |p| == 2 && DigitCount(p) == 2
    ensures TwoDecimalShape(g + "." + p) && IsDigit((g + "." + p)[0])
    ensures DigitsValue(g + "." + p) == DigitsValue(g) * 100 + DigitsValue(p)
  {
    var t := g + "." + p;
    WellGroupedStartsWithDigit(g);
    assert t[..|t| - 3] == g;
    assert t[|t| - 2..] == p;
    AppendChar(g, '.');
    assert g + "." == g + ['.'];
    assert t == (g + ".") + p;
    ValueConcat(g + ".", p);
  }

  lemma SkipSign(t: string)
    ensures (['-'] + t)[0] == '-' && (['-'] + t)[1..] == t
    ensures DigitsValue(['-'] + t) == DigitsValue(t)
  {
    var m: string := ['-'];
    assert m == [] + ['-'];
    AppendChar([], '-');
    assert DigitsValue(m) == 0 && DigitCount(m) == 0;
    ValueConcat(m, t);
  }

  /** The unsigned rendering of c cents: the shape, a leading digit, and digits spelling c. */
  lemma UnsignedCentsDenotes(c: nat)
    ensures TwoDecimalShape(SignedCents(false, c)) && IsDigit(SignedCents(false, c)[0])
    ensures DigitsValue(SignedCents(false, c)) == c
  {
    var g := Grouped(c / 100);
    var p := Padded(c % 100, 2);
    GroupedDenotes(c / 100);
    assert NoLeadingZero(g);
    PaddedValue(c % 100, 2);
    PointJoin(g, p);
    assert SignedCents(false, c) == g + "." + p;
  }

  lemma {:induction false} SignedCentsDenotes(negative: bool, c: nat)
    ensures |SignedCents(negative, c)| >= 4
    ensures negative ==> SignedCents(negative, c)[0] == '-' && TwoDecimalShape(SignedCents(negative, c)[1..])
    ensures !negative ==> IsDigit(SignedCents(negative, c)[0]) && TwoDecimalShape(SignedCents(negative, c))
    ensures DigitsValue(SignedCents(negative, c)) == c
  {
    var t := SignedCents(false, c);
    UnsignedCentsDenotes(c);
    if negative {
      assert SignedCents(negative, c) == ['-'] + t;
      SkipSign(t);
    }
  }

  /**
   * The rendering has the promised shape: a minus sign exactly when x is
   * negative, then a well grouped whole part, a point and two decimals; and
   * its digits spell the magnitude of x in cents, to within half a cent.
   */
  lemma FixedTwoDenotes(x: real)
    ensures |FixedTwo(x)| >= 4
    ensures x < 0.0 ==> FixedTwo(x)[0] == '-' && TwoDecimalShape(FixedTwo(x)[1..])
    ensures x >= 0.0 ==> IsDigit(FixedTwo(x)[0]) && TwoDecimalShape(FixedTwo(x))
    ensures DigitsValue(FixedTwo(x)) == Cents(x)
    ensures -0.5 <= DigitsValue(FixedTwo(x)) as real - Abs(x) * 100.0 <= 0.5
  {
    SignedCentsDenotes(x < 0.0, Cents(x));
  }

  // ---------------------------------------------- the rendering is determined

  lemma {:induction false} AllDigitsCount(s: string)
    requires AllDigits(s)
    ensures DigitCount(s) == |s|
  {
    if s != [] {
      AllDigitsCount(s[..|s| - 1]);
    }
  }

  lemma {:induction false} DigitsValueBound(s: string)
    requires AllDigits(s)
    ensures DigitsValue(s) < Pow10(|s|)
  {
    if s != [] {
      DigitsValueBound(s[..|s| - 1]);
    }
  }

  /** Digits that start with 1-9 spell a positive number. */
  lemma {:induction false} LeadingDigitPositive(s: string)
    requires |s| >= 1 && IsDigit(s[0]) && s[0] != '0'
    ensures DigitsValue(s) >= 1
  {
    if |s| > 1 {
      LeadingDigitPositive(s[..|s| - 1]);
    }
  }

  lemma LastDigit(v: nat, d: nat)
    requires d < 10
    ensures (v * 10 + d) / 10 == v && (v * 10 + d) % 10 == d
  {
  }

  lemma DigitCharOf(c: char)
    requires IsDigit(c)
    ensures DigitChar(c as int - '0' as int) == c
  {
  }

  /** A zero-padded field is the padding of the number it spells. */
  lemma {:induction false} PaddedOfValue(s: string)
    requires AllDigits(s)
    ensures Padded(DigitsValue(s), |s|) == s
  {
    if s != [] {
      var s' := s[..|s| - 1];
      var c := s[|s| - 1];
      assert s == s' + [c];
      PaddedOfValue(s');
      DigitCharOf(c);
      LastDigit(DigitsValue(s'), c as int - '0' as int);
    }
  }

  /** Digits without leading zeros are the decimal digits of the number they spell. */
  lemma {:induction false} DigitsOfValue(s: string)
    requires AllDigits(s) && NoLeadingZero(s)
    ensures Digits(DigitsValue(s)) == s
  {
    var s' := s[..|s| - 1];
    var c := s[|s| - 1];
    assert s == s' + [c];
    DigitCharOf(c);
    if |s| == 1 {
      assert s' == [];
    } else {
      DigitsOfValue(s');
      LeadingDigitPositive(s');
      LastDigit(DigitsValue(s'), c as int - '0' as int);
    }
  }

  /** A well grouped whole part without leading zeros is the grouping of the number it spells. */
  lemma {:induction false} GroupedOfValue(g: string)
    requires WellGrouped(g) && NoLeadingZero(g)
    ensures Grouped(DigitsValue(g)) == g
    decreases |g|
  {
    if |g| <= 3 {
      DigitsOfValue(g);
      DigitsValueBound(g);
      assert Pow10(|g|) <= 1000 by {
        assert Pow10(1) == 10 && Pow10(2) == 100 && Pow10(3) == 1000;
      }
    } else {
      var h := g[..|g| - 4];
      var p := g[|g| - 3..];
      assert g == h + "," + p;
      WellGroupedStartsWithDigit(h);
      AllDigitsCount(p);
      GroupJoin(h, p);
      DigitsValueBound(p);
      assert Pow10(3) == 1000;
      LeadingDigitPositive(h);
      GroupedOfValue(h);
      PaddedOfValue(p);
    }
  }

  lemma Split100(a: nat, b: nat)
    requires b < 100
    ensures (a * 100 + b) / 100 == a && (a * 100 + b) % 100 == b
  {
  }

  /** A whole part, a point and two decimals make the rendering of the cents they spell. */
  lemma JoinedCentsOfValue(g: string, p: string)
    requires WellGrouped(g) && NoLeadingZero(g) && AllDigits(p) && |p| == 2
    ensures SignedCents(false, DigitsValue(g + "." + p)) == g + "." + p
  {
    var v := DigitsValue(g + "." + p);
    var whole := DigitsValue(g);
    var cents := DigitsValue(p);
    AllDigitsCount(p);
    PointJoin(g, p);
    DigitsValueBound(p);
    assert Pow10(2) == 100;
    Split100(whole, cents);
    assert v / 100 == whole && v % 100 == cents;
    GroupedOfValue(g);
    PaddedOfValue(p);
    assert Grouped(whole) == g && Padded(cents, 2) == p;
  }

  /** An unsigned two-decimal string is the rendering of the cents it spells. */
  lemma SignedCentsOfShape(t: string)
    requires TwoDecimalShape(t)
    ensures SignedCents(false, DigitsValue(t)) == t
  {
    var g := t[..|t| - 3];
    var p := t[|t| - 2..];
    assert t == g + "." + p;
    JoinedCentsOfValue(g, p);
  }

  /** A minus sign before a two-decimal string is the negative rendering of the cents it spells. */
  lemma NegativeOfShape(u: string)
    requires TwoDecimalShape(u)
    ensures SignedCents(true, DigitsValue(u)) == ['-'] + u && DigitsValue(['-'] + u) == DigitsValue(u)
  {
    SkipSign(u);
    SignedCentsOfShape(u);
    assert SignedCents(true, DigitsValue(u)) == ['-'] + SignedCents(false, DigitsValue(u));
  }

  /**
   * The rendering is the only string of its shape that spells its cents:
   * any string with the sign of x, a well grouped whole part without
   * leading zeros, a point and two decimals, whose digits spell the cents
   * of x, is exactly `FixedTwo(x)`.
   */
  lemma RenderingDetermined(x: real, t: string)
    requires x < 0.0 ==> |t| >= 1 && t[0] == '-' && TwoDecimalShape(t[1..])
    requires x >= 0.0 ==> TwoDecimalShape(t)
    requires DigitsValue(t) == Cents(x)
    ensures t == FixedTwo(x)
  {
    var c := Cents(x);
    if x < 0.0 {
      var u := t[1..];
      assert t == ['-'] + u;
      NegativeOfShape(u);
      assert t == SignedCents(true, c);
    } else {
      SignedCentsOfShape(t);
      assert t == SignedCents(false, c);
    }
  }
}
