/** Reading a number out of a cell's text: the part of `pd.to_numeric` the
    dashboard relies on, for plain decimal notation (an optional sign, digits,
    at most one decimal point, at least one digit). */
module Numbers {
  import opened Table

  predicate IsDigit(c: char)
  {
    '0' <= c <= '9'
  }

  predicate AllDigits(s: string)
  {
    forall i :: 0 <= i < |s| ==> IsDigit(s[i])
  }

  /** The value of a string of decimal digits. */
  function DigitsValue(s: string): nat
    requires AllDigits(s)
    decreases |s|
  {
    if s == [] then 0
    else 10 * DigitsValue(s[..|s| - 1]) + (s[|s| - 1] as int - '0' as int)
  }

  function Pow10(n: nat): (p: nat)
    ensures p >= 1
  {
    if n == 0 then 1 else 10 * Pow10(n - 1)
  }

  /** The position of the first '.' in `s`, or |s| when there is none. */
  function DotIndex(s: string): (i: nat)
    ensures i <= |s|
    ensures forall j :: 0 <= j < i ==> s[j] != '.'
    ensures i < |s| ==> s[i] == '.'
  {
    if s == [] then 0
    else if s[0] == '.' then 0
    else 1 + DotIndex(s[1..])
  }

  /** `d` shifted `k` places right of the decimal point, d / 10^k. */
  function Shifted(d: nat, k: nat): real
    decreases k
  {
    if k == 0 then d as real else Shifted(d, k - 1) / 10.0
  }

  /** Shifting `k` places divides by 10^k. */
  lemma {:induction false} ShiftedValue(d: nat, k: nat)
    ensures Shifted(d, k) * Pow10(k) as real == d as real
    decreases k
  {
    if k > 0 {
      ShiftedValue(d, k - 1);
      assert Pow10(k) as real == 10.0 * Pow10(k - 1) as real;
    }
  }

  /** The number denoted by the digits before and after a decimal point. */
  function DecimalValue(whole: string, frac: string): real
    requires AllDigits(whole) && AllDigits(frac)
  {
    DigitsValue(whole) as real + Shifted(DigitsValue(frac), |frac|)
  }

  /** An unsigned decimal: digits, optionally a point and more digits,
      with at least one digit on either side of the point. */
  function ParseUnsigned(s: string): Option<real>
  {
    var i := DotIndex(s);
    var whole := s[..i];
    var frac := if i < |s| then s[i + 1..] else "";
    if AllDigits(whole) && AllDigits(frac) && |whole| + |frac| > 0 then
      Some(DecimalValue(whole, frac))
    else
      None
  }

  /** The number a cell's text denotes, or None when it is not a number. */
  function ParseNumber(s: string): Option<real>
  {
    if |s| > 0 && s[0] == '-' then
      match ParseUnsigned(s[1..])
      case Some(x) => Some(-x)
      case None => None
    else if |s| > 0 && s[0] == '+' then ParseUnsigned(s[1..])
    else ParseUnsigned(s)
  }

  /** Unsigned plain decimal notation: only digits and points, at most one
      point, and at least one digit. */
  predicate IsUnsignedText(u: string)
  {
    && (forall i :: 0 <= i < |u| ==> IsDigit(u[i]) || u[i] == '.')
    && (forall i, j :: 0 <= i < j < |u| && u[i] == '.' ==> u[j] != '.')
    && (exists i :: 0 <= i < |u| && IsDigit(u[i]))
  }

  /** Plain decimal notation: unsigned notation with an optional sign in front. */
  predicate IsNumberText(s: string)
  {
    if |s| > 0 && (s[0] == '-' || s[0] == '+') then IsUnsignedText(s[1..]) else IsUnsignedText(s)
  }

  /** The unsigned reader accepts exactly unsigned plain decimal notation. */
  lemma ParseUnsignedIff(u: string)
    ensures ParseUnsigned(u).Some? <==> IsUnsignedText(u)
  {
    var i := DotIndex(u);
    var whole := u[..i];
    var frac := if i < |u| then u[i + 1..] else "";
    if ParseUnsigned(u).Some? {
      forall k | 0 <= k < |u| ensures IsDigit(u[k]) || u[k] == '.' {
        if k < i {
          assert whole[k] == u[k];
        } else if k > i {
          assert frac[k - i - 1] == u[k];
        }
      }
      forall a, b | 0 <= a < b < |u| && u[a] == '.' ensures u[b] != '.' {
        assert a == i;
        assert frac[b - i - 1] == u[b];
      }
      if |whole| > 0 {
        assert whole[0] == u[0];
      } else {
        assert frac[0] == u[i + 1];
      }
    }
    if IsUnsignedText(u) {
      forall k | 0 <= k < |whole| ensures IsDigit(whole[k]) {
        assert whole[k] == u[k];
      }
      forall k | 0 <= k < |frac| ensures IsDigit(frac[k]) {
        assert frac[k] == u[i + 1 + k];
      }
      var k :| 0 <= k < |u| && IsDigit(u[k]);
      if k < i {
        assert |whole| > 0;
      } else {
        assert |frac| > 0;
      }
    }
  }

  /** `to_numeric` reads a cell's text exactly when it is plain decimal
      notation: "+5", ".5", "5." and "007" are numbers; "", "-", "." and
      "1.2.3" are not. */
  lemma ParseNumberIff(s: string)
    ensures ParseNumber(s).Some? <==> IsNumberText(s)
  {
    if |s| > 0 && (s[0] == '-' || s[0] == '+') {
      ParseUnsignedIff(s[1..]);
    } else {
      ParseUnsignedIff(s);
    }
  }

  /** The decimal digits of a natural number, most significant first. */
  function NatText(n: nat): (s: string)
    decreases n
  {
    if n < 10 then [('0' as int + n) as char]
    else NatText(n / 10) + [('0' as int + n % 10) as char]
  }

  /** How an integer is written: a minus sign for negatives, then its digits. */
  function IntText(n: int): string
  {
    if n < 0 then "-" + NatText(-n) else NatText(n)
  }

  lemma {:induction false} NatTextDigits(n: nat)
    ensures |NatText(n)| > 0 && AllDigits(NatText(n))
    ensures DigitsValue(NatText(n)) == n
    decreases n
  {
    if n >= 10 {
      NatTextDigits(n / 10);
      var s := NatText(n);
      assert s[..|s| - 1] == NatText(n / 10);
    }
  }

  /** The digits of a natural number parse back to that number. */
  lemma UnsignedRoundTrip(n: nat)
    ensures ParseUnsigned(NatText(n)) == Some(n as real)
  {
    var s := NatText(n);
    NatTextDigits(n);
    assert DotIndex(s) == |s|;
    assert s[..|s|] == s;
  }

  /** Every integer, written out, is read back as itself. */
  lemma NumberRoundTrip(n: int)
    ensures ParseNumber(IntText(n)) == Some(n as real)
  {
    var m: nat := if n < 0 then -n else n;
    var t := NatText(m);
    NatTextDigits(m);
    UnsignedRoundTrip(m);
    assert IsDigit(t[0]);
    var s := IntText(n);
    if n < 0 {
      assert s == "-" + t;
      assert s[1..] == t;
    } else {
      assert s == t;
    }
  }

  /** A character other than a digit or a point makes an unsigned decimal unreadable. */
  lemma UnsignedRejects(s: string, k: nat)
    requires k < |s| && !IsDigit(s[k]) && s[k] != '.'
    ensures ParseUnsigned(s) == None
  {
    var i := DotIndex(s);
    if k < i {
      assert s[..i][k] == s[k];
    } else {
      assert k > i;
      assert s[i + 1..][k - i - 1] == s[k];
    }
  }

  /** Text holding a letter (or any character that is not a digit, a point,
      or a leading sign) is not a number: coercion turns it into missing. */
  lemma NonNumericRejected(s: string, k: nat)
    requires k < |s| && !IsDigit(s[k]) && s[k] != '.'
    requires k == 0 ==> s[k] != '-' && s[k] != '+'
    ensures ParseNumber(s) == None
  {
    if |s| > 0 && (s[0] == '-' || s[0] == '+') {
      assert s[1..][k - 1] == s[k];
      UnsignedRejects(s[1..], k - 1);
    } else {
      UnsignedRejects(s, k);
    }
  }

  /** `d` written with exactly `k` digits, padded on the left with zeros:
      the digits after a decimal point. */
  function PaddedText(d: nat, k: nat): (s: string)
    requires d < Pow10(k)
    ensures |s| == k
    decreases k
  {
    if k == 0 then ""
    else PaddedText(d / 10, k - 1) + [('0' as int + d % 10) as char]
  }

  lemma {:induction false} PaddedDigits(d: nat, k: nat)
    requires d < Pow10(k)
    ensures AllDigits(PaddedText(d, k)) && DigitsValue(PaddedText(d, k)) == d
    decreases k
  {
    if k > 0 {
      PaddedDigits(d / 10, k - 1);
      var s := PaddedText(d, k);
      assert s[..|s| - 1] == PaddedText(d / 10, k - 1);
    }
  }

  /** In digits followed by a point, the first point is the one after the digits. */
  lemma DotAfterDigits(whole: string, frac: string)
    requires AllDigits(whole)
    ensures var s := whole + "." + frac;
      && DotIndex(s) == |whole| && s[..|whole|] == whole && s[|whole| + 1..] == frac
  {
    var s := whole + "." + frac;
    assert s[|whole|] == '.';
    assert forall j :: 0 <= j < |whole| ==> s[j] == whole[j];
    assert s[..|whole|] == whole;
    assert s[|whole| + 1..] == frac;
  }

  /** Digits, a point and more digits parse to the whole part plus the
      fraction the digits after the point denote. */
  lemma UnsignedDecimal(whole: string, frac: string)
    requires |whole| > 0 && AllDigits(whole) && AllDigits(frac)
    ensures ParseUnsigned(whole + "." + frac) == Some(DecimalValue(whole, frac))
  {
    DotAfterDigits(whole, frac);
  }

  /** The number `n` plus `d` shifted `k` places right of the point. */
  function DecimalNumber(n: nat, d: nat, k: nat): real
  {
    n as real + Shifted(d, k)
  }

  /** The value of a whole part written out and `k` padded fraction digits. */
  lemma PaddedDecimalValue(n: nat, d: nat, k: nat)
    requires d < Pow10(k)
    ensures |NatText(n)| > 0 && AllDigits(NatText(n)) && AllDigits(PaddedText(d, k))
    ensures DecimalValue(NatText(n), PaddedText(d, k)) == DecimalNumber(n, d, k)
  {
    NatTextDigits(n);
    PaddedDigits(d, k);
  }

  /** `u` starts with a digit and reads, without a sign, as `x`. */
  predicate UnsignedText(u: string, x: real)
  {
    |u| > 0 && IsDigit(u[0]) && ParseUnsigned(u) == Some(x)
  }

  /** Text starting with a digit that reads as the unsigned decimal `x` is
      read as `x`, and with a minus sign in front as `-x`. */
  lemma SignedParse(u: string, x: real)
    requires UnsignedText(u, x)
    ensures ParseNumber(u) == Some(x)
    ensures ParseNumber("-" + u) == Some(-x)
  {
    assert ("-" + u)[1..] == u;
  }

  /** `n` and `k` digits of fraction `d`, written as decimal text. */
  function DecimalString(n: nat, d: nat, k: nat): string
    requires d < Pow10(k)
  {
    NatText(n) + "." + PaddedText(d, k)
  }

  /** The written decimal starts with a digit and reads, unsigned, as its number. */
  lemma DecimalStringUnsigned(n: nat, d: nat, k: nat)
    requires d < Pow10(k)
    ensures UnsignedText(DecimalString(n, d, k), DecimalNumber(n, d, k))
  {
    var w, f := NatText(n), PaddedText(d, k);
    PaddedDecimalValue(n, d, k);
    UnsignedDecimal(w, f);
    assert DecimalString(n, d, k)[0] == w[0];
  }

  /** A decimal written out with `k` digits after the point is read back as
      that number. */
  lemma DecimalRoundTrip(n: nat, d: nat, k: nat)
    requires d < Pow10(k)
    ensures ParseNumber(DecimalString(n, d, k)) == Some(DecimalNumber(n, d, k))
  {
    DecimalStringUnsigned(n, d, k);
    SignedParse(DecimalString(n, d, k), DecimalNumber(n, d, k));
  }

  /** The same decimal with a minus sign in front is read back as its negation. */
  lemma NegativeDecimalRoundTrip(n: nat, d: nat, k: nat)
    requires d < Pow10(k)
    ensures ParseNumber("-" + DecimalString(n, d, k)) == Some(-DecimalNumber(n, d, k))
  {
    DecimalStringUnsigned(n, d, k);
    SignedParse(DecimalString(n, d, k), DecimalNumber(n, d, k));
  }
}
