/** The two string-to-number conversions of JavaScript that the scraper uses:
    `parseInt` with no radix, and `parseFloat` on the digit-and-point strings
    the price pattern produces. */
module JsNumbers {
  import opened Js
  import opened Text

  /** `parseInt(s)` with the radix left undefined: leading white space is
      skipped, one sign is read, a `0x`/`0X` prefix selects base 16 (base 10
      otherwise), and the longest run of digits of that base is the value;
      NaN when that run is empty. */
  function ParseInt(s: string): Num
  {
    var t := s[RunEnd(s, 0, IsSpace)..];
    var negative := |t| > 0 && t[0] == '-';
    var u := if |t| > 0 && (t[0] == '-' || t[0] == '+') then t[1..] else t;
    var hex := |u| >= 2 && u[0] == '0' && (u[1] == 'x' || u[1] == 'X');
    var radix: nat := if hex then 16 else 10;
    var v := if hex then u[2..] else u;
    var e := RunEnd(v, 0, c => IsDigitIn(c, radix));
    if e == 0 then NaN
    else
      var magnitude := RadixValue(v[..e], radix);
      Real(if negative then -(magnitude as real) else magnitude as real)
  }

  /** Decimal text starting with a natural number is read back as that number,
      whatever follows as long as it cannot continue the digits. */
  lemma {:induction false} ParseIntOfShowNat(n: nat, tail: string)
    requires tail == [] || (!IsDigit(tail[0]) && tail[0] != 'x' && tail[0] != 'X')
    ensures ParseInt(ShowNat(n) + tail) == Real(n as real)
  {
    var s := ShowNat(n) + tail;
    var d := ShowNat(n);
    ShowNatRoundTrip(n);
    assert !IsSpace(s[0]);
    assert RunEnd(s, 0, IsSpace) == 0;
    assert s[0..] == s;
    assert !(|s| >= 2 && s[0] == '0' && (s[1] == 'x' || s[1] == 'X')) by {
      if |s| >= 2 && s[0] == '0' {
        assert |d| == 1 && s[1] == tail[0];
      }
    }
    var e := RunEnd(s, 0, c => IsDigitIn(c, 10));
    assert forall k :: 0 <= k < |d| ==> IsDigitIn(s[k], 10);
    assert |s| > |d| ==> s[|d|] == tail[0];
    assert e == |d|;
    assert s[..e] == d;
  }

  /** Whether every character is a decimal digit or a point: the strings the
      price pattern hands to `parseFloat` once commas are removed. */
  predicate IsDecimalText(s: string) {
    forall i :: 0 <= i < |s| ==> IsDigit(s[i]) || s[i] == '.'
  }

  /** The value of a decimal fraction written with the digits `ds` after the point. */
  function FractionValue(ds: string): (r: real)
    requires AllDecimal(ds)
    ensures 0.0 <= r
  {
    DecimalIsRadix10(ds);
    RadixValue(ds, 10) as real / Pow10(|ds|) as real
  }

  /** `parseFloat(s)` on decimal text: the longest prefix of the form
      digits, optionally followed by a point and digits, with at least one
      digit in it; NaN when there is none. */
  function ParseFloat(s: string): (n: Num)
    requires IsDecimalText(s)
    ensures n.Real? ==> n.value >= 0.0
    ensures n.NaN? <==> (s == [] || s[0] == '.') && (|s| < 2 || !IsDigit(s[1]))
  {
    var i := RunEnd(s, 0, IsDigit);
    var f := if i < |s| && s[i] == '.' then RunEnd(s, i + 1, IsDigit) else i;
    var whole := s[..i];
    var fraction := if f > i then s[i + 1..f] else [];
    assert AllDecimal(whole) && AllDecimal(fraction);
    DecimalIsRadix10(whole);
    if i == 0 && |fraction| == 0 then NaN
    else Real(RadixValue(whole, 10) as real + FractionValue(fraction))
  }

  /** `parseFloat` of digits, optionally followed by a point and more digits:
      NaN exactly when there is no digit at all, otherwise the whole part plus
      the decimal fraction. */
  lemma {:induction false} ParseFloatParts(whole: string, fraction: string, hasPoint: bool)
    requires AllDecimal(whole) && AllDecimal(fraction)
    requires !hasPoint ==> fraction == []
    ensures var s := whole + (if hasPoint then ['.'] + fraction else []);
      && IsDecimalText(s)
      && AllDigitsIn(whole, 10)
      && (ParseFloat(s).NaN? <==> whole == [] && fraction == [])
      && (ParseFloat(s).Real? ==>
            ParseFloat(s).value == RadixValue(whole, 10) as real + FractionValue(fraction))
  {
    var s := whole + (if hasPoint then ['.'] + fraction else []);
    if hasPoint {
      assert s == whole + ['.'] + fraction;
      ParseFloatWithPoint(whole, fraction);
    } else {
      assert s == whole;
      ParseFloatDigits(whole);
      assert FractionValue(fraction) == 0.0 by {
        assert RadixValue(fraction, 10) == 0;
      }
    }
  }

  lemma {:induction false} ParseFloatDigits(whole: string)
    requires AllDecimal(whole)
    ensures IsDecimalText(whole) && AllDigitsIn(whole, 10)
    ensures ParseFloat(whole).NaN? <==> whole == []
    ensures ParseFloat(whole).Real? ==> ParseFloat(whole).value == RadixValue(whole, 10) as real
  {
    DecimalIsRadix10(whole);
    var i := RunEnd(whole, 0, IsDigit);
    assert i == |whole|;
    assert whole[..i] == whole;
    assert FractionValue([]) == 0.0;
  }

  lemma {:induction false} ParseFloatWithPoint(whole: string, fraction: string)
    requires AllDecimal(whole) && AllDecimal(fraction)
    ensures var s := whole + ['.'] + fraction;
      && IsDecimalText(s)
      && AllDigitsIn(whole, 10)
      && (ParseFloat(s).NaN? <==> whole == [] && fraction == [])
      && (ParseFloat(s).Real? ==>
            ParseFloat(s).value == RadixValue(whole, 10) as real + FractionValue(fraction))
  {
    DecimalIsRadix10(whole);
    var s := whole + ['.'] + fraction;
    assert IsDecimalText(s) by {
      forall k | 0 <= k < |s|
        ensures IsDigit(s[k]) || s[k] == '.'
      {
        if k < |whole| {
          assert s[k] == whole[k];
        } else if k > |whole| {
          assert s[k] == fraction[k - |whole| - 1];
        }
      }
    }
    var i := RunEnd(s, 0, IsDigit);
    assert forall k :: 0 <= k < |whole| ==> s[k] == whole[k];
    assert s[|whole|] == '.';
    assert i == |whole|;
    var f := RunEnd(s, i + 1, IsDigit);
    assert forall k :: i + 1 <= k < |s| ==> s[k] == fraction[k - i - 1];
    assert f == |s|;
    assert s[..i] == whole;
    assert s[i + 1..f] == fraction;
  }
}
