/** `extractPrice` on the kinds of text a listing shows. Each lemma takes the
    text as a parameter fixed by its `requires`; this is the same statement as
    an `ensures` about the literal. */
module PriceExamples {
  import opened Js
  import opened Text
  import opened JsNumbers
  import opened Price

  /** A `$` followed only by a comma matches, but the group is empty once
      commas are removed, and `parseFloat("")` is NaN. */
  lemma {:induction false} LoneCommaIsNaN(t: string)
    requires t == "$,"
    ensures ExtractPrice(t) == NaN
  {
    PriceOfAmount(",", "");
    assert "$" + "," + "" == t;
    assert RemoveCommas(",") == "";
  }

  /** A price below one dollar. */
  lemma {:induction false} Cents(amount: string, fraction: string)
    requires amount == "0" && fraction == "99"
    ensures ExtractPrice("$" + amount + "." + fraction) == Real(0.99)
  {
    PriceOfPointedAmount(amount, fraction, "");
    assert "$" + amount + "." + fraction + "" == "$" + amount + "." + fraction;
    assert RemoveCommas(amount) == amount;
    assert RadixValue(amount, 10) == 0;
    assert FractionValue(fraction) == 0.99 by {
      assert RadixValue(fraction, 10) == 99;
      assert Pow10(2) == 100;
    }
  }

  /** Text without a `$` is worth 0. */
  lemma {:induction false} NoDollarIsZero(t: string)
    requires t == "Free shipping"
    ensures ExtractPrice(t) == Real(0.0)
  {
    assert forall p :: 0 <= p < |t| ==> t[p] != '$';
  }

  /** The pattern takes one point and the digits after it; a second point
      ends the number. */
  lemma {:induction false} SecondPointEndsNumber(t: string)
    requires t == "$1.2.3"
    ensures ExtractPrice(t) == Real(1.2)
  {
    var amount, fraction, tail := "1", "2", ".3";
    assert RemoveCommas(amount) == "1";
    assert RadixValue("1", 10) == 1;
    assert FractionValue(fraction) == 0.2 by {
      assert RadixValue(fraction, 10) == 2;
      assert Pow10(1) == 10;
    }
    assert "$" + amount + "." + fraction + tail == t;
    PriceOfPointedAmount(amount, fraction, tail);
  }

  lemma {:induction false} ThousandsDigits()
    ensures RemoveCommas("1,234") == "1234"
    ensures AllDigitsIn("1234", 10) && RadixValue("1234", 10) == 1234
  {
    assert "1234"[..3] == "123" && "123"[..2] == "12" && "12"[..1] == "1";
    assert RadixValue("1", 10) == 1;
    assert RadixValue("12", 10) == 12;
    assert RadixValue("123", 10) == 123;
  }

  lemma {:induction false} ThousandsParts(tail: string)
    requires tail == " shipping"
    ensures ExtractPrice("$1,234.56" + tail) == Real(RadixValue("1234", 10) as real + FractionValue("56"))
  {
    ThousandsDigits();
    assert "$" + "1,234" + "." + "56" + tail == "$1,234.56" + tail;
    assert IsAmountText("1,234") && AllDecimal("56") && !IsDigit(tail[0]);
    PriceOfPointedAmount("1,234", "56", tail);
  }

  lemma {:induction false} FiftySixCents()
    ensures FractionValue("56") == 0.56
  {
    assert RadixValue("56", 10) == 56;
    assert Pow10(2) == 100;
  }

  /** Thousands separators are dropped and trailing words ignored. */
  lemma {:induction false} ThousandsSeparator(tail: string)
    requires tail == " shipping"
    ensures ExtractPrice("$1,234.56" + tail) == Real(1234.56)
  {
    ThousandsDigits();
    FiftySixCents();
    ThousandsParts(tail);
  }

  lemma {:induction false} FiveParts(tail: string)
    requires tail == " or $7"
    ensures ExtractPrice("$5" + tail) == Real(RadixValue(RemoveCommas("5"), 10) as real)
  {
    assert IsAmountText("5") && !IsAmountChar(tail[0]) && tail[0] != '.';
    PriceOfAmount("5", tail);
    assert "$" + "5" + tail == "$5" + tail;
    assert RemoveCommas("5") != [];
  }

  /** Only the leftmost `$` counts. */
  lemma {:induction false} LeftmostDollarWins(tail: string)
    requires tail == " or $7"
    ensures ExtractPrice("$5" + tail) == Real(5.0)
  {
    FiveParts(tail);
    assert RemoveCommas("5") == "5";
    assert RadixValue("5", 10) == 5;
  }
}
