/** `extractPrice` of the marketplace scraper: the leftmost match of the
    pattern `\$\s*([\d,]+\.?\d*)` in a text, commas removed from the captured
    group, read with `parseFloat`; 0 when the pattern does not match. */
module Price {
  import opened Js
  import opened Text
  import opened JsNumbers

  /** The class `[\d,]` of the pattern. */
  predicate IsAmountChar(c: char) {
    IsDigit(c) || c == ','
  }

  /** Where the capture group lies in a match: it spans `start..end`; the
      run `[\d,]+` ends at `amountEnd`, followed by the optional `\.?\d*`. */
  datatype Span = Span(start: nat, amountEnd: nat, end: nat)

  /** The match of the pattern starting at index `p`, if there is one. The
      pattern has no alternatives whose backtracking could change the
      outcome: `\s*` must stop at the first non-space for `[\d,]+` to start,
      and every later part is greedy and may be empty. */
  function MatchAt(t: string, p: nat): (m: Option<Span>)
    ensures m.Some? ==> p < m.value.start < m.value.amountEnd <= m.value.end <= |t|
  {
    if p < |t| && t[p] == '$' then
      var q := RunEnd(t, p + 1, IsSpace);
      if q < |t| && IsAmountChar(t[q]) then
        var a := RunEnd(t, q, IsAmountChar);
        var e := if a < |t| && t[a] == '.' then RunEnd(t, a + 1, IsDigit) else a;
        Some(Span(q, a, e))
      else None
    else None
  }

  /** What a match consists of: a `$`, spaces, a maximal `[\d,]+` run, and
      when a point follows the run, the point and a maximal run of digits.
      There is no match exactly when the text has no `$` at `p` or its first
      non-space character after it is not an amount character. */
  lemma {:induction false} MatchShape(t: string, p: nat)
    ensures var m := MatchAt(t, p);
      m.Some? ==>
      var Span(q, a, e) := m.value;
      && p < q < a <= e <= |t|
      && t[p] == '$'
      && (forall j :: p < j < q ==> IsSpace(t[j]))
      && (forall j :: q <= j < a ==> IsAmountChar(t[j]))
      && (a == |t| || !IsAmountChar(t[a]))
      && (e > a <==> a < |t| && t[a] == '.')
      && (forall j :: a < j < e ==> IsDigit(t[j]))
      && (e > a ==> e == |t| || !IsDigit(t[e]))
    ensures MatchAt(t, p).None? ==>
      p >= |t| || t[p] != '$' ||
      forall q :: p < q < |t| && IsAmountChar(t[q]) ==> exists j :: p < j < q && !IsSpace(t[j])
  {
    if p < |t| && t[p] == '$' {
      var q := RunEnd(t, p + 1, IsSpace);
      if !(q < |t| && IsAmountChar(t[q])) {
        assert forall q' :: p < q' < |t| && IsAmountChar(t[q']) ==> q < q' && !IsSpace(t[q]);
      }
    }
  }

  /** The leftmost index at or after `from` where the pattern matches. */
  function FirstMatch(t: string, from: nat): (r: Option<nat>)
    decreases |t| - from
    ensures r.Some? ==>
      && from <= r.value < |t|
      && MatchAt(t, r.value).Some?
      && forall p :: from <= p < r.value ==> MatchAt(t, p).None?
    ensures r.None? ==> forall p :: from <= p < |t| ==> MatchAt(t, p).None?
  {
    if from >= |t| then None
    else if MatchAt(t, from).Some? then Some(from)
    else FirstMatch(t, from + 1)
  }

  /** `s.replace(/,/g, '')`. */
  function RemoveCommas(s: string): (r: string)
    ensures forall i :: 0 <= i < |r| ==> r[i] != ','
    ensures forall c :: c in r ==> c in s
  {
    if |s| == 0 then []
    else (if s[0] == ',' then [] else [s[0]]) + RemoveCommas(s[1..])
  }

  /** Removing the commas keeps every other character, as often as it occurs. */
  lemma {:induction false} RemoveCommasKeepsOthers(s: string)
    ensures multiset(RemoveCommas(s)) == multiset(s)[',' := 0]
  {
    if |s| > 0 {
      assert s == [s[0]] + s[1..];
      RemoveCommasKeepsOthers(s[1..]);
    }
  }

  lemma {:induction false} RemoveCommasAppend(x: string, y: string)
    ensures RemoveCommas(x + y) == RemoveCommas(x) + RemoveCommas(y)
  {
    if |x| > 0 {
      assert (x + y)[1..] == x[1..] + y;
      RemoveCommasAppend(x[1..], y);
    } else {
      assert x + y == y;
    }
  }

  lemma {:induction false} RemoveCommasNoComma(s: string)
    requires forall i :: 0 <= i < |s| ==> s[i] != ','
    ensures RemoveCommas(s) == s
  {
    if |s| > 0 {
      RemoveCommasNoComma(s[1..]);
    }
  }

  /** The captured group with its commas removed is decimal text. */
  lemma {:induction false} GroupIsDecimal(t: string, m: Span)
    requires m.start <= m.amountEnd <= m.end <= |t|
    requires forall j :: m.start <= j < m.amountEnd ==> IsAmountChar(t[j])
    requires m.end > m.amountEnd ==> t[m.amountEnd] == '.'
    requires forall j :: m.amountEnd < j < m.end ==> IsDigit(t[j])
    ensures IsDecimalText(RemoveCommas(t[m.start..m.end]))
  {
    var g := t[m.start..m.end];
    var r := RemoveCommas(g);
    forall i | 0 <= i < |r|
      ensures IsDigit(r[i]) || r[i] == '.'
    {
      assert r[i] in g;
      var k :| 0 <= k < |g| && g[k] == r[i];
      assert g[k] == t[m.start + k];
    }
  }

  /** `extractPrice(text)`. */
  function ExtractPrice(text: string): (r: Num)
    ensures r.Real? ==> r.value >= 0.0
    ensures (forall p :: 0 <= p < |text| ==> MatchAt(text, p).None?) ==> r == Real(0.0)
  {
    match FirstMatch(text, 0)
    case None => Real(0.0)
    case Some(p) =>
      var m := MatchAt(text, p).value;
      MatchShape(text, p);
      GroupIsDecimal(text, m);
      ParseFloat(RemoveCommas(text[m.start..m.end]))
  }

  /** The digits a group contributes: those of its `[\d,]+` run without the
      commas (the whole part), and those after its point (the fraction). */
  function WholeDigits(t: string, m: Span): string
    requires m.start <= m.amountEnd <= |t|
  {
    RemoveCommas(t[m.start..m.amountEnd])
  }

  function FractionDigits(t: string, m: Span): string
    requires m.amountEnd <= m.end <= |t|
  {
    if m.end > m.amountEnd then t[m.amountEnd + 1..m.end] else []
  }

  /** The price of a matching text: NaN exactly when the leftmost group holds
      no digit (a group of commas only, possibly with a bare point), and
      otherwise the whole part read in base 10 plus the decimal fraction, with
      every comma ignored. */
  lemma {:induction false} ExtractPriceValue(text: string, p: nat, m: Span)
    requires FirstMatch(text, 0) == Some(p) && MatchAt(text, p) == Some(m)
    ensures AllDecimal(WholeDigits(text, m)) && AllDigitsIn(WholeDigits(text, m), 10)
    ensures AllDecimal(FractionDigits(text, m))
    ensures ExtractPrice(text) ==
      if WholeDigits(text, m) == [] && FractionDigits(text, m) == [] then NaN
      else Real(RadixValue(WholeDigits(text, m), 10) as real + FractionValue(FractionDigits(text, m)))
  {
    var whole := WholeDigits(text, m);
    var frac := FractionDigits(text, m);
    GroupParse(text, p, m);
    ParseFloatParts(whole, frac, m.end > m.amountEnd);
    DecimalIsRadix10(whole);
  }

  /** The price of a matching text is `parseFloat` of its whole digits, then
      the point and fraction digits when the group has a point. */
  lemma {:induction false} GroupParse(text: string, p: nat, m: Span)
    requires FirstMatch(text, 0) == Some(p) && MatchAt(text, p) == Some(m)
    ensures AllDecimal(WholeDigits(text, m)) && AllDecimal(FractionDigits(text, m))
    ensures m.end <= m.amountEnd ==> FractionDigits(text, m) == []
    ensures ExtractPrice(text) == ParseFloat(WholeDigits(text, m) +
      (if m.end > m.amountEnd then ['.'] + FractionDigits(text, m) else []))
  {
    MatchShape(text, p);
    GroupWithoutCommas(text, m);
  }

  /** Removing the commas of a group leaves the digits of its run, then the
      point and fraction digits when the group has a point. */
  lemma {:induction false} GroupWithoutCommas(text: string, m: Span)
    requires m.start <= m.amountEnd <= m.end <= |text|
    requires forall j :: m.start <= j < m.amountEnd ==> IsAmountChar(text[j])
    requires m.end > m.amountEnd ==> text[m.amountEnd] == '.'
    requires forall j :: m.amountEnd < j < m.end ==> IsDigit(text[j])
    ensures AllDecimal(WholeDigits(text, m)) && AllDecimal(FractionDigits(text, m))
    ensures RemoveCommas(text[m.start..m.end]) ==
      WholeDigits(text, m) + (if m.end > m.amountEnd then ['.'] + FractionDigits(text, m) else [])
  {
    var Span(q, a, e) := m;
    var amount := text[q..a];
    var rest := text[a..e];
    assert text[q..e] == amount + rest;
    RemoveCommasAppend(amount, rest);
    PointPartHasNoComma(text, m);
    RemoveCommasNoComma(rest);
    AmountWithoutCommas(amount);
    if e > a {
      assert rest == ['.'] + FractionDigits(text, m);
    }
  }

  /** The part of a group from its point on holds no comma. */
  lemma {:induction false} PointPartHasNoComma(text: string, m: Span)
    requires m.amountEnd <= m.end <= |text|
    requires m.end > m.amountEnd ==> text[m.amountEnd] == '.'
    requires forall j :: m.amountEnd < j < m.end ==> IsDigit(text[j])
    ensures forall j :: 0 <= j < |text[m.amountEnd..m.end]| ==> text[m.amountEnd..m.end][j] != ','
  {
    var rest := text[m.amountEnd..m.end];
    forall j | 0 <= j < |rest|
      ensures rest[j] != ','
    {
      assert rest[j] == text[m.amountEnd + j];
    }
  }

  /** A run of digits and commas leaves only digits once its commas go. */
  lemma {:induction false} AmountWithoutCommas(amount: string)
    requires forall j :: 0 <= j < |amount| ==> IsAmountChar(amount[j])
    ensures AllDecimal(RemoveCommas(amount))
  {
    var whole := RemoveCommas(amount);
    forall i | 0 <= i < |whole|
      ensures IsDigit(whole[i])
    {
      assert whole[i] in amount;
    }
  }

  predicate IsAmountText(s: string) {
    |s| > 0 && forall i :: 0 <= i < |s| ==> IsAmountChar(s[i])
  }

  /** A text that opens with `$`, an amount with thousands separators, a point
      and fraction digits is priced by that amount, whatever follows as long
      as it cannot continue the fraction (a later `$` included). */
  lemma {:induction false} PriceOfPointedAmount(amount: string, fraction: string, tail: string)
    requires IsAmountText(amount) && AllDecimal(fraction)
    requires tail == [] || !IsDigit(tail[0])
    ensures var whole := RemoveCommas(amount);
      && AllDecimal(whole) && AllDigitsIn(whole, 10)
      && ExtractPrice("$" + amount + "." + fraction + tail) ==
           if whole == [] && fraction == [] then NaN
           else Real(RadixValue(whole, 10) as real + FractionValue(fraction))
  {
    var t := "$" + amount + "." + fraction + tail;
    var m := PointedAmountMatch(amount, fraction, tail);
    ExtractPriceValue(t, 0, m);
  }

  lemma {:induction false} PointedAmountMatch(amount: string, fraction: string, tail: string) returns (m: Span)
    requires IsAmountText(amount) && AllDecimal(fraction)
    requires tail == [] || !IsDigit(tail[0])
    ensures var t := "$" + amount + "." + fraction + tail;
      && FirstMatch(t, 0) == Some(0) && MatchAt(t, 0) == Some(m)
      && WholeDigits(t, m) == RemoveCommas(amount)
      && FractionDigits(t, m) == fraction
  {
    var t := "$" + amount + "." + fraction + tail;
    var a := 1 + |amount|;
    var e := a + 1 + |fraction|;
    assert forall k :: 1 <= k < a ==> t[k] == amount[k - 1];
    assert forall k :: a + 1 <= k < e ==> t[k] == fraction[k - a - 1];
    assert t[a] == '.';
    assert e < |t| ==> t[e] == tail[0];
    assert !IsSpace(t[1]);
    assert RunEnd(t, 1, IsSpace) == 1;
    assert RunEnd(t, 1, IsAmountChar) == a;
    assert RunEnd(t, a + 1, IsDigit) == e;
    m := Span(1, a, e);
    assert MatchAt(t, 0) == Some(m);
    assert t[1..a] == amount;
    assert t[a + 1..e] == fraction;
  }

  /** A text that opens with `$` and an amount with no point is priced by the
      amount's digits, whatever follows as long as it cannot continue it. */
  lemma {:induction false} PriceOfAmount(amount: string, tail: string)
    requires IsAmountText(amount)
    requires tail == [] || (!IsAmountChar(tail[0]) && tail[0] != '.')
    ensures var whole := RemoveCommas(amount);
      && AllDecimal(whole) && AllDigitsIn(whole, 10)
      && ExtractPrice("$" + amount + tail) ==
           if whole == [] then NaN else Real(RadixValue(whole, 10) as real)
  {
    var t := "$" + amount + tail;
    var m := AmountMatch(amount, tail);
    ExtractPriceValue(t, 0, m);
    NoFractionAddsNothing();
  }

  lemma {:induction false} NoFractionAddsNothing()
    ensures AllDecimal([]) && FractionValue([]) == 0.0
  {
    assert RadixValue([], 10) == 0;
  }

  lemma {:induction false} AmountMatch(amount: string, tail: string) returns (m: Span)
    requires IsAmountText(amount)
    requires tail == [] || (!IsAmountChar(tail[0]) && tail[0] != '.')
    ensures var t := "$" + amount + tail;
      && FirstMatch(t, 0) == Some(0) && MatchAt(t, 0) == Some(m)
      && WholeDigits(t, m) == RemoveCommas(amount)
      && FractionDigits(t, m) == []
  {
    var t := "$" + amount + tail;
    var a := 1 + |amount|;
    assert forall k :: 1 <= k < a ==> t[k] == amount[k - 1];
    assert a < |t| ==> t[a] == tail[0];
    assert !IsSpace(t[1]);
    assert RunEnd(t, 1, IsSpace) == 1;
    assert RunEnd(t, 1, IsAmountChar) == a;
    m := Span(1, a, a);
    assert MatchAt(t, 0) == Some(m);
    assert t[1..a] == amount;
  }
}
