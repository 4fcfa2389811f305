/** Character classes, digit strings and the string searches behind
    `String.prototype.split`, on strings as sequences of characters. */
module Text {
  import opened Js

  /** The regular-expression class `\d`: an ASCII decimal digit. */
  predicate IsDigit(c: char) {
    '0' <= c <= '9'
  }

  /** Value of `c` as a digit of bases up to 36, or -1 when it is none. */
  function DigitValue(c: char): int {
    if '0' <= c <= '9' then c as int - '0' as int
    else if 'a' <= c <= 'z' then c as int - 'a' as int + 10
    else if 'A' <= c <= 'Z' then c as int - 'A' as int + 10
    else -1
  }

  predicate IsDigitIn(c: char, radix: nat) {
    0 <= DigitValue(c) < radix
  }

  predicate AllDigitsIn(ds: string, radix: nat) {
    forall i :: 0 <= i < |ds| ==> IsDigitIn(ds[i], radix)
  }

  predicate AllDecimal(ds: string) {
    forall i :: 0 <= i < |ds| ==> IsDigit(ds[i])
  }

  lemma {:induction false} DecimalIsRadix10(ds: string)
    requires AllDecimal(ds)
    ensures AllDigitsIn(ds, 10)
  {
  }

  /** The number a string of base-`radix` digits denotes, most significant first. */
  function RadixValue(ds: string, radix: nat): nat
    requires AllDigitsIn(ds, radix)
    decreases |ds|
  {
    if |ds| == 0 then 0
    else RadixValue(ds[..|ds| - 1], radix) * radix + DigitValue(ds[|ds| - 1])
  }

  function Pow10(n: nat): (r: nat)
    ensures r >= 1
  {
    if n == 0 then 1 else 10 * Pow10(n - 1)
  }

  function DigitChar(d: nat): (c: char)
    requires d < 10
    ensures IsDigit(c) && DigitValue(c) == d
  {
    ('0' as int + d) as char
  }

  /** The decimal rendering of a natural number, without leading zeros. */
  function ShowNat(n: nat): (s: string)
    ensures |s| > 0 && AllDecimal(s)
    ensures n >= 10 ==> s[0] != '0'
  {
    if n < 10 then [DigitChar(n)] else ShowNat(n / 10) + [DigitChar(n % 10)]
  }

  /** Reading back the decimal rendering of `n` gives `n`. */
  lemma {:induction false} ShowNatRoundTrip(n: nat)
    ensures AllDigitsIn(ShowNat(n), 10)
    ensures RadixValue(ShowNat(n), 10) == n
  {
    DecimalIsRadix10(ShowNat(n));
    if n >= 10 {
      var s := ShowNat(n);
      assert s[..|s| - 1] == ShowNat(n / 10);
      ShowNatRoundTrip(n / 10);
    }
  }

  /** End of the longest run of characters satisfying `p` that starts at `i`. */
  function RunEnd(t: string, i: nat, p: char -> bool): (j: nat)
    requires i <= |t|
    decreases |t| - i
    ensures i <= j <= |t|
    ensures forall k :: i <= k < j ==> p(t[k])
    ensures j == |t| || !p(t[j])
  {
    if i < |t| && p(t[i]) then RunEnd(t, i + 1, p) else i
  }

  /** Whether `pat` occurs in `s` starting at index `i`. */
  predicate OccursAt(s: string, pat: string, i: nat) {
    i + |pat| <= |s| && s[i..i + |pat|] == pat
  }

  /** `s.indexOf(pat, from)`: the first occurrence of `pat` at or after `from`, or -1. */
  function IndexOf(s: string, pat: string, from: nat): (r: int)
    decreases |s| - from
    ensures r == -1 || (from <= r && OccursAt(s, pat, r))
    ensures r == -1 ==> forall i :: from <= i && OccursAt(s, pat, i) ==> false
    ensures r >= 0 ==> forall i :: from <= i < r ==> !OccursAt(s, pat, i)
  {
    if from + |pat| > |s| then -1
    else if OccursAt(s, pat, from) then from
    else IndexOf(s, pat, from + 1)
  }

  /** `s.split(sep)[0]`: the text before the first occurrence of `sep`, or all of `s`. */
  function SplitHead(s: string, sep: string): (h: string)
    requires |sep| > 0
    ensures h <= s
    ensures |h| < |s| ==> OccursAt(s, sep, |h|)
    ensures forall i :: 0 <= i < |h| ==> !OccursAt(s, sep, i)
  {
    var k := IndexOf(s, sep, 0);
    if k == -1 then s else s[..k]
  }

  /** `s.split(sep)[1]`: undefined when `sep` does not occur, otherwise the
      text between its first occurrence and the next one (or the end). */
  function SplitSecond(s: string, sep: string): (r: Option<string>)
    requires |sep| > 0
    ensures r.None? <==> forall i :: OccursAt(s, sep, i) ==> false
    // from the first occurrence on, the text up to the next one
    ensures forall k: nat :: OccursAt(s, sep, k) && (forall i :: 0 <= i < k ==> !OccursAt(s, sep, i)) ==>
              r == Some(SplitHead(s[k + |sep|..], sep))
  {
    var k := IndexOf(s, sep, 0);
    FirstOccurrenceIsUnique(s, sep, k);
    if k == -1 then None else Some(SplitHead(s[k + |sep|..], sep))
  }

  /** Only one occurrence has no occurrence before it. */
  lemma {:induction false} FirstOccurrenceIsUnique(s: string, sep: string, k: int)
    requires k == IndexOf(s, sep, 0)
    ensures forall j: nat :: OccursAt(s, sep, j) && (forall i :: 0 <= i < j ==> !OccursAt(s, sep, i)) ==> j == k
  {
    forall j: nat | OccursAt(s, sep, j) && (forall i :: 0 <= i < j ==> !OccursAt(s, sep, i))
      ensures j == k
    {
      assert k != -1;
    }
  }

  /** A one-character separator occurs exactly where that character is. */
  lemma {:induction false} OccursAtChar(s: string, c: char, i: nat)
    ensures OccursAt(s, [c], i) <==> i < |s| && s[i] == c
  {
    if i < |s| && s[i] == c {
      assert s[i..i + 1] == [c];
    }
  }
}
