/** The numeric reading of a rating, `parseFloat(x) || 0`, kept at the
    resolution ratings are published in: tenths. */
module Rating {
  import opened Base
  import opened Json

  predicate IsDigit(c: char) { '0' <= c <= '9' }

  function DigitValue(c: char): nat
    requires IsDigit(c)
  {
    c as int - '0' as int
  }

  /** Length of the run of decimal digits at the front of `s`. */
  function DigitRun(s: string): (n: nat)
    ensures n <= |s|
    ensures forall i :: 0 <= i < n ==> IsDigit(s[i])
    ensures n < |s| ==> !IsDigit(s[n])
  {
    if |s| > 0 && IsDigit(s[0]) then 1 + DigitRun(s[1..]) else 0
  }

  /** The value of a string of decimal digits. */
  function DigitsValue(s: string): nat
    requires forall i :: 0 <= i < |s| ==> IsDigit(s[i])
  {
    if |s| == 0 then 0 else 10 * DigitsValue(s[..|s| - 1]) + DigitValue(s[|s| - 1])
  }

  /** `s` with leading white space removed. */
  function TrimStart(s: string): string {
    if |s| > 0 && IsJsSpace(s[0]) then TrimStart(s[1..]) else s
  }

  /** What follows the integer digits starts a fraction with at least one digit. */
  predicate HasTenth(rest: string) {
    |rest| >= 2 && rest[0] == '.' && IsDigit(rest[1])
  }

  /** The first fractional digit, or 0 when there is no fraction. */
  function FirstTenth(rest: string): nat {
    if HasTenth(rest) then DigitValue(rest[1]) else 0
  }

  /** The unsigned part of `parseFloat` in tenths: integer digits and a
      fraction whose first digit is kept. `None` when neither part has a digit. */
  function ParseUnsigned(body: string): Option<nat> {
    var n := DigitRun(body);
    if n == 0 && !HasTenth(body[n..]) then None
    else Some(10 * DigitsValue(body[..n]) + FirstTenth(body[n..]))
  }

  /** `parseFloat(s)` in tenths, truncated toward zero: leading white space
      is skipped and an optional sign read before the number. `None` is NaN. */
  function ParseTenths(s: string): Option<int> {
    var t := TrimStart(s);
    var negative := |t| > 0 && t[0] == '-';
    var body := if |t| > 0 && (t[0] == '-' || t[0] == '+') then t[1..] else t;
    match ParseUnsigned(body)
    case None => None
    case Some(m) => Some(if negative then -(m as int) else m as int)
  }

  /** `parseFloat(j) || 0` in tenths: `parseFloat` reads `String(j)`, and NaN
      falls back to 0. */
  function RatingKey(j: Json): int {
    match ParseTenths(ToJsString(j))
    case None => 0
    case Some(v) => v
  }

  lemma {:induction false} DigitsOfNat(n: nat)
    ensures forall i :: 0 <= i < |NatToString(n)| ==> IsDigit(NatToString(n)[i])
    ensures DigitsValue(NatToString(n)) == n
    decreases n
  {
    var s := NatToString(n);
    if n >= 10 {
      DigitsOfNat(n / 10);
      assert s[..|s| - 1] == NatToString(n / 10);
    }
  }

  lemma {:induction false} DigitRunOfDigits(s: string, rest: string)
    requires forall i :: 0 <= i < |s| ==> IsDigit(s[i])
    requires |rest| == 0 || !IsDigit(rest[0])
    ensures DigitRun(s + rest) == |s|
  {
    if |s| > 0 {
      assert (s + rest)[1..] == s[1..] + rest;
      DigitRunOfDigits(s[1..], rest);
    } else {
      assert s + rest == rest;
    }
  }

  lemma {:induction false} ParseUnsignedDecimal(digits: string, tail: string)
    requires |digits| > 0 && forall i :: 0 <= i < |digits| ==> IsDigit(digits[i])
    requires |tail| == 0 || !IsDigit(tail[0])
    ensures ParseUnsigned(digits + tail) == Some(10 * DigitsValue(digits) + FirstTenth(tail))
  {
    var body := digits + tail;
    var n := |digits|;
    assert DigitRun(body) == n by {
      DigitRunOfDigits(digits, tail);
    }
    assert body[..n] == digits;
    assert body[n..] == tail;
    ParseUnsignedAt(body, n);
    assert DigitsValue(body[..n]) == DigitsValue(digits);
  }

  lemma ParseUnsignedAt(body: string, n: nat)
    requires n == DigitRun(body) && n > 0
    ensures ParseUnsigned(body) == Some(10 * DigitsValue(body[..n]) + FirstTenth(body[n..]))
  {
  }

  lemma ParseTenthsOfDigitStart(body: string)
    requires |body| > 0 && IsDigit(body[0])
    ensures ParseTenths(body) == ParseUnsigned(body)
  {
    assert !IsJsSpace(body[0]);
    assert TrimStart(body) == body;
  }

  lemma ParseTenthsOfMinus(body: string)
    requires |body| > 0 && IsDigit(body[0])
    ensures ParseUnsigned(body).Some? ==> ParseTenths("-" + body) == Some(-(ParseUnsigned(body).value as int))
  {
    var s := "-" + body;
    assert !IsJsSpace(s[0]);
    assert TrimStart(s) == s;
    assert s[1..] == body;
  }

  /** A JSON number is read exactly: its key is ten times its value. */
  lemma RatingKeyOfNumber(n: int)
    ensures RatingKey(JNum(n)) == 10 * n
  {
    var m: nat := if n < 0 then -n else n;
    var digits := NatToString(m);
    DigitsOfNat(m);
    ParseUnsignedDecimal(digits, "");
    assert digits + "" == digits;
    assert FirstTenth("") == 0;
    if n < 0 {
      assert ToJsString(JNum(n)) == "-" + digits;
      ParseTenthsOfMinus(digits);
    } else {
      assert ToJsString(JNum(n)) == digits;
      ParseTenthsOfDigitStart(digits);
    }
  }

  /** A rating string such as "4.3" is read as 43 tenths. */
  lemma RatingKeyOfDecimal(whole: nat, tenth: nat)
    requires tenth < 10
    ensures RatingKey(JStr(NatToString(whole) + "." + [DigitChar(tenth)])) == 10 * whole + tenth
  {
    var digits := NatToString(whole);
    DigitsOfNat(whole);
    var tail := "." + [DigitChar(tenth)];
    assert digits + "." + [DigitChar(tenth)] == digits + tail;
    assert FirstTenth(tail) == tenth;
    ParseUnsignedDecimal(digits, tail);
    assert (digits + tail)[0] == digits[0];
    ParseTenthsOfDigitStart(digits + tail);
  }
}
