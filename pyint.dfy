/** Python's `int()` applied to text, restricted to an optional sign followed by decimal
    digits, and its inverse, the decimal rendering of an integer. */
module PyInt {

  import opened Text
  import opened Optional

  function DigitValue(c: char): (d: nat)
    requires IsDigit(c)
    ensures d < 10
  {
    c as int - '0' as int
  }

  function DigitChar(d: nat): (c: char)
    requires d < 10
    ensures IsDigit(c) && DigitValue(c) == d
  {
    ('0' as int + d) as char
  }

  /** The value of a run of decimal digits, most significant first. */
  function DigitsValue(s: string): nat
    requires AllDigits(s)
  {
    if s == [] then 0 else 10 * DigitsValue(s[..|s| - 1]) + DigitValue(s[|s| - 1])
  }

  predicate IsSign(c: char) {
    c == '+' || c == '-'
  }

  /** The literals this model of `int()` accepts: an optional sign, then at least one digit. */
  predicate IsIntLiteral(s: string) {
    var body := if |s| > 0 && IsSign(s[0]) then s[1..] else s;
    |body| > 0 && AllDigits(body)
  }

  /** `int(s)`; `None` stands for the `ValueError` it raises. */
  function ParseInt(s: string): Option<int> {
    if |s| > 0 && IsSign(s[0]) then
      var body := s[1..];
      if |body| > 0 && AllDigits(body) then
        var magnitude: int := DigitsValue(body);
        Some(if s[0] == '-' then -magnitude else magnitude)
      else None
    else if |s| > 0 && AllDigits(s) then Some(DigitsValue(s))
    else None
  }

  /** `str(n)` for a natural number. */
  function ShowNat(n: nat): (s: string)
    ensures |s| > 0 && AllDigits(s)
  {
    if n < 10 then [DigitChar(n)] else ShowNat(n / 10) + [DigitChar(n % 10)]
  }

  /** `str(n)`. */
  function ShowInt(n: int): string {
    if n < 0 then "-" + ShowNat(-n) else ShowNat(n)
  }

  /** `int()` succeeds exactly on the literals. */
  lemma ParseIntDefinedIff(s: string)
    ensures ParseInt(s).Some? <==> IsIntLiteral(s)
  {
  }

  lemma {:induction false} DigitsValueOfShowNat(n: nat)
    ensures DigitsValue(ShowNat(n)) == n
  {
    var s := ShowNat(n);
    if n >= 10 {
      DigitsValueOfShowNat(n / 10);
      assert s[..|s| - 1] == ShowNat(n / 10);
    }
  }

  /** Reading back the decimal rendering of any integer gives that integer. */
  lemma {:induction false} ParseShowRoundTrip(n: int)
    ensures ParseInt(ShowInt(n)) == Some(n)
  {
    if n < 0 {
      var digits := ShowNat(-n);
      assert ShowInt(n)[1..] == digits;
      DigitsValueOfShowNat(-n);
    } else {
      DigitsValueOfShowNat(n);
    }
  }
}
