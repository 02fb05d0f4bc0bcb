/** The `(is_valid, message)` pair every validator of both variants returns. */
module Validity {

  datatype Verdict = Verdict(ok: bool, message: string)

  /** A validator's verdict: the message is empty exactly when the value passes. */
  predicate WellFormed(v: Verdict) {
    v.ok <==> v.message == ""
  }

  function Pass(): (v: Verdict)
    ensures v.ok && WellFormed(v)
  {
    Verdict(true, "")
  }

  function Fail(message: string): (v: Verdict)
    requires message != ""
    ensures !v.ok && v.message == message && WellFormed(v)
  {
    Verdict(false, message)
  }

  /** What a check contributes to the messages shown: its message when it fails. */
  function Report(v: Verdict): (r: seq<string>)
    ensures |r| <= 1 && (r == [] <==> v.ok) && forall m :: m in r ==> m == v.message
    ensures WellFormed(v) ==> forall m :: m in r ==> m != ""
  {
    if v.ok then [] else [v.message]
  }
}

/** A value that may be absent: Python's `None`, or a missing session key. */
module Optional {

  datatype Option<T> = None | Some(value: T)
}

/** Character classes and small string facts shared by the patterns of both variants. */
module Text {

  /** The class `A-Za-z`. */
  predicate IsLetter(c: char) {
    'A' <= c <= 'Z' || 'a' <= c <= 'z'
  }

  /** The class `0-9`. */
  predicate IsDigit(c: char) {
    '0' <= c <= '9'
  }

  /** The ASCII characters Python's `\s` matches in a text pattern: tab, line feed, vertical tab,
      form feed, carriage return, the separators 0x1C-0x1F and the space. */
  predicate IsSpace(c: char) {
    9 <= c as int <= 13 || 28 <= c as int <= 32
  }

  predicate AllDigits(s: string) {
    forall i :: 0 <= i < |s| ==> IsDigit(s[i])
  }

  /** The number of decimal digits in `s`. */
  function CountDigits(s: string): (n: nat)
    ensures n <= |s|
  {
    if s == [] then 0 else (if IsDigit(s[0]) then 1 else 0) + CountDigits(s[1..])
  }

  lemma {:induction false} CountDigitsAppend(a: string, b: string)
    ensures CountDigits(a + b) == CountDigits(a) + CountDigits(b)
  {
    if a == [] {
      assert a + b == b;
    } else {
      assert (a + b)[1..] == a[1..] + b;
      CountDigitsAppend(a[1..], b);
    }
  }

  lemma {:induction false} CountAllDigits(s: string)
    requires AllDigits(s)
    ensures CountDigits(s) == |s|
  {
    if s != [] {
      CountAllDigits(s[1..]);
    }
  }

  lemma {:induction false} CountNoDigits(s: string)
    requires forall i :: 0 <= i < |s| ==> !IsDigit(s[i])
    ensures CountDigits(s) == 0
  {
    if s != [] {
      CountNoDigits(s[1..]);
    }
  }

  /** Python's `$` matches at the end of the input and also just before a line feed that ends
      it; a pattern anchored with `$` therefore also accepts its language followed by one `\n`. */
  predicate EndsWithNewline(s: string) {
    |s| > 0 && s[|s| - 1] == '\n'
  }

  function DropLast(s: string): (t: string)
    requires |s| > 0
    ensures |t| == |s| - 1 && t + [s[|s| - 1]] == s
  {
    s[..|s| - 1]
  }

  /** A final line feed is not a digit. */
  lemma CountDigitsDropNewline(s: string)
    requires EndsWithNewline(s)
    ensures CountDigits(s) == CountDigits(DropLast(s))
  {
    var t := DropLast(s);
    assert t + ['\n'] == s;
    CountDigitsAppend(t, ['\n']);
    CountNoDigits(['\n']);
  }
}

/** Day numbers: a date is its proleptic Gregorian ordinal, day 1 being 0001-01-01, so that
    comparing and shifting dates is comparing and adding integers. */
module Calendar {

  predicate IsLeap(y: int) {
    y % 4 == 0 && (y % 100 != 0 || y % 400 == 0)
  }

  function Ordinal(y: int, m: int, d: int): int
    requires y >= 1 && 1 <= m <= 12
  {
    var p := y - 1;
    var before := [0, 31, 59, 90, 120, 151, 181, 212, 243, 273, 304, 334];
    p * 365 + p / 4 - p / 100 + p / 400 + before[m - 1] + (if m > 2 && IsLeap(y) then 1 else 0) + d
  }

  /** The day numbers of the dates the form examples use. */
  lemma OrdinalExamples()
    ensures Ordinal(1990, 1, 1) == 726468 && Ordinal(1990, 12, 11) == 726812
    ensures Ordinal(1995, 12, 10) == 728637
    ensures Ordinal(2024, 1, 1) == 738886 && Ordinal(2024, 1, 2) == 738887
    ensures Ordinal(2024, 2, 1) == 738917
  {
  }
}
