/** The five field validators of the real-time form (form_validation2.py). They share the email
    pattern with the other variant and nothing else: names admit apostrophes and are capped at 50
    characters, phone numbers are compared after their punctuation is stripped, ages start at 1
    and dates may not lie in the future. */
module LiveRules {

  import opened Validity
  import opened Optional
  import opened Text
  import EmailPattern

  // ---------------------------------------------------------------- name

  /** The class `[a-zA-Z'\s\-]`. */
  predicate IsNameChar(c: char) {
    IsLetter(c) || c == '\'' || IsSpace(c) || c == '-'
  }

  predicate AllNameChars(s: string) {
    forall i :: 0 <= i < |s| ==> IsNameChar(s[i])
  }

  /** `[a-zA-Z'\s\-]{2,50}` against the whole input. */
  predicate NameFits(s: string) {
    2 <= |s| <= 50 && AllNameChars(s)
  }

  /** `re.match(r"^[a-zA-Z'\s\-]{2,50}$", s)`. */
  predicate NameMatches(s: string) {
    NameFits(s) || (EndsWithNewline(s) && NameFits(DropLast(s)))
  }

  /** What follows the field's name when the pattern does not match. */
  const NameRule := " must contain only letters, spaces, hyphens, or apostrophes (2-50 characters)"

  /** `validate_name(name, field_name)`. */
  function ValidateName(name: string, fieldName: string): (r: Verdict)
    ensures WellFormed(r)
  {
    if name == "" then Fail(fieldName + " is required")
    else if !NameMatches(name) then
      Fail(fieldName + NameRule)
    else Pass()
  }

  /** A name passes exactly when all its characters are letters, apostrophes, whitespace or
      hyphens and it has 2 to 50 of them, or 51 of which the last is a line feed (the pattern's
      `$` lets one final line feed through after 50 characters). Every other non-empty name
      gets the one rule message. */
  lemma NameAccepted(name: string, fieldName: string)
    ensures ValidateName(name, fieldName).ok <==>
      AllNameChars(name) && (2 <= |name| <= 50 || (|name| == 51 && EndsWithNewline(name)))
    ensures name != "" && !ValidateName(name, fieldName).ok ==>
      ValidateName(name, fieldName).message == fieldName + NameRule
  {
    NameMatchesIff(name);
    assert ValidateName(name, fieldName).ok <==> NameMatches(name);
  }

  /** The pattern itself: 2 to 50 name characters, or 51 of which the last is a line feed. */
  lemma NameMatchesIff(s: string)
    ensures NameMatches(s) <==>
      AllNameChars(s) && (2 <= |s| <= 50 || (|s| == 51 && EndsWithNewline(s)))
  {
    if EndsWithNewline(s) {
      NewlineIsNameChar(s);
    }
  }

  /** The line feed is in the class, so dropping a final one keeps or restores the property
      that every character is a name character. */
  lemma NewlineIsNameChar(s: string)
    requires EndsWithNewline(s)
    ensures AllNameChars(s) <==> AllNameChars(DropLast(s))
  {
    var t := DropLast(s);
    assert forall i :: 0 <= i < |t| ==> t[i] == s[i];
    if AllNameChars(t) {
      forall i | 0 <= i < |s|
        ensures IsNameChar(s[i])
      {
        if i < |t| {
          assert s[i] == t[i];
        }
      }
    }
  }

  /** For input without a final line feed, which a single-line text box yields, the rule is
      exactly 2 to 50 name characters. */
  lemma SingleLineNameAccepted(name: string, fieldName: string)
    requires !EndsWithNewline(name)
    ensures ValidateName(name, fieldName).ok <==> 2 <= |name| <= 50 && AllNameChars(name)
  {
    NameAccepted(name, fieldName);
  }

  /** Every message of a failing name names the field first, and an empty name gets exactly
      the required message. */
  lemma NameMessageStart(name: string, fieldName: string)
    requires fieldName != ""
    ensures var r := ValidateName(name, fieldName);
      !r.ok ==> |r.message| > |fieldName| && r.message[..|fieldName|] == fieldName
    ensures ValidateName("", fieldName).message == fieldName + " is required"
  {
  }

  // ---------------------------------------------------------------- email

  /** `validate_email(email)`. */
  function ValidateEmail(email: string): (r: Verdict)
    ensures WellFormed(r)
  {
    if email == "" then Fail("Email is required")
    else if !EmailPattern.Matches(email) then Fail("Invalid email format")
    else Pass()
  }

  /** An address passes exactly when it has the local@domain.tld shape; the empty address gets
      the required message and every other failure the format message. */
  lemma EmailAccepted(email: string)
    ensures ValidateEmail(email).ok <==> EmailPattern.Shape(email)
    ensures email == "" ==> ValidateEmail(email).message == "Email is required"
    ensures email != "" && !EmailPattern.Shape(email) ==>
      ValidateEmail(email).message == "Invalid email format"
  {
    EmailPattern.MatchesIffShape(email);
    if email == "" {
      EmailPattern.NoAtRejected(email);
    }
  }

  // ---------------------------------------------------------------- phone

  /** The class `[\s\-\(\)]` that the validator deletes. */
  predicate IsPunctuation(c: char) {
    IsSpace(c) || c == '-' || c == '(' || c == ')'
  }

  /** `re.sub(r'[\s\-\(\)]', '', s)`: `s` without its whitespace, hyphens and parentheses. */
  function Strip(s: string): (r: string)
    ensures |r| <= |s|
    ensures forall i :: 0 <= i < |r| ==> !IsPunctuation(r[i])
  {
    if s == [] then []
    else (if IsPunctuation(s[0]) then [] else [s[0]]) + Strip(s[1..])
  }

  /** Stripping works piecewise. */
  lemma {:induction false} StripAppend(a: string, b: string)
    ensures Strip(a + b) == Strip(a) + Strip(b)
  {
    if a == [] {
      assert a + b == b;
    } else {
      assert (a + b)[1..] == a[1..] + b;
      StripAppend(a[1..], b);
    }
  }

  /** Text without punctuation is left as it is; in particular stripping twice is stripping
      once. */
  lemma {:induction false} StripKeeps(s: string)
    requires forall i :: 0 <= i < |s| ==> !IsPunctuation(s[i])
    ensures Strip(s) == s
  {
    if s != [] {
      StripKeeps(s[1..]);
      assert s == [s[0]] + s[1..];
    }
  }

  lemma StripIdempotent(s: string)
    ensures Strip(Strip(s)) == Strip(s)
  {
    StripKeeps(Strip(s));
  }

  /** Every character that is not punctuation survives stripping. */
  lemma {:induction false} StripKeepsOthers(s: string, i: nat)
    requires i < |s| && !IsPunctuation(s[i])
    ensures s[i] in Strip(s)
  {
    if i > 0 {
      StripKeepsOthers(s[1..], i - 1);
    }
  }

  /** No digit is punctuation, so stripping keeps every digit. */
  lemma {:induction false} StripCountsDigits(s: string)
    ensures CountDigits(Strip(s)) == CountDigits(s)
  {
    if s != [] {
      StripCountsDigits(s[1..]);
      var head := if IsPunctuation(s[0]) then [] else [s[0]];
      CountDigitsAppend(head, Strip(s[1..]));
    }
  }

  /** `[0-9]{10}` against the whole input. */
  predicate TenDigits(s: string) {
    |s| == 10 && AllDigits(s)
  }

  /** `re.match(r'^[0-9]{10}$', s)`. */
  predicate TenDigitsMatch(s: string) {
    TenDigits(s) || (EndsWithNewline(s) && TenDigits(DropLast(s)))
  }

  /** `validate_phone(phone)`. */
  function ValidatePhone(phone: string): (r: Verdict)
    ensures WellFormed(r)
  {
    if phone == "" then Fail("Phone number is required")
    else if !TenDigitsMatch(Strip(phone)) then Fail("Phone must be 10 digits")
    else Pass()
  }

  /** A number passes exactly when it is not empty and ten digits remain once its whitespace,
      hyphens and parentheses are deleted (the line feed the pattern's `$` would let through is
      whitespace and has been deleted already). Every other non-empty number gets the digits
      message. */
  lemma PhoneAccepted(phone: string)
    ensures ValidatePhone(phone).ok <==> phone != "" && TenDigits(Strip(phone))
    ensures phone != "" && !TenDigits(Strip(phone)) ==>
      ValidatePhone(phone).message == "Phone must be 10 digits"
  {
    var t := Strip(phone);
    if |t| > 0 {
      assert !IsPunctuation(t[|t| - 1]);
    }
  }

  /** Apart from the required check, the verdict depends on the stripped number alone. */
  lemma PhoneDependsOnStripped(p: string, q: string)
    requires p != "" && q != "" && Strip(p) == Strip(q)
    ensures ValidatePhone(p) == ValidatePhone(q)
  {
  }

  /** An accepted number holds exactly ten digits, and every other character is punctuation. */
  lemma AcceptedPhoneHasTenDigits(phone: string)
    requires ValidatePhone(phone).ok
    ensures CountDigits(phone) == 10
    ensures forall i :: 0 <= i < |phone| ==> IsDigit(phone[i]) || IsPunctuation(phone[i])
  {
    PhoneAccepted(phone);
    StripCountsDigits(phone);
    CountAllDigits(Strip(phone));
    StrippedDigits(phone);
  }

  /** When only digits remain after stripping, every character was a digit or punctuation. */
  lemma {:induction false} StrippedDigits(s: string)
    requires AllDigits(Strip(s))
    ensures forall i :: 0 <= i < |s| ==> IsDigit(s[i]) || IsPunctuation(s[i])
  {
    if s != [] {
      var head := if IsPunctuation(s[0]) then [] else [s[0]];
      assert Strip(s) == head + Strip(s[1..]);
      assert forall i :: 0 <= i < |Strip(s[1..])| ==> Strip(s[1..])[i] == Strip(s)[|head| + i];
      StrippedDigits(s[1..]);
      if !IsPunctuation(s[0]) {
        assert Strip(s)[0] == s[0];
      }
      assert forall i :: 1 <= i < |s| ==> s[i] == s[1..][i - 1];
    }
  }

  /** Stripping punctuation around three digit groups leaves the ten digits. */
  lemma StripGroups(a: string, b: string, c: string, d: string, e: string, f: string)
    requires |b| == 3 && |d| == 3 && |f| == 4 && AllDigits(b) && AllDigits(d) && AllDigits(f)
    requires forall i :: 0 <= i < |a| ==> IsPunctuation(a[i])
    requires forall i :: 0 <= i < |c| ==> IsPunctuation(c[i])
    requires forall i :: 0 <= i < |e| ==> IsPunctuation(e[i])
    ensures TenDigits(Strip(a + b + c + d + e + f))
  {
    StripNone(a);
    StripNone(c);
    StripNone(e);
    StripKeeps(b);
    StripKeeps(d);
    StripKeeps(f);
    var s1 := a + b;
    StripAppend(a, b);
    var s2 := s1 + c;
    StripAppend(s1, c);
    var s3 := s2 + d;
    StripAppend(s2, d);
    var s4 := s3 + e;
    StripAppend(s3, e);
    var s5 := s4 + f;
    StripAppend(s4, f);
    assert Strip(s5) == b + d + f;
  }

  /** Text made only of punctuation strips to nothing. */
  lemma {:induction false} StripNone(s: string)
    requires forall i :: 0 <= i < |s| ==> IsPunctuation(s[i])
    ensures Strip(s) == []
  {
    if s != [] {
      StripNone(s[1..]);
    }
  }

  /** The spelling `(123) 456-7890` the help text shows passes. */
  lemma PhoneAcceptsParenthesised()
    ensures ValidatePhone("(123) 456-7890").ok
  {
    StripGroups("(", "123", ") ", "456", "-", "7890");
    assert "(" + "123" + ") " + "456" + "-" + "7890" == "(123) 456-7890";
    PhoneAccepted("(123) 456-7890");
  }

  /** The spelling `123-456-7890` the help text shows passes. */
  lemma PhoneAcceptsHyphenated()
    ensures ValidatePhone("123-456-7890").ok
  {
    StripGroups("", "123", "-", "456", "-", "7890");
    assert "" + "123" + "-" + "456" + "-" + "7890" == "123-456-7890";
    PhoneAccepted("123-456-7890");
  }

  /** Runs of punctuation anywhere are ignored, which the other variant's pattern refuses. */
  lemma PhoneAcceptsLoosePunctuation()
    ensures ValidatePhone("((123))--456  7890").ok
  {
    StripGroups("((", "123", "))--", "456", "  ", "7890");
    assert "((" + "123" + "))--" + "456" + "  " + "7890" == "((123))--456  7890";
    PhoneAccepted("((123))--456  7890");
  }

  /** Letters never pass: a letter is neither a digit nor punctuation. */
  lemma PhoneRejectsLetters()
    ensures ValidatePhone("555-CALL-NOW") == Verdict(false, "Phone must be 10 digits")
  {
    var bad := "555-CALL-NOW";
    assert !IsDigit(bad[4]) && !IsPunctuation(bad[4]);
    if ValidatePhone(bad).ok {
      AcceptedPhoneHasTenDigits(bad);
    }
  }

  // ---------------------------------------------------------------- age

  /** `validate_age(age)`. */
  function ValidateAge(age: int): (r: Verdict)
    ensures WellFormed(r)
  {
    if age <= 0 then Fail("Age must be greater than 0")
    else if age > 120 then Fail("Age must be less than 120")
    else Pass()
  }

  /** An age passes exactly from 1 to 120, both included; the lower bound is checked first. */
  lemma AgeAccepted(age: int)
    ensures ValidateAge(age).ok <==> 1 <= age <= 120
    ensures age <= 0 ==> ValidateAge(age).message == "Age must be greater than 0"
    ensures age > 120 ==> ValidateAge(age).message == "Age must be less than 120"
  {
  }

  // ---------------------------------------------------------------- date

  /** `validate_date(check_date)`; `None` is a missing date and `today` is `date.today()`. */
  function ValidateDate(d: Option<int>, today: int): (r: Verdict)
    ensures WellFormed(r)
  {
    if d.None? then Fail("Date is required")
    else if d.value > today then Fail("Date cannot be in the future")
    else Pass()
  }

  /** A date passes exactly when it is present and not after today; today itself passes. */
  lemma DateAccepted(d: Option<int>, today: int)
    ensures ValidateDate(d, today).ok <==> d.Some? && d.value <= today
    ensures d.None? ==> ValidateDate(d, today).message == "Date is required"
    ensures d.Some? && d.value > today ==> ValidateDate(d, today).message == "Date cannot be in the future"
  {
  }
}
