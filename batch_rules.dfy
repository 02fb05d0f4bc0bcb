/** The five field validators of the validate-on-submit form (form_validation.py). */
module BatchRules {

  import opened Validity
  import opened Optional
  import opened Text
  import opened Calendar
  import EmailPattern
  import PhonePattern
  import PyInt

  // ---------------------------------------------------------------- name

  /** The class `[A-Za-z\s-]`. */
  predicate IsNameChar(c: char) {
    IsLetter(c) || IsSpace(c) || c == '-'
  }

  /** `[A-Za-z\s-]+` against the whole input. */
  predicate NameFits(s: string) {
    |s| >= 1 && forall i :: 0 <= i < |s| ==> IsNameChar(s[i])
  }

  /** `re.match(r'^[A-Za-z\s-]+$', s)`. */
  predicate NameMatches(s: string) {
    NameFits(s) || (EndsWithNewline(s) && NameFits(DropLast(s)))
  }

  /** What follows the field's name when a character is outside the class. */
  const CharRule := " should only contain letters, spaces, and hyphens"

  /** What follows the field's name when the name is a single character. */
  const LengthRule := " should be at least 2 characters long"

  /** `validate_name(name, field_name)`: required, then the character class, then the length. */
  function ValidateName(name: string, fieldName: string): (r: Verdict)
    ensures WellFormed(r)
  {
    if name == "" then Fail(fieldName + " is required")
    else if !NameMatches(name) then Fail(fieldName + CharRule)
    else if |name| < 2 then Fail(fieldName + LengthRule)
    else Pass()
  }

  /** The line feed belongs to the class, so the pattern's `$` adds nothing here. */
  lemma NameMatchesIffFits(s: string)
    ensures NameMatches(s) <==> NameFits(s)
  {
    if EndsWithNewline(s) && NameFits(DropLast(s)) {
      var t := DropLast(s);
      forall i | 0 <= i < |s|
        ensures IsNameChar(s[i])
      {
        if i < |t| {
          assert s[i] == t[i];
        }
      }
    }
  }

  /** A name passes exactly when it has at least two characters, all letters, whitespace or
      hyphens; there is no upper bound on its length. The empty name is required; a non-empty name with a character outside
      the class gets the character message, whatever its length; a one-character name made of
      a good character gets the length message. */
  lemma NameAccepted(name: string, fieldName: string)
    ensures ValidateName(name, fieldName).ok <==>
      |name| >= 2 && forall i :: 0 <= i < |name| ==> IsNameChar(name[i])
    ensures ValidateName("", fieldName) == Verdict(false, fieldName + " is required")
    ensures name != "" && (exists i :: 0 <= i < |name| && !IsNameChar(name[i])) ==>
      ValidateName(name, fieldName).message == fieldName + CharRule
    ensures |name| == 1 && IsNameChar(name[0]) ==>
      ValidateName(name, fieldName).message == fieldName + LengthRule
  {
    NameMatchesIffFits(name);
  }

  /** The character check runs before the length check: a one-character name with a bad
      character gets the character message, one made of a good character the length message. */
  lemma NameRuleOrder(c: char, fieldName: string)
    ensures ValidateName([c], fieldName).message ==
      if IsNameChar(c) then fieldName + LengthRule
      else fieldName + CharRule
  {
    NameMatchesIffFits([c]);
    assert NameFits([c]) <==> IsNameChar(c) by {
      assert [c][0] == c;
    }
  }

  /** Every message names the field first. */
  lemma NameMessageStart(name: string, fieldName: string)
    requires fieldName != ""
    ensures var r := ValidateName(name, fieldName);
      !r.ok ==> |r.message| > |fieldName| && r.message[..|fieldName|] == fieldName
  {
  }

  /** Plain alphabetic names pass. */
  lemma NameAcceptsExamples()
    ensures ValidateName("Ada", "First name").ok
    ensures ValidateName("Lovelace", "Last name").ok
  {
    NameAccepted("Ada", "First name");
    NameAccepted("Lovelace", "Last name");
  }

  // ---------------------------------------------------------------- email

  /** The message of an address that does not have the expected shape. */
  const EmailMessage := "Please enter a valid email address"

  /** `validate_email(email)`: there is no separate required check. */
  function ValidateEmail(email: string): (r: Verdict)
    ensures WellFormed(r)
  {
    if !EmailPattern.Matches(email) then Fail(EmailMessage)
    else Pass()
  }

  /** An address passes exactly when it has the local@domain.tld shape; any other gets the
      format message. */
  lemma EmailAccepted(email: string)
    ensures ValidateEmail(email).ok <==> EmailPattern.Shape(email)
    ensures !ValidateEmail(email).ok ==> ValidateEmail(email).message == EmailMessage
  {
    EmailPattern.MatchesIffShape(email);
  }

  /** The empty address fails with the format message, not a "required" one. */
  lemma EmptyEmailRejected()
    ensures ValidateEmail("") == Verdict(false, "Please enter a valid email address")
  {
    EmailPattern.NoAtRejected("");
  }

  /** An ordinary address passes. */
  lemma EmailAcceptsPlainAddress()
    ensures ValidateEmail("ada@example.com").ok
  {
    var s := "ada@example.com";
    assert s[..3] == "ada" && s[4..11] == "example" && s[12..] == "com";
    EmailPattern.SplitIsFound(s, 3, 11);
  }

  // ---------------------------------------------------------------- phone

  /** The message of a number that no reading of the pattern spells. */
  const PhoneMessage := "Please enter a valid phone number"

  /** `validate_phone(phone)`. */
  function ValidatePhone(phone: string): (r: Verdict)
    ensures WellFormed(r)
  {
    if !PhonePattern.Matches(phone) then Fail(PhoneMessage)
    else Pass()
  }

  /** A number passes exactly when some reading of the optional pieces spells it; any other
      gets the format message. */
  lemma PhoneAccepted(phone: string)
    ensures ValidatePhone(phone).ok <==> PhonePattern.Shape(phone)
    ensures !ValidatePhone(phone).ok ==> ValidatePhone(phone).message == PhoneMessage
  {
    PhonePattern.MatchesIffShape(phone);
  }

  /** Every accepted number holds exactly ten digits and 10 to 14 characters, plus one final
      line feed at most. */
  lemma AcceptedPhoneHasTenDigits(phone: string)
    requires ValidatePhone(phone).ok
    ensures CountDigits(phone) == 10
    ensures 10 <= |phone| <= 14 || (EndsWithNewline(phone) && |phone| == 15)
  {
    PhonePattern.MatchesIffShape(phone);
    if PhonePattern.Spells(phone) {
      PhonePattern.SpelledCounts(phone);
    } else {
      PhonePattern.SpelledCounts(DropLast(phone));
      CountDigitsDropNewline(phone);
    }
  }

  /** A number laid out as the form's help text shows passes. */
  lemma PhoneAcceptsHelpFormat()
    ensures ValidatePhone("(555) 123-4567").ok
  {
    assert PhonePattern.Fits("(555) 123-4567");
  }

  /** Dots are separators too. */
  lemma PhoneAcceptsDots()
    ensures ValidatePhone("555.123.4567").ok
  {
    assert PhonePattern.Fits("555.123.4567");
  }

  /** The parentheses need not be balanced. */
  lemma PhoneAcceptsUnbalancedParenthesis()
    ensures ValidatePhone("(555 123 4567").ok
  {
    assert PhonePattern.Fits("(555 123 4567");
  }

  /** Letters never pass: the scan's last digit group would start at the `L`. */
  lemma PhoneRejectsLetters()
    ensures !ValidatePhone("555-CALL-NOW").ok
  {
    var bad := "555-CALL-NOW";
    assert bad[7] == 'L' && !EndsWithNewline(bad);
    assert PhonePattern.Cuts(bad).3 == 7;
  }

  // ---------------------------------------------------------------- age

  /** What `validate_age` receives: the integer a number widget yields, or text. */
  datatype AgeInput = Whole(n: int) | Typed(text: string)

  /** `int(age)`; `None` stands for the `ValueError` it raises on text. */
  function ToInt(a: AgeInput): Option<int> {
    match a
    case Whole(n) => Some(n)
    case Typed(t) => PyInt.ParseInt(t)
  }

  /** The message of an age that is not an integer literal. */
  const NumberMessage := "Please enter a valid number"

  /** The message of an integer age outside 0 to 120. */
  const AgeRangeMessage := "Age must be between 0 and 120"

  /** `validate_age(age)`. */
  function ValidateAge(a: AgeInput): (r: Verdict)
    ensures WellFormed(r)
  {
    match ToInt(a)
    case None => Fail(NumberMessage)
    case Some(n) => if n < 0 || n > 120 then Fail(AgeRangeMessage) else Pass()
  }

  /** An age passes exactly when it reads as an integer from 0 to 120, both included; text that
      is not an integer literal gets the number message. */
  lemma AgeAccepted(a: AgeInput)
    ensures ValidateAge(a).ok <==> ToInt(a).Some? && 0 <= ToInt(a).value <= 120
    ensures a.Typed? && !PyInt.IsIntLiteral(a.text) ==>
      ValidateAge(a).message == "Please enter a valid number"
    ensures ToInt(a).Some? && !(0 <= ToInt(a).value <= 120) ==>
      ValidateAge(a).message == "Age must be between 0 and 120"
  {
    if a.Typed? {
      PyInt.ParseIntDefinedIff(a.text);
    }
  }

  /** Typing the decimal form of a number is the same as entering the number. */
  lemma TypedAgeAgrees(n: int)
    ensures ValidateAge(Typed(PyInt.ShowInt(n))) == ValidateAge(Whole(n))
  {
    PyInt.ParseShowRoundTrip(n);
  }

  // ---------------------------------------------------------------- date

  /** `date(1990, 1, 1)`, the default `earliest_date`. */
  const Earliest: int := Ordinal(1990, 1, 1)

  /** `timedelta(days=5 * 365)`. */
  const FutureWindow: int := 5 * 365

  /** The message of a date before the earliest date. */
  const EarlyDateMessage := "Date must be after 1990-01-01"

  /** The message of a date more than five years after today. */
  const FarDateMessage := "Date cannot be more than 5 years in the future"

  /** `validate_date(input_date)` with its default earliest date; `today` is `date.today()`. */
  function ValidateDate(d: int, today: int): (r: Verdict)
    ensures WellFormed(r)
  {
    if d < Earliest then Fail(EarlyDateMessage)
    else if d > today + FutureWindow then Fail(FarDateMessage)
    else Pass()
  }

  /** A date passes exactly inside the window from 1990-01-01 to 1825 days after today, both
      ends included; a date before the window gets the lower-bound message even when it is
      also after the upper bound, and any other date after the window the upper-bound one. */
  lemma DateAccepted(d: int, today: int)
    ensures ValidateDate(d, today).ok <==> Ordinal(1990, 1, 1) <= d <= today + 1825
    ensures d < Ordinal(1990, 1, 1) ==> ValidateDate(d, today).message == "Date must be after 1990-01-01"
    ensures Ordinal(1990, 1, 1) <= d && d > today + 1825 ==>
      ValidateDate(d, today).message == "Date cannot be more than 5 years in the future"
  {
  }
}
