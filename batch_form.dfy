/** The validate-on-submit form (form_validation.py): the `form_data` record kept across reruns,
    the seven checks run when the form is submitted, the copy of the submitted values into the
    record, and the clear that the summary's button triggers. */
module BatchForm {

  import opened Validity
  import opened BatchRules

  /** The keys of `form_data`, listed in `Keys` in the order the record is built. */
  datatype Key = FirstName | LastName | Email | Phone | Age | BirthDate | StartDate | EndDate | Submitted

  const Keys: seq<Key> := [FirstName, LastName, Email, Phone, Age, BirthDate, StartDate, EndDate, Submitted]

  /** `Keys` lists every key once. */
  lemma KeyListed(k: Key)
    ensures k in Keys
  {
    match k
    case FirstName => assert Keys[0] == k;
    case LastName => assert Keys[1] == k;
    case Email => assert Keys[2] == k;
    case Phone => assert Keys[3] == k;
    case Age => assert Keys[4] == k;
    case BirthDate => assert Keys[5] == k;
    case StartDate => assert Keys[6] == k;
    case EndDate => assert Keys[7] == k;
    case Submitted => assert Keys[8] == k;
  }

  /** Two records that agree on every listed key are the same record. */
  lemma RecordsEqual(m1: map<Key, Value>, m2: map<Key, Value>)
    requires forall j :: 0 <= j < |Keys| ==> Keys[j] in m1 && Keys[j] in m2 && m1[Keys[j]] == m2[Keys[j]]
    ensures m1 == m2
  {
    forall k: Key
      ensures k in m1 && k in m2 && m1[k] == m2[k]
    {
      KeyListed(k);
      var j :| 0 <= j < |Keys| && Keys[j] == k;
    }
    assert m1.Keys == m2.Keys;
  }

  /** A value of the record: text, the integer age, a date or the submitted flag. */
  datatype Value = Str(s: string) | Number(n: int) | Day(d: int) | Flag(b: bool)

  /** Every key is present with a value of its kind; the age is `''` until a submit stores
      the integer from the number widget. */
  predicate WellTyped(m: map<Key, Value>) {
    FirstName in m && LastName in m && Email in m && Phone in m && Age in m &&
    BirthDate in m && StartDate in m && EndDate in m && Submitted in m &&
    m[FirstName].Str? && m[LastName].Str? && m[Email].Str? && m[Phone].Str? &&
    (m[Age] == Str("") || m[Age].Number?) &&
    m[BirthDate].Day? && m[StartDate].Day? && m[EndDate].Day? && m[Submitted].Flag?
  }

  /** The record a new session starts from; `today` is `date.today()`. */
  function Initial(today: int): map<Key, Value> {
    map[FirstName := Str(""), LastName := Str(""), Email := Str(""), Phone := Str(""),
        Age := Str(""), BirthDate := Day(today), StartDate := Day(today),
        EndDate := Day(today + 1), Submitted := Flag(false)]
  }

  /** The record the clear button leaves: every date is today, the flag is down, every other
      key, the age included, is `''`. */
  function Cleared(today: int): map<Key, Value> {
    map[FirstName := Str(""), LastName := Str(""), Email := Str(""), Phone := Str(""),
        Age := Str(""), BirthDate := Day(today), StartDate := Day(today),
        EndDate := Day(today), Submitted := Flag(false)]
  }

  /** What the form's widgets hold when the submit button is pressed. */
  datatype Entries = Entries(
    firstName: string, lastName: string, email: string, phone: string,
    age: int, birthDate: int, startDate: int, endDate: int)

  /** The record after a successful submit: the submitted values and the raised flag. */
  function Committed(e: Entries): map<Key, Value> {
    map[FirstName := Str(e.firstName), LastName := Str(e.lastName), Email := Str(e.email),
        Phone := Str(e.phone), Age := Number(e.age), BirthDate := Day(e.birthDate),
        StartDate := Day(e.startDate), EndDate := Day(e.endDate), Submitted := Flag(true)]
  }

  /** `update` with the submitted values rewrites every key of a well-typed record. */
  lemma CommitOverwrites(m: map<Key, Value>, e: Entries)
    ensures m + Committed(e) == Committed(e)
  {
    RecordsEqual(m + Committed(e), Committed(e));
  }

  /** The values the widgets start from on a rerun, read from the record; the age widget shows
      0 while the stored age is `''` (or 0). */
  function PrefillOf(m: map<Key, Value>): Entries
    requires WellTyped(m)
  {
    Entries(m[FirstName].s, m[LastName].s, m[Email].s, m[Phone].s,
            if m[Age].Number? then m[Age].n else 0,
            m[BirthDate].d, m[StartDate].d, m[EndDate].d)
  }

  const RangeMessage := "Start date must be before end date"

  /** The seven checks of a submit, in order. The range check carries its message whether or
      not it passes. */
  function Checks(e: Entries, today: int): (r: seq<Verdict>)
  {
    [ValidateName(e.firstName, "First name"),
     ValidateName(e.lastName, "Last name"),
     ValidateEmail(e.email),
     ValidatePhone(e.phone),
     ValidateAge(Whole(e.age)),
     ValidateDate(e.birthDate, today),
     Verdict(e.startDate < e.endDate, RangeMessage)]
  }

  predicate AllPass(checks: seq<Verdict>) {
    forall i :: 0 <= i < |checks| ==> checks[i].ok
  }

  /** The messages of the failing checks, in the order of the checks. */
  function Failures(checks: seq<Verdict>): seq<string> {
    if checks == [] then []
    else Failures(checks[..|checks| - 1]) + Report(checks[|checks| - 1])
  }

  lemma FailuresOfSeven(c: seq<Verdict>)
    requires |c| == 7
    ensures Failures(c[..6]) == Report(c[0]) + Report(c[1]) + Report(c[2]) + Report(c[3]) +
                                Report(c[4]) + Report(c[5])
    ensures Failures(c) == Report(c[0]) + Report(c[1]) + Report(c[2]) + Report(c[3]) +
                           Report(c[4]) + Report(c[5]) + Report(c[6])
  {
    assert Failures(c[..1]) == Report(c[0]) by {
      assert c[..1][..0] == [];
    }
    assert Failures(c[..2]) == Failures(c[..1]) + Report(c[1]) by {
      assert c[..2][..1] == c[..1];
    }
    assert Failures(c[..3]) == Failures(c[..2]) + Report(c[2]) by {
      assert c[..3][..2] == c[..2];
    }
    assert Failures(c[..4]) == Failures(c[..3]) + Report(c[3]) by {
      assert c[..4][..3] == c[..3];
    }
    assert Failures(c[..5]) == Failures(c[..4]) + Report(c[4]) by {
      assert c[..5][..4] == c[..4];
    }
    assert Failures(c[..6]) == Failures(c[..5]) + Report(c[5]) by {
      assert c[..6][..5] == c[..5];
    }
    assert Failures(c) == Failures(c[..6]) + Report(c[6]) by {
      assert c[..6] == c[..|c| - 1];
    }
  }

  /** `all(v[0] for v in validations)`. */
  method AllValid(checks: seq<Verdict>) returns (ok: bool)
    ensures ok <==> AllPass(checks)
  {
    for i := 0 to |checks|
      invariant AllPass(checks[..i])
    {
      if !checks[i].ok {
        return false;
      }
      assert checks[..i + 1] == checks[..i] + [checks[i]];
    }
    assert checks[..|checks|] == checks;
    return true;
  }

  /** The loop that shows the message of every failing check. */
  method CollectFailures(checks: seq<Verdict>) returns (errors: seq<string>)
    ensures errors == Failures(checks)
  {
    errors := [];
    for i := 0 to |checks|
      invariant errors == Failures(checks[..i])
    {
      assert checks[..i + 1][..i] == checks[..i];
      if !checks[i].ok {
        errors := errors + [checks[i].message];
      }
    }
    assert checks[..|checks|] == checks;
  }

  /** The submit's decision: whether every check passed, and the messages to show when not
      (none when every check passed). */
  method Verdicts(checks: seq<Verdict>) returns (ok: bool, errors: seq<string>)
    ensures ok <==> AllPass(checks)
    ensures errors == Failures(checks)
  {
    FailuresEmptyIff(checks);
    ok := AllValid(checks);
    if ok {
      errors := [];
    } else {
      errors := CollectFailures(checks);
    }
  }

  /** No message is reported exactly when every check passes. */
  lemma {:induction false} FailuresEmptyIff(checks: seq<Verdict>)
    ensures Failures(checks) == [] <==> AllPass(checks)
  {
    if checks != [] {
      var init := checks[..|checks| - 1];
      FailuresEmptyIff(init);
      assert forall i :: 0 <= i < |init| ==> init[i] == checks[i];
    }
  }

  /** Each failing check reports one message, so a submit reports at most seven. */
  lemma {:induction false} FailuresBounded(checks: seq<Verdict>)
    ensures |Failures(checks)| <= |checks|
  {
    if checks != [] {
      FailuresBounded(checks[..|checks| - 1]);
    }
  }

  /** No field check ever reports the range message: every field message starts with a
      capital other than `S`. */
  lemma FieldMessagesDiffer(e: Entries, today: int)
    ensures RangeMessage !in Failures(Checks(e, today)[..6])
  {
    var c := Checks(e, today);
    FailuresOfSeven(c);
    assert RangeMessage !in Report(c[0]) by {
      NameMessageStart(e.firstName, "First name");
      assert RangeMessage[0] == 'S';
    }
    assert RangeMessage !in Report(c[1]) by {
      NameMessageStart(e.lastName, "Last name");
      assert RangeMessage[0] == 'S';
    }
    assert RangeMessage !in Report(c[2]) by {
      assert RangeMessage[0] == 'S';
      assert "Please enter a valid email address"[0] == 'P';
    }
    assert RangeMessage !in Report(c[3]) by {
      assert |RangeMessage| == 34;
    }
    assert RangeMessage !in Report(c[4]) by {
      assert |RangeMessage| == 34;
    }
    // Both date messages differ from the range message in length.
    assert RangeMessage !in Report(c[5]) by {
      assert |RangeMessage| == 34;
    }
  }

  /** The range message is reported, last, exactly when the start date is not before the end
      date. */
  lemma RangeReportedLast(e: Entries, today: int)
    ensures var errors := Failures(Checks(e, today));
      e.startDate >= e.endDate <==> |errors| > 0 && errors[|errors| - 1] == RangeMessage
  {
    var c := Checks(e, today);
    FieldMessagesDiffer(e, today);
    assert c[..6] == c[..|c| - 1];
  }

  /** The widgets a successful submit leaves behind show exactly what was submitted. */
  lemma CommitPrefillRoundTrip(e: Entries)
    ensures WellTyped(Committed(e)) && PrefillOf(Committed(e)) == e
  {
  }

  /** With the four text fields empty and the age and birth date in range, the six field
      checks report the two required messages and the email and phone messages, in that order. */
  lemma EmptyTextReports(e: Entries, today: int)
    requires e.firstName == "" && e.lastName == "" && e.email == "" && e.phone == ""
    requires 0 <= e.age <= 120 && Earliest <= e.birthDate <= today + FutureWindow
    ensures Failures(Checks(e, today)[..6]) ==
      ["First name is required", "Last name is required", EmailMessage, PhoneMessage]
  {
    var c := Checks(e, today);
    FailuresOfSeven(c);
    EmptyEmailRejected();
    assert Report(c[0]) == ["First name is required"] by {
      assert "First name" + " is required" == "First name is required";
    }
    assert Report(c[1]) == ["Last name is required"] by {
      assert "Last name" + " is required" == "Last name is required";
    }
    assert Report(c[2]) == [EmailMessage];
    assert Report(c[3]) == [PhoneMessage];
    assert Report(c[4]) == [] && Report(c[5]) == [];
  }

  /** A submit reports the field checks' messages, then the range check's. */
  lemma FailuresOfChecks(e: Entries, today: int)
    ensures Failures(Checks(e, today)) ==
      Failures(Checks(e, today)[..6]) + Report(Checks(e, today)[6])
  {
    var c := Checks(e, today);
    assert c[..6] == c[..|c| - 1];
  }

  /** A new session's untouched form, once submitted, fails on the four text fields only: an
      age of 0 is accepted and the end date lies one day after the start date. */
  lemma UntouchedInitialSubmit(today: int)
    requires today >= Earliest
    ensures WellTyped(Initial(today))
    ensures Failures(Checks(PrefillOf(Initial(today)), today)) ==
      ["First name is required", "Last name is required",
       "Please enter a valid email address", "Please enter a valid phone number"]
  {
    var e := PrefillOf(Initial(today));
    EmptyTextReports(e, today);
    FailuresOfChecks(e, today);
    assert Report(Checks(e, today)[6]) == [];
  }

  /** After a clear, start and end date are both today, so the untouched form also fails the
      range check until a date is edited. */
  lemma UntouchedClearedSubmit(today: int)
    requires today >= Earliest
    ensures WellTyped(Cleared(today))
    ensures Failures(Checks(PrefillOf(Cleared(today)), today)) ==
      ["First name is required", "Last name is required",
       "Please enter a valid email address", "Please enter a valid phone number", RangeMessage]
  {
    var e := PrefillOf(Cleared(today));
    EmptyTextReports(e, today);
    FailuresOfChecks(e, today);
    assert Report(Checks(e, today)[6]) == [RangeMessage];
  }

  /** The session record `st.session_state.form_data`. */
  class Form {

    var data: map<Key, Value>

    ghost predicate Valid()
      reads this
    {
      WellTyped(data)
    }

    /** The first run of a session initialises the record. */
    constructor (today: int)
      ensures Valid() && data == Initial(today)
    {
      data := Initial(today);
    }

    function IsSubmitted(): bool
      reads this
      requires Valid()
    {
      data[Submitted].b
    }

    /** The submit button: run the seven checks; when all pass, copy the submitted values into
        the record and raise the flag, otherwise report the failing messages and leave the
        record as it was. */
    method Submit(e: Entries, today: int) returns (ok: bool, errors: seq<string>)
      requires Valid()
      modifies this
      ensures Valid()
      ensures ok <==> AllPass(Checks(e, today))
      ensures errors == Failures(Checks(e, today))
      ensures ok ==> data == Committed(e)
      ensures !ok ==> data == old(data)
    {
      ok, errors := Verdicts(Checks(e, today));
      if ok {
        CommitOverwrites(data, e);
        data := data + Committed(e);
      }
    }

    /** The summary's clear button, present only once the form has been submitted: every key
        of the record is reset in turn. */
    method Clear(today: int)
      requires Valid()
      modifies this
      ensures Valid()
      ensures old(IsSubmitted()) ==> data == Cleared(today)
      ensures !old(IsSubmitted()) ==> data == old(data)
    {
      if !data[Submitted].b {
        return;
      }
      for i := 0 to |Keys|
        invariant forall j :: 0 <= j < |Keys| ==> Keys[j] in data
        invariant forall j :: 0 <= j < i ==> data[Keys[j]] == ResetValue(Keys[j], today)
      {
        var key := Keys[i];
        if key in [StartDate, EndDate, BirthDate] {
          data := data[key := Day(today)];
        } else if key == Submitted {
          data := data[key := Flag(false)];
        } else {
          data := data[key := Str("")];
        }
      }
      ResetValues(today);
      RecordsEqual(data, Cleared(today));
    }
  }

  /** What the clear loop writes under one key. */
  function ResetValue(key: Key, today: int): Value {
    if key in [StartDate, EndDate, BirthDate] then Day(today)
    else if key == Submitted then Flag(false)
    else Str("")
  }

  /** Resetting every key one by one gives the cleared record. */
  lemma ResetValues(today: int)
    ensures forall k :: k in Cleared(today) && Cleared(today)[k] == ResetValue(k, today)
  {
    forall k: Key
      ensures k in Cleared(today) && Cleared(today)[k] == ResetValue(k, today)
    {
      KeyListed(k);
    }
  }

  /** A fully valid form with age 25 and a one-day schedule is accepted on any day from which
      its 1995 birth date lies within the five-year window, that is from 1990-12-11 on. */
  lemma ValidFormAccepted(e: Entries, today: int)
    requires e.firstName == "Ada" && e.lastName == "Lovelace" && e.email == "ada@example.com"
    requires e.phone == "(555) 123-4567" && e.age == 25
    requires e.birthDate == Calendar.Ordinal(1995, 12, 10)
    requires e.startDate == Calendar.Ordinal(2024, 1, 1) && e.endDate == Calendar.Ordinal(2024, 1, 2)
    requires today >= Calendar.Ordinal(1990, 12, 11)
    ensures AllPass(Checks(e, today))
  {
    SampleTextPasses(e.firstName, e.lastName, e.email, e.phone);
    Calendar.OrdinalExamples();
    AllPassIff(e, today);
  }

  /** The text fields of the valid sample form pass their validators. */
  lemma SampleTextPasses(first: string, last: string, email: string, phone: string)
    requires first == "Ada" && last == "Lovelace" && email == "ada@example.com"
    requires phone == "(555) 123-4567"
    ensures ValidateName(first, "First name").ok && ValidateName(last, "Last name").ok
    ensures ValidateEmail(email).ok && ValidatePhone(phone).ok
  {
    NameAcceptsExamples();
    EmailAcceptsPlainAddress();
    PhoneAcceptsHelpFormat();
  }

  /** A submit is accepted exactly when each of the seven checks passes. */
  lemma AllPassIff(e: Entries, today: int)
    ensures AllPass(Checks(e, today)) <==>
      ValidateName(e.firstName, "First name").ok && ValidateName(e.lastName, "Last name").ok &&
      ValidateEmail(e.email).ok && ValidatePhone(e.phone).ok && ValidateAge(Whole(e.age)).ok &&
      ValidateDate(e.birthDate, today).ok && e.startDate < e.endDate
  {
    var c := Checks(e, today);
    if c[0].ok && c[1].ok && c[2].ok && c[3].ok && c[4].ok && c[5].ok && c[6].ok {
      forall i | 0 <= i < |c|
        ensures c[i].ok
      {
      }
    }
  }

  /** A reversed schedule is refused and the range message is reported. */
  lemma ReversedRangeRefused(e: Entries, today: int)
    requires e.startDate == Calendar.Ordinal(2024, 2, 1) && e.endDate == Calendar.Ordinal(2024, 1, 1)
    ensures !AllPass(Checks(e, today)) && RangeMessage in Failures(Checks(e, today))
  {
    RangeReportedLast(e, today);
  }
}
