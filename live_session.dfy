/** The session of the real-time form (form_validation2.py): the widget values, the `*_valid`
    flags every render writes, the submitted flag, the status list `get_validation_status`
    builds from them, and the submit and clear buttons. */
module LiveSession {

  import opened Validity
  import opened Optional
  import opened LiveRules

  /** The values the widgets keep under their keys in the session state. A missing key reads as
      `get` reads it: `''` for text, 0 for the age and `None` for a date. */
  datatype Widgets = Widgets(
    firstName: string, lastName: string, email: string, phone: string,
    age: int, birthDate: Option<int>, startDate: Option<int>, endDate: Option<int>)

  /** The `*_valid` keys; a missing key reads `False`. */
  datatype Flags = Flags(
    firstName: bool, lastName: bool, email: bool, phone: bool,
    age: bool, birthDate: bool, startDate: bool, endDate: bool)

  /** What an empty session state reads. */
  const Blank: Widgets := Widgets("", "", "", "", 0, None, None, None)

  const NoFlags: Flags := Flags(false, false, false, false, false, false, false, false)

  /** What the widgets show on the first render after the session state was emptied: empty
      text, the age widget's minimum 0, and today in every date widget. */
  function Defaults(today: int): Widgets {
    Widgets("", "", "", "", 0, Some(today), Some(today), Some(today))
  }

  const RangeMessage := "Start date must be before end date"

  /** The verdicts of the six field validators. */
  datatype Checks = Checks(
    firstName: Verdict, lastName: Verdict, email: Verdict, phone: Verdict,
    age: Verdict, birthDate: Verdict)

  predicate Sound(c: Checks) {
    WellFormed(c.firstName) && WellFormed(c.lastName) && WellFormed(c.email) &&
    WellFormed(c.phone) && WellFormed(c.age) && WellFormed(c.birthDate)
  }

  /** Every field's validator run on the field's value; `today` is `date.today()`. */
  function Run(w: Widgets, today: int): (c: Checks)
    ensures Sound(c)
  {
    Checks(ValidateName(w.firstName, "First name"), ValidateName(w.lastName, "Last name"),
           ValidateEmail(w.email), ValidatePhone(w.phone), ValidateAge(w.age),
           ValidateDate(w.birthDate, today))
  }

  /** The range flags after a run: both follow the order of the dates when both dates are
      present, and keep their old values otherwise. */
  predicate RangeWritten(w: Widgets, before: Flags, after: Flags) {
    if w.startDate.Some? && w.endDate.Some? then
      after.startDate == after.endDate == (w.startDate.value < w.endDate.value)
    else
      after.startDate == before.startDate && after.endDate == before.endDate
  }

  /** The date-range section of a run: both flags follow the order of the dates when both are
      present, and are left alone otherwise. */
  method WriteRange(w: Widgets, startBefore: bool, endBefore: bool) returns (startDate: bool, endDate: bool)
    ensures w.startDate.Some? && w.endDate.Some? ==>
      startDate == endDate == (w.startDate.value < w.endDate.value)
    ensures !(w.startDate.Some? && w.endDate.Some?) ==> startDate == startBefore && endDate == endBefore
  {
    startDate, endDate := startBefore, endBefore;
    if w.startDate.Some? && w.endDate.Some? {
      if w.startDate.value >= w.endDate.value {
        startDate, endDate := false, false;
      } else {
        startDate, endDate := true, true;
      }
    }
  }

  /** The flag writes of one run, given the verdicts `c` of the field validators: a field's flag
      is its verdict when its value is given and lowered otherwise; the range flags are written
      only when both dates are present. */
  method WriteFlags(w: Widgets, c: Checks, before: Flags) returns (after: Flags)
    ensures Agrees(w, after, c)
    ensures RangeWritten(w, before, after)
  {
    var firstName, lastName, email, phone, age, birthDate: bool;
    if w.firstName != "" {
      firstName := c.firstName.ok;
    } else {
      firstName := false;
    }
    if w.lastName != "" {
      lastName := c.lastName.ok;
    } else {
      lastName := false;
    }
    if w.email != "" {
      email := c.email.ok;
    } else {
      email := false;
    }
    if w.phone != "" {
      phone := c.phone.ok;
    } else {
      phone := false;
    }
    if w.age > 0 {
      age := c.age.ok;
    } else {
      age := false;
    }
    if w.birthDate.Some? {
      birthDate := c.birthDate.ok;
    } else {
      birthDate := false;
    }
    var startDate, endDate := WriteRange(w, before.startDate, before.endDate);
    after := Flags(firstName, lastName, email, phone, age, birthDate, startDate, endDate);
  }

  /** One block of `get_validation_status`: the field's flag, whether its value counts as
      given, its validator's verdict on that value, and its required message. */
  datatype Field = Field(valid: bool, present: bool, verdict: Verdict, required: string)

  /** What one block appends: nothing while the flag is set; otherwise the required message
      when the value is not given, and the validator's message when it fails. */
  function Slot(x: Field): seq<string> {
    if x.valid then [] else if x.present then Report(x.verdict) else [x.required]
  }

  /** The blocks' messages, in order. */
  function Collect(fs: seq<Field>): seq<string> {
    if fs == [] then [] else Collect(fs[..|fs| - 1]) + Slot(fs[|fs| - 1])
  }

  /** Both dates are present and the start is not before the end. */
  predicate Reversed(w: Widgets) {
    w.startDate.Some? && w.endDate.Some? && w.startDate.value >= w.endDate.value
  }

  /** The six field blocks in the order of the form; the age counts as given when positive. */
  function Fields(w: Widgets, f: Flags, c: Checks): seq<Field> {
    [Field(f.firstName, w.firstName != "", c.firstName, "First name is required"),
     Field(f.lastName, w.lastName != "", c.lastName, "Last name is required"),
     Field(f.email, w.email != "", c.email, "Email is required"),
     Field(f.phone, w.phone != "", c.phone, "Phone number is required"),
     Field(f.age, w.age > 0, c.age, "Age is required"),
     Field(f.birthDate, w.birthDate.Some?, c.birthDate, "Birth date is required")]
  }

  /** The field blocks' messages, then the range message when the dates are reversed. */
  function Assemble(w: Widgets, f: Flags, c: Checks): seq<string> {
    Collect(Fields(w, f, c)) + (if Reversed(w) then [RangeMessage] else [])
  }

  /** `get_validation_status()`. */
  function Status(w: Widgets, f: Flags, today: int): seq<string> {
    Assemble(w, f, Run(w, today))
  }

  /** Each of the six flags is set exactly when its value is given and its verdict passes. */
  predicate Agrees(w: Widgets, f: Flags, c: Checks) {
    f.firstName == (w.firstName != "" && c.firstName.ok) &&
    f.lastName == (w.lastName != "" && c.lastName.ok) &&
    f.email == (w.email != "" && c.email.ok) &&
    f.phone == (w.phone != "" && c.phone.ok) &&
    f.age == (w.age > 0 && c.age.ok) &&
    f.birthDate == (w.birthDate.Some? && c.birthDate.ok)
  }

  /** The flags a render leaves for the six validated fields. */
  predicate Current(w: Widgets, f: Flags, today: int) {
    Agrees(w, f, Run(w, today))
  }

  predicate AllSet(f: Flags) {
    f.firstName && f.lastName && f.email && f.phone && f.age && f.birthDate
  }

  /** Every message in `s` has at least one character. */
  predicate NoEmptyMessage(s: seq<string>) {
    forall i :: 0 <= i < |s| ==> |s[i]| > 0
  }

  /** A block whose verdict is well formed and whose required message is not empty. */
  predicate SoundField(x: Field) {
    WellFormed(x.verdict) && x.required != ""
  }

  /** A block whose flag was written from its value and verdict. */
  predicate AgreeingField(x: Field) {
    x.valid == (x.present && x.verdict.ok)
  }

  // ---------------------------------------------------------------- collecting blocks

  /** Six blocks append their slots in order. */
  lemma CollectSix(fs: seq<Field>)
    requires |fs| == 6
    ensures Collect(fs) == Slot(fs[0]) + Slot(fs[1]) + Slot(fs[2]) + Slot(fs[3]) + Slot(fs[4]) + Slot(fs[5])
  {
    assert Collect(fs[..1]) == Slot(fs[0]) by {
      assert fs[..1][..0] == [];
    }
    assert Collect(fs[..2]) == Collect(fs[..1]) + Slot(fs[1]) by {
      assert fs[..2][..1] == fs[..1];
    }
    assert Collect(fs[..3]) == Collect(fs[..2]) + Slot(fs[2]) by {
      assert fs[..3][..2] == fs[..2];
    }
    assert Collect(fs[..4]) == Collect(fs[..3]) + Slot(fs[3]) by {
      assert fs[..4][..3] == fs[..3];
    }
    assert Collect(fs[..5]) == Collect(fs[..4]) + Slot(fs[4]) by {
      assert fs[..5][..4] == fs[..4];
    }
    assert Collect(fs) == Collect(fs[..5]) + Slot(fs[5]) by {
      assert fs[..5] == fs[..|fs| - 1];
    }
  }

  /** Each block adds at most one message, and never an empty one. */
  lemma {:induction false} CollectShape(fs: seq<Field>)
    requires forall i :: 0 <= i < |fs| ==> SoundField(fs[i])
    ensures |Collect(fs)| <= |fs| && NoEmptyMessage(Collect(fs))
  {
    if fs != [] {
      var init := fs[..|fs| - 1];
      assert forall i :: 0 <= i < |init| ==> init[i] == fs[i];
      CollectShape(init);
      assert SoundField(fs[|fs| - 1]);
    }
  }

  /** With every flag written from its value, the blocks add nothing exactly when every flag is
      set. */
  lemma {:induction false} CollectEmptyIff(fs: seq<Field>)
    requires forall i :: 0 <= i < |fs| ==> SoundField(fs[i]) && AgreeingField(fs[i])
    ensures Collect(fs) == [] <==> forall i :: 0 <= i < |fs| ==> fs[i].valid
  {
    if fs != [] {
      var init := fs[..|fs| - 1];
      assert forall i :: 0 <= i < |init| ==> init[i] == fs[i];
      CollectEmptyIff(init);
      var last := fs[|fs| - 1];
      assert SoundField(last) && AgreeingField(last);
      if forall i :: 0 <= i < |init| ==> init[i].valid {
        if last.valid {
          forall i | 0 <= i < |fs|
            ensures fs[i].valid
          {
            if i < |init| {
              assert init[i].valid;
            }
          }
        }
      }
    }
  }

  /** A message that no block can add is not among the blocks' messages. */
  lemma {:induction false} CollectAvoids(fs: seq<Field>, m: string)
    requires forall i :: 0 <= i < |fs| ==>
      fs[i].required != m && (!fs[i].verdict.ok ==> fs[i].verdict.message != m)
    ensures m !in Collect(fs)
  {
    if fs != [] {
      var init := fs[..|fs| - 1];
      assert forall i :: 0 <= i < |init| ==> init[i] == fs[i];
      CollectAvoids(init, m);
      var last := fs[|fs| - 1];
      assert last.required != m && (!last.verdict.ok ==> last.verdict.message != m);
    }
  }

  // ---------------------------------------------------------------- assembling verdicts

  lemma FieldsSound(w: Widgets, f: Flags, c: Checks)
    requires Sound(c)
    ensures forall i :: 0 <= i < |Fields(w, f, c)| ==> SoundField(Fields(w, f, c)[i])
  {
  }

  lemma FieldsAgree(w: Widgets, f: Flags, c: Checks)
    requires Agrees(w, f, c)
    ensures forall i :: 0 <= i < |Fields(w, f, c)| ==> AgreeingField(Fields(w, f, c)[i])
  {
  }

  lemma AssembleShape(w: Widgets, f: Flags, c: Checks)
    requires Sound(c)
    ensures |Assemble(w, f, c)| <= 7 && NoEmptyMessage(Assemble(w, f, c))
  {
    FieldsSound(w, f, c);
    CollectShape(Fields(w, f, c));
  }

  lemma AssembleEmptyIff(w: Widgets, f: Flags, c: Checks)
    requires Sound(c) && Agrees(w, f, c)
    ensures Assemble(w, f, c) == [] <==> AllSet(f) && !Reversed(w)
  {
    var fs := Fields(w, f, c);
    FieldsSound(w, f, c);
    FieldsAgree(w, f, c);
    CollectEmptyIff(fs);
    assert AllSet(f) <==> forall i :: 0 <= i < |fs| ==> fs[i].valid by {
      if AllSet(f) {
        assert forall i :: 0 <= i < |fs| ==> fs[i].valid;
      }
      if forall i :: 0 <= i < |fs| ==> fs[i].valid {
        assert fs[0].valid && fs[1].valid && fs[2].valid && fs[3].valid && fs[4].valid && fs[5].valid;
      }
    }
  }

  lemma AssembleAgreeing(w: Widgets, f: Flags, c: Checks)
    requires Agrees(w, f, c)
    ensures Assemble(w, f, c) ==
      (if w.firstName != "" then Report(c.firstName) else ["First name is required"]) +
      (if w.lastName != "" then Report(c.lastName) else ["Last name is required"]) +
      (if w.email != "" then Report(c.email) else ["Email is required"]) +
      (if w.phone != "" then Report(c.phone) else ["Phone number is required"]) +
      (if w.age > 0 then Report(c.age) else ["Age is required"]) +
      (if w.birthDate.Some? then Report(c.birthDate) else ["Birth date is required"]) +
      (if Reversed(w) then [RangeMessage] else [])
  {
    var fs := Fields(w, f, c);
    CollectSix(fs);
    assert Slot(fs[0]) == if w.firstName != "" then Report(c.firstName) else ["First name is required"];
    assert Slot(fs[1]) == if w.lastName != "" then Report(c.lastName) else ["Last name is required"];
    assert Slot(fs[2]) == if w.email != "" then Report(c.email) else ["Email is required"];
    assert Slot(fs[3]) == if w.phone != "" then Report(c.phone) else ["Phone number is required"];
    assert Slot(fs[4]) == if w.age > 0 then Report(c.age) else ["Age is required"];
    assert Slot(fs[5]) == if w.birthDate.Some? then Report(c.birthDate) else ["Birth date is required"];
  }

  /** No failing verdict carries the message `m`. */
  predicate Avoids(c: Checks, m: string) {
    (!c.firstName.ok ==> c.firstName.message != m) && (!c.lastName.ok ==> c.lastName.message != m) &&
    (!c.email.ok ==> c.email.message != m) && (!c.phone.ok ==> c.phone.message != m) &&
    (!c.age.ok ==> c.age.message != m) && (!c.birthDate.ok ==> c.birthDate.message != m)
  }

  lemma AssembleRangeLast(w: Widgets, f: Flags, c: Checks)
    requires Avoids(c, RangeMessage)
    ensures var s := Assemble(w, f, c);
      Reversed(w) <==> |s| > 0 && s[|s| - 1] == RangeMessage
  {
    var fs := Fields(w, f, c);
    assert forall i :: 0 <= i < |fs| ==>
      fs[i].required != RangeMessage && (!fs[i].verdict.ok ==> fs[i].verdict.message != RangeMessage) by {
      assert RangeMessage[0] == 'S';
    }
    CollectAvoids(fs, RangeMessage);
    var fields := Collect(fs);
    if !Reversed(w) && |fields| > 0 {
      assert fields[|fields| - 1] in fields;
    }
  }

  // ---------------------------------------------------------------- the validators' verdicts

  /** A failing name's message starts with the field's name, so it is never the range
      message. */
  lemma NameNeverRange(name: string, fieldName: string)
    requires fieldName != "" && fieldName[0] != 'S'
    ensures var v := ValidateName(name, fieldName); !v.ok ==> v.message != RangeMessage
  {
    NameMessageStart(name, fieldName);
    assert RangeMessage[0] == 'S';
  }

  /** The other validators' messages all differ from the range message. */
  lemma OthersNeverRange(email: string, phone: string, age: int, d: Option<int>, today: int)
    ensures var v := ValidateEmail(email); !v.ok ==> v.message != RangeMessage
    ensures var v := ValidatePhone(phone); !v.ok ==> v.message != RangeMessage
    ensures var v := ValidateAge(age); !v.ok ==> v.message != RangeMessage
    ensures var v := ValidateDate(d, today); !v.ok ==> v.message != RangeMessage
  {
    assert RangeMessage[0] == 'S';
  }

  lemma RunAvoidsRange(w: Widgets, today: int)
    ensures Avoids(Run(w, today), RangeMessage)
  {
    NameNeverRange(w.firstName, "First name");
    NameNeverRange(w.lastName, "Last name");
    OthersNeverRange(w.email, w.phone, w.age, w.birthDate, today);
  }

  /** An empty text field's validator reports exactly that field's required message. */
  lemma EmptyTextRequired()
    ensures Report(ValidateName("", "First name")) == ["First name is required"]
    ensures Report(ValidateName("", "Last name")) == ["Last name is required"]
    ensures Report(ValidateEmail("")) == ["Email is required"]
    ensures Report(ValidatePhone("")) == ["Phone number is required"]
  {
    assert "First name" + " is required" == "First name is required";
    assert "Last name" + " is required" == "Last name is required";
  }

  // ---------------------------------------------------------------- status

  /** At most one message per slot, so at most seven, and none of them is empty. */
  lemma StatusShape(w: Widgets, f: Flags, today: int)
    ensures |Status(w, f, today)| <= 7
    ensures NoEmptyMessage(Status(w, f, today))
  {
    AssembleShape(w, f, Run(w, today));
  }

  /** The range message is reported, last, exactly when both dates are present and the start is
      not before the end. */
  lemma RangeReportedLast(w: Widgets, f: Flags, today: int)
    ensures var s := Status(w, f, today);
      Reversed(w) <==> |s| > 0 && s[|s| - 1] == RangeMessage
  {
    RunAvoidsRange(w, today);
    AssembleRangeLast(w, f, Run(w, today));
  }

  /** Under current flags the status is empty exactly when all six flags are set and the dates
      are not reversed: that is when a submit goes through. */
  lemma StatusEmptyIff(w: Widgets, f: Flags, today: int)
    requires Current(w, f, today)
    ensures Status(w, f, today) == [] <==> AllSet(f) && !Reversed(w)
  {
    AssembleEmptyIff(w, f, Run(w, today));
  }

  /** Under current flags the status is what running every validator on the current values
      reports, except that an age of 0 or less reports "Age is required" and a missing birth
      date "Birth date is required" instead of the validators' own messages. */
  lemma StatusFromValidators(w: Widgets, f: Flags, today: int)
    requires Current(w, f, today)
    ensures Status(w, f, today) ==
      Report(ValidateName(w.firstName, "First name")) +
      Report(ValidateName(w.lastName, "Last name")) +
      Report(ValidateEmail(w.email)) +
      Report(ValidatePhone(w.phone)) +
      (if w.age > 0 then Report(ValidateAge(w.age)) else ["Age is required"]) +
      (if w.birthDate.Some? then Report(ValidateDate(w.birthDate, today)) else ["Birth date is required"]) +
      (if Reversed(w) then [RangeMessage] else [])
  {
    AssembleAgreeing(w, f, Run(w, today));
    EmptyTextRequired();
  }

  /** The status trusts a set flag: while the first-name flag is set, neither the first name
      nor its verdict affects the status. */
  lemma SetFlagHidesField(w: Widgets, f: Flags, c: Checks, name: string, v: Verdict)
    requires f.firstName
    ensures Assemble(w.(firstName := name), f, c.(firstName := v)) == Assemble(w, f, c)
  {
    CollectSix(Fields(w, f, c));
    CollectSix(Fields(w.(firstName := name), f, c.(firstName := v)));
  }

  /** An emptied session reads as current, and its status is the six required messages. */
  lemma BlankStatus(today: int)
    ensures Current(Blank, NoFlags, today)
    ensures Status(Blank, NoFlags, today) ==
      ["First name is required", "Last name is required", "Email is required",
       "Phone number is required", "Age is required", "Birth date is required"]
  {
    CollectSix(Fields(Blank, NoFlags, Run(Blank, today)));
  }

  /** The untouched form, rendered after the session state was emptied, shows today as the
      birth date, which passes, and the same day as start and end, which is a reversed range. */
  lemma UntouchedStatus(f: Flags, today: int)
    requires Current(Defaults(today), f, today)
    ensures Status(Defaults(today), f, today) ==
      ["First name is required", "Last name is required", "Email is required",
       "Phone number is required", "Age is required", RangeMessage]
  {
    var w := Defaults(today);
    assert f.birthDate by {
      DateAccepted(w.birthDate, today);
    }
    CollectSix(Fields(w, f, Run(w, today)));
  }

  // ---------------------------------------------------------------- session

  /** One block of `get_validation_status`: a set flag adds nothing; otherwise a value that is
      not given adds the required message, and a given one its verdict's message when it fails. */
  method AppendBlock(messages: seq<string>, x: Field) returns (r: seq<string>)
    ensures r == messages + Slot(x)
  {
    r := messages;
    if !x.valid {
      if x.present {
        if !x.verdict.ok {
          r := r + [x.verdict.message];
        }
      } else {
        r := r + [x.required];
      }
    }
  }

  /** `st.session_state` as the form uses it. */
  class Session {

    var values: Widgets
    var flags: Flags
    var submitted: bool

    /** A new session: no key is set yet, and the first run initialises `form_submitted`. */
    constructor ()
      ensures values == Blank && flags == NoFlags && !submitted
    {
      values := Blank;
      flags := NoFlags;
      submitted := false;
    }

    /** One run of the form: the widgets hold `w`, and the flags are written as the form's
        sections write them. */
    method Render(w: Widgets, today: int)
      modifies this
      ensures values == w && submitted == old(submitted)
      ensures Current(values, flags, today)
      ensures RangeWritten(w, old(flags), flags)
    {
      values := w;
      flags := WriteFlags(w, Run(w, today), flags);
    }

    /** `get_validation_status()`: the six field blocks in the order of the form, then the
        range check. */
    method GetValidationStatus(today: int) returns (messages: seq<string>)
      ensures messages == Status(values, flags, today)
    {
      var fs := Fields(values, flags, Run(values, today));
      messages := AppendBlock([], fs[0]);
      messages := AppendBlock(messages, fs[1]);
      messages := AppendBlock(messages, fs[2]);
      messages := AppendBlock(messages, fs[3]);
      messages := AppendBlock(messages, fs[4]);
      messages := AppendBlock(messages, fs[5]);
      CollectSix(fs);
      assert [] + Slot(fs[0]) == Slot(fs[0]);
      assert messages == Collect(fs) == messages + [];
      var start := values.startDate;
      var end := values.endDate;
      if start.Some? && end.Some? && start.value >= end.value {
        messages := messages + [RangeMessage];
      }
    }

    /** Building the status changes nothing, so asking twice gives the same list. */
    method StatusTwice(today: int) returns (first: seq<string>, second: seq<string>)
      ensures first == second
    {
      first := GetValidationStatus(today);
      second := GetValidationStatus(today);
    }

    /** The submit button: the submitted flag is raised when the status is empty and otherwise
        left as it was; the messages are what the form shows. */
    method Submit(today: int) returns (messages: seq<string>)
      modifies this
      ensures messages == Status(values, flags, today)
      ensures values == old(values) && flags == old(flags)
      ensures submitted == (old(submitted) || messages == [])
    {
      messages := GetValidationStatus(today);
      if messages == [] {
        submitted := true;
      }
    }

    /** The sidebar's clear button: every key of the session state is deleted, so every value
        and flag reads its default, and the next run sets `form_submitted` back to `False`. */
    method Clear()
      modifies this
      ensures values == Blank && flags == NoFlags && !submitted
    {
      values := Blank;
      flags := NoFlags;
      submitted := false;
    }
  }

  /** Every field holds a value its validator accepts, and the dates are not reversed. */
  predicate Acceptable(w: Widgets, today: int) {
    var c := Run(w, today);
    w.firstName != "" && c.firstName.ok && w.lastName != "" && c.lastName.ok &&
    w.email != "" && c.email.ok && w.phone != "" && c.phone.ok &&
    w.age > 0 && c.age.ok && w.birthDate.Some? && c.birthDate.ok && !Reversed(w)
  }

  /** Under current flags, all six flags are set and the range holds exactly when the values
      are acceptable. */
  lemma CurrentAllSet(w: Widgets, f: Flags, today: int)
    requires Current(w, f, today)
    ensures AllSet(f) && !Reversed(w) <==> Acceptable(w, today)
  {
  }

  /** A render followed by a submit on the same day: the session holds the widgets' values and
      the flags the render wrote, and the submit goes through exactly when every field holds a
      value its validator accepts and the dates are not reversed. */
  method RenderThenSubmit(s: Session, w: Widgets, today: int) returns (messages: seq<string>)
    modifies s
    ensures s.values == w && Current(w, s.flags, today) && RangeWritten(w, old(s.flags), s.flags)
    ensures messages == Status(w, s.flags, today)
    ensures messages == [] <==> Acceptable(w, today)
    ensures s.submitted == (old(s.submitted) || Acceptable(w, today))
  {
    s.Render(w, today);
    messages := s.Submit(today);
    StatusEmptyIff(s.values, s.flags, today);
    CurrentAllSet(w, s.flags, today);
  }
}
