/** The per-field checks of the vanilla-JavaScript portal (`script.js`):
    `validateField` and the section check built on them
    (`validateCurrentSection`). The DOM field is reduced to the attributes the
    checks read. */
module FieldValidation {
  import opened Common
  import opened JsText

  datatype InputType = EmailInput | TelInput | OtherInput

  /** A form control: its `type`, `name`, whether it carries `required`,
      its raw value, and the value of the selected `idType` radio button, if
      any. */
  datatype Field = Field(inputType: InputType, name: string, required: bool, value: string, idType: Option<string>)

  /** The message `validateField` leaves; `NoError` when the field passed. */
  datatype FieldError = NoError | RequiredMissing | BadEmail | BadPhone | BadIdNumber

  datatype Check = Check(valid: bool, message: FieldError)

  /** One of the three parts of an address: non-empty, without white space
      or `@` (the class `[^\s@]+`). */
  predicate EmailPart(s: string) {
    |s| > 0 && forall i :: 0 <= i < |s| ==> !IsJsSpace(s[i]) && s[i] != '@'
  }

  /** `/^[^\s@]+@[^\s@]+\.[^\s@]+$/`: the text splits at an `@` and a later
      `.` into three parts of that class. */
  predicate MatchesEmailPattern(s: string) {
    exists i, j :: 0 < i < j < |s| - 1 && s[i] == '@' && s[j] == '.'
                   && EmailPart(s[..i]) && EmailPart(s[i + 1..j]) && EmailPart(s[j + 1..])
  }

  /** Position of the first `@`, or the length when there is none. */
  function FirstAt(s: string): (k: nat)
    ensures k <= |s|
    ensures k < |s| ==> s[k] == '@'
    ensures forall i :: 0 <= i < k ==> s[i] != '@'
  {
    if |s| == 0 || s[0] == '@' then 0 else FirstAt(s[1..]) + 1
  }

  /** The email check computed in one pass: split at the first `@`, both
      sides free of white space and `@`, and a dot with characters on both
      sides after the `@`. */
  predicate ValidEmail(s: string) {
    var at := FirstAt(s);
    && 0 < at < |s|
    && EmailPart(s[..at])
    && var rest := s[at + 1..];
       && EmailPart(rest)
       && exists k :: 1 <= k < |rest| - 1 && rest[k] == '.'
  }

  lemma ValidEmailMatchesPattern(s: string)
    ensures ValidEmail(s) <==> MatchesEmailPattern(s)
  {
    if ValidEmail(s) {
      ValidEmailIsMatch(s);
    }
    if MatchesEmailPattern(s) {
      var i, j :| 0 < i < j < |s| - 1 && s[i] == '@' && s[j] == '.'
                  && EmailPart(s[..i]) && EmailPart(s[i + 1..j]) && EmailPart(s[j + 1..]);
      MatchIsValidEmail(s, i, j);
    }
  }

  lemma ValidEmailIsMatch(s: string)
    requires ValidEmail(s)
    ensures MatchesEmailPattern(s)
  {
    var at := FirstAt(s);
    var rest := s[at + 1..];
    var k :| 1 <= k < |rest| - 1 && rest[k] == '.';
    var j := at + 1 + k;
    assert s[at + 1..j] == rest[..k];
    assert s[j + 1..] == rest[k + 1..];
    assert EmailPart(rest[..k]) && EmailPart(rest[k + 1..]) by {
      assert forall m :: 0 <= m < k ==> rest[..k][m] == rest[m];
      var tail := rest[k + 1..];
      assert forall m :: 0 <= m < |tail| ==> tail[m] == rest[k + 1 + m];
    }
    assert s[j] == '.';
  }

  lemma MatchIsValidEmail(s: string, i: int, j: int)
    requires 0 < i < j < |s| - 1 && s[i] == '@' && s[j] == '.'
    requires EmailPart(s[..i]) && EmailPart(s[i + 1..j]) && EmailPart(s[j + 1..])
    ensures ValidEmail(s)
  {
    assert FirstAt(s) == i by {
      assert forall m :: 0 <= m < i ==> s[..i][m] == s[m];
    }
    var rest := s[i + 1..];
    var b := s[i + 1..j];
    var c := s[j + 1..];
    assert rest == b + ['.'] + c;
    assert rest[j - i - 1] == '.';
    assert EmailPart(rest) by {
      forall m | 0 <= m < |rest| ensures !IsJsSpace(rest[m]) && rest[m] != '@' {
        if m < |b| {
          assert rest[m] == b[m];
        } else if m > |b| {
          assert rest[m] == c[m - |b| - 1];
        }
      }
    }
  }

  /** `/^(\+27|0)[0-9]{9}$/`. */
  predicate MatchesPhonePattern(s: string) {
    || (|s| == 12 && s[..3] == "+27" && AllDigits(s[3..]))
    || (|s| == 10 && s[0] == '0' && AllDigits(s[1..]))
  }

  /** The phone check: white space anywhere is ignored. */
  predicate ValidPhone(value: string) {
    MatchesPhonePattern(RemoveSpaces(value))
  }

  lemma {:induction false} RemoveSpacesConcat(a: string, b: string)
    ensures RemoveSpaces(a + b) == RemoveSpaces(a) + RemoveSpaces(b)
  {
    if |a| > 0 {
      assert (a + b)[1..] == a[1..] + b;
      RemoveSpacesConcat(a[1..], b);
    } else {
      assert a + b == b;
    }
  }

  /** Inserting white space anywhere in a phone number does not change the
      verdict. */
  lemma ValidPhoneIgnoresSpaces(a: string, gap: string, b: string)
    requires forall i :: 0 <= i < |gap| ==> IsJsSpace(gap[i])
    ensures ValidPhone(a + gap + b) == ValidPhone(a + b)
  {
    assert RemoveSpaces(a + gap + b) == RemoveSpaces(a + b) by {
      RemoveSpacesConcat(a + gap, b);
      RemoveSpacesConcat(a, gap);
      RemoveSpacesConcat(a, b);
      AllSpacesRemoved(gap);
      assert RemoveSpaces(a) + [] == RemoveSpaces(a);
    }
  }

  lemma {:induction false} AllSpacesRemoved(s: string)
    requires forall i :: 0 <= i < |s| ==> IsJsSpace(s[i])
    ensures RemoveSpaces(s) == []
  {
    if |s| > 0 {
      AllSpacesRemoved(s[1..]);
    }
  }

  /** The SA ID check as written: the UTF-16 length must be 13 and
      `/^\d+$/` must match. */
  predicate ValidSaId(value: string) {
    !(Utf16Length(value) != 13 || !(|value| > 0 && AllDigits(value)))
  }

  /** ...which is exactly thirteen ASCII digits. */
  lemma SaIdIsThirteenDigits(value: string)
    ensures ValidSaId(value) <==> |value| == 13 && AllDigits(value)
  {
    if AllDigits(value) {
      DigitsUtf16Length(value);
    }
  }

  /** Whether each of the four checks of `validateField` lets the trimmed
      value through. */
  predicate RequiredOk(f: Field) {
    !f.required || Trim(f.value) != ""
  }

  predicate EmailOk(f: Field) {
    f.inputType != EmailInput || Trim(f.value) == "" || MatchesEmailPattern(Trim(f.value))
  }

  predicate PhoneOk(f: Field) {
    f.inputType != TelInput || Trim(f.value) == "" || ValidPhone(Trim(f.value))
  }

  predicate IdOk(f: Field) {
    f.name != "idNumber" || Trim(f.value) == "" || f.idType != Some("sa-id") || ValidSaId(Trim(f.value))
  }

  /** `validateField`: the four checks run in order on the trimmed value;
      the field is valid when none fails, and the message is that of the last
      one that failed. */
  function ValidateField(f: Field): (c: Check)
    ensures c.valid <==> RequiredOk(f) && EmailOk(f) && PhoneOk(f) && IdOk(f)
    ensures c.valid <==> c.message == NoError
    ensures !IdOk(f) ==> c.message == BadIdNumber
    ensures IdOk(f) && !PhoneOk(f) ==> c.message == BadPhone
    ensures IdOk(f) && !EmailOk(f) ==> c.message == BadEmail
    ensures IdOk(f) && PhoneOk(f) && EmailOk(f) && !RequiredOk(f) ==> c.message == RequiredMissing
  {
    var value := Trim(f.value);
    ValidEmailMatchesPattern(value);
    var c0 := Check(true, NoError);
    var c1 := if f.required && value == "" then Check(false, RequiredMissing) else c0;
    var c2 := if f.inputType == EmailInput && value != "" && !ValidEmail(value) then Check(false, BadEmail) else c1;
    var c3 := if f.inputType == TelInput && value != "" && !MatchesPhonePattern(RemoveSpaces(value)) then Check(false, BadPhone) else c2;
    var c4 := if f.name == "idNumber" && value != "" && f.idType.Some? && f.idType.value == "sa-id"
                 && (Utf16Length(value) != 13 || !(|value| > 0 && AllDigits(value)))
              then Check(false, BadIdNumber) else c3;
    c4
  }

  /** The first section also needs the verified email address and phone
      number. */
  const PersonalSection: int := 1

  /** `validateCurrentSection`: every field marked `required` in the
      section must pass `validateField`, and on the first section both
      contact details must have been verified. Fields without `required`
      are not looked at, however malformed their value. */
  function ValidateSection(section: int, fields: seq<Field>, emailVerified: bool, phoneVerified: bool): (ok: bool)
    ensures ok <==> (forall i :: 0 <= i < |fields| && fields[i].required ==>
                       Trim(fields[i].value) != "" && EmailOk(fields[i]) && PhoneOk(fields[i]) && IdOk(fields[i]))
                    && (section == PersonalSection ==> emailVerified && phoneVerified)
    ensures (forall i :: 0 <= i < |fields| ==> !fields[i].required) ==>
              (ok <==> section != PersonalSection || (emailVerified && phoneVerified))
  {
    var fieldsOk := forall i :: 0 <= i < |fields| && fields[i].required ==> ValidateField(fields[i]).valid;
    fieldsOk && (section != PersonalSection || (emailVerified && phoneVerified))
  }

  /** A required field left empty, or holding only white space, keeps the
      section from being completed, whatever else is filled in. */
  lemma EmptyRequiredFieldBlocksSection(section: int, fields: seq<Field>, emailVerified: bool, phoneVerified: bool, i: int)
    requires 0 <= i < |fields| && fields[i].required
    requires forall k :: 0 <= k < |fields[i].value| ==> IsJsSpace(fields[i].value[k])
    ensures !ValidateSection(section, fields, emailVerified, phoneVerified)
    ensures ValidateField(fields[i]).message == RequiredMissing
  {
    assert Trim(fields[i].value) == [];
  }

  lemma DigitsHaveNoSpace(s: string)
    requires AllDigits(s)
    ensures NoSpace(s)
  {
    forall i | 0 <= i < |s| ensures !IsJsSpace(s[i]) {
      assert IsDigit(s[i]);
    }
  }

  /** A typical university address passes the email check. */
  lemma EmailExampleAccepted()
    ensures MatchesEmailPattern("a.b@uwc.ac.za")
  {
    var e := "a.b@uwc.ac.za";
    assert e[3] == '@' && e[7] == '.';
    assert EmailPart(e[..3]) && EmailPart(e[4..7]) && EmailPart(e[8..]);
  }

  /** A local mobile number typed in the usual 3-3-4 grouping, such as
      "082 123 4567", passes the phone check. */
  lemma GroupedLocalNumberAccepted(a: string, b: string, c: string)
    requires |a| == 3 && |b| == 3 && |c| == 4 && a[0] == '0'
    requires AllDigits(a) && AllDigits(b) && AllDigits(c)
    ensures ValidPhone(a + " " + b + " " + c)
  {
    SpacedDigits(a, b, c);
    var d := a + b + c;
    assert d[0] == '0';
    assert AllDigits(d[1..]) by {
      forall i | 1 <= i < |d| ensures IsDigit(d[i]) {
        if i < 3 { assert d[i] == a[i]; }
        else if i < 6 { assert d[i] == b[i - 3]; }
        else { assert d[i] == c[i - 6]; }
      }
    }
  }

  /** Removing the single spaces between three groups of digits joins them. */
  lemma SpacedDigits(a: string, b: string, c: string)
    requires AllDigits(a) && AllDigits(b) && AllDigits(c)
    ensures RemoveSpaces(a + " " + b + " " + c) == a + b + c
  {
    DigitsHaveNoSpace(a);
    DigitsHaveNoSpace(b);
    DigitsHaveNoSpace(c);
    AllSpacesRemoved(" ");
    RemoveSpacesConcat(a + " " + b + " ", c);
    RemoveSpacesConcat(a + " " + b, " ");
    RemoveSpacesConcat(a + " ", b);
    RemoveSpacesConcat(a, " ");
  }
}
