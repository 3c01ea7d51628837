/** The self-registration form of the web app
    (frontend/src/pages/Auth/RegistrationForm.jsx): its validation rules,
    the account it sends to `/auth/register/`, and how the server's field
    errors are put back on the form. */
module Registration {
  import opened Common
  import Text

  /** The form's fields, by their Formik names. */
  const FormFields: set<string> :=
    {"username", "firstname", "lastname", "email", "password1", "password2", "buildingId"}

  datatype FormValues = FormValues(
    username: string, firstname: string, lastname: string, email: string,
    password1: string, password2: string, buildingId: nat)

  /** The body of `POST /auth/register/`. */
  datatype UserData = UserData(
    username: string, email: string, password: string, password2: string,
    firstName: string, lastName: string, buildingIds: seq<nat>)

  function ToUserData(v: FormValues): (d: UserData)
    ensures d.password == v.password1 && d.password2 == v.password2
    ensures d.firstName == v.firstname && d.lastName == v.lastname
    ensures d.buildingIds == [v.buildingId]
    ensures d.username == v.username && d.email == v.email
  {
    UserData(v.username, v.email, v.password1, v.password2, v.firstname, v.lastname, [v.buildingId])
  }

  // ---------------------------------------------------------------------
  // Validation

  predicate IsLowerAscii(c: char) { 'a' <= c <= 'z' }
  predicate IsUpperAscii(c: char) { 'A' <= c <= 'Z' }
  predicate IsDigit(c: char) { '0' <= c <= '9' }
  predicate IsSpecial(c: char) { c in {'@', '$', '!', '%', '*', '?', '&'} }

  predicate Has(s: string, p: char -> bool) {
    exists i :: 0 <= i < |s| && p(s[i])
  }

  /** The message shown under the password, the first rule it breaks in the
      schema's order, or none when it is acceptable. */
  function PasswordError(p: string): (e: Option<string>)
    ensures e.None? <==>
      |p| >= 8 && Has(p, IsLowerAscii) && Has(p, IsUpperAscii) && Has(p, IsDigit) && Has(p, IsSpecial)
  {
    if p == "" then Some("Password is required")
    else if |p| < 8 then Some("Password must be at least 8 characters long")
    else if !Has(p, IsLowerAscii) then Some("Password must contain at least one lowercase letter")
    else if !Has(p, IsUpperAscii) then Some("Password must contain at least one uppercase letter")
    else if !Has(p, IsDigit) then Some("Password must contain at least one digit")
    else if !Has(p, IsSpecial) then Some("Password must contain at least one special character")
    else None
  }

  /** The confirmation must be given and equal the password. */
  function ConfirmError(p1: string, p2: string): (e: Option<string>)
    ensures e.None? <==> p2 != "" && p2 == p1
  {
    if p2 == "" then Some("Please confirm your password")
    else if p2 != p1 then Some("Passwords must match")
    else None
  }

  /** The password the form's own test types in is accepted. */
  lemma SamplePasswordAccepted()
    ensures PasswordError("Test123!") == None
    ensures ConfirmError("Test123!", "Test123!") == None
  {
    assert IsLowerAscii("Test123!"[1]) && IsUpperAscii("Test123!"[0]);
    assert IsDigit("Test123!"[4]) && IsSpecial("Test123!"[7]);
  }

  /** An accepted password never has fewer than 8 characters. */
  lemma AcceptedPasswordLength(p: string)
    requires PasswordError(p) == None
    ensures |p| >= 8
  {
  }

  predicate LocalChar(c: char) { IsLowerAscii(c) || IsUpperAscii(c) || IsDigit(c) || c in {'_', '.', '+', '-'} }
  predicate LabelChar(c: char) { IsLowerAscii(c) || IsUpperAscii(c) || IsDigit(c) || c == '-' }
  predicate TailChar(c: char) { LabelChar(c) || c == '.' }

  predicate AllChars(s: string, p: char -> bool) {
    forall i :: 0 <= i < |s| ==> p(s[i])
  }

  /** `^[a-zA-Z0-9_.+-]+@[a-zA-Z0-9-]+\.[a-zA-Z0-9-.]+$`: the local part
      holds no `@` and the first domain label no `.`, so the pattern has one
      way to match, split at the first `@` and the first `.` after it. */
  predicate EmailValid(s: string) {
    var at := Text.IndexOf(s, "@");
    at > 0 &&
    var local, domain := s[..at], s[at + 1..];
    var dot := Text.IndexOf(domain, ".");
    dot > 0 && dot + 1 < |domain|
    && AllChars(local, LocalChar)
    && AllChars(domain[..dot], LabelChar)
    && AllChars(domain[dot + 1..], TailChar)
  }

  /** An address the form accepts has a non-empty name before its `@` and a
      dotted domain after it. */
  lemma EmailShape(s: string)
    requires EmailValid(s)
    ensures exists i :: 0 < i < |s| && s[i] == '@' && s[..i] != [] && Text.Contains(s[i + 1..], ".")
  {
    var at := Text.IndexOf(s, "@");
    assert s[at..at + 1] == "@";
    var domain := s[at + 1..];
    var dot := Text.IndexOf(domain, ".");
    assert Text.IndexOf(domain, ".") != -1;
  }

  // ---------------------------------------------------------------------
  // Server errors back on the form

  /** The form field an error under a server key is put on, as written:
      the name errors go to `first_name` and `last_name`, which are not
      fields of the form. */
  function FieldForKeyAsWritten(key: string): Option<string> {
    if key == "username" then Some("username")
    else if key == "email" then Some("email")
    else if key == "password" then Some("password1")
    else if key == "first_name" then Some("first_name")
    else if key == "last_name" then Some("last_name")
    else if key == "building_ids" then Some("buildingId")
    else if key == "password2" then Some("password2")
    else None
  }

  /** A name error from the server lands on no field of the form, so it is
      never shown. */
  lemma NameErrorsLostAsWritten()
    ensures FieldForKeyAsWritten("first_name").Some? && FieldForKeyAsWritten("first_name").value !in FormFields
    ensures FieldForKeyAsWritten("last_name").Some? && FieldForKeyAsWritten("last_name").value !in FormFields
  {
  }

  /** The field an error under a server key belongs on. */
  function FieldForKey(key: string): (f: Option<string>)
    ensures f.Some? ==> f.value in FormFields
    ensures f.Some? <==> key in {"username", "email", "password", "first_name", "last_name", "building_ids", "password2"}
  {
    if key == "username" then Some("username")
    else if key == "email" then Some("email")
    else if key == "password" then Some("password1")
    else if key == "first_name" then Some("firstname")
    else if key == "last_name" then Some("lastname")
    else if key == "building_ids" then Some("buildingId")
    else if key == "password2" then Some("password2")
    else None
  }

  /** The message set for a server key: the building error has its own
      text; every other key shows the first message the server gave (none,
      and so a cleared error, for an empty list). */
  function MessageFor(key: string, messages: seq<string>): Option<string> {
    if key == "building_ids" then Some("The selected building no longer exists")
    else if messages == [] then None
    else Some(messages[0])
  }

  /** The form's errors after `setFieldError` for every server entry in
      order; keys the form does not know are only logged. */
  function ApplyErrors(errors: map<string, Option<string>>, details: seq<(string, seq<string>)>): (r: map<string, Option<string>>)
    ensures forall f :: f in r ==> f in errors || f in FormFields
    ensures forall f :: f in errors ==> f in r
    decreases |details|
  {
    if details == [] then errors
    else
      var (key, messages) := details[0];
      var field := FieldForKey(key);
      var next := if field.Some? then errors[field.value := MessageFor(key, messages)] else errors;
      ApplyErrors(next, details[1..])
  }

  /** A server error for any known key is shown on the form: the field it
      belongs on holds its message, unless a later entry for the same field
      replaced it. */
  lemma {:induction false} LastErrorShown(errors: map<string, Option<string>>, details: seq<(string, seq<string>)>, k: nat)
    requires k < |details| && FieldForKey(details[k].0).Some?
    requires forall j :: k < j < |details| ==> FieldForKey(details[j].0) != FieldForKey(details[k].0)
    ensures FieldForKey(details[k].0).value in ApplyErrors(errors, details)
    ensures ApplyErrors(errors, details)[FieldForKey(details[k].0).value] == MessageFor(details[k].0, details[k].1)
    decreases |details|
  {
    var (key, messages) := details[0];
    var field := FieldForKey(key);
    var next := if field.Some? then errors[field.value := MessageFor(key, messages)] else errors;
    if k == 0 {
      UntouchedKept(next, details[1..], FieldForKey(details[0].0).value);
    } else {
      LastErrorShown(next, details[1..], k - 1);
    }
  }

  /** Entries for other fields leave a field's error alone. */
  lemma {:induction false} UntouchedKept(errors: map<string, Option<string>>, details: seq<(string, seq<string>)>, f: string)
    requires f in errors
    requires forall j :: 0 <= j < |details| ==> FieldForKey(details[j].0) != Some(f)
    ensures f in ApplyErrors(errors, details) && ApplyErrors(errors, details)[f] == errors[f]
    decreases |details|
  {
    if details != [] {
      var (key, messages) := details[0];
      var field := FieldForKey(key);
      var next := if field.Some? then errors[field.value := MessageFor(key, messages)] else errors;
      UntouchedKept(next, details[1..], f);
    }
  }
}
