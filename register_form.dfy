/**
 * The registration page's client-side logic: the field validators behind
 * `validateForm`, the error clearing in `handleInputChange`, and the mapping of
 * a 422 response's error lists into one message per field. The component's
 * `formData` and `errors` state cells are the fields of `RegisterPage`.
 */
module RegisterForm {
  import opened Wrappers
  import Validation

  datatype FormData = FormData(name: string, email: string, password: string, passwordConfirmation: string)

  datatype Field = Name | Email | Password | PasswordConfirmation

  /** The field's key in `formData` and in `errors`. */
  function Key(f: Field): (k: string)
    ensures k == "name" || k == "email" || k == "password" || k == "password_confirmation"
  {
    match f
    case Name => "name"
    case Email => "email"
    case Password => "password"
    case PasswordConfirmation => "password_confirmation"
  }

  lemma KeysDistinct(f: Field, g: Field)
    ensures Key(f) == Key(g) <==> f == g
  {
  }

  function Get(data: FormData, f: Field): string
  {
    match f
    case Name => data.name
    case Email => data.email
    case Password => data.password
    case PasswordConfirmation => data.passwordConfirmation
  }

  function Set(data: FormData, f: Field, value: string): (d: FormData)
    ensures Get(d, f) == value
    ensures forall g :: g != f ==> Get(d, g) == Get(data, g)
  {
    match f
    case Name => data.(name := value)
    case Email => data.(email := value)
    case Password => data.(password := value)
    case PasswordConfirmation => data.(passwordConfirmation := value)
  }

  /** JavaScript's white space and line terminators: what `trim` strips and `\s` matches. */
  predicate IsSpace(c: char)
  {
    c == '\t' || c == '\n' || c as int == 0x0B || c as int == 0x0C || c == '\r' || c == ' ' ||
    c as int == 0xA0 || c as int == 0x1680 || (0x2000 <= c as int <= 0x200A) ||
    c as int == 0x2028 || c as int == 0x2029 || c as int == 0x202F || c as int == 0x205F ||
    c as int == 0x3000 || c as int == 0xFEFF
  }

  /** The characters regex `.` does not match. */
  predicate IsLineTerminator(c: char)
  {
    c == '\n' || c == '\r' || c as int == 0x2028 || c as int == 0x2029
  }

  predicate IsLower(c: char) { 'a' <= c <= 'z' }
  predicate IsUpper(c: char) { 'A' <= c <= 'Z' }
  predicate IsDigit(c: char) { '0' <= c <= '9' }

  function TrimStart(s: string): (r: string)
    ensures |r| <= |s| && r == s[|s| - |r|..]
    ensures r == [] || !IsSpace(r[0])
    ensures forall i :: 0 <= i < |s| - |r| ==> IsSpace(s[i])
  {
    if s != [] && IsSpace(s[0]) then TrimStart(s[1..]) else s
  }

  function TrimEnd(s: string): (r: string)
    ensures |r| <= |s| && r == s[..|r|]
    ensures r == [] || !IsSpace(r[|r| - 1])
    ensures forall i :: |r| <= i < |s| ==> IsSpace(s[i])
  {
    if s != [] && IsSpace(s[|s| - 1]) then TrimEnd(s[..|s| - 1]) else s
  }

  /** `String.prototype.trim`. */
  function Trim(s: string): string
  {
    TrimEnd(TrimStart(s))
  }

  /** The trimmed string is empty exactly when every character is white space. */
  lemma TrimEmptyIffAllSpace(s: string)
    ensures Trim(s) == [] <==> forall i :: 0 <= i < |s| ==> IsSpace(s[i])
  {
    var t := TrimStart(s);
    if Trim(s) == [] {
      assert |t| == 0;
    }
  }

  /** `/\S+@\S+\.\S+/.test(s)`: somewhere, non-space characters, '@', non-space characters, '.', a non-space character. */
  predicate LooksLikeEmail(s: string)
  {
    exists i, j :: 0 < i && i + 1 < j && j + 1 < |s| &&
      s[i] == '@' && s[j] == '.' && !IsSpace(s[i - 1]) && !IsSpace(s[j + 1]) && NoSpaceBetween(s, i, j)
  }

  predicate NoSpaceBetween(s: string, i: int, j: int)
  {
    forall m :: i < m < j && 0 <= m < |s| ==> !IsSpace(s[m])
  }

  /** From position `p`, a character satisfying the class is reached without crossing a line terminator (`(?=.*[…])`). */
  predicate AheadOnLine(s: string, p: int, lower: bool, upper: bool, digit: bool)
  {
    exists q :: 0 <= p <= q < |s| &&
      ((lower && IsLower(s[q])) || (upper && IsUpper(s[q])) || (digit && IsDigit(s[q]))) &&
      OnOneLine(s, p, q)
  }

  /** No line terminator in `s[p..q]`. */
  predicate OnOneLine(s: string, p: int, q: int)
  {
    forall m :: p <= m < q && 0 <= m < |s| ==> !IsLineTerminator(s[m])
  }

  /** `/(?=.*[a-z])(?=.*[A-Z])(?=.*\d)/.test(s)`: the three lookaheads succeed at one position. */
  predicate MixedCharacters(s: string)
  {
    exists p :: 0 <= p <= |s| &&
      AheadOnLine(s, p, true, false, false) && AheadOnLine(s, p, false, true, false) && AheadOnLine(s, p, false, false, true)
  }

  const NameRequired := "Name is required."
  const NameTooShort := "Name must be at least 2 characters."
  const EmailRequired := "Email is required."
  const EmailInvalid := "Email format is invalid."
  const PasswordRequired := "Password is required."
  const PasswordTooShort := "Password must be at least 8 characters."
  const PasswordTooSimple := "Password must contain at least one uppercase letter, one lowercase letter, and one number."
  const ConfirmationRequired := "Password confirmation is required."
  const PasswordsDiffer := "Passwords do not match."

  /** The message `validateForm` records for a field, if any; the checks of a field stop at the first failure. */
  function FieldError(data: FormData, f: Field): Option<string>
  {
    match f
    case Name =>
      var t := Trim(data.name);
      if t == [] then Some(NameRequired) else if |t| < 2 then Some(NameTooShort) else None
    case Email =>
      if data.email == [] then Some(EmailRequired) else if !LooksLikeEmail(data.email) then Some(EmailInvalid) else None
    case Password =>
      if data.password == [] then Some(PasswordRequired)
      else if |data.password| < 8 then Some(PasswordTooShort)
      else if !MixedCharacters(data.password) then Some(PasswordTooSimple)
      else None
    case PasswordConfirmation =>
      if data.passwordConfirmation == [] then Some(ConfirmationRequired)
      else if data.password != data.passwordConfirmation then Some(PasswordsDiffer)
      else None
  }

  /**
   * What each field's checks amount to: the name's trimmed length is at least
   * 2, the email looks like one, the password is 8 long and mixed, the
   * confirmation is given and equal; the first failing check names the message.
   */
  lemma FieldErrorMeaning(data: FormData)
    ensures FieldError(data, Name).Some? <==> |Trim(data.name)| < 2
    ensures Trim(data.name) == [] ==> FieldError(data, Name) == Some(NameRequired)
    ensures |Trim(data.name)| == 1 ==> FieldError(data, Name) == Some(NameTooShort)
    ensures FieldError(data, Email).Some? <==> data.email == [] || !LooksLikeEmail(data.email)
    ensures data.email == [] ==> FieldError(data, Email) == Some(EmailRequired)
    ensures FieldError(data, Password).None? <==> |data.password| >= 8 && MixedCharacters(data.password)
    ensures data.password == [] ==> FieldError(data, Password) == Some(PasswordRequired)
    ensures 0 < |data.password| < 8 ==> FieldError(data, Password) == Some(PasswordTooShort)
    ensures |data.password| >= 8 && !MixedCharacters(data.password) ==> FieldError(data, Password) == Some(PasswordTooSimple)
    ensures FieldError(data, PasswordConfirmation).None? <==> data.passwordConfirmation != [] && data.passwordConfirmation == data.password
    ensures data.passwordConfirmation == [] ==> FieldError(data, PasswordConfirmation) == Some(ConfirmationRequired)
  {
  }

  /** `newErrors.<key> = message` when a check produced one. */
  function Put(errors: map<string, string>, key: string, e: Option<string>): (r: map<string, string>)
    ensures forall k :: k in r <==> k in errors || (k == key && e.Some?)
    ensures e.Some? ==> r[key] == e.value
    ensures forall k :: k in errors && k != key ==> r[k] == errors[k]
  {
    match e
    case None => errors
    case Some(m) => errors[key := m]
  }

  /** The four keys are written in turn, and each keeps what it was given. */
  lemma PutFour(a: Option<string>, b: Option<string>, c: Option<string>, d: Option<string>)
    ensures var m := Put(Put(Put(Put(map[], "name", a), "email", b), "password", c), "password_confirmation", d);
      ("name" in m <==> a.Some?) && (a.Some? ==> m["name"] == a.value) &&
      ("email" in m <==> b.Some?) && (b.Some? ==> m["email"] == b.value) &&
      ("password" in m <==> c.Some?) && (c.Some? ==> m["password"] == c.value) &&
      ("password_confirmation" in m <==> d.Some?) && (d.Some? ==> m["password_confirmation"] == d.value) &&
      forall k :: k in m ==> k == "name" || k == "email" || k == "password" || k == "password_confirmation"
  {
    assert "name" != "email" && "name" != "password" && "name" != "password_confirmation";
    assert "email" != "password" && "email" != "password_confirmation";
    assert "password" != "password_confirmation";
  }

  /** `newErrors` as `validateForm` leaves it. */
  function FormErrors(data: FormData): map<string, string>
  {
    Put(Put(Put(Put(map[], Key(Name), FieldError(data, Name)), Key(Email), FieldError(data, Email)),
        Key(Password), FieldError(data, Password)), Key(PasswordConfirmation), FieldError(data, PasswordConfirmation))
  }

  /** `newErrors` holds exactly the fields that fail, each with its message, and no other key. */
  lemma FormErrorsAreFieldErrors(data: FormData)
    ensures forall f :: (Key(f) in FormErrors(data) <==> FieldError(data, f).Some?)
    ensures forall f :: Key(f) in FormErrors(data) ==> FormErrors(data)[Key(f)] == FieldError(data, f).value
    ensures forall k :: k in FormErrors(data) ==> exists f :: Key(f) == k
  {
    PutFour(FieldError(data, Name), FieldError(data, Email), FieldError(data, Password), FieldError(data, PasswordConfirmation));
    forall k | k in FormErrors(data) ensures exists f :: Key(f) == k {
      if k == "name" {
        assert Key(Name) == k;
      } else if k == "email" {
        assert Key(Email) == k;
      } else if k == "password" {
        assert Key(Password) == k;
      } else {
        assert Key(PasswordConfirmation) == k;
      }
    }
    forall f ensures (Key(f) in FormErrors(data) <==> FieldError(data, f).Some?) &&
                     (Key(f) in FormErrors(data) ==> FormErrors(data)[Key(f)] == FieldError(data, f).value) {
      match f
      case Name =>
      case Email =>
      case Password =>
      case PasswordConfirmation =>
    }
  }

  /** A form `validateForm` accepts has non-empty fields, and they meet its rules. */
  predicate Acceptable(data: FormData)
  {
    forall f :: FieldError(data, f).None?
  }

  /** The form is accepted exactly when no field has an error. */
  lemma AcceptedIffNoErrors(data: FormData)
    ensures FormErrors(data) == map[] <==> Acceptable(data)
  {
    FormErrorsAreFieldErrors(data);
    if FormErrors(data) != map[] {
      var k :| k in FormErrors(data);
      var f :| Key(f) == k;
      assert FieldError(data, f).Some?;
    }
  }

  /** The character classes the password lookaheads ask for are all outside PHP's trim set. */
  lemma MixedIsNotBlank(s: string)
    requires MixedCharacters(s)
    ensures !Validation.IsBlank(s)
  {
    var p :| 0 <= p <= |s| && AheadOnLine(s, p, true, false, false) && AheadOnLine(s, p, false, true, false) && AheadOnLine(s, p, false, false, true);
    var q :| p <= q < |s| && IsLower(s[q]) && OnOneLine(s, p, q);
    assert !Validation.IsTrimChar(s[q]);
  }

  /**
   * A form the client accepts always meets the server's password rule
   * (`required|string|min:8|confirmed`).
   */
  lemma AcceptedFormMeetsServerPasswordRule(data: FormData)
    requires Acceptable(data)
    ensures Validation.Filled(Validation.Text(data.password))
    ensures |data.password| >= 8
    ensures Validation.Text(data.passwordConfirmation) == Validation.Text(data.password)
  {
    assert FieldError(data, Password).None?;
    assert FieldError(data, PasswordConfirmation).None?;
    FieldErrorMeaning(data);
    MixedIsNotBlank(data.password);
  }

  /** One entry of the server's `errors` object: a field and its messages, in `Object.entries` order. */
  datatype ServerError = ServerError(field: string, messages: seq<string>)

  /**
   * `serverErrors` after the `forEach`: each field gets the first of its
   * messages. A field whose list is empty would get `undefined`, which reads as
   * no error, so it is left out.
   */
  function FirstMessages(entries: seq<ServerError>): map<string, string>
  {
    if entries == [] then map[]
    else
      var last := entries[|entries| - 1];
      var m := FirstMessages(entries[..|entries| - 1]);
      if |last.messages| > 0 then m[last.field := last.messages[0]] else m - {last.field}
  }

  predicate UniqueFields(entries: seq<ServerError>)
  {
    forall i, j :: 0 <= i < j < |entries| ==> entries[i].field != entries[j].field
  }

  /** With the distinct keys of a JSON object, each field shows exactly its first message, and nothing else is shown. */
  lemma {:induction false} FirstMessagesShowsFirst(entries: seq<ServerError>)
    requires UniqueFields(entries)
    ensures forall i :: 0 <= i < |entries| ==>
      (entries[i].field in FirstMessages(entries) <==> |entries[i].messages| > 0)
    ensures forall i :: 0 <= i < |entries| && |entries[i].messages| > 0 ==>
      FirstMessages(entries)[entries[i].field] == entries[i].messages[0]
    ensures forall k :: k in FirstMessages(entries) ==> exists i :: 0 <= i < |entries| && entries[i].field == k
  {
    if entries != [] {
      var init := entries[..|entries| - 1];
      FirstMessagesShowsFirst(init);
      forall k | k in FirstMessages(entries)
        ensures exists i :: 0 <= i < |entries| && entries[i].field == k
      {
        if k != entries[|entries| - 1].field {
          assert k in FirstMessages(init);
          var i :| 0 <= i < |init| && init[i].field == k;
          assert entries[i].field == k;
        }
      }
      forall i | 0 <= i < |init|
        ensures entries[i].field != entries[|entries| - 1].field && init[i] == entries[i]
      {
      }
    }
  }

  const GeneralFallback := "Registration failed. Please try again."

  /** The page's state cells `formData` and `errors`. */
  class RegisterPage {
    var formData: FormData
    var errors: map<string, string>

    constructor ()
      ensures formData == FormData("", "", "", "") && errors == map[]
    {
      formData := FormData("", "", "", "");
      errors := map[];
    }

    /** `validateForm`: replaces `errors` with this form's errors and reports whether there are none. */
    method ValidateForm() returns (ok: bool)
      modifies this
      ensures formData == old(formData)
      ensures errors == FormErrors(formData)
      ensures ok <==> Acceptable(formData)
    {
      errors := FormErrors(formData);
      AcceptedIffNoErrors(formData);
      ok := errors == map[];
    }

    /**
     * `handleInputChange`: stores the value, blanks the field's error if it had
     * one, and for the confirmation field compares the new value with the
     * password at once.
     */
    method HandleInputChange(f: Field, value: string)
      modifies this
      ensures formData == Set(old(formData), f, value)
      ensures errors == AfterInput(old(errors), old(formData), f, value)
    {
      var password := formData.password;
      formData := Set(formData, f, value);
      if Key(f) in errors && errors[Key(f)] != "" {
        errors := errors[Key(f) := ""];
      }
      if f == PasswordConfirmation && password != "" && value != password {
        errors := errors[Key(PasswordConfirmation) := PasswordsDiffer];
      } else if f == PasswordConfirmation && value == password {
        errors := errors[Key(PasswordConfirmation) := ""];
      }
    }

    /** The 422 branch of `submit`: the first message of each field's list. */
    method ShowServerErrors(entries: seq<ServerError>)
      modifies this
      ensures formData == old(formData)
      ensures errors == FirstMessages(entries)
    {
      var serverErrors: map<string, string> := map[];
      for i := 0 to |entries|
        invariant serverErrors == FirstMessages(entries[..i])
      {
        assert entries[..i + 1][..i] == entries[..i];
        var e := entries[i];
        if |e.messages| > 0 {
          serverErrors := serverErrors[e.field := e.messages[0]];
        } else {
          serverErrors := serverErrors - {e.field};
        }
      }
      assert entries[..|entries|] == entries;
      errors := serverErrors;
    }

    /**
     * The rest of `submit` once the response has arrived. `entries` is the
     * response's `errors` when it has one; `message` its `message`, None when
     * absent or empty.
     */
    method HandleResponse(ok: bool, success: bool, status: int, entries: Option<seq<ServerError>>, message: Option<string>)
      modifies this
      ensures formData == old(formData)
      ensures ok && success ==> errors == map[]
      ensures !(ok && success) && status == 422 && entries.Some? ==> errors == FirstMessages(entries.value)
      ensures !(ok && success) && !(status == 422 && entries.Some?) ==>
        errors == map["general" := if message.Some? then message.value else GeneralFallback]
    {
      errors := map[];
      if ok && success {
        return;
      }
      if status == 422 && entries.Some? {
        ShowServerErrors(entries.value);
      } else {
        errors := map["general" := if message.Some? then message.value else GeneralFallback];
      }
    }
  }

  /** `errors` after `handleInputChange(f, value)`, given the state before it. */
  function AfterInput(errors: map<string, string>, data: FormData, f: Field, value: string): map<string, string>
  {
    var cleared := if Key(f) in errors && errors[Key(f)] != "" then errors[Key(f) := ""] else errors;
    if f == PasswordConfirmation && data.password != "" && value != data.password then cleared[Key(PasswordConfirmation) := PasswordsDiffer]
    else if f == PasswordConfirmation && value == data.password then cleared[Key(PasswordConfirmation) := ""]
    else cleared
  }

  /**
   * Editing a field other than the confirmation leaves no message on it and
   * touches no other field's error; editing the confirmation shows the mismatch
   * message exactly when a password is set and differs, and clears it when they match.
   */
  lemma InputClearsOwnError(errors: map<string, string>, data: FormData, f: Field, value: string)
    ensures var after := AfterInput(errors, data, f, value);
      (forall k :: k != Key(f) ==> (k in after <==> k in errors) && (k in errors ==> after[k] == errors[k])) &&
      (f != PasswordConfirmation ==> (Key(f) in after <==> Key(f) in errors) && (Key(f) in after ==> after[Key(f)] == "")) &&
      (f == PasswordConfirmation && data.password != "" && value != data.password ==> after[Key(f)] == PasswordsDiffer) &&
      (f == PasswordConfirmation && value == data.password ==> after[Key(f)] == "")
  {
  }
}
