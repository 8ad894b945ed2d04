/**
 * The client-side checks of the registration page (frontend/Expense-tracker/src/pages/Register.jsx):
 * the five password checks and the strength rating built on them, the name, e-mail and password
 * rules of `validateForm`, and the page state that `handleChange` and `handleFileChange` update.
 */
module Register {
  import opened Wrappers
  import JsString

  /** The five results of `validatePassword`. */
  datatype PasswordChecks = PasswordChecks(length: bool, uppercase: bool, lowercase: bool, number: bool, special: bool)

  datatype Strength = Weak | Medium | Strong

  const MinPasswordLength: nat := 8
  const SpecialChars: string := "!@#$%^&*(),.?\":{}|<>"

  /** `/[lo-hi]/.test(s)`: some character of `s` lies in the range. */
  function AnyInRange(s: string, lo: char, hi: char): (r: bool)
    ensures r <==> exists i | 0 <= i < |s| :: lo <= s[i] <= hi
  {
    if s == [] then false
    else if lo <= s[0] <= hi then true
    else
      var r := AnyInRange(s[1..], lo, hi);
      assert forall i | 1 <= i < |s| :: s[i] == s[1..][i - 1];
      r
  }

  /** `/[!@#$%^&*(),.?":{}|<>]/.test(s)`: some character of `s` is one of the listed marks. */
  function AnySpecial(s: string): (r: bool)
    ensures r <==> exists i | 0 <= i < |s| :: s[i] in SpecialChars
  {
    if s == [] then false
    else if s[0] in SpecialChars then true
    else
      var r := AnySpecial(s[1..]);
      assert forall i | 1 <= i < |s| :: s[i] == s[1..][i - 1];
      r
  }

  /** `validatePassword`: five independent checks. */
  function ValidatePassword(p: string): (r: PasswordChecks)
    ensures r.length <==> JsString.Length(p) >= MinPasswordLength
    ensures r.uppercase <==> exists i | 0 <= i < |p| :: 'A' <= p[i] <= 'Z'
    ensures r.lowercase <==> exists i | 0 <= i < |p| :: 'a' <= p[i] <= 'z'
    ensures r.number <==> exists i | 0 <= i < |p| :: '0' <= p[i] <= '9'
    ensures r.special <==> exists i | 0 <= i < |p| :: p[i] in SpecialChars
  {
    PasswordChecks(JsString.Length(p) >= MinPasswordLength, AnyInRange(p, 'A', 'Z'), AnyInRange(p, 'a', 'z'),
                   AnyInRange(p, '0', '9'), AnySpecial(p))
  }

  function Count(b: bool): nat
  {
    if b then 1 else 0
  }

  /** The number of checks that pass. */
  function Score(checks: PasswordChecks): (n: nat)
    ensures n <= 5
    ensures n == 5 <==> checks == PasswordChecks(true, true, true, true, true)
    ensures n == 0 <==> checks == PasswordChecks(false, false, false, false, false)
  {
    Count(checks.length) + Count(checks.uppercase) + Count(checks.lowercase) + Count(checks.number)
      + Count(checks.special)
  }

  /** `getPasswordStrength`: weak below a score of 2, medium below 4, strong from 4 on. */
  function PasswordStrength(p: string): (r: Strength)
    ensures r == Weak <==> Score(ValidatePassword(p)) < 2
    ensures r == Medium <==> 2 <= Score(ValidatePassword(p)) < 4
    ensures r == Strong <==> Score(ValidatePassword(p)) >= 4
  {
    var score := Score(ValidatePassword(p));
    if score < 2 then Weak else if score < 4 then Medium else Strong
  }

  const NameRequired: string := "Name is required"
  const NameTooShort: string := "Name must be at least 2 characters"
  const EmailRequired: string := "Email is required"
  const EmailInvalid: string := "Please enter a valid email address"
  const PasswordRequired: string := "Password is required"
  const PasswordWeak: string := "Password must be at least 8 characters with uppercase, lowercase, and number"
  const PhotoTooLarge: string := "File size must be less than 5MB"
  const PhotoNotImage: string := "Please select a valid image file"
  const MaxPhotoSize: nat := 5 * 1024 * 1024

  /** The name rule: required once trimmed, and then at least two code units long. */
  function NameError(name: string): (r: Option<string>)
    ensures r == Some(NameRequired) <==> forall i | 0 <= i < |name| :: JsString.IsSpace(name[i])
    ensures r == Some(NameTooShort) <==> JsString.Length(JsString.Trim(name)) == 1
    ensures r.None? <==> JsString.Length(JsString.Trim(name)) >= 2
  {
    var t := JsString.Trim(name);
    JsString.TrimEmpty(name);
    if t == [] then Some(NameRequired)
    else if JsString.Length(t) < 2 then Some(NameTooShort)
    else None
  }

  /** A character the class `[^\s@]` admits. */
  predicate Plain(c: char)
  {
    !JsString.IsSpace(c) && c != '@'
  }

  predicate AllPlain(s: string)
  {
    forall k | 0 <= k < |s| :: Plain(s[k])
  }

  /** `^[^\s@]+@[^\s@]+\.[^\s@]+$` matches `s` with the '@' at `at` and the '.' at `dot`. */
  predicate MatchesAt(s: string, at: nat, dot: nat)
  {
    && 0 < at && at + 1 < dot && dot + 1 < |s|
    && AllPlain(s[..at]) && s[at] == '@' && AllPlain(s[at + 1..dot]) && s[dot] == '.' && AllPlain(s[dot + 1..])
  }

  /** The e-mail regular expression, as the regular-expression engine reads it: some choice of
      the '@' and of a '.' after it splits `s` into three non-empty runs of admitted characters. */
  predicate EmailPattern(s: string)
  {
    exists at: nat, dot: nat | at < |s| && dot < |s| :: MatchesAt(s, at, dot)
  }

  /** The same pattern stated by structure: no white space, exactly one '@', something before it,
      and a '.' after it with at least one character on either side of that '.'. */
  predicate EmailShape(s: string)
  {
    && JsString.NoSpace(s)
    && '@' in s
    && var at := JsString.IndexOf(s, '@');
       && at > 0
       && '@' !in s[at + 1..]
       && exists dot | at + 1 < dot < |s| - 1 :: s[dot] == '.'
  }

  lemma PlainAt(s: string, lo: nat, hi: nat, k: nat)
    requires lo <= k < hi <= |s| && AllPlain(s[lo..hi])
    ensures Plain(s[k])
  {
    assert s[k] == s[lo..hi][k - lo];
  }

  lemma PatternHasShape(s: string, at: nat, dot: nat)
    requires at < |s| && dot < |s| && MatchesAt(s, at, dot)
    ensures EmailShape(s)
  {
    forall k | 0 <= k < |s| ensures !JsString.IsSpace(s[k]) {
      if k < at { PlainAt(s, 0, at, k); }
      else if at < k < dot { PlainAt(s, at + 1, dot, k); }
      else if dot < k { PlainAt(s, dot + 1, |s|, k); }
    }
    forall k | 0 <= k < at ensures s[k] != '@' {
      PlainAt(s, 0, at, k);
    }
    IndexOfFirst(s, '@', at);
    forall k | at + 1 <= k < |s| ensures s[k] != '@' {
      if k < dot { PlainAt(s, at + 1, dot, k); }
      else if dot < k { PlainAt(s, dot + 1, |s|, k); }
    }
    var rest := s[at + 1..];
    assert '@' !in rest by {
      forall k | 0 <= k < |rest| ensures rest[k] != '@' {
        assert rest[k] == s[at + 1 + k];
      }
    }
  }

  lemma IndexOfFirst(s: string, c: char, at: nat)
    requires at < |s| && s[at] == c && forall k | 0 <= k < at :: s[k] != c
    ensures c in s && JsString.IndexOf(s, c) == at
  {
    assert c !in s[..at] by {
      forall k | 0 <= k < at ensures s[..at][k] != c {
        assert s[..at][k] == s[k];
      }
    }
  }

  lemma ShapeHasPattern(s: string)
    requires EmailShape(s)
    ensures EmailPattern(s)
  {
    var at := JsString.IndexOf(s, '@');
    var dot :| at + 1 < dot < |s| - 1 && s[dot] == '.';
    forall k | 0 <= k < |s| && k != at ensures Plain(s[k]) {
      assert !JsString.IsSpace(s[k]);
      if at < k {
        assert s[k] == s[at + 1..][k - at - 1];
      }
    }
    assert AllPlain(s[..at]) by {
      forall k | 0 <= k < at ensures Plain(s[..at][k]) { assert s[..at][k] == s[k]; }
    }
    var domain, top := s[at + 1..dot], s[dot + 1..];
    assert AllPlain(domain) by {
      forall k | 0 <= k < |domain| ensures Plain(domain[k]) { assert domain[k] == s[at + 1 + k]; }
    }
    assert AllPlain(top) by {
      forall k | 0 <= k < |top| ensures Plain(top[k]) { assert top[k] == s[dot + 1 + k]; }
    }
    assert MatchesAt(s, at, dot);
  }

  lemma EmailPatternIffShape(s: string)
    ensures EmailPattern(s) <==> EmailShape(s)
  {
    if EmailPattern(s) {
      var at: nat, dot: nat :| at < |s| && dot < |s| && MatchesAt(s, at, dot);
      PatternHasShape(s, at, dot);
    }
    if EmailShape(s) {
      ShapeHasPattern(s);
    }
  }

  /** The e-mail rule: required once trimmed; the untrimmed text must match the pattern. */
  function EmailError(email: string): (r: Option<string>)
    ensures r == Some(EmailRequired) <==> forall i | 0 <= i < |email| :: JsString.IsSpace(email[i])
    ensures r == Some(EmailInvalid) <==> JsString.Trim(email) != [] && !EmailShape(email)
    ensures r.None? <==> EmailShape(email)
  {
    JsString.TrimEmpty(email);
    EmailPatternIffShape(email);
    if JsString.Trim(email) == [] then Some(EmailRequired)
    else if !EmailPattern(email) then Some(EmailInvalid)
    else
      assert email[0] == email[..1][0];
      assert !JsString.IsSpace(email[0]);
      None
  }

  /** The password rule: required, then length, upper case, lower case and a digit (the special
      character check is not required). */
  function PasswordError(password: string): (r: Option<string>)
    ensures r == Some(PasswordRequired) <==> password == []
    ensures r.None? <==> var c := ValidatePassword(password);
                         password != [] && c.length && c.uppercase && c.lowercase && c.number
    ensures r.Some? ==> r == Some(PasswordRequired) || r == Some(PasswordWeak)
  {
    if password == [] then Some(PasswordRequired)
    else
      var checks := ValidatePassword(password);
      if !checks.length || !checks.uppercase || !checks.lowercase || !checks.number then Some(PasswordWeak)
      else None
  }

  /** Every password the form accepts is rated strong. */
  lemma AcceptedPasswordIsStrong(password: string)
    requires PasswordError(password).None?
    ensures PasswordStrength(password) == Strong
  {
    var c := ValidatePassword(password);
    assert Score(c) >= 4;
  }

  /** The photo guards of `handleFileChange`, in order: size, then type. */
  function PhotoError(size: nat, mimeType: string): (r: Option<string>)
    ensures r == Some(PhotoTooLarge) <==> size > MaxPhotoSize
    ensures r == Some(PhotoNotImage) <==> size <= MaxPhotoSize && !JsString.StartsWith(mimeType, "image/")
    ensures r.None? <==> size <= MaxPhotoSize && JsString.StartsWith(mimeType, "image/")
  {
    if size > MaxPhotoSize then Some(PhotoTooLarge)
    else if !JsString.StartsWith(mimeType, "image/") then Some(PhotoNotImage)
    else None
  }

  /** The keys of the error messages: the three inputs and the photo. */
  datatype Field = NameField | EmailField | PasswordField | PhotoField

  /** The form inputs whose `name` attribute `handleChange` reads. */
  datatype Input = NameInput | EmailInput | PasswordInput

  function InputField(i: Input): Field
  {
    match i
    case NameInput => NameField
    case EmailInput => EmailField
    case PasswordInput => PasswordField
  }

  datatype Form = Form(name: string, email: string, password: string)

  datatype File = File(size: nat, mimeType: string)

  /** `errors[key]` is truthy: present and not the empty string. */
  predicate HasError(errors: map<Field, string>, key: Field)
  {
    key in errors && errors[key] != ""
  }

  /** `errors` holds a message under `key` exactly when `e` has one, and then that message. */
  predicate Records(errors: map<Field, string>, key: Field, e: Option<string>)
  {
    (key in errors <==> e.Some?) && (key in errors ==> errors[key] == e.value)
  }

  /** `errors` holds exactly the messages the three field rules give for `f`. */
  predicate Reports(errors: map<Field, string>, f: Form)
  {
    && Records(errors, NameField, NameError(f.name))
    && Records(errors, EmailField, EmailError(f.email))
    && Records(errors, PasswordField, PasswordError(f.password))
    && PhotoField !in errors
  }

  /** The body of `validateForm`: the messages of the three rules, added field by field, and
      whether none was added. */
  method CollectErrors(name: Option<string>, email: Option<string>, password: Option<string>)
    returns (ok: bool, newErrors: map<Field, string>)
    ensures Records(newErrors, NameField, name)
    ensures Records(newErrors, EmailField, email)
    ensures Records(newErrors, PasswordField, password)
    ensures PhotoField !in newErrors
    ensures ok <==> name.None? && email.None? && password.None?
    ensures ok <==> newErrors == map[]
  {
    newErrors := map[];
    if name.Some? {
      newErrors := newErrors[NameField := name.value];
    }
    if email.Some? {
      newErrors := newErrors[EmailField := email.value];
    }
    if password.Some? {
      newErrors := newErrors[PasswordField := password.value];
    }
    ok := |newErrors| == 0;
    assert ok ==> newErrors == map[] by {
      if ok {
        assert newErrors.Keys == {};
      }
    }
  }

  /** The registration page's state: the form, the error messages per field and the chosen photo. */
  class RegisterPage {
    var form: Form
    var errors: map<Field, string>
    var photo: Option<File>

    constructor ()
      ensures form == Form("", "", "") && errors == map[] && photo == None
    {
      form := Form("", "", "");
      errors := map[];
      photo := None;
    }

    /** `validateForm`: replaces the error messages by those of the current form and reports
        whether there are none. */
    method ValidateForm() returns (ok: bool)
      modifies this`errors
      ensures Reports(errors, form)
      ensures ok <==> errors == map[]
    {
      ok, errors := CollectErrors(NameError(form.name), EmailError(form.email), PasswordError(form.password));
    }

    /** `handleChange`: stores the typed value, and blanks that field's error if it had one. */
    method HandleChange(input: Input, value: string)
      modifies this`form, this`errors
      ensures form == match input
                      case NameInput => old(form).(name := value)
                      case EmailInput => old(form).(email := value)
                      case PasswordInput => old(form).(password := value)
      ensures errors == if HasError(old(errors), InputField(input)) then old(errors)[InputField(input) := ""]
                        else old(errors)
      ensures !HasError(errors, InputField(input))
    {
      match input {
        case NameInput => form := form.(name := value);
        case EmailInput => form := form.(email := value);
        case PasswordInput => form := form.(password := value);
      }
      var key := InputField(input);
      if HasError(errors, key) {
        errors := errors[key := ""];
      }
    }

    /** `handleFileChange`: no file changes nothing; a rejected file sets the photo error and keeps
        the old photo; an accepted one becomes the photo and blanks the photo error. */
    method HandleFileChange(file: Option<File>)
      modifies this`errors, this`photo
      ensures file.None? ==> errors == old(errors) && photo == old(photo)
      ensures file.Some? && PhotoError(file.value.size, file.value.mimeType).Some? ==>
                && errors == old(errors)[PhotoField := PhotoError(file.value.size, file.value.mimeType).value]
                && photo == old(photo)
      ensures file.Some? && PhotoError(file.value.size, file.value.mimeType).None? ==>
                errors == old(errors)[PhotoField := ""] && photo == file
    {
      if file.Some? {
        var f := file.value;
        if f.size > MaxPhotoSize {
          errors := errors[PhotoField := PhotoTooLarge];
          return;
        }
        if !JsString.StartsWith(f.mimeType, "image/") {
          errors := errors[PhotoField := PhotoNotImage];
          return;
        }
        photo := Some(f);
        errors := errors[PhotoField := ""];
      }
    }
  }
}
