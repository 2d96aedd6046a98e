/**
 * The client's sign-up and sign-in form schemas, the server's `RegisterDto`, and how they
 * agree. The email syntax checks of the two libraries are parameters: `isEmail` stands for
 * the client-side pattern and `cvEmail` for the server-side validator.
 */
module AuthForms {
  import opened Wrappers
  import Json

  /** The sign-up form's fields; `None` is a field the form did not supply (`undefined`). */
  datatype RegisterForm = RegisterForm(
    email: Option<string>,
    password: Option<string>,
    confirmPassword: Option<string>,
    agreeTerms: Option<bool>)

  /** The sign-in form's fields. */
  datatype LoginForm = LoginForm(email: Option<string>, password: Option<string>)

  /** The pair every validator here hands on when it accepts. */
  datatype Credentials = Credentials(email: string, password: string)

  /** A required string field: present and not empty. */
  predicate Filled(v: Option<string>) {
    v.Some? && v.value != ""
  }

  predicate HasLower(s: string) {
    exists i :: 0 <= i < |s| && 'a' <= s[i] <= 'z'
  }

  predicate HasUpper(s: string) {
    exists i :: 0 <= i < |s| && 'A' <= s[i] <= 'Z'
  }

  predicate HasDigit(s: string) {
    exists i :: 0 <= i < |s| && '0' <= s[i] <= '9'
  }

  /** The email rule both forms share: required, then the email pattern. */
  predicate EmailOk(v: Option<string>, isEmail: string -> bool) {
    Filled(v) && isEmail(v.value)
  }

  /** Sign-up password: required, at least 8 characters, one lower-case letter, one upper-case letter, one digit. */
  predicate StrongPassword(v: Option<string>) {
    Filled(v) && |v.value| >= 8 && HasLower(v.value) && HasUpper(v.value) && HasDigit(v.value)
  }

  /** Confirmation: required and one of the password's value (or null, which `required` then refuses). */
  predicate ConfirmOk(f: RegisterForm) {
    Filled(f.confirmPassword) && f.confirmPassword == f.password
  }

  /** The terms checkbox: `oneOf([true])` without `required`, so an absent value passes. */
  predicate TermsOk(v: Option<bool>) {
    v != Some(false)
  }

  /** The fields the sign-up schema reports errors for. */
  function RegisterErrors(f: RegisterForm, isEmail: string -> bool): set<string> {
    (if EmailOk(f.email, isEmail) then {} else {"email"})
    + (if StrongPassword(f.password) then {} else {"password"})
    + (if ConfirmOk(f) then {} else {"confirmPassword"})
    + (if TermsOk(f.agreeTerms) then {} else {"agreeTerms"})
  }

  /** The sign-up schema: the form is submitted only when every field passes. */
  function ValidateRegister(f: RegisterForm, isEmail: string -> bool): (r: Result<Credentials, set<string>>)
    ensures r.Success? <==>
      EmailOk(f.email, isEmail) && StrongPassword(f.password) && ConfirmOk(f) && TermsOk(f.agreeTerms)
    ensures r.Success? ==>
      && Some(r.value.email) == f.email && Some(r.value.password) == f.password
      && |r.value.password| >= 8 && Some(r.value.password) == f.confirmPassword
    ensures r.Failure? ==> r.error != {} && r.error <= {"email", "password", "confirmPassword", "agreeTerms"}
    ensures r.Failure? ==> ("agreeTerms" in r.error <==> f.agreeTerms == Some(false))
  {
    var errs := RegisterErrors(f, isEmail);
    if errs == {} then Success(Credentials(f.email.value, f.password.value)) else Failure(errs)
  }

  /** Sign-in password: required, at least 6 characters. */
  predicate LoginPasswordOk(v: Option<string>) {
    Filled(v) && |v.value| >= 6
  }

  function LoginErrors(f: LoginForm, isEmail: string -> bool): set<string> {
    (if EmailOk(f.email, isEmail) then {} else {"email"})
    + (if LoginPasswordOk(f.password) then {} else {"password"})
  }

  /** The sign-in schema. */
  function ValidateLogin(f: LoginForm, isEmail: string -> bool): (r: Result<Credentials, set<string>>)
    ensures r.Success? <==> EmailOk(f.email, isEmail) && LoginPasswordOk(f.password)
    ensures r.Success? ==>
      Some(r.value.email) == f.email && Some(r.value.password) == f.password && |r.value.password| >= 6
    ensures r.Failure? ==> r.error != {} && r.error <= {"email", "password"}
  {
    var errs := LoginErrors(f, isEmail);
    if errs == {} then Success(Credentials(f.email.value, f.password.value)) else Failure(errs)
  }

  /** The JSON body the sign-up page posts: every form field, as typed. */
  function FormBody(f: RegisterForm): (body: Json.Body)
    ensures f.email.Some? ==> Json.Get(body, "email") == Json.Str(f.email.value)
    ensures f.password.Some? ==> Json.Get(body, "password") == Json.Str(f.password.value)
  {
    (if f.email.Some? then map["email" := Json.Str(f.email.value)] else map[])
    + (if f.password.Some? then map["password" := Json.Str(f.password.value)] else map[])
    + (if f.confirmPassword.Some? then map["confirmPassword" := Json.Str(f.confirmPassword.value)] else map[])
    + (if f.agreeTerms.Some? then map["agreeTerms" := Json.Bool(f.agreeTerms.value)] else map[])
  }

  /** `@IsEmail()`: a string the server's validator accepts. */
  predicate DtoEmailOk(v: Json.Value, cvEmail: string -> bool) {
    v.Str? && cvEmail(v.s)
  }

  /** The two variation selectors, U+FE0E and U+FE0F. */
  predicate IsVariationSelector(c: char) {
    c == '\U{FE0E}' || c == '\U{FE0F}'
  }

  /**
   * The length the server's `isLength` check measures: a surrogate pair counts once (so a
   * `char` here, a code point, counts once) and a variation selector does not count at all.
   */
  function ValidatorLength(s: string): nat {
    if |s| == 0 then 0
    else ValidatorLength(s[..|s| - 1]) + (if IsVariationSelector(s[|s| - 1]) then 0 else 1)
  }

  /** The measured length never exceeds the code-point count, and equals it without variation selectors. */
  lemma {:induction false} ValidatorLengthBounds(s: string)
    ensures ValidatorLength(s) <= |s|
    ensures (forall i :: 0 <= i < |s| ==> !IsVariationSelector(s[i])) ==> ValidatorLength(s) == |s|
  {
    if |s| > 0 {
      ValidatorLengthBounds(s[..|s| - 1]);
    }
  }

  /** A trailing variation selector adds nothing to the measured length. */
  lemma VariationSelectorNotCounted(s: string)
    ensures ValidatorLength(s + ['\U{FE0F}']) == ValidatorLength(s)
  {
    assert (s + ['\U{FE0F}'])[..|s|] == s;
  }

  /** `@MinLength(6) @MaxLength(30)`: a string whose measured length is 6 to 30. */
  predicate DtoPasswordOk(v: Json.Value) {
    v.Str? && 6 <= ValidatorLength(v.s) <= 30
  }

  function DtoErrors(body: Json.Body, cvEmail: string -> bool): set<string> {
    (if DtoEmailOk(Json.Get(body, "email"), cvEmail) then {} else {"email"})
    + (if DtoPasswordOk(Json.Get(body, "password")) then {} else {"password"})
  }

  /**
   * `RegisterDto` under the validation pipe: the two declared properties are checked and
   * anything else in the body is stripped.
   */
  function ValidateRegisterDto(body: Json.Body, cvEmail: string -> bool): (r: Result<Credentials, set<string>>)
    ensures r.Success? <==>
      DtoEmailOk(Json.Get(body, "email"), cvEmail) && DtoPasswordOk(Json.Get(body, "password"))
    ensures r.Success? ==>
      Json.Get(body, "email") == Json.Str(r.value.email) && Json.Get(body, "password") == Json.Str(r.value.password)
      && 6 <= ValidatorLength(r.value.password) <= 30
    ensures r.Failure? ==> r.error != {} && r.error <= {"email", "password"}
  {
    var errs := DtoErrors(body, cvEmail);
    if errs == {} then Success(Credentials(Json.Get(body, "email").s, Json.Get(body, "password").s))
    else Failure(errs)
  }

  /**
   * For a form the sign-up page accepts, the server accepts its password exactly when its
   * measured length is 6 to 30: the form has no upper bound. Without variation selectors
   * that is exactly a password of at most 30 characters.
   */
  lemma FormPasswordFitsDtoIff(f: RegisterForm, isEmail: string -> bool)
    requires ValidateRegister(f, isEmail).Success?
    ensures DtoPasswordOk(Json.Get(FormBody(f), "password")) <==> 6 <= ValidatorLength(f.password.value) <= 30
    ensures (forall i :: 0 <= i < |f.password.value| ==> !IsVariationSelector(f.password.value[i])) ==>
      (DtoPasswordOk(Json.Get(FormBody(f), "password")) <==> |f.password.value| <= 30)
  {
    ValidatorLengthBounds(f.password.value);
  }

  /**
   * When every address the client pattern accepts is one the server accepts too, a submitted
   * sign-up form whose password measures at most 30 passes `RegisterDto` unchanged.
   */
  lemma FormAcceptedDtoAccepted(f: RegisterForm, isEmail: string -> bool, cvEmail: string -> bool)
    requires forall s :: isEmail(s) ==> cvEmail(s)
    requires ValidateRegister(f, isEmail).Success?
    requires 6 <= ValidatorLength(f.password.value) <= 30
    ensures ValidateRegisterDto(FormBody(f), cvEmail) == Success(ValidateRegister(f, isEmail).value)
  {
    assert isEmail(f.email.value);
  }

  /** A 31-character password passes the sign-up form and is refused by the server. */
  lemma LongPasswordPassesFormOnly(email: string, isEmail: string -> bool, cvEmail: string -> bool)
    requires email != "" && isEmail(email)
    ensures var pw := "Aa1aaaaaaaaaaaaaaaaaaaaaaaaaaaa";
      var f := RegisterForm(Some(email), Some(pw), Some(pw), Some(true));
      && |pw| == 31
      && ValidateRegister(f, isEmail).Success?
      && ValidateRegisterDto(FormBody(f), cvEmail).Failure?
      && "password" in ValidateRegisterDto(FormBody(f), cvEmail).error
  {
    var pw := "Aa1aaaaaaaaaaaaaaaaaaaaaaaaaaaa";
    StrongSample(email, pw, isEmail);
    LongSampleMeasure();
  }

  lemma LongSampleMeasure()
    ensures ValidatorLength("Aa1aaaaaaaaaaaaaaaaaaaaaaaaaaaa") == 31
  {
    PlainLength("Aa1aaaaaaaaaaaaaaaaaaaaaaaaaaaa");
  }

  /** A password with an upper-case letter, a lower-case letter and a digit up front, used twice, passes the form. */
  lemma StrongSample(email: string, pw: string, isEmail: string -> bool)
    requires email != "" && isEmail(email)
    requires |pw| >= 8 && 'A' <= pw[0] <= 'Z' && 'a' <= pw[1] <= 'z' && '0' <= pw[2] <= '9'
    ensures ValidateRegister(RegisterForm(Some(email), Some(pw), Some(pw), Some(true)), isEmail).Success?
  {
    assert HasLower(pw) && HasUpper(pw) && HasDigit(pw);
  }

  /** A string without variation selectors measures its character count. */
  lemma PlainLength(s: string)
    requires forall i :: 0 <= i < |s| ==> 'A' <= s[i] <= 'z' || '0' <= s[i] <= '9'
    ensures ValidatorLength(s) == |s|
  {
    ValidatorLengthBounds(s);
  }

  /**
   * A 31-character password ending in U+FE0F measures 30, so `RegisterDto` accepts it
   * although it is one character longer than the 30-character limit reads.
   */
  lemma SelectorPasswordPassesDto(email: string, cvEmail: string -> bool)
    requires cvEmail(email)
    ensures var pw := "Aa1aaaaaaaaaaaaaaaaaaaaaaaaaaa" + ['\U{FE0F}'];
      var body := map["email" := Json.Str(email), "password" := Json.Str(pw)];
      && |pw| == 31
      && ValidateRegisterDto(body, cvEmail) == Success(Credentials(email, pw))
  {
    var base := "Aa1aaaaaaaaaaaaaaaaaaaaaaaaaaa";
    PlainLength(base);
    VariationSelectorNotCounted(base);
  }

  /** Credentials accepted at sign-up are accepted by the sign-in form as well. */
  lemma RegisteredCredentialsPassLogin(f: RegisterForm, isEmail: string -> bool)
    requires ValidateRegister(f, isEmail).Success?
    ensures ValidateLogin(LoginForm(f.email, f.password), isEmail) == ValidateRegister(f, isEmail)
  {
  }
}
