/** The registration form: the password-strength band, the confirm-password
    guard of the submit handler, and when the submit button is disabled. */
module Register {
  import opened Wrappers
  import opened Text

  datatype Strength = NoStrength | Weak | Medium | Strong

  /** The CSS suffix and label of each band. */
  function StrengthName(s: Strength): string {
    match s
    case NoStrength => ""
    case Weak => "weak"
    case Medium => "medium"
    case Strong => "strong"
  }

  function Rank(s: Strength): nat {
    match s
    case NoStrength => 0
    case Weak => 1
    case Medium => 2
    case Strong => 3
  }

  /** `getPasswordStrength`: by `password.length` alone, which counts UTF-16
      code units. */
  function PasswordStrength(password: string): (s: Strength)
    ensures s == NoStrength <==> password == []
    ensures s == Weak <==> 1 <= Utf16Length(password) <= 5
    ensures s == Medium <==> 6 <= Utf16Length(password) <= 7
    ensures s == Strong <==> Utf16Length(password) >= 8
  {
    var n := Utf16Length(password);
    if n == 0 then NoStrength
    else if n < 6 then Weak
    else if n < 8 then Medium
    else Strong
  }

  /** A password that is longer in `length` is never rated weaker. */
  lemma StrengthMonotone(p: string, q: string)
    requires Utf16Length(p) <= Utf16Length(q)
    ensures Rank(PasswordStrength(p)) <= Rank(PasswordStrength(q))
  {
  }

  /** Three emoji are six code units: a medium password, not a weak one. */
  lemma EmojiPasswordIsMedium()
    ensures PasswordStrength("\U{1F600}\U{1F600}\U{1F600}") == Medium
  {
    var e := "\U{1F600}";
    assert "\U{1F600}\U{1F600}\U{1F600}"[1..] == e + e && (e + e)[1..] == e;
    assert Utf16Length(e) == 2;
  }

  /** What `register` resolves to. */
  datatype RegisterResult = RegisterResult(success: bool, message: string)

  datatype Credentials = Credentials(name: string, email: string, password: string)

  /** The form's state. */
  datatype Form = Form(name: string, email: string, password: string, confirmPassword: string,
                       loading: bool, error: string)

  /** What a submit does: the `register` calls it makes, the state while the
      call is pending, the state afterwards and where it navigates. */
  datatype Submission = Submission(calls: seq<Credentials>, pending: Option<Form>, after: Form,
                                   navigation: Option<string>)

  const MismatchMessage: string := "Passwords do not match"

  /** `handleSubmit`, with `result` standing for the value `register`
      resolves to. */
  function HandleSubmit(form: Form, result: RegisterResult): (s: Submission)
    ensures form.password != form.confirmPassword ==>
      s.calls == [] && s.pending.None? && s.navigation.None? && s.after == form.(error := MismatchMessage)
    ensures form.password == form.confirmPassword ==>
      && s.calls == [Credentials(form.name, form.email, form.password)]
      && s.pending == Some(form.(loading := true, error := ""))
      && !s.after.loading
      && (result.success ==> s.navigation == Some("/") && s.after.error == "")
      && (!result.success ==> s.navigation.None? && s.after.error == result.message)
  {
    if form.password != form.confirmPassword then
      Submission([], None, form.(error := MismatchMessage), None)
    else
      var pending := form.(loading := true, error := "");
      if result.success then Submission([Credentials(form.name, form.email, form.password)], Some(pending),
                                        pending.(loading := false), Some("/"))
      else Submission([Credentials(form.name, form.email, form.password)], Some(pending),
                      pending.(loading := false, error := result.message), None)
  }

  /** The submit button's `disabled`. */
  function SubmitDisabled(form: Form): (d: bool)
    ensures d <==> form.loading || form.password != form.confirmPassword
  {
    form.loading || form.password != form.confirmPassword
  }

  /** A submit the button allows always reaches `register`, exactly once and
      with the form's own values; the mismatch branch is only reachable when
      the button is disabled. */
  lemma EnabledSubmitRegisters(form: Form, result: RegisterResult)
    requires !SubmitDisabled(form)
    ensures HandleSubmit(form, result).calls == [Credentials(form.name, form.email, form.password)]
  {
  }
}
