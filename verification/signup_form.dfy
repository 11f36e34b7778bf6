/** The sign-up form's client-side validation and submit step. Each field
    gets at most one error; the account request is made only when there is
    none, with the fields as typed. */
module Signup {
  import opened Base

  const NameRequired: string := "Name is required"
  const EmailRequired: string := "Email is required"
  const EmailInvalid: string := "Email is invalid"
  const PasswordRequired: string := "Password is required"
  const PasswordTooShort: string := "Password must be at least 6 characters"
  const ConfirmRequired: string := "Please confirm your password"
  const PasswordsDiffer: string := "Passwords do not match"
  const SignupFailedFallback: string := "An error occurred during signup"

  /** The minimum password length. */
  const MinPassword: nat := 6

  datatype Form = Form(name: string, email: string, password: string, confirm: string)

  /** The error record; an absent key is `None`. */
  datatype Errors = Errors(name: Option<string>, email: Option<string>, password: Option<string>, confirm: Option<string>)

  const NoErrors: Errors := Errors(None, None, None, None)

  // ---- the email pattern ----

  /** No whitespace (`\S`) in `s[lo..hi]`. */
  predicate NoSpaceIn(s: string, lo: int, hi: int)
    requires 0 <= lo <= hi <= |s|
  {
    forall m :: lo <= m < hi ==> !IsSpace(s[m])
  }

  /** `/\S+@\S+\.\S+/.test(s)`: some span `s[a..b]` consists of a
      non-empty run without whitespace, `@`, another such run, `.`, and a
      third such run. The pattern is not anchored. */
  ghost predicate MatchesEmailPattern(s: string) {
    exists a, p, q, b :: MatchAt(s, a, p, q, b)
  }

  /** The pattern matches `s[a..b]` with `@` at `p` and `.` at `q`. */
  predicate MatchAt(s: string, a: int, p: int, q: int, b: int) {
    && 0 <= a < p && p + 1 < q && q + 1 < b <= |s|
    && s[p] == '@' && s[q] == '.'
    && NoSpaceIn(s, a, p) && NoSpaceIn(s, p + 1, q) && NoSpaceIn(s, q + 1, b)
  }

  /** An `@` at `p` and a `.` at `q` around which the pattern matches with
      the shortest possible outer runs. */
  predicate Anchor(s: string, p: int, q: int) {
    && 1 <= p && p + 1 < q && q + 1 < |s|
    && s[p] == '@' && s[q] == '.'
    && !IsSpace(s[p - 1]) && NoSpaceIn(s, p + 1, q) && !IsSpace(s[q + 1])
  }

  /** The pattern matches iff there is an anchor: the outer runs of any
      match can be shrunk to one character each. */
  lemma MatchesIffAnchor(s: string)
    ensures MatchesEmailPattern(s) <==> exists p, q :: Anchor(s, p, q)
  {
    if MatchesEmailPattern(s) {
      var a, p, q, b :| MatchAt(s, a, p, q, b);
      assert Anchor(s, p, q);
    }
    if exists p, q :: Anchor(s, p, q) {
      var p, q :| Anchor(s, p, q);
      assert MatchAt(s, p - 1, p, q, q + 2);
    }
  }

  /** Executable form of the test: look for an anchor. */
  predicate LooksLikeEmail(s: string) {
    exists p, q :: 0 <= p < |s| && 0 <= q < |s| && Anchor(s, p, q)
  }

  /** The scan a regex engine performs, written as two nested loops over
      the candidate `@` and `.` positions. */
  method TestEmail(s: string) returns (ok: bool)
    ensures ok <==> MatchesEmailPattern(s)
  {
    MatchesIffAnchor(s);
    var p := 1;
    while p < |s|
      invariant 1 <= p <= |s| || |s| == 0
      invariant forall p', q :: 1 <= p' < p && p' < |s| ==> !Anchor(s, p', q)
    {
      if s[p] == '@' && !IsSpace(s[p - 1]) {
        var q := p + 1;
        while q + 1 < |s| && !IsSpace(s[q])
          invariant p + 1 <= q <= |s|
          invariant NoSpaceIn(s, p + 1, q)
          invariant forall q' :: q' < q ==> !Anchor(s, p, q')
        {
          if s[q] == '.' && q > p + 1 && !IsSpace(s[q + 1]) {
            assert Anchor(s, p, q);
            return true;
          }
          q := q + 1;
        }
        assert forall q' :: !Anchor(s, p, q');
      }
      p := p + 1;
    }
    return false;
  }

  // ---- validation ----

  /** `handleSubmit`'s checks, field by field. */
  function Validate(f: Form): (e: Errors)
    ensures e.name.Some? <==> f.name == ""
    ensures e.name.Some? ==> e.name.value == NameRequired
    ensures e.email == Some(EmailRequired) <==> f.email == ""
    ensures e.email == Some(EmailInvalid) <==> f.email != "" && !MatchesEmailPattern(f.email)
    ensures e.email.None? <==> f.email != "" && MatchesEmailPattern(f.email)
    ensures e.password == Some(PasswordRequired) <==> f.password == ""
    ensures e.password == Some(PasswordTooShort) <==> 0 < |f.password| < MinPassword
    ensures e.password.None? <==> |f.password| >= MinPassword
    ensures e.confirm == Some(ConfirmRequired) <==> f.confirm == ""
    ensures e.confirm == Some(PasswordsDiffer) <==> f.confirm != "" && f.password != f.confirm
    ensures e.confirm.None? <==> f.confirm != "" && f.password == f.confirm
  {
    MatchesIffAnchor(f.email);
    Errors(
      if f.name == "" then Some(NameRequired) else None,
      if f.email == "" then Some(EmailRequired)
      else if !LooksLikeEmail(f.email) then Some(EmailInvalid) else None,
      if f.password == "" then Some(PasswordRequired)
      else if |f.password| < MinPassword then Some(PasswordTooShort) else None,
      if f.confirm == "" then Some(ConfirmRequired)
      else if f.password != f.confirm then Some(PasswordsDiffer) else None)
  }

  /** A form passes exactly when every field is filled in, the email has
      the pattern, the password is long enough and the confirmation repeats
      it. */
  lemma ValidIff(f: Form)
    ensures Validate(f) == NoErrors <==>
              f.name != "" && f.email != "" && MatchesEmailPattern(f.email)
              && |f.password| >= MinPassword && f.confirm == f.password
  {
  }

  // ---- submitting ----

  datatype Toast = AccountCreated | SignupFailed(description: string)

  /** What a submit leaves behind: the error record shown, the request made
      (`signUp(email, password, name)`) if any, and the toast. */
  datatype Submitted = Submitted(errors: Errors, request: Option<Form>, toast: Option<Toast>)

  /** `handleSubmit`. `reply` is the sign-up call's error message, `None`
      when it succeeds; it matters only when the request is made. */
  function Submit(f: Form, reply: Option<string>): (r: Submitted)
    ensures r.request.Some? <==> Validate(f) == NoErrors
    ensures r.request.None? ==> r.errors == Validate(f) && r.toast.None?
    ensures r.request.Some? ==> r.request.value == f && r.errors == NoErrors && r.toast.Some?
    ensures r.request.Some? && reply.None? ==> r.toast == Some(AccountCreated)
    ensures r.request.Some? && reply.Some? ==>
              r.toast == Some(SignupFailed(if reply.value != "" then reply.value else SignupFailedFallback))
  {
    var e := Validate(f);
    if e != NoErrors then Submitted(e, None, None)
    else
      var toast := match reply
        case None => AccountCreated
        case Some(m) => SignupFailed(if m != "" then m else SignupFailedFallback);
      Submitted(NoErrors, Some(f), Some(toast))
  }

  lemma EmailExamples()
    ensures Validate(Form("A", "a@b.c", "secret", "secret")) == NoErrors
    ensures Validate(Form("A", "a@b", "secret", "secret")).email == Some(EmailInvalid)
  {
    var good := "a@b.c";
    assert Anchor(good, 1, 3);
    var bad := "a@b";
    MatchesIffAnchor(bad);
  }
}
