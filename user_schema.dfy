/** The sign-up and sign-in input rules (`UserSignUpSchema` and
    `UserSignInSchema`), modelled as a parser that either accepts the input,
    giving the parsed value, or rejects it with the list of issues found. */
module UserSchema {
  import opened Wrappers

  datatype Role = User | Admin

  /** A validation issue: the field it is attached to and its message. */
  datatype Issue = Issue(path: string, message: string)

  /** A parser's outcome: the parsed value, or every issue found. */
  type Parsed<T> = Result<T, seq<Issue>>

  /** Raw sign-up form input; `role` is absent when the form omits it. */
  datatype SignUpInput = SignUpInput(username: string, password: string, confirmPassword: string, role: Option<string>)

  datatype SignUpData = SignUpData(username: string, password: string, confirmPassword: string, role: Role)

  /** Raw sign-in input; any other field of the form is stripped. */
  datatype SignInInput = SignInInput(username: string, password: string)

  datatype SignInData = SignInData(username: string, password: string)

  const UsernameMin: nat := 6
  const UsernameMax: nat := 50
  const PasswordMin: nat := 8
  const PasswordMax: nat := 50

  const UsernameTooShort: string := "Name must be at least 6 characters long"
  const UsernameTooLong: string := "Name must be at most 50 characters long"
  const PasswordTooShort: string := "Password must be at least 8 characters long"
  const PasswordTooLong: string := "Password must be at most 50 characters long"
  const PasswordsDiffer: string := "Passwords do not match"
  /** The validator library's own messages, used where the sign-in schema
      gives none. */
  const DefaultTooShort6: string := "String must contain at least 6 character(s)"
  const DefaultTooLong50: string := "String must contain at most 50 character(s)"

  function Issues<T>(p: Parsed<T>): seq<Issue>
  {
    if p.Failure? then p.error else []
  }

  /** `z.string().min(min, ..).max(max, ..)`: both checks run, each adding
      its own issue. */
  function LengthIssues(path: string, s: string, min: nat, max: nat, tooShort: string, tooLong: string): (r: seq<Issue>)
    ensures r == [] <==> min <= |s| <= max
    ensures Issue(path, tooShort) in r <==> |s| < min || (tooShort == tooLong && |s| > max)
    ensures Issue(path, tooLong) in r <==> |s| > max || (tooShort == tooLong && |s| < min)
    ensures forall i :: 0 <= i < |r| ==> r[i].path == path
  {
    (if |s| < min then [Issue(path, tooShort)] else [])
      + (if |s| > max then [Issue(path, tooLong)] else [])
  }

  /** `z.enum(["user", "admin"]).default("user")`. */
  function ParseRole(role: Option<string>): (r: Result<Role, Issue>)
    ensures r.Success? <==> role == None || role == Some("user") || role == Some("admin")
    ensures r.Success? ==> (r.value == Admin <==> role == Some("admin"))
    ensures r.Failure? ==> r.error.path == "role"
  {
    match role
    case None => Success(User)
    case Some(s) =>
      if s == "user" then Success(User)
      else if s == "admin" then Success(Admin)
      else Failure(Issue("role", "Invalid enum value. Expected 'user' | 'admin', received '" + s + "'"))
  }

  /** The sign-up rules stated directly. */
  predicate SignUpValid(input: SignUpInput)
  {
    && UsernameMin <= |input.username| <= UsernameMax
    && PasswordMin <= |input.password| <= PasswordMax
    && PasswordMin <= |input.confirmPassword| <= PasswordMax
    && input.role in {None, Some("user"), Some("admin")}
    && input.password == input.confirmPassword
  }

  function FieldIssues(input: SignUpInput): seq<Issue>
  {
    LengthIssues("username", input.username, UsernameMin, UsernameMax, UsernameTooShort, UsernameTooLong)
      + LengthIssues("password", input.password, PasswordMin, PasswordMax, PasswordTooShort, PasswordTooLong)
      + LengthIssues("confirmPassword", input.confirmPassword, PasswordMin, PasswordMax, PasswordTooShort, PasswordTooLong)
      + (if ParseRole(input.role).Failure? then [ParseRole(input.role).error] else [])
  }

  /** `UserSignUpSchema.safeParse`: the field checks, in field order, then
      the password-match refinement. A length failure does not stop the
      refinement from running; an invalid role does. */
  function ParseSignUp(input: SignUpInput): (r: Parsed<SignUpData>)
    ensures r.Success? <==> SignUpValid(input)
    ensures r.Success? ==> r.value == SignUpData(input.username, input.password, input.confirmPassword,
                                                   if input.role == Some("admin") then Admin else User)
    ensures r.Failure? ==> r.error != []
    ensures ParseRole(input.role).Failure? ==> r.Failure? && ParseRole(input.role).error in r.error
  {
    var role := ParseRole(input.role);
    var refinement :=
      if role.Success? && input.password != input.confirmPassword
      then [Issue("confirmPassword", PasswordsDiffer)] else [];
    var issues := FieldIssues(input) + refinement;
    assert role.Failure? ==> role.error in FieldIssues(input);
    if issues == [] then
      Success(SignUpData(input.username, input.password, input.confirmPassword, role.value))
    else
      Failure(issues)
  }

  /** The username messages: the "at least" one exactly when it is shorter
      than 6, the "at most" one exactly when it is longer than 50. */
  lemma {:induction false} SignUpUsernameMessages(input: SignUpInput)
    ensures Issue("username", UsernameTooShort) in Issues(ParseSignUp(input)) <==> |input.username| < UsernameMin
    ensures Issue("username", UsernameTooLong) in Issues(ParseSignUp(input)) <==> |input.username| > UsernameMax
  {
  }

  /** The password and confirmation messages, each on its own field. */
  lemma {:induction false} SignUpPasswordMessages(input: SignUpInput)
    ensures Issue("password", PasswordTooShort) in Issues(ParseSignUp(input)) <==> |input.password| < PasswordMin
    ensures Issue("password", PasswordTooLong) in Issues(ParseSignUp(input)) <==> |input.password| > PasswordMax
    ensures Issue("confirmPassword", PasswordTooShort) in Issues(ParseSignUp(input)) <==> |input.confirmPassword| < PasswordMin
    ensures Issue("confirmPassword", PasswordTooLong) in Issues(ParseSignUp(input)) <==> |input.confirmPassword| > PasswordMax
  {
    SignUpIssuesByPath(input);
  }

  /** With a valid role, "Passwords do not match" is reported on
      `confirmPassword` exactly when the two passwords differ, whatever the
      lengths; with an invalid role the refinement does not run. */
  lemma {:induction false} SignUpMismatchMessage(input: SignUpInput)
    ensures ParseRole(input.role).Success? ==>
      (Issue("confirmPassword", PasswordsDiffer) in Issues(ParseSignUp(input)) <==> input.password != input.confirmPassword)
    ensures ParseRole(input.role).Failure? ==> Issue("confirmPassword", PasswordsDiffer) !in Issues(ParseSignUp(input))
  {
    SignUpIssuesByPath(input);
  }

  /** An absent role is accepted and becomes "user". */
  lemma {:induction false} RoleDefaultsToUser(input: SignUpInput)
    requires input.role == None
    requires SignUpValid(input)
    ensures ParseSignUp(input).Success? && ParseSignUp(input).value.role == User
  {
  }

  /** An issue list whose issues are all on `path` has none on another field. */
  lemma {:induction false} NoneOnOtherPath(r: seq<Issue>, path: string, other: string, m: string)
    requires forall i :: 0 <= i < |r| ==> r[i].path == path
    requires other != path
    ensures Issue(other, m) !in r
  {
  }

  /** Which issues can appear on which field. */
  lemma {:induction false} SignUpIssuesByPath(input: SignUpInput)
    ensures forall m :: Issue("username", m) in FieldIssues(input) <==>
      Issue("username", m) in LengthIssues("username", input.username, UsernameMin, UsernameMax, UsernameTooShort, UsernameTooLong)
    ensures forall m :: Issue("password", m) in FieldIssues(input) <==>
      Issue("password", m) in LengthIssues("password", input.password, PasswordMin, PasswordMax, PasswordTooShort, PasswordTooLong)
    ensures forall m :: Issue("confirmPassword", m) in FieldIssues(input) <==>
      Issue("confirmPassword", m) in LengthIssues("confirmPassword", input.confirmPassword, PasswordMin, PasswordMax, PasswordTooShort, PasswordTooLong)
  {
    var u := LengthIssues("username", input.username, UsernameMin, UsernameMax, UsernameTooShort, UsernameTooLong);
    var p := LengthIssues("password", input.password, PasswordMin, PasswordMax, PasswordTooShort, PasswordTooLong);
    var c := LengthIssues("confirmPassword", input.confirmPassword, PasswordMin, PasswordMax, PasswordTooShort, PasswordTooLong);
    var role := if ParseRole(input.role).Failure? then [ParseRole(input.role).error] else [];
    assert FieldIssues(input) == u + p + c + role;
    assert "username" != "password" && "username" != "confirmPassword" && "password" != "confirmPassword";
    assert "role" != "username" && "role" != "password" && "role" != "confirmPassword";
    forall m ensures Issue("username", m) in FieldIssues(input) <==> Issue("username", m) in u {
      NoneOnOtherPath(p, "password", "username", m);
      NoneOnOtherPath(c, "confirmPassword", "username", m);
      NoneOnOtherPath(role, "role", "username", m);
    }
    forall m ensures Issue("password", m) in FieldIssues(input) <==> Issue("password", m) in p {
      NoneOnOtherPath(u, "username", "password", m);
      NoneOnOtherPath(c, "confirmPassword", "password", m);
      NoneOnOtherPath(role, "role", "password", m);
    }
    forall m ensures Issue("confirmPassword", m) in FieldIssues(input) <==> Issue("confirmPassword", m) in c {
      NoneOnOtherPath(u, "username", "confirmPassword", m);
      NoneOnOtherPath(p, "password", "confirmPassword", m);
      NoneOnOtherPath(role, "role", "confirmPassword", m);
    }
  }

  /** The sign-in rules stated directly: only the two lengths. */
  predicate SignInValid(input: SignInInput)
  {
    UsernameMin <= |input.username| <= UsernameMax && PasswordMin <= |input.password| <= PasswordMax
  }

  /** `UserSignInSchema.safeParse`: no confirmation, no role. */
  function ParseSignIn(input: SignInInput): (r: Parsed<SignInData>)
    ensures r.Success? <==> SignInValid(input)
    ensures r.Success? ==> r.value == SignInData(input.username, input.password)
    ensures r.Failure? ==> r.error != []
    ensures Issue("username", DefaultTooShort6) in Issues(r) <==> |input.username| < UsernameMin
    ensures Issue("username", DefaultTooLong50) in Issues(r) <==> |input.username| > UsernameMax
    ensures Issue("password", PasswordTooShort) in Issues(r) <==> |input.password| < PasswordMin
    ensures Issue("password", PasswordTooLong) in Issues(r) <==> |input.password| > PasswordMax
  {
    var u := LengthIssues("username", input.username, UsernameMin, UsernameMax, DefaultTooShort6, DefaultTooLong50);
    var p := LengthIssues("password", input.password, PasswordMin, PasswordMax, PasswordTooShort, PasswordTooLong);
    assert forall m :: Issue("username", m) !in p;
    assert forall m :: Issue("password", m) !in u;
    if u + p == [] then Success(SignInData(input.username, input.password)) else Failure(u + p)
  }

  /** A sign-up input that passes also passes sign-in with its username and
      password. */
  lemma {:induction false} SignUpImpliesSignIn(input: SignUpInput)
    requires ParseSignUp(input).Success?
    ensures ParseSignIn(SignInInput(input.username, input.password)).Success?
  {
  }
}
