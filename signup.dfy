/**
 * The sign-up page: its schema, the registration request built from the
 * form (the user name is the address's local part), and how the outcome of
 * the call is handled.
 */
module SignupPage {
  import opened Common

  datatype SignupFormValues = SignupFormValues(name: string, email: string, password: string)

  /** The body of the registration call. */
  datatype RegisterRequest = RegisterRequest(email: string, username: string, password: string, fullName: string)

  /** What the API client's register call came back with. */
  datatype RegisterOutcome = Registered | ErrorResponse(error: string) | Threw

  const DashboardPath: string := "/dashboard"
  const RegistrationFailed: string := "Registration failed. Please try again."

  /** signupSchema; the email validator is a parameter. */
  function ValidateSignup(v: SignupFormValues, isEmail: string -> bool): (issues: seq<Issue>)
    ensures issues == [] <==> |v.name| >= 2 && isEmail(v.email) && |v.password| >= 8
  {
    MinLength("name", v.name, 2, "Name must be at least 2 characters")
      + (if isEmail(v.email) then [] else [Issue("email", "Invalid email address")])
      + MinLength("password", v.password, 8, "Password must be at least 8 characters")
  }

  /** `email.split('@')[0]`: everything before the first '@', or the whole address when there is none. */
  function EmailPrefix(email: string): (r: string)
    ensures r <= email && '@' !in r
    ensures |r| < |email| ==> email[|r|] == '@'
    ensures '@' !in email ==> r == email
  {
    if email == [] || email[0] == '@' then []
    else [email[0]] + EmailPrefix(email[1..])
  }

  /** The prefix is the part before the first '@' also when there are several. */
  lemma EmailPrefixOfAddress(local: string, domain: string)
    requires '@' !in local
    ensures EmailPrefix(local + "@" + domain) == local
  {
    var e := local + "@" + domain;
    assert e[|local|] == '@';
    assert e[..|local|] == local;
  }

  function RegistrationRequest(v: SignupFormValues): (req: RegisterRequest)
    ensures req.email == v.email && req.password == v.password && req.fullName == v.name
    ensures req.username == EmailPrefix(v.email)
  {
    RegisterRequest(v.email, EmailPrefix(v.email), v.password, v.name)
  }

  /** The outcome is reported as a failure: the call threw, or its error message is truthy. */
  predicate ShowsError(outcome: RegisterOutcome)
  {
    outcome.Threw? || (outcome.ErrorResponse? && outcome.error != "")
  }

  class SignupView {
    var isLoading: bool

    constructor ()
      ensures !isLoading
    {
      isLoading := false;
    }

    /**
     * onSubmit for a given outcome of the call: the request sent, where to
     * navigate and the error shown. `if (response.error)` is a truthiness
     * test, so an error response with an empty message navigates like a
     * success. Loading ends on every outcome.
     */
    method OnSubmit(values: SignupFormValues, outcome: RegisterOutcome)
      returns (request: RegisterRequest, navigateTo: Option<string>, shownError: Option<string>)
      modifies this
      ensures request == RegistrationRequest(values)
      ensures !isLoading
      ensures navigateTo.Some? <==> !ShowsError(outcome)
      ensures navigateTo.Some? ==> navigateTo.value == DashboardPath
      ensures shownError.None? <==> !ShowsError(outcome)
      ensures outcome.ErrorResponse? && outcome.error != "" ==> shownError == Some(outcome.error)
      ensures outcome.Threw? ==> shownError == Some(RegistrationFailed)
    {
      isLoading := true;
      request := RegistrationRequest(values);
      navigateTo, shownError := None, None;
      if outcome.Threw? {
        shownError := Some(RegistrationFailed);
      } else if outcome.ErrorResponse? && outcome.error != "" {
        shownError := Some(outcome.error);
      } else {
        navigateTo := Some(DashboardPath);
      }
      isLoading := false;
    }
  }
}
