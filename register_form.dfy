/**
 * The registration form: its schema (three field rules and the
 * password-confirmation rule) and what submitting does to the form's
 * `loading` and `error` state.
 *
 * The e-mail check is a library pattern, taken here as the verdict
 * `emailOk`; the sign-up call's outcome is a parameter.
 */
module RegisterForm {
  import opened Wrappers

  datatype RegisterValues = RegisterValues(name: string, email: string, password: string, confirmPassword: string)

  datatype Field = Name | Email | Password | ConfirmPassword

  datatype Issue = Issue(field: Field, message: string)

  const NameTooShort := "Name must be at least 3 characters"
  const InvalidEmail := "Invalid email address"
  const PasswordTooShort := "Password must be at least 8 characters"
  const PasswordsDiffer := "Passwords don't match"
  const UnexpectedError := "An unexpected error occurred"

  /**
   * The issues the schema reports, in field order. The confirmation rule
   * runs even when a field rule failed, since a too-short string or a bad
   * e-mail does not stop the object check.
   */
  function Issues(v: RegisterValues, emailOk: bool): (r: seq<Issue>)
    ensures (exists i :: i in r && i.field == Name) <==> |v.name| < 3
    ensures (exists i :: i in r && i.field == Email) <==> !emailOk
    ensures (exists i :: i in r && i.field == Password) <==> |v.password| < 8
    ensures (exists i :: i in r && i.field == ConfirmPassword) <==> v.password != v.confirmPassword
    ensures |r| <= 4
  {
    (if |v.name| < 3 then [Issue(Name, NameTooShort)] else [])
    + (if !emailOk then [Issue(Email, InvalidEmail)] else [])
    + (if |v.password| < 8 then [Issue(Password, PasswordTooShort)] else [])
    + (if v.password != v.confirmPassword then [Issue(ConfirmPassword, PasswordsDiffer)] else [])
  }

  /** The values pass the schema, so `onSubmit` runs. */
  predicate Accepted(v: RegisterValues, emailOk: bool) {
    Issues(v, emailOk) == []
  }

  /** The schema accepts exactly the values meeting all four rules. */
  lemma AcceptedIffAllRules(v: RegisterValues, emailOk: bool)
    ensures Accepted(v, emailOk) <==>
              |v.name| >= 3 && emailOk && |v.password| >= 8 && v.password == v.confirmPassword
  {
    var r := Issues(v, emailOk);
    if r != [] {
      assert r[0] in r;
    }
  }

  /** A confirmation that differs is reported on the confirmation field, whatever else is wrong. */
  lemma MismatchReportedOnConfirmation(v: RegisterValues, emailOk: bool)
    requires v.password != v.confirmPassword
    ensures Issue(ConfirmPassword, PasswordsDiffer) in Issues(v, emailOk)
    ensures !Accepted(v, emailOk)
  {
    var r := Issues(v, emailOk);
    assert r[|r| - 1] == Issue(ConfirmPassword, PasswordsDiffer);
  }

  /** What the sign-up call did: succeeded, answered with an error, or threw. */
  datatype SignUpOutcome = SignedUp | SignUpError(message: string) | SignUpThrew

  /** The sign-up request: the form's e-mail and password, and the callback address. */
  datatype SignUpRequest = SignUpRequest(email: string, password: string, redirectTo: string)

  class Form {
    var error: Option<string>
    var loading: bool
    /** The page reload requested after a successful sign-up. */
    var reloadRequested: bool
    /** Every value the loading flag has been set to, in order. */
    ghost var loadingTrace: seq<bool>
    ghost var requests: seq<SignUpRequest>

    constructor ()
      ensures error == None && !loading && !reloadRequested
      ensures loadingTrace == [false] && requests == []
    {
      error := None;
      loading := false;
      reloadRequested := false;
      loadingTrace := [false];
      requests := [];
    }

    /**
     * `handleSubmit(onSubmit)`: nothing happens to values the schema rejects;
     * otherwise loading goes on, one sign-up request goes out, its outcome
     * sets the error or requests a reload, and loading goes off on every path.
     */
    method Submit(v: RegisterValues, emailOk: bool, origin: string, outcome: SignUpOutcome)
      modifies this
      ensures !Accepted(v, emailOk) ==> unchanged(this)
      ensures Accepted(v, emailOk) ==>
                && requests == old(requests) + [SignUpRequest(v.email, v.password, origin + "/auth/callback")]
                && loadingTrace == old(loadingTrace) + [true, false] && !loading
                && (outcome.SignedUp? ==> reloadRequested && error == old(error))
                && (outcome.SignUpError? ==> error == Some(outcome.message) && reloadRequested == old(reloadRequested))
                && (outcome.SignUpThrew? ==> error == Some(UnexpectedError) && reloadRequested == old(reloadRequested))
    {
      if !Accepted(v, emailOk) {
        return;
      }
      loading := true;
      loadingTrace := loadingTrace + [true];
      requests := requests + [SignUpRequest(v.email, v.password, origin + "/auth/callback")];
      match outcome {
        case SignedUp =>
          reloadRequested := true;
        case SignUpError(message) =>
          error := Some(message);
        case SignUpThrew =>
          error := Some(UnexpectedError);
      }
      loading := false;
      loadingTrace := loadingTrace + [false];
    }
  }
}
