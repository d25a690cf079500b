/** The sign-up form of src/components/auth/SignupModal.tsx: the order of its
    checks and what each outcome leaves in the form. */
module SignupModal {
  import opened Wrappers
  import opened Text

  /** The account kinds the form offers. */
  datatype SignupType = CustomerAccount | BarberAccount

  /** The signUp call the form makes. */
  datatype SignUpCall = SignUpCall(email: string, password: string, fullName: string, kind: SignupType)

  /** How signUp ends: it returns, or throws with a message. */
  datatype SignUpOutcome = Accepted | Rejected(message: string)

  const Mismatch := "Passwords do not match"
  const TooShort := "Password must be at least 6 characters"
  const Created := "Account created successfully! Please check your email to verify your account."

  /** The first validation message for a password pair, if any: the
      mismatch check comes before the length check. */
  function ValidationError(password: string, confirmPassword: string): (r: Option<string>)
    ensures password != confirmPassword ==> r == Some(Mismatch)
    ensures password == confirmPassword && |password| < 6 ==> r == Some(TooShort)
    ensures r.None? <==> password == confirmPassword && |password| >= 6
  {
    if password != confirmPassword then Some(Mismatch)
    else if |password| < 6 then Some(TooShort)
    else None
  }

  class SignupForm {
    var signupType: SignupType
    var fullName: string
    var email: string
    var password: string
    var confirmPassword: string
    var loading: bool
    var error: string
    var success: string

    constructor ()
      ensures signupType == CustomerAccount && FormEmpty() && !loading && error == "" && success == ""
    {
      signupType := CustomerAccount;
      fullName, email, password, confirmPassword := "", "", "", "";
      loading := false;
      error, success := "", "";
    }

    predicate FormEmpty()
      reads this
    {
      fullName == "" && email == "" && password == "" && confirmPassword == ""
    }

    /** handleSubmit: validate, then call signUp once with the chosen account
        kind; the call made, if any, is returned. */
    method HandleSubmit(outcome: SignUpOutcome) returns (call: Option<SignUpCall>)
      modifies this
      ensures signupType == old(signupType)
      ensures ValidationError(old(password), old(confirmPassword)).Some? ==>
        call.None? && error == ValidationError(old(password), old(confirmPassword)).value && success == ""
        && fullName == old(fullName) && email == old(email) && password == old(password)
        && confirmPassword == old(confirmPassword) && loading == old(loading)
      ensures ValidationError(old(password), old(confirmPassword)).None? ==>
        call == Some(SignUpCall(old(email), old(password), old(fullName), old(signupType))) && !loading
      ensures ValidationError(old(password), old(confirmPassword)).None? && outcome.Accepted? ==>
        FormEmpty() && success == Created && error == ""
      ensures ValidationError(old(password), old(confirmPassword)).None? && outcome.Rejected? ==>
        error == OrElse(Some(outcome.message), "Failed to create account") && success == ""
        && fullName == old(fullName) && email == old(email) && password == old(password)
        && confirmPassword == old(confirmPassword)
    {
      error := "";
      success := "";
      var invalid := ValidationError(password, confirmPassword);
      if invalid.Some? {
        error := invalid.value;
        return None;
      }
      loading := true;
      call := Some(SignUpCall(email, password, fullName, signupType));
      if outcome.Accepted? {
        success := Created;
        fullName, email, password, confirmPassword := "", "", "", "";
      } else {
        error := OrElse(Some(outcome.message), "Failed to create account");
      }
      loading := false;
    }

    /** handleClose: clear the messages and every field. */
    method HandleClose()
      modifies this
      ensures FormEmpty() && error == "" && success == ""
      ensures signupType == old(signupType) && loading == old(loading)
    {
      error, success := "", "";
      fullName, email, password, confirmPassword := "", "", "", "";
    }
  }
}
