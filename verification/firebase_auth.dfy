/**
  The phone-authentication service: its own phone normaliser, the reCAPTCHA
  and SMS steps as outcome parameters, and the confirmation it keeps between
  sending and verifying a code.
*/
module FirebaseAuth {
  import opened Strings
  import opened Wrappers
  import PhoneFormat

  const InvalidFormat := "Invalid phone number format. Please enter a valid 10-digit US number."
  const GenericFailure := "An unexpected error occurred during phone authentication. Please try again or contact support."
  const NoConfirmation := "No confirmation result. Send OTP first."

  /**
    The normaliser at the top of `sendOTP`. Its third test is `startsWith("")`,
    which every string passes, so any eleven or more digits get a bare `+`.
  */
  function NormalizeForOtp(phone: string): (r: Result<string, string>)
    ensures |Digits(phone)| < 10 <==> r == Err(InvalidFormat)
    ensures |Digits(phone)| == 10 ==> r == Ok("+1" + Digits(phone))
    ensures |Digits(phone)| > 10 ==> r == Ok("+" + Digits(phone))
  {
    var d := Digits(phone);
    if |d| == 10 then Ok("+1" + d)
    else if |d| == 11 && d[0] == '1' then Ok("+" + d)
    else if |d| > 10 && "" <= d then Ok("+" + d)
    else Err(InvalidFormat)
  }

  /** A number already in `+1` form passes through the second normaliser unchanged. */
  lemma {:induction false} NormalizeE164Fixed(phone: string)
    requires PhoneFormat.ToE164(phone).Ok?
    ensures NormalizeForOtp(PhoneFormat.ToE164(phone).value) == PhoneFormat.ToE164(phone)
  {
    var d := Digits(phone);
    var e := "+1" + d;
    assert e == "+" + ("1" + d);
    DigitsAppend("+", "1" + d);
    DigitsAppend("1", d);
    DigitsOfDigits(d);
    assert Digits("+") == "" && Digits("1") == "1";
    assert Digits(e) == "1" + d;
  }

  /** What the service keeps: whether a reCAPTCHA verifier is set, and the pending confirmation. */
  datatype AuthState<C> = AuthState(hasVerifier: bool, confirmation: Option<C>)

  /** The outcome of one `sendOTP` call: the number the SMS was requested for, if it got that far. */
  datatype SendOutcome<C> = SendOutcome(state: AuthState<C>, result: Result<C, string>, requestedFor: Option<string>)

  /**
    `sendOTP`: `renderOk` and `tokenOk` are the reCAPTCHA outcomes (a falsy
    token counts as failure) and `signIn` the SDK's confirmation, `None` when it
    throws. Every failure is rethrown by the outer `catch` as one generic error.
  */
  function SendOtp<C>(st: AuthState<C>, phone: string, renderOk: bool, tokenOk: bool, signIn: Option<C>): (o: SendOutcome<C>)
    ensures o.result.Err? ==> o.result.error == GenericFailure
    ensures o.result.Ok? <==>
      NormalizeForOtp(phone).Ok? && st.hasVerifier && renderOk && tokenOk && signIn.Some?
    ensures o.result.Ok? ==> o.state == st.(confirmation := Some(o.result.value)) && signIn == Some(o.result.value)
    ensures o.requestedFor.Some? ==> NormalizeForOtp(phone) == Ok(o.requestedFor.value)
    ensures !st.hasVerifier ==> o.state == st && o.requestedFor.None?
    ensures o.result.Err? ==> o.state.confirmation == st.confirmation
    ensures o.state.hasVerifier != st.hasVerifier ==> o.requestedFor.Some? && signIn.None?
  {
    match NormalizeForOtp(phone)
    case Err(_) => SendOutcome(st, Err(GenericFailure), None)
    case Ok(number) =>
      if !st.hasVerifier then SendOutcome(st, Err(GenericFailure), None)
      else if !renderOk || !tokenOk then SendOutcome(st, Err(GenericFailure), None)
      else match signIn
        case None => SendOutcome(st.(hasVerifier := false), Err(GenericFailure), Some(number))
        case Some(c) => SendOutcome(st.(confirmation := Some(c)), Ok(c), Some(number))
  }

  /** `verifyOTP`: `confirm` is the SDK check of a code against the pending confirmation. */
  function VerifyOtp<C, U, E>(st: AuthState<C>, code: string, confirm: (C, string) -> Result<U, E>, noConfirmation: E): (r: Result<U, E>)
    ensures st.confirmation.None? ==> r == Err(noConfirmation)
    ensures st.confirmation.Some? ==> r == confirm(st.confirmation.value, code)
  {
    match st.confirmation
    case None => Err(noConfirmation)
    case Some(c) => confirm(c, code)
  }

  /** `signOut`: a successful SDK sign-out drops the pending confirmation; a failure rethrows and keeps it. */
  function SignOut<C>(st: AuthState<C>, sdkOk: bool): (r: (AuthState<C>, bool))
    ensures r.1 == sdkOk
    ensures r.0.hasVerifier == st.hasVerifier
    ensures sdkOk ==> r.0.confirmation.None?
    ensures !sdkOk ==> r.0 == st
  {
    if sdkOk then (st.(confirmation := None), true) else (st, false)
  }

  /** After a successful sign-out, verifying any code fails until a new code is sent. */
  lemma VerifyAfterSignOut<C, U, E>(st: AuthState<C>, code: string, confirm: (C, string) -> Result<U, E>, noConfirmation: E)
    ensures VerifyOtp(SignOut(st, true).0, code, confirm, noConfirmation) == Err(noConfirmation)
  {
  }

  /** A successful send makes the next verification consult that very confirmation. */
  lemma VerifyAfterSend<C, U, E>(st: AuthState<C>, phone: string, c: C, code: string, confirm: (C, string) -> Result<U, E>, noConfirmation: E)
    requires NormalizeForOtp(phone).Ok? && st.hasVerifier
    ensures VerifyOtp(SendOtp(st, phone, true, true, Some(c)).state, code, confirm, noConfirmation) == confirm(c, code)
  {
  }
}
