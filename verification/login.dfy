/**
  The phone sign-in page: a one-time reCAPTCHA setup, the phone step that
  converts the number and sends the code, the code step that verifies it
  and stores the session keys, and the stale-session cleanup on load.
  The Firebase and app-state calls are reply parameters.
*/
module LoginPage {
  import opened Wrappers
  import opened Strings
  import PhoneFormat

  datatype Step = PhoneStep | CodeStep

  datatype Button = Button(disabled: bool, caption: string)

  const SendCaption := ">>> SEND CODE <<<"
  const VerifyCaption := ">>> VERIFY CODE <<<"
  const Sending := Button(true, "Sending...")

  const UidKey := "firebase_uid"
  const PhoneKey := "phone_number"

  /**
    The page's state. `notice` is the text of the page's own error line;
    `errors` lists the messages `showError` has added, in order.
  */
  datatype Login = Login(
    recaptchaReady: bool,
    phoneNumber: Option<string>,
    step: Step,
    phoneRequired: bool,
    codeInput: string,
    notice: string,
    errors: seq<string>,
    sendButton: Button,
    verifyButton: Button,
    storage: map<string, string>,
    redirect: Option<string>)

  function ShowError(st: Login, message: string): (r: Login)
    ensures r == st.(errors := st.errors + [message])
  {
    st.(errors := st.errors + [message])
  }

  /** What the send handler asked of Firebase: whether it set up reCAPTCHA, and the number it sent a code to. */
  datatype SendCalls = SendCalls(setup: bool, sentTo: Option<string>)

  /**
    The send-code handler. `setupReply` is the reCAPTCHA setup's result and
    `sendReply` that of `sendOTP`; each is used only when the call is made.
  */
  function SendCode(st: Login, phoneInput: string, setupReply: Result<(), string>, sendReply: Result<(), string>): (r: (Login, SendCalls))
    ensures r.1.setup <==> !st.recaptchaReady
    ensures r.0.recaptchaReady <==> st.recaptchaReady || setupReply.Ok?
    ensures r.1.sentTo.Some? <==>
      (st.recaptchaReady || setupReply.Ok?) && Trim(phoneInput) != "" && PhoneFormat.ToE164(Trim(phoneInput)).Ok?
    ensures r.1.sentTo.Some? ==> r.1.sentTo.value == PhoneFormat.ToE164(Trim(phoneInput)).value
    ensures r.1.sentTo.Some? && sendReply.Ok? ==> r.0.step == CodeStep && !r.0.phoneRequired
    ensures !(r.1.sentTo.Some? && sendReply.Ok?) ==> r.0.step == st.step && r.0.phoneRequired == st.phoneRequired
    ensures r.0.storage == st.storage && r.0.redirect == st.redirect && r.0.codeInput == st.codeInput
  {
    var cleared := st.(notice := "");
    if !st.recaptchaReady && setupReply.Err? then
      (ShowError(cleared, "Setup failed: " + setupReply.error).(sendButton := Button(false, SendCaption)), SendCalls(true, None))
    else
      var ready := if st.recaptchaReady then cleared else cleared.(recaptchaReady := true, sendButton := Button(false, SendCaption));
      var phone := Trim(phoneInput);
      var withPhone := ready.(phoneNumber := Some(phone));
      if phone == "" then (ShowError(withPhone, "Please enter a phone number"), SendCalls(!st.recaptchaReady, None))
      else
        match PhoneFormat.ToE164(phone)
        case Err(e) => (ShowError(withPhone, e), SendCalls(!st.recaptchaReady, None))
        case Ok(e164) =>
          var sending := withPhone.(phoneNumber := Some(e164), sendButton := Sending);
          if sendReply.Ok? then
            (sending.(step := CodeStep, phoneRequired := false), SendCalls(!st.recaptchaReady, Some(e164)))
          else
            var message := if sendReply.error != "" then sendReply.error else "Failed to send code. Try again.";
            (ShowError(sending, message).(sendButton := Button(false, SendCaption)), SendCalls(!st.recaptchaReady, Some(e164)))
  }

  /** An empty phone is refused before conversion; a number that does not convert is refused before any code is sent. */
  lemma NoSendWithoutNumber(st: Login, phoneInput: string, setupReply: Result<(), string>, sendReply: Result<(), string>)
    requires st.recaptchaReady
    requires Trim(phoneInput) == "" || !PhoneFormat.IsValidUSPhone(Trim(phoneInput))
    ensures SendCode(st, phoneInput, setupReply, sendReply).1.sentTo.None?
    ensures Trim(phoneInput) == "" ==>
      SendCode(st, phoneInput, setupReply, sendReply).0.errors == st.errors + ["Please enter a phone number"]
    ensures Trim(phoneInput) != "" ==>
      SendCode(st, phoneInput, setupReply, sendReply).0.errors == st.errors + [PhoneFormat.WrongLength]
  {
  }

  /** The back handler. */
  function Back(st: Login): (r: Login)
    ensures r.step == PhoneStep && r.phoneRequired && r.codeInput == "" && r.notice == ""
    ensures r.sendButton == Button(false, SendCaption)
    ensures r.recaptchaReady == st.recaptchaReady && r.storage == st.storage && r.errors == st.errors
  {
    st.(step := PhoneStep, phoneRequired := true, notice := "", codeInput := "", sendButton := Button(false, SendCaption))
  }

  /** Back after a sent code returns to the phone step with the code field empty and the send button usable again. */
  lemma BackUndoesSend(st: Login, phoneInput: string, setupReply: Result<(), string>)
    requires st.step == PhoneStep && st.phoneRequired
    requires SendCode(st, phoneInput, setupReply, Ok(())).1.sentTo.Some?
    ensures SendCode(st, phoneInput, setupReply, Ok(())).0.step == CodeStep
    ensures var b := Back(SendCode(st, phoneInput, setupReply, Ok(())).0);
      b.step == st.step && b.phoneRequired == st.phoneRequired && b.codeInput == "" && b.sendButton == Button(false, SendCaption)
  {
  }

  /** The reason `verifyOTP` failed: its `code`, if any, and its message. */
  datatype OtpError = OtpError(code: Option<string>, message: string)

  const IncorrectCode := "The code you entered is incorrect. " + "Please try again."
  const ExpiredCode := "This code has expired. " + "Please request a new one."
  const TooManyAttempts := "Too many attempts. " + "Please wait and try again later."
  const VerificationFailed := "Verification failed. " + "Try again."

  /** The message for a failed verification. */
  function OtpMessage(e: OtpError): (m: string)
    ensures e.code == Some("auth/invalid-verification-code") ==> m == IncorrectCode
    ensures e.code == Some("auth/code-expired") ==> m == ExpiredCode
    ensures e.code == Some("auth/too-many-requests") ==> m == TooManyAttempts
    ensures e.code.None? || e.code.value == "" ==> m == VerificationFailed
    ensures e.code.Some? && e.code.value !in {"", "auth/invalid-verification-code", "auth/code-expired", "auth/too-many-requests"} ==>
      m == "Verification error: " + e.message
  {
    if e.code == Some("auth/invalid-verification-code") then IncorrectCode
    else if e.code == Some("auth/code-expired") then ExpiredCode
    else if e.code == Some("auth/too-many-requests") then TooManyAttempts
    else if e.code.Some? && e.code.value != "" then "Verification error: " + e.message
    else VerificationFailed
  }

  /** The four fixed messages differ, so every known code is told apart from the others and from the fallback. */
  lemma FixedMessagesDistinct()
    ensures IncorrectCode != ExpiredCode && IncorrectCode != TooManyAttempts && IncorrectCode != VerificationFailed
    ensures ExpiredCode != TooManyAttempts && ExpiredCode != VerificationFailed && TooManyAttempts != VerificationFailed
  {
    assert IncorrectCode[2] == 'e' && ExpiredCode[2] == 'i';
    assert TooManyAttempts[1] == 'o' && IncorrectCode[1] == 'h' && ExpiredCode[1] == 'h';
    assert VerificationFailed[0] == 'V' && IncorrectCode[0] == 'T' && ExpiredCode[0] == 'T' && TooManyAttempts[0] == 'T';
  }

  /** The reply carries a credential with a uid. */
  predicate GotUid(otpReply: Result<Option<string>, OtpError>) {
    otpReply.Ok? && otpReply.value.Some? && otpReply.value.value != ""
  }

  /** Storage after a verified code: the uid, and the number as `setItem` writes it (`"null"` when never set). */
  function SessionStorage(st: Login, uid: string): map<string, string> {
    st.storage[UidKey := uid][PhoneKey := if st.phoneNumber.Some? then st.phoneNumber.value else "null"]
  }

  /**
    The form-submit handler. `otpReply` is `verifyOTP`'s result, the user
    uid of the credential when it has one; `authOk` is `appState.init()`'s
    answer. The code goes to Firebase only when it is 6 characters long.
  */
  function VerifyCode(st: Login, otpReply: Result<Option<string>, OtpError>, authOk: bool): (r: (Login, Option<string>))
    ensures r.1.Some? <==> |Trim(st.codeInput)| == 6
    ensures r.1.Some? ==> r.1.value == Trim(st.codeInput)
    ensures r.1.None? ==> r.0 == ShowError(st.(notice := ""), "Please enter a valid 6-digit code")
    ensures !(r.1.Some? && GotUid(otpReply)) ==> r.0.storage == st.storage
    ensures r.1.Some? && GotUid(otpReply) ==> r.0.storage == SessionStorage(st, otpReply.value.value)
    ensures !(r.1.Some? && GotUid(otpReply) && authOk) ==> r.0.redirect == st.redirect
    ensures r.1.Some? && GotUid(otpReply) && authOk ==> r.0.redirect == Some("dashboard")
    ensures r.1.Some? && otpReply.Err? ==> r.0.errors == st.errors + [OtpMessage(otpReply.error)]
    ensures r.0.recaptchaReady == st.recaptchaReady && r.0.step == st.step && r.0.phoneNumber == st.phoneNumber
  {
    var cleared := st.(notice := "");
    var code := Trim(st.codeInput);
    if |code| != 6 then (ShowError(cleared, "Please enter a valid 6-digit code"), None)
    else
      var busy := cleared.(verifyButton := Button(true, "Verifying..."));
      var retry := Button(false, VerifyCaption);
      if otpReply.Err? then (ShowError(busy, OtpMessage(otpReply.error)).(verifyButton := retry), Some(code))
      else if !GotUid(otpReply) then
        (ShowError(busy, "Firebase verification failed. Please try again.").(verifyButton := retry), Some(code))
      else
        var stored := busy.(storage := SessionStorage(st, otpReply.value.value));
        if authOk then (stored.(redirect := Some("dashboard")), Some(code))
        else (ShowError(stored, "Authentication failed. Please try again.").(verifyButton := retry), Some(code))
  }

  /** A credential without a uid stores nothing and does not leave the page. */
  lemma CredentialWithoutUid(st: Login, authOk: bool)
    requires |Trim(st.codeInput)| == 6
    ensures VerifyCode(st, Ok(None), authOk).0.storage == st.storage
    ensures VerifyCode(st, Ok(None), authOk).0.redirect == st.redirect
    ensures VerifyCode(st, Ok(None), authOk).0.errors == st.errors + ["Firebase verification failed. Please try again."]
  {
  }

  /**
    Any six characters without white space at either end pass the length
    check unchanged, letters included: the characters are not checked to be digits.
  */
  lemma LettersReachFirebase(st: Login, otpReply: Result<Option<string>, OtpError>, authOk: bool)
    requires |st.codeInput| == 6 && !IsWhitespace(st.codeInput[0]) && !IsWhitespace(st.codeInput[5])
    ensures VerifyCode(st, otpReply, authOk).1 == Some(st.codeInput)
    ensures st.codeInput == "abcdef" ==> VerifyCode(st, otpReply, authOk).1 == Some("abcdef")
  {
    TrimUntouched(st.codeInput);
  }

  /** Once set up, reCAPTCHA is never set up again, whatever the handlers do. */
  lemma SetupAtMostOnce(st: Login, phoneInput: string, setupReply: Result<(), string>, sendReply: Result<(), string>,
                        otpReply: Result<Option<string>, OtpError>, authOk: bool)
    requires st.recaptchaReady
    ensures !SendCode(st, phoneInput, setupReply, sendReply).1.setup
    ensures SendCode(st, phoneInput, setupReply, sendReply).0.recaptchaReady
    ensures Back(st).recaptchaReady && VerifyCode(st, otpReply, authOk).0.recaptchaReady
  {
  }

  const ClearedNotice := "Cleared stale local session data - please sign in."
  const DebugNote := "Redirects are currently DISABLED (debug)"

  /** A uid is stored but the SDK has no user. */
  predicate Stale(storage: map<string, string>, sdkUser: bool) {
    UidKey in storage && storage[UidKey] != "" && !sdkUser
  }

  /**
    The stale-session check on load: a stale uid removes both session keys
    and says so; suppressed redirects append a debug note to the error line.
  */
  function ClearStale(storage: map<string, string>, notice: string, sdkUser: bool, redirectsSuppressed: bool): (r: (map<string, string>, string))
    ensures Stale(storage, sdkUser) ==> r.0 == storage - {UidKey, PhoneKey}
    ensures !Stale(storage, sdkUser) ==> r.0 == storage
    ensures !Stale(r.0, sdkUser)
    ensures !redirectsSuppressed ==> r.1 == (if Stale(storage, sdkUser) then ClearedNotice else notice)
    ensures redirectsSuppressed && Stale(storage, sdkUser) ==> r.1 == ClearedNotice + " | " + DebugNote
    ensures redirectsSuppressed && !Stale(storage, sdkUser) && notice == "" ==> r.1 == DebugNote
    ensures redirectsSuppressed && !Stale(storage, sdkUser) && notice != "" ==> r.1 == notice + " | " + DebugNote
  {
    var s := if Stale(storage, sdkUser) then storage - {UidKey, PhoneKey} else storage;
    var n := if Stale(storage, sdkUser) then ClearedNotice else notice;
    (s, if redirectsSuppressed then (if n != "" then n + " | " else "") + DebugNote else n)
  }

  /** A signed-in SDK user with a loaded profile is sent straight to the dashboard. */
  function AlreadySignedIn(sdkUid: Option<string>, profileId: Option<string>): (r: Option<string>)
    ensures r.Some? <==> sdkUid.Some? && sdkUid.value != "" && profileId.Some? && profileId.value != ""
    ensures r.Some? ==> r.value == "dashboard"
  {
    if sdkUid.Some? && sdkUid.value != "" && profileId.Some? && profileId.value != "" then Some("dashboard") else None
  }
}
