/**
 * The page that asks for the code sent after registration: the class holds the
 * fields the page updates in place, and after each handler its state is the
 * matching `VerifyCode` step applied to the state before.
 */
module RegisterVerify {
  import opened Js
  import opened VerifyCode

  /** The query parameters the registration page passes on. */
  datatype Registration = Registration(phoneNumber: string, password: string, firstName: string, lastName: string)

  /** The body of `verifyCode`. */
  datatype RegisterVerifyRequest =
    RegisterVerifyRequest(phoneNumber: string, password: string, code: string, firstName: string, lastName: string)

  /** A resend calls `register` with the phone number alone. */
  type RegisterPage = Verifier<Registration, string, RegisterVerifyRequest>

  class RegisterVerifyComponent {
    var verifyForm: CodeForm
    var phoneNumber: string
    var password: string
    var firstName: string
    var lastName: string
    var loading: bool
    var isResending: bool
    var countdown: nat
    var effects: Effects<string, RegisterVerifyRequest>

    function State(): RegisterPage
      reads this
    {
      Verifier(Registration(phoneNumber, password, firstName, lastName), verifyForm.code, loading,
               Resend(countdown, isResending, effects.tickers), effects.pendingResends, effects.pendingVerifies,
               effects.resendRequests, effects.verifyRequests, effects.token)
    }

    predicate Valid()
      reads this
    {
      Inv(State())
    }

    constructor ()
      ensures Valid() && State() == Init(Registration("", "", "", ""))
    {
      verifyForm := CodeForm("");
      phoneNumber, password, firstName, lastName := "", "", "", "";
      loading, isResending, countdown := false, false, CountdownStart;
      effects := Effects(0, 0, 0, [], [], None);
    }

    /** `ngOnInit`: the four fields from the query parameters, `''` when absent. */
    method OnInit(phoneParam: Option<string>, passwordParam: Option<string>, firstNameParam: Option<string>,
                  lastNameParam: Option<string>)
      requires Valid()
      modifies this
      ensures Valid()
      ensures State() == ReceiveParams(old(State()), Registration(OrEmpty(phoneParam), OrEmpty(passwordParam),
                                                                  OrEmpty(firstNameParam), OrEmpty(lastNameParam)))
    {
      phoneNumber := OrEmpty(phoneParam);
      password := OrEmpty(passwordParam);
      firstName := OrEmpty(firstNameParam);
      lastName := OrEmpty(lastNameParam);
    }

    /** The user types into the code field. */
    method SetCode(code: string)
      requires Valid()
      modifies this
      ensures Valid() && State() == Input(old(State()), code)
    {
      verifyForm := CodeForm(code);
    }

    method GetErrorMessage(fieldName: string) returns (msg: string)
      ensures msg == ErrorMessage(fieldName, verifyForm.code)
    {
      if fieldName != "code" {
        return "";
      }
      var code := verifyForm.code;
      var length := Utf16Length(code);
      if code == "" {
        msg := RequiredMessage;
      } else if length < CodeLength || length > CodeLength {
        msg := CodeLengthMessage;
      } else {
        msg := "";
      }
    }

    /** `resendCode` up to its request; returns the request sent, if any. */
    method ResendCode() returns (sent: Option<string>)
      requires Valid()
      modifies this
      ensures Valid() && State() == VerifyCode.ResendCode(old(State()), old(phoneNumber))
      ensures sent.Some? <==> !old(isResending)
      ensures sent.Some? ==> sent.value == phoneNumber
    {
      if isResending {
        return None;
      }
      isResending := true;
      countdown := CountdownStart;
      var request := phoneNumber;
      effects := effects.(pendingResends := effects.pendingResends + 1, resendRequests := effects.resendRequests + [request]);
      sent := Some(request);
    }

    /** The `register` call resolved: `startCountdown`. */
    method OnResendSucceeded()
      requires Valid() && effects.pendingResends > 0
      modifies this
      ensures Valid() && State() == ResendSucceeded(old(State()))
    {
      effects := effects.(tickers := effects.tickers + 1, pendingResends := effects.pendingResends - 1);
    }

    /** The `register` call threw. */
    method OnResendFailed()
      requires Valid() && effects.pendingResends > 0
      modifies this
      ensures Valid() && State() == ResendFailed(old(State()))
    {
      isResending := false;
      effects := effects.(pendingResends := effects.pendingResends - 1);
    }

    /** One callback of a countdown subscription. */
    method OnTick()
      requires Valid() && effects.tickers > 0
      modifies this
      ensures Valid() && State() == TickCountdown(old(State()))
    {
      if countdown > 0 {
        countdown := countdown - 1;
      } else {
        isResending := false;
      }
    }

    /** `onSubmit` up to its request; returns the request sent, if any. */
    method OnSubmit() returns (sent: Option<RegisterVerifyRequest>)
      requires Valid()
      modifies this
      ensures Valid()
      ensures State() == Submit(old(State()), RegisterVerifyRequest(old(phoneNumber), old(password), old(verifyForm.code),
                                                                   old(firstName), old(lastName)))
      ensures sent.Some? <==> CodeValid(old(verifyForm.code)) && !old(loading)
      ensures sent.Some? ==> sent.value == RegisterVerifyRequest(phoneNumber, password, verifyForm.code, firstName, lastName)
    {
      if !CodeValid(verifyForm.code) || loading {
        return None;
      }
      loading := true;
      var request := RegisterVerifyRequest(phoneNumber, password, verifyForm.code, firstName, lastName);
      effects := effects.(pendingVerifies := effects.pendingVerifies + 1, verifyRequests := effects.verifyRequests + [request]);
      sent := Some(request);
    }

    /** `verifyCode` replied; `accessToken` is `response?.tokens?.accessToken`. */
    method OnVerifySucceeded(accessToken: Option<string>)
      requires Valid() && effects.pendingVerifies > 0
      modifies this
      ensures Valid() && State() == VerifyFinished(old(State()), accessToken)
    {
      if IsTruthy(accessToken) {
        effects := effects.(token := accessToken);
      }
      loading := false;
      effects := effects.(pendingVerifies := effects.pendingVerifies - 1);
    }

    /** `verifyCode` threw. */
    method OnVerifyFailed()
      requires Valid() && effects.pendingVerifies > 0
      modifies this
      ensures Valid() && State() == VerifyFinished(old(State()), None)
    {
      loading := false;
      effects := effects.(pendingVerifies := effects.pendingVerifies - 1);
    }

    /** `ngOnDestroy`. */
    method Destroy()
      requires Valid()
      modifies this
      ensures Valid() && State() == VerifyCode.Destroy(old(State()))
    {
      effects := effects.(tickers := 0);
    }
  }
}
