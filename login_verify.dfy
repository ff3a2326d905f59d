/**
 * The page that asks for the code sent after a login: the class holds the
 * fields the page updates in place, and after each handler its state is the
 * matching `VerifyCode` step applied to the state before.
 */
module LoginVerify {
  import opened Js
  import opened VerifyCode

  /** The query parameters the login page passes on; a resend calls `login` with them again. */
  datatype Credentials = Credentials(phoneNumber: string, password: string)

  /** The body of `loginVerify`. */
  datatype LoginVerifyRequest = LoginVerifyRequest(phoneNumber: string, password: string, code: string)

  type LoginPage = Verifier<Credentials, Credentials, LoginVerifyRequest>

  class LoginVerifyComponent {
    var verifyForm: CodeForm
    var phoneNumber: string
    var password: string
    var loading: bool
    var isResending: bool
    var countdown: nat
    var effects: Effects<Credentials, LoginVerifyRequest>

    function State(): LoginPage
      reads this
    {
      Verifier(Credentials(phoneNumber, password), verifyForm.code, loading,
               Resend(countdown, isResending, effects.tickers), effects.pendingResends, effects.pendingVerifies,
               effects.resendRequests, effects.verifyRequests, effects.token)
    }

    predicate Valid()
      reads this
    {
      Inv(State())
    }

    constructor ()
      ensures Valid() && State() == Init(Credentials("", ""))
    {
      verifyForm := CodeForm("");
      phoneNumber, password := "", "";
      loading, isResending, countdown := false, false, CountdownStart;
      effects := Effects(0, 0, 0, [], [], None);
    }

    /** `ngOnInit`: `phoneNumber` and `password` from the query parameters, `''` when absent. */
    method OnInit(phoneParam: Option<string>, passwordParam: Option<string>)
      requires Valid()
      modifies this
      ensures Valid() && State() == ReceiveParams(old(State()), Credentials(OrEmpty(phoneParam), OrEmpty(passwordParam)))
    {
      phoneNumber := OrEmpty(phoneParam);
      password := OrEmpty(passwordParam);
    }

    /** The user types into the code field. */
    method SetCode(code: string)
      requires Valid()
      modifies this
      ensures Valid() && State() == Input(old(State()), code)
    {
      verifyForm := CodeForm(code);
    }

    method GetErrorMessage(fieldName: string) returns (msg: string)
      ensures msg == ErrorMessage(fieldName, verifyForm.code)
    {
      if fieldName != "code" {
        return "";
      }
      var code := verifyForm.code;
      var length := Utf16Length(code);
      if code == "" {
        msg := RequiredMessage;
      } else if length < CodeLength || length > CodeLength {
        msg := CodeLengthMessage;
      } else {
        msg := "";
      }
    }

    /** `resendCode` up to its request; returns the request sent, if any. */
    method ResendCode() returns (sent: Option<Credentials>)
      requires Valid()
      modifies this
      ensures Valid() && State() == VerifyCode.ResendCode(old(State()), Credentials(old(phoneNumber), old(password)))
      ensures sent.Some? <==> !old(isResending)
      ensures sent.Some? ==> sent.value == Credentials(phoneNumber, password)
    {
      if isResending {
        return None;
      }
      isResending := true;
      countdown := CountdownStart;
      var request := Credentials(phoneNumber, password);
      effects := effects.(pendingResends := effects.pendingResends + 1, resendRequests := effects.resendRequests + [request]);
      sent := Some(request);
    }

    /** The `login` call resolved: `startCountdown`. */
    method OnResendSucceeded()
      requires Valid() && effects.pendingResends > 0
      modifies this
      ensures Valid() && State() == ResendSucceeded(old(State()))
    {
      effects := effects.(tickers := effects.tickers + 1, pendingResends := effects.pendingResends - 1);
    }

    /** The `login` call threw. */
    method OnResendFailed()
      requires Valid() && effects.pendingResends > 0
      modifies this
      ensures Valid() && State() == ResendFailed(old(State()))
    {
      isResending := false;
      effects := effects.(pendingResends := effects.pendingResends - 1);
    }

    /** One callback of a countdown subscription. */
    method OnTick()
      requires Valid() && effects.tickers > 0
      modifies this
      ensures Valid() && State() == TickCountdown(old(State()))
    {
      if countdown > 0 {
        countdown := countdown - 1;
      } else {
        isResending := false;
      }
    }

    /** `onSubmit` up to its request; returns the request sent, if any. */
    method OnSubmit() returns (sent: Option<LoginVerifyRequest>)
      requires Valid()
      modifies this
      ensures Valid()
      ensures State() == Submit(old(State()), LoginVerifyRequest(old(phoneNumber), old(password), old(verifyForm.code)))
      ensures sent.Some? <==> CodeValid(old(verifyForm.code)) && !old(loading)
      ensures sent.Some? ==> sent.value == LoginVerifyRequest(phoneNumber, password, verifyForm.code)
    {
      if !CodeValid(verifyForm.code) || loading {
        return None;
      }
      loading := true;
      var request := LoginVerifyRequest(phoneNumber, password, verifyForm.code);
      effects := effects.(pendingVerifies := effects.pendingVerifies + 1, verifyRequests := effects.verifyRequests + [request]);
      sent := Some(request);
    }

    /** `loginVerify` replied; `accessToken` is `response?.item1?.accessToken`. */
    method OnVerifySucceeded(accessToken: Option<string>)
      requires Valid() && effects.pendingVerifies > 0
      modifies this
      ensures Valid() && State() == VerifyFinished(old(State()), accessToken)
    {
      if IsTruthy(accessToken) {
        effects := effects.(token := accessToken);
      }
      loading := false;
      effects := effects.(pendingVerifies := effects.pendingVerifies - 1);
    }

    /** `loginVerify` threw. */
    method OnVerifyFailed()
      requires Valid() && effects.pendingVerifies > 0
      modifies this
      ensures Valid() && State() == VerifyFinished(old(State()), None)
    {
      loading := false;
      effects := effects.(pendingVerifies := effects.pendingVerifies - 1);
    }

    /** `ngOnDestroy`. */
    method Destroy()
      requires Valid()
      modifies this
      ensures Valid() && State() == VerifyCode.Destroy(old(State()))
    {
      effects := effects.(tickers := 0);
    }
  }
}
