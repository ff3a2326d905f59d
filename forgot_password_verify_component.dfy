/**
 * The forgot-password verification page as an object: each handler updates
 * the fields in place, and afterwards the state is the matching function of
 * `ForgotPasswordVerify` applied to the state before.
 */
module ForgotPasswordVerifyView {
  import opened Js
  import VerifyCode
  import opened ForgotPasswordVerify

  /**
   * What the page keeps that has no field of its own: the live countdown
   * subscriptions, the requests in flight and sent, and the alerts shown.
   */
  datatype Effects = Effects(
    tickers: nat,
    pendingCodes: nat,
    pendingResets: nat,
    codeRequests: seq<string>,
    resetRequests: seq<ResetRequest>,
    alerts: seq<string>)

  class ForgotPasswordVerifyComponent {
    var verifyForm: ResetForm
    var phoneNumber: string
    var loading: bool
    var isResending: bool
    var countdown: nat
    var effects: Effects

    function State(): Recovery
      reads this
    {
      Recovery(verifyForm, phoneNumber, loading, VerifyCode.Resend(countdown, isResending, effects.tickers),
               effects.pendingCodes, effects.pendingResets, effects.codeRequests, effects.resetRequests, effects.alerts)
    }

    predicate Valid()
      reads this
    {
      Inv(State())
    }

    constructor (phoneParam: Option<string>)
      ensures Valid() && State() == Init(phoneParam)
    {
      verifyForm := ResetForm("", "", "");
      phoneNumber := OrEmpty(phoneParam);
      loading, isResending, countdown := false, false, VerifyCode.CountdownStart;
      effects := Effects(0, 0, 0, [], [], []);
      new;
      StartCountdown();
    }

    method StartCountdown()
      requires Valid()
      modifies this
      ensures Valid() && State() == ForgotPasswordVerify.StartCountdown(old(State()))
    {
      countdown := VerifyCode.CountdownStart;
      effects := effects.(tickers := effects.tickers + 1);
    }

    /** The user edits the form. */
    method SetForm(f: ResetForm)
      requires Valid()
      modifies this
      ensures Valid() && State() == Input(old(State()), f)
    {
      verifyForm := f;
    }

    /** `resendCode` up to its request; returns the phone number sent, if any. */
    method ResendCode() returns (sent: Option<string>)
      requires Valid()
      modifies this
      ensures Valid() && State() == ForgotPasswordVerify.ResendCode(old(State()))
      ensures sent.Some? <==> !old(isResending)
      ensures sent.Some? ==> sent.value == phoneNumber
    {
      if isResending {
        return None;
      }
      isResending := true;
      countdown := VerifyCode.CountdownStart;
      effects := effects.(pendingCodes := effects.pendingCodes + 1, codeRequests := effects.codeRequests + [phoneNumber]);
      sent := Some(phoneNumber);
    }

    /** The `forgotPassword` call resolved. */
    method OnResendSucceeded()
      requires Valid() && effects.pendingCodes > 0
      modifies this
      ensures Valid() && State() == CodeResent(old(State()))
    {
      effects := effects.(pendingCodes := effects.pendingCodes - 1);
      StartCountdown();
    }

    /** The `forgotPassword` call threw. */
    method OnResendFailed()
      requires Valid() && effects.pendingCodes > 0
      modifies this
      ensures Valid() && State() == CodeResendFailed(old(State()))
    {
      isResending := false;
      effects := effects.(pendingCodes := effects.pendingCodes - 1);
    }

    /** One callback of a countdown subscription. */
    method OnTick()
      requires Valid() && effects.tickers > 0
      modifies this
      ensures Valid() && State() == TickCountdown(old(State()))
    {
      if countdown > 0 {
        countdown := countdown - 1;
      } else {
        isResending := false;
      }
    }

    /** `onSubmit`; returns the reset request sent, if any. */
    method OnSubmit() returns (sent: Option<ResetRequest>)
      requires Valid()
      modifies this
      ensures Valid() && State() == Submit(old(State()))
      ensures sent.Some? <==> ResetFormValid(old(verifyForm)) && old(verifyForm).newPassword == old(verifyForm).confirmNewPassword
      ensures sent.Some? ==> sent.value == RequestOf(old(State()))
    {
      if !ResetFormValid(verifyForm) {
        return None;
      }
      if verifyForm.newPassword != verifyForm.confirmNewPassword {
        effects := effects.(alerts := effects.alerts + [MismatchAlert]);
        return None;
      }
      loading := true;
      var request := ResetRequest(phoneNumber, verifyForm.code, verifyForm.newPassword, verifyForm.confirmNewPassword);
      effects := effects.(pendingResets := effects.pendingResets + 1, resetRequests := effects.resetRequests + [request]);
      sent := Some(request);
    }

    /** `resetPassword` completed, by `next` or by `error`. */
    method OnResetFinished()
      requires Valid() && effects.pendingResets > 0
      modifies this
      ensures Valid() && State() == ResetFinished(old(State()))
    {
      loading := false;
      effects := effects.(pendingResets := effects.pendingResets - 1);
    }

    /** `ngOnDestroy`. */
    method Destroy()
      requires Valid()
      modifies this
      ensures Valid() && State() == ForgotPasswordVerify.Destroy(old(State()))
    {
      effects := effects.(tickers := 0);
    }
  }
}
