/**
 * The page that asks for the code sent by "forgot password" together with
 * the new password. Unlike the login and registration pages it starts its
 * countdown when it is constructed, resets the countdown on every
 * `startCountdown`, checks that the two passwords agree, and has no
 * `loading` guard on submit.
 */
module ForgotPasswordVerify {
  import opened Js
  import VerifyCode

  const MinPasswordLength: nat := 6
  const MismatchAlert := "Parollar mos emas!"

  /** The form group: `code`, `newPassword`, `confirmNewPassword`. */
  datatype ResetForm = ResetForm(code: string, newPassword: string, confirmNewPassword: string)

  /** The body of `resetPassword`. */
  datatype ResetRequest = ResetRequest(phoneNumber: string, code: string, newPassword: string, confirmNewPassword: string)

  /** `Validators.required` on a string: it is not empty. */
  predicate Required(v: string)
  {
    v != ""
  }

  /** `Validators.minLength(n)`: an empty value passes, any other needs `n` UTF-16 units. */
  predicate MinLength(v: string, n: nat)
  {
    v == "" || Utf16Length(v) >= n
  }

  /**
   * `Validators.pattern(/^\d{6}$/)`: an empty value passes, any other must
   * be six ASCII digits from start to end (`$` without the `m` flag only
   * matches at the very end). Digits are single UTF-16 units, so counting
   * characters here counts units.
   */
  predicate SixDigits(v: string)
  {
    v == "" || (|v| == 6 && AllDigits(v))
  }

  /** Every control of the form is valid. */
  function ResetFormValid(f: ResetForm): (valid: bool)
    ensures valid <==> |f.code| == 6 && AllDigits(f.code)
                       && Utf16Length(f.newPassword) >= MinPasswordLength
                       && Utf16Length(f.confirmNewPassword) >= MinPasswordLength
  {
    Required(f.code) && SixDigits(f.code)
    && Required(f.newPassword) && MinLength(f.newPassword, MinPasswordLength)
    && Required(f.confirmNewPassword) && MinLength(f.confirmNewPassword, MinPasswordLength)
  }

  /** Four letters and one character above U+FFFF are six UTF-16 units, enough for `minLength(6)`. */
  lemma AstralPasswordLongEnough()
    ensures ResetFormValid(ResetForm("123456", "abcd\U{1F600}", "abcd\U{1F600}"))
  {
    assert "abcd\U{1F600}"[1..] == "bcd\U{1F600}";
    assert Utf16Length("\U{1F600}") == 2;
  }

  /**
   * The page: its form, the phone number from the query parameters,
   * `loading`, the countdown, the `forgotPassword` requests (resends) and
   * `resetPassword` requests in flight and sent, and the alerts shown.
   */
  datatype Recovery = Recovery(
    form: ResetForm,
    phoneNumber: string,
    loading: bool,
    resend: VerifyCode.Resend,
    pendingCodes: nat,
    pendingResets: nat,
    codeRequests: seq<string>,
    resetRequests: seq<ResetRequest>,
    alerts: seq<string>)

  /** `loading` is only set while some reset request is out. */
  predicate Inv(m: Recovery)
  {
    m.loading ==> m.pendingResets > 0
  }

  /** `startCountdown`: the countdown goes back to 60 and one more subscription runs. */
  function StartCountdown(m: Recovery): (r: Recovery)
    ensures Inv(m) ==> Inv(r)
    ensures r.resend == VerifyCode.Restart(m.resend) && r.form == m.form
  {
    m.(resend := VerifyCode.Restart(m.resend))
  }

  /**
   * The constructor: an empty form, the phone number from the query
   * parameters (`''` when absent), and a countdown already running, while
   * the resend guard is free.
   */
  function Init(phoneParam: Option<string>): (m: Recovery)
    ensures Inv(m)
    ensures m.phoneNumber == OrEmpty(phoneParam)
    ensures m.resend == VerifyCode.Resend(VerifyCode.CountdownStart, false, 1)
  {
    StartCountdown(Recovery(ResetForm("", "", ""), OrEmpty(phoneParam), false, VerifyCode.Resend(VerifyCode.CountdownStart, false, 0),
                            0, 0, [], [], []))
  }

  /** The user edits the form. */
  function Input(m: Recovery, f: ResetForm): (r: Recovery)
    ensures Inv(m) ==> Inv(r)
    ensures r.form == f && r.resend == m.resend && r.resetRequests == m.resetRequests
  {
    m.(form := f)
  }

  /** `resendCode` up to its request: `forgotPassword` is called only when the guard is free. */
  function ResendCode(m: Recovery): (r: Recovery)
    ensures Inv(m) ==> Inv(r)
    ensures r.codeRequests == m.codeRequests + [m.phoneNumber] <==> !m.resend.isResending
    ensures m.resend.isResending ==> r == m
    ensures !m.resend.isResending ==> r.resend == VerifyCode.Resend(VerifyCode.CountdownStart, true, m.resend.tickers)
  {
    if m.resend.isResending then m
    else m.(resend := VerifyCode.BeginResend(m.resend), pendingCodes := m.pendingCodes + 1,
            codeRequests := m.codeRequests + [m.phoneNumber])
  }

  /** The `forgotPassword` call resolved: `startCountdown` again. */
  function CodeResent(m: Recovery): (r: Recovery)
    requires m.pendingCodes > 0
    ensures Inv(m) ==> Inv(r)
    ensures r.resend == VerifyCode.Restart(m.resend) && r.pendingCodes == m.pendingCodes - 1
  {
    StartCountdown(m).(pendingCodes := m.pendingCodes - 1)
  }

  /** The `forgotPassword` call threw: the guard is released. */
  function CodeResendFailed(m: Recovery): (r: Recovery)
    requires m.pendingCodes > 0
    ensures Inv(m) ==> Inv(r)
    ensures r.resend == VerifyCode.ResendRefused(m.resend) && r.pendingCodes == m.pendingCodes - 1
  {
    m.(resend := VerifyCode.ResendRefused(m.resend), pendingCodes := m.pendingCodes - 1)
  }

  /** One countdown callback. */
  function TickCountdown(m: Recovery): (r: Recovery)
    ensures Inv(m) ==> Inv(r)
    ensures r == m.(resend := VerifyCode.Tick(m.resend))
  {
    m.(resend := VerifyCode.Tick(m.resend))
  }

  /** The request `onSubmit` builds from the page. */
  function RequestOf(m: Recovery): ResetRequest
  {
    ResetRequest(m.phoneNumber, m.form.code, m.form.newPassword, m.form.confirmNewPassword)
  }

  /**
   * `onSubmit`: nothing on an invalid form; the mismatch alert and nothing
   * else when the two passwords differ; otherwise `loading` is set and the
   * reset request sent, whether or not one is already out.
   */
  function Submit(m: Recovery): (r: Recovery)
    ensures Inv(m) ==> Inv(r)
    ensures r.resetRequests == m.resetRequests + [RequestOf(m)]
            <==> ResetFormValid(m.form) && m.form.newPassword == m.form.confirmNewPassword
    ensures !ResetFormValid(m.form) ==> r == m
    ensures ResetFormValid(m.form) && m.form.newPassword != m.form.confirmNewPassword
            ==> r == m.(alerts := m.alerts + [MismatchAlert])
    ensures ResetFormValid(m.form) && m.form.newPassword == m.form.confirmNewPassword
            ==> r.loading && r.pendingResets == m.pendingResets + 1 && r.alerts == m.alerts
  {
    if !ResetFormValid(m.form) then m
    else if m.form.newPassword != m.form.confirmNewPassword then m.(alerts := m.alerts + [MismatchAlert])
    else m.(loading := true, pendingResets := m.pendingResets + 1, resetRequests := m.resetRequests + [RequestOf(m)])
  }

  /** A reset request completed, by `next` or by `error`: `loading` is cleared either way. */
  function ResetFinished(m: Recovery): (r: Recovery)
    requires m.pendingResets > 0
    ensures Inv(m) ==> Inv(r)
    ensures !r.loading && r.pendingResets == m.pendingResets - 1 && r.resetRequests == m.resetRequests
  {
    m.(loading := false, pendingResets := m.pendingResets - 1)
  }

  /** `ngOnDestroy`. */
  function Destroy(m: Recovery): (r: Recovery)
    ensures Inv(m) ==> Inv(r)
    ensures r.resend == VerifyCode.Unsubscribed(m.resend)
  {
    m.(resend := VerifyCode.Unsubscribed(m.resend))
  }

  /** `n` countdown callbacks and nothing else. */
  function TicksOf(m: Recovery, n: nat): Recovery
  {
    m.(resend := VerifyCode.Ticks(m.resend, n))
  }

  // ---------------------------------------------------------------------------
  // Properties
  // ---------------------------------------------------------------------------

  /**
   * The countdown the constructor starts does not take the guard: a resend
   * right after the page opens is sent, and once it is answered two
   * subscriptions count down together.
   */
  lemma ResendOpenDuringFirstCountdown(phoneParam: Option<string>)
    ensures ResendCode(Init(phoneParam)).codeRequests == [OrEmpty(phoneParam)]
    ensures CodeResent(ResendCode(Init(phoneParam))).resend == VerifyCode.Resend(VerifyCode.CountdownStart, true, 2)
  {
  }

  /**
   * An answered resend holds the guard for the next 60 ticks, and the 61st
   * tick releases it, however many subscriptions deliver them.
   */
  lemma {:induction false} ResendLockedForCountdown(m: Recovery, n: nat)
    requires !m.resend.isResending
    ensures ResendCode(m).pendingCodes > 0
    ensures var s := TicksOf(CodeResent(ResendCode(m)), n);
      ResendCode(s) == s <==> n <= VerifyCode.CountdownStart
  {
    var d := CodeResent(ResendCode(m));
    assert d.resend == VerifyCode.Resend(VerifyCode.CountdownStart, true, m.resend.tickers + 1);
    VerifyCode.TicksCount(d.resend, n);
  }

  /**
   * With no `loading` guard, a second submit while the first request is out
   * sends the same request again, and the first reply clears `loading`
   * while the second request is still out.
   */
  lemma SubmitTwiceSendsTwice(m: Recovery)
    requires ResetFormValid(m.form) && m.form.newPassword == m.form.confirmNewPassword
    ensures Submit(Submit(m)).resetRequests == m.resetRequests + [RequestOf(m), RequestOf(m)]
    ensures var r := ResetFinished(Submit(Submit(m))); !r.loading && r.pendingResets == m.pendingResets + 1
  {
    var s := Submit(m);
    assert s.form == m.form && s.phoneNumber == m.phoneNumber;
  }

  /** Passwords that differ are only ever alerted, never sent, whatever else is in the form. */
  lemma MismatchNeverSent(m: Recovery)
    requires m.form.newPassword != m.form.confirmNewPassword
    ensures Submit(m).resetRequests == m.resetRequests
    ensures !Submit(m).loading || m.loading
  {
  }
}
