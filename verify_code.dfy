/**
 * What the three verification-code pages (after login, after registration
 * and after "forgot password") have in common: the resend countdown, the
 * rules on the code field and its error messages, and, for the login and
 * registration pages, the whole page as a state machine over the code form,
 * the `loading` and `isResending` guards, and the requests sent.
 *
 * The countdown ticker (`timer(0, 1000)`) is a subscription that is only
 * ever cancelled when the page is destroyed, so the model counts the live
 * subscriptions (`tickers`) and each tick is one callback of one of them.
 */
module VerifyCode {
  import opened Js

  /** The value `countdown` is (re)set to. */
  const CountdownStart: nat := 60
  /** The length the code field's `minLength` and `maxLength` both demand. */
  const CodeLength: nat := 6

  const RequiredMessage := "Bu maydon to'ldirilishi shart"
  const CodeLengthMessage := "Tasdiqlash kodi 6 raqamdan iborat bo'lishi kerak"

  // ---------------------------------------------------------------------------
  // The resend countdown
  // ---------------------------------------------------------------------------

  /** `countdown`, `isResending`, and the number of countdown subscriptions alive. */
  datatype Resend = Resend(countdown: nat, isResending: bool, tickers: nat)

  /** One callback of a countdown subscription: count down, and release the guard at zero. */
  function Tick(r: Resend): (t: Resend)
    ensures t.tickers == r.tickers
    ensures r.countdown > 0 ==> t.countdown == r.countdown - 1 && t.isResending == r.isResending
    ensures r.countdown == 0 ==> t.countdown == 0 && !t.isResending
  {
    if r.countdown > 0 then r.(countdown := r.countdown - 1) else r.(isResending := false)
  }

  /** `n` callbacks, from whichever subscriptions are alive. */
  function Ticks(r: Resend, n: nat): Resend
    decreases n
  {
    if n == 0 then r else Ticks(Tick(r), n - 1)
  }

  /**
   * After `n` ticks the countdown has gone down by `n` but not below zero,
   * the guard is still held exactly while `n` has not passed the starting
   * countdown, and no subscription was added or removed.
   */
  lemma {:induction false} TicksCount(r: Resend, n: nat)
    ensures Ticks(r, n).countdown == if n <= r.countdown then r.countdown - n else 0
    ensures Ticks(r, n).isResending <==> r.isResending && n <= r.countdown
    ensures Ticks(r, n).tickers == r.tickers
    decreases n
  {
    if n > 0 {
      TicksCount(Tick(r), n - 1);
    }
  }

  /** The countdown never goes up while it ticks. */
  lemma TicksNeverIncrease(r: Resend, n: nat, k: nat)
    requires n <= k
    ensures Ticks(r, k).countdown <= Ticks(r, n).countdown
  {
    TicksCount(r, n);
    TicksCount(r, k);
  }

  /**
   * Entering `resendCode`: nothing happens while the guard is held;
   * otherwise the guard is taken and the countdown is back at its start.
   */
  function BeginResend(r: Resend): (t: Resend)
    ensures r.isResending ==> t == r
    ensures !r.isResending ==> t == Resend(CountdownStart, true, r.tickers)
  {
    if r.isResending then r else r.(isResending := true, countdown := CountdownStart)
  }

  /** `startCountdown` of the login and registration pages: one more subscription. */
  function Subscribe(r: Resend): (t: Resend)
    ensures t.tickers == r.tickers + 1
    ensures t.countdown == r.countdown && t.isResending == r.isResending
  {
    r.(tickers := r.tickers + 1)
  }

  /** `startCountdown` of the forgot-password page: back to the start, then one more subscription. */
  function Restart(r: Resend): (t: Resend)
    ensures t.tickers == r.tickers + 1
    ensures t.countdown == CountdownStart && t.isResending == r.isResending
  {
    Subscribe(r.(countdown := CountdownStart))
  }

  /** A resend request that failed: the guard is released at once. */
  function ResendRefused(r: Resend): (t: Resend)
    ensures !t.isResending
    ensures t.countdown == r.countdown && t.tickers == r.tickers
  {
    r.(isResending := false)
  }

  /** `ngOnDestroy`: `takeUntil(destroy$)` ends every subscription. */
  function Unsubscribed(r: Resend): (t: Resend)
    ensures t.tickers == 0
    ensures t.countdown == r.countdown && t.isResending == r.isResending
  {
    r.(tickers := 0)
  }

  /**
   * Once a resend has been accepted, a further resend is refused for exactly
   * as many ticks as the countdown had left, whichever subscription delivers them.
   */
  lemma GuardHeldUntilZero(r: Resend, n: nat)
    requires r.isResending
    ensures BeginResend(Ticks(r, n)) == Ticks(r, n) <==> n <= r.countdown
  {
    TicksCount(r, n);
  }

  // ---------------------------------------------------------------------------
  // The code field: `required`, `minLength(6)`, `maxLength(6)`
  // ---------------------------------------------------------------------------

  datatype CodeError = RequiredError | MinLengthError | MaxLengthError

  /**
   * The errors of the code control. `required` fails on the empty string;
   * `minLength` ignores an empty value; `maxLength` only fails above six.
   * Both length validators compare `value.length`, counted in UTF-16 units.
   */
  function CodeErrors(code: string): (errors: set<CodeError>)
    ensures errors == {} <==> Utf16Length(code) == CodeLength
    ensures RequiredError in errors <==> code == ""
    ensures MinLengthError in errors <==> 0 < Utf16Length(code) < CodeLength
    ensures MaxLengthError in errors <==> Utf16Length(code) > CodeLength
  {
    var length := Utf16Length(code);
    (if code == "" then {RequiredError} else {})
    + (if code != "" && length < CodeLength then {MinLengthError} else {})
    + (if length > CodeLength then {MaxLengthError} else {})
  }

  /** The form is valid when its only control has no error. */
  predicate CodeValid(code: string)
    ensures CodeValid(code) <==> Utf16Length(code) == CodeLength
  {
    CodeErrors(code) == {}
  }

  /**
   * `getErrorMessage(fieldName)`: the empty string for a field the form does
   * not have, else the `required` message before the length message.
   */
  function ErrorMessage(fieldName: string, code: string): (msg: string)
    ensures fieldName != "code" ==> msg == ""
    ensures fieldName == "code" ==> (msg == "" <==> CodeValid(code))
    ensures fieldName == "code" ==> (msg == RequiredMessage <==> code == "")
    ensures fieldName == "code" ==> (msg == CodeLengthMessage <==> code != "" && Utf16Length(code) != CodeLength)
  {
    if fieldName != "code" then ""
    else
      var errors := CodeErrors(code);
      if RequiredError in errors then RequiredMessage
      else if MinLengthError in errors || MaxLengthError in errors then CodeLengthMessage
      else ""
  }

  /**
   * Lengths are UTF-16 lengths: four digits and one character above U+FFFF
   * make six units and pass, five digits and one such character make seven
   * and fail `maxLength`.
   */
  lemma AstralCharacterCountsTwice()
    ensures CodeValid("1234\U{1F600}")
    ensures ErrorMessage("code", "12345\U{1F600}") == CodeLengthMessage
  {
    assert Utf16Length("\U{1F600}") == 2;
    assert "1234\U{1F600}"[1..] == "234\U{1F600}";
    assert "12345\U{1F600}"[1..] == "2345\U{1F600}";
  }

  // ---------------------------------------------------------------------------
  // The login and registration verification pages
  // ---------------------------------------------------------------------------

  /**
   * One verification page: the query parameters it was opened with (`P`),
   * the code typed, `loading`, the countdown, the resend requests (`R`) and
   * verify requests (`V`) it has in flight and has sent, and the access token
   * handed to the authentication service.
   */
  datatype Verifier<P, R, V> = Verifier(
    params: P,
    code: string,
    loading: bool,
    resend: Resend,
    pendingResends: nat,
    pendingVerifies: nat,
    resendRequests: seq<R>,
    verifyRequests: seq<V>,
    token: Option<string>)

  /** The page's form group, whose one control is `code`. */
  datatype CodeForm = CodeForm(code: string)

  /**
   * The part of a `Verifier` that has no field of its own on the page: the
   * live countdown subscriptions, the requests in flight and sent, and the
   * token handed on.
   */
  datatype Effects<R, V> = Effects(
    tickers: nat,
    pendingResends: nat,
    pendingVerifies: nat,
    resendRequests: seq<R>,
    verifyRequests: seq<V>,
    token: Option<string>)

  /** The `loading` guard allows one verify request at a time, and is held exactly while it is out. */
  predicate Inv<P, R, V>(m: Verifier<P, R, V>)
  {
    m.pendingVerifies <= 1 && (m.loading <==> m.pendingVerifies == 1)
  }

  /** A freshly constructed page: empty code, countdown at 60 but not running, no guard held. */
  function Init<P, R, V>(params: P): (m: Verifier<P, R, V>)
    ensures Inv(m)
    ensures m.resend == Resend(CountdownStart, false, 0)
    ensures m.code == "" && !CodeValid(m.code)
  {
    Verifier(params, "", false, Resend(CountdownStart, false, 0), 0, 0, [], [], None)
  }

  /** `ngOnInit`: the query parameters arrive. */
  function ReceiveParams<P, R, V>(m: Verifier<P, R, V>, params: P): (r: Verifier<P, R, V>)
    ensures Inv(m) ==> Inv(r)
    ensures r.params == params && r.resend == m.resend && r.verifyRequests == m.verifyRequests
  {
    m.(params := params)
  }

  /** The user edits the code field. */
  function Input<P, R, V>(m: Verifier<P, R, V>, code: string): (r: Verifier<P, R, V>)
    ensures Inv(m) ==> Inv(r)
    ensures r.code == code && r.resend == m.resend && r.loading == m.loading
  {
    m.(code := code)
  }

  /** `resendCode` up to its request: `req` is what the page sends, and it is sent only when the guard is free. */
  function ResendCode<P, R, V>(m: Verifier<P, R, V>, req: R): (r: Verifier<P, R, V>)
    ensures Inv(m) ==> Inv(r)
    ensures r.resendRequests == m.resendRequests + [req] <==> !m.resend.isResending
    ensures m.resend.isResending ==> r == m
    ensures !m.resend.isResending ==> r.resend == Resend(CountdownStart, true, m.resend.tickers)
  {
    if m.resend.isResending then m
    else m.(resend := BeginResend(m.resend), pendingResends := m.pendingResends + 1,
            resendRequests := m.resendRequests + [req])
  }

  /** The resend request answered: `startCountdown` subscribes once more; the guard stays held. */
  function ResendSucceeded<P, R, V>(m: Verifier<P, R, V>): (r: Verifier<P, R, V>)
    requires m.pendingResends > 0
    ensures Inv(m) ==> Inv(r)
    ensures r.resend == Subscribe(m.resend) && r.pendingResends == m.pendingResends - 1
  {
    m.(resend := Subscribe(m.resend), pendingResends := m.pendingResends - 1)
  }

  /** The resend request failed: the guard is released, the countdown stays where it is. */
  function ResendFailed<P, R, V>(m: Verifier<P, R, V>): (r: Verifier<P, R, V>)
    requires m.pendingResends > 0
    ensures Inv(m) ==> Inv(r)
    ensures r.resend == ResendRefused(m.resend) && r.pendingResends == m.pendingResends - 1
  {
    m.(resend := ResendRefused(m.resend), pendingResends := m.pendingResends - 1)
  }

  /** One countdown callback. */
  function TickCountdown<P, R, V>(m: Verifier<P, R, V>): (r: Verifier<P, R, V>)
    ensures Inv(m) ==> Inv(r)
    ensures r == m.(resend := Tick(m.resend))
  {
    m.(resend := Tick(m.resend))
  }

  /** `n` countdown callbacks and nothing else. */
  function TicksOf<P, R, V>(m: Verifier<P, R, V>, n: nat): Verifier<P, R, V>
  {
    m.(resend := Ticks(m.resend, n))
  }

  /**
   * `onSubmit` up to its request: nothing while the form is invalid or a
   * verify request is already out; otherwise `loading` is set and `req` sent.
   */
  function Submit<P, R, V>(m: Verifier<P, R, V>, req: V): (r: Verifier<P, R, V>)
    ensures Inv(m) ==> Inv(r)
    ensures r.verifyRequests == m.verifyRequests + [req] <==> Utf16Length(m.code) == CodeLength && !m.loading
    ensures !(Utf16Length(m.code) == CodeLength && !m.loading) ==> r == m
    ensures Utf16Length(m.code) == CodeLength && !m.loading ==> r.loading
  {
    if !CodeValid(m.code) || m.loading then m
    else m.(loading := true, pendingVerifies := m.pendingVerifies + 1, verifyRequests := m.verifyRequests + [req])
  }

  /**
   * The verify request completed, by a reply or by an error (`accessToken`
   * is then `None`): the `finally` clears `loading`, and a truthy access
   * token is handed to the authentication service.
   */
  function VerifyFinished<P, R, V>(m: Verifier<P, R, V>, accessToken: Option<string>): (r: Verifier<P, R, V>)
    requires m.pendingVerifies > 0
    ensures Inv(m) ==> Inv(r) && !r.loading
    ensures r.token == (if IsTruthy(accessToken) then accessToken else m.token)
    ensures r.resend == m.resend && r.verifyRequests == m.verifyRequests
  {
    m.(loading := false, pendingVerifies := m.pendingVerifies - 1,
       token := if IsTruthy(accessToken) then accessToken else m.token)
  }

  /** `ngOnDestroy`. */
  function Destroy<P, R, V>(m: Verifier<P, R, V>): (r: Verifier<P, R, V>)
    ensures Inv(m) ==> Inv(r)
    ensures r.resend == Unsubscribed(m.resend)
  {
    m.(resend := Unsubscribed(m.resend))
  }

  // ---------------------------------------------------------------------------
  // Properties of the page
  // ---------------------------------------------------------------------------

  /**
   * While a verify request is out, every further submit is ignored, however
   * the code reads: at most one verify request is ever in flight.
   */
  lemma SubmitIgnoredWhileLoading<P, R, V>(m: Verifier<P, R, V>, req: V)
    requires Inv(m) && m.pendingVerifies > 0
    ensures Submit(m, req) == m
  {
  }

  /**
   * A resend whose request is answered holds the guard for the whole
   * countdown: for the next 60 ticks every further resend is ignored, and
   * the 61st tick releases it.
   */
  lemma {:induction false} ResendLockedForCountdown<P, R, V>(m: Verifier<P, R, V>, req: R, again: R, n: nat)
    requires !m.resend.isResending
    ensures var s := TicksOf(ResendSucceeded(ResendCode(m, req)), n);
      ResendCode(s, again) == s <==> n <= CountdownStart
  {
    var d := ResendSucceeded(ResendCode(m, req));
    assert d.resend == Resend(CountdownStart, true, m.resend.tickers + 1);
    TicksCount(d.resend, n);
  }

  /** A failed resend releases the guard at once: the next resend is sent. */
  lemma FailedResendMayRetry<P, R, V>(m: Verifier<P, R, V>, req: R, again: R)
    requires !m.resend.isResending
    ensures var f := ResendFailed(ResendCode(m, req));
      ResendCode(f, again).resendRequests == m.resendRequests + [req, again]
  {
    var f := ResendFailed(ResendCode(m, req));
    assert !f.resend.isResending;
    assert f.resendRequests == m.resendRequests + [req];
  }

  /**
   * Every answered resend adds a countdown subscription that is never
   * cancelled: after `k` answered resends, `k` tickers run side by side.
   */
  lemma AnsweredResendsStack<P, R, V>(m: Verifier<P, R, V>, req: R, again: R)
    requires !m.resend.isResending && m.resend.tickers == 0
    ensures var s := ResendSucceeded(ResendCode(m, req));
      var t := TicksOf(s, CountdownStart + 1);
      ResendCode(t, again).pendingResends > 0 && ResendSucceeded(ResendCode(t, again)).resend.tickers == 2
  {
    var s := ResendSucceeded(ResendCode(m, req));
    TicksCount(s.resend, CountdownStart + 1);
  }
}
