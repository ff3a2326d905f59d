/**
 * The timed test session: start a session, show one question at a time,
 * submit the selected answer, and finish the session either when the last
 * answer is accepted, when the backend reports that the deadline passed, or
 * when the once-a-second timer finds the deadline reached.
 *
 * Every asynchronous reply of the backend is an event of its own. The state of
 * the component is the datatype `Controller`; each operation is a function from
 * the old state to the new one, and the class `TestSessionComponent` updates its
 * fields in place so that its state afterwards is that function of its state
 * before. Times are integer milliseconds.
 */
module TestSession {
  import opened Js

  // ---------------------------------------------------------------------------
  // Data exchanged with the backend
  // ---------------------------------------------------------------------------

  datatype Answer = Answer(
    id: string,
    text: string,
    imageUrl: Option<string>,
    isCorrect: bool,
    correctDescription: Option<string>)

  datatype Question = Question(id: string, text: string, imageUrl: Option<string>, answers: seq<Answer>)

  /** The reply to "start a test"; `deadline` is an absolute time in milliseconds. */
  datatype StartResponse = StartResponse(
    sessionId: string,
    questions: seq<Question>,
    durationMinutes: int,
    deadline: int)

  datatype TestResult = TestResult(
    sessionId: string,
    totalQuestions: int,
    correctAnswers: int,
    wrongAnswerCount: int,
    startedAt: int,
    finishedAt: int,
    grade: string,
    failureReason: Option<string>,
    correctQuestions: seq<Question>,
    wrongQuestions: seq<Question>,
    unansweredQuestions: seq<Question>)

  /** One answer sent to the backend, with the session it was sent for. */
  datatype AnswerRequest = AnswerRequest(sessionId: string, questionId: string, answerId: string)

  /** The error object an HTTP observable delivers to the component: `err.status` may be absent. */
  datatype JsError = JsError(status: Option<int>, message: string)

  /** A failed HTTP exchange as the HTTP client reports it, before the service rewraps it. */
  datatype HttpFailure = HttpFailure(status: int, bodyMessage: Option<string>) | TimedOut

  // ---------------------------------------------------------------------------
  // Messages
  // ---------------------------------------------------------------------------

  const AuthRequiredMessage: string := "Foydalanuvchi autentifikatsiyadan o\U{2018}tmagan"
  const StartFailedMessage: string := "Testni boshlashda xatolik yuz berdi"
  /** The backend's message when an answer arrives after the deadline. */
  const DeadlineMessage: string := "Vaqt tugagan, test avtomatik tugatildi"
  const TimeUpMessage: string := "Vaqt tugagan! Test avtomatik yakunlandi."
  const SubmitFailedMessage: string := "Javobni yuborishda xatolik yuz berdi"
  const FinishFailedMessage: string := "Testni yakunlashda xatolik yuz berdi"
  const ServerErrorMessage: string := "Server error"

  /**
   * How the test-session service turns a failed exchange into the error the
   * component sees: a fresh `Error` carrying the server's message (or a
   * default), and no status.
   */
  function ServiceError(f: HttpFailure): (e: JsError)
    ensures e.status.None?
    ensures f.HttpFailure? && IsTruthy(f.bodyMessage) ==> e.message == f.bodyMessage.value
  {
    match f
    case HttpFailure(_, body) => JsError(None, if IsTruthy(body) then body.value else ServerErrorMessage)
    case TimedOut => JsError(None, ServerErrorMessage)
  }

  /** The same rewrapping, but keeping the HTTP status the component tests for. */
  function ServiceErrorKeepingStatus(f: HttpFailure): (e: JsError)
    ensures f.HttpFailure? ==> e.status == Some(f.status)
    ensures e.message == ServiceError(f).message
  {
    match f
    case HttpFailure(status, _) => JsError(Some(status), ServiceError(f).message)
    case TimedOut => ServiceError(f)
  }

  // ---------------------------------------------------------------------------
  // State
  // ---------------------------------------------------------------------------

  /**
   * The fields of the component. `timer` is the subscription handle, holding
   * the deadline its ticks compare against; `timersStarted` and
   * `timersStopped` count subscriptions made and cancelled. The `pending`
   * counters are the requests still in flight, and the two logs are the
   * answer and finish requests sent so far.
   */
  datatype Controller = Controller(
    session: Option<StartResponse>,
    result: Option<TestResult>,
    currentQuestionIndex: nat,
    currentQuestion: Option<Question>,
    selectedAnswerId: Option<string>,
    timeRemaining: int,
    loading: bool,
    error: Option<string>,
    showFinishConfirm: bool,
    timer: Option<int>,
    timersStarted: nat,
    timersStopped: nat,
    pendingStarts: nat,
    pendingSubmits: nat,
    pendingFinishes: nat,
    sentAnswers: seq<AnswerRequest>,
    finishRequests: seq<string>)

  /** Timer subscriptions made and not cancelled. */
  function LiveTimers(c: Controller): int
  {
    c.timersStarted - c.timersStopped
  }

  /**
   * The invariant the component keeps: every subscription is held by the one
   * handle, so at most one timer is live, and it is live exactly when the
   * handle is set; the remaining time is never negative.
   */
  predicate Inv(c: Controller)
  {
    LiveTimers(c) == (if c.timer.Some? then 1 else 0) && c.timeRemaining >= 0
  }

  /** While a session is held, the index points into its questions and the shown question is that one. */
  predicate OnQuestion(c: Controller)
  {
    c.session.Some? ==>
      c.currentQuestionIndex < |c.session.value.questions|
      && c.currentQuestion == Some(c.session.value.questions[c.currentQuestionIndex])
  }

  /** The component as constructed. */
  function Init(): (c: Controller)
    ensures Inv(c) && OnQuestion(c) && c.session.None? && c.timer.None?
  {
    Controller(None, None, 0, None, None, 0, false, None, false, None, 0, 0, 0, 0, 0, [], [])
  }

  // ---------------------------------------------------------------------------
  // Timer
  // ---------------------------------------------------------------------------

  /** `stopTimer`: cancels the held subscription, if any. */
  function StopTimer(c: Controller): (r: Controller)
    ensures r.timer.None?
    ensures c.timer.None? ==> r == c
    ensures Inv(c) ==> Inv(r) && LiveTimers(r) == 0
    ensures r.(timer := c.timer, timersStopped := c.timersStopped) == c
  {
    if c.timer.Some? then c.(timer := None, timersStopped := c.timersStopped + 1) else c
  }

  /** `startTimer(deadline)`: cancels any previous subscription, then subscribes anew. */
  function StartTimer(c: Controller, deadline: int): (r: Controller)
    ensures r.timer == Some(deadline)
    ensures Inv(c) ==> Inv(r) && LiveTimers(r) == 1
    ensures r.(timer := c.timer, timersStarted := c.timersStarted, timersStopped := c.timersStopped) == c
  {
    var s := StopTimer(c);
    s.(timer := Some(deadline), timersStarted := s.timersStarted + 1)
  }

  // ---------------------------------------------------------------------------
  // Operations and backend replies
  // ---------------------------------------------------------------------------

  /** `startTest`: clears the previous attempt and asks the backend for a session. */
  function StartTest(c: Controller): (r: Controller)
    ensures r.session.None? && r.result.None? && r.error.None? && r.selectedAnswerId.None?
    ensures r.currentQuestionIndex == 0 && !r.showFinishConfirm && r.loading
    ensures r.pendingStarts == c.pendingStarts + 1
    ensures r.timer == c.timer && r.currentQuestion == c.currentQuestion
    ensures Inv(c) ==> Inv(r)
  {
    c.(loading := true, error := None, result := None, session := None, currentQuestionIndex := 0,
       selectedAnswerId := None, showFinishConfirm := false, pendingStarts := c.pendingStarts + 1)
  }

  /** The first question of a session; `questions[0]` is `undefined` when there are none. */
  function FirstQuestion(s: StartResponse): Option<Question>
  {
    if |s.questions| > 0 then Some(s.questions[0]) else None
  }

  /** The start request succeeded: hold the session, show its first question, start the timer. */
  function StartSucceeded(c: Controller, response: StartResponse): (r: Controller)
    requires c.pendingStarts > 0
    ensures r.session == Some(response) && r.currentQuestion == FirstQuestion(response)
    ensures r.timer == Some(response.deadline) && !r.loading
    ensures r.currentQuestionIndex == c.currentQuestionIndex
    ensures Inv(c) ==> Inv(r) && LiveTimers(r) == 1
    ensures c.currentQuestionIndex == 0 && |response.questions| > 0 ==> OnQuestion(r)
  {
    var s := c.(session := Some(response), currentQuestion := FirstQuestion(response),
                pendingStarts := c.pendingStarts - 1);
    StartTimer(s, response.deadline).(loading := false)
  }

  /** The start request failed: a 401 status gives the authentication message, anything else the generic one. */
  function StartFailed(c: Controller, err: JsError): (r: Controller)
    requires c.pendingStarts > 0
    ensures r.error == Some(if err.status == Some(401) then AuthRequiredMessage else StartFailedMessage)
    ensures !r.loading && r.session == c.session && r.timer == c.timer
    ensures Inv(c) ==> Inv(r)
  {
    c.(error := Some(if err.status == Some(401) then AuthRequiredMessage else StartFailedMessage),
       loading := false, pendingStarts := c.pendingStarts - 1)
  }

  /** The guard of `submitAnswer`: a session, a shown question and a truthy selected answer. */
  predicate CanSubmit(c: Controller)
  {
    c.session.Some? && c.currentQuestion.Some? && IsTruthy(c.selectedAnswerId)
  }

  /** `submitAnswer`: sends the selected answer for the shown question, or does nothing. */
  function SubmitAnswer(c: Controller): (r: Controller)
    ensures !CanSubmit(c) ==> r == c
    ensures CanSubmit(c) ==>
      r.sentAnswers == c.sentAnswers
        + [AnswerRequest(c.session.value.sessionId, c.currentQuestion.value.id, c.selectedAnswerId.value)]
      && r.pendingSubmits == c.pendingSubmits + 1 && r.loading && r.error.None?
    ensures r.currentQuestionIndex == c.currentQuestionIndex && r.currentQuestion == c.currentQuestion
    ensures r.session == c.session && r.timer == c.timer && r.finishRequests == c.finishRequests
    ensures Inv(c) ==> Inv(r)
  {
    if !CanSubmit(c) then c
    else
      c.(loading := true, error := None, pendingSubmits := c.pendingSubmits + 1,
         sentAnswers := c.sentAnswers
           + [AnswerRequest(c.session.value.sessionId, c.currentQuestion.value.id, c.selectedAnswerId.value)])
  }

  /** `onAnswerSelect(answerId)`: remembers the choice and submits it at once. */
  function OnAnswerSelect(c: Controller, answerId: string): (r: Controller)
    ensures r == SubmitAnswer(c.(selectedAnswerId := Some(answerId)))
    ensures answerId != "" && c.session.Some? && c.currentQuestion.Some? ==>
      |r.sentAnswers| == |c.sentAnswers| + 1 && r.sentAnswers[|c.sentAnswers|].answerId == answerId
    ensures Inv(c) ==> Inv(r)
  {
    SubmitAnswer(c.(selectedAnswerId := Some(answerId)))
  }

  /** `finishTest`: with a session, stops the timer and then asks the backend to finish it; otherwise nothing. */
  function FinishTest(c: Controller): (r: Controller)
    ensures c.session.None? ==> r == c
    ensures c.session.Some? ==>
      r.timer.None? && r.loading && r.error.None?
      && r.pendingFinishes == c.pendingFinishes + 1
      && r.finishRequests == c.finishRequests + [c.session.value.sessionId]
    ensures r.session == c.session && r.currentQuestionIndex == c.currentQuestionIndex
    ensures r.currentQuestion == c.currentQuestion && r.sentAnswers == c.sentAnswers
    ensures r.timeRemaining == c.timeRemaining && r.selectedAnswerId == c.selectedAnswerId
    ensures Inv(c) ==> Inv(r) && (c.session.Some? ==> LiveTimers(r) == 0)
  {
    if c.session.None? then c
    else
      var s := StopTimer(c.(loading := true, error := None));
      s.(pendingFinishes := s.pendingFinishes + 1, finishRequests := s.finishRequests + [c.session.value.sessionId])
  }

  /**
   * The answer was accepted. After the last question this finishes the test
   * (index unchanged); otherwise the index moves on by one and the question
   * shown is the one at the new index, or none when there is no session.
   */
  function SubmitSucceeded(c: Controller): (r: Controller)
    requires c.pendingSubmits > 0
    ensures r.selectedAnswerId.None? && r.session == c.session
    ensures Inv(c) ==> Inv(r)
  {
    var s := c.(loading := false, selectedAnswerId := None, pendingSubmits := c.pendingSubmits - 1);
    if s.session.Some? && s.currentQuestionIndex == |s.session.value.questions| - 1 then
      FinishTest(s)
    else
      var i := s.currentQuestionIndex + 1;
      s.(currentQuestionIndex := i,
         currentQuestion := if s.session.Some? && i < |s.session.value.questions|
                            then Some(s.session.value.questions[i]) else None)
  }

  /**
   * The answer was refused. Only the backend's deadline message finishes the
   * test; the index and the shown question stay as they were.
   */
  function SubmitFailed(c: Controller, err: JsError): (r: Controller)
    requires c.pendingSubmits > 0
    ensures r.currentQuestionIndex == c.currentQuestionIndex && r.currentQuestion == c.currentQuestion
    ensures r.session == c.session && r.selectedAnswerId == c.selectedAnswerId
    ensures r.finishRequests == c.finishRequests + (if err.message == DeadlineMessage && c.session.Some?
                                                     then [c.session.value.sessionId] else [])
    ensures Inv(c) ==> Inv(r)
  {
    var s := c.(error := Some(if err.message == DeadlineMessage then TimeUpMessage else SubmitFailedMessage),
                loading := false, pendingSubmits := c.pendingSubmits - 1);
    if err.message == DeadlineMessage then FinishTest(s) else s
  }

  /** `confirmFinishTest` */
  function ConfirmFinishTest(c: Controller): (r: Controller)
    ensures r.showFinishConfirm && r.(showFinishConfirm := c.showFinishConfirm) == c
  {
    c.(showFinishConfirm := true)
  }

  /** `cancelFinishTest` */
  function CancelFinishTest(c: Controller): (r: Controller)
    ensures !r.showFinishConfirm && r.(showFinishConfirm := c.showFinishConfirm) == c
  {
    c.(showFinishConfirm := false)
  }

  /** The session was finished: keep the result and drop the session and its question. */
  function FinishSucceeded(c: Controller, res: TestResult): (r: Controller)
    requires c.pendingFinishes > 0
    ensures r.result == Some(res) && r.session.None? && r.currentQuestion.None?
    ensures !r.showFinishConfirm && !r.loading && r.timer == c.timer
    ensures Inv(c) ==> Inv(r)
  {
    c.(result := Some(res), session := None, currentQuestion := None, showFinishConfirm := false,
       loading := false, pendingFinishes := c.pendingFinishes - 1)
  }

  /** Finishing failed: the session is kept and the error shown. */
  function FinishFailed(c: Controller): (r: Controller)
    requires c.pendingFinishes > 0
    ensures r.session == c.session && r.error == Some(FinishFailedMessage)
    ensures !r.showFinishConfirm && !r.loading && r.timer == c.timer
    ensures Inv(c) ==> Inv(r)
  {
    c.(error := Some(FinishFailedMessage), loading := false, showFinishConfirm := false,
       pendingFinishes := c.pendingFinishes - 1)
  }

  /**
   * One tick of the timer at time `now`: the remaining time is recomputed as
   * `deadline - now`; once that is not positive it is shown as 0 and the
   * test is finished.
   */
  function Tick(c: Controller, now: int): (r: Controller)
    requires c.timer.Some?
    ensures c.timer.value - now > 0 ==> r == c.(timeRemaining := c.timer.value - now)
    ensures c.timer.value - now <= 0 ==> r == FinishTest(c.(timeRemaining := 0))
    ensures Inv(c) ==> Inv(r)
  {
    var diff := c.timer.value - now;
    if diff <= 0 then FinishTest(c.(timeRemaining := 0)) else c.(timeRemaining := diff)
  }

  /** `ngOnDestroy` */
  function Destroy(c: Controller): (r: Controller)
    ensures r == StopTimer(c)
    ensures Inv(c) ==> LiveTimers(r) == 0
  {
    StopTimer(c)
  }

  /** `getLetter(index)`: `String.fromCharCode(65 + index)`, below the surrogate range. */
  function Letter(index: int): (ch: char)
    requires 0 <= 65 + index < 0xD800
    ensures ch as int == 65 + index
    ensures 0 <= index < 26 ==> 'A' <= ch <= 'Z'
  {
    (65 + index) as char
  }

  // ---------------------------------------------------------------------------
  // Events and runs
  // ---------------------------------------------------------------------------

  /** Everything that can happen to the component: user actions, backend replies, timer ticks. */
  datatype Event =
    | Start
    | StartOk(response: StartResponse)
    | StartError(err: JsError)
    | Select(answerId: string)
    | Submit
    | SubmitOk
    | SubmitError(err: JsError)
    | Confirm
    | Cancel
    | Finish
    | FinishOk(res: TestResult)
    | FinishError
    | TickAt(now: int)
    | Destroyed

  /** A reply needs a request in flight; a tick needs a live timer. */
  predicate Enabled(c: Controller, e: Event)
  {
    match e
    case StartOk(_) => c.pendingStarts > 0
    case StartError(_) => c.pendingStarts > 0
    case SubmitOk => c.pendingSubmits > 0
    case SubmitError(_) => c.pendingSubmits > 0
    case FinishOk(_) => c.pendingFinishes > 0
    case FinishError => c.pendingFinishes > 0
    case TickAt(_) => c.timer.Some?
    case _ => true
  }

  function Step(c: Controller, e: Event): (r: Controller)
    requires Enabled(c, e)
    ensures Inv(c) ==> Inv(r)
  {
    match e
    case Start => StartTest(c)
    case StartOk(response) => StartSucceeded(c, response)
    case StartError(err) => StartFailed(c, err)
    case Select(answerId) => OnAnswerSelect(c, answerId)
    case Submit => SubmitAnswer(c)
    case SubmitOk => SubmitSucceeded(c)
    case SubmitError(err) => SubmitFailed(c, err)
    case Confirm => ConfirmFinishTest(c)
    case Cancel => CancelFinishTest(c)
    case Finish => FinishTest(c)
    case FinishOk(res) => FinishSucceeded(c, res)
    case FinishError => FinishFailed(c)
    case TickAt(now) => Tick(c, now)
    case Destroyed => Destroy(c)
  }

  /** The state after a sequence of events, or `None` if one of them could not have happened. */
  function Run(c: Controller, events: seq<Event>): Option<Controller>
    decreases |events|
  {
    if |events| == 0 then Some(c)
    else if Enabled(c, events[0]) then Run(Step(c, events[0]), events[1..])
    else None
  }

  /** A run takes its first event, then the rest. */
  lemma RunCons(c: Controller, e: Event, rest: seq<Event>)
    ensures Run(c, [e] + rest) == if Enabled(c, e) then Run(Step(c, e), rest) else None
  {
    assert ([e] + rest)[0] == e && ([e] + rest)[1..] == rest;
  }

  // ---------------------------------------------------------------------------
  // Properties
  // ---------------------------------------------------------------------------

  /** In every run at most one timer is live, it is live exactly when the handle is set, and the remaining time is never negative. */
  lemma {:induction false} RunKeepsInv(c: Controller, events: seq<Event>)
    requires Inv(c)
    requires Run(c, events).Some?
    ensures Inv(Run(c, events).value)
    decreases |events|
  {
    if |events| > 0 {
      RunKeepsInv(Step(c, events[0]), events[1..]);
    }
  }

  /** Every event except the arrival of a new session keeps the index inside the held session's questions. */
  lemma StepKeepsOnQuestion(c: Controller, e: Event)
    requires Enabled(c, e) && OnQuestion(c) && !e.StartOk?
    ensures OnQuestion(Step(c, e))
  {
  }

  /**
   * The start reply shows the first question without resetting the index, so
   * the index and the question agree afterwards exactly when the index in
   * force points at a copy of the first question, normally because it is 0.
   */
  lemma StartSucceededOnQuestion(c: Controller, response: StartResponse)
    requires c.pendingStarts > 0
    ensures var qs := response.questions;
      OnQuestion(StartSucceeded(c, response)) <==> c.currentQuestionIndex < |qs| && qs[c.currentQuestionIndex] == qs[0]
  {
  }

  /** Every start reply of the run arrives while the index is 0 and brings at least one question. */
  predicate StartsAtFirst(c: Controller, events: seq<Event>)
    decreases |events|
  {
    |events| == 0
    || (Enabled(c, events[0])
        && (events[0].StartOk? ==> c.currentQuestionIndex == 0 && |events[0].response.questions| > 0)
        && StartsAtFirst(Step(c, events[0]), events[1..]))
  }

  /** A run in which every start reply finds the index at 0 keeps the index on the shown question throughout. */
  lemma {:induction false} RunKeepsOnQuestion(c: Controller, events: seq<Event>)
    requires OnQuestion(c) && StartsAtFirst(c, events)
    ensures Run(c, events).Some? && OnQuestion(Run(c, events).value)
    decreases |events|
  {
    if |events| > 0 {
      var e := events[0];
      if !e.StartOk? {
        StepKeepsOnQuestion(c, e);
      }
      RunKeepsOnQuestion(Step(c, e), events[1..]);
    }
  }

  /** The index never decreases, except when a new test is started, which resets it to 0. */
  lemma StepIndexMonotone(c: Controller, e: Event)
    requires Enabled(c, e)
    ensures e.Start? ==> Step(c, e).currentQuestionIndex == 0
    ensures !e.Start? ==> Step(c, e).currentQuestionIndex >= c.currentQuestionIndex
  {
  }

  /**
   * An accepted answer on the last question finishes the test with the index
   * unchanged; on any other question the index moves on by exactly one and
   * stays inside the questions.
   */
  lemma SubmitSucceededAdvances(c: Controller)
    requires c.pendingSubmits > 0 && c.session.Some? && OnQuestion(c)
    ensures var r := SubmitSucceeded(c);
      var qs := c.session.value.questions;
      if c.currentQuestionIndex == |qs| - 1 then
        r.currentQuestionIndex == c.currentQuestionIndex && r.timer.None?
        && r.finishRequests == c.finishRequests + [c.session.value.sessionId]
      else
        r.currentQuestionIndex == c.currentQuestionIndex + 1 < |qs|
        && r.currentQuestion == Some(qs[r.currentQuestionIndex])
        && r.finishRequests == c.finishRequests
  {
  }

  /**
   * A refused answer with the backend's deadline message finishes the test,
   * and the time-up message it set is cleared again by `finishTest` at once.
   */
  lemma DeadlineRefusalFinishes(c: Controller, f: HttpFailure)
    requires c.pendingSubmits > 0 && c.session.Some?
    requires f.HttpFailure? && f.bodyMessage == Some(DeadlineMessage)
    ensures var r := SubmitFailed(c, ServiceError(f));
      r.finishRequests == c.finishRequests + [c.session.value.sessionId]
      && r.timer.None? && r.error.None?
  {
  }

  /** Any other refusal leaves the session, the index and the timer alone and shows the generic message. */
  lemma OtherRefusalKeepsQuestion(c: Controller, err: JsError)
    requires c.pendingSubmits > 0 && err.message != DeadlineMessage
    ensures var r := SubmitFailed(c, err);
      r.error == Some(SubmitFailedMessage) && r.timer == c.timer
      && r.finishRequests == c.finishRequests && r.currentQuestionIndex == c.currentQuestionIndex
  {
  }

  /** Once finished, finishing again and submitting are no-ops until a new session arrives. */
  lemma FinishedIsQuiet(c: Controller, res: TestResult, answerId: string)
    requires c.pendingFinishes > 0
    ensures var r := FinishSucceeded(c, res);
      FinishTest(r) == r && SubmitAnswer(r) == r
      && OnAnswerSelect(r, answerId) == r.(selectedAnswerId := Some(answerId))
  {
  }

  /** Without a new session nothing more is sent: no answer and no finish request. */
  lemma {:induction false} NoSessionNoRequests(c: Controller, events: seq<Event>)
    requires c.session.None?
    requires forall k :: 0 <= k < |events| ==> !events[k].StartOk?
    requires Run(c, events).Some?
    ensures Run(c, events).value.finishRequests == c.finishRequests
    ensures Run(c, events).value.sentAnswers == c.sentAnswers
    decreases |events|
  {
    if |events| > 0 {
      var d := Step(c, events[0]);
      assert d.session.None? && d.finishRequests == c.finishRequests && d.sentAnswers == c.sentAnswers;
      assert forall k :: 0 <= k < |events[1..]| ==> !events[1..][k].StartOk? by {
        forall k | 0 <= k < |events[1..]| ensures !events[1..][k].StartOk? {
          assert events[1..][k] == events[k + 1];
        }
      }
      NoSessionNoRequests(d, events[1..]);
    }
  }

  /** A tick before the deadline only recomputes the remaining time, which is then positive. */
  lemma TickBeforeDeadline(c: Controller, now: int)
    requires c.timer.Some? && now < c.timer.value
    ensures Tick(c, now).timeRemaining == c.timer.value - now > 0
    ensures Tick(c, now).finishRequests == c.finishRequests && Tick(c, now).timer == c.timer
  {
  }

  /**
   * A tick at or after the deadline shows 0; with a session it stops the timer
   * before asking to finish; without one (a new start is in flight) the timer
   * is left running.
   */
  lemma TickAtDeadline(c: Controller, now: int)
    requires Inv(c) && c.timer.Some? && now >= c.timer.value
    ensures var r := Tick(c, now);
      r.timeRemaining == 0
      && (c.session.Some? ==> r.timer.None? && LiveTimers(r) == 0
                              && r.finishRequests == c.finishRequests + [c.session.value.sessionId])
      && (c.session.None? ==> r.timer == c.timer && r.finishRequests == c.finishRequests)
  {
  }

  /**
   * There is no single-finalisation guard: when the deadline tick fires while
   * the last answer is in flight and the answer is then accepted, the same
   * session is asked to finish twice.
   */
  lemma TickThenLastAnswerFinishesTwice(c: Controller, now: int)
    requires Inv(c) && OnQuestion(c) && c.session.Some? && c.timer.Some?
    requires now >= c.timer.value && c.pendingSubmits > 0
    requires c.currentQuestionIndex == |c.session.value.questions| - 1
    ensures var id := c.session.value.sessionId;
      Run(c, [TickAt(now), SubmitOk]).Some?
      && Run(c, [TickAt(now), SubmitOk]).value.finishRequests == c.finishRequests + [id, id]
  {
    var d := Tick(c, now);
    assert d == FinishTest(c.(timeRemaining := 0));
    RunCons(c, TickAt(now), [SubmitOk]);
    RunCons(d, SubmitOk, []);
    assert [TickAt(now)] + [SubmitOk] == [TickAt(now), SubmitOk];
    assert [SubmitOk] + [] == [SubmitOk];
  }

  /** An answer accepted after the session was dropped only moves the index on. */
  lemma AcceptedWithoutSession(d: Controller)
    requires d.session.None? && d.pendingSubmits > 0
    ensures Run(d, [SubmitOk]) == Some(SubmitSucceeded(d))
    ensures var r := SubmitSucceeded(d);
      r.finishRequests == d.finishRequests && r.currentQuestionIndex == d.currentQuestionIndex + 1
      && r.currentQuestion.None? && r.result == d.result
  {
    RunCons(d, SubmitOk, []);
    assert [SubmitOk] + [] == [SubmitOk];
  }

  /**
   * If the finish reply wins that race instead, no second finish is sent, but
   * the late acceptance moves the index one past the last question and shows
   * no question.
   */
  lemma TickFinishThenLastAnswer(c: Controller, now: int, res: TestResult)
    requires Inv(c) && OnQuestion(c) && c.session.Some? && c.timer.Some?
    requires now >= c.timer.value && c.pendingSubmits > 0
    requires c.currentQuestionIndex == |c.session.value.questions| - 1
    ensures var r := Run(c, [TickAt(now), FinishOk(res), SubmitOk]);
      r.Some? && r.value.finishRequests == c.finishRequests + [c.session.value.sessionId]
      && r.value.currentQuestionIndex == |c.session.value.questions|
      && r.value.currentQuestion.None? && r.value.result == Some(res)
  {
    var d1 := Tick(c, now);
    assert d1 == FinishTest(c.(timeRemaining := 0));
    var d2 := FinishSucceeded(d1, res);
    AcceptedWithoutSession(d2);
    assert Step(d1, FinishOk(res)) == d2;
    RunCons(d1, FinishOk(res), [SubmitOk]);
    assert [FinishOk(res)] + [SubmitOk] == [FinishOk(res), SubmitOk];
    assert Run(d1, [FinishOk(res), SubmitOk]) == Some(SubmitSucceeded(d2));
    assert Step(c, TickAt(now)) == d1;
    RunCons(c, TickAt(now), [FinishOk(res), SubmitOk]);
    assert [TickAt(now)] + [FinishOk(res), SubmitOk] == [TickAt(now), FinishOk(res), SubmitOk];
    assert Run(c, [TickAt(now), FinishOk(res), SubmitOk]) == Some(SubmitSucceeded(d2));
  }

  /** A run of `a + b` is the run of `a` followed by the run of `b`. */
  lemma {:induction false} RunAppend(c: Controller, a: seq<Event>, b: seq<Event>)
    ensures Run(c, a + b) == if Run(c, a).Some? then Run(Run(c, a).value, b) else None
    decreases |a|
  {
    if |a| == 0 {
      assert a + b == b;
    } else {
      RunCons(c, a[0], a[1..] + b);
      RunCons(c, a[0], a[1..]);
      assert a + b == [a[0]] + (a[1..] + b) && a == [a[0]] + a[1..];
      if Enabled(c, a[0]) {
        RunAppend(Step(c, a[0]), a[1..], b);
      }
    }
  }

  /** Starting, receiving a session and choosing an answer leaves that answer in flight. */
  lemma AnswerInFlight(c: Controller, s1: StartResponse, a: string)
    requires |s1.questions| > 0 && a != ""
    ensures var r := Run(c, [Start, StartOk(s1), Select(a)]);
      r.Some? && r.value.pendingSubmits > 0
  {
    var evs := [Start, StartOk(s1), Select(a)];
    var c1 := StartTest(c);
    var c2 := StartSucceeded(c1, s1);
    assert c2.session == Some(s1) && c2.currentQuestion == Some(s1.questions[0]);
    var c3 := OnAnswerSelect(c2, a);
    assert c3.pendingSubmits == c2.pendingSubmits + 1;
    RunCons(c2, Select(a), []);
    RunCons(c1, StartOk(s1), evs[2..]);
    RunCons(c, Start, evs[1..]);
    assert evs == [Start] + evs[1..] && evs[1..] == [StartOk(s1)] + evs[2..] && evs[2..] == [Select(a)] + [];
  }

  /** Restarting while an answer is in flight: its acceptance moves the fresh index to 1. */
  lemma RestartWithAnswerInFlight(c: Controller, s2: StartResponse)
    requires c.pendingSubmits > 0
    ensures var r := Run(c, [Start, SubmitOk, StartOk(s2)]);
      r.Some? && r.value.session == Some(s2) && r.value.currentQuestionIndex == 1
      && r.value.currentQuestion == FirstQuestion(s2)
  {
    var evs := [Start, SubmitOk, StartOk(s2)];
    var c1 := StartTest(c);
    var c2 := SubmitSucceeded(c1);
    assert c2.currentQuestionIndex == 1 && c2.pendingStarts == c1.pendingStarts;
    RunCons(c2, StartOk(s2), []);
    RunCons(c1, SubmitOk, evs[2..]);
    RunCons(c, Start, evs[1..]);
    assert evs == [Start] + evs[1..] && evs[1..] == [SubmitOk] + evs[2..] && evs[2..] == [StartOk(s2)] + [];
  }

  /**
   * A reply for an abandoned session is not ignored: when a test is restarted
   * while an answer is in flight, its acceptance moves the fresh index to 1,
   * and the start reply then shows question 0 under index 1.
   */
  lemma StaleAnswerSkipsQuestion(c: Controller, s1: StartResponse, s2: StartResponse, a: string)
    requires |s1.questions| > 0 && a != ""
    ensures var r := Run(c, [Start, StartOk(s1), Select(a), Start, SubmitOk, StartOk(s2)]);
      r.Some? && r.value.session == Some(s2) && r.value.currentQuestionIndex == 1
      && r.value.currentQuestion == FirstQuestion(s2)
      && (|s2.questions| == 1 || (|s2.questions| > 1 && s2.questions[1] != s2.questions[0]) ==> !OnQuestion(r.value))
  {
    var first := [Start, StartOk(s1), Select(a)];
    var second := [Start, SubmitOk, StartOk(s2)];
    AnswerInFlight(c, s1, a);
    RestartWithAnswerInFlight(Run(c, first).value, s2);
    RunAppend(c, first, second);
    assert first + second == [Start, StartOk(s1), Select(a), Start, SubmitOk, StartOk(s2)];
  }

  /** With two questions in the new session, answering the one shown then finishes the test after a single answer. */
  lemma StaleAnswerFinishesEarly(c: Controller, b: string)
    requires c.session.Some? && |c.session.value.questions| == 2 && c.currentQuestionIndex == 1
    requires c.currentQuestion == FirstQuestion(c.session.value) && b != ""
    ensures var r := Run(c, [Select(b), SubmitOk]);
      r.Some? && r.value.finishRequests == c.finishRequests + [c.session.value.sessionId]
      && |r.value.sentAnswers| == |c.sentAnswers| + 1
      && r.value.sentAnswers[|c.sentAnswers|].questionId == c.session.value.questions[0].id
  {
    var d := OnAnswerSelect(c, b);
    assert Run(d, [SubmitOk]) == Some(SubmitSucceeded(d));
  }

  /**
   * The answer reply as evidently intended: a reply for a session the
   * component no longer holds only ends its request; a reply for the held
   * session is handled as before.
   */
  function SubmitSucceededFor(c: Controller, sessionId: string): (r: Controller)
    requires c.pendingSubmits > 0
    ensures (c.session.None? || c.session.value.sessionId != sessionId) ==>
      r == c.(pendingSubmits := c.pendingSubmits - 1)
    ensures c.session.Some? && c.session.value.sessionId == sessionId ==> r == SubmitSucceeded(c)
    ensures Inv(c) ==> Inv(r)
  {
    if c.session.Some? && c.session.value.sessionId == sessionId then SubmitSucceeded(c)
    else c.(pendingSubmits := c.pendingSubmits - 1)
  }

  /** With replies matched to their session, the restart race leaves the new session on its first question. */
  lemma StaleAnswerIgnoredAfterRestart(c: Controller, s1: StartResponse, s2: StartResponse, a: string)
    requires |s1.questions| > 0 && |s2.questions| > 0 && a != ""
    ensures var c3 := OnAnswerSelect(StartSucceeded(StartTest(c), s1), a);
      var sent := c3.sentAnswers[|c3.sentAnswers| - 1];
      var r := StartSucceeded(SubmitSucceededFor(StartTest(c3), sent.sessionId), s2);
      r.currentQuestionIndex == 0 && r.currentQuestion == Some(s2.questions[0]) && OnQuestion(r)
  {
    var c2 := StartSucceeded(StartTest(c), s1);
    assert c2.session == Some(s1) && c2.currentQuestion == Some(s1.questions[0]);
    var c3 := OnAnswerSelect(c2, a);
    assert c3.pendingSubmits == c2.pendingSubmits + 1 && c3.sentAnswers[|c3.sentAnswers| - 1].sessionId == s1.sessionId;
    var c4 := StartTest(c3);
    var c5 := SubmitSucceededFor(c4, s1.sessionId);
    assert c5.currentQuestionIndex == 0 && c5.pendingStarts == c4.pendingStarts;
  }

  /** A 401 refusal reaches the component without its status, so the authentication message never appears. */
  lemma StartFailureNeverReportsAuth(c: Controller, f: HttpFailure)
    requires c.pendingStarts > 0
    ensures StartFailed(c, ServiceError(f)).error == Some(StartFailedMessage)
  {
  }

  /** With the status kept, a 401 refusal shows the authentication message. */
  lemma StartFailureWithStatusReportsAuth(c: Controller, f: HttpFailure)
    requires c.pendingStarts > 0 && f.HttpFailure?
    ensures StartFailed(c, ServiceErrorKeepingStatus(f)).error
            == Some(if f.status == 401 then AuthRequiredMessage else StartFailedMessage)
  {
  }
}
