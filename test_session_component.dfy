/**
 * The test-session component as an object: its fields are updated in place by
 * each handler, and after every handler the state equals the corresponding
 * function of `TestSession` applied to the state before.
 */
module TestSessionView {
  import opened Js
  import opened TestSession

  /**
   * What the component has done to the world outside it and that has no
   * field of its own in the source: timer subscriptions made and cancelled,
   * requests in flight, and the requests sent.
   */
  datatype Effects = Effects(
    timersStarted: nat,
    timersStopped: nat,
    pendingStarts: nat,
    pendingSubmits: nat,
    pendingFinishes: nat,
    sentAnswers: seq<AnswerRequest>,
    finishRequests: seq<string>)

  class TestSessionComponent {
    var session: Option<StartResponse>
    var result: Option<TestResult>
    var currentQuestionIndex: nat
    var currentQuestion: Option<Question>
    var selectedAnswerId: Option<string>
    var timeRemaining: int
    var loading: bool
    var error: Option<string>
    var showFinishConfirm: bool
    var timer: Option<int>
    var effects: Effects

    function State(): Controller
      reads this
    {
      Controller(session, result, currentQuestionIndex, currentQuestion, selectedAnswerId, timeRemaining,
                 loading, error, showFinishConfirm, timer, effects.timersStarted, effects.timersStopped,
                 effects.pendingStarts, effects.pendingSubmits, effects.pendingFinishes, effects.sentAnswers,
                 effects.finishRequests)
    }

    predicate Valid()
      reads this
    {
      Inv(State())
    }

    constructor ()
      ensures Valid() && State() == Init()
    {
      session, result, currentQuestionIndex, currentQuestion, selectedAnswerId := None, None, 0, None, None;
      timeRemaining, loading, error, showFinishConfirm := 0, false, None, false;
      timer := None;
      effects := Effects(0, 0, 0, 0, 0, [], []);
      new;
      assert State() == Controller(None, None, 0, None, None, 0, false, None, false, None, 0, 0, 0, 0, 0, [], []);
    }

    method StopTimer()
      requires Valid()
      modifies this
      ensures Valid() && State() == TestSession.StopTimer(old(State()))
    {
      if timer.Some? {
        timer := None;
        effects := effects.(timersStopped := effects.timersStopped + 1);
      }
    }

    method StartTimer(deadline: int)
      requires Valid()
      modifies this
      ensures Valid() && State() == TestSession.StartTimer(old(State()), deadline)
      ensures LiveTimers(State()) == 1
    {
      StopTimer();
      timer := Some(deadline);
      effects := effects.(timersStarted := effects.timersStarted + 1);
    }

    method StartTest()
      requires Valid()
      modifies this
      ensures Valid() && State() == TestSession.StartTest(old(State()))
    {
      loading := true;
      error := None;
      result := None;
      session := None;
      currentQuestionIndex := 0;
      selectedAnswerId := None;
      showFinishConfirm := false;
      effects := effects.(pendingStarts := effects.pendingStarts + 1);
    }

    method OnStartSucceeded(response: StartResponse)
      requires Valid() && effects.pendingStarts > 0
      modifies this
      ensures Valid() && State() == StartSucceeded(old(State()), response)
    {
      effects := effects.(pendingStarts := effects.pendingStarts - 1);
      session := Some(response);
      currentQuestion := FirstQuestion(response);
      StartTimer(response.deadline);
      loading := false;
    }

    method OnStartFailed(err: JsError)
      requires Valid() && effects.pendingStarts > 0
      modifies this
      ensures Valid() && State() == StartFailed(old(State()), err)
    {
      effects := effects.(pendingStarts := effects.pendingStarts - 1);
      error := Some(if err.status == Some(401) then AuthRequiredMessage else StartFailedMessage);
      loading := false;
    }

    method SubmitAnswer()
      requires Valid()
      modifies this
      ensures Valid() && State() == TestSession.SubmitAnswer(old(State()))
    {
      if session.None? || currentQuestion.None? || !IsTruthy(selectedAnswerId) {
        return;
      }
      loading := true;
      error := None;
      var request := AnswerRequest(session.value.sessionId, currentQuestion.value.id, selectedAnswerId.value);
      effects := effects.(pendingSubmits := effects.pendingSubmits + 1, sentAnswers := effects.sentAnswers + [request]);
    }

    method OnSubmitSucceeded()
      requires Valid() && effects.pendingSubmits > 0
      modifies this
      ensures Valid() && State() == SubmitSucceeded(old(State()))
    {
      effects := effects.(pendingSubmits := effects.pendingSubmits - 1);
      loading := false;
      selectedAnswerId := None;
      if session.Some? && currentQuestionIndex == |session.value.questions| - 1 {
        FinishTest();
      } else {
        currentQuestionIndex := currentQuestionIndex + 1;
        currentQuestion := if session.Some? && currentQuestionIndex < |session.value.questions|
                           then Some(session.value.questions[currentQuestionIndex]) else None;
      }
    }

    method OnSubmitFailed(err: JsError)
      requires Valid() && effects.pendingSubmits > 0
      modifies this
      ensures Valid() && State() == SubmitFailed(old(State()), err)
    {
      effects := effects.(pendingSubmits := effects.pendingSubmits - 1);
      error := Some(if err.message == DeadlineMessage then TimeUpMessage else SubmitFailedMessage);
      loading := false;
      if err.message == DeadlineMessage {
        FinishTest();
      }
    }

    method OnAnswerSelect(answerId: string)
      requires Valid()
      modifies this
      ensures Valid() && State() == TestSession.OnAnswerSelect(old(State()), answerId)
    {
      selectedAnswerId := Some(answerId);
      SubmitAnswer();
    }

    method ConfirmFinishTest()
      requires Valid()
      modifies this
      ensures Valid() && State() == TestSession.ConfirmFinishTest(old(State()))
    {
      showFinishConfirm := true;
    }

    method CancelFinishTest()
      requires Valid()
      modifies this
      ensures Valid() && State() == TestSession.CancelFinishTest(old(State()))
    {
      showFinishConfirm := false;
    }

    method FinishTest()
      requires Valid()
      modifies this
      ensures Valid() && State() == TestSession.FinishTest(old(State()))
    {
      if session.None? {
        return;
      }
      loading := true;
      error := None;
      StopTimer();
      effects := effects.(pendingFinishes := effects.pendingFinishes + 1,
                          finishRequests := effects.finishRequests + [session.value.sessionId]);
    }

    method OnFinishSucceeded(res: TestResult)
      requires Valid() && effects.pendingFinishes > 0
      modifies this
      ensures Valid() && State() == FinishSucceeded(old(State()), res)
    {
      effects := effects.(pendingFinishes := effects.pendingFinishes - 1);
      result := Some(res);
      session := None;
      currentQuestion := None;
      showFinishConfirm := false;
      loading := false;
    }

    method OnFinishFailed()
      requires Valid() && effects.pendingFinishes > 0
      modifies this
      ensures Valid() && State() == FinishFailed(old(State()))
    {
      effects := effects.(pendingFinishes := effects.pendingFinishes - 1);
      error := Some(FinishFailedMessage);
      loading := false;
      showFinishConfirm := false;
    }

    /** The body of the timer subscription, run at time `now`. */
    method Tick(now: int)
      requires Valid() && timer.Some?
      modifies this
      ensures Valid() && State() == TestSession.Tick(old(State()), now)
      ensures timeRemaining >= 0
    {
      var timeDiff := timer.value - now;
      if timeDiff <= 0 {
        timeRemaining := 0;
        FinishTest();
      } else {
        timeRemaining := timeDiff;
      }
    }

    method Destroy()
      requires Valid()
      modifies this
      ensures Valid() && State() == TestSession.Destroy(old(State()))
      ensures LiveTimers(State()) == 0
    {
      StopTimer();
    }

    method GetLetter(index: int) returns (ch: char)
      requires 0 <= 65 + index < 0xD800
      ensures ch == Letter(index)
    {
      ch := (65 + index) as char;
    }
  }
}
