/**
 * The question-management component as an object: each handler updates the
 * fields in place, and afterwards the state is the matching function of
 * `QuestionManagement` applied to the state before.
 */
module QuestionManagementView {
  import opened Js
  import opened QuestionForm
  import opened QuestionManagement


  /** The requests the component has in flight and has sent, which have no field of their own in the source. */
  datatype Effects = Effects(pendingLoads: nat, pendingSaves: nat, pageRequests: seq<int>, saveRequests: seq<SaveRequest>)

  class ManagementQuestionComponent {
    var questions: seq<QQuestion>
    var totalQuestions: int
    var currentPage: int
    var loading: bool
    var error: Option<string>
    var editingQuestionId: Option<string>
    var questionForm: FormValue
    var questionImagePreview: Option<Preview>
    var answerImagePreviews: seq<Option<Preview>>
    var selectedImage: Option<Preview>
    var effects: Effects

    function State(): Manager
      reads this
    {
      Manager(questions, totalQuestions, currentPage, loading, error, editingQuestionId, questionForm.text,
              questionForm.image, questionForm.answers, questionImagePreview, answerImagePreviews, selectedImage,
              effects.pendingLoads, effects.pendingSaves, effects.pageRequests, effects.saveRequests)
    }

    predicate Valid()
      reads this
    {
      Inv(State())
    }

    constructor ()
      ensures Valid() && State() == Init()
    {
      questions, totalQuestions, currentPage, loading, error := [], 0, 1, false, None;
      editingQuestionId, questionForm := None, FormValue("", None, []);
      questionImagePreview, answerImagePreviews, selectedImage := None, [], None;
      effects := Effects(0, 0, [], []);
      new;
      assert State() == Init();
    }

    method OnInit()
      requires Valid()
      modifies this
      ensures Valid() && State() == QuestionManagement.LoadQuestions(old(State()))
    {
      LoadQuestions();
    }

    method LoadQuestions()
      requires Valid()
      modifies this
      ensures Valid() && State() == QuestionManagement.LoadQuestions(old(State()))
    {
      loading := true;
      error := None;
      effects := effects.(pendingLoads := effects.pendingLoads + 1, pageRequests := effects.pageRequests + [currentPage]);
    }

    method OnLoadSucceeded(response: seq<QQuestion>, total: int)
      requires Valid() && effects.pendingLoads > 0
      modifies this
      ensures Valid() && State() == LoadSucceeded(old(State()), response, total)
    {
      questions := response;
      totalQuestions := total;
      loading := false;
      effects := effects.(pendingLoads := effects.pendingLoads - 1);
    }

    method OnLoadFailed(message: string)
      requires Valid() && effects.pendingLoads > 0
      modifies this
      ensures Valid() && State() == LoadFailed(old(State()), message)
    {
      error := Some(message);
      loading := false;
      effects := effects.(pendingLoads := effects.pendingLoads - 1);
    }

    method ChangePage(page: int)
      requires Valid()
      modifies this
      ensures Valid() && State() == QuestionManagement.ChangePage(old(State()), page)
    {
      if page >= 1 && page <= TotalPages(totalQuestions) {
        currentPage := page;
        LoadQuestions();
      }
    }

    method GetTotalPages() returns (pages: int)
      ensures pages == TotalPages(totalQuestions)
    {
      pages := -((-totalQuestions) / PageSize);
    }

    method AddAnswer(a: Option<QAnswer>)
      requires Valid()
      modifies this
      ensures Valid() && State() == QuestionManagement.AddAnswer(old(State()), a)
    {
      if |questionForm.answers| < MaxAnswers {
        questionForm := questionForm.(answers := questionForm.answers + [NewAnswer(a)]);
        answerImagePreviews := answerImagePreviews + [PreviewOf(a)];
      } else {
        error := Some(MaxAnswersMessage);
      }
    }

    method RemoveAnswer(index: nat)
      requires Valid()
      modifies this
      ensures Valid() && State() == QuestionManagement.RemoveAnswer(old(State()), index)
    {
      if |questionForm.answers| > MinAnswers {
        questionForm := questionForm.(answers := RemoveAt(questionForm.answers, index));
        answerImagePreviews := RemoveAt(answerImagePreviews, index);
      } else {
        error := Some(TooFewAnswersMessage);
      }
    }

    /** The assignments `editQuestion` makes before it adds the stored answers. */
    method ClearForEdit(q: QQuestion)
      requires Valid()
      modifies this
      ensures Valid() && State() == QuestionManagement.ClearForEdit(old(State()), q)
    {
      editingQuestionId := Some(q.id);
      questionForm := FormValue(OrEmpty(q.text), None, []);
      questionImagePreview := if IsTruthy(q.imageUrl) then Some(RemoteImage(q.imageUrl.value)) else None;
      answerImagePreviews := [];
    }

    method EditQuestion(q: QQuestion)
      requires Valid()
      modifies this
      ensures Valid() && State() == QuestionManagement.EditQuestion(old(State()), q)
    {
      ClearForEdit(q);
      ghost var cleared := State();
      var i := 0;
      while i < |q.answers|
        invariant 0 <= i <= |q.answers|
        invariant Valid() && State() == AddAll(cleared, q.answers[..i])
      {
        ghost var before := State();
        assert q.answers[..i + 1][..i] == q.answers[..i];
        assert AddAll(cleared, q.answers[..i + 1]) == QuestionManagement.AddAnswer(before, Some(q.answers[i]));
        AddAnswer(Some(q.answers[i]));
        i := i + 1;
      }
      assert q.answers[..i] == q.answers;
    }

    method CancelEdit()
      requires Valid()
      modifies this
      ensures Valid() && State() == QuestionManagement.CancelEdit(old(State()))
    {
      editingQuestionId := None;
      questionForm := FormValue("", None, []);
      questionImagePreview := None;
      answerImagePreviews := [];
      error := None;
      selectedImage := None;
    }

    method SetCorrectAnswer(k: int)
      requires Valid()
      modifies this
      ensures Valid() && State() == QuestionManagement.SetCorrectAnswer(old(State()), k)
    {
      var answers := questionForm.answers;
      var marked := answers;
      var i := 0;
      while i < |marked|
        invariant 0 <= i <= |marked| == |answers|
        invariant forall j :: 0 <= j < i ==> marked[j] == Mark(answers[j], j == k)
        invariant forall j :: i <= j < |marked| ==> marked[j] == answers[j]
      {
        marked := marked[i := marked[i].(isCorrect := i == k)];
        if i != k {
          marked := marked[i := marked[i].(correctDescription := "")];
        }
        i := i + 1;
      }
      assert marked == MarkCorrect(answers, k);
      questionForm := questionForm.(answers := marked);
    }

    method OnImageChange(file: Option<FileRef>, target: ImageTarget)
      requires Valid()
      modifies this
      ensures Valid() && State() == ImageChanged(old(State()), file, target)
    {
      if file.None? {
        return;
      }
      var f := file.value;
      var check := CheckImage(f);
      if check == WrongType {
        error := Some(WrongTypeMessage);
        return;
      }
      if check == TooLarge {
        error := Some(TooLargeMessage);
        return;
      }
      match target
      case ForQuestion =>
        questionForm := questionForm.(image := file);
        questionImagePreview := Some(LocalFile(f));
      case ForAnswer(None) =>
      case ForAnswer(Some(i)) =>
        if i < |questionForm.answers| {
          questionForm := questionForm.(answers := questionForm.answers[i := questionForm.answers[i].(image := file, imageUrl := "")]);
          answerImagePreviews := answerImagePreviews[i := Some(LocalFile(f))];
        }
    }

    method RemoveImage(target: ImageTarget)
      requires Valid()
      modifies this
      ensures Valid() && State() == ImageRemoved(old(State()), target)
    {
      match target
      case ForQuestion =>
        questionForm := questionForm.(image := None);
        questionImagePreview := None;
      case ForAnswer(None) =>
      case ForAnswer(Some(i)) =>
        if i < |questionForm.answers| {
          questionForm := questionForm.(answers := questionForm.answers[i := questionForm.answers[i].(image := None, imageUrl := "")]);
          answerImagePreviews := answerImagePreviews[i := None];
        }
    }

    method OpenImage(img: Option<Preview>)
      requires Valid()
      modifies this
      ensures Valid() && State() == QuestionManagement.OpenImage(old(State()), img)
    {
      if img.Some? && img.value != RemoteImage("") {
        selectedImage := img;
      }
    }

    method CloseImage()
      requires Valid()
      modifies this
      ensures Valid() && State() == QuestionManagement.CloseImage(old(State()))
    {
      selectedImage := None;
    }

    /** `onSubmit`; returns the request sent, if any. */
    method OnSubmit() returns (sent: Option<SaveRequest>)
      requires Valid()
      modifies this
      ensures Valid() && State() == Submit(old(State()))
      ensures sent.Some? <==> FormValidOf(old(State()))
      ensures sent.Some? ==> sent.value == RequestFor(old(State()))
    {
      ghost var m := State();
      var form := questionForm;
      if !FormValid(form.text, form.image, form.answers) {
        error := Some(ValidationMessage(form.text, form.image, form.answers));
        assert State() == Rejected(m);
        return None;
      }
      var entries := SerializeForm(form.text, form.image, form.answers);
      var req := if IsTruthy(editingQuestionId) then Update(editingQuestionId.value, entries) else Create(entries);
      assert req == RequestFor(m);
      loading := true;
      effects := effects.(pendingSaves := effects.pendingSaves + 1, saveRequests := effects.saveRequests + [req]);
      sent := Some(req);
      assert State() == Sent(m, req);
    }

    method OnSaveSucceeded()
      requires Valid() && effects.pendingSaves > 0
      modifies this
      ensures Valid() && State() == SaveSucceeded(old(State()))
    {
      loading := false;
      effects := effects.(pendingSaves := effects.pendingSaves - 1);
      CancelEdit();
      LoadQuestions();
    }

    method OnSaveFailed(message: string)
      requires Valid() && effects.pendingSaves > 0
      modifies this
      ensures Valid() && State() == SaveFailed(old(State()), message)
    {
      loading := false;
      error := Some(message);
      effects := effects.(pendingSaves := effects.pendingSaves - 1);
    }
  }
}
