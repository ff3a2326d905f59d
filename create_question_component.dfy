/**
 * The question-creation component as an object: each handler updates the
 * fields in place, and afterwards the state is the matching function of
 * `CreateQuestion` applied to the state before.
 */
module CreateQuestionView {
  import opened Js
  import opened QuestionForm
  import opened CreateQuestion

  /**
   * What has no field of its own in the source: the next preview handle
   * `createObjectURL` hands out, and the create requests in flight and sent.
   */
  datatype Effects = Effects(nextHandle: nat, pendingSaves: nat, createRequests: seq<seq<Entry>>)

  class CreateQuestionComponent {
    var questionForm: FormValue
    var loading: bool
    var error: Option<string>
    var questionImagePreview: Option<Preview>
    var answerImagePreviews: seq<Option<Preview>>
    var selectedImage: Option<Preview>
    var effects: Effects

    function State(): Creator
      reads this
    {
      Creator(questionForm.text, questionForm.image, questionForm.answers, loading, error, questionImagePreview,
              answerImagePreviews, selectedImage, effects.nextHandle, effects.pendingSaves, effects.createRequests)
    }

    predicate Valid()
      reads this
    {
      Inv(State())
    }

    constructor ()
      ensures Valid() && State() == Init()
    {
      questionForm := FormValue("", None, [BlankAnswer, BlankAnswer]);
      loading, error := false, None;
      questionImagePreview, answerImagePreviews, selectedImage := None, [None, None], None;
      effects := Effects(0, 0, []);
      new;
      assert State() == Init();
    }

    method AddAnswer()
      requires Valid()
      modifies this
      ensures Valid() && State() == CreateQuestion.AddAnswer(old(State()))
    {
      if |questionForm.answers| < MaxAnswers {
        questionForm := questionForm.(answers := questionForm.answers + [BlankAnswer]);
        answerImagePreviews := answerImagePreviews + [None];
      } else {
        error := Some(MaxAnswersMessage);
      }
    }

    method RemoveAnswer(index: nat)
      requires Valid()
      modifies this
      ensures Valid() && State() == CreateQuestion.RemoveAnswer(old(State()), index)
    {
      if |questionForm.answers| > MinAnswers {
        ghost var m := State();
        questionForm := questionForm.(answers := RemoveAt(questionForm.answers, index));
        answerImagePreviews := RemoveAt(answerImagePreviews, index);
        if index < |answerImagePreviews| && selectedImage == answerImagePreviews[index] {
          selectedImage := None;
        }
        assert State() == RemovedAt(m, index, selectedImage);
        assert State() == CreateQuestion.RemoveAnswer(m, index);
      }
    }

    method OnImageChange(file: Option<FileRef>, target: ImageTarget)
      requires Valid()
      modifies this
      ensures Valid() && State() == ImageChanged(old(State()), file, target)
    {
      if file.None? {
        return;
      }
      var f := file.value;
      var check := CheckImage(f);
      if check == WrongType {
        error := Some(WrongTypeMessage);
        return;
      }
      if check == TooLarge {
        error := Some(TooLargeMessage);
        return;
      }
      match target
      case ForQuestion =>
        questionForm := questionForm.(image := file);
        questionImagePreview := Some(Preview(effects.nextHandle, f));
        effects := effects.(nextHandle := effects.nextHandle + 1);
      case ForAnswer(None) =>
      case ForAnswer(Some(i)) =>
        if i < |questionForm.answers| {
          questionForm := questionForm.(answers := questionForm.answers[i := questionForm.answers[i].(image := file)]);
          answerImagePreviews := answerImagePreviews[i := Some(Preview(effects.nextHandle, f))];
          effects := effects.(nextHandle := effects.nextHandle + 1);
        }
    }

    method OpenImage(img: Option<Preview>)
      requires Valid()
      modifies this
      ensures Valid() && State() == CreateQuestion.OpenImage(old(State()), img)
    {
      if img.Some? {
        selectedImage := img;
      }
    }

    method CloseImage()
      requires Valid()
      modifies this
      ensures Valid() && State() == CreateQuestion.CloseImage(old(State()))
    {
      selectedImage := None;
    }

    method RemoveImage(target: ImageTarget)
      requires Valid()
      modifies this
      ensures Valid() && State() == ImageRemoved(old(State()), target)
    {
      match target
      case ForQuestion =>
        questionForm := questionForm.(image := None);
        questionImagePreview := None;
        if selectedImage == questionImagePreview {
          selectedImage := None;
        }
      case ForAnswer(None) =>
      case ForAnswer(Some(i)) =>
        if i < |questionForm.answers| {
          questionForm := questionForm.(answers := questionForm.answers[i := questionForm.answers[i].(image := None)]);
          answerImagePreviews := answerImagePreviews[i := None];
          if selectedImage == answerImagePreviews[i] {
            selectedImage := None;
          }
        }
    }

    method SetCorrectAnswer(k: int)
      requires Valid()
      modifies this
      ensures Valid() && State() == CreateQuestion.SetCorrectAnswer(old(State()), k)
    {
      var answers := questionForm.answers;
      var marked := answers;
      var i := 0;
      while i < |marked|
        invariant 0 <= i <= |marked| == |answers|
        invariant forall j :: 0 <= j < i ==> marked[j] == Mark(answers[j], j == k)
        invariant forall j :: i <= j < |marked| ==> marked[j] == answers[j]
      {
        marked := marked[i := marked[i].(isCorrect := i == k)];
        if i != k {
          marked := marked[i := marked[i].(correctDescription := "")];
        }
        i := i + 1;
      }
      assert marked == MarkCorrect(answers, k);
      questionForm := questionForm.(answers := marked);
    }

    method ClearForm()
      requires Valid()
      modifies this
      ensures Valid() && State() == CreateQuestion.ClearForm(old(State()))
    {
      questionForm := FormValue("", None, [BlankAnswer, BlankAnswer]);
      questionImagePreview := None;
      answerImagePreviews := [None, None];
      selectedImage := None;
      error := None;
    }

    /** `onSubmit`; returns the create request sent, if any. */
    method OnSubmit() returns (sent: Option<seq<Entry>>)
      requires Valid()
      modifies this
      ensures Valid() && State() == Submit(old(State()))
      ensures sent.Some? <==> FormValidOf(old(State()))
      ensures sent.Some? ==> sent.value == Serialize(old(questionForm).text, old(questionForm).image, old(questionForm).answers)
    {
      var form := questionForm;
      if !FormValid(form.text, form.image, form.answers) {
        error := Some(InvalidFormMessage);
        return None;
      }
      var entries := SerializeForm(form.text, form.image, form.answers);
      loading := true;
      effects := effects.(pendingSaves := effects.pendingSaves + 1, createRequests := effects.createRequests + [entries]);
      sent := Some(entries);
    }

    method OnSaveSucceeded()
      requires Valid() && effects.pendingSaves > 0
      modifies this
      ensures Valid() && State() == SaveSucceeded(old(State()))
    {
      loading := false;
      effects := effects.(pendingSaves := effects.pendingSaves - 1);
      ClearForm();
    }

    method OnSaveFailed(message: string)
      requires Valid() && effects.pendingSaves > 0
      modifies this
      ensures Valid() && State() == SaveFailed(old(State()), message)
    {
      loading := false;
      effects := effects.(pendingSaves := effects.pendingSaves - 1);
      error := Some(CreateFailedPrefix + (if message != "" then message else ServerErrorFallback));
    }
  }
}
