/**
 * The question-creation page: a form for one new question that always has
 * two to six answers, local previews of the chosen images, and a create
 * request built from the form.
 */
module CreateQuestion {
  import opened Js
  import opened QuestionForm

  /**
   * A preview address. Every `createObjectURL` call wrapped by the sanitizer
   * makes a new object, and the page compares previews by identity, so each
   * preview carries a handle that no earlier preview had.
   */
  datatype Preview = Preview(handle: nat, file: FileRef)

  /**
   * The page's state. The answers of this form have no stored address, so
   * every `imageUrl` of an `AnswerForm` here stays empty.
   */
  datatype Creator = Creator(
    text: string,
    image: Option<FileRef>,
    answers: seq<AnswerForm>,
    loading: bool,
    error: Option<string>,
    questionImagePreview: Option<Preview>,
    answerImagePreviews: seq<Option<Preview>>,
    selectedImage: Option<Preview>,
    nextHandle: nat,
    pendingSaves: nat,
    createRequests: seq<seq<Entry>>)

  const InvalidFormMessage: string :=
    "Forma to\U{2018}ldirishda xatolik: Iltimos, barcha majburiy maydonlarni to\U{2018}ldiring"
  const CreateFailedPrefix: string := "Savol yaratishda xatolik: "
  const ServerErrorFallback: string := "Server xatosi"

  /** A preview is shown exactly when an image is attached, and it shows that file. */
  predicate Shows(p: Option<Preview>, image: Option<FileRef>)
  {
    match p
    case None => image.None?
    case Some(v) => image == Some(v.file)
  }

  predicate Aligned(answers: seq<AnswerForm>, previews: seq<Option<Preview>>)
  {
    |previews| == |answers| && forall i :: 0 <= i < |answers| ==> Shows(previews[i], answers[i].image)
  }

  predicate NoAddresses(answers: seq<AnswerForm>)
  {
    forall i :: 0 <= i < |answers| ==> answers[i].imageUrl == ""
  }

  predicate Below(p: Option<Preview>, n: nat)
  {
    p.Some? ==> p.value.handle < n
  }

  /** No two answers show the same preview object. */
  predicate DistinctHandles(previews: seq<Option<Preview>>)
  {
    forall i, j :: 0 <= i < j < |previews| && previews[i].Some? && previews[j].Some? ==>
      previews[i].value.handle != previews[j].value.handle
  }

  predicate HandlesBelow(previews: seq<Option<Preview>>, n: nat)
  {
    forall i :: 0 <= i < |previews| ==> Below(previews[i], n)
  }

  predicate Inv(m: Creator)
  {
    MinAnswers <= |m.answers| <= MaxAnswers
    && Shows(m.questionImagePreview, m.image)
    && Aligned(m.answers, m.answerImagePreviews)
    && NoAddresses(m.answers)
    && DistinctHandles(m.answerImagePreviews)
    && HandlesBelow(m.answerImagePreviews, m.nextHandle)
    && Below(m.questionImagePreview, m.nextHandle)
  }

  /** The page as the constructor leaves it: two blank answers, nothing previewed. */
  function Init(): (m: Creator)
    ensures Inv(m)
    ensures m.text == "" && m.image.None? && m.answers == [BlankAnswer, BlankAnswer]
    ensures m.questionImagePreview.None? && m.answerImagePreviews == [None, None] && m.selectedImage.None?
    ensures !m.loading && m.error.None? && m.pendingSaves == 0 && m.createRequests == []
    ensures !FormValid(m.text, m.image, m.answers)
  {
    Creator("", None, [BlankAnswer, BlankAnswer], false, None, None, [None, None], None, 0, 0, [])
  }

  // ---------------------------------------------------------------------------
  // The answer list
  // ---------------------------------------------------------------------------

  /** `addAnswer`: appends a blank answer while there are fewer than six. */
  function AddAnswer(m: Creator): (r: Creator)
    ensures |m.answers| < MaxAnswers ==>
      r == m.(answers := m.answers + [BlankAnswer], answerImagePreviews := m.answerImagePreviews + [None])
    ensures |m.answers| >= MaxAnswers ==> r == m.(error := Some(MaxAnswersMessage))
    ensures Inv(m) ==> Inv(r)
  {
    if |m.answers| < MaxAnswers then
      m.(answers := m.answers + [BlankAnswer], answerImagePreviews := m.answerImagePreviews + [None])
    else m.(error := Some(MaxAnswersMessage))
  }

  lemma RemoveAtKeepsDistinct(previews: seq<Option<Preview>>, i: nat)
    requires DistinctHandles(previews)
    ensures DistinctHandles(RemoveAt(previews, i))
  {
    var r := RemoveAt(previews, i);
    forall a, b | 0 <= a < b < |r| && r[a].Some? && r[b].Some?
      ensures r[a].value.handle != r[b].value.handle
    {
      var a' := if a < i then a else a + 1;
      var b' := if b < i then b else b + 1;
      assert r[a] == previews[a'] && r[b] == previews[b'] && a' < b';
    }
  }

  /** Both lists without position `i`, and `shown` as the enlarged image. */
  function RemovedAt(m: Creator, i: nat, shown: Option<Preview>): Creator
  {
    m.(answers := RemoveAt(m.answers, i), answerImagePreviews := RemoveAt(m.answerImagePreviews, i),
       selectedImage := shown)
  }

  lemma RemovalKeepsInv(m: Creator, i: nat, shown: Option<Preview>)
    requires Inv(m) && |m.answers| > MinAnswers
    ensures Inv(RemovedAt(m, i, shown))
  {
    RemoveAtKeepsDistinct(m.answerImagePreviews, i);
    var r := RemovedAt(m, i, shown);
    assert Aligned(r.answers, r.answerImagePreviews);
  }

  /**
   * `removeAnswer(i)`: with more than two answers, removes position `i` of
   * both lists and then closes the enlarged image if it is the preview now at
   * position `i`; with two answers it does nothing.
   */
  function RemoveAnswer(m: Creator, i: nat): (r: Creator)
    ensures |m.answers| <= MinAnswers ==> r == m
    ensures |m.answers| > MinAnswers ==>
      r.answers == RemoveAt(m.answers, i) && r.answerImagePreviews == RemoveAt(m.answerImagePreviews, i)
      && r.(selectedImage := m.selectedImage)
         == m.(answers := r.answers, answerImagePreviews := r.answerImagePreviews)
    ensures Inv(m) ==> Inv(r)
  {
    if |m.answers| > MinAnswers then
      var previews := RemoveAt(m.answerImagePreviews, i);
      var shown := if i < |previews| && m.selectedImage == previews[i] then None else m.selectedImage;
      if Inv(m) then RemovalKeepsInv(m, i, shown); RemovedAt(m, i, shown)
      else RemovedAt(m, i, shown)
    else m
  }

  /** The list never shrinks below two answers nor grows beyond six. */
  lemma AnswerCountBounds(m: Creator, i: nat)
    requires Inv(m)
    ensures |AddAnswer(m).answers| == if |m.answers| < MaxAnswers then |m.answers| + 1 else |m.answers|
    ensures |RemoveAnswer(m, i).answers| == if |m.answers| > MinAnswers && i < |m.answers| then |m.answers| - 1 else |m.answers|
    ensures RemoveAnswer(m, i).error == m.error
  {
  }

  /**
   * The enlarged image of a removed answer stays open: the check compares it
   * with the preview that moved into the freed position, which is another
   * object or none.
   */
  lemma RemovingShownAnswerKeepsModal(m: Creator, i: nat)
    requires Inv(m) && |m.answers| > MinAnswers && i < |m.answers|
    requires m.answerImagePreviews[i].Some? && m.selectedImage == m.answerImagePreviews[i]
    ensures RemoveAnswer(m, i).selectedImage == m.selectedImage
  {
    var previews := RemoveAt(m.answerImagePreviews, i);
    if i < |previews| {
      assert previews[i] == m.answerImagePreviews[i + 1];
    }
  }

  /** Removing the answer just before the one shown closes it instead. */
  lemma RemovingPreviousAnswerClosesModal(m: Creator, i: nat)
    requires Inv(m) && |m.answers| > MinAnswers && i + 1 < |m.answers|
    requires m.selectedImage == m.answerImagePreviews[i + 1]
    ensures RemoveAnswer(m, i).selectedImage.None?
  {
    assert RemoveAt(m.answerImagePreviews, i)[i] == m.answerImagePreviews[i + 1];
  }

  /** `setCorrectAnswer(k)` */
  function SetCorrectAnswer(m: Creator, k: int): (r: Creator)
    ensures r == m.(answers := MarkCorrect(m.answers, k))
    ensures Inv(m) ==> Inv(r)
  {
    var r := m.(answers := MarkCorrect(m.answers, k));
    assert Inv(m) ==> Inv(r) by {
      MarkCorrectExactlyOne(m.answers, k);
    }
    r
  }

  /** `clearForm`: the page as the constructor left it, but still counting its previews and requests. */
  function ClearForm(m: Creator): (r: Creator)
    ensures Inv(r)
  {
    m.(text := "", image := None, answers := [BlankAnswer, BlankAnswer], questionImagePreview := None,
       answerImagePreviews := [None, None], selectedImage := None, error := None)
  }

  /** A cleared form cannot be sent: it has neither text nor image, and no correct answer. */
  lemma ClearedFormRejected(m: Creator)
    ensures var r := ClearForm(m);
      !FormValid(r.text, r.image, r.answers) && !SomeCorrect(r.answers)
      && r.(loading := m.loading) == Init().(loading := m.loading, nextHandle := m.nextHandle,
                                             pendingSaves := m.pendingSaves, createRequests := m.createRequests)
  {
    var r := ClearForm(m);
    assert !IsFilled(r.text);
  }

  // ---------------------------------------------------------------------------
  // Images
  // ---------------------------------------------------------------------------

  /**
   * The answer an image handler names exists. For an index past the end,
   * `answers.at(index)` is `undefined` and the handler throws a `TypeError`
   * at its `patchValue`, before it changes anything this model keeps.
   */
  predicate TargetExists(m: Creator, target: ImageTarget)
  {
    target.ForAnswer? && target.index.Some? ==> target.index.value < |m.answers|
  }

  /**
   * `onImageChange`: a refused file only sets the error; an accepted one
   * becomes the question's or the answer's image, with a new preview.
   */
  function ImageChanged(m: Creator, file: Option<FileRef>, target: ImageTarget): (r: Creator)
    requires Inv(m)
    ensures file.None? ==> r == m
    ensures file.Some? && CheckImage(file.value) != Accepted ==>
      r == m.(error := Some(RejectionMessage(CheckImage(file.value))))
    ensures |r.answers| == |m.answers| && |r.answerImagePreviews| == |m.answerImagePreviews|
    ensures file.Some? && CheckImage(file.value) == Accepted && target.ForQuestion? ==>
      r.image == file && r.questionImagePreview == Some(Preview(m.nextHandle, file.value)) && r.answers == m.answers
    ensures file.Some? && CheckImage(file.value) == Accepted && !TargetExists(m, target) ==> r == m
    ensures file.Some? && CheckImage(file.value) == Accepted && target.ForAnswer? && TargetExists(m, target)
            && target.index.Some? ==>
      var i := target.index.value;
      r.answers[i] == m.answers[i].(image := file)
      && r.answerImagePreviews[i] == Some(Preview(m.nextHandle, file.value))
    ensures r.selectedImage == m.selectedImage
    ensures Inv(r)
  {
    if file.None? then m
    else
      var check := CheckImage(file.value);
      if check != Accepted then m.(error := Some(RejectionMessage(check)))
      else
        var p := Preview(m.nextHandle, file.value);
        match target
        case ForQuestion => m.(image := file, questionImagePreview := Some(p), nextHandle := m.nextHandle + 1)
        case ForAnswer(None) => m
        case ForAnswer(Some(i)) =>
          if i < |m.answers| then
            m.(answers := m.answers[i := m.answers[i].(image := file)],
               answerImagePreviews := m.answerImagePreviews[i := Some(p)], nextHandle := m.nextHandle + 1)
          else m
  }

  /**
   * `removeImage`: drops the image and its preview. The enlarged image is
   * compared with the preview only after the preview was cleared, so it is
   * never closed here.
   */
  function ImageRemoved(m: Creator, target: ImageTarget): (r: Creator)
    requires Inv(m)
    ensures !TargetExists(m, target) ==> r == m
    ensures target.ForQuestion? ==> r.image.None? && r.questionImagePreview.None? && r.answers == m.answers
    ensures |r.answers| == |m.answers| && |r.answerImagePreviews| == |m.answerImagePreviews|
    ensures target.ForAnswer? && target.index.Some? && TargetExists(m, target) ==>
      var i := target.index.value;
      r.answers[i] == m.answers[i].(image := None) && r.answerImagePreviews[i].None?
    ensures Inv(r)
  {
    match target
    case ForQuestion => m.(image := None, questionImagePreview := None)
    case ForAnswer(None) => m
    case ForAnswer(Some(i)) =>
      if i < |m.answers| then
        m.(answers := m.answers[i := m.answers[i].(image := None)],
           answerImagePreviews := m.answerImagePreviews[i := None])
      else m
  }

  /** A removed image stays enlarged if it was the one shown. */
  lemma RemovingImageKeepsModal(m: Creator, target: ImageTarget)
    requires Inv(m)
    requires target.ForQuestion? && m.questionImagePreview.Some?
    requires m.selectedImage == m.questionImagePreview
    ensures ImageRemoved(m, target).selectedImage == m.questionImagePreview
    ensures ImageRemoved(m, target).questionImagePreview.None?
  {
  }

  /** `openImage`: a present preview becomes the one shown enlarged. */
  function OpenImage(m: Creator, image: Option<Preview>): (r: Creator)
    ensures image.Some? ==> r.selectedImage == image
    ensures r.(selectedImage := m.selectedImage) == m
  {
    if image.Some? then m.(selectedImage := image) else m
  }

  function CloseImage(m: Creator): (r: Creator)
    ensures r.selectedImage.None? && r.(selectedImage := m.selectedImage) == m
  {
    m.(selectedImage := None)
  }

  // ---------------------------------------------------------------------------
  // Saving
  // ---------------------------------------------------------------------------

  predicate FormValidOf(m: Creator)
  {
    FormValid(m.text, m.image, m.answers)
  }

  /**
   * On this page the list length never decides validity: the form is valid
   * exactly when the question and every answer have a non-blank text or an
   * image, and some answer is marked correct.
   */
  lemma FormValidOnPage(m: Creator)
    requires Inv(m)
    ensures FormValidOf(m) <==>
      (IsFilled(m.text) || m.image.Some?)
      && (forall i :: 0 <= i < |m.answers| ==> IsFilled(m.answers[i].text) || m.answers[i].image.Some?)
      && SomeCorrect(m.answers)
  {
  }

  /** A valid form is sent as a create request. */
  function Sent(m: Creator, entries: seq<Entry>): Creator
  {
    m.(loading := true, pendingSaves := m.pendingSaves + 1, createRequests := m.createRequests + [entries])
  }

  /** `onSubmit`: an invalid form shows the page's one message; a valid one is serialised and sent. */
  function Submit(m: Creator): (r: Creator)
    ensures Inv(m) ==> Inv(r)
  {
    if FormValidOf(m) then Sent(m, Serialize(m.text, m.image, m.answers))
    else m.(error := Some(InvalidFormMessage))
  }

  /**
   * An invalid form sends nothing and says so; a valid one sends every
   * value of the form under its own name, never an image address, and an
   * image for answer `i` exactly when that answer shows a preview of it.
   */
  lemma SubmitSendsForm(m: Creator, k: Key)
    requires Inv(m)
    ensures !FormValidOf(m) ==>
      Submit(m).createRequests == m.createRequests && Submit(m).error == Some(InvalidFormMessage)
    ensures FormValidOf(m) ==>
      var sent := Submit(m).createRequests[|m.createRequests|];
      Get(sent, KeyName(k)) == Expected(m.text, m.image, m.answers, k)
      && (k.AnswerKey? && k.field == ImageUrlField ==> Get(sent, KeyName(k)).None?)
      && (k.AnswerKey? && k.field == ImageField && k.index < |m.answers| ==>
            (Get(sent, KeyName(k)).Some? <==> m.answerImagePreviews[k.index].Some?))
  {
    if FormValidOf(m) {
      SerializeGet(m.text, m.image, m.answers, k);
      if k.AnswerKey? && k.index < |m.answers| {
        assert m.answers[k.index].imageUrl == "";
        assert Shows(m.answerImagePreviews[k.index], m.answers[k.index].image);
      }
    }
  }

  /** The create went through: the form is cleared. */
  function SaveSucceeded(m: Creator): (r: Creator)
    requires m.pendingSaves > 0
    ensures r == ClearForm(m.(loading := false, pendingSaves := m.pendingSaves - 1))
    ensures Inv(r) && !r.loading && r.error.None?
  {
    ClearForm(m.(loading := false, pendingSaves := m.pendingSaves - 1))
  }

  /** The create failed: the form is kept and the cause shown, or a fallback when there is none. */
  function SaveFailed(m: Creator, message: string): (r: Creator)
    requires m.pendingSaves > 0
    ensures r.error.Some? && StartsWith(r.error.value, CreateFailedPrefix)
    ensures message != "" ==> r.error.value[|CreateFailedPrefix|..] == message
    ensures message == "" ==> r.error.value[|CreateFailedPrefix|..] == ServerErrorFallback
    ensures r.(error := m.error) == m.(loading := false, pendingSaves := m.pendingSaves - 1)
    ensures Inv(m) ==> Inv(r)
  {
    m.(loading := false, pendingSaves := m.pendingSaves - 1,
       error := Some(CreateFailedPrefix + (if message != "" then message else ServerErrorFallback)))
  }
}
