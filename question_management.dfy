/**
 * The question-management page an administrator uses: a paginated list of
 * questions and one form to create a question or edit an existing one. The
 * form holds the question's text and image and a list of up to six answer
 * groups with a parallel list of image previews.
 *
 * `Manager` is the component's state; each handler is a function of the old
 * state (`AddAnswer`, `RemoveAnswer`, ...), and the class
 * `ManagementQuestionComponent` performs the same updates in place, with
 * loops where the component iterates.
 */
module QuestionManagement {
  import opened Js
  import opened QuestionForm

  const PageSize: int := 50

  /** An image preview: the address of an image the backend already has, or a file chosen locally. */
  datatype Preview = RemoteImage(url: string) | LocalFile(file: FileRef)

  /** A request to save the form: create a new question, or update the one being edited. */
  datatype SaveRequest = Create(entries: seq<Entry>) | Update(id: string, entries: seq<Entry>)

  datatype Manager = Manager(
    questions: seq<QQuestion>,
    totalQuestions: int,
    currentPage: int,
    loading: bool,
    error: Option<string>,
    editingQuestionId: Option<string>,
    text: string,
    image: Option<FileRef>,
    answers: seq<AnswerForm>,
    questionImagePreview: Option<Preview>,
    answerImagePreviews: seq<Option<Preview>>,
    selectedImage: Option<Preview>,
    pendingLoads: nat,
    pendingSaves: nat,
    pageRequests: seq<int>,
    saveRequests: seq<SaveRequest>)

  /** At most six answers, one preview per answer, and a page number of at least 1. */
  predicate Inv(m: Manager)
  {
    |m.answers| <= MaxAnswers && |m.answerImagePreviews| == |m.answers| && m.currentPage >= 1
  }

  function Init(): (m: Manager)
    ensures Inv(m) && m.answers == [] && m.currentPage == 1
  {
    Manager([], 0, 1, false, None, None, "", None, [], None, [], None, 0, 0, [], [])
  }

  // ---------------------------------------------------------------------------
  // Pagination
  // ---------------------------------------------------------------------------

  /** `Math.ceil(total / 50)`: the least number of whole pages of 50 that hold `total` questions. */
  function TotalPages(total: int): (pages: int)
    ensures (pages - 1) * PageSize < total <= pages * PageSize
  {
    -((-total) / PageSize)
  }

  /** `loadQuestions`: asks the backend for the current page. */
  function LoadQuestions(m: Manager): (r: Manager)
    ensures r.loading && r.error.None? && r.pageRequests == m.pageRequests + [m.currentPage]
    ensures r.pendingLoads == m.pendingLoads + 1
    ensures Inv(m) ==> Inv(r)
  {
    m.(loading := true, error := None, pendingLoads := m.pendingLoads + 1,
       pageRequests := m.pageRequests + [m.currentPage])
  }

  function LoadSucceeded(m: Manager, questions: seq<QQuestion>, total: int): (r: Manager)
    requires m.pendingLoads > 0
    ensures r.questions == questions && r.totalQuestions == total && !r.loading
    ensures Inv(m) ==> Inv(r)
  {
    m.(questions := questions, totalQuestions := total, loading := false, pendingLoads := m.pendingLoads - 1)
  }

  function LoadFailed(m: Manager, message: string): (r: Manager)
    requires m.pendingLoads > 0
    ensures r.error == Some(message) && !r.loading && r.questions == m.questions
    ensures Inv(m) ==> Inv(r)
  {
    m.(error := Some(message), loading := false, pendingLoads := m.pendingLoads - 1)
  }

  /** `changePage(p)`: moves to page `p` and loads it when it exists; otherwise does nothing. */
  function ChangePage(m: Manager, page: int): (r: Manager)
    ensures 1 <= page <= TotalPages(m.totalQuestions) ==>
      r == LoadQuestions(m.(currentPage := page))
    ensures !(1 <= page <= TotalPages(m.totalQuestions)) ==> r == m
    ensures Inv(m) ==> Inv(r)
  {
    if page >= 1 && page <= TotalPages(m.totalQuestions) then LoadQuestions(m.(currentPage := page)) else m
  }

  /**
   * Only an existing page is ever shown: as long as a page holds at least one
   * question, moving never goes past the page that holds the last one.
   */
  lemma ChangePageStaysInRange(m: Manager, page: int)
    requires Inv(m) && m.currentPage <= TotalPages(m.totalQuestions)
    ensures 1 <= ChangePage(m, page).currentPage <= TotalPages(m.totalQuestions)
    ensures (ChangePage(m, page).currentPage - 1) * PageSize < m.totalQuestions
  {
    var p := ChangePage(m, page).currentPage;
    assert (p - 1) * PageSize <= (TotalPages(m.totalQuestions) - 1) * PageSize;
  }

  // ---------------------------------------------------------------------------
  // The answer list
  // ---------------------------------------------------------------------------

  /** The preview `addAnswer(answer)` pushes: the record's image address when it has one. */
  function PreviewOf(a: Option<QAnswer>): Option<Preview>
  {
    if a.Some? && IsTruthy(a.value.imageUrl) then Some(RemoteImage(a.value.imageUrl.value)) else None
  }

  /** The answer group `createAnswer(answer)` builds. */
  function NewAnswer(a: Option<QAnswer>): AnswerForm
  {
    if a.Some? then AnswerFromRecord(a.value) else BlankAnswer
  }

  /** `addAnswer(answer)`: appends an answer and its preview while there are fewer than six. */
  function AddAnswer(m: Manager, a: Option<QAnswer>): (r: Manager)
    ensures |m.answers| < MaxAnswers ==>
      r == m.(answers := m.answers + [NewAnswer(a)], answerImagePreviews := m.answerImagePreviews + [PreviewOf(a)])
    ensures |m.answers| >= MaxAnswers ==> r == m.(error := Some(MaxAnswersMessage))
    ensures Inv(m) ==> Inv(r)
  {
    if |m.answers| < MaxAnswers then
      m.(answers := m.answers + [NewAnswer(a)], answerImagePreviews := m.answerImagePreviews + [PreviewOf(a)])
    else m.(error := Some(MaxAnswersMessage))
  }

  /** `removeAnswer(i)`: removes position `i` of both lists while there are more than two answers. */
  function RemoveAnswer(m: Manager, i: nat): (r: Manager)
    ensures |m.answers| > MinAnswers ==>
      r == m.(answers := RemoveAt(m.answers, i), answerImagePreviews := RemoveAt(m.answerImagePreviews, i))
    ensures |m.answers| <= MinAnswers ==> r == m.(error := Some(TooFewAnswersMessage))
    ensures Inv(m) ==> Inv(r)
  {
    if |m.answers| > MinAnswers then
      m.(answers := RemoveAt(m.answers, i), answerImagePreviews := RemoveAt(m.answerImagePreviews, i))
    else m.(error := Some(TooFewAnswersMessage))
  }

  /** A list that has at least two answers keeps at least two after a removal. */
  lemma RemoveKeepsTwo(m: Manager, i: nat)
    requires |m.answers| >= MinAnswers
    ensures |RemoveAnswer(m, i).answers| >= MinAnswers
    ensures |RemoveAnswer(m, i).answers| == |m.answers| - 1 <==> |m.answers| > MinAnswers && i < |m.answers|
  {
  }

  /** Adding a seventh answer changes neither list. */
  lemma AddNeverExceedsSix(m: Manager, a: Option<QAnswer>)
    requires Inv(m)
    ensures |AddAnswer(m, a).answers| == if |m.answers| < MaxAnswers then |m.answers| + 1 else MaxAnswers
  {
  }

  /** `answers.forEach(a => addAnswer(a))`, one record after another. */
  function AddAll(m: Manager, records: seq<QAnswer>): (r: Manager)
    ensures Inv(m) ==> Inv(r)
    decreases |records|
  {
    if |records| == 0 then m
    else AddAnswer(AddAll(m, records[..|records| - 1]), Some(records[|records| - 1]))
  }

  function Min(a: int, b: int): int
  {
    if a <= b then a else b
  }

  /**
   * Adding records one by one to the list keeps those that fit: the first
   * up to six, each with its preview, in order; any further record only sets
   * the maximum-answers error.
   */
  lemma {:induction false} AddAllKeepsFirst(m: Manager, records: seq<QAnswer>)
    requires m.answers == [] && m.answerImagePreviews == []
    ensures var r := AddAll(m, records);
      var n := Min(|records|, MaxAnswers);
      |r.answers| == n && |r.answerImagePreviews| == n
      && (forall i :: 0 <= i < n ==>
            r.answers[i] == AnswerFromRecord(records[i]) && r.answerImagePreviews[i] == PreviewOf(Some(records[i])))
    decreases |records|
  {
    if |records| > 0 {
      var k := |records| - 1;
      var prefix := records[..k];
      AddAllKeepsFirst(m, prefix);
      var p := AddAll(m, prefix);
      var r := AddAll(m, records);
      assert r == AddAnswer(p, Some(records[k]));
      if k < MaxAnswers {
        assert r.answers == p.answers + [AnswerFromRecord(records[k])];
        assert r.answerImagePreviews == p.answerImagePreviews + [PreviewOf(Some(records[k]))];
        forall i | 0 <= i < k + 1
          ensures r.answers[i] == AnswerFromRecord(records[i]) && r.answerImagePreviews[i] == PreviewOf(Some(records[i]))
        {
          if i < k {
            assert prefix[i] == records[i];
          }
        }
      } else {
        assert r.answers == p.answers && r.answerImagePreviews == p.answerImagePreviews;
        forall i | 0 <= i < MaxAnswers ensures prefix[i] == records[i] {
        }
      }
    }
  }

  /** Adding records changes nothing but the two lists and, once a seventh arrives, the error. */
  lemma {:induction false} AddAllFrame(m: Manager, records: seq<QAnswer>)
    requires m.answers == [] && m.answerImagePreviews == []
    ensures var r := AddAll(m, records);
      r.error == (if |records| > MaxAnswers then Some(MaxAnswersMessage) else m.error)
      && r == m.(answers := r.answers, answerImagePreviews := r.answerImagePreviews, error := r.error)
    decreases |records|
  {
    if |records| > 0 {
      var k := |records| - 1;
      AddAllFrame(m, records[..k]);
      AddAllKeepsFirst(m, records[..k]);
    }
  }

  /** The first half of `editQuestion(q)`: the stored text and image preview, and both lists emptied. */
  function ClearForEdit(m: Manager, q: QQuestion): (r: Manager)
    ensures r.answers == [] && r.answerImagePreviews == []
    ensures Inv(m) ==> Inv(r)
  {
    m.(editingQuestionId := Some(q.id), text := OrEmpty(q.text), image := None,
       questionImagePreview := if IsTruthy(q.imageUrl) then Some(RemoteImage(q.imageUrl.value)) else None,
       answerImagePreviews := [], answers := [])
  }

  /** `editQuestion(q)`: loads a stored question into the form. */
  function EditQuestion(m: Manager, q: QQuestion): (r: Manager)
    ensures Inv(m) ==> Inv(r)
  {
    AddAll(ClearForEdit(m, q), q.answers)
  }

  /**
   * Editing shows the stored text and the first six answers with their
   * previews, and marks the question as the one being edited; a question with
   * more than six answers is cut at six and leaves the error set.
   */
  lemma EditQuestionLoads(m: Manager, q: QQuestion)
    ensures var r := EditQuestion(m, q);
      var n := Min(|q.answers|, MaxAnswers);
      r.editingQuestionId == Some(q.id) && r.text == OrEmpty(q.text) && r.image.None?
      && |r.answers| == n && |r.answerImagePreviews| == n
      && (forall i :: 0 <= i < n ==> r.answers[i] == AnswerFromRecord(q.answers[i]))
      && (forall i :: 0 <= i < n ==> r.answerImagePreviews[i] == PreviewOf(Some(q.answers[i])))
      && r.questionImagePreview == (if IsTruthy(q.imageUrl) then Some(RemoteImage(q.imageUrl.value)) else None)
      && r.error == (if |q.answers| > MaxAnswers then Some(MaxAnswersMessage) else m.error)
  {
    AddAllKeepsFirst(ClearForEdit(m, q), q.answers);
    AddAllFrame(ClearForEdit(m, q), q.answers);
  }

  /** `cancelEdit`: empties the form and forgets the question being edited. */
  function CancelEdit(m: Manager): (r: Manager)
    ensures r.answers == [] && r.answerImagePreviews == [] && r.editingQuestionId.None?
    ensures r.error.None? && r.selectedImage.None? && r.text == "" && r.image.None?
    ensures Inv(m) ==> Inv(r)
  {
    m.(editingQuestionId := None, text := "", image := None, questionImagePreview := None,
       answerImagePreviews := [], answers := [], error := None, selectedImage := None)
  }

  /** After cancelling, the form is invalid until two answers are added again. */
  lemma CancelledFormInvalid(m: Manager)
    ensures var r := CancelEdit(m);
      !FormValid(r.text, r.image, r.answers)
      && ValidationMessage(r.text, r.image, r.answers) == QuestionEmptyMessage
  {
  }

  /** `setCorrectAnswer(k)` */
  function SetCorrectAnswer(m: Manager, k: int): (r: Manager)
    ensures r.answers == MarkCorrect(m.answers, k)
    ensures r.(answers := m.answers) == m
    ensures Inv(m) ==> Inv(r)
  {
    m.(answers := MarkCorrect(m.answers, k))
  }

  // ---------------------------------------------------------------------------
  // Images
  // ---------------------------------------------------------------------------

  /**
   * The answer an image handler names exists. For an index past the end,
   * `answers.at(index)` is `undefined` and the handler throws a `TypeError`
   * at its `patchValue`, before it changes anything this model keeps.
   */
  predicate TargetExists(m: Manager, target: ImageTarget)
  {
    target.ForAnswer? && target.index.Some? ==> target.index.value < |m.answers|
  }

  /**
   * `onImageChange`: with a file chosen, a wrong type or a file over 5 MiB
   * only sets the error; an accepted file becomes the question's image, or
   * the answer's image in place of its stored address, with a local preview.
   */
  function ImageChanged(m: Manager, file: Option<FileRef>, target: ImageTarget): (r: Manager)
    requires Inv(m)
    ensures file.None? ==> r == m
    ensures file.Some? && CheckImage(file.value) != Accepted ==>
      r == m.(error := Some(RejectionMessage(CheckImage(file.value))))
    ensures |r.answers| == |m.answers| && |r.answerImagePreviews| == |m.answerImagePreviews|
    ensures file.Some? && CheckImage(file.value) == Accepted && !TargetExists(m, target) ==> r == m
    ensures file.Some? && CheckImage(file.value) == Accepted && target.ForAnswer? && TargetExists(m, target)
            && target.index.Some? ==>
      var i := target.index.value;
      r.answers[i] == m.answers[i].(image := file, imageUrl := "")
      && r.answerImagePreviews[i] == Some(LocalFile(file.value))
    ensures Inv(r)
  {
    if file.None? then m
    else
      var check := CheckImage(file.value);
      if check != Accepted then m.(error := Some(RejectionMessage(check)))
      else
        match target
        case ForQuestion => m.(image := file, questionImagePreview := Some(LocalFile(file.value)))
        case ForAnswer(None) => m
        case ForAnswer(Some(i)) =>
          if i < |m.answers| then
            m.(answers := m.answers[i := m.answers[i].(image := file, imageUrl := "")],
               answerImagePreviews := m.answerImagePreviews[i := Some(LocalFile(file.value))])
          else m
  }

  /** An accepted image makes its answer filled in; a refused one leaves the form as it was. */
  lemma ImageFillsAnswer(m: Manager, f: FileRef, i: nat)
    requires Inv(m) && i < |m.answers|
    ensures var r := ImageChanged(m, Some(f), ForAnswer(Some(i)));
      (CheckImage(f) == Accepted ==> AnswerFilled(r.answers[i]) && FieldValue(r.answers[i], ImageUrlField).None?)
      && (CheckImage(f) != Accepted ==> r.answers == m.answers && r.error.Some?)
  {
  }

  /** `removeImage`: drops the image and the stored address, and the preview. */
  function ImageRemoved(m: Manager, target: ImageTarget): (r: Manager)
    requires Inv(m)
    ensures !TargetExists(m, target) ==> r == m
    ensures target.ForQuestion? ==> r.image.None? && r.questionImagePreview.None? && r.answers == m.answers
    ensures |r.answers| == |m.answers| && |r.answerImagePreviews| == |m.answerImagePreviews|
    ensures target.ForAnswer? && target.index.Some? && TargetExists(m, target) ==>
      var i := target.index.value;
      r.answers[i] == m.answers[i].(image := None, imageUrl := "") && r.answerImagePreviews[i].None?
    ensures Inv(r)
  {
    match target
    case ForQuestion => m.(image := None, questionImagePreview := None)
    case ForAnswer(None) => m
    case ForAnswer(Some(i)) =>
      if i < |m.answers| then
        m.(answers := m.answers[i := m.answers[i].(image := None, imageUrl := "")],
           answerImagePreviews := m.answerImagePreviews[i := None])
      else m
  }

  /** A removed image is no longer sent: the answer's entries carry neither `Image` nor `ImageUrl`. */
  lemma RemovedImageNotSent(m: Manager, i: nat)
    requires Inv(m) && i < |m.answers|
    ensures var r := ImageRemoved(m, ForAnswer(Some(i)));
      var s := Serialize(r.text, r.image, r.answers);
      Get(s, KeyName(AnswerKey(i, ImageField))).None? && Get(s, KeyName(AnswerKey(i, ImageUrlField))).None?
  {
    var r := ImageRemoved(m, ForAnswer(Some(i)));
    SerializeGet(r.text, r.image, r.answers, AnswerKey(i, ImageField));
    SerializeGet(r.text, r.image, r.answers, AnswerKey(i, ImageUrlField));
  }

  /** `openImage`: a present image (an address or a preview) becomes the one shown enlarged. */
  function OpenImage(m: Manager, image: Option<Preview>): (r: Manager)
    ensures image.Some? && image.value != RemoteImage("") ==> r.selectedImage == image
    ensures r.(selectedImage := m.selectedImage) == m
  {
    if image.Some? && image.value != RemoteImage("") then m.(selectedImage := image) else m
  }

  function CloseImage(m: Manager): (r: Manager)
    ensures r.selectedImage.None? && r.(selectedImage := m.selectedImage) == m
  {
    m.(selectedImage := None)
  }

  // ---------------------------------------------------------------------------
  // Saving
  // ---------------------------------------------------------------------------

  function FormValidOf(m: Manager): bool
  {
    FormValid(m.text, m.image, m.answers)
  }

  /** The request `onSubmit` sends: an update when a question is being edited, a creation otherwise. */
  function RequestFor(m: Manager): (req: SaveRequest)
    ensures req.entries == Serialize(m.text, m.image, m.answers)
    ensures req.Update? <==> IsTruthy(m.editingQuestionId)
    ensures req.Update? ==> req.id == m.editingQuestionId.value
  {
    var entries := Serialize(m.text, m.image, m.answers);
    if IsTruthy(m.editingQuestionId) then Update(m.editingQuestionId.value, entries) else Create(entries)
  }

  /** An invalid form is not sent; the first failing rule's message is shown. */
  function Rejected(m: Manager): Manager
  {
    m.(error := Some(ValidationMessage(m.text, m.image, m.answers)))
  }

  /** A valid form is sent. */
  function Sent(m: Manager, req: SaveRequest): Manager
  {
    m.(loading := true, pendingSaves := m.pendingSaves + 1, saveRequests := m.saveRequests + [req])
  }

  /** `onSubmit` */
  function Submit(m: Manager): (r: Manager)
    ensures Inv(m) ==> Inv(r)
  {
    if FormValidOf(m) then Sent(m, RequestFor(m)) else Rejected(m)
  }

  /**
   * A rejected form sends nothing and names a specific rule; an accepted one
   * sends exactly the form's values, each under its own name.
   */
  lemma SubmitSendsForm(m: Manager, k: Key)
    ensures !FormValidOf(m) ==>
      Submit(m).saveRequests == m.saveRequests
      && Submit(m).error == Some(ValidationMessage(m.text, m.image, m.answers))
      && Submit(m).error != Some(GenericFormMessage)
    ensures FormValidOf(m) ==>
      var sent := Submit(m).saveRequests[|m.saveRequests|];
      Get(sent.entries, KeyName(k)) == Expected(m.text, m.image, m.answers, k)
  {
    if FormValidOf(m) {
      SerializeGet(m.text, m.image, m.answers, k);
    } else {
      ValidationMessagePriority(m.text, m.image, m.answers);
    }
  }

  /** The save went through: the form is emptied and the list reloaded. */
  function SaveSucceeded(m: Manager): (r: Manager)
    requires m.pendingSaves > 0
    ensures r == LoadQuestions(CancelEdit(m.(loading := false, pendingSaves := m.pendingSaves - 1)))
    ensures r.answers == [] && r.editingQuestionId.None? && r.loading
    ensures Inv(m) ==> Inv(r)
  {
    LoadQuestions(CancelEdit(m.(loading := false, pendingSaves := m.pendingSaves - 1)))
  }

  /** The save failed: the form is kept and the message shown. */
  function SaveFailed(m: Manager, message: string): (r: Manager)
    requires m.pendingSaves > 0
    ensures r == m.(loading := false, error := Some(message), pendingSaves := m.pendingSaves - 1)
    ensures Inv(m) ==> Inv(r)
  {
    m.(loading := false, error := Some(message), pendingSaves := m.pendingSaves - 1)
  }
}
