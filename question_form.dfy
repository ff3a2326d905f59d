/**
 * The value model of the question-authoring form: the question and answer
 * records the backend sends, the uploaded file's type and size check, the
 * field names of the multipart request, the serialisation of a form into an
 * ordered list of `(name, value)` entries, the validators and their messages,
 * and the list updates shared by both authoring components.
 */
module QuestionForm {
  import opened Js

  // ---------------------------------------------------------------------------
  // Records sent by the backend
  // ---------------------------------------------------------------------------

  datatype QAnswer = QAnswer(
    id: string,
    text: Option<string>,
    imageUrl: Option<string>,
    isCorrect: bool,
    correctDescription: Option<string>)

  datatype QQuestion = QQuestion(id: string, text: Option<string>, imageUrl: Option<string>, answers: seq<QAnswer>)

  // ---------------------------------------------------------------------------
  // Uploaded images
  // ---------------------------------------------------------------------------

  /** A chosen file: its name, its MIME type and its size in bytes. */
  datatype FileRef = FileRef(name: string, mimeType: string, size: int)

  const MaxImageBytes: int := 5 * 1024 * 1024
  const WrongTypeMessage: string := "Faqat JPEG yoki PNG rasmlar yuklanishi mumkin"
  const TooLargeMessage: string := "Fayl hajmi 5MB dan kichik bo\U{2018}lishi kerak"

  /** What an image handler of either form acts on: the question, or answer `index` (which the template may omit). */
  datatype ImageTarget = ForQuestion | ForAnswer(index: Option<nat>)

  datatype ImageCheck = Accepted | WrongType | TooLarge

  /** `file.type.match('image/jpeg|image/png')`: the type contains one of the two names anywhere. */
  predicate IsJpegOrPng(mimeType: string)
    ensures mimeType == "image/jpeg" || mimeType == "image/png" ==> IsJpegOrPng(mimeType)
    ensures mimeType == "" ==> !IsJpegOrPng(mimeType)
  {
    Contains(mimeType, "image/jpeg") || Contains(mimeType, "image/png")
  }

  /** The type test comes first, then the size limit. */
  function CheckImage(f: FileRef): (r: ImageCheck)
    ensures r == Accepted <==> IsJpegOrPng(f.mimeType) && f.size <= MaxImageBytes
    ensures r == WrongType <==> !IsJpegOrPng(f.mimeType)
  {
    if !IsJpegOrPng(f.mimeType) then WrongType
    else if f.size > MaxImageBytes then TooLarge
    else Accepted
  }

  /** The message an image that is not accepted leaves in `error`. */
  function RejectionMessage(r: ImageCheck): string
    requires r != Accepted
  {
    if r == WrongType then WrongTypeMessage else TooLargeMessage
  }

  lemma {:induction false} ShorterNeverContains(s: string, sub: string)
    requires |s| < |sub|
    ensures !Contains(s, sub)
  {
    if |s| > 0 {
      ShorterNeverContains(s[1..], sub);
    }
  }

  lemma ContainsItself(s: string)
    ensures Contains(s, s)
  {
    assert s[..|s|] == s;
  }

  /** Files of the two accepted types pass up to exactly 5 MiB and fail one byte above it. */
  lemma AcceptedImages(name: string, mimeType: string, size: int)
    requires mimeType == "image/jpeg" || mimeType == "image/png"
    ensures CheckImage(FileRef(name, mimeType, size)) == (if size <= 5242880 then Accepted else TooLarge)
  {
    ContainsItself(mimeType);
  }

  /** A GIF is refused for its type, whatever its size. */
  lemma GifRefused(name: string, size: int)
    ensures CheckImage(FileRef(name, "image/gif", size)) == WrongType
  {
    var t := "image/gif";
    ShorterNeverContains(t, "image/jpeg");
    assert t[..9][6] != "image/png"[6];
    ShorterNeverContains(t[1..], "image/png");
  }

  // ---------------------------------------------------------------------------
  // Field names of the multipart request
  // ---------------------------------------------------------------------------

  datatype AnswerField = TextField | ImageField | ImageUrlField | IsCorrectField | CorrectDescriptionField

  /** A named part of the request: the question's text or image, or a field of answer `index`. */
  datatype Key = QuestionText | QuestionImage | AnswerKey(index: nat, field: AnswerField)

  function FieldName(f: AnswerField): string
  {
    match f
    case TextField => "Text"
    case ImageField => "Image"
    case ImageUrlField => "ImageUrl"
    case IsCorrectField => "IsCorrect"
    case CorrectDescriptionField => "CorrectDescription"
  }

  /** The part's name: `Text`, `Image`, or `Answers[i].Field` with `i` in decimal. */
  function KeyName(k: Key): (name: string)
    ensures k.AnswerKey? ==> StartsWith(name, "Answers[")
  {
    match k
    case QuestionText => "Text"
    case QuestionImage => "Image"
    case AnswerKey(i, f) => "Answers[" + (NatToString(i) + ("]." + FieldName(f)))
  }

  function ParseField(s: string): Option<AnswerField>
  {
    if s == "Text" then Some(TextField)
    else if s == "Image" then Some(ImageField)
    else if s == "ImageUrl" then Some(ImageUrlField)
    else if s == "IsCorrect" then Some(IsCorrectField)
    else if s == "CorrectDescription" then Some(CorrectDescriptionField)
    else None
  }

  /** Reads a part name back into the key it names. */
  function ParseKey(s: string): Option<Key>
  {
    if s == "Text" then Some(QuestionText)
    else if s == "Image" then Some(QuestionImage)
    else if StartsWith(s, "Answers[") then ParseAnswerPart(s[8..])
    else None
  }

  lemma ParseFieldName(f: AnswerField)
    ensures ParseField(FieldName(f)) == Some(f)
  {
    match f
    case TextField =>
    case ImageField =>
      assert "Image" != "Text";
    case ImageUrlField =>
      assert |"ImageUrl"| != |"Text"| && |"ImageUrl"| != |"Image"|;
    case IsCorrectField =>
      assert |"IsCorrect"| != |"Text"| && |"IsCorrect"| != |"Image"| && |"IsCorrect"| != |"ImageUrl"|;
    case CorrectDescriptionField =>
      assert |"CorrectDescription"| == 18;
  }

  /** Reading `Answers[` followed by `rest`: the digits, then `].`, then a field name. */
  function ParseAnswerPart(rest: string): Option<Key>
  {
    var n := LeadingDigits(rest);
    if 0 < n && StartsWith(rest[n..], "].") then
      match ParseField(rest[n..][2..])
      case Some(f) => Some(AnswerKey(ParseDecimal(rest[..n]), f))
      case None => None
    else None
  }

  /** Digits, then `].`, then a text: the digits give the index and the text the field. */
  lemma ParseDigitsThenField(d: string, fs: string)
    requires 0 < |d| && AllDigits(d)
    ensures ParseAnswerPart(d + ("]." + fs))
            == if ParseField(fs).Some? then Some(AnswerKey(ParseDecimal(d), ParseField(fs).value)) else None
  {
    var t := "]." + fs;
    LeadingDigitsOfDigits(d, t);
    PrefixThenRest(d, t);
    PrefixThenRest("].", fs);
  }

  lemma ParseAnswerPartName(i: nat, f: AnswerField)
    ensures ParseAnswerPart(NatToString(i) + ("]." + FieldName(f))) == Some(AnswerKey(i, f))
  {
    ParseDigitsThenField(NatToString(i), FieldName(f));
    ParseNatToString(i);
    ParseFieldName(f);
  }

  lemma PrefixThenRest(p: string, rest: string)
    ensures StartsWith(p + rest, p) && (p + rest)[|p|..] == rest
  {
    assert (p + rest)[..|p|] == p;
  }

  lemma ParseAnswerKey(i: nat, f: AnswerField)
    ensures ParseKey(KeyName(AnswerKey(i, f))) == Some(AnswerKey(i, f))
  {
    var rest := NatToString(i) + ("]." + FieldName(f));
    PrefixThenRest("Answers[", rest);
    ParseAnswerPartName(i, f);
  }

  /** Every part name reads back as the key it was made from. */
  lemma ParseKeyName(k: Key)
    ensures ParseKey(KeyName(k)) == Some(k)
  {
    if k.AnswerKey? {
      ParseAnswerKey(k.index, k.field);
    }
  }

  /** Different keys have different names, so a name identifies one part. */
  lemma KeyNameInjective(k1: Key, k2: Key)
    requires KeyName(k1) == KeyName(k2)
    ensures k1 == k2
  {
    ParseKeyName(k1);
    ParseKeyName(k2);
  }

  // ---------------------------------------------------------------------------
  // Entries and lookup
  // ---------------------------------------------------------------------------

  /** A part's value: a string, or an uploaded file. */
  datatype Value = Str(s: string) | Blob(file: FileRef)

  datatype Entry = Entry(key: Key, value: Value)

  function Name(e: Entry): string
  {
    KeyName(e.key)
  }

  /** `FormData.get(name)`: the value of the first entry with that name. */
  function Get(entries: seq<Entry>, name: string): (r: Option<Value>)
    ensures r.Some? ==> exists j :: 0 <= j < |entries| && entries[j] == Entry(entries[j].key, r.value)
  {
    if |entries| == 0 then None
    else if Name(entries[0]) == name then Some(entries[0].value)
    else
      var r := Get(entries[1..], name);
      assert r.Some? ==> exists j :: 0 <= j < |entries[1..]| && entries[1..][j] == Entry(entries[1..][j].key, r.value);
      assert forall j :: 0 <= j < |entries[1..]| ==> entries[1..][j] == entries[j + 1];
      r
  }

  /** Looking up in a concatenation finds the first part's entry if it has one. */
  lemma {:induction false} GetAppend(xs: seq<Entry>, ys: seq<Entry>, name: string)
    ensures Get(xs + ys, name) == if Get(xs, name).Some? then Get(xs, name) else Get(ys, name)
  {
    if |xs| == 0 {
      assert xs + ys == ys;
    } else {
      assert (xs + ys)[0] == xs[0];
      assert (xs + ys)[1..] == xs[1..] + ys;
      GetAppend(xs[1..], ys, name);
    }
  }

  lemma GetSingle(e: Entry, k: Key)
    ensures Get([e], KeyName(k)) == if e.key == k then Some(e.value) else None
  {
    if Name(e) == KeyName(k) {
      KeyNameInjective(e.key, k);
    }
    assert [e][1..] == [];
  }

  /** Position of a key in the request: the question's parts first, then answer by answer, field by field. */
  function FieldRank(f: AnswerField): (r: nat)
    ensures r < 5
  {
    match f
    case TextField => 0
    case ImageField => 1
    case ImageUrlField => 2
    case IsCorrectField => 3
    case CorrectDescriptionField => 4
  }

  function Rank(k: Key): nat
  {
    match k
    case QuestionText => 0
    case QuestionImage => 1
    case AnswerKey(i, f) => 2 + 5 * i + FieldRank(f)
  }

  /** The entries' keys strictly increase in rank: the order is fixed and no name repeats. */
  predicate Ordered(s: seq<Entry>)
  {
    forall j, k :: 0 <= j < k < |s| ==> Rank(s[j].key) < Rank(s[k].key)
  }

  predicate RanksWithin(s: seq<Entry>, lo: int, hi: int)
  {
    forall j :: 0 <= j < |s| ==> lo <= Rank(s[j].key) < hi
  }

  lemma OrderedAppend(xs: seq<Entry>, ys: seq<Entry>, lo: int, mid: int, hi: int)
    requires Ordered(xs) && Ordered(ys) && RanksWithin(xs, lo, mid) && RanksWithin(ys, mid, hi)
    requires lo <= mid <= hi
    ensures Ordered(xs + ys) && RanksWithin(xs + ys, lo, hi)
  {
    var s := xs + ys;
    forall j | 0 <= j < |s| ensures lo <= Rank(s[j].key) < hi {
      if j < |xs| {
        assert s[j] == xs[j];
      } else {
        assert s[j] == ys[j - |xs|];
      }
    }
    forall j, k | 0 <= j < k < |s| ensures Rank(s[j].key) < Rank(s[k].key) {
      if k < |xs| {
        assert s[j] == xs[j] && s[k] == xs[k];
      } else if j >= |xs| {
        assert s[j] == ys[j - |xs|] && s[k] == ys[k - |xs|];
      } else {
        assert s[j] == xs[j] && s[k] == ys[k - |xs|];
      }
    }
  }

  /** Ordered entries never repeat a name. */
  lemma OrderedNamesDistinct(s: seq<Entry>)
    requires Ordered(s)
    ensures forall j, k :: 0 <= j < k < |s| ==> Name(s[j]) != Name(s[k])
  {
    forall j, k | 0 <= j < k < |s| ensures Name(s[j]) != Name(s[k]) {
      if Name(s[j]) == Name(s[k]) {
        KeyNameInjective(s[j].key, s[k].key);
        assert false;
      }
    }
  }

  // ---------------------------------------------------------------------------
  // The answer records of the management form and their serialisation
  // ---------------------------------------------------------------------------

  /**
   * One answer group of the form. An absent text is the empty string (every
   * use reads it as `text || ''` or through a truthiness test), and the same
   * holds for `imageUrl` and `correctDescription`.
   */
  datatype AnswerForm = AnswerForm(
    text: string,
    image: Option<FileRef>,
    imageUrl: string,
    isCorrect: bool,
    correctDescription: string)

  /** The value of a page's whole `questionForm` group: the question's text and image, and its answers. */
  datatype FormValue = FormValue(text: string, image: Option<FileRef>, answers: seq<AnswerForm>)

  /** `b.toString()` */
  function BoolString(b: bool): string
  {
    if b then "true" else "false"
  }

  /** `Text`, then `Image` when a file is chosen. */
  function Header(text: string, image: Option<FileRef>): (s: seq<Entry>)
    ensures |s| > 0 && s[0] == Entry(QuestionText, Str(text))
  {
    [Entry(QuestionText, Str(text))] + (if image.Some? then [Entry(QuestionImage, Blob(image.value))] else [])
  }

  /** An uploaded file wins over a kept image address; with neither, nothing is sent. */
  function ImagePart(i: nat, a: AnswerForm): seq<Entry>
  {
    if a.image.Some? then [Entry(AnswerKey(i, ImageField), Blob(a.image.value))]
    else if a.imageUrl != "" then [Entry(AnswerKey(i, ImageUrlField), Str(a.imageUrl))]
    else []
  }

  /** The description travels only with a correct answer that has one. */
  function DescriptionPart(i: nat, a: AnswerForm): seq<Entry>
  {
    if a.isCorrect && a.correctDescription != "" then
      [Entry(AnswerKey(i, CorrectDescriptionField), Str(a.correctDescription))]
    else []
  }

  /** The entries of answer `i`. */
  function Block(i: nat, a: AnswerForm): seq<Entry>
  {
    [Entry(AnswerKey(i, TextField), Str(a.text))] + ImagePart(i, a)
      + [Entry(AnswerKey(i, IsCorrectField), Str(BoolString(a.isCorrect)))] + DescriptionPart(i, a)
  }

  /** The entries of all answers, answer by answer in list order. */
  function AnswerEntries(answers: seq<AnswerForm>): seq<Entry>
    decreases |answers|
  {
    if |answers| == 0 then []
    else AnswerEntries(answers[..|answers| - 1]) + Block(|answers| - 1, answers[|answers| - 1])
  }

  /** The whole request body of the management form. */
  function Serialize(text: string, image: Option<FileRef>, answers: seq<AnswerForm>): (r: seq<Entry>)
    ensures |r| > 0 && r[0] == Entry(QuestionText, Str(text))
  {
    Header(text, image) + AnswerEntries(answers)
  }

  /** One more answer appends its block to the request. */
  lemma SerializeSnoc(text: string, image: Option<FileRef>, answers: seq<AnswerForm>, i: nat)
    requires i < |answers|
    ensures Serialize(text, image, answers[..i + 1]) == Serialize(text, image, answers[..i]) + Block(i, answers[i])
  {
    assert answers[..i + 1][..i] == answers[..i];
    var h := Header(text, image);
    var done := AnswerEntries(answers[..i]);
    assert AnswerEntries(answers[..i + 1]) == done + Block(i, answers[i]);
    assert h + (done + Block(i, answers[i])) == (h + done) + Block(i, answers[i]);
  }

  /** The `forEach` of either form's `onSubmit`: each answer's entries are appended after the question's. */
  method SerializeForm(text: string, image: Option<FileRef>, answers: seq<AnswerForm>) returns (entries: seq<Entry>)
    ensures entries == Serialize(text, image, answers)
  {
    entries := Header(text, image);
    assert answers[..0] == [];
    var i := 0;
    while i < |answers|
      invariant 0 <= i <= |answers|
      invariant entries == Serialize(text, image, answers[..i])
    {
      SerializeSnoc(text, image, answers, i);
      entries := entries + Block(i, answers[i]);
      i := i + 1;
    }
    assert answers[..i] == answers;
  }

  /** What field `f` of an answer is sent as, field by field. */
  function FieldValue(a: AnswerForm, f: AnswerField): Option<Value>
  {
    match f
    case TextField => Some(Str(a.text))
    case ImageField => if a.image.Some? then Some(Blob(a.image.value)) else None
    case ImageUrlField => if a.image.None? && a.imageUrl != "" then Some(Str(a.imageUrl)) else None
    case IsCorrectField => Some(Str(BoolString(a.isCorrect)))
    case CorrectDescriptionField =>
      if a.isCorrect && a.correctDescription != "" then Some(Str(a.correctDescription)) else None
  }

  /** What the request holds under each key. */
  function Expected(text: string, image: Option<FileRef>, answers: seq<AnswerForm>, k: Key): Option<Value>
  {
    match k
    case QuestionText => Some(Str(text))
    case QuestionImage => if image.Some? then Some(Blob(image.value)) else None
    case AnswerKey(i, f) => if i < |answers| then FieldValue(answers[i], f) else None
  }

  lemma ImagePartGet(i: nat, a: AnswerForm, k: Key)
    ensures Get(ImagePart(i, a), KeyName(k))
            == if k.AnswerKey? && k.index == i && (k.field == ImageField || k.field == ImageUrlField)
               then FieldValue(a, k.field) else None
  {
    var ip := ImagePart(i, a);
    if |ip| > 0 {
      GetSingle(ip[0], k);
    }
  }

  lemma DescriptionPartGet(i: nat, a: AnswerForm, k: Key)
    ensures Get(DescriptionPart(i, a), KeyName(k))
            == if k.AnswerKey? && k.index == i && k.field == CorrectDescriptionField then FieldValue(a, k.field) else None
  {
    var dp := DescriptionPart(i, a);
    if |dp| > 0 {
      GetSingle(dp[0], k);
    }
  }

  lemma BlockGet(i: nat, a: AnswerForm, k: Key)
    ensures Get(Block(i, a), KeyName(k)) == if k.AnswerKey? && k.index == i then FieldValue(a, k.field) else None
  {
    var t := [Entry(AnswerKey(i, TextField), Str(a.text))];
    var c := [Entry(AnswerKey(i, IsCorrectField), Str(BoolString(a.isCorrect)))];
    var ip := ImagePart(i, a);
    var dp := DescriptionPart(i, a);
    var n := KeyName(k);
    assert Block(i, a) == ((t + ip) + c) + dp;
    GetAppend((t + ip) + c, dp, n);
    GetAppend(t + ip, c, n);
    GetAppend(t, ip, n);
    GetSingle(t[0], k);
    GetSingle(c[0], k);
    ImagePartGet(i, a, k);
    DescriptionPartGet(i, a, k);
  }

  lemma {:induction false} AnswerEntriesGet(answers: seq<AnswerForm>, k: Key)
    ensures Get(AnswerEntries(answers), KeyName(k))
            == if k.AnswerKey? && k.index < |answers| then FieldValue(answers[k.index], k.field) else None
    decreases |answers|
  {
    if |answers| > 0 {
      var n := |answers| - 1;
      var prefix := answers[..n];
      AnswerEntriesGet(prefix, k);
      GetAppend(AnswerEntries(prefix), Block(n, answers[n]), KeyName(k));
      BlockGet(n, answers[n], k);
      if k.AnswerKey? && k.index < n {
        assert prefix[k.index] == answers[k.index];
      }
    }
  }

  /** Each key of the request carries exactly the value the form holds for it, and nothing else is sent. */
  lemma SerializeGet(text: string, image: Option<FileRef>, answers: seq<AnswerForm>, k: Key)
    ensures Get(Serialize(text, image, answers), KeyName(k)) == Expected(text, image, answers, k)
  {
    var h := [Entry(QuestionText, Str(text))];
    var im := if image.Some? then [Entry(QuestionImage, Blob(image.value))] else [];
    assert Serialize(text, image, answers) == (h + im) + AnswerEntries(answers);
    GetAppend(h + im, AnswerEntries(answers), KeyName(k));
    GetAppend(h, im, KeyName(k));
    GetSingle(h[0], k);
    if image.Some? {
      GetSingle(im[0], k);
    }
    AnswerEntriesGet(answers, k);
  }

  lemma BlockOrdered(i: nat, a: AnswerForm)
    ensures Ordered(Block(i, a)) && RanksWithin(Block(i, a), 2 + 5 * i, 2 + 5 * i + 5)
  {
  }

  lemma {:induction false} AnswerEntriesOrdered(answers: seq<AnswerForm>)
    ensures Ordered(AnswerEntries(answers)) && RanksWithin(AnswerEntries(answers), 2, 2 + 5 * |answers|)
    decreases |answers|
  {
    if |answers| > 0 {
      var n := |answers| - 1;
      AnswerEntriesOrdered(answers[..n]);
      BlockOrdered(n, answers[n]);
      OrderedAppend(AnswerEntries(answers[..n]), Block(n, answers[n]), 2, 2 + 5 * n, 2 + 5 * |answers|);
    }
  }

  /**
   * The request starts with `Text`, lists the question's parts before the
   * answers' and the answers in order, and never repeats a part name.
   */
  lemma SerializeOrdered(text: string, image: Option<FileRef>, answers: seq<AnswerForm>)
    ensures var s := Serialize(text, image, answers);
      Ordered(s) && s[0] == Entry(QuestionText, Str(text))
      && forall j, k :: 0 <= j < k < |s| ==> Name(s[j]) != Name(s[k])
  {
    AnswerEntriesOrdered(answers);
    OrderedAppend(Header(text, image), AnswerEntries(answers), 0, 2, 2 + 5 * |answers|);
    OrderedNamesDistinct(Serialize(text, image, answers));
  }

  // ---------------------------------------------------------------------------
  // Validators
  // ---------------------------------------------------------------------------

  const MinAnswers: nat := 2
  const MaxAnswers: nat := 6

  /** `(text && text.trim()) || image` for the question. */
  predicate QuestionFilled(text: string, image: Option<FileRef>)
  {
    IsFilled(text) || image.Some?
  }

  /** An answer needs a non-blank text, an uploaded image or a kept image address. */
  predicate AnswerFilled(a: AnswerForm)
  {
    IsFilled(a.text) || a.image.Some? || a.imageUrl != ""
  }

  /** The question's rule is the source's `(text && text.trim()) || image`. */
  lemma QuestionFilledIsTrimTest(text: string, image: Option<FileRef>)
    ensures QuestionFilled(text, image) <==> Trim(text) != "" || image.Some?
  {
    FilledIffTrimmed(text);
  }

  /** An answer's rule is `(text && text.trim()) || image || imageUrl`. */
  lemma AnswerFilledIsTrimTest(a: AnswerForm)
    ensures AnswerFilled(a) <==> Trim(a.text) != "" || a.image.Some? || a.imageUrl != ""
  {
    FilledIffTrimmed(a.text);
  }

  predicate SomeCorrect(answers: seq<AnswerForm>)
  {
    exists i :: 0 <= i < |answers| && answers[i].isCorrect
  }

  predicate AllFilled(answers: seq<AnswerForm>)
  {
    forall i :: 0 <= i < |answers| ==> AnswerFilled(answers[i])
  }

  /**
   * The form is valid when no validator reports an error: the question's own,
   * the list's (`required`, at least two, one correct) and every answer's.
   */
  predicate FormValid(text: string, image: Option<FileRef>, answers: seq<AnswerForm>)
    ensures FormValid(text, image, answers) <==>
      QuestionFilled(text, image) && |answers| >= MinAnswers && SomeCorrect(answers) && AllFilled(answers)
  {
    QuestionFilled(text, image) && |answers| > 0 && |answers| >= MinAnswers
    && SomeCorrect(answers) && AllFilled(answers)
  }

  const QuestionEmptyMessage: string := "Savolda matn yoki rasm bo\U{2018}lishi shart"
  const TooFewAnswersMessage: string := "Kamida 2 ta javob bo\U{2018}lishi kerak"
  const NoCorrectMessage: string := "Kamida bitta to\U{2018}g\U{2018}ri javob tanlanishi kerak"
  const AnswerEmptyMessage: string := "Har bir javobda matn yoki rasm bo\U{2018}lishi shart"
  const GenericFormMessage: string := "Forma to\U{2018}ldirishda xatolik yuz berdi"
  const MaxAnswersMessage: string := "Maksimal 6 ta javob qo\U{2018}shish mumkin"

  /** `getFormValidationErrors`: the message of the first failing rule. */
  function ValidationMessage(text: string, image: Option<FileRef>, answers: seq<AnswerForm>): (m: string)
    ensures m in {QuestionEmptyMessage, TooFewAnswersMessage, NoCorrectMessage, AnswerEmptyMessage, GenericFormMessage}
  {
    if !QuestionFilled(text, image) then QuestionEmptyMessage
    else if |answers| < MinAnswers then TooFewAnswersMessage
    else if !SomeCorrect(answers) then NoCorrectMessage
    else if !AllFilled(answers) then AnswerEmptyMessage
    else GenericFormMessage
  }

  /**
   * The rules are reported in the order question, count, correct answer,
   * answers: each message appears exactly when its rule is the first to fail.
   * The generic message is left only for a valid form, so an invalid form
   * always gets a specific one.
   */
  lemma ValidationMessagePriority(text: string, image: Option<FileRef>, answers: seq<AnswerForm>)
    ensures var m := ValidationMessage(text, image, answers);
      (m == QuestionEmptyMessage <==> !QuestionFilled(text, image))
      && (m == TooFewAnswersMessage <==> QuestionFilled(text, image) && |answers| < MinAnswers)
      && (m == NoCorrectMessage <==>
            QuestionFilled(text, image) && |answers| >= MinAnswers && !SomeCorrect(answers))
      && (m == AnswerEmptyMessage <==>
            QuestionFilled(text, image) && |answers| >= MinAnswers && SomeCorrect(answers) && !AllFilled(answers))
      && (m == GenericFormMessage <==> FormValid(text, image, answers))
  {
  }

  // ---------------------------------------------------------------------------
  // List updates
  // ---------------------------------------------------------------------------

  /** `splice(i, 1)` for `0 <= i`: removes position `i`, or nothing when `i` is past the end. */
  function RemoveAt<T>(s: seq<T>, i: nat): (r: seq<T>)
    ensures |r| == if i < |s| then |s| - 1 else |s|
    ensures forall j :: 0 <= j < |r| ==> r[j] == (if j < i then s[j] else s[j + 1])
  {
    if i < |s| then s[..i] + s[i + 1..] else s
  }

  /** One answer under `setCorrectAnswer`: chosen or not, and a description only if chosen. */
  function Mark(a: AnswerForm, chosen: bool): AnswerForm
  {
    a.(isCorrect := chosen, correctDescription := if chosen then a.correctDescription else "")
  }

  /** `setCorrectAnswer(k)` on the whole list. */
  function MarkCorrect(answers: seq<AnswerForm>, k: int): (r: seq<AnswerForm>)
    ensures |r| == |answers|
  {
    seq(|answers|, i requires 0 <= i < |answers| => Mark(answers[i], i == k))
  }

  /**
   * After marking answer `k`, it is the one correct answer and keeps its
   * description, every other answer's description is empty, and texts and
   * images are untouched; with `k` out of range no answer is correct.
   */
  lemma MarkCorrectExactlyOne(answers: seq<AnswerForm>, k: int)
    ensures var r := MarkCorrect(answers, k);
      (0 <= k < |answers| ==> SomeCorrect(r) && r[k].correctDescription == answers[k].correctDescription)
      && (forall i :: 0 <= i < |r| && r[i].isCorrect ==> i == k)
      && (forall i :: 0 <= i < |r| && i != k ==> r[i].correctDescription == "")
      && (forall i :: 0 <= i < |r| ==>
            r[i].text == answers[i].text && r[i].image == answers[i].image && r[i].imageUrl == answers[i].imageUrl)
      && (!(0 <= k < |answers|) ==> !SomeCorrect(r))
  {
    var r := MarkCorrect(answers, k);
    if 0 <= k < |answers| {
      assert r[k].isCorrect;
    }
  }

  /** Marking does not change which answers are filled in, so it never makes the answers invalid. */
  lemma MarkCorrectKeepsFilled(answers: seq<AnswerForm>, k: int)
    ensures AllFilled(MarkCorrect(answers, k)) <==> AllFilled(answers)
  {
    var r := MarkCorrect(answers, k);
    if AllFilled(answers) {
      forall i | 0 <= i < |r| ensures AnswerFilled(r[i]) {
        assert AnswerFilled(answers[i]);
      }
    }
    if AllFilled(r) {
      forall i | 0 <= i < |answers| ensures AnswerFilled(answers[i]) {
        assert AnswerFilled(r[i]);
      }
    }
  }

  /** Marking the same answer twice is marking it once. */
  lemma MarkCorrectIdempotent(answers: seq<AnswerForm>, k: int)
    ensures MarkCorrect(MarkCorrect(answers, k), k) == MarkCorrect(answers, k)
  {
  }

  /** After marking an answer of a form whose other rules hold, the form is valid. */
  lemma MarkCorrectMakesValid(text: string, image: Option<FileRef>, answers: seq<AnswerForm>, k: int)
    requires QuestionFilled(text, image) && |answers| >= MinAnswers && AllFilled(answers)
    requires 0 <= k < |answers|
    ensures FormValid(text, image, MarkCorrect(answers, k))
  {
    MarkCorrectExactlyOne(answers, k);
    MarkCorrectKeepsFilled(answers, k);
  }

  /** An answer group as `createAnswer(answer)` fills it from a backend record. */
  function AnswerFromRecord(a: QAnswer): (f: AnswerForm)
    ensures f.image.None?
    ensures f.text == OrEmpty(a.text) && f.imageUrl == OrEmpty(a.imageUrl)
  {
    AnswerForm(OrEmpty(a.text), None, OrEmpty(a.imageUrl), a.isCorrect, OrEmpty(a.correctDescription))
  }

  /** A blank answer group, as `createAnswer()` builds it with no record. */
  const BlankAnswer: AnswerForm := AnswerForm("", None, "", false, "")
}
