/**
  The quiz-settings dialog of components/lobby/components/SettingsModal.tsx:
  a draft of the settings with per-field errors, the range check run on
  save, the numeric inputs with their fallbacks, and the duration preview.
 */
module SettingsModal {
  import opened Basics
  import opened Text
  import opened LobbyTypes

  /** The keys of `QuizSettings` a form input edits. */
  datatype Field = Topic | DifficultyField | QuestionCount | TimePerQuestion | AllowHints | ShowCorrectAnswers

  /** The dialog's state: the draft and the error shown under each field. */
  datatype Dialog = Dialog(draft: QuizSettings, errors: map<Field, string>)

  const QuestionCountError := "Question count must be between 5 and 50"
  const TimePerQuestionError := "Time per question must be between 10 and 300 seconds"

  predicate QuestionCountInRange(s: QuizSettings)
  {
    5 <= s.questionCount <= 50
  }

  predicate TimePerQuestionInRange(s: QuizSettings)
  {
    10 <= s.timePerQuestion <= 300
  }

  /** `validateSettings`: one error for each field out of range, and the
      settings pass exactly when there is none. */
  function ValidateSettings(s: QuizSettings): (r: (bool, map<Field, string>))
    ensures r.0 <==> QuestionCountInRange(s) && TimePerQuestionInRange(s)
    ensures r.0 <==> |r.1| == 0
    ensures QuestionCount in r.1 <==> !QuestionCountInRange(s)
    ensures TimePerQuestion in r.1 <==> !TimePerQuestionInRange(s)
    ensures forall f :: f in r.1 ==> f == QuestionCount || f == TimePerQuestion
    ensures QuestionCount in r.1 ==> r.1[QuestionCount] == QuestionCountError
    ensures TimePerQuestion in r.1 ==> r.1[TimePerQuestion] == TimePerQuestionError
  {
    var e1: map<Field, string> := if QuestionCountInRange(s) then map[] else map[QuestionCount := QuestionCountError];
    var e2 := if TimePerQuestionInRange(s) then e1 else e1[TimePerQuestion := TimePerQuestionError];
    assert QuestionCount in e2 || TimePerQuestion in e2 ==> |e2| > 0;
    (|e2| == 0, e2)
  }

  /** `handleSave`: the draft is handed to the caller only when it
      validates; the errors found replace the old ones either way. */
  function HandleSave(d: Dialog): (r: (Dialog, Option<QuizSettings>))
    ensures r.1.Some? <==> QuestionCountInRange(d.draft) && TimePerQuestionInRange(d.draft)
    ensures r.1.Some? ==> r.1.value == d.draft
    ensures r.0.draft == d.draft && r.0.errors == ValidateSettings(d.draft).1
  {
    var (ok, errors) := ValidateSettings(d.draft);
    (d.(errors := errors), if ok then Some(d.draft) else None)
  }

  /** An edit of one field, carrying the new value. */
  datatype Edit =
    | SetTopic(topic: string)
    | SetDifficulty(difficulty: Difficulty)
    | SetQuestionCount(count: int)
    | SetTimePerQuestion(seconds: int)
    | SetAllowHints(allow: bool)
    | SetShowCorrectAnswers(show: bool)

  function FieldOf(e: Edit): Field
  {
    match e
    case SetTopic(_) => Topic
    case SetDifficulty(_) => DifficultyField
    case SetQuestionCount(_) => QuestionCount
    case SetTimePerQuestion(_) => TimePerQuestion
    case SetAllowHints(_) => AllowHints
    case SetShowCorrectAnswers(_) => ShowCorrectAnswers
  }

  /** The value of a field in the draft, as the edit that would set it. */
  function ValueOf(s: QuizSettings, f: Field): (e: Edit)
    ensures FieldOf(e) == f
  {
    match f
    case Topic => SetTopic(s.topic)
    case DifficultyField => SetDifficulty(s.difficulty)
    case QuestionCount => SetQuestionCount(s.questionCount)
    case TimePerQuestion => SetTimePerQuestion(s.timePerQuestion)
    case AllowHints => SetAllowHints(s.allowHints)
    case ShowCorrectAnswers => SetShowCorrectAnswers(s.showCorrectAnswers)
  }

  function Apply(s: QuizSettings, e: Edit): QuizSettings
  {
    match e
    case SetTopic(t) => s.(topic := t)
    case SetDifficulty(d) => s.(difficulty := d)
    case SetQuestionCount(n) => s.(questionCount := n)
    case SetTimePerQuestion(t) => s.(timePerQuestion := t)
    case SetAllowHints(b) => s.(allowHints := b)
    case SetShowCorrectAnswers(b) => s.(showCorrectAnswers := b)
  }

  /** An error message is shown under a field when it is present and
      non-empty (truthy). */
  predicate Shows(errors: map<Field, string>, f: Field)
  {
    f in errors && errors[f] != ""
  }

  /** `handleInputChange`: the edited field takes the new value, every
      other field keeps its value, and only the edited field's error is
      cleared (a cleared error is `undefined`, shown as no error). */
  function HandleInputChange(d: Dialog, e: Edit): (r: Dialog)
    ensures ValueOf(r.draft, FieldOf(e)) == e
    ensures forall f :: f != FieldOf(e) ==> ValueOf(r.draft, f) == ValueOf(d.draft, f)
    ensures r.draft.isCustomQuiz == d.draft.isCustomQuiz && r.draft.customQuestions == d.draft.customQuestions
    ensures !Shows(r.errors, FieldOf(e))
    ensures forall f :: f != FieldOf(e) ==> (f in r.errors <==> f in d.errors)
    ensures forall f :: f != FieldOf(e) && f in d.errors ==> r.errors[f] == d.errors[f]
  {
    var f := FieldOf(e);
    var errors := if Shows(d.errors, f) then d.errors - {f} else d.errors;
    Dialog(Apply(d.draft, e), errors)
  }

  /** The dialog on (re)opening: the current settings and no errors. */
  function Open(current: QuizSettings): (r: Dialog)
    ensures r.draft == current && r.errors == map[]
  {
    Dialog(current, map[])
  }

  // ---------------------------------------------------------------------------
  // Numeric inputs
  // ---------------------------------------------------------------------------

  /** The end of the run of digits starting at `i`. */
  function DigitRunEnd(s: string, i: nat): (k: nat)
    requires i <= |s|
    ensures i <= k <= |s|
    ensures AllDigits(s[i..k])
    ensures k < |s| ==> !IsDigit(s[k])
    decreases |s| - i
  {
    if i < |s| && IsDigit(s[i]) then
      var k := DigitRunEnd(s, i + 1);
      assert s[i..k] == [s[i]] + s[i + 1..k];
      k
    else i
  }

  /** JavaScript's `parseInt(s)` in base ten: leading whitespace, an
      optional sign, then the longest run of digits; no digits gives NaN,
      here `None`. */
  function ParseInt(s: string): (r: Option<int>)
  {
    var a := SkipSpaces(s, 0);
    var signed := a < |s| && (s[a] == '-' || s[a] == '+');
    var b := if signed then a + 1 else a;
    var e := DigitRunEnd(s, b);
    if e == b then None
    else
      var v: int := DigitsValue(s[b..e]);
      Some(if signed && s[a] == '-' then -v else v)
  }

  /** A printed non-negative number parses back to itself. */
  lemma ParseIntRoundTrip(n: nat)
    ensures ParseInt(NatToString(n)) == Some(n)
  {
    var s := NatToString(n);
    assert SkipSpaces(s, 0) == 0;
    AllDigitsRun(s, 0);
    assert s[0..|s|] == s;
    NatToStringRoundTrip(n);
  }

  lemma {:induction false} AllDigitsRun(s: string, i: nat)
    requires i <= |s| && AllDigits(s)
    ensures DigitRunEnd(s, i) == |s|
    decreases |s| - i
  {
    if i < |s| {
      AllDigitsRun(s, i + 1);
    }
  }

  /** Text without any digit in front parses to NaN. */
  lemma ParseIntNoDigits(s: string)
    requires s == [] || (!IsSpace(s[0]) && !IsDigit(s[0]) && s[0] != '-' && s[0] != '+')
    ensures ParseInt(s) == None
  {
  }

  /** `parseInt(value) || fallback`: NaN and zero are falsy. */
  function NumberOr(text: string, fallback: int): (n: int)
    ensures ParseInt(text).Some? && ParseInt(text).value != 0 ==> n == ParseInt(text).value
    ensures ParseInt(text).None? || ParseInt(text).value == 0 ==> n == fallback
  {
    match ParseInt(text)
    case Some(v) => if v != 0 then v else fallback
    case None => fallback
  }

  /** The question-count input. */
  function QuestionCountInput(text: string): (e: Edit)
    ensures FieldOf(e) == QuestionCount
  {
    SetQuestionCount(NumberOr(text, 10))
  }

  /** The time-per-question input. */
  function TimePerQuestionInput(text: string): (e: Edit)
    ensures FieldOf(e) == TimePerQuestion
  {
    SetTimePerQuestion(NumberOr(text, 30))
  }

  /** Emptied or zeroed inputs fall back to 10 questions and 30 seconds;
      a printed positive number is taken as typed. */
  lemma NumericFallbacks(n: nat)
    ensures QuestionCountInput("") == SetQuestionCount(10)
    ensures TimePerQuestionInput("") == SetTimePerQuestion(30)
    ensures QuestionCountInput("0") == SetQuestionCount(10)
    ensures TimePerQuestionInput("0") == SetTimePerQuestion(30)
    ensures n > 0 ==> QuestionCountInput(NatToString(n)) == SetQuestionCount(n)
    ensures n > 0 ==> TimePerQuestionInput(NatToString(n)) == SetTimePerQuestion(n)
  {
    ParseIntRoundTrip(0);
    ParseIntRoundTrip(n);
  }

  /** The fallbacks themselves lie inside the accepted ranges. */
  lemma FallbacksInRange(s: QuizSettings)
    ensures QuestionCountInRange(Apply(s, QuestionCountInput("")))
    ensures TimePerQuestionInRange(Apply(s, TimePerQuestionInput("")))
  {
    NumericFallbacks(0);
  }

  // ---------------------------------------------------------------------------
  // Preview
  // ---------------------------------------------------------------------------

  /** `Math.ceil(questionCount * timePerQuestion / 60)`: whole minutes,
      rounded up. */
  function EstimatedMinutes(s: QuizSettings): (m: int)
    ensures 60 * (m - 1) < s.questionCount * s.timePerQuestion <= 60 * m
  {
    -((-(s.questionCount * s.timePerQuestion)) / 60)
  }

  /** Valid settings estimate between 1 and 250 minutes. */
  lemma EstimatedMinutesBounds(s: QuizSettings)
    requires QuestionCountInRange(s) && TimePerQuestionInRange(s)
    ensures 1 <= EstimatedMinutes(s) <= 250
  {
    var p := s.questionCount * s.timePerQuestion;
    assert 50 <= p <= 15000 by {
      assert s.questionCount * s.timePerQuestion >= 5 * s.timePerQuestion;
      assert s.questionCount * s.timePerQuestion <= 50 * s.timePerQuestion;
    }
  }
}
