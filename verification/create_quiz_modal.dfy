/**
  The custom-quiz form of components/lobby/components/CreateQuizModal.tsx:
  a title, a list of questions being edited, and the errors of the last
  validation. New question ids come from `Date.now()` and are parameters.
 */
module CreateQuizModal {
  import opened Basics
  import opened Text
  import opened LobbyTypes

  datatype Draft = Draft(title: string, questions: seq<CustomQuestion>, errors: map<string, string>)

  /** A question as the form creates it: no text, four empty options. */
  function BlankQuestion(id: string): CustomQuestion
  {
    CustomQuestion(id, "", ["", "", "", ""], "", Some(""))
  }

  /** The state on opening and after closing. */
  const InitialDraft: Draft := Draft("", [BlankQuestion("1")], map[])

  /** `addQuestion`: one blank question with the new id goes at the end;
      the existing questions are untouched. */
  function AddQuestion(questions: seq<CustomQuestion>, newId: string): (r: seq<CustomQuestion>)
    ensures |r| == |questions| + 1 && r[..|questions|] == questions
    ensures var q := r[|questions|];
            q.id == newId && q.question == "" && q.correctAnswer == "" && q.options == ["", "", "", ""]
  {
    questions + [BlankQuestion(newId)]
  }

  /** The test `removeQuestion` hands to `filter`. */
  function NotQuestion(id: string): (f: CustomQuestion -> bool)
    ensures forall q :: f(q) <==> q.id != id
  {
    (q: CustomQuestion) => q.id != id
  }

  predicate UniqueIds(questions: seq<CustomQuestion>)
  {
    forall i, j :: 0 <= i < j < |questions| ==> questions[i].id != questions[j].id
  }

  /** The questions that carry a given id. */
  function IsQuestion(id: string): (f: CustomQuestion -> bool)
    ensures forall q :: f(q) <==> q.id == id
  {
    (q: CustomQuestion) => q.id == id
  }

  /** `removeQuestion`: a single question is never removed; otherwise
      every question with that id goes and the rest stay, each as often as
      before and in their order (`Filter` distributes over concatenation,
      `FilterAppend`). */
  function RemoveQuestion(questions: seq<CustomQuestion>, id: string): (r: seq<CustomQuestion>)
    ensures |questions| <= 1 ==> r == questions
    ensures |questions| > 1 ==> forall q :: q in r <==> q in questions && q.id != id
    ensures |questions| > 1 ==> |r| == |questions| - CountWhere(IsQuestion(id), questions)
    ensures |questions| > 1 ==>
              forall q :: multiset(r)[q] == if q.id == id then 0 else multiset(questions)[q]
    ensures |questions| > 1 ==> r == Filter(NotQuestion(id), questions)
  {
    if |questions| > 1 then
      FilterCount(NotQuestion(id), questions);
      CountWhereComplement(NotQuestion(id), IsQuestion(id), questions);
      forall q ensures multiset(Filter(NotQuestion(id), questions))[q]
                         == if q.id == id then 0 else multiset(questions)[q] {
        FilterMultiset(NotQuestion(id), questions, q);
      }
      Filter(NotQuestion(id), questions)
    else questions
  }

  /** With distinct ids the form keeps at least one question: at most one
      question carries the removed id. */
  lemma RemoveKeepsOne(questions: seq<CustomQuestion>, id: string)
    requires UniqueIds(questions) && questions != []
    ensures |RemoveQuestion(questions, id)| >= 1
  {
    if |questions| > 1 {
      var gone := set i | 0 <= i < |questions| && questions[i].id == id;
      CountWhereIs(IsQuestion(id), questions, gone);
      if |gone| > 0 {
        HasMember(gone);
        var k :| k in gone;
        assert gone == {k};
      }
    }
  }

  /** Ids built from `Date.now()` can collide; then the guard does not
      protect the last question: both copies go at once. */
  lemma RemoveWithDuplicateIds()
    ensures RemoveQuestion([BlankQuestion("7"), BlankQuestion("7")], "7") == []
  {
    var r := RemoveQuestion([BlankQuestion("7"), BlankQuestion("7")], "7");
    assert BlankQuestion("7") !in r;
  }

  /** The text fields `updateQuestion` is called with. */
  datatype QuestionField = QuestionText | CorrectAnswerField | ExplanationField

  /** The current value of a text field; a missing explanation is `None`. */
  function FieldValue(q: CustomQuestion, f: QuestionField): Option<string>
  {
    match f
    case QuestionText => Some(q.question)
    case CorrectAnswerField => Some(q.correctAnswer)
    case ExplanationField => q.explanation
  }

  function SetField(q: CustomQuestion, f: QuestionField, value: string): CustomQuestion
  {
    match f
    case QuestionText => q.(question := value)
    case CorrectAnswerField => q.(correctAnswer := value)
    case ExplanationField => q.(explanation := Some(value))
  }

  /** `updateQuestion`: in each question with the id the named field takes
      the value and the other fields keep theirs; other questions stay. */
  function UpdateQuestion(questions: seq<CustomQuestion>, id: string, f: QuestionField, value: string)
    : (r: seq<CustomQuestion>)
    ensures |r| == |questions|
    ensures forall i :: 0 <= i < |r| && questions[i].id != id ==> r[i] == questions[i]
    ensures forall i :: 0 <= i < |r| && questions[i].id == id ==>
              && FieldValue(r[i], f) == Some(value)
              && r[i].id == questions[i].id && r[i].options == questions[i].options
              && (forall g :: g != f ==> FieldValue(r[i], g) == FieldValue(questions[i], g))
  {
    Map((q: CustomQuestion) => if q.id == id then SetField(q, f, value) else q, questions)
  }

  /** `q.options.map((opt, idx) => idx === optionIndex ? value : opt)`. */
  function ReplaceOption(options: seq<string>, optionIndex: int, value: string): (r: seq<string>)
    ensures |r| == |options|
    ensures forall j :: 0 <= j < |r| ==> r[j] == if j == optionIndex then value else options[j]
  {
    if 0 <= optionIndex < |options| then options[optionIndex := value] else options
  }

  /** `updateOption`: only the option at the index, in the questions with
      the id, changes; the number of options never does. */
  function UpdateOption(questions: seq<CustomQuestion>, id: string, optionIndex: int, value: string)
    : (r: seq<CustomQuestion>)
    ensures |r| == |questions|
    ensures forall i :: 0 <= i < |r| ==>
              r[i].(options := questions[i].options) == questions[i] && |r[i].options| == |questions[i].options|
    ensures forall i, j :: 0 <= i < |r| && 0 <= j < |r[i].options| ==>
              r[i].options[j] == if questions[i].id == id && j == optionIndex then value else questions[i].options[j]
  {
    Map((q: CustomQuestion) =>
          if q.id == id then q.(options := ReplaceOption(q.options, optionIndex, value)) else q,
        questions)
  }

  // ---------------------------------------------------------------------------
  // Validation and saving
  // ---------------------------------------------------------------------------

  /** An option counts as filled when it is not blank after trimming. */
  predicate IsFilled(option: string)
  {
    !IsBlank(option)
  }

  /** `filledOptions.length >= 2`. */
  predicate HasTwoOptions(q: CustomQuestion)
  {
    |Filter(IsFilled, q.options)| >= 2
  }

  /** The correct answer is not blank and equals one of the options as
      typed: it is not trimmed before the comparison. */
  predicate CorrectListed(q: CustomQuestion)
  {
    !IsBlank(q.correctAnswer) && q.correctAnswer in q.options
  }

  predicate QuestionValid(q: CustomQuestion)
  {
    !IsBlank(q.question) && HasTwoOptions(q) && CorrectListed(q)
  }

  /** Two filled options means two different positions are filled, even
      when the two options have the same text. */
  lemma TwoOptionsIff(q: CustomQuestion)
    ensures HasTwoOptions(q) <==>
              exists j1, j2 :: 0 <= j1 < j2 < |q.options| && IsFilled(q.options[j1]) && IsFilled(q.options[j2])
  {
    AtLeastTwoWhere(IsFilled, q.options);
  }

  /** The correct answer must match an option exactly: a stray space is
      enough to fail. */
  lemma CorrectAnswerNotTrimmed()
    ensures !CorrectListed(CustomQuestion("q", "Q?", ["a", "b"], " a", None))
  {
    assert " a" != "a" && " a" != "b";
  }

  /** A question as the form creates it never validates, so the initial
      form cannot be saved. */
  lemma BlankQuestionInvalid(id: string)
    ensures !QuestionValid(BlankQuestion(id))
  {
    assert IsBlank("");
  }

  /** The message under a failing question, numbered from one. */
  function Numbered(index: nat, rest: string): string
  {
    "Question " + NatToString(index + 1) + rest
  }

  /** Every check the question fails has its key among the errors. */
  predicate Flagged(errors: map<string, string>, q: CustomQuestion)
  {
    && (IsBlank(q.question) ==> "question_" + q.id in errors)
    && (!HasTwoOptions(q) ==> "options_" + q.id in errors)
    && (!CorrectListed(q) ==> "correct_" + q.id in errors)
  }

  /** `k` is the key of a check that `q` fails. */
  predicate FailingKey(k: string, q: CustomQuestion)
  {
    || (k == "question_" + q.id && IsBlank(q.question))
    || (k == "options_" + q.id && !HasTwoOptions(q))
    || (k == "correct_" + q.id && !CorrectListed(q))
  }

  lemma FlaggedKept(errors: map<string, string>, more: map<string, string>, q: CustomQuestion)
    requires Flagged(errors, q) && forall k :: k in errors ==> k in more
    ensures Flagged(more, q)
  {
  }

  /** The errors one question adds, under keys built from its id; the
      keys already flagged stay, and "title" is never touched. */
  function CheckQuestion(errors: map<string, string>, q: CustomQuestion, index: nat): (r: map<string, string>)
    ensures forall k :: k in errors ==> k in r
    ensures "title" in r <==> "title" in errors
    ensures "title" in errors ==> r["title"] == errors["title"]
    ensures |r| == 0 <==> |errors| == 0 && QuestionValid(q)
    ensures Flagged(r, q)
    ensures forall k :: k in r ==> k in errors || FailingKey(k, q)
  {
    var k1 := "question_" + q.id;
    var k2 := "options_" + q.id;
    var k3 := "correct_" + q.id;
    assert k1[0] == 'q' && k2[0] == 'o' && k3[0] == 'c';
    var e1 := if IsBlank(q.question) then errors[k1 := Numbered(index, " is required")] else errors;
    var e2 := if !HasTwoOptions(q) then e1[k2 := Numbered(index, " needs at least 2 options")] else e1;
    var e3 := if !CorrectListed(q) then e2[k3 := Numbered(index, " needs a valid correct answer")] else e2;
    assert !QuestionValid(q) ==> k1 in e3 || k2 in e3 || k3 in e3;
    e3
  }

  /** `validateQuiz`: "title" is flagged when the title is blank, and for
      each failing question its text, options and correct answer are
      flagged under keys built from its id; no other key is written, and
      the form is valid exactly when nothing is flagged. */
  method ValidateQuiz(title: string, questions: seq<CustomQuestion>) returns (ok: bool, errors: map<string, string>)
    ensures ok <==> !IsBlank(title) && forall i :: 0 <= i < |questions| ==> QuestionValid(questions[i])
    ensures ok <==> |errors| == 0
    ensures "title" in errors <==> IsBlank(title)
    ensures "title" in errors ==> errors["title"] == TitleRequired
    ensures forall i :: 0 <= i < |questions| ==> Flagged(errors, questions[i])
    ensures forall k :: k in errors ==> k == "title" || exists i :: 0 <= i < |questions| && FailingKey(k, questions[i])
  {
    errors := if IsBlank(title) then map["title" := TitleRequired] else map[];
    for i := 0 to |questions|
      invariant Reported(errors, title, questions, i)
    {
      ReportedStep(errors, title, questions, i);
      errors := CheckQuestion(errors, questions[i], i);
    }
    ReportedAll(errors, title, questions);
    ok := |errors| == 0;
  }

  lemma ReportedAll(errors: map<string, string>, title: string, questions: seq<CustomQuestion>)
    requires Reported(errors, title, questions, |questions|)
    ensures |errors| == 0 <==> !IsBlank(title) && forall i :: 0 <= i < |questions| ==> QuestionValid(questions[i])
    ensures "title" in errors <==> IsBlank(title)
    ensures "title" in errors ==> errors["title"] == TitleRequired
    ensures forall i :: 0 <= i < |questions| ==> Flagged(errors, questions[i])
    ensures forall k :: k in errors ==> k == "title" || exists i :: 0 <= i < |questions| && FailingKey(k, questions[i])
  {
  }

  const TitleRequired := "Quiz title is required"

  /** What the errors say after checking the title and the first `n`
      questions. */
  predicate Reported(errors: map<string, string>, title: string, questions: seq<CustomQuestion>, n: nat)
    requires n <= |questions|
  {
    && ("title" in errors <==> IsBlank(title))
    && ("title" in errors ==> errors["title"] == TitleRequired)
    && (|errors| == 0 <==> !IsBlank(title) && forall j :: 0 <= j < n ==> QuestionValid(questions[j]))
    && (forall j :: 0 <= j < n ==> Flagged(errors, questions[j]))
    && Explained(errors, questions, n)
  }

  /** Every key is "title" or the key of a check one of the first `n`
      questions fails. */
  predicate Explained(errors: map<string, string>, questions: seq<CustomQuestion>, n: nat)
    requires n <= |questions|
  {
    forall k :: k in errors ==> k == "title" || exists j :: 0 <= j < n && FailingKey(k, questions[j])
  }

  lemma ExplainedStep(errors: map<string, string>, questions: seq<CustomQuestion>, i: nat)
    requires i < |questions| && Explained(errors, questions, i)
    ensures Explained(CheckQuestion(errors, questions[i], i), questions, i + 1)
  {
    var next := CheckQuestion(errors, questions[i], i);
    forall k | k in next && k != "title"
      ensures exists j :: 0 <= j < i + 1 && FailingKey(k, questions[j])
    {
      if k in errors {
        var j :| 0 <= j < i && FailingKey(k, questions[j]);
      } else {
        assert FailingKey(k, questions[i]);
      }
    }
  }

  lemma ReportedStep(errors: map<string, string>, title: string, questions: seq<CustomQuestion>, i: nat)
    requires i < |questions| && Reported(errors, title, questions, i)
    ensures Reported(CheckQuestion(errors, questions[i], i), title, questions, i + 1)
  {
    var next := CheckQuestion(errors, questions[i], i);
    FlaggedStep(errors, next, questions, i);
    EmptyStep(errors, next, title, questions, i);
    ExplainedStep(errors, questions, i);
  }

  lemma EmptyStep(errors: map<string, string>, next: map<string, string>, title: string,
                  questions: seq<CustomQuestion>, i: nat)
    requires i < |questions|
    requires |errors| == 0 <==> !IsBlank(title) && forall j :: 0 <= j < i ==> QuestionValid(questions[j])
    requires |next| == 0 <==> |errors| == 0 && QuestionValid(questions[i])
    ensures |next| == 0 <==> !IsBlank(title) && forall j :: 0 <= j < i + 1 ==> QuestionValid(questions[j])
  {
    var before := forall j :: 0 <= j < i ==> QuestionValid(questions[j]);
    var after := forall j :: 0 <= j < i + 1 ==> QuestionValid(questions[j]);
    assert after <==> before && QuestionValid(questions[i]);
  }

  lemma FlaggedStep(errors: map<string, string>, next: map<string, string>, questions: seq<CustomQuestion>, i: nat)
    requires i < |questions| && forall j :: 0 <= j < i ==> Flagged(errors, questions[j])
    requires (forall k :: k in errors ==> k in next) && Flagged(next, questions[i])
    ensures forall j :: 0 <= j < i + 1 ==> Flagged(next, questions[j])
  {
    forall j | 0 <= j < i + 1
      ensures Flagged(next, questions[j])
    {
      if j < i {
        FlaggedKept(errors, next, questions[j]);
      }
    }
  }

  /** The test `handleSave` filters the saved questions with. */
  predicate HasText(q: CustomQuestion)
  {
    !IsBlank(q.question)
  }

  /** `handleSave`: on a valid form the title and the questions are saved
      (the filter on question text keeps them all) and the form is reset;
      otherwise nothing is saved and the form keeps its contents and shows
      the errors: "title" when the title is blank, the key of every check a
      question fails, and nothing else. */
  method HandleSave(d: Draft) returns (r: Draft, saved: Option<(string, seq<CustomQuestion>)>)
    ensures saved.Some? <==> !IsBlank(d.title) && forall i :: 0 <= i < |d.questions| ==> QuestionValid(d.questions[i])
    ensures saved.Some? ==> saved.value == (d.title, d.questions) && r == InitialDraft
    ensures saved.None? ==> r.title == d.title && r.questions == d.questions && |r.errors| > 0
    ensures saved.None? ==> ("title" in r.errors <==> IsBlank(d.title))
    ensures saved.None? ==> forall i :: 0 <= i < |d.questions| ==> Flagged(r.errors, d.questions[i])
    ensures saved.None? ==> forall k :: k in r.errors ==>
              k == "title" || exists i :: 0 <= i < |d.questions| && FailingKey(k, d.questions[i])
  {
    var ok, errors := ValidateQuiz(d.title, d.questions);
    if ok {
      FilterAll(HasText, d.questions);
      saved := Some((d.title, Filter(HasText, d.questions)));
      r := HandleClose(d.(errors := errors));
    } else {
      saved := None;
      r := d.(errors := errors);
    }
  }

  /** `handleClose`: an empty title, one blank question with id "1", no
      errors. */
  function HandleClose(d: Draft): (r: Draft)
    ensures r.title == "" && r.errors == map[] && |r.questions| == 1
    ensures r.questions[0].id == "1" && r.questions[0].options == ["", "", "", ""]
    ensures !QuestionValid(r.questions[0])
  {
    BlankQuestionInvalid("1");
    InitialDraft
  }
}
