/**
  The older app shell of components/quiz-app.tsx: its mock `login`, its
  multi-type scoring in `submitQuiz` and the checkbox toggle of its quiz
  page. Answers there are either one string or a list of strings.
 */
module LegacyApp {
  import opened Basics
  import opened Text

  datatype Answer = Single(s: string) | Multi(items: seq<string>)

  datatype Kind = Radio | Checkbox | FreeText | TrueFalse

  datatype Question = Question(id: string, kind: Kind, question: string, options: Option<seq<string>>,
                               correctAnswer: Answer)

  datatype Quiz = Quiz(id: string, title: string, description: string, duration: int,
                       questions: seq<Question>, category: string)

  datatype User = User(id: string, name: string, email: string, score: int, quizzesCompleted: int)

  datatype Attempt = Attempt(quizId: string, answers: map<string, Answer>, score: int, totalQuestions: int,
                             completedAt: int)

  datatype State = State(user: Option<User>, currentQuiz: Option<Quiz>, lastAttempt: Option<Attempt>)

  // ---------------------------------------------------------------------------
  // Mock login
  // ---------------------------------------------------------------------------

  /** `email.split("@")[0]`: everything before the first `@`, or the whole
      string when there is none. */
  function LocalPart(email: string): (name: string)
    ensures |name| <= |email| && name == email[..|name|]
    ensures '@' !in name
    ensures |name| < |email| ==> email[|name|] == '@'
  {
    if email == [] || email[0] == '@' then []
    else [email[0]] + LocalPart(email[1..])
  }

  /** The mock `login`: any credentials sign in as user "1" with fixed
      progress, named after the email's local part. */
  function Login(s: State, email: string, password: string): (r: State)
    ensures r.user == Some(User("1", LocalPart(email), email, 850, 12))
    ensures r.currentQuiz == s.currentQuiz && r.lastAttempt == s.lastAttempt
  {
    s.(user := Some(User("1", LocalPart(email), email, 850, 12)))
  }

  function Logout(s: State): (r: State)
    ensures r.user.None? && r.currentQuiz.None? && r.lastAttempt.None?
  {
    State(None, None, None)
  }

  // ---------------------------------------------------------------------------
  // Sorting string lists (`Array.prototype.sort` with the default order)
  // ---------------------------------------------------------------------------

  /** The default sort order: code units compared lexicographically, a
      proper prefix first. */
  predicate StrLe(a: string, b: string)
  {
    a == [] || (b != [] && (a[0] < b[0] || (a[0] == b[0] && StrLe(a[1..], b[1..]))))
  }

  lemma {:induction false} StrLeRefl(a: string)
    ensures StrLe(a, a)
  {
    if a != [] {
      StrLeRefl(a[1..]);
    }
  }

  lemma {:induction false} StrLeTotal(a: string, b: string)
    ensures StrLe(a, b) || StrLe(b, a)
  {
    if a != [] && b != [] && a[0] == b[0] {
      StrLeTotal(a[1..], b[1..]);
    }
  }

  lemma {:induction false} StrLeAntisym(a: string, b: string)
    requires StrLe(a, b) && StrLe(b, a)
    ensures a == b
  {
    if a != [] && b != [] {
      StrLeAntisym(a[1..], b[1..]);
      assert a == [a[0]] + a[1..] && b == [b[0]] + b[1..];
    }
  }

  lemma {:induction false} StrLeTrans(a: string, b: string, c: string)
    requires StrLe(a, b) && StrLe(b, c)
    ensures StrLe(a, c)
  {
    if a != [] && b != [] && c != [] && a[0] == b[0] && b[0] == c[0] {
      StrLeTrans(a[1..], b[1..], c[1..]);
    }
  }

  predicate Sorted(s: seq<string>)
  {
    forall i, j :: 0 <= i < j < |s| ==> StrLe(s[i], s[j])
  }

  /** Inserts `x` into a sorted list before the first larger element. */
  function Insert(x: string, s: seq<string>): (r: seq<string>)
    requires Sorted(s)
    ensures Sorted(r)
    ensures multiset(r) == multiset(s) + multiset{x}
  {
    if s == [] then [x]
    else if StrLe(x, s[0]) then
      forall j | 0 <= j < |s| ensures StrLe(x, s[j]) {
        if j > 0 { StrLeTrans(x, s[0], s[j]); }
      }
      [x] + s
    else
      StrLeTotal(x, s[0]);
      var t := Insert(x, s[1..]);
      assert s == [s[0]] + s[1..];
      assert forall k :: 0 <= k < |t| ==> StrLe(s[0], t[k]) by {
        forall k | 0 <= k < |t| ensures StrLe(s[0], t[k]) {
          assert t[k] in multiset(t);
          if t[k] == x {
          } else {
            assert t[k] in multiset(s[1..]);
            var m :| 0 <= m < |s[1..]| && s[1..][m] == t[k];
            assert s[m + 1] == t[k];
          }
        }
      }
      [s[0]] + t
  }

  /** The sorted copy of `s`. */
  function Sort(s: seq<string>): (r: seq<string>)
    ensures Sorted(r)
    ensures multiset(r) == multiset(s)
  {
    if s == [] then []
    else
      assert s == [s[0]] + s[1..];
      Insert(s[0], Sort(s[1..]))
  }

  /** The head of a sorted list is below every element. */
  lemma HeadIsLeast(a: seq<string>, x: string)
    requires Sorted(a) && x in a
    ensures StrLe(a[0], x)
  {
    var i :| 0 <= i < |a| && a[i] == x;
    if i == 0 {
      StrLeRefl(x);
    }
  }

  lemma MultisetTail(a: seq<string>)
    requires a != []
    ensures multiset(a[1..]) == multiset(a) - multiset{a[0]}
  {
    assert a == [a[0]] + a[1..];
  }

  /** Two sorted lists with the same elements, counted with multiplicity,
      are equal. */
  lemma {:induction false} SortedUnique(a: seq<string>, b: seq<string>)
    requires Sorted(a) && Sorted(b) && multiset(a) == multiset(b)
    ensures a == b
  {
    if a != [] {
      assert a[0] in multiset(b);
      assert b[0] in multiset(a);
      HeadIsLeast(a, b[0]);
      HeadIsLeast(b, a[0]);
      StrLeAntisym(a[0], b[0]);
      MultisetTail(a);
      MultisetTail(b);
      SortedUnique(a[1..], b[1..]);
      assert a == [a[0]] + a[1..] && b == [b[0]] + b[1..];
    }
  }

  /** Comparing sorted copies ignores order but not repetitions: they are
      equal exactly when the lists are permutations of each other. */
  lemma SortedEqualIffPermutation(a: seq<string>, b: seq<string>)
    ensures Sort(a) == Sort(b) <==> multiset(a) == multiset(b)
  {
    if multiset(a) == multiset(b) {
      SortedUnique(Sort(a), Sort(b));
    }
  }

  // ---------------------------------------------------------------------------
  // Grading
  // ---------------------------------------------------------------------------

  /** The test inside `submitQuiz`'s loop. Two lists count when their sorted
      copies agree (`JSON.stringify` of string lists is injective); two
      strings count when they agree after lowercasing and trimming; a
      missing answer or a list against a string never counts. */
  predicate IsCorrect(q: Question, answers: map<string, Answer>)
  {
    q.id in answers &&
    match (q.correctAnswer, answers[q.id])
    case (Multi(c), Multi(u)) => Sort(c) == Sort(u)
    case (Single(c), Single(u)) => Trim(ToLower(u)) == Trim(ToLower(c))
    case _ => false
  }

  /** The scoring verdict stated without sorting: lists must be
      permutations of each other. */
  lemma IsCorrectSpec(q: Question, answers: map<string, Answer>)
    ensures IsCorrect(q, answers) <==>
      q.id in answers &&
      ((q.correctAnswer.Multi? && answers[q.id].Multi? &&
        multiset(q.correctAnswer.items) == multiset(answers[q.id].items)) ||
       (q.correctAnswer.Single? && answers[q.id].Single? &&
        Trim(ToLower(answers[q.id].s)) == Trim(ToLower(q.correctAnswer.s))))
  {
    if q.id in answers && q.correctAnswer.Multi? && answers[q.id].Multi? {
      SortedEqualIffPermutation(q.correctAnswer.items, answers[q.id].items);
    }
  }

  function Grade(questions: seq<Question>, answers: map<string, Answer>): (n: nat)
    ensures n <= |questions|
  {
    if questions == [] then 0
    else
      Grade(questions[..|questions| - 1], answers)
      + (if IsCorrect(questions[|questions| - 1], answers) then 1 else 0)
  }

  function CorrectPositions(questions: seq<Question>, answers: map<string, Answer>): set<int>
  {
    set j | 0 <= j < |questions| && IsCorrect(questions[j], answers)
  }

  /** The scoring test as a function value. */
  function Scores(answers: map<string, Answer>): (f: Question -> bool)
    ensures forall q :: f(q) <==> IsCorrect(q, answers)
  {
    (q: Question) => IsCorrect(q, answers)
  }

  /** The score is the number of correctly answered questions. */
  lemma {:induction false} GradeCounts(questions: seq<Question>, answers: map<string, Answer>)
    ensures Grade(questions, answers) == |CorrectPositions(questions, answers)|
  {
    CountWhereIs(Scores(answers), questions, CorrectPositions(questions, answers));
    if questions != [] {
      var init := questions[..|questions| - 1];
      GradeCounts(init, answers);
      CountWhereIs(Scores(answers), init, CorrectPositions(init, answers));
      CountWhereStep(Scores(answers), questions);
    }
  }

  /** `submitQuiz`: throws without a running quiz; otherwise records the
      attempt, stamped with the clock reading `now`, clears the quiz and credits a signed-in user. Nothing is
      written to storage here. */
  function SubmitQuiz(s: State, answers: map<string, Answer>, now: int): (r: Result<(State, Attempt), string>)
    ensures s.currentQuiz.None? <==> r.Failure?
    ensures r.Failure? ==> r.error == "No active quiz"
    ensures r.Success? ==>
      var (s', a) := r.value;
      var quiz := s.currentQuiz.value;
      && a.quizId == quiz.id && a.answers == answers && a.completedAt == now
      && a.score == |CorrectPositions(quiz.questions, answers)|
      && 0 <= a.score <= a.totalQuestions == |quiz.questions|
      && s'.currentQuiz.None? && s'.lastAttempt == Some(a)
      && (s.user.None? ==> s'.user.None?)
      && (s.user.Some? ==>
            var u := s.user.value;
            s'.user == Some(u.(score := u.score + 10 * a.score, quizzesCompleted := u.quizzesCompleted + 1)))
  {
    if s.currentQuiz.None? then Failure("No active quiz")
    else
      var quiz := s.currentQuiz.value;
      var correct := Grade(quiz.questions, answers);
      GradeCounts(quiz.questions, answers);
      var a := Attempt(quiz.id, answers, correct, |quiz.questions|, now);
      var s1 := s.(lastAttempt := Some(a), currentQuiz := None);
      if s.user.None? then Success((s1, a))
      else
        var u := s.user.value;
        Success((s1.(user := Some(u.(quizzesCompleted := u.quizzesCompleted + 1, score := u.score + correct * 10))), a))
  }

  // ---------------------------------------------------------------------------
  // Checkbox answers
  // ---------------------------------------------------------------------------

  /** The test `current.filter` keeps entries by. */
  function NotOption(option: string): (f: string -> bool)
    ensures forall v :: f(v) <==> v != option
  {
    (v: string) => v != option
  }

  /** `current.filter(v => v !== option)`: the entries other than `option`,
      in their order and number. */
  function RemoveAll(s: seq<string>, option: string): (r: seq<string>)
    ensures option !in r
    ensures multiset(r) == multiset(s)[option := 0]
    ensures r == Filter(NotOption(option), s)
  {
    if s == [] then []
    else
      assert s == [s[0]] + s[1..];
      var rest := RemoveAll(s[1..], option);
      FilterAppend(NotOption(option), [s[0]], s[1..]);
      assert Filter(NotOption(option), [s[0]]) == (if s[0] == option then [] else [s[0]]) by {
        assert [s[0]][..0] == [];
      }
      (if s[0] == option then [] else [s[0]]) + rest
  }

  /** Unticking distributes over concatenation, so the entries that stay
      keep their relative order. */
  lemma {:induction false} RemoveAllAppend(s: seq<string>, t: seq<string>, option: string)
    ensures RemoveAll(s + t, option) == RemoveAll(s, option) + RemoveAll(t, option)
  {
    FilterAppend(NotOption(option), s, t);
  }

  /** The list currently ticked for a question: `(answers[id] as string[]) || []`. */
  function Ticked(answers: map<string, Answer>, questionId: string): seq<string>
  {
    if questionId in answers && answers[questionId].Multi? then answers[questionId].items else []
  }

  /** The checkbox handler: ticking appends the option, unticking removes
      every copy of it and keeps the rest in order and number. */
  function ToggleOption(answers: map<string, Answer>, questionId: string, option: string, checked: bool)
    : (r: map<string, Answer>)
    ensures questionId in r && r[questionId].Multi?
    ensures checked ==> r[questionId].items == Ticked(answers, questionId) + [option]
    ensures !checked ==> (option !in r[questionId].items
                      && multiset(r[questionId].items) == multiset(Ticked(answers, questionId))[option := 0]
                      && r[questionId].items == Filter(NotOption(option), Ticked(answers, questionId)))
    ensures forall k :: k != questionId ==> (k in r <==> k in answers)
    ensures forall k :: k != questionId && k in answers ==> r[k] == answers[k]
  {
    var current := Ticked(answers, questionId);
    answers[questionId := Multi(if checked then current + [option] else RemoveAll(current, option))]
  }

  /** Ticking then unticking an option that was not ticked gives back the
      same list. */
  lemma TickUntick(answers: map<string, Answer>, questionId: string, option: string)
    requires option !in Ticked(answers, questionId)
    ensures var once := ToggleOption(answers, questionId, option, true);
            ToggleOption(once, questionId, option, false)[questionId] == Multi(Ticked(answers, questionId))
  {
    var s := Ticked(answers, questionId);
    RemoveAppendAbsent(s, option);
  }

  lemma {:induction false} RemoveAppendAbsent(s: seq<string>, option: string)
    requires option !in s
    ensures RemoveAll(s + [option], option) == s
  {
    if s != [] {
      assert (s + [option])[1..] == s[1..] + [option];
      RemoveAppendAbsent(s[1..], option);
      assert s == [s[0]] + s[1..];
    }
  }
}
