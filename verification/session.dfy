/**
  The quiz session of app/page.tsx (`AppProvider`): who is signed in, which
  quiz is running and the last graded attempt, with login, logout, starting
  a quiz and submitting answers; plus the answer sheet of `QuizPage` and the
  average shown by `Profile`. The per-user `localStorage` entries become an
  explicit map from user id to the stored pair.
 */
module Session {
  import opened Basics
  import opened Text
  import opened Auth
  import opened QuizLoader

  datatype User = User(id: string, name: string, email: string, score: int, quizzesCompleted: int)

  /** A graded attempt; `completedAt` is the clock reading `new Date()`
      takes at submission, in milliseconds. */
  datatype Attempt = Attempt(quizId: string, answers: map<string, string>, score: int, totalQuestions: int,
                             completedAt: int)

  /** The JSON object kept under `userData_<id>`. A field that is missing,
      `null` or `0` reads back as `None` or `Some(0)`; both are falsy. */
  datatype Stored = Stored(score: Option<int>, quizzesCompleted: Option<int>)

  datatype State = State(user: Option<User>, currentQuiz: Option<Quiz>, lastAttempt: Option<Attempt>,
                         store: map<string, Stored>)

  /** `parsed.x || 0`. */
  function OrZero(v: Option<int>): (n: int)
    ensures v.Some? && v.value != 0 ==> n == v.value
    ensures v.None? || v.value == 0 ==> n == 0
  {
    if v.Some? then v.value else 0
  }

  /** The user record built on a successful login from the account and
      whatever progress is stored for it. */
  function SignedIn(a: AuthUser, store: map<string, Stored>): (u: User)
    ensures u.id == a.id && u.name == a.name && u.email == a.email
    ensures a.id !in store ==> u.score == 0 && u.quizzesCompleted == 0
    ensures a.id in store ==> (u.score == OrZero(store[a.id].score)
                           && u.quizzesCompleted == OrZero(store[a.id].quizzesCompleted))
  {
    if a.id in store then
      User(a.id, a.name, a.email, OrZero(store[a.id].score), OrZero(store[a.id].quizzesCompleted))
    else User(a.id, a.name, a.email, 0, 0)
  }

  /** `login`: succeeds exactly when the credentials validate; on failure
      nothing changes, on success only the user is replaced. */
  function Login(s: State, email: string, password: string): (r: (State, bool))
    ensures r.1 <==> ValidateCredentials(email, password).Some?
    ensures !r.1 ==> r.0 == s
    ensures r.1 ==> r.0 == s.(user := Some(SignedIn(ValidateCredentials(email, password).value, s.store)))
  {
    match ValidateCredentials(email, password)
    case Some(a) => (s.(user := Some(SignedIn(a, s.store))), true)
    case None => (s, false)
  }

  /** `logout`: clears the user, the running quiz and the last attempt; the
      stored progress stays. */
  function Logout(s: State): (r: State)
    ensures r.user.None? && r.currentQuiz.None? && r.lastAttempt.None?
    ensures r.store == s.store
  {
    State(None, None, None, s.store)
  }

  /** The first quiz of the catalog with this id (`quizData.find`). */
  function FindQuiz(catalog: seq<Quiz>, id: string, i: nat): (k: nat)
    requires i <= |catalog|
    ensures i <= k <= |catalog|
    ensures k < |catalog| ==> catalog[k].id == id
    ensures forall j :: i <= j < k ==> catalog[j].id != id
    decreases |catalog| - i
  {
    if i == |catalog| then i
    else if catalog[i].id == id then i
    else FindQuiz(catalog, id, i + 1)
  }

  /** `startQuiz`: an unknown id is ignored. */
  function StartQuiz(s: State, catalog: seq<Quiz>, id: string): (r: State)
    ensures (forall j :: 0 <= j < |catalog| ==> catalog[j].id != id) ==> r == s
    ensures (exists j :: 0 <= j < |catalog| && catalog[j].id == id) ==>
              r.currentQuiz.Some? && r.currentQuiz.value in catalog && r.currentQuiz.value.id == id
    ensures r.user == s.user && r.lastAttempt == s.lastAttempt && r.store == s.store
  {
    var k := FindQuiz(catalog, id, 0);
    if k < |catalog| then s.(currentQuiz := Some(catalog[k])) else s
  }

  /** `startCustomQuiz`: replaces the running quiz unconditionally. */
  function StartCustomQuiz(s: State, quiz: Quiz): (r: State)
    ensures r.currentQuiz == Some(quiz)
    ensures r.user == s.user && r.lastAttempt == s.lastAttempt && r.store == s.store
  {
    s.(currentQuiz := Some(quiz))
  }

  // ---------------------------------------------------------------------------
  // Grading
  // ---------------------------------------------------------------------------

  /** The test inside `submitQuiz`'s loop: an answer is present, non-empty,
      and equal to the correct answer once both are trimmed. Case counts. */
  predicate IsCorrect(q: Question, answers: map<string, string>)
  {
    q.id in answers && answers[q.id] != [] && Trim(answers[q.id]) == Trim(q.correctAnswer)
  }

  /** The number of correct answers, counted question by question. */
  function Grade(questions: seq<Question>, answers: map<string, string>): (n: nat)
    ensures n <= |questions|
  {
    if questions == [] then 0
    else
      Grade(questions[..|questions| - 1], answers)
      + (if IsCorrect(questions[|questions| - 1], answers) then 1 else 0)
  }

  /** The positions of the correctly answered questions. */
  function CorrectPositions(questions: seq<Question>, answers: map<string, string>): set<int>
  {
    set j | 0 <= j < |questions| && IsCorrect(questions[j], answers)
  }

  /** The scoring test as a function value. */
  function Scores(answers: map<string, string>): (f: Question -> bool)
    ensures forall q :: f(q) <==> IsCorrect(q, answers)
  {
    (q: Question) => IsCorrect(q, answers)
  }

  /** The score is the number of correctly answered questions. */
  lemma {:induction false} GradeCounts(questions: seq<Question>, answers: map<string, string>)
    ensures Grade(questions, answers) == |CorrectPositions(questions, answers)|
  {
    CountWhereIs(Scores(answers), questions, CorrectPositions(questions, answers));
    if questions != [] {
      var init := questions[..|questions| - 1];
      GradeCounts(init, answers);
      CountWhereIs(Scores(answers), init, CorrectPositions(init, answers));
      CountWhereStep(Scores(answers), questions);
    }
  }

  /** A missing or empty answer never scores, whatever the correct answer. */
  lemma EmptyAnswerNeverCorrect(q: Question, answers: map<string, string>)
    requires q.id !in answers || answers[q.id] == []
    ensures !IsCorrect(q, answers)
  {
  }

  /** Grading ignores surrounding whitespace but not case. */
  lemma GradingCaseSensitive(q: Question)
    requires q.id == "q1" && q.correctAnswer == "Paris"
    ensures IsCorrect(q, map["q1" := " Paris "])
    ensures !IsCorrect(q, map["q1" := "paris"])
  {
    assert Trim("Paris") == "Paris" by { TrimOfTrimmed("Paris"); }
    assert Trim("paris") == "paris" by { TrimOfTrimmed("paris"); }
    assert Trim(" Paris ") == "Paris" by {
      assert SkipSpaces(" Paris ", 0) == 1;
      assert SkipSpacesBack(" Paris ", 7) == 6;
    }
    assert "paris"[0] != "Paris"[0];
  }

  /** `submitQuiz`. With no running quiz it throws "No active quiz".
      Otherwise the attempt records the quiz id, the answers unchanged, the
      number of correct answers, the number of questions and the clock
      reading `now`; the running
      quiz is cleared and the attempt becomes the last one; a signed-in
      user gains one completed quiz and ten points per correct answer,
      keeps everything else, and that pair is written to the store. */
  function SubmitQuiz(s: State, answers: map<string, string>, now: int): (r: Result<(State, Attempt), string>)
    ensures s.currentQuiz.None? <==> r.Failure?
    ensures r.Failure? ==> r.error == "No active quiz"
    ensures r.Success? ==>
      var (s', a) := r.value;
      var quiz := s.currentQuiz.value;
      && a.quizId == quiz.id && a.answers == answers && a.completedAt == now
      && a.score == |CorrectPositions(quiz.questions, answers)|
      && 0 <= a.score <= a.totalQuestions == |quiz.questions|
      && s'.currentQuiz.None? && s'.lastAttempt == Some(a)
      && (s.user.None? ==> s'.user.None? && s'.store == s.store)
      && (s.user.Some? ==>
            var u := s.user.value;
            && s'.user == Some(u.(score := u.score + 10 * a.score, quizzesCompleted := u.quizzesCompleted + 1))
            && s'.store == s.store[u.id := Stored(Some(u.score + 10 * a.score), Some(u.quizzesCompleted + 1))])
  {
    if s.currentQuiz.None? then Failure("No active quiz")
    else
      var quiz := s.currentQuiz.value;
      var correct := Grade(quiz.questions, answers);
      GradeCounts(quiz.questions, answers);
      var a := Attempt(quiz.id, answers, correct, |quiz.questions|, now);
      var s1 := s.(lastAttempt := Some(a), currentQuiz := None);
      if s.user.None? then Success((s1, a))
      else
        var u := s.user.value;
        var u' := u.(quizzesCompleted := u.quizzesCompleted + 1, score := u.score + correct * 10);
        Success((s1.(user := Some(u'), store := s.store[u.id := Stored(Some(u'.score), Some(u'.quizzesCompleted))]), a))
  }

  /** A user whose progress went through submit logs back in with it: the
      stored pair is read back as written (a zero reads back as zero). */
  lemma SubmitThenLoginKeepsProgress(s: State, answers: map<string, string>, now: int, email: string, password: string)
    requires s.currentQuiz.Some? && s.user.Some?
    requires ValidateCredentials(email, password).Some? && ValidateCredentials(email, password).value.id == s.user.value.id
    ensures var (s', _) := SubmitQuiz(s, answers, now).value;
            var (s'', ok) := Login(Logout(s'), email, password);
            ok && s''.user.Some?
            && s''.user.value.score == s'.user.value.score
            && s''.user.value.quizzesCompleted == s'.user.value.quizzesCompleted
  {
  }

  /** One round of play: a quiz is started and submitted with the given
      answers at the given time, then the user optionally logs out and
      back in. */
  datatype Round = Round(quiz: Quiz, answers: map<string, string>, now: int, relogin: bool)

  function PlayRound(s: State, round: Round, email: string, password: string): (r: State)
  {
    var s1 := StartCustomQuiz(s, round.quiz);
    var s2 := SubmitQuiz(s1, round.answers, round.now).value.0;
    if round.relogin then Login(Logout(s2), email, password).0 else s2
  }

  /** The rounds played one after another. */
  function Play(s: State, rounds: seq<Round>, email: string, password: string): State
    decreases |rounds|
  {
    if rounds == [] then s else Play(PlayRound(s, rounds[0], email, password), rounds[1..], email, password)
  }

  /** The points the rounds earn: ten per correct answer. */
  function Points(rounds: seq<Round>): int
    decreases |rounds|
  {
    if rounds == [] then 0
    else 10 * |CorrectPositions(rounds[0].quiz.questions, rounds[0].answers)| + Points(rounds[1..])
  }

  /** Over any number of rounds, with logins in between or not, the user's
      score grows by ten per correct answer and the completed count by one
      per round: nothing is lost across a logout and login. */
  lemma {:induction false} PlayKeepsProgress(s: State, rounds: seq<Round>, email: string, password: string)
    requires s.user.Some?
    requires ValidateCredentials(email, password).Some? && ValidateCredentials(email, password).value.id == s.user.value.id
    ensures var s' := Play(s, rounds, email, password);
            && s'.user.Some? && s'.user.value.id == s.user.value.id
            && s'.user.value.score == s.user.value.score + Points(rounds)
            && s'.user.value.quizzesCompleted == s.user.value.quizzesCompleted + |rounds|
    decreases |rounds|
  {
    if rounds != [] {
      var next := PlayRound(s, rounds[0], email, password);
      var s1 := StartCustomQuiz(s, rounds[0].quiz);
      var u := s.user.value;
      var k := |CorrectPositions(rounds[0].quiz.questions, rounds[0].answers)|;
      assert && next.user.Some? && next.user.value.id == u.id
             && next.user.value.score == u.score + 10 * k
             && next.user.value.quizzesCompleted == u.quizzesCompleted + 1 by {
        if rounds[0].relogin {
          SubmitThenLoginKeepsProgress(s1, rounds[0].answers, rounds[0].now, email, password);
        }
      }
      PlayKeepsProgress(next, rounds[1..], email, password);
    }
  }

  // ---------------------------------------------------------------------------
  // The answer sheet and the profile
  // ---------------------------------------------------------------------------

  /** `handleAnswerChange`: the last write to a question wins and every
      other entry is untouched. */
  function RecordAnswer(answers: map<string, string>, questionId: string, value: string): (r: map<string, string>)
    ensures questionId in r && r[questionId] == value
    ensures forall k :: k != questionId ==> (k in r <==> k in answers)
    ensures forall k :: k != questionId && k in answers ==> r[k] == answers[k]
  {
    answers[questionId := value]
  }

  /** Recording twice for the same question keeps only the second value. */
  lemma RecordAnswerLastWins(answers: map<string, string>, questionId: string, v1: string, v2: string)
    ensures RecordAnswer(RecordAnswer(answers, questionId, v1), questionId, v2) == RecordAnswer(answers, questionId, v2)
  {
  }

  /** `Math.round(score / quizzesCompleted)` in the profile, and 0 before
      the first quiz: the nearest integer, halves rounded up. */
  function AverageScore(u: User): (avg: int)
    ensures u.quizzesCompleted <= 0 ==> avg == 0
    ensures u.quizzesCompleted > 0 ==>
              u.quizzesCompleted * (2 * avg - 1) <= 2 * u.score < u.quizzesCompleted * (2 * avg + 1)
  {
    if u.quizzesCompleted > 0 then (2 * u.score + u.quizzesCompleted) / (2 * u.quizzesCompleted) else 0
  }
}
