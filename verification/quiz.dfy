/** The quiz page: the catalogue filters, the answer state machine (answer once,
    advance after a delay, complete on the last question), the reset and the m:ss
    time display. The one-second delay and the one-second interval become steps
    the page takes one after the other. */
module Quizzes {
  import opened Collections
  import opened Text

  datatype Difficulty = Beginner | Intermediate | Advanced

  datatype Question = Question(question: string, options: seq<string>, correctAnswer: string)

  datatype Quiz = Quiz(id: int, title: string, description: string, topic: string,
                       difficulty: Difficulty, questions: seq<Question>)

  /** The `quizState` record of the page. */
  datatype QuizState = QuizState(
    currentQuestionIndex: nat,
    selectedAnswer: Option<string>,
    score: nat,
    answers: seq<bool>,
    completed: bool,
    timeSpent: nat)

  /** The state an attempt starts from, and the one `resetQuiz` restores. */
  const Initial := QuizState(0, None, 0, [], false, 0)

  /** The number of `true` entries in an answers log. */
  function CorrectCount(answers: seq<bool>): (n: nat)
    ensures n <= |answers|
    ensures n == |answers| <==> forall i :: 0 <= i < |answers| ==> answers[i]
  {
    if |answers| == 0 then 0
    else
      var init := answers[..|answers| - 1];
      assert forall i :: 0 <= i < |init| ==> init[i] == answers[i];
      CorrectCount(init) + (if answers[|answers| - 1] then 1 else 0)
  }

  /** What the page keeps true during an attempt on a quiz of `count` questions:
      the cursor is on a question, the score counts the correct answers, the log
      holds one entry per question answered so far (the current one included once
      it is answered), and a completed attempt has answered the last question. */
  predicate Consistent(st: QuizState, count: nat)
  {
    && st.currentQuestionIndex < count
    && st.score == CorrectCount(st.answers)
    && |st.answers| == st.currentQuestionIndex + (if st.selectedAnswer.Some? then 1 else 0)
    && (st.completed ==> st.selectedAnswer.Some? && st.currentQuestionIndex == count - 1)
  }

  /** Choosing `answer` for the current question: ignored once an answer is
      selected; otherwise the answer is recorded, scored and logged. */
  function Answer(st: QuizState, quiz: Quiz, answer: string): (r: QuizState)
    requires st.selectedAnswer.Some? || st.currentQuestionIndex < |quiz.questions|
    ensures st.selectedAnswer.Some? ==> r == st
    ensures st.selectedAnswer.None? ==>
      var correct := answer == quiz.questions[st.currentQuestionIndex].correctAnswer;
      && r.selectedAnswer == Some(answer)
      && r.answers == st.answers + [correct]
      && r.score == st.score + (if correct then 1 else 0)
      && r.currentQuestionIndex == st.currentQuestionIndex
      && r.completed == st.completed && r.timeSpent == st.timeSpent
  {
    if st.selectedAnswer.Some? then st
    else
      var isCorrect := answer == quiz.questions[st.currentQuestionIndex].correctAnswer;
      st.(selectedAnswer := Some(answer),
          score := if isCorrect then st.score + 1 else st.score,
          answers := st.answers + [isCorrect])
  }

  /** The delayed step after an answer, reading the state it acts on: it moves to
      the next question, or completes the attempt on the last one. A state with no
      answer awaiting it (a fresh attempt) or an attempt already completed is
      left as it is. */
  function Advance(st: QuizState, count: nat): (r: QuizState)
    ensures r.answers == st.answers && r.score == st.score && r.timeSpent == st.timeSpent
    ensures st.selectedAnswer.None? || st.completed ==> r == st
    ensures st.selectedAnswer.Some? && !st.completed && st.currentQuestionIndex + 1 < count ==>
      r.currentQuestionIndex == st.currentQuestionIndex + 1 && r.selectedAnswer.None? && !r.completed
    ensures st.selectedAnswer.Some? && !st.completed && st.currentQuestionIndex + 1 >= count ==>
      r.currentQuestionIndex == st.currentQuestionIndex && r.selectedAnswer == st.selectedAnswer && r.completed
  {
    if st.selectedAnswer.None? || st.completed then st
    else if st.currentQuestionIndex < count - 1 then
      st.(currentQuestionIndex := st.currentQuestionIndex + 1, selectedAnswer := None)
    else st.(completed := true)
  }

  /** The delayed step as written: the test reads the question index and the
      question count captured when the answer was given, whatever the state has
      become since; only the increment reads the current state. */
  function AdvanceAsWritten(st: QuizState, capturedIndex: int, capturedCount: int): (r: QuizState)
    ensures r.answers == st.answers && r.score == st.score
  {
    if capturedIndex < capturedCount - 1 then
      st.(currentQuestionIndex := st.currentQuestionIndex + 1, selectedAnswer := None)
    else st.(completed := true)
  }

  /** One tick of the one-second interval, which runs only until completion. */
  function Tick(st: QuizState): (r: QuizState)
    ensures st.completed ==> r == st
    ensures !st.completed ==> r == st.(timeSpent := st.timeSpent + 1)
  {
    if st.completed then st else st.(timeSpent := st.timeSpent + 1)
  }

  lemma InitialConsistent(count: nat)
    requires count > 0
    ensures Consistent(Initial, count)
  {
  }

  /** Answering keeps the attempt consistent. */
  lemma AnswerKeepsConsistent(st: QuizState, quiz: Quiz, answer: string)
    requires Consistent(st, |quiz.questions|)
    ensures Consistent(Answer(st, quiz, answer), |quiz.questions|)
  {
    if st.selectedAnswer.None? {
      var r := Answer(st, quiz, answer);
      assert r.answers[..|r.answers| - 1] == st.answers;
    }
  }

  /** A question is answered at most once: a second choice changes nothing. */
  lemma AnswerOnce(st: QuizState, quiz: Quiz, first: string, second: string)
    requires st.selectedAnswer.Some? || st.currentQuestionIndex < |quiz.questions|
    ensures Answer(Answer(st, quiz, first), quiz, second) == Answer(st, quiz, first)
  {
  }

  /** The delayed step keeps the attempt consistent, so the cursor never leaves
      the questions. */
  lemma AdvanceKeepsConsistent(st: QuizState, count: nat)
    requires Consistent(st, count)
    ensures Consistent(Advance(st, count), count)
  {
  }

  /** While the answer that scheduled it is still on screen (nothing but ticks in
      between), the step as written, with the index and count it captured, does
      exactly what the corrected step does. (A completed attempt sits on its last
      question, as `Consistent` says.) */
  lemma AdvanceAsWrittenAgreesWhenAwaited(st: QuizState, count: nat)
    requires st.selectedAnswer.Some?
    requires st.completed ==> st.currentQuestionIndex + 1 >= count
    ensures AdvanceAsWritten(st, st.currentQuestionIndex, count) == Advance(st, count)
  {
  }

  /** On that path the step as written keeps the attempt consistent too. */
  lemma AdvanceAsWrittenKeepsConsistent(st: QuizState, count: nat)
    requires Consistent(st, count)
    requires st.selectedAnswer.Some?
    ensures Consistent(AdvanceAsWritten(st, st.currentQuestionIndex, count), count)
  {
    AdvanceAsWrittenAgreesWhenAwaited(st, count);
    AdvanceKeepsConsistent(st, count);
  }

  lemma TickKeepsConsistent(st: QuizState, count: nat)
    requires Consistent(st, count)
    ensures Consistent(Tick(st), count)
  {
  }

  /** Answer, then the delayed step: the next question with no answer selected,
      or, on the last question, a completed attempt. */
  lemma AnswerThenAdvance(st: QuizState, quiz: Quiz, answer: string)
    requires Consistent(st, |quiz.questions|)
    requires st.selectedAnswer.None?
    ensures var r := Advance(Answer(st, quiz, answer), |quiz.questions|);
      && |r.answers| == |st.answers| + 1
      && (st.currentQuestionIndex < |quiz.questions| - 1 ==>
            r.currentQuestionIndex == st.currentQuestionIndex + 1 && r.selectedAnswer.None? && !r.completed)
      && (st.currentQuestionIndex == |quiz.questions| - 1 ==>
            r.completed && r.currentQuestionIndex == st.currentQuestionIndex)
    ensures var a := Answer(st, quiz, answer);
      AdvanceAsWritten(a, st.currentQuestionIndex, |quiz.questions|) == Advance(a, |quiz.questions|)
  {
    AnswerKeepsConsistent(st, quiz, answer);
    AdvanceAsWrittenAgreesWhenAwaited(Answer(st, quiz, answer), |quiz.questions|);
  }

  /** A completed attempt has one answer per question, and the score is at most
      the number of questions. */
  lemma CompletedAnsweredAll(st: QuizState, count: nat)
    requires Consistent(st, count)
    requires st.completed
    ensures |st.answers| == count
    ensures st.score <= count
  {
  }

  /** A pending step that finds a fresh attempt leaves it fresh. */
  lemma AdvanceLeavesFreshAttempt(count: nat)
    ensures Advance(Initial, count) == Initial
  {
  }

  /** As written, a step pending from the previous quiz (question 0 of two
      answered, then another quiz picked within the second) moves the fresh
      attempt past its first question, with nothing answered; on a one-question
      quiz it marks the fresh attempt completed with score 0. */
  lemma AdvanceAsWrittenCorruptsFreshAttempt()
    ensures var r := AdvanceAsWritten(Initial, 0, 2);
      r.currentQuestionIndex == 1 && r.answers == [] && !Consistent(r, 2)
    ensures var r := AdvanceAsWritten(Initial, 0, 1);
      r.completed && r.score == 0 && !Consistent(r, 1)
  {
  }

  lemma DecimalBelowHundred(n: nat)
    requires n < 100
    ensures |Decimal(n)| <= 2
  {
  }

  /** `formatTime(seconds)`: the whole minutes, a colon, then the remaining
      seconds padded to two digits. */
  function FormatTime(seconds: nat): (t: string)
    ensures |t| >= 4 && t[|t| - 3] == ':'
  {
    DecimalBelowHundred(seconds % 60);
    var minutes := Decimal(seconds / 60);
    var remaining := PadStart(Decimal(seconds % 60), 2, '0');
    assert |remaining| == 2;
    minutes + [':'] + remaining
  }

  /** The seconds part has exactly two digits, denotes a number below 60, and
      with the minutes part gives back the input: minutes * 60 + seconds. */
  lemma {:induction false} FormatTimeRoundTrip(seconds: nat)
    ensures var t := FormatTime(seconds); var p := |t| - 3;
      && t[..p] == Decimal(seconds / 60)
      && DecimalValue(t[p + 1..]) < 60
      && DecimalValue(t[..p]) * 60 + DecimalValue(t[p + 1..]) == seconds
  {
    FormatTimeParts(seconds);
    PaddedSecondsValue(seconds % 60);
    DecimalRoundTrip(seconds / 60);
  }

  /** `formatTime` splits at its colon into the minutes and the padded seconds. */
  lemma FormatTimeParts(seconds: nat)
    ensures var t := FormatTime(seconds); var p := |t| - 3;
      && t[..p] == Decimal(seconds / 60)
      && t[p + 1..] == PadStart(Decimal(seconds % 60), 2, '0')
  {
    var t := FormatTime(seconds);
    var padded := PadStart(Decimal(seconds % 60), 2, '0');
    DecimalBelowHundred(seconds % 60);
    assert t == Decimal(seconds / 60) + [':'] + padded;
  }

  /** The seconds part of `formatTime`: two digits denoting the seconds. */
  lemma PaddedSecondsValue(s: nat)
    requires s < 60
    ensures |PadStart(Decimal(s), 2, '0')| == 2
    ensures DecimalValue(PadStart(Decimal(s), 2, '0')) == s
  {
    DecimalBelowHundred(s);
    DecimalRoundTrip(s);
    if |Decimal(s)| == 1 {
      assert PadStart(Decimal(s), 2, '0') == ['0'] + Decimal(s);
      DecimalValueLeadingZero(Decimal(s));
    }
  }

  /** The catalogue filter: the chosen topic (or every topic for "all") and
      exactly the chosen difficulty. */
  function QuizShown(topic: string, difficulty: Difficulty): Quiz -> bool
  {
    (q: Quiz) => (topic == "all" || q.topic == topic) && q.difficulty == difficulty
  }

  function FilteredQuizzes(quizzes: seq<Quiz>, topic: string, difficulty: Difficulty): (r: seq<Quiz>)
    ensures forall q :: q in r <==> q in quizzes && (topic == "all" || q.topic == topic) && q.difficulty == difficulty
  {
    FilterMembers(quizzes, QuizShown(topic, difficulty));
    Filter(quizzes, QuizShown(topic, difficulty))
  }

  /** The filter keeps the catalogue's order, and a single topic shows a part of
      what "all" shows for the same difficulty. */
  lemma FilteredQuizzesNarrow(quizzes: seq<Quiz>, topic: string, difficulty: Difficulty)
    ensures IsSubseq(FilteredQuizzes(quizzes, topic, difficulty), quizzes)
    ensures IsSubseq(FilteredQuizzes(quizzes, topic, difficulty), FilteredQuizzes(quizzes, "all", difficulty))
  {
    FilterIsSubseq(quizzes, QuizShown(topic, difficulty));
    FilterStrongerIsSubseq(quizzes, QuizShown(topic, difficulty), QuizShown("all", difficulty));
  }

  function TopicOf(q: Quiz): string
  {
    q.topic
  }

  /** A completed attempt sits on the last question of its quiz, so it is not
      consistent with any shorter quiz: the attempt "Next Quiz" keeps then points
      past the new quiz's questions. */
  lemma KeptAttemptInconsistent(st: QuizState, count: nat, newCount: nat)
    requires Consistent(st, count) && st.completed
    requires newCount < count
    ensures !Consistent(st, newCount)
    ensures st.currentQuestionIndex >= newCount
  {
  }

  /** The topic choices: "all" first, then each quiz topic once, in the order the
      topics first occur. */
  function Topics(quizzes: seq<Quiz>): (r: seq<string>)
    ensures |r| >= 1 && r[0] == "all"
    ensures forall t :: t in r[1..] <==> exists i :: 0 <= i < |quizzes| && quizzes[i].topic == t
    ensures NoDuplicates(r[1..])
  {
    var topics := MapSeq(quizzes, TopicOf);
    assert forall t :: t in topics <==> exists i :: 0 <= i < |quizzes| && quizzes[i].topic == t by {
      forall t | t in topics
        ensures exists i :: 0 <= i < |quizzes| && quizzes[i].topic == t
      {
        var i :| 0 <= i < |topics| && topics[i] == t;
        assert quizzes[i].topic == t;
      }
    }
    Choices("all", topics)
  }

  /** The page: the catalogue, the quiz on screen, its attempt and the filters. */
  class QuizPage {
    var quizzes: seq<Quiz>
    var selectedQuiz: Option<Quiz>
    var quizState: QuizState
    var difficulty: Difficulty
    var topic: string

    constructor (catalogue: seq<Quiz>)
      ensures quizzes == catalogue && quizState == Initial
      ensures selectedQuiz == (if |catalogue| > 0 then Some(catalogue[0]) else None)
      ensures difficulty == Beginner && topic == "all"
    {
      quizzes := catalogue;
      selectedQuiz := if |catalogue| > 0 then Some(catalogue[0]) else None;
      quizState := Initial;
      difficulty := Beginner;
      topic := "all";
    }

    /** The attempt is consistent with the quiz on screen. */
    predicate Valid()
      reads this
    {
      selectedQuiz.Some? && |selectedQuiz.value.questions| > 0 ==>
        Consistent(quizState, |selectedQuiz.value.questions|)
    }

    function Shown(): seq<Quiz>
      reads this
    {
      FilteredQuizzes(quizzes, topic, difficulty)
    }

    method HandleAnswerSelect(answer: string)
      requires selectedQuiz.Some?
      requires quizState.selectedAnswer.Some? || quizState.currentQuestionIndex < |selectedQuiz.value.questions|
      modifies this`quizState
      ensures quizState == Answer(old(quizState), selectedQuiz.value, answer)
      ensures old(Valid()) ==> Valid()
    {
      if quizState.selectedAnswer.Some? {
        return;
      }
      var currentQuestion := selectedQuiz.value.questions[quizState.currentQuestionIndex];
      var isCorrect := answer == currentQuestion.correctAnswer;
      quizState := quizState.(selectedAnswer := Some(answer));
      if isCorrect {
        quizState := quizState.(score := quizState.score + 1);
      }
      quizState := quizState.(answers := quizState.answers + [isCorrect]);
      if old(Valid()) && |selectedQuiz.value.questions| > 0 {
        AnswerKeepsConsistent(old(quizState), selectedQuiz.value, answer);
      }
    }

    /** The step `handleAnswerSelect` schedules, one second later, as written: it
        tests the question index and question count captured when the answer was
        given. While that answer is still on screen it is the corrected `Advance`
        and keeps the attempt consistent. */
    method AdvanceAfterAnswer(answeredIndex: int, answeredCount: int)
      modifies this`quizState
      ensures quizState == AdvanceAsWritten(old(quizState), answeredIndex, answeredCount)
      ensures (&& old(Valid()) && selectedQuiz.Some? && answeredCount == |selectedQuiz.value.questions|
               && old(quizState).selectedAnswer.Some? && answeredIndex == old(quizState).currentQuestionIndex)
        ==> quizState == Advance(old(quizState), answeredCount) && Valid()
    {
      if answeredIndex < answeredCount - 1 {
        quizState := quizState.(currentQuestionIndex := quizState.currentQuestionIndex + 1);
        quizState := quizState.(selectedAnswer := None);
      } else {
        quizState := quizState.(completed := true);
      }
      if old(Valid()) && selectedQuiz.Some? && answeredCount == |selectedQuiz.value.questions|
        && old(quizState).selectedAnswer.Some? && answeredIndex == old(quizState).currentQuestionIndex
      {
        AdvanceAsWrittenAgreesWhenAwaited(old(quizState), answeredCount);
        if answeredCount > 0 {
          AdvanceKeepsConsistent(old(quizState), answeredCount);
        }
      }
    }

    /** One tick of the interval, which runs on whatever attempt is on screen
        until it completes. */
    method TickSecond()
      modifies this`quizState
      ensures quizState == Tick(old(quizState))
      ensures old(Valid()) ==> Valid()
    {
      if !quizState.completed {
        quizState := quizState.(timeSpent := quizState.timeSpent + 1);
      }
      if old(Valid()) && selectedQuiz.Some? && |selectedQuiz.value.questions| > 0 {
        TickKeepsConsistent(old(quizState), |selectedQuiz.value.questions|);
      }
    }

    method ResetQuiz()
      modifies this`quizState
      ensures quizState == Initial
      ensures Valid()
    {
      quizState := Initial;
    }

    /** The result screen's "Next Quiz" button: it shows another quiz (`pick`
        stands for the random choice) but keeps the completed attempt, which is
        then scored against the new quiz's questions. When the new quiz is shorter,
        the kept attempt is no longer consistent with it. */
    method NextQuiz(pick: Quiz)
      modifies this`selectedQuiz
      ensures selectedQuiz == Some(pick) && quizState == old(quizState)
      ensures (&& old(selectedQuiz).Some? && old(Valid()) && old(quizState).completed
               && 0 < |pick.questions| < |old(selectedQuiz).value.questions|)
        ==> !Valid()
    {
      ghost var previous := selectedQuiz;
      selectedQuiz := Some(pick);
      if previous.Some? && old(Valid()) && quizState.completed
        && 0 < |pick.questions| < |previous.value.questions|
      {
        KeptAttemptInconsistent(quizState, |previous.value.questions|, |pick.questions|);
      }
    }

    /** Picking a quiz in the catalogue shows it with a fresh attempt. */
    method SelectQuiz(quiz: Quiz)
      modifies this`selectedQuiz, this`quizState
      ensures selectedQuiz == Some(quiz) && quizState == Initial
      ensures Valid()
    {
      selectedQuiz := Some(quiz);
      ResetQuiz();
    }
  }
}
