/**
 * The quiz session held by the mock-test window, lifted off its widgets: the
 * loaded questions, the cursor, the answers saved so far, the counted score and
 * the countdown. Each user action and each timer tick is one method call; the
 * option the user has picked is a parameter, with "" meaning nothing picked.
 */
module MockTest {
  import opened Wrappers
  import opened Decimal
  import opened Helpers

  /** Seconds allowed per question. */
  const TimePerQuestion: nat := 60

  /**
   * The answer list after saving `choice` for question `idx`: appended when
   * the list is not longer than `idx`, overwritten in place otherwise.
   */
  function Store(answers: seq<string>, idx: nat, choice: string): (r: seq<string>)
    ensures idx <= |answers| ==>
      && |r| == (if idx == |answers| then |answers| + 1 else |answers|)
      && r[idx] == choice
      && forall j :: 0 <= j < |answers| && j != idx ==> r[j] == answers[j]
    ensures idx > |answers| ==> r == answers + [choice]
  {
    if |answers| <= idx then answers + [choice] else answers[idx := choice]
  }

  /** The score after saving `choice` for a question whose correct answer is `correct`. */
  function ScoreAfter(score: int, choice: string, correct: string): (r: int)
    ensures score >= 0 ==> r >= 0 && (r == score + 1 <==> choice == correct)
    ensures choice != correct ==> r == (if score < 0 then 0 else score)
  {
    if choice == correct then score + 1 else if score < 0 then 0 else score
  }

  /** Saving the same choice twice for the same question stores what one save stores. */
  lemma StoreTwice(answers: seq<string>, idx: nat, choice: string)
    requires idx <= |answers|
    ensures Store(Store(answers, idx, choice), idx, choice) == Store(answers, idx, choice)
  {
  }

  /** Saving a correct choice twice counts it twice; saving a wrong one twice counts nothing. */
  lemma ScoreTwice(score: nat, choice: string, correct: string)
    ensures ScoreAfter(ScoreAfter(score, choice, correct), choice, correct)
            == if choice == correct then score + 2 else score
  {
  }

  /** What a timer tick did. */
  datatype TickOutcome =
    | Expired(report: Report)   // time ran out: the session was submitted
    | Running(warning: bool)    // still counting; `warning` when 10 seconds or fewer are left

  /** The question bank's answer to a start request. */
  datatype FetchResult =
    | HttpFailure                    // status code other than 200
    | NoQuestionsAvailable           // a response code other than 0
    | Fetched(questions: seq<Question>)

  /** What pressing Start led to. */
  datatype StartOutcome =
    | InputRejected(error: InputError)
    | FetchFailed
    | NoQuestions
    | Started
    | FinishedAtOnce(report: Report)  // the cursor was already past the new questions

  class Session {
    var questions: seq<Question>
    var correctAnswers: seq<string>
    var questionIndex: nat
    var selectedAnswers: seq<string>
    var score: int
    var timeLeft: int
    /** Saves since the last reset; the counted score never exceeds it. */
    ghost var saves: nat

    ghost predicate Valid()
      reads this
    {
      && |correctAnswers| == |questions|
      && (forall i :: 0 <= i < |questions| ==> correctAnswers[i] == questions[i].correctAnswer)
      && (questionIndex < |questions| || (questions == [] && questionIndex == 0))
      && questionIndex <= |selectedAnswers|
      && 0 <= score <= saves
    }

    /** A session is under way when questions are loaded. */
    predicate Active()
      reads this
    {
      questions != []
    }

    constructor ()
      ensures Valid() && !Active()
      ensures questions == [] && correctAnswers == [] && selectedAnswers == []
      ensures questionIndex == 0 && score == 0 && timeLeft == 0 && saves == 0
    {
      questions, correctAnswers, selectedAnswers := [], [], [];
      questionIndex, score, timeLeft := 0, 0, 0;
      saves := 0;
    }

    /** The timer part of showing the current question: showing question 0 restarts the countdown. */
    method ShowQuestion()
      requires questionIndex < |questions|
      modifies this`timeLeft
      ensures timeLeft == if questionIndex == 0 then |questions| * TimePerQuestion else old(timeLeft)
    {
      if questionIndex == 0 {
        timeLeft := |questions| * TimePerQuestion;
      }
    }

    /** Records `choice` for the current question and counts it when it is correct. */
    method Save(choice: string)
      requires Valid() && Active()
      modifies this
      ensures Valid() && Active()
      ensures selectedAnswers == Store(old(selectedAnswers), questionIndex, choice)
      ensures score == ScoreAfter(old(score), choice, correctAnswers[questionIndex])
      ensures old(score) <= score <= old(score) + 1
      ensures saves == old(saves) + 1
      ensures questions == old(questions) && correctAnswers == old(correctAnswers)
      ensures questionIndex == old(questionIndex) && timeLeft == old(timeLeft)
    {
      if |selectedAnswers| <= questionIndex {
        selectedAnswers := selectedAnswers + [choice];
      } else {
        selectedAnswers := selectedAnswers[questionIndex := choice];
      }
      if choice == correctAnswers[questionIndex] {
        score := score + 1;
      } else {
        score := if score < 0 then 0 else score;
      }
      saves := saves + 1;
    }

    /** Moves back one question, unless at the first; nothing is saved. */
    method Previous()
      requires Valid()
      modifies this
      ensures Valid()
      ensures questionIndex == if old(questionIndex) > 0 then old(questionIndex) - 1 else old(questionIndex)
      ensures timeLeft == if old(questionIndex) == 1 then |questions| * TimePerQuestion else old(timeLeft)
      ensures questions == old(questions) && correctAnswers == old(correctAnswers)
      ensures selectedAnswers == old(selectedAnswers) && score == old(score) && saves == old(saves)
    {
      if questionIndex > 0 {
        questionIndex := questionIndex - 1;
        ShowQuestion();
      }
    }

    /** Saves `choice`, then moves forward one question unless at the last. */
    method Next(choice: string)
      requires Valid() && Active()
      modifies this
      ensures Valid() && Active()
      ensures questionIndex ==
        if old(questionIndex) < |questions| - 1 then old(questionIndex) + 1 else old(questionIndex)
      ensures selectedAnswers == Store(old(selectedAnswers), old(questionIndex), choice)
      ensures score == ScoreAfter(old(score), choice, correctAnswers[old(questionIndex)])
      ensures saves == old(saves) + 1
      ensures questions == old(questions) && correctAnswers == old(correctAnswers)
      ensures timeLeft == old(timeLeft)
    {
      Save(choice);
      if questionIndex < |questions| - 1 {
        questionIndex := questionIndex + 1;
        ShowQuestion();
      }
    }

    /** Empties the session; the countdown value is left as it was. */
    method Reset()
      modifies this
      ensures Valid() && !Active()
      ensures questions == [] && correctAnswers == [] && selectedAnswers == []
      ensures questionIndex == 0 && score == 0 && saves == 0
      ensures timeLeft == old(timeLeft)
    {
      score := 0;
      questionIndex := 0;
      questions, correctAnswers, selectedAnswers := [], [], [];
      saves := 0;
    }

    /** Builds the result view from the current state, then resets the session. */
    method ShowResult() returns (r: Report)
      requires |correctAnswers| == |questions|
      modifies this
      ensures r == ResultOf(old(questions), old(correctAnswers), old(selectedAnswers), old(score))
      ensures Valid() && !Active()
      ensures questions == [] && correctAnswers == [] && selectedAnswers == []
      ensures questionIndex == 0 && score == 0 && saves == 0
      ensures timeLeft == old(timeLeft)
    {
      r := ResultOf(questions, correctAnswers, selectedAnswers, score);
      Reset();
    }

    /** Saves `choice` and finishes the session with its result view. */
    method Submit(choice: string) returns (r: Report)
      requires Valid() && Active()
      modifies this
      ensures r == ResultOf(old(questions), old(correctAnswers),
                            Store(old(selectedAnswers), old(questionIndex), choice),
                            ScoreAfter(old(score), choice, old(correctAnswers)[old(questionIndex)]))
      ensures Valid() && !Active()
      ensures questions == [] && correctAnswers == [] && selectedAnswers == []
      ensures questionIndex == 0 && score == 0 && saves == 0
      ensures timeLeft == old(timeLeft)
    {
      Save(choice);
      r := ShowResult();
    }

    /**
     * One second of the countdown. When the time is used up the current choice
     * is saved and then submitted, which saves it a second time.
     */
    method Tick(choice: string) returns (r: TickOutcome)
      requires Valid() && Active()
      modifies this
      ensures timeLeft == old(timeLeft) - 1
      ensures r.Expired? <==> timeLeft <= 0
      ensures r.Expired? ==>
        && r.report == ResultOf(old(questions), old(correctAnswers),
             Store(Store(old(selectedAnswers), old(questionIndex), choice), old(questionIndex), choice),
             ScoreAfter(ScoreAfter(old(score), choice, old(correctAnswers)[old(questionIndex)]),
                        choice, old(correctAnswers)[old(questionIndex)]))
        && Valid() && !Active()
        && questions == [] && correctAnswers == [] && selectedAnswers == []
        && questionIndex == 0 && score == 0 && saves == 0
      ensures r.Running? ==>
        && r.warning == (timeLeft <= 10)
        && Valid() && Active()
        && questions == old(questions) && correctAnswers == old(correctAnswers)
        && questionIndex == old(questionIndex) && selectedAnswers == old(selectedAnswers)
        && score == old(score) && saves == old(saves)
    {
      timeLeft := timeLeft - 1;
      if timeLeft <= 0 {
        Save(choice);
        var report := Submit(choice);
        r := Expired(report);
      } else {
        r := Running(timeLeft <= 10);
      }
    }

    /**
     * Installs fetched questions and shows the current question. The cursor,
     * the saved answers and the score are kept as they were; if the cursor is
     * past the new questions the result view is shown at once.
     */
    method Load(qs: seq<Question>) returns (r: Option<Report>)
      requires Valid()
      modifies this
      ensures Valid()
      ensures r.None? <==> old(questionIndex) < |qs|
      ensures r.None? ==>
        && questions == qs && questionIndex == old(questionIndex)
        && (forall i :: 0 <= i < |qs| ==> correctAnswers[i] == qs[i].correctAnswer)
        && selectedAnswers == old(selectedAnswers) && score == old(score) && saves == old(saves)
        && timeLeft == if questionIndex == 0 then |qs| * TimePerQuestion else old(timeLeft)
      ensures r.Some? ==>
        && r.value == ResultOf(qs, seq(|qs|, i requires 0 <= i < |qs| => qs[i].correctAnswer),
                               old(selectedAnswers), old(score))
        && !Active() && timeLeft == old(timeLeft)
        && questions == [] && correctAnswers == [] && selectedAnswers == []
        && questionIndex == 0 && score == 0 && saves == 0
    {
      questions := qs;
      correctAnswers := seq(|qs|, i requires 0 <= i < |qs| => qs[i].correctAnswer);
      if questionIndex < |questions| {
        ShowQuestion();
        r := None;
      } else {
        var report := ShowResult();
        r := Some(report);
      }
    }

    /**
     * The Start button: validate the inputs, ask the question bank (its answer
     * is the parameter `fetched`) and, on success, load the questions.
     */
    method Start(rawTopic: string, rawCount: string, fetched: FetchResult) returns (r: StartOutcome)
      requires Valid()
      modifies this
      ensures Valid()
      ensures r.InputRejected? <==> ValidateStart(rawTopic, rawCount).Failure?
      ensures r.InputRejected? ==> r.error == ValidateStart(rawTopic, rawCount).error
      ensures r.FetchFailed? <==> ValidateStart(rawTopic, rawCount).Success? && fetched.HttpFailure?
      ensures r.NoQuestions? <==> ValidateStart(rawTopic, rawCount).Success? && fetched.NoQuestionsAvailable?
      ensures r.InputRejected? || r.FetchFailed? || r.NoQuestions? ==>
        && questions == old(questions) && correctAnswers == old(correctAnswers)
        && questionIndex == old(questionIndex) && selectedAnswers == old(selectedAnswers)
        && score == old(score) && timeLeft == old(timeLeft)
      ensures r.Started? ==>
        && fetched.Fetched? && questions == fetched.questions && Active()
        && questionIndex == old(questionIndex) && selectedAnswers == old(selectedAnswers)
        && score == old(score)
        && timeLeft == if questionIndex == 0 then |questions| * TimePerQuestion else old(timeLeft)
      ensures r.FinishedAtOnce? ==>
        && fetched.Fetched? && old(questionIndex) >= |fetched.questions|
        && r.report == ResultOf(fetched.questions,
             seq(|fetched.questions|, i requires 0 <= i < |fetched.questions| => fetched.questions[i].correctAnswer),
             old(selectedAnswers), old(score))
        && questions == [] && correctAnswers == [] && selectedAnswers == []
        && questionIndex == 0 && score == 0 && timeLeft == old(timeLeft)
    {
      var request := ValidateStart(rawTopic, rawCount);
      if request.Failure? {
        return InputRejected(request.error);
      }
      match fetched
      case HttpFailure => r := FetchFailed;
      case NoQuestionsAvailable => r := NoQuestions;
      case Fetched(qs) =>
        var shown := Load(qs);
        r := if shown.Some? then FinishedAtOnce(shown.value) else Started;
    }
  }
}
