/**
 * Sessions driven through concrete runs, checking what the result view shows.
 * Each method only allocates its own session, so its postcondition is a fact
 * about the run as a whole.
 */
module Scenarios {
  import opened Wrappers
  import opened Decimal
  import opened Helpers
  import opened MockTest

  function Q(text: string, correct: string): Question {
    Question(text, correct, ["Rome", "Madrid", "Berlin"], 2001)
  }

  /** Lets `n` seconds pass without the countdown running out. */
  method RunClock(s: Session, choice: string, n: nat)
    requires s.Valid() && s.Active() && s.timeLeft > n
    modifies s
    ensures s.Valid() && s.Active() && s.timeLeft == old(s.timeLeft) - n
    ensures s.questions == old(s.questions) && s.correctAnswers == old(s.correctAnswers)
    ensures s.questionIndex == old(s.questionIndex) && s.selectedAnswers == old(s.selectedAnswers)
    ensures s.score == old(s.score)
  {
    var k := 0;
    while k < n
      invariant 0 <= k <= n
      invariant s.Valid() && s.Active() && s.timeLeft == old(s.timeLeft) - k
      invariant s.questions == old(s.questions) && s.correctAnswers == old(s.correctAnswers)
      invariant s.questionIndex == old(s.questionIndex) && s.selectedAnswers == old(s.selectedAnswers)
      invariant s.score == old(s.score)
    {
      var _ := s.Tick(choice);
      k := k + 1;
    }
  }

  method StartWith(qs: seq<Question>, rawCount: string) returns (s: Session)
    requires qs != [] && ValidateStart("JEE", rawCount).Success?
    ensures fresh(s) && s.Valid() && s.Active()
    ensures s.questions == qs && s.questionIndex == 0 && s.selectedAnswers == [] && s.score == 0
    ensures s.timeLeft == |qs| * TimePerQuestion
  {
    s := new Session();
    var o := s.Start("JEE", rawCount, Fetched(qs));
  }

  /** The subject box's "JEE" is accepted with any plain positive count. */
  lemma JeeAccepted(rawCount: string)
    requires IsDigitString(rawCount) && Value(rawCount) > 0
    ensures ValidateStart("JEE", rawCount) == Success(StartRequest("jee", Value(rawCount), 17))
  {
    assert Lower("JEE") == "jee";
    SubjectAccepted("JEE", rawCount);
  }

  /** One question answered correctly and submitted: one point, lowest tier. */
  method OneCorrectAnswer() returns (r: Report)
    ensures r.score == 1 && r.total == |r.entries| == 1
    ensures r.entries[0].colour == Green && r.entries[0].answer == "Paris"
    ensures r.suggestion == NeedPractice
  {
    JeeAccepted("1");
    var s := StartWith([Q("Capital of France?", "Paris")], "1");
    r := s.Submit("Paris");
  }

  /**
   * Three questions: the first answered correctly, the second passed over with
   * nothing picked, the third submitted with nothing picked. Passing over a
   * question saves "", so it is shown as wrong, not as unanswered.
   */
  method SkippedQuestionIsWrong() returns (r: Report)
    ensures r.score == 1 && r.total == |r.entries| == 3
    ensures r.entries[0].colour == Green && r.entries[1].colour == Red && r.entries[2].colour == Red
  {
    JeeAccepted("3");
    var s := StartWith([Q("Capital of France?", "Paris"), Q("Largest planet?", "Jupiter"),
                        Q("Boiling point of water?", "100")], "3");
    s.Next("Paris");
    s.Next("");
    r := s.Submit("");
  }

  /**
   * Five questions, two answered correctly, and the countdown runs out on the
   * third: the third is saved (empty) and shown as wrong, the last two were
   * never saved and are shown as unanswered.
   */
  method TimeoutMidSession() returns (r: Report)
    ensures r.score == 2 && r.total == |r.entries| == 5
    ensures r.entries[0].colour == Green && r.entries[1].colour == Green
    ensures r.entries[2].colour == Red
    ensures r.entries[3].colour == Black && r.entries[4].colour == Black
  {
    JeeAccepted("5");
    var s := StartWith([Q("a?", "A"), Q("b?", "B"), Q("c?", "C"), Q("d?", "D"), Q("e?", "E")], "5");
    s.Next("A");
    s.Next("B");
    RunClock(s, "", 299);
    var o := s.Tick("");
    r := o.report;
  }

  /**
   * One question answered correctly and left until the countdown ends: the
   * answer is saved on expiry and again by the submission, so the view shows
   * a score of 2 out of 1.
   */
  method TimeoutCountsTwice() returns (r: Report)
    ensures r.score == 2 && r.total == |r.entries| == 1
    ensures r.entries[0].colour == Green
  {
    JeeAccepted("1");
    var s := StartWith([Q("Capital of France?", "Paris")], "1");
    RunClock(s, "Paris", 59);
    var o := s.Tick("Paris");
    r := o.report;
  }

  /**
   * Two questions: the first answered correctly, revisited and passed again.
   * The same answer is counted on each pass, and going back to the first
   * question restarts the countdown.
   */
  method RevisitCountsTwice() returns (r: Report, clockAfterReturn: int)
    ensures r.score == 2 && r.total == |r.entries| == 2
    ensures r.entries[0].colour == Green && r.entries[1].colour == Red
    ensures clockAfterReturn == 120
  {
    JeeAccepted("2");
    var s := StartWith([Q("Capital of France?", "Paris"), Q("Largest planet?", "Jupiter")], "2");
    s.Next("Paris");
    RunClock(s, "", 30);
    s.Previous();
    clockAfterReturn := s.timeLeft;
    s.Next("Paris");
    r := s.Submit("");
  }

  /** A finished session leaves nothing behind: the next start begins afresh. */
  method RestartAfterSubmit() returns (index: int, answers: seq<string>, score: int, clock: int)
    ensures index == 0 && answers == [] && score == 0 && clock == 60
  {
    JeeAccepted("2");
    JeeAccepted("1");
    var s := StartWith([Q("Capital of France?", "Paris"), Q("Largest planet?", "Jupiter")], "2");
    s.Next("Paris");
    var _ := s.Submit("Jupiter");
    var o := s.Start("JEE", "1", Fetched([Q("Boiling point of water?", "100")]));
    index, answers, score, clock := s.questionIndex, s.selectedAnswers, s.score, s.timeLeft;
  }

  /**
   * Three questions: the first answered correctly, the second wrongly, the
   * third shown and then left with Previous, which saves nothing. When the
   * countdown runs out on the second question the third was never saved and
   * is shown black although it was on screen.
   */
  method LeftWithPreviousIsBlack() returns (r: Report)
    ensures r.score == 1 && r.total == |r.entries| == 3
    ensures r.entries[0].colour == Green && r.entries[1].colour == Red
    ensures r.entries[2].colour == Black
  {
    JeeAccepted("3");
    var s := StartWith([Q("a?", "A"), Q("b?", "B"), Q("c?", "C")], "3");
    s.Next("A");
    s.Next("X");
    s.Previous();
    RunClock(s, "A", 179);
    var o := s.Tick("A");
    r := o.report;
  }
}
