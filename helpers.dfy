/**
 * The expression-only pieces of the mock-test application: the timer text, the
 * suggestion tiers, the colour of each answer in the result view, the result
 * view itself, and the checks applied to the start inputs.
 */
module Helpers {
  import opened Wrappers
  import opened Decimal

  /** One question record as delivered by the question bank (text already decoded). */
  datatype Question = Question(
    text: string,
    correctAnswer: string,
    incorrectAnswers: seq<string>,
    year: int)  // decorative year attached on fetch; never interpreted

  // ---------------------------------------------------------------------------
  // The timer text
  // ---------------------------------------------------------------------------

  /**
   * Python's `format(n, '02')`: zero-padded to two characters; a negative
   * number is its sign followed by its digits, already two characters wide.
   */
  function Pad2(n: int): (r: string)
    ensures |r| >= 2
    ensures n >= 0 ==> AllDigits(r) && Value(r) == n && (n < 100 ==> |r| == 2)
    ensures n < 0 ==> r[0] == '-' && AllDigits(r[1..]) && Value(r[1..]) == -n
  {
    if n < 0 then
      var d := Digits(-n);
      ValueOfDigits(-n);
      assert ("-" + d)[1..] == d;
      "-" + d
    else if n < 10 then
      ValueOfDigits(n);
      LeadingZero(Digits(n));
      "0" + Digits(n)
    else
      ValueOfDigits(n);
      Digits(n)
  }

  /**
   * The `MM:SS` text of the countdown. Dafny's `/` and `%` by the positive
   * constant 60 agree with Python's `//` and `%` on every integer, so the
   * seconds field is always two digits and a negative count gives a negative
   * minutes field.
   */
  function FormatTime(seconds: int): (r: string)
    ensures |r| >= 5 && r[|r| - 3] == ':' && AllDigits(r[|r| - 2..])
    ensures r[0] == '-' <==> seconds < 0
  {
    var m, sec := Pad2(seconds / 60), Pad2(seconds % 60);
    var t := m + ":" + sec;
    assert t[|t| - 2..] == sec;
    assert t[0] == m[0];
    t
  }

  /** Reads a timer text back: minutes, a colon, and exactly two second digits below 60. */
  function ParseTime(t: string): Option<nat> {
    if |t| < 4 then None
    else
      var k := |t| - 3;
      if t[k] == ':' && AllDigits(t[..k]) && AllDigits(t[k + 1..]) && Value(t[k + 1..]) < 60
      then Some(Value(t[..k]) * 60 + Value(t[k + 1..]))
      else None
  }

  /**
   * For a non-negative count of seconds the text is the minutes, a colon and
   * the two-digit seconds, with seconds below 60; below 100 minutes it is
   * exactly five characters.
   */
  lemma FormatTimeShape(s: nat)
    ensures var t := FormatTime(s);
      var k := |t| - 3;
      k >= 2 && t[k] == ':' &&
      AllDigits(t[..k]) && Value(t[..k]) == s / 60 &&
      AllDigits(t[k + 1..]) && Value(t[k + 1..]) == s % 60 && s % 60 < 60 &&
      (s < 6000 ==> |t| == 5)
  {
    var m, sec := s / 60, s % 60;
    var t := FormatTime(s);
    assert t == Pad2(m) + ":" + Pad2(sec);
    var k := |Pad2(m)|;
    assert t[..k] == Pad2(m);
    assert t[k + 1..] == Pad2(sec);
  }

  /** The timer text of a non-negative count reads back as that count. */
  lemma FormatTimeRoundTrip(s: nat)
    ensures ParseTime(FormatTime(s)) == Some(s)
  {
    FormatTimeShape(s);
  }

  /**
   * A negative count (never shown by a running session) renders as Python
   * renders it: `-M:SS` with `SS - M * 60 == s` and `0 <= SS < 60`, so
   * minus one second is `-1:59`.
   */
  lemma FormatTimeNegative(s: int)
    requires s < 0
    ensures var t := FormatTime(s);
      var k := |t| - 3;
      k >= 2 && t[0] == '-' && t[k] == ':' &&
      AllDigits(t[1..k]) && AllDigits(t[k + 1..]) && Value(t[k + 1..]) < 60 &&
      Value(t[k + 1..]) - Value(t[1..k]) * 60 == s
  {
    var m, sec := s / 60, s % 60;
    assert m * 60 + sec == s && m < 0 && 0 <= sec < 60;
    var pm, ps := Pad2(m), Pad2(sec);
    var t := FormatTime(s);
    assert t == pm + ":" + ps;
    var k := |pm|;
    assert t[1..k] == pm[1..];
    assert t[k + 1..] == ps;
    assert Value(pm[1..]) == -m && Value(ps) == sec;
    assert AllDigits(t[1..k]) && AllDigits(t[k + 1..]);
    assert Value(t[1..k]) == -m && Value(t[k + 1..]) == sec;
    assert Value(t[k + 1..]) - Value(t[1..k]) * 60 == s;
  }

  /** Minus one second, as Python prints it. */
  lemma FormatTimeMinusOne()
    ensures FormatTime(-1) == "-1:59"
  {
  }

  // ---------------------------------------------------------------------------
  // The suggestion
  // ---------------------------------------------------------------------------

  const Excellent := "Excellent!"
  const GoodJob := "Good job! Keep practicing."
  const NeedPractice := "You need more practice."

  /** The three-tier label of a score; the cut-offs do not depend on the number of questions. */
  function Suggestion(score: int): (r: string)
    ensures r == Excellent <==> score > 7
    ensures r == GoodJob <==> 4 < score <= 7
    ensures r == NeedPractice <==> score <= 4
  {
    if score > 7 then Excellent
    else if score > 4 then GoodJob
    else NeedPractice
  }

  // ---------------------------------------------------------------------------
  // The result view
  // ---------------------------------------------------------------------------

  /** Colour of an answer line: correct, wrong, or never saved. */
  datatype AnswerColour = Green | Red | Black

  /** The colour of question `idx` given the answers saved so far. */
  function Classify(correctAnswers: seq<string>, selected: seq<string>, idx: nat): (c: AnswerColour)
    requires idx < |correctAnswers|
    ensures c == Green <==> idx < |selected| && selected[idx] == correctAnswers[idx]
    ensures c == Red <==> idx < |selected| && selected[idx] != correctAnswers[idx]
    ensures c == Black <==> idx >= |selected|
  {
    if idx < |selected| then
      if correctAnswers[idx] == selected[idx] then Green else Red
    else Black
  }

  /** One line of the result view: the question, its correct answer and the colour. */
  datatype Entry = Entry(question: Question, answer: string, colour: AnswerColour)

  /** The result view: counted score, question total, one entry per question, suggestion. */
  datatype Report = Report(score: int, total: nat, entries: seq<Entry>, suggestion: string)

  function ResultOf(questions: seq<Question>, correctAnswers: seq<string>,
                    selected: seq<string>, score: int): (r: Report)
    requires |correctAnswers| == |questions|
    ensures r.total == |questions| == |r.entries| && r.score == score
    ensures forall i :: 0 <= i < |r.entries| ==>
      && r.entries[i].question == questions[i]
      && r.entries[i].answer == correctAnswers[i]
    ensures forall i :: 0 <= i < |r.entries| ==>
      && (r.entries[i].colour == Green <==> i < |selected| && selected[i] == correctAnswers[i])
      && (r.entries[i].colour == Red <==> i < |selected| && selected[i] != correctAnswers[i])
      && (r.entries[i].colour == Black <==> i >= |selected|)
    ensures r.suggestion == Excellent <==> score > 7
    ensures r.suggestion == GoodJob <==> 4 < score <= 7
    ensures r.suggestion == NeedPractice <==> score <= 4
  {
    Report(score, |questions|,
      seq(|questions|, i requires 0 <= i < |questions| =>
        Entry(questions[i], correctAnswers[i], Classify(correctAnswers, selected, i))),
      Suggestion(score))
  }

  /** How many of `entries` have colour `colour`. */
  function CountEntries(entries: seq<Entry>, colour: AnswerColour): nat {
    if entries == [] then 0
    else CountEntries(entries[..|entries| - 1], colour)
         + (if entries[|entries| - 1].colour == colour then 1 else 0)
  }

  /** How many of the first `n` questions get colour `colour`. */
  function CountColour(correctAnswers: seq<string>, selected: seq<string>,
                       colour: AnswerColour, n: nat): nat
    requires n <= |correctAnswers|
  {
    if n == 0 then 0
    else CountColour(correctAnswers, selected, colour, n - 1)
         + (if Classify(correctAnswers, selected, n - 1) == colour then 1 else 0)
  }

  /** The number of questions whose saved answer is correct (what the view shows in green). */
  function CorrectCount(correctAnswers: seq<string>, selected: seq<string>): nat {
    CountColour(correctAnswers, selected, Green, |correctAnswers|)
  }

  /** Every question gets exactly one of the three colours. */
  lemma {:induction false} ColoursPartition(correctAnswers: seq<string>, selected: seq<string>, n: nat)
    requires n <= |correctAnswers|
    ensures CountColour(correctAnswers, selected, Green, n)
          + CountColour(correctAnswers, selected, Red, n)
          + CountColour(correctAnswers, selected, Black, n) == n
  {
    if n > 0 {
      ColoursPartition(correctAnswers, selected, n - 1);
    }
  }

  /** The black (unanswered) lines are exactly the questions past the saved answers. */
  lemma {:induction false} UnansweredCount(correctAnswers: seq<string>, selected: seq<string>, n: nat)
    requires n <= |correctAnswers|
    ensures CountColour(correctAnswers, selected, Black, n)
            == if n <= |selected| then 0 else n - |selected|
  {
    if n > 0 {
      UnansweredCount(correctAnswers, selected, n - 1);
    }
  }

  /** The green lines never outnumber the saved answers nor the questions. */
  lemma CorrectCountBound(correctAnswers: seq<string>, selected: seq<string>)
    ensures CorrectCount(correctAnswers, selected) <= |correctAnswers|
    ensures CorrectCount(correctAnswers, selected) <= |selected|
  {
    ColoursPartition(correctAnswers, selected, |correctAnswers|);
    UnansweredCount(correctAnswers, selected, |correctAnswers|);
  }

  /** Each colour appears in the first `n` lines of the view as often as `CountColour` says. */
  lemma {:induction false} ReportPrefixCounts(questions: seq<Question>, correctAnswers: seq<string>,
                                              selected: seq<string>, score: int,
                                              colour: AnswerColour, n: nat)
    requires |correctAnswers| == |questions| && n <= |questions|
    ensures CountEntries(ResultOf(questions, correctAnswers, selected, score).entries[..n], colour)
            == CountColour(correctAnswers, selected, colour, n)
  {
    if n > 0 {
      var es := ResultOf(questions, correctAnswers, selected, score).entries;
      assert es[..n][..n - 1] == es[..n - 1];
      ReportPrefixCounts(questions, correctAnswers, selected, score, colour, n - 1);
    }
  }

  /**
   * The result view shows as many green lines as there are correctly saved
   * answers, and one black line for each question beyond the saved answers.
   */
  lemma ReportCounts(questions: seq<Question>, correctAnswers: seq<string>,
                     selected: seq<string>, score: int)
    requires |correctAnswers| == |questions|
    ensures var es := ResultOf(questions, correctAnswers, selected, score).entries;
      && CountEntries(es, Green) == CorrectCount(correctAnswers, selected)
      && CountEntries(es, Black) == (if |questions| <= |selected| then 0 else |questions| - |selected|)
      && CountEntries(es, Green) + CountEntries(es, Red) + CountEntries(es, Black) == |questions|
  {
    var es := ResultOf(questions, correctAnswers, selected, score).entries;
    assert es[..|questions|] == es;
    ReportPrefixCounts(questions, correctAnswers, selected, score, Green, |questions|);
    ReportPrefixCounts(questions, correctAnswers, selected, score, Red, |questions|);
    ReportPrefixCounts(questions, correctAnswers, selected, score, Black, |questions|);
    ColoursPartition(correctAnswers, selected, |questions|);
    UnansweredCount(correctAnswers, selected, |questions|);
  }

  // ---------------------------------------------------------------------------
  // The start inputs
  // ---------------------------------------------------------------------------

  /** ASCII lower-casing (the part of `str.lower` the subject names need). */
  function LowerChar(c: char): (r: char)
    ensures !('A' <= r <= 'Z')
    ensures 'A' <= c <= 'Z' ==> 'a' <= r <= 'z' && r as int - 'a' as int == c as int - 'A' as int
    ensures !('A' <= c <= 'Z') ==> r == c
  {
    if 'A' <= c <= 'Z' then (c as int + 32) as char else c
  }

  function Lower(s: string): (r: string)
    ensures |r| == |s|
    ensures forall i :: 0 <= i < |r| ==> !('A' <= r[i] <= 'Z')
    ensures forall i :: 0 <= i < |s| && !('A' <= s[i] <= 'Z') ==> r[i] == s[i]
    ensures forall i :: 0 <= i < |s| && 'A' <= s[i] <= 'Z' ==> r[i] as int == s[i] as int + 32
  {
    seq(|s|, i requires 0 <= i < |s| => LowerChar(s[i]))
  }

  /** Lower-casing twice is lower-casing once. */
  lemma LowerIdempotent(s: string)
    ensures Lower(Lower(s)) == Lower(s)
  {
  }

  /** Lower-casing is its own check: a string without capitals is its own lower case. */
  lemma LowerFixesLowercase(s: string)
    requires forall i :: 0 <= i < |s| ==> !('A' <= s[i] <= 'Z')
    ensures Lower(s) == s
  {
  }

  /** Subject name to question-bank category. */
  const TopicCategories: map<string, nat> := map["jee" := 17, "neet" := 17, "civil services" := 23]

  datatype InputError = NoTopic | BadCount | UnknownTopic

  /** A validated start: the lower-cased subject, the requested count and the category. */
  datatype StartRequest = StartRequest(topic: string, count: nat, category: nat)

  /**
   * The checks made before any question is requested, in the source's order:
   * the placeholder subject, then the count, then the subject table.
   */
  function ValidateStart(rawTopic: string, rawCount: string): (r: Result<StartRequest, InputError>)
    ensures var topic := Lower(rawTopic);
      && (r == Failure(NoTopic) <==> topic == "select")
      && (r == Failure(BadCount) <==>
            topic != "select" && !(IsDigitString(rawCount) && Value(rawCount) > 0))
      && (r == Failure(UnknownTopic) <==>
            topic != "select" && IsDigitString(rawCount) && Value(rawCount) > 0
            && topic !in {"jee", "neet", "civil services"})
    ensures r.Success? ==>
      && r.value.topic == Lower(rawTopic)
      && IsDigitString(rawCount) && r.value.count == Value(rawCount) > 0
      && r.value.category == (if r.value.topic == "civil services" then 23 else 17)
  {
    var topic := Lower(rawTopic);
    if topic == "select" then Failure(NoTopic)
    else if !IsDigitString(rawCount) || Value(rawCount) <= 0 then Failure(BadCount)
    else if topic !in TopicCategories then Failure(UnknownTopic)
    else Success(StartRequest(topic, Value(rawCount), TopicCategories[topic]))
  }

  /** The subject is matched without regard to ASCII case. */
  lemma ValidateStartIgnoresCase(rawTopic: string, otherTopic: string, rawCount: string)
    requires Lower(rawTopic) == Lower(otherTopic)
    ensures ValidateStart(rawTopic, rawCount) == ValidateStart(otherTopic, rawCount)
  {
  }

  /** The subject table has exactly the three subjects, with their categories. */
  lemma TopicTable()
    ensures TopicCategories.Keys == {"jee", "neet", "civil services"}
    ensures TopicCategories["jee"] == TopicCategories["neet"] == 17
    ensures TopicCategories["civil services"] == 23
  {
  }

  /** Every listed subject, in any ASCII case, with a positive digit count is accepted. */
  lemma SubjectAccepted(rawTopic: string, rawCount: string)
    requires Lower(rawTopic) in {"jee", "neet", "civil services"}
    requires IsDigitString(rawCount) && Value(rawCount) > 0
    ensures ValidateStart(rawTopic, rawCount)
            == Success(StartRequest(Lower(rawTopic), Value(rawCount),
                                    if Lower(rawTopic) == "civil services" then 23 else 17))
  {
  }
}
