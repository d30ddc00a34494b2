/** Worked submissions against the demo topic: a theory step, a case step, one quiz step
    with two questions (correct options 1 and 2) and a self-test step. */
module SeedScenarios {
  import opened Schemas
  import opened QuizExtraction
  import opened SelftestScoring

  const FirstQuestion: QuizQuestion :=
    QuizQuestion(None, "x = \"2\"; y = 3; x * y", ["6", "222", "23", "Error"], 1, Apply, Some("string repetition"))

  const SecondQuestion: QuizQuestion :=
    QuizQuestion(None, "comparing floating point", ["==", "round first", "epsilon", "int"], 2, Analyze, Some("use a tolerance"))

  const SeedTopic: Topic := Topic(
    "Python basics", "theory, case, quiz, self-test", ["programming", "python", "beginner"], 25,
    [ NewStep(Theory, "Variables", content := Some("variables hold values")),
      NewStep(Case, "Average", casePrompt := Some("average a list of marks")),
      NewStep(Quiz, "Quiz 1", quizQuestions := Some([FirstQuestion, SecondQuestion])),
      NewStep(Selftest, "Self-test", content := Some("answer every quiz question")) ])

  const SeedDoc: TopicDoc := StoredTopic("seed", SeedTopic)

  lemma {:induction false} SeedExtraction()
    ensures Extract(TopicSteps(SeedDoc)) == [FirstQuestion, SecondQuestion]
  {
    var steps := SeedTopic.steps;
    assert Extract(steps[3..]) == [] by {
      assert Extract(steps[3..]) == StepQuestions(steps[3]) + Extract(steps[4..]);
    }
    assert Extract(steps[2..]) == [FirstQuestion, SecondQuestion] + Extract(steps[3..]);
    assert Extract(steps[1..]) == Extract(steps[2..]);
  }

  /** Both answers right: two correct out of two, 100%. */
  lemma ScenarioAllCorrect()
    ensures Grade(Some(SeedDoc), "seed", [1, 2]).Ok?
    ensures Grade(Some(SeedDoc), "seed", [1, 2]).value.correct == 2
    ensures Grade(Some(SeedDoc), "seed", [1, 2]).value.attempt.totalQuestions == 2
    ensures Grade(Some(SeedDoc), "seed", [1, 2]).value.attempt.scoreHundredths == 10000
  {
    SeedExtraction();
    var qs := [FirstQuestion, SecondQuestion];
    assert MatchCount(qs, [1, 2]) == 1 + MatchCount(qs[1..], [2]) == 2 + MatchCount([], []);
    ScoreExtremes(2, 2);
  }

  /** First answer wrong: one correct, 50%, and the first entry records option 0 as chosen. */
  lemma ScenarioOneWrong()
    ensures Grade(Some(SeedDoc), "seed", [0, 2]).Ok?
    ensures Grade(Some(SeedDoc), "seed", [0, 2]).value.correct == 1
    ensures Grade(Some(SeedDoc), "seed", [0, 2]).value.attempt.scoreHundredths == 5000
    ensures Grade(Some(SeedDoc), "seed", [0, 2]).value.attempt.answers[0]
      == AnswerDetail(FirstQuestion.question, Some(0), 1, false, Apply, FirstQuestion.explanation)
  {
    SeedExtraction();
    var qs := [FirstQuestion, SecondQuestion];
    assert MatchCount(qs, [0, 2]) == MatchCount(qs[1..], [2]) == 1 + MatchCount([], []);
  }

  /** One answer for two questions: the second is unanswered, not answered with option 0. */
  lemma ScenarioShortAnswers()
    ensures Grade(Some(SeedDoc), "seed", [1]).Ok?
    ensures Grade(Some(SeedDoc), "seed", [1]).value.correct == 1
    ensures Grade(Some(SeedDoc), "seed", [1]).value.attempt.scoreHundredths == 5000
    ensures Grade(Some(SeedDoc), "seed", [1]).value.attempt.answers[1].chosen == None
    ensures !Grade(Some(SeedDoc), "seed", [1]).value.attempt.answers[1].isCorrect
  {
    SeedExtraction();
  }

  /** A topic without a quiz step is refused before anything is scored. */
  lemma ScenarioNoQuiz()
    ensures Grade(Some(StoredTopic("t", Topic("t", "d", [], 10, [SeedTopic.steps[0]]))), "t", [1]) == Err(NoQuizQuestions)
  {
  }
}
