/** The records of the microlearning store: topics made of ordered steps, the quiz
    questions embedded in quiz steps, and the self-test attempt records. */
module Schemas {

  datatype Option<+T> = None | Some(value: T) {
    /** The wrapped value, or `default` when absent. */
    function GetOr(default: T): T {
      match this
      case Some(v) => v
      case None => default
    }
  }

  datatype Result<+T, +E> = Ok(value: T) | Err(error: E)

  /** Bloom's-taxonomy level of a question. */
  datatype HotsLevel = Remember | Understand | Apply | Analyze | Evaluate | Create

  /** The level a question gets when none is given. */
  const DefaultHotsLevel: HotsLevel := Understand

  /** A multiple-choice question. `correctIndex` is never negative, but nothing ties it to
      the number of options. */
  datatype QuizQuestion = QuizQuestion(
    id: Option<string>,
    question: string,
    options: seq<string>,
    correctIndex: nat,
    hotsLevel: HotsLevel,
    explanation: Option<string>)

  datatype StepType = Theory | Case | Quiz | Selftest

  /** One step of a topic. Every step carries every optional field; only a quiz step's
      `quizQuestions` is ever read when scoring. `None` and `Some([])` are distinct values. */
  datatype Step = Step(
    kind: StepType,
    title: string,
    content: Option<string>,
    casePrompt: Option<string>,
    quizQuestions: Option<seq<QuizQuestion>>)

  datatype Topic = Topic(
    title: string,
    description: string,
    tags: seq<string>,
    estimatedMinutes: int,
    steps: seq<Step>)

  /** A topic as the document store hands it back: an identifier, and top-level fields
      that a document need not carry. */
  datatype TopicDoc = TopicDoc(
    id: string,
    title: Option<string>,
    description: Option<string>,
    tags: Option<seq<string>>,
    estimatedMinutes: Option<int>,
    steps: Option<seq<Step>>)

  /** One entry of an attempt's per-question report. `chosen` is `None` when no answer was
      submitted for the question. */
  datatype AnswerDetail = AnswerDetail(
    question: string,
    chosen: Option<int>,
    correctIndex: nat,
    isCorrect: bool,
    hotsLevel: HotsLevel,
    explanation: Option<string>)

  /** A stored self-test attempt. The score is kept in hundredths of a percent. */
  datatype SelftestAttempt = SelftestAttempt(
    topicId: string,
    scoreHundredths: nat,
    totalQuestions: nat,
    answers: seq<AnswerDetail>,
    userId: Option<string>)

  datatype ValidationError = NegativeCorrectIndex(given: int)

  /** Validation of a question: a negative correct index is refused, an index past the
      options is not, and a missing level becomes the default. */
  function NewQuizQuestion(
    question: string, options: seq<string>, correctIndex: int,
    hotsLevel: Option<HotsLevel> := None, explanation: Option<string> := None,
    id: Option<string> := None): (r: Result<QuizQuestion, ValidationError>)
    ensures r.Ok? <==> correctIndex >= 0
    ensures r.Err? ==> r.error == NegativeCorrectIndex(correctIndex)
    ensures r.Ok? ==> r.value.correctIndex == correctIndex && r.value.options == options
    ensures r.Ok? ==> r.value.question == question && r.value.explanation == explanation && r.value.id == id
    ensures r.Ok? ==> r.value.hotsLevel == (if hotsLevel.Some? then hotsLevel.value else Understand)
  {
    if correctIndex < 0 then Err(NegativeCorrectIndex(correctIndex))
    else Ok(QuizQuestion(id, question, options, correctIndex, hotsLevel.GetOr(DefaultHotsLevel), explanation))
  }

  /** A step; an optional field left out is absent, so a question list left out is absent
      rather than empty. */
  function NewStep(
    kind: StepType, title: string, content: Option<string> := None,
    casePrompt: Option<string> := None, quizQuestions: Option<seq<QuizQuestion>> := None): (s: Step)
    ensures s.kind == kind && s.title == title
    ensures s.content == content && s.casePrompt == casePrompt && s.quizQuestions == quizQuestions
    ensures quizQuestions.None? ==> s.quizQuestions != Some([])
  {
    Step(kind, title, content, casePrompt, quizQuestions)
  }

  /** A topic with the defaults filled in: no tags, ten minutes, no steps. */
  function NewTopic(
    title: string, description: string,
    tags: Option<seq<string>> := None, estimatedMinutes: Option<int> := None,
    steps: Option<seq<Step>> := None): (t: Topic)
    ensures t.title == title && t.description == description
    ensures tags.None? ==> t.tags == []
    ensures estimatedMinutes.None? ==> t.estimatedMinutes == 10
    ensures steps.None? ==> t.steps == []
    ensures tags.Some? ==> t.tags == tags.value
    ensures estimatedMinutes.Some? ==> t.estimatedMinutes == estimatedMinutes.value
    ensures steps.Some? ==> t.steps == steps.value
  {
    Topic(title, description, tags.GetOr([]), estimatedMinutes.GetOr(10), steps.GetOr([]))
  }

  /** An attempt with the defaults filled in: an empty report and no user. */
  function NewSelftestAttempt(
    topicId: string, scoreHundredths: nat, totalQuestions: nat,
    answers: Option<seq<AnswerDetail>> := None, userId: Option<string> := None): (a: SelftestAttempt)
    ensures a.topicId == topicId && a.scoreHundredths == scoreHundredths
    ensures a.totalQuestions == totalQuestions && a.userId == userId
    ensures answers.None? ==> a.answers == []
    ensures answers.Some? ==> a.answers == answers.value
  {
    SelftestAttempt(topicId, scoreHundredths, totalQuestions, answers.GetOr([]), userId)
  }

  /** The document the store holds after a topic is created under `id`: every field present. */
  function StoredTopic(id: string, t: Topic): (d: TopicDoc)
    ensures d.id == id
    ensures d.title == Some(t.title) && d.description == Some(t.description)
    ensures d.tags == Some(t.tags) && d.estimatedMinutes == Some(t.estimatedMinutes)
    ensures d.steps == Some(t.steps)
  {
    TopicDoc(id, Some(t.title), Some(t.description), Some(t.tags), Some(t.estimatedMinutes), Some(t.steps))
  }
}
