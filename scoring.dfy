/** The self-test scoring engine: answers are paired with the extracted questions by
    position, each pair is judged, the correct ones are counted, the score is rounded to
    hundredths of a percent, and one attempt record is stored per successful submission. */
module SelftestScoring {
  import opened Schemas
  import opened QuizExtraction

  // ---------------------------------------------------------------------------
  // Positional pairing and judging
  // ---------------------------------------------------------------------------

  /** The answer submitted for position `i`, or `None` past the end of the answers:
      a missing answer is never read as option 0. */
  function ChosenAt(answers: seq<int>, i: nat): Option<int> {
    if i < |answers| then Some(answers[i]) else None
  }

  /** The report entry for one question and the answer paired with it. */
  function Judge(q: QuizQuestion, chosen: Option<int>): AnswerDetail {
    AnswerDetail(q.question, chosen, q.correctIndex, chosen == Some(q.correctIndex), q.hotsLevel, q.explanation)
  }

  /** The report for a whole submission, one entry per question, in question order. */
  function Details(questions: seq<QuizQuestion>, answers: seq<int>): (r: seq<AnswerDetail>)
    ensures |r| == |questions|
    ensures forall i :: 0 <= i < |r| ==> r[i].question == questions[i].question && r[i].correctIndex == questions[i].correctIndex
    ensures forall i :: 0 <= i < |r| ==> (r[i].chosen == None <==> i >= |answers|)
    ensures forall i :: 0 <= i < |r| ==> (r[i].isCorrect <==> i < |answers| && answers[i] == questions[i].correctIndex)
  {
    seq(|questions|, i requires 0 <= i < |questions| => Judge(questions[i], ChosenAt(answers, i)))
  }

  /** How many entries of a report are marked correct. */
  function CountCorrect(details: seq<AnswerDetail>): (n: nat)
    ensures n <= |details|
  {
    if details == [] then 0
    else CountCorrect(details[..|details| - 1]) + (if details[|details| - 1].isCorrect then 1 else 0)
  }

  /** The count reaches the number of entries exactly when every entry is correct, and is
      zero exactly when none is. */
  lemma {:induction false} CountCorrectExtremes(details: seq<AnswerDetail>)
    ensures CountCorrect(details) == |details| <==> forall i :: 0 <= i < |details| ==> details[i].isCorrect
    ensures CountCorrect(details) == 0 <==> forall i :: 0 <= i < |details| ==> !details[i].isCorrect
  {
    if details != [] {
      var init := details[..|details| - 1];
      CountCorrectExtremes(init);
      assert forall i :: 0 <= i < |init| ==> init[i] == details[i];
    }
  }

  /** Reference count, independent of the report: walk questions and answers together and
      count the positions where the answer equals the correct index. */
  function MatchCount(questions: seq<QuizQuestion>, answers: seq<int>): nat {
    if questions == [] || answers == [] then 0
    else (if answers[0] == questions[0].correctIndex then 1 else 0) + MatchCount(questions[1..], answers[1..])
  }

  /** Entry `i` of the report pairs question `i` with answer `i` when there is one and with
      no answer otherwise, and is correct exactly when that answer equals the correct index. */
  lemma PositionalPairing(questions: seq<QuizQuestion>, answers: seq<int>, i: nat)
    requires i < |questions|
    ensures |Details(questions, answers)| == |questions|
    ensures Details(questions, answers)[i].question == questions[i].question
    ensures Details(questions, answers)[i].correctIndex == questions[i].correctIndex
    ensures Details(questions, answers)[i].hotsLevel == questions[i].hotsLevel
    ensures Details(questions, answers)[i].explanation == questions[i].explanation
    ensures i < |answers| ==> Details(questions, answers)[i].chosen == Some(answers[i])
    ensures i >= |answers| ==> Details(questions, answers)[i].chosen == None
    ensures Details(questions, answers)[i].isCorrect <==> i < |answers| && answers[i] == questions[i].correctIndex
  {
  }

  /** Answers past the last question are never consulted. */
  lemma ExtraAnswersIgnored(questions: seq<QuizQuestion>, answers: seq<int>, extra: seq<int>)
    requires |answers| >= |questions|
    ensures Details(questions, answers + extra) == Details(questions, answers)
  {
  }

  /** A question whose correct index lies past its options cannot be answered correctly by
      choosing any of the options. */
  lemma OutOfRangeIndexUnreachable(q: QuizQuestion, choice: int)
    requires q.correctIndex >= |q.options|
    requires 0 <= choice < |q.options|
    ensures !Judge(q, Some(choice)).isCorrect
    ensures Judge(q, Some(q.correctIndex)).isCorrect
  {
  }

  /** Dropping the first question and the first answer (if any) drops the first entry. */
  lemma DetailsCons(questions: seq<QuizQuestion>, answers: seq<int>)
    requires questions != []
    ensures Details(questions, answers)
      == [Judge(questions[0], ChosenAt(answers, 0))]
         + Details(questions[1..], if answers == [] then [] else answers[1..])
  {
  }

  lemma {:induction false} CountCorrectCons(x: AnswerDetail, details: seq<AnswerDetail>)
    ensures CountCorrect([x] + details) == (if x.isCorrect then 1 else 0) + CountCorrect(details)
  {
    if details != [] {
      var d := details[..|details| - 1];
      assert ([x] + details)[..|details|] == [x] + d;
      CountCorrectCons(x, d);
    }
  }

  /** The number of entries marked correct is the number of positions where the submitted
      answer equals the question's correct index. */
  lemma {:induction false} CorrectCountIsMatchCount(questions: seq<QuizQuestion>, answers: seq<int>)
    ensures CountCorrect(Details(questions, answers)) == MatchCount(questions, answers)
  {
    if questions != [] {
      var rest := if answers == [] then [] else answers[1..];
      DetailsCons(questions, answers);
      CountCorrectCons(Judge(questions[0], ChosenAt(answers, 0)), Details(questions[1..], rest));
      CorrectCountIsMatchCount(questions[1..], rest);
      if answers == [] {
        NoAnswersNoMatches(questions[1..]);
      }
    }
  }

  lemma {:induction false} NoAnswersNoMatches(questions: seq<QuizQuestion>)
    ensures MatchCount(questions, []) == 0
  {
  }

  /** The scoring loop of the submission handler. */
  method ScoreAnswers(questions: seq<QuizQuestion>, answers: seq<int>)
    returns (correct: nat, detailed: seq<AnswerDetail>)
    ensures detailed == Details(questions, answers)
    ensures correct == CountCorrect(detailed) == MatchCount(questions, answers)
  {
    correct := 0;
    detailed := [];
    var i := 0;
    while i < |questions|
      invariant 0 <= i <= |questions|
      invariant |detailed| == i
      invariant forall k :: 0 <= k < i ==> detailed[k] == Judge(questions[k], ChosenAt(answers, k))
      invariant correct == CountCorrect(detailed)
    {
      var q := questions[i];
      var chosen := if i < |answers| then Some(answers[i]) else None;
      var isCorrect := chosen == Some(q.correctIndex);
      correct := correct + if isCorrect then 1 else 0;
      var entry := AnswerDetail(q.question, chosen, q.correctIndex, isCorrect, q.hotsLevel, q.explanation);
      assert CountCorrect(detailed + [entry]) == CountCorrect(detailed) + (if isCorrect then 1 else 0) by {
        assert (detailed + [entry])[..i] == detailed;
      }
      detailed := detailed + [entry];
      i := i + 1;
    }
    CorrectCountIsMatchCount(questions, answers);
  }

  // ---------------------------------------------------------------------------
  // The score
  // ---------------------------------------------------------------------------

  /** `100 * correct / total` percent rounded to two decimals, kept as an integer number of
      hundredths: the nearest integer to `10000 * correct / total`, a tie going to the even
      neighbour. */
  function ScoreHundredths(correct: nat, total: nat): (h: nat)
    requires 0 < total && correct <= total
    ensures h <= 10000
    ensures 2 * (total * h - 10000 * correct) <= total
    ensures 2 * (10000 * correct - total * h) <= total
    ensures 2 * (total * h - 10000 * correct) == total || 2 * (10000 * correct - total * h) == total
      ==> h % 2 == 0
  {
    var n := 10000 * correct;
    var q := n / total;
    var rem := n % total;
    DivisionBounds(correct, total);
    var h := if 2 * rem > total || (2 * rem == total && q % 2 == 1) then q + 1 else q;
    RoundingError(n, total, q, rem, h);
    h
  }

  lemma MulLe(t: nat, a: nat, b: nat)
    requires a <= b
    ensures t * a <= t * b
  {
  }

  lemma DivisionBounds(correct: nat, total: nat)
    requires 0 < total && correct <= total
    ensures 10000 * correct == total * (10000 * correct / total) + 10000 * correct % total
    ensures 0 <= 10000 * correct % total < total
    ensures 10000 * correct / total <= 10000
    ensures 10000 * correct / total == 10000 ==> 10000 * correct % total == 0
  {
    var n := 10000 * correct;
    var q := n / total;
    var rem := n % total;
    assert n == total * q + rem;
    if q > 10000 {
      MulLe(total, 10001, q);
      assert false;
    }
  }

  /** Rounding the quotient up or down leaves an error of at most half the divisor. */
  lemma RoundingError(n: int, t: nat, q: int, rem: int, h: int)
    requires 0 < t && n == t * q + rem && 0 <= rem < t
    requires h == (if 2 * rem > t || (2 * rem == t && q % 2 == 1) then q + 1 else q)
    ensures 2 * (t * h - n) <= t && 2 * (n - t * h) <= t
    ensures 2 * (t * h - n) == t || 2 * (n - t * h) == t ==> h % 2 == 0
  {
    if h == q + 1 {
      assert t * h == t * q + t;
    }
  }

  /** The score is 100% when every question is correct and 0% when none is; for fewer than
      20000 questions the converse holds too. */
  lemma ScoreExtremes(correct: nat, total: nat)
    requires 0 < total && correct <= total
    ensures correct == total ==> ScoreHundredths(correct, total) == 10000
    ensures correct == 0 ==> ScoreHundredths(correct, total) == 0
    ensures total < 20000 ==> (ScoreHundredths(correct, total) == 10000 ==> correct == total)
    ensures total < 20000 ==> (ScoreHundredths(correct, total) == 0 ==> correct == 0)
  {
    var h := ScoreHundredths(correct, total);
    if correct == total && h < 10000 {
      MulLe(total, h, 9999);
    }
    if correct == 0 && h > 0 {
      MulLe(total, 1, h);
    }
  }

  /** With 20001 questions, one correct answer scores 0% and one wrong answer scores 100%. */
  lemma ScoreExtremesFailForLargeTotals()
    ensures ScoreHundredths(1, 20001) == 0
    ensures ScoreHundredths(20000, 20001) == 10000
  {
  }

  /** More correct answers never lower the score. */
  lemma ScoreMonotone(c1: nat, c2: nat, total: nat)
    requires 0 < total && c1 <= c2 <= total
    ensures ScoreHundredths(c1, total) <= ScoreHundredths(c2, total)
  {
    var h1, h2 := ScoreHundredths(c1, total), ScoreHundredths(c2, total);
    if h1 > h2 {
      MulLe(total, h2 + 1, h1);
      MulStep(total, h2);
    }
    NoInversion(total, c1, c2, h1, h2, total * h1, total * h2);
  }

  lemma MulStep(t: nat, a: nat)
    ensures t * (a + 1) == t * a + t
  {
  }

  /** Two roundings of `c1 <= c2` over the same divisor, written with the products as plain
      numbers so that the argument stays linear. */
  lemma NoInversion(t: int, c1: int, c2: int, h1: int, h2: int, p1: int, p2: int)
    requires t > 0 && c1 <= c2
    requires 2 * (p1 - 10000 * c1) <= t && 2 * (10000 * c1 - p1) <= t
    requires 2 * (p2 - 10000 * c2) <= t && 2 * (10000 * c2 - p2) <= t
    requires 2 * (p1 - 10000 * c1) == t || 2 * (10000 * c1 - p1) == t ==> h1 % 2 == 0
    requires 2 * (p2 - 10000 * c2) == t || 2 * (10000 * c2 - p2) == t ==> h2 % 2 == 0
    requires h1 > h2 ==> p1 >= p2 + t
    requires h1 > h2 + 1 ==> p1 >= p2 + 2 * t
    ensures h1 <= h2
  {
  }

  // ---------------------------------------------------------------------------
  // Submission
  // ---------------------------------------------------------------------------

  datatype SubmitError = TopicNotFound | NoQuizQuestions

  /** What a successful submission returns to the caller. */
  datatype SubmitResponse = SubmitResponse(
    attemptId: nat, scoreHundredths: nat, correct: nat, total: nat, details: seq<AnswerDetail>)

  /** The attempt a submission stores, with the number of correct answers beside it. */
  datatype Graded = Graded(correct: nat, attempt: SelftestAttempt)

  /** The steps of a stored topic; a document without steps has none. */
  function TopicSteps(doc: TopicDoc): seq<Step> {
    doc.steps.GetOr([])
  }

  /** The outcome of submitting `answers` against the topic found under `topicId`
      (`None` when no topic was found). */
  function Grade(found: Option<TopicDoc>, topicId: string, answers: seq<int>): (r: Result<Graded, SubmitError>)
    ensures found.None? ==> r == Err(TopicNotFound)
    ensures found.Some? ==> (r == Err(NoQuizQuestions) <==> Extract(TopicSteps(found.value)) == [])
    ensures r.Err? <==> found.None? || Extract(TopicSteps(found.value)) == []
    ensures r.Ok? ==> found.Some? && r.value.attempt.totalQuestions == |Extract(TopicSteps(found.value))| > 0
    ensures r.Ok? ==> r.value.attempt.answers == Details(Extract(TopicSteps(found.value)), answers)
    ensures r.Ok? ==> r.value.correct == MatchCount(Extract(TopicSteps(found.value)), answers)
    ensures r.Ok? ==> r.value.correct <= r.value.attempt.totalQuestions
    ensures r.Ok? ==> r.value.attempt.scoreHundredths
                      == ScoreHundredths(r.value.correct, r.value.attempt.totalQuestions) <= 10000
    ensures r.Ok? ==> r.value.attempt.topicId == topicId && r.value.attempt.userId == None
  {
    match found
    case None => Err(TopicNotFound)
    case Some(doc) =>
      var questions := Extract(TopicSteps(doc));
      if questions == [] then Err(NoQuizQuestions)
      else
        var details := Details(questions, answers);
        var correct := CountCorrect(details);
        CorrectCountIsMatchCount(questions, answers);
        Ok(Graded(correct, SelftestAttempt(topicId, ScoreHundredths(correct, |questions|), |questions|, details, None)))
  }

  /** The first stored topic with identifier `id`, if any. */
  function FindById(docs: seq<TopicDoc>, id: string): (r: Option<TopicDoc>)
    ensures r.Some? ==> r.value in docs && r.value.id == id
    ensures r.None? ==> forall i :: 0 <= i < |docs| ==> docs[i].id != id
  {
    if docs == [] then None
    else if docs[0].id == id then Some(docs[0])
    else FindById(docs[1..], id)
  }

  /** The two collections of the document store that scoring touches. Attempts are only
      ever appended; an attempt's identifier is its position. */
  class TopicStore {
    var topics: seq<TopicDoc>
    var attempts: seq<SelftestAttempt>

    constructor (topics: seq<TopicDoc>)
      ensures this.topics == topics && attempts == []
    {
      this.topics := topics;
      attempts := [];
    }

    /** Scores a submission. An unknown topic or a topic without quiz questions is refused
        and nothing is stored; otherwise exactly one attempt is appended. */
    method SubmitSelftest(topicId: string, answers: seq<int>) returns (r: Result<SubmitResponse, SubmitError>)
      modifies this`attempts
      ensures Grade(FindById(topics, topicId), topicId, answers).Err? ==>
        r == Err(Grade(FindById(topics, topicId), topicId, answers).error) && attempts == old(attempts)
      ensures Grade(FindById(topics, topicId), topicId, answers).Ok? ==>
        var g := Grade(FindById(topics, topicId), topicId, answers).value;
        attempts == old(attempts) + [g.attempt]
        && r == Ok(SubmitResponse(|old(attempts)|, g.attempt.scoreHundredths, g.correct,
                                  g.attempt.totalQuestions, g.attempt.answers))
    {
      var found := FindById(topics, topicId);
      if found.None? {
        return Err(TopicNotFound);
      }
      var questions := CollectQuestions(TopicSteps(found.value));
      if questions == [] {
        return Err(NoQuizQuestions);
      }
      var total := |questions|;
      var correct, detailed := ScoreAnswers(questions, answers);
      var score := ScoreHundredths(correct, total);
      var attempt := SelftestAttempt(topicId, score, total, detailed, None);
      var attemptId := |attempts|;
      attempts := attempts + [attempt];
      r := Ok(SubmitResponse(attemptId, score, correct, total, detailed));
    }
  }
}
