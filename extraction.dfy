/** Flattening a topic's steps into the one ordered list of questions that submitted
    answers are matched against, position by position. */
module QuizExtraction {
  import opened Schemas

  /** What one step contributes: the questions of a quiz step, read as empty when the
      list is absent; nothing from any other kind of step. */
  function StepQuestions(s: Step): seq<QuizQuestion> {
    if s.kind == Quiz then s.quizQuestions.GetOr([]) else []
  }

  /** Reference count: the sum over the steps of what each contributes. */
  function QuestionCount(steps: seq<Step>): nat {
    if steps == [] then 0 else |StepQuestions(steps[0])| + QuestionCount(steps[1..])
  }

  /** The questions of the quiz steps, in step order and, within a step, in list order. */
  function Extract(steps: seq<Step>): (r: seq<QuizQuestion>)
    ensures |r| == QuestionCount(steps)
  {
    if steps == [] then [] else StepQuestions(steps[0]) + Extract(steps[1..])
  }

  /** Extraction distributes over concatenation of step lists: the order of steps is the
      order of their questions. */
  lemma {:induction false} ExtractAppend(a: seq<Step>, b: seq<Step>)
    ensures Extract(a + b) == Extract(a) + Extract(b)
  {
    if a == [] {
      assert a + b == b;
    } else {
      assert (a + b)[1..] == a[1..] + b;
      ExtractAppend(a[1..], b);
    }
  }

  /** A step that contributes nothing (not a quiz, or a quiz with an absent or empty list)
      can be inserted anywhere without changing the extracted list. */
  lemma {:induction false} QuestionlessStepIgnored(before: seq<Step>, s: Step, after: seq<Step>)
    requires s.kind != Quiz || s.quizQuestions == None || s.quizQuestions == Some([])
    ensures Extract(before + [s] + after) == Extract(before + after)
  {
    assert Extract([s]) == StepQuestions(s) + Extract([]);
    assert Extract([s]) == [];
    calc {
      Extract(before + [s] + after);
      { ExtractAppend(before + [s], after); }
      Extract(before + [s]) + Extract(after);
      { ExtractAppend(before, [s]); }
      Extract(before) + Extract([s]) + Extract(after);
      Extract(before) + Extract(after);
      { ExtractAppend(before, after); }
      Extract(before + after);
    }
  }

  /** A question is extracted exactly when some step contributes it. */
  lemma {:induction false} ExtractMembership(steps: seq<Step>, q: QuizQuestion)
    ensures q in Extract(steps) <==> exists i :: 0 <= i < |steps| && q in StepQuestions(steps[i])
  {
    if steps != [] {
      ExtractMembership(steps[1..], q);
      if q in Extract(steps[1..]) {
        var i :| 0 <= i < |steps[1..]| && q in StepQuestions(steps[1..][i]);
        assert q in StepQuestions(steps[i + 1]);
      }
      if exists i :: 0 <= i < |steps| && q in StepQuestions(steps[i]) {
        var i :| 0 <= i < |steps| && q in StepQuestions(steps[i]);
        if i > 0 {
          assert steps[1..][i - 1] == steps[i];
        }
      }
    }
  }

  /** Nothing is extracted exactly when every quiz step's list is absent or empty. */
  lemma {:induction false} ExtractEmptyIff(steps: seq<Step>)
    ensures Extract(steps) == [] <==>
      forall i :: 0 <= i < |steps| && steps[i].kind == Quiz ==> steps[i].quizQuestions.GetOr([]) == []
  {
    if steps != [] {
      ExtractEmptyIff(steps[1..]);
      assert forall i :: 1 <= i < |steps| ==> steps[1..][i - 1] == steps[i];
    }
  }

  /** Collects the questions with the nested loop of the submission handler. */
  method CollectQuestions(steps: seq<Step>) returns (questions: seq<QuizQuestion>)
    ensures questions == Extract(steps)
  {
    questions := [];
    var i := 0;
    while i < |steps|
      invariant 0 <= i <= |steps|
      invariant questions == Extract(steps[..i])
    {
      var step := steps[i];
      if step.kind == Quiz {
        var qs := step.quizQuestions.GetOr([]);
        var j := 0;
        while j < |qs|
          invariant 0 <= j <= |qs|
          invariant questions == Extract(steps[..i]) + qs[..j]
        {
          questions := questions + [qs[j]];
          j := j + 1;
        }
        assert qs[..j] == qs;
      }
      assert Extract([step]) == StepQuestions(step) + Extract([]);
      assert steps[..i + 1] == steps[..i] + [step];
      ExtractAppend(steps[..i], [step]);
      i := i + 1;
    }
    assert steps[..i] == steps;
  }
}
