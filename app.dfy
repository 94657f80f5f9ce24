/**
 * The App component's state and the handlers that change it: the selected
 * operation, the current batch of problems, the typed answers, the feedback
 * per problem id, the score card and whether the Score button is shown.
 * React's state setters become field assignments; the random draws and the
 * clock readings a batch needs are passed in.
 */
module App {
  import opened Options
  import opened Operations
  import opened Generator
  import opened Scoring

  class Session {
    var selectedOperation: string
    var problems: seq<Card>
    var answers: map<string, string>
    var feedback: map<string, Feedback>
    var showValidate: bool
    var scoreData: Option<Score>

    /**
     * What every handler keeps: a known operation is selected, the batch has
     * distinct ids and well-formed problems, feedback is only ever about
     * problems of the batch, a score card describes the batch on the page, and
     * the Score button is shown exactly when there is a batch.
     */
    ghost predicate Valid()
      reads this
    {
      && OperationOf(selectedOperation).Some?
      && DistinctIds(problems)
      && (forall c :: c in problems ==> WellFormed(c.problem))
      && feedback.Keys <= Ids(problems)
      && (scoreData.Some? ==> Consistent(scoreData.value, problems))
      && showValidate == (|problems| > 0)
    }

    /** The initial state: addition selected, nothing generated yet. */
    constructor ()
      ensures Valid()
      ensures selectedOperation == Tag(Addition)
      ensures problems == [] && answers == map[] && feedback == map[]
      ensures !showValidate && scoreData == None
    {
      selectedOperation := Tag(Addition);
      problems := [];
      answers := map[];
      feedback := map[];
      showValidate := false;
      scoreData := None;
    }

    /** An operation button: select that operation, nothing else changes. */
    method SelectOperation(op: Operation)
      requires Valid()
      modifies this
      ensures Valid()
      ensures selectedOperation == Tag(op)
      ensures problems == old(problems) && answers == old(answers) && feedback == old(feedback)
      ensures showValidate == old(showValidate) && scoreData == old(scoreData)
    {
      selectedOperation := Tag(op);
    }

    /**
     * generateProblems with the selected operation: five new problems, and
     * answers, feedback and score cleared.
     */
    method GenerateProblems(draws: seq<UnitInterval>, clock: seq<nat>)
      requires Valid()
      requires |draws| == 2 * BatchSize && |clock| == BatchSize
      modifies this
      ensures Valid()
      ensures FixedBatch(problems, old(selectedOperation), draws, clock)
      ensures forall c :: c in problems ==> c.problem.operation == old(selectedOperation)
      ensures OpTotal(problems, old(selectedOperation)) == BatchSize
      ensures answers == map[] && feedback == map[] && scoreData == None && showValidate
      ensures selectedOperation == old(selectedOperation)
    {
      var batch := BuildBatch(selectedOperation, draws, clock);
      FixedBatchProperties(batch, selectedOperation, draws, clock);
      problems := batch;
      answers := map[];
      feedback := map[];
      scoreData := None;
      showValidate := true;
    }

    /**
     * generateAllTypes: five problems of each operation in button order, and
     * answers, feedback and score cleared.
     */
    method GenerateAllTypes(draws: seq<UnitInterval>, clock: seq<nat>)
      requires Valid()
      requires |draws| == 2 * AllTypesSize && |clock| == AllTypesSize
      modifies this
      ensures Valid()
      ensures AllTypesBatch(problems, draws, clock)
      ensures forall n :: 0 <= n < |problems| ==> problems[n].problem.operation == Tag(AllOperations[n / 5])
      ensures forall tag :: OpTotal(problems, tag) == if OperationOf(tag).Some? then BatchSize else 0
      ensures answers == map[] && feedback == map[] && scoreData == None && showValidate
      ensures selectedOperation == old(selectedOperation)
    {
      var batch := BuildAllTypes(draws, clock);
      AllTypesBatchProperties(batch, draws, clock);
      problems := batch;
      answers := map[];
      feedback := map[];
      scoreData := None;
      showValidate := true;
    }

    /**
     * handleAnswerChange: the typed value replaces the answer under the id,
     * and that id's feedback, if any, is cleared; every other key keeps its
     * value.
     */
    method HandleAnswerChange(id: string, value: string)
      requires Valid()
      modifies this
      ensures Valid()
      ensures answers == old(answers)[id := value]
      ensures feedback == old(feedback) - {id}
      ensures forall k :: k != id ==> (k in answers <==> k in old(answers)) && (k in answers ==> answers[k] == old(answers)[k])
      ensures forall k :: k != id ==> (k in feedback <==> k in old(feedback)) && (k in feedback ==> feedback[k] == old(feedback)[k])
      ensures problems == old(problems) && selectedOperation == old(selectedOperation)
      ensures showValidate == old(showValidate) && scoreData == old(scoreData)
    {
      answers := answers[id := value];
      if id in feedback {
        feedback := feedback - {id};
      }
    }

    /**
     * validateAnswers: one feedback entry per problem, and the score card of
     * the batch against the current answers. The result says whether the
     * congratulations alert is scheduled.
     */
    method ValidateAnswers() returns (congratulate: bool)
      requires Valid()
      modifies this
      ensures Valid()
      ensures feedback == FeedbackMap(problems, answers)
      ensures feedback.Keys == Ids(problems)
      ensures forall c :: c in problems ==> feedback[c.id] == FeedbackOf(c, answers)
      ensures scoreData == Some(ScoreOf(problems, answers))
      ensures congratulate <==> AllCorrect(scoreData.value)
      ensures problems == old(problems) && answers == old(answers) && selectedOperation == old(selectedOperation)
      ensures showValidate == old(showValidate)
    {
      var newFeedback, correctCount, incorrectCount, breakdown := Tally(problems, answers);
      feedback := newFeedback;
      var total := |problems|;
      var percentage := ScorePercentage(correctCount, total);
      scoreData := Some(Score(total, correctCount, incorrectCount, percentage, breakdown));
      congratulate := correctCount == total;
      FeedbackPerCard(problems, answers);
      assert scoreData.value == ScoreOf(problems, answers);
    }
  }
}
