/**
 * Scoring a batch: each answer is read with parseInt (parseFloat for
 * division), classified as empty, correct or incorrect, and given feedback;
 * the counts, the per-operation breakdown and the rounded percentage follow.
 */
module Scoring {
  import opened Operations
  import opened Numbers
  import opened Generator

  datatype Status = Correct | Incorrect

  datatype Feedback = Feedback(status: Status, message: string)

  /** How one answer is classified; empty is decided before correctness. */
  datatype Verdict = Empty | Right | Wrong

  /** One entry of the breakdown: correct answers and problems of an operation. */
  datatype Stats = Stats(correct: nat, total: nat)

  /** The entry of b under k; a key without an entry counts as nothing yet. */
  function Entry(b: map<string, Stats>, k: string): Stats
  {
    if k in b then b[k] else Stats(0, 0)
  }

  /** The entry under k grown by delta, created at zero first if missing. */
  function Bump(b: map<string, Stats>, k: string, delta: Stats): map<string, Stats>
  {
    var e := Entry(b, k);
    b[k := Stats(e.correct + delta.correct, e.total + delta.total)]
  }

  /** The score card's data. */
  datatype Score = Score(total: nat, correct: nat, incorrect: nat, percentage: JsNumber, breakdown: map<string, Stats>)

  const EmptyMessage := "Please enter an answer"
  const CorrectMessage := "✓ Correct!"
  const IncorrectPrefix := "✗ Incorrect. Answer: "

  /** The number typed for a card: parseFloat for division, parseInt otherwise; no entry is NaN. */
  function UserAnswer(c: Card, answers: map<string, string>): (r: JsNumber)
    ensures c.id !in answers || answers[c.id] == "" ==> r == NaN
  {
    EmptyIsNaN();
    if c.id !in answers then NaN
    else if c.problem.operation == Tag(Division) then ParseFloat(answers[c.id])
    else ParseInt(answers[c.id])
  }

  /** The classification of one answer. */
  function Judge(c: Card, answers: map<string, string>): (v: Verdict)
    ensures v == Right <==> UserAnswer(c, answers) == Finite(c.problem.correctAnswer as real)
    ensures v == Wrong <==> UserAnswer(c, answers).Finite? && UserAnswer(c, answers).value != c.problem.correctAnswer as real
    ensures v == Empty <==> UserAnswer(c, answers).NaN?
  {
    var userAnswer := UserAnswer(c, answers);
    var isCorrect := userAnswer.Finite? && userAnswer.value == c.problem.correctAnswer as real;
    var isEmpty := c.id !in answers || answers[c.id] == "" || userAnswer.NaN?;
    EmptyIsNaN();
    if isEmpty then Empty else if isCorrect then Right else Wrong
  }

  /** The feedback entry for one card. */
  function FeedbackOf(c: Card, answers: map<string, string>): (f: Feedback)
    ensures f.status == Correct <==> Judge(c, answers) == Right
    ensures Judge(c, answers) == Empty <==> f.message == EmptyMessage
    ensures Judge(c, answers) == Wrong ==> f.message == IncorrectPrefix + IntString(c.problem.correctAnswer)
  {
    match Judge(c, answers)
    case Empty => Feedback(Incorrect, EmptyMessage)
    case Right => Feedback(Correct, CorrectMessage)
    case Wrong =>
      var message := IncorrectPrefix + IntString(c.problem.correctAnswer);
      assert message[0] != EmptyMessage[0];
      Feedback(Incorrect, message)
  }

  function Ids(cards: seq<Card>): set<string>
  {
    set c | c in cards :: c.id
  }

  function OpSet(cards: seq<Card>): set<string>
  {
    set c | c in cards :: c.problem.operation
  }

  /** The feedback map after writing each card's entry in batch order. */
  function FeedbackMap(cards: seq<Card>, answers: map<string, string>): map<string, Feedback>
  {
    if cards == [] then map[]
    else
      var last := cards[|cards| - 1];
      FeedbackMap(cards[..|cards| - 1], answers)[last.id := FeedbackOf(last, answers)]
  }

  /** Every problem of the batch gets a feedback entry, and nothing else does. */
  lemma {:induction false} FeedbackKeys(cards: seq<Card>, answers: map<string, string>)
    ensures FeedbackMap(cards, answers).Keys == Ids(cards)
  {
    if cards != [] {
      var prefix, last := cards[..|cards| - 1], cards[|cards| - 1];
      assert cards == prefix + [last];
      FeedbackKeys(prefix, answers);
      FeedbackStep(prefix, last, answers);
      IdsStep(prefix, last, cards);
    }
  }

  lemma IdsStep(prefix: seq<Card>, last: Card, cards: seq<Card>)
    requires cards == prefix + [last]
    ensures Ids(cards) == Ids(prefix) + {last.id}
  {
  }

  /** With distinct ids, the entry under a problem's id is that problem's own feedback. */
  lemma {:induction false} FeedbackEntries(cards: seq<Card>, answers: map<string, string>)
    requires DistinctIds(cards)
    ensures forall i :: 0 <= i < |cards| ==>
      cards[i].id in FeedbackMap(cards, answers) && FeedbackMap(cards, answers)[cards[i].id] == FeedbackOf(cards[i], answers)
  {
    if cards != [] {
      var prefix, last := cards[..|cards| - 1], cards[|cards| - 1];
      assert cards == prefix + [last];
      IdsBeforeLast(prefix, last, cards);
      FeedbackEntries(prefix, answers);
      FeedbackStep(prefix, last, answers);
      forall i | 0 <= i < |prefix|
        ensures cards[i].id in FeedbackMap(cards, answers) && FeedbackMap(cards, answers)[cards[i].id] == FeedbackOf(cards[i], answers)
      {
        assert cards[i] == prefix[i];
      }
    }
  }

  /** With distinct ids, no earlier problem shares the last problem's id. */
  lemma IdsBeforeLast(prefix: seq<Card>, last: Card, cards: seq<Card>)
    requires cards == prefix + [last] && DistinctIds(cards)
    ensures DistinctIds(prefix)
    ensures forall i :: 0 <= i < |prefix| ==> prefix[i].id != last.id
  {
    forall i, j | 0 <= i < j < |prefix| ensures prefix[i].id != prefix[j].id {
      assert cards[i] == prefix[i] && cards[j] == prefix[j];
    }
    forall i | 0 <= i < |prefix| ensures prefix[i].id != last.id {
      assert cards[i] == prefix[i] && cards[|prefix|] == last;
    }
  }

  /** With distinct ids, each problem of the batch finds its own feedback under its id. */
  lemma FeedbackPerCard(cards: seq<Card>, answers: map<string, string>)
    requires DistinctIds(cards)
    ensures FeedbackMap(cards, answers).Keys == Ids(cards)
    ensures forall c :: c in cards ==> c.id in FeedbackMap(cards, answers) && FeedbackMap(cards, answers)[c.id] == FeedbackOf(c, answers)
  {
    FeedbackKeys(cards, answers);
    FeedbackEntries(cards, answers);
    forall c | c in cards
      ensures c.id in FeedbackMap(cards, answers) && FeedbackMap(cards, answers)[c.id] == FeedbackOf(c, answers)
    {
      var i :| 0 <= i < |cards| && cards[i] == c;
    }
  }

  /** The number of answers judged correct. */
  function CorrectCount(cards: seq<Card>, answers: map<string, string>): (n: nat)
    ensures n <= |cards|
  {
    if cards == [] then 0
    else
      var last := cards[|cards| - 1];
      CorrectCount(cards[..|cards| - 1], answers) + (if Judge(last, answers) == Right then 1 else 0)
  }

  /** The number of answers to problems of the given tag judged correct. */
  function OpCorrect(cards: seq<Card>, answers: map<string, string>, tag: string): (n: nat)
    ensures n <= OpTotal(cards, tag)
  {
    if cards == [] then 0
    else
      var last := cards[|cards| - 1];
      OpCorrect(cards[..|cards| - 1], answers, tag)
        + (if last.problem.operation == tag && Judge(last, answers) == Right then 1 else 0)
  }

  /** The breakdown built card by card: an operation's entry is created at zero, then bumped. */
  function Breakdown(cards: seq<Card>, answers: map<string, string>): map<string, Stats>
  {
    if cards == [] then map[]
    else
      var last := cards[|cards| - 1];
      var before := Breakdown(cards[..|cards| - 1], answers);
      Bump(before, last.problem.operation, CardStats(last, answers))
  }

  /** What one card adds to its operation's entry: one problem, and one correct answer if it is right. */
  function CardStats(c: Card, answers: map<string, string>): Stats
  {
    Stats(if Judge(c, answers) == Right then 1 else 0, 1)
  }

  /**
   * The breakdown has an entry exactly for the operations in the batch, and
   * each entry holds that operation's correct answers and problems.
   */
  lemma {:induction false} BreakdownCounts(cards: seq<Card>, answers: map<string, string>)
    ensures Breakdown(cards, answers).Keys == OpSet(cards)
    ensures forall tag :: tag in Breakdown(cards, answers) ==>
      Breakdown(cards, answers)[tag] == Stats(OpCorrect(cards, answers, tag), OpTotal(cards, tag))
  {
    if cards != [] {
      var prefix, last := cards[..|cards| - 1], cards[|cards| - 1];
      assert cards == prefix + [last];
      BreakdownCounts(prefix, answers);
      CountsStep(prefix, last, answers);
    }
  }

  /** One more card keeps every entry equal to its operation's counts. */
  lemma CountsStep(prefix: seq<Card>, c: Card, answers: map<string, string>)
    requires Breakdown(prefix, answers).Keys == OpSet(prefix)
    requires forall tag :: tag in Breakdown(prefix, answers) ==>
      Breakdown(prefix, answers)[tag] == Stats(OpCorrect(prefix, answers, tag), OpTotal(prefix, tag))
    ensures Breakdown(prefix + [c], answers).Keys == OpSet(prefix + [c])
    ensures forall tag :: tag in Breakdown(prefix + [c], answers) ==>
      Breakdown(prefix + [c], answers)[tag] == Stats(OpCorrect(prefix + [c], answers, tag), OpTotal(prefix + [c], tag))
  {
    var cards := prefix + [c];
    assert OpSet(cards) == OpSet(prefix) + {c.problem.operation};
    BreakdownStep(prefix, c, answers);
    forall tag | tag in Breakdown(cards, answers)
      ensures Breakdown(cards, answers)[tag] == Stats(OpCorrect(cards, answers, tag), OpTotal(cards, tag))
    {
      EntryStep(prefix, c, answers, tag);
    }
  }

  /** One more card changes only its own operation's entry, by its own count. */
  lemma EntryStep(prefix: seq<Card>, c: Card, answers: map<string, string>, tag: string)
    requires Breakdown(prefix, answers).Keys == OpSet(prefix)
    requires forall tag :: tag in Breakdown(prefix, answers) ==>
      Breakdown(prefix, answers)[tag] == Stats(OpCorrect(prefix, answers, tag), OpTotal(prefix, tag))
    requires tag in Breakdown(prefix + [c], answers)
    ensures Breakdown(prefix + [c], answers)[tag] == Stats(OpCorrect(prefix + [c], answers, tag), OpTotal(prefix + [c], tag))
  {
    BreakdownStep(prefix, c, answers);
    OpCountsStep(prefix, c, answers, tag);
    if tag == c.problem.operation && tag !in OpSet(prefix) {
      OpCountsAbsent(prefix, answers, tag);
    }
  }

  /** What one more card does to an operation's counts. */
  lemma OpCountsStep(prefix: seq<Card>, c: Card, answers: map<string, string>, tag: string)
    ensures OpTotal(prefix + [c], tag) == OpTotal(prefix, tag) + StatsFor(c, tag, CardStats(c, answers)).total
    ensures OpCorrect(prefix + [c], answers, tag) == OpCorrect(prefix, answers, tag) + StatsFor(c, tag, CardStats(c, answers)).correct
  {
    assert (prefix + [c])[..|prefix|] == prefix;
  }

  /** What card c adds to the counts of an operation: its own stats if it is of that operation. */
  function StatsFor(c: Card, tag: string, stats: Stats): Stats
  {
    if c.problem.operation == tag then stats else Stats(0, 0)
  }

  /**
   * Math.round(correct / total * 100) in exact arithmetic: the nearest integer
   * to 100 * correct / total, halves rounded up.
   */
  function Percentage(correct: nat, total: nat): (p: int)
    requires total > 0
    ensures -(total as int) <= 2 * (100 * correct - total * p) < total
    ensures correct <= total ==> 0 <= p <= 100
  {
    var p := (200 * correct + total) / (2 * total);
    RoundingBounds(200 * correct + total, 2 * total, p);
    PercentageBounds(correct, total, p);
    p
  }

  lemma RoundingBounds(a: nat, b: nat, q: int)
    requires b > 0 && q == a / b
    ensures b * q <= a < b * q + b
  {
  }

  /** The quotient bounds give the rounding error and the range 0 to 100. */
  lemma PercentageBounds(correct: nat, total: nat, p: int)
    requires total > 0
    requires (2 * total) * p <= 200 * correct + total < (2 * total) * p + 2 * total
    ensures -(total as int) <= 2 * (100 * correct - total * p) < total
    ensures correct <= total ==> 0 <= p <= 100
  {
    assert (2 * total) * p == 2 * (total * p);
    if correct <= total {
      if p < 0 {
        ProductMonotonic(total, p, -1);
      } else if p > 100 {
        ProductMonotonic(total, 101, p);
      }
    }
  }

  /** The percentage as the score card holds it: 0 / 0 makes NaN for an empty batch. */
  function ScorePercentage(correct: nat, total: nat): (r: JsNumber)
    ensures r.NaN? <==> total == 0
  {
    if total == 0 then NaN else Finite(Percentage(correct, total) as real)
  }

  /** The score of a batch. */
  function ScoreOf(cards: seq<Card>, answers: map<string, string>): (s: Score)
    ensures Consistent(s, cards)
  {
    BreakdownCounts(cards, answers);
    var correct := CorrectCount(cards, answers);
    Score(|cards|, correct, |cards| - correct, ScorePercentage(correct, |cards|), Breakdown(cards, answers))
  }

  /** The invariants a score keeps with the batch it was computed from. */
  predicate Consistent(s: Score, cards: seq<Card>)
  {
    && s.total == |cards|
    && s.correct + s.incorrect == s.total
    && (s.total == 0 <==> s.percentage.NaN?)
    && (s.percentage.Finite? ==> 0.0 <= s.percentage.value <= 100.0)
    && s.breakdown.Keys == OpSet(cards)
    && (forall tag :: tag in s.breakdown ==>
          s.breakdown[tag].total == OpTotal(cards, tag) && s.breakdown[tag].correct <= s.breakdown[tag].total)
  }

  /** The forEach of validateAnswers: feedback, counters and breakdown built in one pass. */
  method Tally(cards: seq<Card>, answers: map<string, string>)
    returns (feedback: map<string, Feedback>, correct: nat, incorrect: nat, breakdown: map<string, Stats>)
    ensures feedback == FeedbackMap(cards, answers)
    ensures correct == CorrectCount(cards, answers)
    ensures correct + incorrect == |cards|
    ensures breakdown == Breakdown(cards, answers)
  {
    feedback, correct, incorrect, breakdown := map[], 0, 0, map[];
    for i := 0 to |cards|
      invariant feedback == FeedbackMap(cards[..i], answers)
      invariant correct == CorrectCount(cards[..i], answers)
      invariant correct + incorrect == i
      invariant breakdown == Breakdown(cards[..i], answers)
    {
      var c := cards[i];
      assert cards[..i + 1] == cards[..i] + [c];
      FeedbackStep(cards[..i], c, answers);
      CountStep(cards[..i], c, answers);
      BreakdownStep(cards[..i], c, answers);
      feedback, correct, incorrect, breakdown := TallyCard(c, answers, feedback, correct, incorrect, breakdown);
    }
    assert cards[..|cards|] == cards;
  }

  /** The body of the forEach: one card's feedback, counter and breakdown entry. */
  method TallyCard(c: Card, answers: map<string, string>,
                   feedback: map<string, Feedback>, correct: nat, incorrect: nat, breakdown: map<string, Stats>)
    returns (feedback': map<string, Feedback>, correct': nat, incorrect': nat, breakdown': map<string, Stats>)
    ensures feedback' == feedback[c.id := FeedbackOf(c, answers)]
    ensures correct' == correct + CardStats(c, answers).correct
    ensures correct' + incorrect' == correct + incorrect + 1
    ensures breakdown' == Bump(breakdown, c.problem.operation, CardStats(c, answers))
  {
    var userAnswer := UserAnswer(c, answers);
    var isCorrect := userAnswer.Finite? && userAnswer.value == c.problem.correctAnswer as real;
    var isEmpty := c.id !in answers || answers[c.id] == "" || userAnswer.NaN?;
    JudgeUnfolds(c, answers);
    var op := c.problem.operation;
    feedback', correct', incorrect', breakdown' := feedback, correct, incorrect, breakdown;
    if op !in breakdown' {
      breakdown' := breakdown'[op := Stats(0, 0)];
    }
    breakdown' := breakdown'[op := breakdown'[op].(total := breakdown'[op].total + 1)];
    assert breakdown' == Bump(breakdown, op, Stats(0, 1));
    if isEmpty {
      feedback' := feedback'[c.id := Feedback(Incorrect, EmptyMessage)];
      incorrect' := incorrect' + 1;
    } else if isCorrect {
      feedback' := feedback'[c.id := Feedback(Correct, CorrectMessage)];
      correct' := correct' + 1;
      breakdown' := breakdown'[op := breakdown'[op].(correct := breakdown'[op].correct + 1)];
    } else {
      feedback' := feedback'[c.id := Feedback(Incorrect, IncorrectPrefix + IntString(c.problem.correctAnswer))];
      incorrect' := incorrect' + 1;
    }
  }

  lemma JudgeUnfolds(c: Card, answers: map<string, string>)
    ensures var userAnswer := UserAnswer(c, answers);
            var isCorrect := userAnswer.Finite? && userAnswer.value == c.problem.correctAnswer as real;
            var isEmpty := c.id !in answers || answers[c.id] == "" || userAnswer.NaN?;
            FeedbackOf(c, answers) == if isEmpty then Feedback(Incorrect, EmptyMessage)
              else if isCorrect then Feedback(Correct, CorrectMessage)
              else Feedback(Incorrect, IncorrectPrefix + IntString(c.problem.correctAnswer))
  {
  }

  /** What one more card does to the feedback map. */
  lemma FeedbackStep(prefix: seq<Card>, c: Card, answers: map<string, string>)
    ensures FeedbackMap(prefix + [c], answers) == FeedbackMap(prefix, answers)[c.id := FeedbackOf(c, answers)]
  {
    assert (prefix + [c])[..|prefix|] == prefix;
  }

  /** What one more card does to the correct count. */
  lemma CountStep(prefix: seq<Card>, c: Card, answers: map<string, string>)
    ensures CorrectCount(prefix + [c], answers) == CorrectCount(prefix, answers) + (if Judge(c, answers) == Right then 1 else 0)
  {
    assert (prefix + [c])[..|prefix|] == prefix;
  }

  /** What one more card does to the breakdown. */
  lemma BreakdownStep(prefix: seq<Card>, c: Card, answers: map<string, string>)
    ensures Breakdown(prefix + [c], answers) == Bump(Breakdown(prefix, answers), c.problem.operation, CardStats(c, answers))
  {
    assert (prefix + [c])[..|prefix|] == prefix;
  }

  /** An operation absent from a batch has no problems and no correct answers in it. */
  lemma {:induction false} OpCountsAbsent(cards: seq<Card>, answers: map<string, string>, tag: string)
    requires tag !in OpSet(cards)
    ensures OpTotal(cards, tag) == 0 && OpCorrect(cards, answers, tag) == 0
  {
    if cards != [] {
      var prefix := cards[..|cards| - 1];
      assert OpSet(prefix) <= OpSet(cards);
      OpCountsAbsent(prefix, answers, tag);
    }
  }

  /** The operations of a batch in order of first appearance: the breakdown's key order. */
  function Ops(cards: seq<Card>): seq<string>
  {
    if cards == [] then []
    else
      var before := Ops(cards[..|cards| - 1]);
      var op := cards[|cards| - 1].problem.operation;
      if op in before then before else before + [op]
  }

  predicate Distinct(keys: seq<string>)
  {
    forall i, j :: 0 <= i < j < |keys| ==> keys[i] != keys[j]
  }

  /** The key order lists every operation of the batch. */
  lemma {:induction false} OpsListsEach(cards: seq<Card>)
    ensures forall tag :: tag in Ops(cards) <==> tag in OpSet(cards)
  {
    if cards != [] {
      var prefix, last := cards[..|cards| - 1], cards[|cards| - 1];
      assert cards == prefix + [last];
      assert OpSet(cards) == OpSet(prefix) + {last.problem.operation};
      OpsListsEach(prefix);
    }
  }

  /** The key order lists each operation once. */
  lemma {:induction false} OpsListsOnce(cards: seq<Card>)
    ensures Distinct(Ops(cards))
  {
    if cards != [] {
      OpsListsOnce(cards[..|cards| - 1]);
    }
  }

  /** The entries of b under the given keys, added up. */
  function Totals(keys: seq<string>, b: map<string, Stats>): Stats
  {
    if keys == [] then Stats(0, 0)
    else
      var sum, e := Totals(keys[..|keys| - 1], b), Entry(b, keys[|keys| - 1]);
      Stats(sum.correct + e.correct, sum.total + e.total)
  }

  /** after is before grown by delta, field by field. */
  predicate Grown(after: Stats, before: Stats, delta: Stats)
  {
    after.correct == before.correct + delta.correct && after.total == before.total + delta.total
  }

  /** Changing an entry under a key not listed leaves the total alone. */
  lemma {:induction false} TotalsUnlisted(keys: seq<string>, b: map<string, Stats>, k: string, v: Stats)
    requires k !in keys
    ensures Totals(keys, b[k := v]) == Totals(keys, b)
  {
    if keys != [] {
      assert keys[|keys| - 1] != k;
      TotalsUnlisted(keys[..|keys| - 1], b, k, v);
    }
  }

  /** Changing the entry under a key listed once moves the total by the change. */
  lemma {:induction false} TotalsListed(keys: seq<string>, b: map<string, Stats>, k: string, v: Stats, delta: Stats)
    requires Distinct(keys)
    requires k in keys
    requires Grown(v, Entry(b, k), delta)
    ensures Grown(Totals(keys, b[k := v]), Totals(keys, b), delta)
  {
    var prefix, last := keys[..|keys| - 1], keys[|keys| - 1];
    if last == k {
      assert k !in prefix;
      TotalsUnlisted(prefix, b, k, v);
    } else {
      assert k in prefix;
      TotalsListed(prefix, b, k, v, delta);
      assert Entry(b[k := v], last) == Entry(b, last);
    }
  }

  /**
   * One more card's count added under its operation: the key joins the order
   * if it is new, and the sum grows by exactly that count.
   */
  lemma TotalsStep(keys: seq<string>, b: map<string, Stats>, k: string, delta: Stats, keys': seq<string>, b': map<string, Stats>)
    requires Distinct(keys)
    requires k !in keys ==> k !in b
    requires keys' == if k in keys then keys else keys + [k]
    requires b' == Bump(b, k, delta)
    ensures Grown(Totals(keys', b'), Totals(keys, b), delta)
  {
    var v := b'[k];
    assert b' == b[k := v];
    if k in keys {
      TotalsListed(keys, b, k, v, delta);
    } else {
      TotalsUnlisted(keys, b, k, v);
      assert keys'[..|keys|] == keys && keys'[|keys|] == k;
      assert Entry(b, k) == Stats(0, 0);
    }
  }

  /** The key order and the breakdown agree on one operation. */
  lemma OpsInBreakdown(cards: seq<Card>, answers: map<string, string>, tag: string)
    ensures tag in Ops(cards) <==> tag in Breakdown(cards, answers)
  {
    BreakdownCounts(cards, answers);
    OpsListsEach(cards);
  }

  /**
   * Adding up the breakdown in its key order gives the number of correct
   * answers and the number of problems.
   */
  lemma {:induction false} BreakdownTotals(cards: seq<Card>, answers: map<string, string>)
    ensures Totals(Ops(cards), Breakdown(cards, answers)) == Stats(CorrectCount(cards, answers), |cards|)
  {
    if cards != [] {
      var prefix, last := cards[..|cards| - 1], cards[|cards| - 1];
      BreakdownTotals(prefix, answers);
      assert cards == prefix + [last];
      TotalsAppend(prefix, last, cards, answers);
    }
  }

  /** One more card keeps the breakdown's sum equal to the counters. */
  lemma TotalsAppend(prefix: seq<Card>, c: Card, cards: seq<Card>, answers: map<string, string>)
    requires cards == prefix + [c]
    requires Totals(Ops(prefix), Breakdown(prefix, answers)) == Stats(CorrectCount(prefix, answers), |prefix|)
    ensures Totals(Ops(cards), Breakdown(cards, answers)) == Stats(CorrectCount(cards, answers), |cards|)
  {
    CountStep(prefix, c, answers);
    CardSum(prefix, c, answers);
  }

  /** One more card adds its own count to the breakdown's sum. */
  lemma CardSum(prefix: seq<Card>, c: Card, answers: map<string, string>)
    ensures Grown(Totals(Ops(prefix + [c]), Breakdown(prefix + [c], answers)), Totals(Ops(prefix), Breakdown(prefix, answers)), CardStats(c, answers))
  {
    BreakdownStep(prefix, c, answers);
    SumAppend(prefix, c, answers, CardStats(c, answers));
  }

  /** A card whose count is delta adds delta to the breakdown's sum. */
  lemma SumAppend(prefix: seq<Card>, c: Card, answers: map<string, string>, delta: Stats)
    requires Breakdown(prefix + [c], answers) == Bump(Breakdown(prefix, answers), c.problem.operation, delta)
    ensures Grown(Totals(Ops(prefix + [c]), Breakdown(prefix + [c], answers)), Totals(Ops(prefix), Breakdown(prefix, answers)), delta)
  {
    OpsStep(prefix, c);
    OpsInBreakdown(prefix, answers, c.problem.operation);
    OpsListsOnce(prefix);
    TotalsStep(Ops(prefix), Breakdown(prefix, answers), c.problem.operation, delta, Ops(prefix + [c]), Breakdown(prefix + [c], answers));
  }

  /** What one more card does to the key order. */
  lemma OpsStep(prefix: seq<Card>, c: Card)
    ensures Ops(prefix + [c]) == if c.problem.operation in Ops(prefix) then Ops(prefix) else Ops(prefix) + [c.problem.operation]
  {
    assert (prefix + [c])[..|prefix|] == prefix;
  }

  /** The breakdown's entries add up to the score's counters, operation by operation. */
  lemma ScoreSums(cards: seq<Card>, answers: map<string, string>)
    ensures var s := ScoreOf(cards, answers);
      && (forall tag :: tag in Ops(cards) <==> tag in s.breakdown)
      && Totals(Ops(cards), s.breakdown) == Stats(s.correct, s.total)
  {
    BreakdownCounts(cards, answers);
    OpsListsEach(cards);
    BreakdownTotals(cards, answers);
  }

  /** With fewer than 200 problems, 100% is shown exactly when every answer is correct. */
  lemma PerfectScore(correct: nat, total: nat)
    requires 0 < total < 200 && correct <= total
    ensures Percentage(correct, total) == 100 <==> correct == total
  {
    var p := Percentage(correct, total);
    if correct == total {
      if p <= 99 {
        ProductMonotonic(total, p, 99);
      } else if p >= 101 {
        ProductMonotonic(total, 101, p);
      }
    }
  }

  lemma ProductMonotonic(a: nat, x: int, y: int)
    requires x <= y
    ensures a * x <= a * y
  {
    assert a * y - a * x == a * (y - x);
  }

  /** From 200 problems on, one wrong answer can still round to 100%. */
  lemma PerfectScoreNeedsSmallBatch()
    ensures Percentage(199, 200) == 100
  {
  }

  /** The congratulations alert fires exactly when every answer is correct. */
  predicate AllCorrect(s: Score)
  {
    s.correct == s.total
  }

  /** For the batches the app builds (5 or 20 problems), all correct means 100%. */
  lemma AllCorrectIffFullMarks(cards: seq<Card>, answers: map<string, string>)
    requires 0 < |cards| < 200
    ensures AllCorrect(ScoreOf(cards, answers)) <==> ScoreOf(cards, answers).percentage == Finite(100.0)
  {
    PerfectScore(CorrectCount(cards, answers), |cards|);
  }

  /** An empty batch scores NaN, yet counts as all correct, so the congratulations would fire. */
  lemma EmptyBatchScore(answers: map<string, string>)
    ensures ScoreOf([], answers).percentage == NaN
    ensures AllCorrect(ScoreOf([], answers))
  {
  }

  /** Typing the expected answer as the app writes numbers is judged correct, whatever the operation. */
  lemma ExpectedAnswerIsRight(c: Card, answers: map<string, string>)
    requires c.id in answers && answers[c.id] == IntString(c.problem.correctAnswer)
    ensures Judge(c, answers) == Right
    ensures FeedbackOf(c, answers) == Feedback(Correct, CorrectMessage)
  {
    ParseIntRoundTrip(c.problem.correctAnswer);
    ParseFloatRoundTrip(c.problem.correctAnswer);
  }

  /** Typing any other integer is judged wrong, and the feedback reveals the expected answer. */
  lemma OtherAnswerIsWrong(c: Card, answers: map<string, string>, m: int)
    requires m != c.problem.correctAnswer
    requires c.id in answers && answers[c.id] == IntString(m)
    ensures Judge(c, answers) == Wrong
    ensures FeedbackOf(c, answers) == Feedback(Incorrect, IncorrectPrefix + IntString(c.problem.correctAnswer))
  {
    ParseIntRoundTrip(m);
    ParseFloatRoundTrip(m);
  }

  /** A missing or blank answer is asked for again, before any comparison. */
  lemma BlankAnswerIsEmpty(c: Card, answers: map<string, string>)
    requires c.id !in answers || answers[c.id] == ""
    ensures Judge(c, answers) == Empty
    ensures FeedbackOf(c, answers) == Feedback(Incorrect, EmptyMessage)
  {
    EmptyIsNaN();
  }

  /** A division answer with a decimal point is compared by value: "q.0" is correct. */
  lemma DivisionAcceptsDecimals(c: Card, answers: map<string, string>, zeros: string)
    requires c.problem.operation == Tag(Division) && c.problem.correctAnswer >= 0
    requires forall i :: 0 <= i < |zeros| ==> zeros[i] == '0'
    requires c.id in answers && answers[c.id] == Decimal(c.problem.correctAnswer) + "." + zeros
    ensures Judge(c, answers) == Right
  {
    ParseFloatZeros(c.problem.correctAnswer, zeros);
    assert UserAnswer(c, answers) == Finite(c.problem.correctAnswer as real);
  }

  /**
   * A division answer keeps its fraction: "n.f" is right exactly when n is the
   * answer and every digit of f is 0; otherwise it is wrong ("4.5" for 4).
   */
  lemma DivisionReadsFraction(c: Card, answers: map<string, string>, n: nat, f: string)
    requires c.problem.operation == Tag(Division) && AllDigits(f)
    requires c.id in answers && answers[c.id] == Decimal(n) + "." + f
    ensures Judge(c, answers)
      == if n == c.problem.correctAnswer && forall i :: 0 <= i < |f| ==> f[i] == '0' then Right else Wrong
  {
    ParseFloatFraction(n, f);
    FractionBounds(f);
    var v := n as real + FractionValue(f);
    assert UserAnswer(c, answers) == Finite(v);
    if v == c.problem.correctAnswer as real {
      var gap := c.problem.correctAnswer - n;
      assert gap as real == FractionValue(f);
      assert gap == 0;
    }
  }

  /** The same answer typed for a non-division problem loses its fraction: "10.7" reads as 10. */
  lemma OtherOperationsTruncate(c: Card, answers: map<string, string>, digits: string)
    requires c.problem.operation != Tag(Division) && c.problem.correctAnswer >= 0
    requires c.id in answers && answers[c.id] == Decimal(c.problem.correctAnswer) + "." + digits
    ensures Judge(c, answers) == Right
  {
    ParseIntTruncates(c.problem.correctAnswer, digits);
  }
}
