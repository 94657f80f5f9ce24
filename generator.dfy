/**
 * Problem generation: the bounded random draw, one problem per operation, the
 * ids given to problems, and the two batch builders.
 */
module Generator {
  import opened Options
  import opened Operations
  import opened Numbers

  /** A value returned by Math.random(): a number in [0, 1), taken as an exact real. */
  type UnitInterval = u: real | 0.0 <= u < 1.0

  /** generateRandomNumber(min, max): floor(u * (max - min + 1)) + min. */
  function RandomNumber(min: int, max: int, u: UnitInterval): (d: int)
    requires min <= max
    ensures min <= d <= max
  {
    var width := (max - min + 1) as real;
    assert u * width < width by {
      assert (1.0 - u) * width > 0.0;
    }
    (u * width).Floor + min
  }

  /** The draw that yields d: every value of the interval can come out. */
  function Preimage(min: int, max: int, d: int): (u: UnitInterval)
    requires min <= d <= max
    ensures RandomNumber(min, max, u) == d
  {
    var width := (max - min + 1) as real;
    var u := (d - min) as real / width;
    assert u * width == (d - min) as real;
    u
  }

  /** The numbers of a problem and the operation tag it was asked for. */
  datatype Problem = Problem(num1: int, num2: int, correctAnswer: int, operation: string)

  /** The ranges and the answer each kind of problem has; unknown tags follow addition. */
  predicate WellFormed(p: Problem)
  {
    match OperationOf(p.operation)
    case Some(Subtraction) =>
      10 <= p.num1 <= 100 && 1 <= p.num2 <= p.num1 && p.correctAnswer == p.num1 - p.num2
    case Some(Multiplication) =>
      1 <= p.num1 <= 12 && 1 <= p.num2 <= 12 && p.correctAnswer == p.num1 * p.num2
    case Some(Division) =>
      2 <= p.num2 <= 12 && 1 <= p.correctAnswer <= 12 && p.num1 == p.num2 * p.correctAnswer
    case _ =>
      1 <= p.num1 <= 100 && 1 <= p.num2 <= 100 && p.correctAnswer == p.num1 + p.num2
  }

  /**
   * generateProblem(tag), with the two values Math.random() returns to it:
   * u1 for the first draw and u2 for the second (each branch draws twice).
   */
  function GenerateProblem(tag: string, u1: UnitInterval, u2: UnitInterval): (p: Problem)
    ensures p.operation == tag && WellFormed(p)
    ensures OperationOf(tag) == Some(Subtraction) ==> p.correctAnswer >= 0
    ensures OperationOf(tag) == Some(Division) ==>
      p.num1 % p.num2 == 0 && p.num1 / p.num2 == p.correctAnswer
  {
    match OperationOf(tag)
    case Some(Subtraction) =>
      var num1 := RandomNumber(10, 100, u1);
      var num2 := RandomNumber(1, num1, u2);
      Problem(num1, num2, num1 - num2, tag)
    case Some(Multiplication) =>
      var num1 := RandomNumber(1, 12, u1);
      var num2 := RandomNumber(1, 12, u2);
      Problem(num1, num2, num1 * num2, tag)
    case Some(Division) =>
      var num2 := RandomNumber(2, 12, u1);
      var quotient := RandomNumber(1, 12, u2);
      DivisionIsExact(num2, quotient);
      Problem(num2 * quotient, num2, quotient, tag)
    case _ =>
      var num1 := RandomNumber(1, 100, u1);
      var num2 := RandomNumber(1, 100, u2);
      Problem(num1, num2, num1 + num2, tag)
  }

  lemma DivisionIsExact(divisor: int, quotient: int)
    requires divisor > 0
    ensures (divisor * quotient) % divisor == 0 && (divisor * quotient) / divisor == quotient
  {
    var x := divisor * quotient;
    var q, r := x / divisor, x % divisor;
    assert x == divisor * q + r && 0 <= r < divisor;
    var d := q - quotient;
    assert divisor * d == divisor * q - divisor * quotient;
    assert divisor * d == -r;
    if d > 0 {
      ProductAtLeast(divisor, d);
    } else if d < 0 {
      assert divisor * -d == -(divisor * d);
      ProductAtLeast(divisor, -d);
    }
  }

  lemma {:induction false} ProductAtLeast(a: int, b: int)
    requires a > 0 && b >= 1
    ensures a * b >= a
  {
    if b > 1 {
      ProductAtLeast(a, b - 1);
      assert a * b == a * (b - 1) + a;
    }
  }

  /** Every well-formed problem is produced by some pair of draws. */
  lemma GenerateProblemCovers(p: Problem)
    requires WellFormed(p)
    ensures exists u1: UnitInterval, u2: UnitInterval :: GenerateProblem(p.operation, u1, u2) == p
  {
    match OperationOf(p.operation)
    case Some(Subtraction) =>
      var u1, u2 := Preimage(10, 100, p.num1), Preimage(1, p.num1, p.num2);
      assert GenerateProblem(p.operation, u1, u2) == p;
    case Some(Multiplication) =>
      var u1, u2 := Preimage(1, 12, p.num1), Preimage(1, 12, p.num2);
      assert GenerateProblem(p.operation, u1, u2) == p;
    case Some(Division) =>
      var u1, u2 := Preimage(2, 12, p.num2), Preimage(1, 12, p.correctAnswer);
      assert GenerateProblem(p.operation, u1, u2) == p;
    case _ =>
      var u1, u2 := Preimage(1, 100, p.num1), Preimage(1, 100, p.num2);
      assert GenerateProblem(p.operation, u1, u2) == p;
  }

  /** A problem as the page holds it: generateProblem's fields plus its id. */
  datatype Card = Card(id: string, problem: Problem)

  /** The id `${operation}-${Date.now()}-${i}`. */
  function ProblemId(tag: string, stamp: nat, i: nat): string
  {
    tag + "-" + Decimal(stamp) + "-" + Decimal(i)
  }

  /**
   * An id reads back: for a dash-free tag, the tag is everything before the
   * first dash, and a single-digit index is the character after the last dash.
   */
  lemma ProblemIdParts(tag: string, stamp: nat, i: nat)
    requires '-' !in tag
    ensures var id := ProblemId(tag, stamp, i);
      && |id| > |tag| + 1 && id[..|tag|] == tag && id[|tag|] == '-'
      && (forall k :: 0 <= k < |tag| ==> id[k] != '-')
      && (i < 10 ==> id[|id| - 2] == '-' && DigitValue(id[|id| - 1]) == i)
      && (i < 10 ==> id[|tag| + 1..|id| - 2] == Decimal(stamp))
  {
    var id := ProblemId(tag, stamp, i);
    ProblemIdLayout(tag, stamp, i);
    if i < 10 {
      DigitCharValue(i);
    }
  }

  /** The three parts of an id and the two dashes between them, position by position. */
  lemma ProblemIdLayout(tag: string, stamp: nat, i: nat)
    ensures var id := ProblemId(tag, stamp, i); var t := |tag| + 1 + |Decimal(stamp)|;
      && |id| == t + 1 + |Decimal(i)|
      && id[..|tag|] == tag && id[|tag|] == '-'
      && id[|tag| + 1..t] == Decimal(stamp) && id[t] == '-' && id[t + 1..] == Decimal(i)
  {
    var head, ds, tail := tag + "-", Decimal(stamp), "-" + Decimal(i);
    var id := ProblemId(tag, stamp, i);
    assert id == head + ds + tail;
    ThreeParts(head, ds, tail);
    assert id[..|tag|] == head[..|tag|] == tag;
    assert id[|head| + |ds| + 1..] == tail[1..] == Decimal(i);
  }

  lemma ThreeParts(x: string, y: string, z: string)
    ensures (x + y + z)[..|x|] == x && (x + y + z)[|x|..|x| + |y|] == y && (x + y + z)[|x| + |y|..] == z
  {
  }

  /**
   * Ids with different single-digit indices differ, and so do ids of
   * different dash-free tags, whatever the clock said.
   */
  lemma ProblemIdsDiffer(t1: string, s1: nat, i1: nat, t2: string, s2: nat, i2: nat)
    requires i1 < 10 && i2 < 10
    requires i1 != i2 || (t1 != t2 && '-' !in t1 && '-' !in t2)
    ensures ProblemId(t1, s1, i1) != ProblemId(t2, s2, i2)
  {
    var a, b := ProblemId(t1, s1, i1), ProblemId(t2, s2, i2);
    if i1 != i2 {
      assert a[|a| - 1] == DigitChar(i1) && b[|b| - 1] == DigitChar(i2);
      DigitCharValue(i1);
      DigitCharValue(i2);
    } else if |t1| < |t2| {
      assert a[|t1|] == '-' && b[|t1|] == t2[|t1|];
    } else if |t2| < |t1| {
      assert b[|t2|] == '-' && a[|t2|] == t1[|t2|];
    } else {
      var j :| 0 <= j < |t1| && t1[j] != t2[j];
      assert a[j] == t1[j] && b[j] == t2[j];
    }
  }

  predicate DistinctIds(cards: seq<Card>)
  {
    forall i, j :: 0 <= i < j < |cards| ==> cards[i].id != cards[j].id
  }

  /** The number of cards whose problem carries the given operation tag. */
  function OpTotal(cards: seq<Card>, tag: string): (n: nat)
    ensures n <= |cards|
  {
    if cards == [] then 0
    else OpTotal(cards[..|cards| - 1], tag) + (if cards[|cards| - 1].problem.operation == tag then 1 else 0)
  }

  lemma {:induction false} OpTotalAppend(a: seq<Card>, b: seq<Card>, tag: string)
    ensures OpTotal(a + b, tag) == OpTotal(a, tag) + OpTotal(b, tag)
  {
    if b == [] {
      assert a + b == a;
    } else {
      assert (a + b)[..|a + b| - 1] == a + b[..|b| - 1];
      OpTotalAppend(a, b[..|b| - 1], tag);
    }
  }

  /** A run of cards that all carry one tag counts fully for it and not at all for others. */
  lemma {:induction false} OpTotalUniform(cards: seq<Card>, t0: string, tag: string)
    requires forall c :: c in cards ==> c.problem.operation == t0
    ensures OpTotal(cards, tag) == if tag == t0 then |cards| else 0
  {
    if cards != [] {
      OpTotalUniform(cards[..|cards| - 1], t0, tag);
    }
  }

  const BatchSize: nat := 5

  /** Card n of a batch: the tag, the n-th clock reading, index i, draws 2n and 2n + 1. */
  function NthCard(tag: string, draws: seq<UnitInterval>, clock: seq<nat>, n: nat, i: nat): Card
    requires n < |clock| && 2 * n + 1 < |draws|
  {
    Card(ProblemId(tag, clock[n], i), GenerateProblem(tag, draws[2 * n], draws[2 * n + 1]))
  }

  /** What generateProblems builds: five problems of one tag, indexed 0 to 4. */
  predicate FixedBatch(cards: seq<Card>, tag: string, draws: seq<UnitInterval>, clock: seq<nat>)
    requires |draws| == 2 * BatchSize && |clock| == BatchSize
  {
    |cards| == BatchSize &&
    forall n :: 0 <= n < BatchSize ==> cards[n] == NthCard(tag, draws, clock, n, n)
  }

  /** The loop of generateProblems, with one clock reading per problem. */
  method BuildBatch(tag: string, draws: seq<UnitInterval>, clock: seq<nat>) returns (cards: seq<Card>)
    requires |draws| == 2 * BatchSize && |clock| == BatchSize
    ensures FixedBatch(cards, tag, draws, clock)
  {
    ghost var expected := FixedCards(tag, draws, clock);
    cards := [];
    for i := 0 to BatchSize
      invariant |expected| == BatchSize
      invariant cards == expected[..i]
    {
      var problem := GenerateProblem(tag, draws[2 * i], draws[2 * i + 1]);
      var card := Card(ProblemId(tag, clock[i], i), problem);
      FixedCardsAt(tag, draws, clock, i, card);
      PrefixGrows(expected, i, card);
      cards := cards + [card];
    }
    PrefixWhole(expected);
    FixedCardsBatch(tag, draws, clock);
  }

  /** The five cards of a fixed-operation batch, in order. */
  ghost function FixedCards(tag: string, draws: seq<UnitInterval>, clock: seq<nat>): seq<Card>
    requires |draws| == 2 * BatchSize && |clock| == BatchSize
  {
    seq(BatchSize, n requires 0 <= n < BatchSize => NthCard(tag, draws, clock, n, n))
  }

  lemma FixedCardsAt(tag: string, draws: seq<UnitInterval>, clock: seq<nat>, i: nat, card: Card)
    requires |draws| == 2 * BatchSize && |clock| == BatchSize && i < BatchSize
    requires card == NthCard(tag, draws, clock, i, i)
    ensures |FixedCards(tag, draws, clock)| == BatchSize
    ensures FixedCards(tag, draws, clock)[i] == card
  {
  }

  lemma FixedCardsBatch(tag: string, draws: seq<UnitInterval>, clock: seq<nat>)
    requires |draws| == 2 * BatchSize && |clock| == BatchSize
    ensures FixedBatch(FixedCards(tag, draws, clock), tag, draws, clock)
  {
  }

  /** A prefix grows by the next element. */
  lemma PrefixGrows(s: seq<Card>, n: nat, c: Card)
    requires n < |s| && s[n] == c
    ensures s[..n + 1] == s[..n] + [c]
  {
  }

  /** The prefix of full length is the whole sequence. */
  lemma PrefixWhole(s: seq<Card>)
    ensures s[..|s|] == s
  {
  }

  /** A fixed-operation batch: five well-formed problems of the tag, with distinct ids. */
  lemma FixedBatchProperties(cards: seq<Card>, tag: string, draws: seq<UnitInterval>, clock: seq<nat>)
    requires |draws| == 2 * BatchSize && |clock| == BatchSize
    requires FixedBatch(cards, tag, draws, clock)
    ensures forall c :: c in cards ==> c.problem.operation == tag && WellFormed(c.problem)
    ensures OpTotal(cards, tag) == BatchSize
    ensures DistinctIds(cards)
  {
    forall i, j | 0 <= i < j < |cards| ensures cards[i].id != cards[j].id {
      ProblemIdsDiffer(tag, clock[i], i, tag, clock[j], j);
    }
    OpTotalUniform(cards, tag, tag);
  }

  const AllTypesSize: nat := 20

  /** Card n of an all-types batch: operation n / 5, with index n % 5 inside its group. */
  function AllTypesCard(draws: seq<UnitInterval>, clock: seq<nat>, n: nat): Card
    requires |draws| == 2 * AllTypesSize && |clock| == AllTypesSize && n < AllTypesSize
  {
    NthCard(Tag(AllOperations[n / 5]), draws, clock, n, n % 5)
  }

  /** What generateAllTypes builds: five problems per operation, grouped in list order. */
  predicate AllTypesBatch(cards: seq<Card>, draws: seq<UnitInterval>, clock: seq<nat>)
    requires |draws| == 2 * AllTypesSize && |clock| == AllTypesSize
  {
    |cards| == AllTypesSize &&
    forall n :: 0 <= n < AllTypesSize ==> cards[n] == AllTypesCard(draws, clock, n)
  }

  /** Position 5k + i is the i-th problem of group k. */
  lemma GroupPosition(k: nat, i: nat)
    requires i < BatchSize
    ensures (5 * k + i) / 5 == k && (5 * k + i) % 5 == i
  {
  }

  /** The twenty cards of an all-types batch, in order. */
  ghost function AllTypesCards(draws: seq<UnitInterval>, clock: seq<nat>): seq<Card>
    requires |draws| == 2 * AllTypesSize && |clock| == AllTypesSize
  {
    seq(AllTypesSize, n requires 0 <= n < AllTypesSize => AllTypesCard(draws, clock, n))
  }

  /** Card 5k + i of the batch is problem i of operation k. */
  lemma AllTypesCardsAt(draws: seq<UnitInterval>, clock: seq<nat>, k: nat, i: nat, card: Card)
    requires |draws| == 2 * AllTypesSize && |clock| == AllTypesSize
    requires k < |AllOperations| && i < BatchSize
    requires card == NthCard(Tag(AllOperations[k]), draws, clock, 5 * k + i, i)
    ensures |AllTypesCards(draws, clock)| == AllTypesSize
    ensures AllTypesCards(draws, clock)[5 * k + i] == card
  {
    GroupPosition(k, i);
  }

  /** One turn of the inner loop appends the next card of the batch. */
  lemma AllTypesStep(draws: seq<UnitInterval>, clock: seq<nat>, k: nat, i: nat, cards: seq<Card>, card: Card)
    requires |draws| == 2 * AllTypesSize && |clock| == AllTypesSize
    requires k < |AllOperations| && i < BatchSize
    requires |AllTypesCards(draws, clock)| == AllTypesSize
    requires cards == AllTypesCards(draws, clock)[..5 * k + i]
    requires card == NthCard(Tag(AllOperations[k]), draws, clock, 5 * k + i, i)
    ensures cards + [card] == AllTypesCards(draws, clock)[..5 * k + i + 1]
  {
    AllTypesCardsAt(draws, clock, k, i, card);
    PrefixGrows(AllTypesCards(draws, clock), 5 * k + i, card);
  }

  lemma AllTypesCardsBatch(draws: seq<UnitInterval>, clock: seq<nat>)
    requires |draws| == 2 * AllTypesSize && |clock| == AllTypesSize
    ensures AllTypesBatch(AllTypesCards(draws, clock), draws, clock)
  {
  }

  /** The nested loops of generateAllTypes: the forEach over operations, five problems each. */
  method BuildAllTypes(draws: seq<UnitInterval>, clock: seq<nat>) returns (cards: seq<Card>)
    requires |draws| == 2 * AllTypesSize && |clock| == AllTypesSize
    ensures AllTypesBatch(cards, draws, clock)
  {
    ghost var expected := AllTypesCards(draws, clock);
    cards := [];
    for k := 0 to |AllOperations|
      invariant |expected| == AllTypesSize
      invariant cards == expected[..5 * k]
    {
      var tag := Tag(AllOperations[k]);
      for i := 0 to BatchSize
        invariant cards == expected[..5 * k + i]
      {
        var n := 5 * k + i;
        var problem := GenerateProblem(tag, draws[2 * n], draws[2 * n + 1]);
        var card := Card(ProblemId(tag, clock[n], i), problem);
        AllTypesStep(draws, clock, k, i, cards, card);
        cards := cards + [card];
      }
    }
    PrefixWhole(expected);
    AllTypesCardsBatch(draws, clock);
  }

  /**
   * An all-types batch: positions 5k to 5k + 4 hold operation k, each operation
   * appears five times, every problem is well-formed and the ids are distinct.
   */
  lemma AllTypesBatchProperties(cards: seq<Card>, draws: seq<UnitInterval>, clock: seq<nat>)
    requires |draws| == 2 * AllTypesSize && |clock| == AllTypesSize
    requires AllTypesBatch(cards, draws, clock)
    ensures forall n :: 0 <= n < |cards| ==> cards[n].problem.operation == Tag(AllOperations[n / 5])
    ensures forall c :: c in cards ==> WellFormed(c.problem)
    ensures forall tag :: OpTotal(cards, tag) == if OperationOf(tag).Some? then BatchSize else 0
    ensures DistinctIds(cards)
  {
    forall n | 0 <= n < |cards| ensures cards[n].problem.operation == Tag(AllOperations[n / 5]) {
      assert cards[n] == NthCard(Tag(AllOperations[n / 5]), draws, clock, n, n % 5);
    }
    AllTypesIdsDistinct(cards, draws, clock);
    forall tag ensures OpTotal(cards, tag) == if OperationOf(tag).Some? then BatchSize else 0 {
      AllTypesCount(cards, tag);
    }
  }

  lemma AllTypesIdsDistinct(cards: seq<Card>, draws: seq<UnitInterval>, clock: seq<nat>)
    requires |draws| == 2 * AllTypesSize && |clock| == AllTypesSize
    requires AllTypesBatch(cards, draws, clock)
    ensures DistinctIds(cards)
  {
    forall i, j | 0 <= i < j < |cards| ensures cards[i].id != cards[j].id {
      assert cards[i] == AllTypesCard(draws, clock, i) && cards[j] == AllTypesCard(draws, clock, j);
      PositionIdsDiffer(draws, clock, i, j);
    }
  }

  /** Two positions of an all-types batch differ in operation or in index, hence in id. */
  lemma PositionIdsDiffer(draws: seq<UnitInterval>, clock: seq<nat>, n1: nat, n2: nat)
    requires |draws| == 2 * AllTypesSize && |clock| == AllTypesSize
    requires n1 < n2 < AllTypesSize
    ensures AllTypesCard(draws, clock, n1).id != AllTypesCard(draws, clock, n2).id
  {
    var a, b := AllOperations[n1 / 5], AllOperations[n2 / 5];
    assert a == b ==> n1 / 5 == n2 / 5;
    assert n1 / 5 == n2 / 5 ==> n1 % 5 != n2 % 5;
    TagHasNoDash(a);
    TagHasNoDash(b);
    ProblemIdsDiffer(Tag(a), clock[n1], n1 % 5, Tag(b), clock[n2], n2 % 5);
  }

  lemma AllTypesCount(cards: seq<Card>, tag: string)
    requires |cards| == AllTypesSize
    requires forall n :: 0 <= n < |cards| ==> cards[n].problem.operation == Tag(AllOperations[n / 5])
    ensures OpTotal(cards, tag) == if OperationOf(tag).Some? then BatchSize else 0
  {
    var g0, g1, g2, g3 := cards[0..5], cards[5..10], cards[10..15], cards[15..20];
    assert cards == g0 + g1 + g2 + g3;
    GroupOperation(cards, 0);
    GroupOperation(cards, 1);
    GroupOperation(cards, 2);
    GroupOperation(cards, 3);
    OpTotalAppend(g0 + g1 + g2, g3, tag);
    OpTotalAppend(g0 + g1, g2, tag);
    OpTotalAppend(g0, g1, tag);
    OpTotalUniform(g0, Tag(Addition), tag);
    OpTotalUniform(g1, Tag(Subtraction), tag);
    OpTotalUniform(g2, Tag(Multiplication), tag);
    OpTotalUniform(g3, Tag(Division), tag);
  }

  /** The group of five starting at position 5k holds operation k only. */
  lemma GroupOperation(cards: seq<Card>, k: nat)
    requires |cards| == AllTypesSize && k < |AllOperations|
    requires forall n :: 0 <= n < |cards| ==> cards[n].problem.operation == Tag(AllOperations[n / 5])
    ensures forall c :: c in cards[5 * k..5 * k + 5] ==> c.problem.operation == Tag(AllOperations[k])
  {
    var group := cards[5 * k..5 * k + 5];
    forall c | c in group ensures c.problem.operation == Tag(AllOperations[k]) {
      var j :| 0 <= j < |group| && group[j] == c;
      GroupPosition(k, j);
      assert cards[5 * k + j] == c;
    }
  }
}
