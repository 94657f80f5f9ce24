# Math Problems Generator — a Dafny model

The app is a single-page arithmetic practice tool. You pick one of four operations (addition, subtraction, multiplication, division). It generates a batch of five problems for that operation, or twenty problems with five of each kind. It keeps your typed answers per problem id. When you press Score, every answer is judged and a score card is built: counts, a rounded percentage and a per-operation breakdown.

The model has six modules:

- `Options`: the `Option` datatype.
- `Operations`: the operation tags and the two display tables (`getOperationSymbol`, `getOperationName`), each with its default.
- `Numbers`: how integers are written into strings, and the part of `parseInt` and `parseFloat` that the model covers: an optional sign, decimal digits and, for `parseFloat`, one decimal point.
- `Generator`: the bounded random draw, `generateProblem`, problem ids, and the two batch loops.
- `Scoring`: judging one answer, the feedback, the counters, the breakdown and the percentage. It also holds `Tally`, the loop of `validateAnswers`.
- `App`: the `Session` class. Its fields are the React state of the `App` component, and its methods are the handlers that change that state.

Modelling choices:

- Each value `Math.random()` returns is a parameter: an exact real in [0, 1).
- A batch takes two draws per problem, because every branch of `generateProblem` draws exactly twice.
- Each `Date.now()` reading is a parameter too, one per problem.
- React's state setters become assignments to the `Session` fields.

Scoring an empty batch is not guarded (app.js:334-345). The percentage is `NaN`, because it is `0 / 0`. The congratulations alert is still scheduled, because `0 === 0`. See `EmptyBatchScore`.

## Model

| member | source | states |
|---|---|---|
| Operations.OperationOf | app.js:21-26 | A tag names an operation exactly when it is one of the four table keys, and that operation's tag is the tag itself. |
| Operations.OperationSymbol | app.js:20-28 | Each known tag gets its table symbol. Any other tag gets `+`. The result is `+` exactly for addition or an unknown tag. |
| Operations.OperationName | app.js:35-43 | Each known tag gets its table name. Any other tag gets `Add`. The result is `Add` exactly for addition or an unknown tag. |
| Operations.SymbolAndNameAgree | app.js:20-43 | A tag falls back to the addition entry in one table exactly when it does in the other. |
| Operations.TablesDistinguish | app.js:20-43 | Two operations get the same symbol, or the same name, only when they are the same operation. |
| Operations.AllOperationsListsEachOnce | app.js:204 | The operations list has four entries, addition first. Every operation is in it, and no operation appears twice. |
| Operations.TagHasNoDash | app.js:204 | No operation tag contains `-`, the separator used in problem ids. |
| Numbers.IntString | app.js:325 | An integer's text starts with `-` exactly when the integer is negative. |
| Numbers.ParseInt | app.js:298 | `parseInt` gives `NaN` exactly when no digit follows the optional sign. |
| Numbers.ParseIntWhole | app.js:298 | A number `parseInt` returns is always a whole number. |
| Numbers.ParseFloat | app.js:297 | `parseFloat` gives `NaN` only when no digit follows the optional sign. |
| Numbers.ParseFloatNaN | app.js:297 | `parseFloat` gives `NaN` exactly when, after the optional sign, there is neither a digit nor a point followed by a digit. |
| Numbers.ParseFloatLeadingPoint | app.js:297 | A leading point is read: ".f" is the value of the digits f, so ".5" is 0.5. |
| Numbers.FractionBounds | app.js:297 | Digits after a point are worth at least 0 and less than 1. They are worth 0 exactly when every digit is 0. |
| Numbers.EmptyIsNaN | app.js:296-298 | The empty answer parses to `NaN` under both parsers. |
| Numbers.DecimalValue | app.js:215 | Reading back the decimal digits of n gives n. |
| Numbers.ParseIntRoundTrip | app.js:298 | `parseInt` reads back every integer as the app writes it. |
| Numbers.ParseFloatRoundTrip | app.js:297 | `parseFloat` reads back every integer as the app writes it. |
| Numbers.ParseIntTruncates | app.js:298 | `parseInt` stops at the decimal point, so "n.f" reads as n. |
| Numbers.ParseFloatFraction | app.js:297 | `parseFloat` of "n.f" is n plus the value of the digits f after the point. |
| Numbers.ParseFloatZeros | app.js:297 | `parseFloat` of "n.000" is n. |
| Generator.RandomNumber | app.js:11-13 | A draw for `(min, max)` lies in the closed interval from min to max. |
| Generator.Preimage | app.js:11-13 | Every value of the interval is produced by some `Math.random()` value. |
| Generator.GenerateProblem | app.js:54-90 | The problem keeps the requested operation and is well-formed: ranges and answer per operation, with unknown tags following addition. A subtraction answer is never negative. A division is exact and its quotient is the answer. |
| Generator.DivisionIsExact | app.js:76-81 | divisor × quotient leaves remainder 0 and has quotient `quotient`. |
| Generator.GenerateProblemCovers | app.js:54-90 | Every well-formed problem comes out for some pair of draws. |
| Generator.ProblemIdParts | app.js:215 | An id starts with the dash-free tag and `-`. For an index below 10, it ends with `-` and that index's digit, and the clock reading's digits sit between the two dashes. |
| Generator.ProblemIdLayout | app.js:215 | An id is the tag, `-`, the clock reading's digits, `-` and the index's digits, each at its own position. |
| Generator.ProblemIdsDiffer | app.js:212-215 | Ids with different indices differ whatever the clock said. So do ids of different dash-free tags. |
| Generator.BuildBatch | app.js:209-216 | The loop builds card i from the tag, clock reading i, index i and draws 2i and 2i+1, for i from 0 to 4. |
| Generator.FixedBatchProperties | app.js:209-216 | A fixed batch has five well-formed problems, all of the requested operation, and their ids are distinct. |
| Generator.BuildAllTypes | app.js:228-238 | The nested loops build card 5k+i from operation k of the list, index i and its own clock reading and draws. |
| Generator.AllTypesBatchProperties | app.js:228-238 | In an all-types batch, positions 5k to 5k+4 hold `operations[k]`. Each operation appears five times and no other tag appears. Every problem is well-formed and all twenty ids are distinct. |
| Generator.AllTypesIdsDistinct | app.js:228-238 | The twenty ids are pairwise distinct, because each (operation, index) pair is unique. |
| Generator.AllTypesCount | app.js:228-238 | Each of the four operations appears exactly five times. Any other tag appears zero times. |
| Generator.GroupOperation | app.js:229-230 | The group of five starting at 5k holds operation k only. |
| Scoring.UserAnswer | app.js:296-298 | A missing or empty answer reads as `NaN`, whichever parser the operation selects. |
| Scoring.Judge | app.js:296-301 | An answer is empty exactly when it parses to `NaN`, whether missing, blank or unparseable. This is decided before correctness. It is right exactly when it parses to the expected answer, and wrong exactly when it parses to another number. |
| Scoring.FeedbackOf | app.js:309-328 | The status is correct exactly for a right answer. The message asks for an answer exactly when the answer is empty. A wrong answer's message shows the expected answer. |
| Scoring.FeedbackKeys | app.js:295-331 | The feedback map has one entry per problem id and no other entries. |
| Scoring.FeedbackEntries | app.js:295-331 | With distinct ids, the entry under each problem's id is that problem's own feedback. |
| Scoring.FeedbackPerCard | app.js:295-331 | The same as FeedbackEntries, stated for every problem of the batch. |
| Scoring.BreakdownCounts | app.js:303-321 | The breakdown has an entry exactly for each operation in the batch. Each entry holds that operation's correct answers and its problem count. |
| Scoring.OpsListsEach | app.js:304-305 | The order in which breakdown keys are created lists every operation of the batch. |
| Scoring.OpsListsOnce | app.js:304-305 | That key order lists each operation once. |
| Scoring.BreakdownTotals | app.js:303-321 | Summed over the key order, the breakdown gives the number of correct answers and the number of problems. |
| Scoring.ScoreSums | app.js:333-342 | The breakdown entries of the score add up to its `correct` and `total`. |
| Scoring.Percentage | app.js:335 | `Math.round(correct / total * 100)` is the integer nearest to 100·correct/total, with halves rounded up. It lies between 0 and 100. |
| Scoring.ScorePercentage | app.js:334-335 | The percentage is `NaN` exactly when there are no problems. |
| Scoring.ScoreOf | app.js:333-343 | The score's fields are consistent with each other and with the batch. `correct + incorrect == total == problems.length`. The percentage is `NaN` only for an empty batch and otherwise lies between 0 and 100. The breakdown keys are the batch's operations. Each entry's total is that operation's count, and its correct count is at most its total. |
| Scoring.Tally | app.js:290-329 | One pass builds the feedback map, the correct count, the breakdown and an incorrect count that makes up the rest. |
| Scoring.TallyCard | app.js:296-328 | One card adds its feedback entry. It adds one to the correct or the incorrect counter. It creates its operation's entry if missing, and bumps that entry's total, and its correct count when the answer is right. |
| Scoring.PerfectScore | app.js:335 | Below 200 problems, the percentage is 100 exactly when every answer is correct. |
| Scoring.PerfectScoreNeedsSmallBatch | app.js:335 | From 200 problems up this fails: 199 of 200 correct rounds to 100. |
| Scoring.AllCorrectIffFullMarks | app.js:335-345 | For batches below 200 problems, such as the app's 5 and 20, the congratulations fires exactly when the score is 100%. |
| Scoring.EmptyBatchScore | app.js:334-345 | An empty batch scores `NaN`, yet the congratulations condition holds. |
| Scoring.ExpectedAnswerIsRight | app.js:296-300 | Typing the expected answer as the app writes numbers is judged right, with the correct feedback. |
| Scoring.OtherAnswerIsWrong | app.js:296-326 | Typing any other integer is judged wrong, and the feedback shows the expected answer. |
| Scoring.BlankAnswerIsEmpty | app.js:301-314 | A missing or blank answer is judged empty and asked for again. |
| Scoring.DivisionAcceptsDecimals | app.js:296-300 | For division, "q.000" is judged right. |
| Scoring.DivisionReadsFraction | app.js:296-300 | For division, "n.f" is judged right exactly when n is the answer and every digit of f is 0. Any other such answer is judged wrong, such as "4.5" when the answer is 4. |
| Scoring.OtherOperationsTruncate | app.js:298-300 | For any other operation, "n.f" is judged right when n is the answer, whatever f is. |
| App.Session.constructor | app.js:197-202 | The initial state: addition is selected, and the problems, answers, feedback and score are empty. |
| App.Session.SelectOperation | app.js:362 | An operation button selects that operation and changes nothing else. |
| App.Session.GenerateProblems | app.js:209-222 | The problems become the five-problem batch of the selected operation, with distinct ids. Answers and feedback are emptied, the score is cleared and the Score button is shown. |
| App.Session.GenerateAllTypes | app.js:228-243 | The problems become the twenty-problem batch, five per operation in list order. Answers and feedback are emptied, the score is cleared and the Score button is shown. |
| App.Session.HandleAnswerChange | app.js:249-262 | The typed value replaces the answer under the id, and the feedback under the id is removed. Every other answer and feedback entry is unchanged. |
| App.Session.ValidateAnswers | app.js:289-350 | The feedback becomes one entry per problem, each that problem's own. The score card becomes the score of the batch. The alert is scheduled exactly when every answer is correct. |

## Left out

- Rendering. `ProblemCard`, `ScoreCard` and the JSX of `App` are left out. That includes the per-operation percentage the score card shows (app.js:176), which is display only.
- The Enter-key handler that clicks the Score button through the DOM is left out.
- `saveSession` is I/O: localStorage, JSON serialisation and its alerts.
- The `setTimeout` and the congratulations `alert` are left out. `ValidateAnswers` only returns whether the alert is scheduled.
- Floating point is left out in four places:
  - `RandomNumber` computes `floor(u · width) + min` on exact reals, so rounding in `Math.random() * width` is not modelled.
  - `Percentage` computes `Math.round` of the ratio exactly, so float error at half-way ratios is not modelled. This error cannot occur for batches of 5 or 20, where 100·correct/total is an integer.
  - `ParseInt` returns the exact value of its digits, while JavaScript's `parseInt` returns the nearest double: `parseInt("9007199254740993")` is 9007199254740992. This cannot change a verdict. Every expected answer is at most 200, and no digit string that large rounds to a value that small.
  - `ParseFloat` parses a division answer to its exact decimal value. See the `ParseFloat`, `ParseFloatFraction` line below.
- `Date.now()` is a parameter, one reading per problem. Nothing is assumed about successive readings.
- `ParseInt`, `ParseFloat`: the model accepts only an optional sign, decimal digits and, for `parseFloat`, one decimal point. It leaves out:
  - leading whitespace;
  - `0x` prefixes for `parseInt`;
  - exponents such as "1e3". A number box can deliver one: for the division 24 ÷ 2, the typed answer "1.2e1" is 12 to `parseFloat`, so the app judges it correct, while the model stops at the `e`, reads 1.2 and judges it wrong;
  - "Infinity".
- `ParseFloat`, `ParseFloatFraction`: the parsed value is the exact decimal, not the nearest double. So an answer with more than about 16 significant digits that rounds to the expected answer is judged wrong. An example is "3.0000000000000001" for an expected 3: the app accepts it, and the model judges it wrong.
- React updates state asynchronously, and a handler reads `feedback` as of the last render. The model applies each handler's updates at once and in order.
- Object keys are strings compared as strings. JavaScript's inherited property names, such as an id equal to "constructor", are not modelled.
- `generateProblems` called with an explicit operation argument is not modelled. The app only calls it without one, so it uses the selected operation.
