/**
 * The quiz result screen (frontend/src/modules/quizzes/component/QuizResult.tsx):
 * the correct-answer count, the comparison with the previous score, the
 * progress bar's colour bucket, the five star thresholds and the answer
 * table's rows.
 */
module QuizResult {
  import opened Wrappers
  import opened Strings
  import opened Seqs
  import opened QuizView

  /** `questions.reduce((sum, q) => (answers[q.id] === q.correct_index ? sum + 1 : sum), 0)`, folding from the left. */
  function ReducedCount(questions: seq<QuizQuestion>, answers: Answers): (c: nat)
    ensures c <= |questions|
    decreases |questions|
  {
    if questions == [] then 0
    else
      var init := questions[..|questions| - 1];
      ReducedCount(init, answers) + if IsCorrect(answers, questions[|questions| - 1]) then 1 else 0
  }

  /** The result screen's count agrees with the count the quiz used for the score. */
  lemma {:induction false} ReducedCountIsCorrectCount(questions: seq<QuizQuestion>, answers: Answers)
    ensures ReducedCount(questions, answers) == CorrectCount(questions, answers)
    decreases |questions|
  {
    if questions != [] {
      var init, last := questions[..|questions| - 1], questions[|questions| - 1];
      assert questions == init + [last];
      ReducedCountIsCorrectCount(init, answers);
      FilterConcat(init, [last], (q: QuizQuestion) => IsCorrect(answers, q));
    }
  }

  /** `diff`: the change against the previous score, None when there is no previous score. */
  function Diff(score: int, previousScore: Option<int>): (d: Option<int>)
    ensures d.Some? <==> previousScore.Some?
    ensures d.Some? ==> previousScore.value + d.value == score
  {
    if previousScore.Some? then Some(score - previousScore.value) else None
  }

  /** How the score compares with the previous one. */
  datatype Trend = Up | Down | Same

  /** The comparison badge: its trend, its text and whether the congratulation shows. */
  datatype Comparison = Comparison(trend: Trend, text: string, congrats: bool)

  /** The comparison for a `diff`: "+d%" and congratulations on a gain, "d%" on a loss, "No Change" otherwise. */
  function Compare(diff: Option<int>): (c: Comparison)
    ensures c.congrats <==> c.trend == Up
    ensures c.trend == Up <==> diff.Some? && diff.value > 0
    ensures c.trend == Down <==> diff.Some? && diff.value < 0
  {
    if diff.Some? && diff.value > 0 then Comparison(Up, "+" + IntToString(diff.value) + "%", true)
    else if diff.Some? && diff.value < 0 then Comparison(Down, IntToString(diff.value) + "%", false)
    else Comparison(Same, "No Change", false)
  }

  /**
   * The badge text tells the change: a sign and the digits of its size
   * followed by a percent sign on a gain or a loss, and "No Change" when
   * there is no previous score or no difference.
   */
  lemma CompareText(diff: Option<int>)
    ensures var c := Compare(diff);
      && (c.trend == Same <==> c.text == "No Change")
      && (c.trend != Same ==>
            && |c.text| >= 3 && c.text[|c.text| - 1] == '%'
            && c.text[0] == (if c.trend == Up then '+' else '-')
            && c.text[1..|c.text| - 1] == NatToString(if diff.value < 0 then -diff.value else diff.value))
  {
    var c := Compare(diff);
    if c.trend == Up {
      var digits := NatToString(diff.value);
      assert c.text == "+" + digits + "%";
      assert c.text[1..|c.text| - 1] == digits;
    } else if c.trend == Down {
      var digits := NatToString(-diff.value);
      assert c.text == "-" + digits + "%";
      assert c.text[1..|c.text| - 1] == digits;
    }
  }

  /** `getBarGradient`: the colour bucket of the progress bar, 0 (red) to 3 (green). */
  function Bucket(score: int): (b: nat)
    ensures b <= 3
    ensures b == 0 <==> score <= 25
    ensures b == 3 <==> score > 75
    ensures b == 1 <==> 25 < score <= 50
  {
    if score <= 25 then 0 else if score <= 50 then 1 else if score <= 75 then 2 else 3
  }

  /** The gradient classes of each bucket. */
  function Gradient(score: int): string {
    ["from-red-500 to-orange-400", "from-orange-400 to-yellow-300", "from-yellow-300 to-lime-400", "from-lime-400 to-green-500"][Bucket(score)]
  }

  /** A higher score never falls in a lower bucket. */
  lemma BucketMonotone(a: int, b: int)
    requires a <= b
    ensures Bucket(a) <= Bucket(b)
  {
  }

  const StarCount: nat := 5

  /** The score at which star `i` lights: `i * 100 / (NUM_STARS - 1)`, which is 0, 25, 50, 75 and 100. */
  function Threshold(i: nat): (t: int)
    requires i < StarCount
    ensures t == 25 * i
  {
    i * 100 / (StarCount - 1)
  }

  /** The number of stars from `i` on that the score lights. */
  function LitFrom(score: int, i: nat): (n: nat)
    requires i <= StarCount
    ensures n <= StarCount - i
    decreases StarCount - i
  {
    if i == StarCount then 0 else (if score >= Threshold(i) then 1 else 0) + LitFrom(score, i + 1)
  }

  /** The number of lit stars. */
  function LitStars(score: int): nat {
    LitFrom(score, 0)
  }

  /** A higher score lights at least as many stars. */
  lemma {:induction false} LitFromMonotone(a: int, b: int, i: nat)
    requires a <= b && i <= StarCount
    ensures LitFrom(a, i) <= LitFrom(b, i)
    decreases StarCount - i
  {
    if i < StarCount {
      LitFromMonotone(a, b, i + 1);
    }
  }

  lemma LitStarsMonotone(a: int, b: int)
    requires a <= b
    ensures LitStars(a) <= LitStars(b)
  {
    LitFromMonotone(a, b, 0);
  }

  /** A score in 0..100 lights one star for each full 25 points, plus the star at 0. */
  lemma LitStarsCount(score: int)
    requires 0 <= score <= 100
    ensures LitStars(score) == score / 25 + 1
  {
    assert LitFrom(score, 4) == if score >= 100 then 1 else 0;
    assert LitFrom(score, 3) == (if score >= 75 then 1 else 0) + LitFrom(score, 4);
    assert LitFrom(score, 2) == (if score >= 50 then 1 else 0) + LitFrom(score, 3);
    assert LitFrom(score, 1) == (if score >= 25 then 1 else 0) + LitFrom(score, 2);
  }

  /** One row of the answer table: the chosen option's text, the correct option's text and whether they match. */
  datatype Row = Row(chosen: string, correct: string, isCorrect: bool)

  /** `options[i]` as React shows it: an index outside the options renders nothing. */
  function OptionText(options: seq<string>, i: int): string {
    if 0 <= i < |options| then options[i] else ""
  }

  /** The row for question `q`: "Not answered" when there is no answer. */
  function RowOf(q: QuizQuestion, answers: Answers): (r: Row)
    ensures r.isCorrect <==> IsCorrect(answers, q)
    ensures q.id !in answers ==> r.chosen == "Not answered" && !r.isCorrect
    ensures q.id in answers && 0 <= answers[q.id] < |q.options| ==> r.chosen == q.options[answers[q.id]]
  {
    Row(if q.id in answers then OptionText(q.options, answers[q.id]) else "Not answered",
        OptionText(q.options, q.correctIndex),
        q.id in answers && answers[q.id] == q.correctIndex)
  }

  /** The table, one row per question in order. */
  function Rows(questions: seq<QuizQuestion>, answers: Answers): (rows: seq<Row>)
    ensures |rows| == |questions|
    ensures forall i :: 0 <= i < |questions| ==> rows[i] == RowOf(questions[i], answers)
  {
    seq(|questions|, i requires 0 <= i < |questions| => RowOf(questions[i], answers))
  }

  /** The number of rows marked correct. */
  function MarkedCorrect(rows: seq<Row>): nat
    decreases |rows|
  {
    if rows == [] then 0 else MarkedCorrect(rows[..|rows| - 1]) + if rows[|rows| - 1].isCorrect then 1 else 0
  }

  /** The table marks as many rows correct as the count above it says. */
  lemma {:induction false} RowsAgreeWithCount(questions: seq<QuizQuestion>, answers: Answers)
    ensures MarkedCorrect(Rows(questions, answers)) == ReducedCount(questions, answers)
    decreases |questions|
  {
    if questions != [] {
      var init := questions[..|questions| - 1];
      assert Rows(questions, answers)[..|questions| - 1] == Rows(init, answers);
      RowsAgreeWithCount(init, answers);
    }
  }
}
