/**
 * The quiz session (frontend/src/modules/quizzes/component/QuizView.tsx):
 * the Fisher-Yates shuffle, the MM:SS timer text, the time budget and the
 * once-a-second tick, the score sent on submit, and the component state
 * as a class whose methods are the load effect, the handlers and the
 * navigation buttons. The random swap index is an arbitrary choice in
 * [0, i]; the server's reply to a submit is a parameter.
 */
module QuizView {
  import opened Wrappers
  import opened Strings
  import opened Seqs

  /** A quiz question as the API returns it. */
  datatype QuizQuestion = QuizQuestion(id: int, question: string, options: seq<string>, correctIndex: int, noteId: int)

  /** The chosen option index per question id; a question without an entry is unanswered. */
  type Answers = map<int, int>

  /** `shuffleArray`: a copy of the questions, shuffled by swapping each position from the end with one at or before it. */
  method Shuffle(input: seq<QuizQuestion>) returns (r: seq<QuizQuestion>)
    ensures |r| == |input| && multiset(r) == multiset(input)
  {
    var arr := new QuizQuestion[|input|](k requires 0 <= k < |input| => input[k]);
    assert arr[..] == input;
    var i := arr.Length - 1;
    while i > 0
      invariant -1 <= i < arr.Length
      invariant multiset(arr[..]) == multiset(input)
    {
      var j :| 0 <= j <= i;
      ghost var before := arr[..];
      arr[i], arr[j] := arr[j], arr[i];
      assert arr[..] == before[i := before[j]][j := before[i]];
      SwapPermutes(before, i, j);
      i := i - 1;
    }
    r := arr[..];
  }

  /** Swapping two positions permutes a sequence. */
  lemma SwapPermutes(s: seq<QuizQuestion>, i: nat, j: nat)
    requires i < |s| && j < |s|
    ensures multiset(s[i := s[j]][j := s[i]]) == multiset(s)
  {
  }

  /** `formatTime(sec)`: whole minutes and the remaining seconds, each padded to two digits, joined by a colon. */
  function FormatTime(sec: nat): string {
    PadStart2(NatToString(sec / 60)) + ":" + PadStart2(NatToString(sec % 60))
  }

  /** A number below 100 prints in at most two digits. */
  lemma {:induction false} TwoDigits(n: nat)
    requires n < 100
    ensures |NatToString(n)| <= 2
  {
    if n >= 10 {
      assert NatToString(n) == NatToString(n / 10) + [DigitChar(n % 10)];
    }
  }

  /** Padding with zeros does not change the value the digits denote. */
  lemma PadKeepsValue(s: string)
    requires AllDigits(s)
    ensures AllDigits(PadStart2(s))
    ensures ParseDigits(PadStart2(s)) == ParseDigits(s)
  {
    var p := PadStart2(s);
    if |s| == 0 {
      assert p[..1] == "0" && p[..1][..0] == [];
    } else if |s| == 1 {
      assert p[..1] == "0" && p[..1][..0] == [];
      assert s[..0] == [];
    }
  }

  /** Joining two digit strings with a colon: each field can be cut back out, and only the colon is not a digit. */
  lemma ColonJoin(a: string, b: string)
    requires AllDigits(a) && AllDigits(b) && |b| == 2
    ensures var t := a + ":" + b;
      && |t| == |a| + 3 && t[|t| - 3] == ':' && t[..|t| - 3] == a && t[|t| - 2..] == b
      && forall i :: 0 <= i < |t| && i != |t| - 3 ==> '0' <= t[i] <= '9'
  {
    var t := a + ":" + b;
    assert forall i :: |a| < i < |t| ==> t[i] == b[i - |a| - 1];
  }

  /**
   * `t` is digits around one colon with two digits after it; the minutes
   * field reads as the whole minutes of `sec` and the seconds field as the
   * seconds left over, below 60.
   */
  predicate ReadsAsTime(t: string, sec: nat) {
    && |t| >= 5 && t[|t| - 3] == ':'
    && (forall i :: 0 <= i < |t| && i != |t| - 3 ==> '0' <= t[i] <= '9')
    && var minutes, seconds := t[..|t| - 3], t[|t| - 2..];
    && AllDigits(minutes) && AllDigits(seconds)
    && ParseDigits(minutes) == sec / 60 && ParseDigits(seconds) == sec % 60
    && ParseDigits(seconds) < 60 && ParseDigits(minutes) * 60 + ParseDigits(seconds) == sec
  }

  /**
   * The timer text reads back as the time: the minutes field is at least
   * two digits and holds `sec / 60`, the seconds field is exactly two
   * digits and holds `sec % 60`, so "00:90" never appears.
   */
  lemma FormatTimeReadsBack(sec: nat)
    ensures ReadsAsTime(FormatTime(sec), sec)
  {
    var m, s := NatToString(sec / 60), NatToString(sec % 60);
    TwoDigits(sec % 60);
    PadKeepsValue(m);
    PadKeepsValue(s);
    ParseNatToString(sec / 60);
    ParseNatToString(sec % 60);
    ColonJoin(PadStart2(m), PadStart2(s));
  }

  /** The time budget: 60 seconds per question, and 60 seconds for an empty quiz. */
  function TotalTime(count: nat): (secs: nat)
    ensures secs >= 60 && secs % 60 == 0
    ensures count > 0 ==> secs / 60 == count
  {
    (if count == 0 then 1 else count) * 60
  }

  /** One second of the countdown: the new time left and whether the quiz submits itself. */
  function Tick(timeLeft: int): (r: (int, bool))
    ensures r.0 >= 0
    ensures r.1 <==> timeLeft <= 1
    ensures r.1 ==> r.0 == 0
    ensures !r.1 ==> r.0 == timeLeft - 1
  {
    if timeLeft <= 1 then (0, true) else (timeLeft - 1, false)
  }

  /** How many ticks pass, starting from `timeLeft`, until the quiz submits itself. */
  function TicksUntilSubmit(timeLeft: int): nat
    decreases if timeLeft < 0 then 0 else timeLeft
  {
    var (next, submit) := Tick(timeLeft);
    if submit then 1 else 1 + TicksUntilSubmit(next)
  }

  /** A countdown from `t` seconds submits on its `t`-th tick (on the first when `t` is not positive). */
  lemma {:induction false} CountdownLength(t: int)
    ensures TicksUntilSubmit(t) == if t < 1 then 1 else t
    decreases if t < 0 then 0 else t
  {
    if t > 1 {
      CountdownLength(t - 1);
    }
  }

  /** `answers[q.id] === q.correct_index`: answered, and with the correct option. */
  predicate IsCorrect(answers: Answers, q: QuizQuestion) {
    q.id in answers && answers[q.id] == q.correctIndex
  }

  /** `questions.filter(q => answers[q.id] === q.correct_index).length`. */
  function CorrectCount(questions: seq<QuizQuestion>, answers: Answers): (c: nat)
    ensures c <= |questions|
  {
    |Filter(questions, (q: QuizQuestion) => IsCorrect(answers, q))|
  }

  /** `Math.round((correct / total) * 100)` on exact arithmetic: the nearest whole percent, halves rounding up. */
  function Percent(correct: nat, total: nat): int
    requires total > 0
  {
    (200 * correct + total) / (2 * total)
  }

  /** No correct answer scores 0, all correct score 100, and the score always lies in 0..100. */
  lemma PercentBounds(correct: nat, total: nat)
    requires 0 < total && correct <= total
    ensures 0 <= Percent(correct, total) <= 100
    ensures correct == 0 ==> Percent(correct, total) == 0
    ensures correct == total ==> Percent(correct, total) == 100
  {
    DivIs(201 * total, 2 * total, 100);
    PercentMonotone(correct, total, total);
    PercentMonotone(0, correct, total);
    DivIs(total, 2 * total, 0);
  }

  /** More correct answers never score less. */
  lemma PercentMonotone(a: nat, b: nat, total: nat)
    requires 0 < total && a <= b
    ensures Percent(a, total) <= Percent(b, total)
  {
    DivMonotone(200 * a + total, 200 * b + total, 2 * total);
  }

  lemma DivMonotone(x: nat, y: nat, d: nat)
    requires 0 < d && x <= y
    ensures x / d <= y / d
  {
    var qx, qy := x / d, y / d;
    assert d * qx <= x && y < d * qy + d;
    assert d * qx < d * (qy + 1);
    MulLtCancel(d, qx, qy + 1);
  }

  lemma MulLtCancel(d: nat, a: int, b: int)
    requires 0 < d && d * a < d * b
    ensures a < b
  {
  }

  lemma DivIs(n: int, d: int, q: int)
    requires d > 0 && q * d <= n < q * d + d
    ensures n / d == q
  {
    var r, m := n / d, n % d;
    assert n == d * r + m && 0 <= m < d;
    if r < q {
      MulLe(d, r, q - 1);
    } else if r > q {
      MulLe(d, q + 1, r);
    }
  }

  lemma MulLe(d: nat, a: int, b: int)
    requires a <= b
    ensures d * a <= d * b
  {
  }

  /** The reply of the exam-result endpoint. */
  datatype ExamReply = ExamReply(previousScore: Option<int>, currentScore: Option<int>)

  /** The quiz component's state. */
  class Quiz {
    var rawQuestions: seq<QuizQuestion>
    var questions: seq<QuizQuestion>
    var previousScore: Option<int>
    var current: int
    var answers: Answers
    var submitted: bool
    var score: Option<int>
    var timeLeft: int
    var totalTime: int
    var lastActivity: int

    /** The position shown is a question of the list, or 0 when the list is empty. */
    predicate Valid()
      reads this
    {
      0 <= current && (current < |questions| || current == 0)
    }

    /** The initial state, before the questions load. */
    constructor ()
      ensures Valid() && questions == [] && rawQuestions == [] && timeLeft == 0 && totalTime == 0
      ensures !submitted && score.None? && answers == map[] && previousScore.None?
    {
      rawQuestions := [];
      questions := [];
      previousScore := None;
      current := 0;
      answers := map[];
      submitted := false;
      score := None;
      timeLeft := 0;
      totalTime := 0;
      lastActivity := 0;
    }

    /**
     * The load effect: the questions arrive (an empty list for a null
     * reply), are shuffled, the clock is set to the time budget and
     * everything else resets; a failed request (None) changes nothing.
     */
    method Load(fetched: Option<seq<QuizQuestion>>)
      requires Valid()
      modifies this
      ensures Valid() && lastActivity == old(lastActivity)
      ensures fetched.Some? ==> (rawQuestions == fetched.value && |questions| == |fetched.value|
        && multiset(questions) == multiset(fetched.value)
        && timeLeft == TotalTime(|fetched.value|) && totalTime == TotalTime(|fetched.value|)
        && score.None? && !submitted && answers == map[] && current == 0 && previousScore.None?)
      ensures fetched.None? ==> (rawQuestions == old(rawQuestions) && questions == old(questions)
        && timeLeft == old(timeLeft) && totalTime == old(totalTime) && score == old(score)
        && submitted == old(submitted) && answers == old(answers) && current == old(current)
        && previousScore == old(previousScore))
    {
      if fetched.None? {
        return;
      }
      var data := fetched.value;
      rawQuestions := data;
      questions := Shuffle(data);
      var secs := TotalTime(|data|);
      timeLeft := secs;
      totalTime := secs;
      score := None;
      submitted := false;
      answers := map[];
      current := 0;
      previousScore := None;
    }

    /**
     * One firing of the interval timer, which runs only while the quiz is
     * unsubmitted and has a time budget; returns whether it calls for the
     * submit.
     */
    method TickSecond() returns (autoSubmit: bool)
      modifies this
      ensures old(submitted) || old(totalTime) <= 0 ==> !autoSubmit && timeLeft == old(timeLeft)
      ensures !(old(submitted) || old(totalTime) <= 0) ==> (timeLeft, autoSubmit) == Tick(old(timeLeft))
      ensures questions == old(questions) && current == old(current) && answers == old(answers)
      ensures submitted == old(submitted) && score == old(score) && totalTime == old(totalTime)
      ensures rawQuestions == old(rawQuestions) && previousScore == old(previousScore) && lastActivity == old(lastActivity)
    {
      autoSubmit := false;
      if submitted || totalTime <= 0 {
        return;
      }
      var (next, submit) := Tick(timeLeft);
      timeLeft := next;
      autoSubmit := submit;
    }

    /** Choosing option `idx` for the question shown. */
    method Select(idx: int)
      requires Valid() && |questions| > 0
      modifies this
      ensures Valid() && answers == old(answers)[old(questions[current]).id := idx]
      ensures questions == old(questions) && current == old(current) && submitted == old(submitted)
      ensures score == old(score) && timeLeft == old(timeLeft) && totalTime == old(totalTime)
      ensures rawQuestions == old(rawQuestions) && previousScore == old(previousScore) && lastActivity == old(lastActivity)
    {
      answers := answers[questions[current].id := idx];
    }

    /** The Previous button, disabled on the first question. */
    method Previous(now: int)
      requires Valid()
      modifies this
      ensures Valid()
      ensures old(current) == 0 ==> current == 0 && lastActivity == old(lastActivity)
      ensures old(current) > 0 ==> current == old(current) - 1 && lastActivity == now
      ensures questions == old(questions) && answers == old(answers) && submitted == old(submitted)
      ensures score == old(score) && timeLeft == old(timeLeft) && totalTime == old(totalTime)
      ensures rawQuestions == old(rawQuestions) && previousScore == old(previousScore)
    {
      if current != 0 {
        current := current - 1;
        lastActivity := now;
      }
    }

    /** The Next button, shown before the last question and enabled once the question shown is answered. */
    method Next(now: int)
      requires Valid()
      modifies this
      ensures Valid()
      ensures var moves := old(current) < |questions| - 1 && questions[old(current)].id in answers;
        && (moves ==> current == old(current) + 1 && lastActivity == now)
        && (!moves ==> current == old(current) && lastActivity == old(lastActivity))
      ensures questions == old(questions) && answers == old(answers) && submitted == old(submitted)
      ensures score == old(score) && timeLeft == old(timeLeft) && totalTime == old(totalTime)
      ensures rawQuestions == old(rawQuestions) && previousScore == old(previousScore)
    {
      if current < |questions| - 1 && questions[current].id in answers {
        current := current + 1;
        lastActivity := now;
      }
    }

    /**
     * `handleSubmit`: with no questions nothing is sent and nothing
     * changes. Otherwise the percentage of correct answers is sent; if the
     * request succeeds with `reply`, the previous score and the score are
     * taken from it (the score falling back to the percentage) and the
     * quiz is submitted; a failed request changes nothing.
     */
    method Submit(reply: Option<ExamReply>) returns (sent: Option<int>)
      modifies this
      ensures questions == old(questions) && answers == old(answers) && current == old(current)
      ensures timeLeft == old(timeLeft) && totalTime == old(totalTime)
      ensures rawQuestions == old(rawQuestions) && lastActivity == old(lastActivity)
      ensures sent.None? <==> questions == []
      ensures sent.Some? ==> (sent.value == Percent(CorrectCount(questions, answers), |questions|)
        && 0 <= sent.value <= 100)
      ensures sent.Some? && reply.Some? ==> (previousScore == reply.value.previousScore
        && score == Some(reply.value.currentScore.GetOr(sent.value)) && submitted)
      ensures !(sent.Some? && reply.Some?) ==> (previousScore == old(previousScore) && score == old(score)
        && submitted == old(submitted))
    {
      if |questions| == 0 {
        return None;
      }
      var total := |questions|;
      var correct := CorrectCount(questions, answers);
      var percent := Percent(correct, total);
      PercentBounds(correct, total);
      sent := Some(percent);
      if reply.Some? {
        previousScore := reply.value.previousScore;
        score := Some(reply.value.currentScore.GetOr(percent));
        submitted := true;
      }
    }

    /** `handleRetry`: a fresh shuffle of the loaded questions, cleared answers and score, the first question and a full clock; the previous score stays. */
    method Retry()
      modifies this
      ensures Valid()
      ensures |questions| == |rawQuestions| && multiset(questions) == multiset(rawQuestions)
      ensures answers == map[] && current == 0 && score.None? && !submitted && timeLeft == totalTime
      ensures rawQuestions == old(rawQuestions) && totalTime == old(totalTime)
      ensures previousScore == old(previousScore) && lastActivity == old(lastActivity)
    {
      questions := Shuffle(rawQuestions);
      answers := map[];
      current := 0;
      score := None;
      submitted := false;
      timeLeft := totalTime;
    }
  }
}
