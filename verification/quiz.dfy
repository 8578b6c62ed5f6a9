/** Quiz grading (`evaluate_quiz_attempt` in backend/app/services/quiz_service.py):
    questions and answers are paired up, each pair is graded, and the wrong answers
    are tallied per topic to find the weak areas. */
module Quiz {
  import opened Wrappers
  import Config

  /** The fields of a generated question that grading reads; `None` is a missing key. */
  datatype Question = Question(correctAnswer: Option<string>, topic: Option<string>, explanation: Option<string>)

  /** One entry of the `results` list. */
  datatype QuestionResult = QuestionResult(
    questionIndex: nat,
    correct: bool,
    userAnswer: string,
    correctAnswer: Option<string>,
    explanation: string)

  /** The dictionary the grading returns. The score is kept as an exact real. */
  datatype Evaluation = Evaluation(
    score: real,
    correct: nat,
    total: nat,
    weakAreas: seq<string>,
    results: seq<QuestionResult>,
    passed: bool)

  /** Topic charged for a wrong answer to a question that names none. */
  const DefaultTopic: string := "general"

  /** An answer is right exactly when the question has a correct answer equal to it;
      a question without one can never be answered correctly. */
  predicate IsCorrect(q: Question, answer: string)
  {
    q.correctAnswer == Some(answer)
  }

  function TopicOf(q: Question): string
  {
    q.topic.GetOr(DefaultTopic)
  }

  /** `zip` stops at the shorter list: only this many pairs are graded. */
  function Graded(questions: seq<Question>, answers: seq<string>): (n: nat)
    ensures n <= |questions| && n <= |answers|
    ensures n == |questions| || n == |answers|
  {
    if |questions| <= |answers| then |questions| else |answers|
  }

  // ---------------------------------------------------------------------------
  // Reference definitions over the first n graded pairs

  /** The indices of the right answers among the first `n` pairs. */
  ghost function RightAmong(questions: seq<Question>, answers: seq<string>, n: nat): set<nat>
    requires n <= |questions| && n <= |answers|
  {
    set k: nat | k < n && IsCorrect(questions[k], answers[k])
  }

  /** Number of right answers among the first `n` pairs: as many as there are indices
      below `n` whose answer is right. */
  function CorrectCount(questions: seq<Question>, answers: seq<string>, n: nat): (c: nat)
    requires n <= |questions| && n <= |answers|
    ensures c == |RightAmong(questions, answers, n)|
    ensures c <= n
  {
    if n == 0 then
      assert RightAmong(questions, answers, 0) == {};
      0
    else
      var prev := RightAmong(questions, answers, n - 1);
      if IsCorrect(questions[n - 1], answers[n - 1]) then
        assert RightAmong(questions, answers, n) == prev + {n - 1};
        assert n - 1 !in prev;
        CorrectCount(questions, answers, n - 1) + 1
      else
        assert RightAmong(questions, answers, n) == prev;
        CorrectCount(questions, answers, n - 1)
  }

  /** The topic of every wrongly answered question among the first `n` pairs, in
      question order; a topic occurs once per wrong answer. */
  function WrongTopics(questions: seq<Question>, answers: seq<string>, n: nat): (w: seq<string>)
    requires n <= |questions| && n <= |answers|
    ensures |w| + CorrectCount(questions, answers, n) == n
  {
    if n == 0 then []
    else if IsCorrect(questions[n - 1], answers[n - 1]) then WrongTopics(questions, answers, n - 1)
    else WrongTopics(questions, answers, n - 1) + [TopicOf(questions[n - 1])]
  }

  /** Position of the first occurrence of `x` in `s`. */
  function FirstIndex(s: seq<string>, x: string): (r: nat)
    requires x in s
    ensures r < |s| && s[r] == x
    ensures forall k :: 0 <= k < r ==> s[k] != x
  {
    if s[0] == x then 0 else 1 + FirstIndex(s[1..], x)
  }

  /** The distinct elements of `s` in order of first occurrence: the key order of a
      Python dictionary filled from `s`. */
  function Dedup(s: seq<string>): (d: seq<string>)
    ensures forall x :: x in d <==> x in s
    ensures forall i, j :: 0 <= i < j < |d| ==> d[i] != d[j]
  {
    if |s| == 0 then []
    else
      var d := Dedup(s[..|s| - 1]);
      assert forall x :: x in s <==> x in s[..|s| - 1] || x == s[|s| - 1] by {
        assert s == s[..|s| - 1] + [s[|s| - 1]];
      }
      if s[|s| - 1] in d then d else d + [s[|s| - 1]]
  }

  /** Appending to a sequence appends to its distinct elements exactly when the element is new. */
  lemma DedupSnoc(s: seq<string>, x: string)
    ensures Dedup(s + [x]) == if x in Dedup(s) then Dedup(s) else Dedup(s) + [x]
  {
    assert (s + [x])[..|s|] == s;
  }

  /** Extending a sequence does not move the first occurrence of an element it already had. */
  lemma FirstIndexPrefix(s: seq<string>, m: nat, x: string)
    requires m <= |s| && x in s[..m]
    ensures FirstIndex(s, x) == FirstIndex(s[..m], x)
  {
    var r := FirstIndex(s[..m], x);
    assert s[..m][r] == s[r];
    assert forall k :: 0 <= k < r ==> s[..m][k] == s[k];
  }

  /** `Dedup` lists elements in increasing order of their first occurrence. */
  lemma {:induction false} DedupOrdered(s: seq<string>)
    ensures forall i, j :: 0 <= i < j < |Dedup(s)| ==> FirstIndex(s, Dedup(s)[i]) < FirstIndex(s, Dedup(s)[j])
  {
    if |s| > 0 {
      var m := |s| - 1;
      var p := s[..m];
      var d := Dedup(p);
      assert s == p + [s[m]];
      DedupOrdered(p);
      forall i | 0 <= i < |d|
        ensures FirstIndex(s, d[i]) == FirstIndex(p, d[i]) && FirstIndex(p, d[i]) < m
      {
        FirstIndexPrefix(s, m, d[i]);
      }
      if s[m] !in d {
        FirstIndexOfNew(s);
      }
    }
  }

  /** An element that first appears at the end of `s` has its first occurrence there. */
  lemma FirstIndexOfNew(s: seq<string>)
    requires |s| > 0 && s[|s| - 1] !in s[..|s| - 1]
    ensures FirstIndex(s, s[|s| - 1]) == |s| - 1
  {
    var m := |s| - 1;
    forall k | 0 <= k < m
      ensures s[k] != s[m]
    {
      assert s[k] == s[..m][k];
    }
  }

  /** Three different topics cannot together be charged more wrong answers than there are. */
  lemma {:induction false} ThreeCountsFit(s: seq<string>, a: string, b: string, c: string)
    requires a != b && b != c && a != c
    ensures multiset(s)[a] + multiset(s)[b] + multiset(s)[c] <= |s|
  {
    if |s| > 0 {
      var m := |s| - 1;
      ThreeCountsFit(s[..m], a, b, c);
      assert s == s[..m] + [s[m]];
      assert multiset(s) == multiset(s[..m]) + multiset{s[m]};
    }
  }

  /** More than two fifths of the questions cannot go wrong under each of three topics. */
  lemma AtMostTwoWeak(wrong: seq<string>, total: nat, weak: seq<string>)
    requires |wrong| <= total
    requires forall i :: 0 <= i < |weak| ==> 5 * multiset(wrong)[weak[i]] > 2 * total
    requires forall i, j :: 0 <= i < j < |weak| ==> weak[i] != weak[j]
    ensures |weak| <= 2
  {
    if |weak| > 2 {
      ThreeCountsFit(wrong, weak[0], weak[1], weak[2]);
      assert false;
    }
  }

  // ---------------------------------------------------------------------------
  // Thresholds

  /** Multiplying both sides by a positive number keeps an inequality. */
  lemma ScaleCompare(a: real, b: real, t: real)
    requires t > 0.0
    ensures a >= b <==> a * t >= b * t
    ensures a > b <==> a * t > b * t
  {
    if a >= b {
      assert (a - b) * t >= 0.0;
    }
    if a > b {
      assert (a - b) * t > 0.0;
    }
    if b > a {
      assert (b - a) * t > 0.0;
    }
    if b >= a {
      assert (b - a) * t >= 0.0;
    }
  }

  /** `score >= MIN_QUIZ_ACCURACY * 100` on a score of `correct / total * 100`. */
  lemma PassThreshold(correct: nat, total: nat)
    requires total > 0
    ensures (correct as real / total as real) * 100.0 >= Config.MinQuizAccuracy * 100.0
            <==> 10 * correct >= 7 * total
  {
    var q := correct as real / total as real;
    var t := total as real;
    assert q * t == correct as real;
    assert Config.MinQuizAccuracy * 100.0 == 70.0;
    assert q * 100.0 >= 70.0 <==> q >= 0.7;
    ScaleCompare(q, 0.7, t);
    assert q >= 0.7 <==> correct as real >= 0.7 * t;
    assert correct as real >= 0.7 * t <==> (10 * correct) as real >= (7 * total) as real;
  }

  /** `errors / total > 1 - WEAK_AREA_THRESHOLD`. */
  lemma WeakThreshold(errors: nat, total: nat)
    requires total > 0
    ensures errors as real / total as real > 1.0 - Config.WeakAreaThreshold <==> 5 * errors > 2 * total
  {
    var q := errors as real / total as real;
    var t := total as real;
    assert q * t == errors as real;
    assert 1.0 - Config.WeakAreaThreshold == 0.4;
    ScaleCompare(q, 0.4, t);
    assert q > 0.4 <==> errors as real > 0.4 * t;
    assert errors as real > 0.4 * t <==> (5 * errors) as real > (2 * total) as real;
  }

  /** `errors / total > (1 - WEAK_AREA_THRESHOLD)` for a topic charged `errors` wrong answers. */
  predicate IsWeak(errors: nat, total: nat)
    requires total > 0
    ensures IsWeak(errors, total) <==> 5 * errors > 2 * total
  {
    WeakThreshold(errors, total);
    errors as real / total as real > 1.0 - Config.WeakAreaThreshold
  }

  /** A score of `correct / total * 100` lies between 0 and 100 when at most `total` answers are right. */
  lemma ScoreRange(correct: nat, total: nat)
    requires 0 < total
    ensures 0.0 <= (correct as real / total as real) * 100.0
    ensures correct <= total ==> (correct as real / total as real) * 100.0 <= 100.0
  {
    var q := correct as real / total as real;
    assert q * total as real == correct as real;
    ScaleCompare(q, 0.0, total as real);
    ScaleCompare(1.0, q, total as real);
  }

  /** The score times the number of questions is a hundred times the right answers. */
  lemma ScoreTimesTotal(correct: nat, total: nat)
    requires 0 < total
    ensures (correct as real / total as real) * 100.0 * total as real == 100.0 * correct as real
  {
    var q := correct as real / total as real;
    assert q * total as real == correct as real;
    assert q * 100.0 * total as real == 100.0 * (q * total as real);
  }

  /** `score` and `passed`: the percentage of right answers over all questions, 0 for an
      empty quiz, and whether it reaches `MIN_QUIZ_ACCURACY`. */
  function ScoreOf(correct: nat, total: nat): (score: real)
    ensures total == 0 ==> score == 0.0
    ensures total > 0 ==> score * total as real == 100.0 * correct as real
    ensures correct <= total ==> 0.0 <= score <= 100.0
    ensures score >= Config.MinQuizAccuracy * 100.0 <==> total > 0 && 10 * correct >= 7 * total
  {
    if total > 0 then
      ScoreRange(correct, total);
      PassThreshold(correct, total);
      ScoreTimesTotal(correct, total);
      (correct as real / total as real) * 100.0
    else 0.0
  }

  /** Only a quiz with every question answered right scores 100. */
  lemma FullScore(correct: nat, total: nat)
    requires correct <= total
    ensures ScoreOf(correct, total) == 100.0 <==> total > 0 && correct == total
  {
    if total > 0 {
      var score := ScoreOf(correct, total);
      var t := total as real;
      assert score * t == 100.0 * correct as real;
      ScaleCompare(score, 100.0, t);
      ScaleCompare(100.0, score, t);
      assert score == 100.0 <==> score * t == 100.0 * t;
      assert score * t == 100.0 * t <==> correct == total;
    }
  }

  /** Questions left without an answer count against the score: an attempt with fewer
      answers than questions never scores 100. */
  lemma {:induction false} UnansweredCostPoints(questions: seq<Question>, answers: seq<string>)
    requires |answers| < |questions|
    ensures ScoreOf(CorrectCount(questions, answers, Graded(questions, answers)), |questions|) < 100.0
  {
    var c := CorrectCount(questions, answers, Graded(questions, answers));
    FullScore(c, |questions|);
  }

  /** Answering every question right passes with no weak area. */
  lemma {:induction false} PerfectAttempt(questions: seq<Question>, answers: seq<string>, n: nat)
    requires n <= |questions| && n <= |answers|
    requires forall i :: 0 <= i < n ==> IsCorrect(questions[i], answers[i])
    ensures CorrectCount(questions, answers, n) == n
    ensures WrongTopics(questions, answers, n) == []
  {
    if n > 0 {
      PerfectAttempt(questions, answers, n - 1);
    }
  }

  // ---------------------------------------------------------------------------
  // Grading

  /** `r` is the entry the grading writes for pair `i`. */
  predicate Reports(r: QuestionResult, i: nat, q: Question, answer: string)
  {
    && r.questionIndex == i
    && r.correct == IsCorrect(q, answer)
    && r.userAnswer == answer
    && r.correctAnswer == q.correctAnswer
    && r.explanation == q.explanation.GetOr("")
  }

  /** Charging one more wrong answer to `topic` keeps the dictionary of error counts and
      its key order in step with the list of wrong topics. */
  lemma TallyStep(wrong: seq<string>, topic: string, errors: map<string, nat>, order: seq<string>)
    requires order == Dedup(wrong)
    requires forall t :: t in errors <==> t in order
    requires forall t :: t in errors ==> errors[t] == multiset(wrong)[t]
    ensures var errors' := if topic in errors then errors[topic := errors[topic] + 1] else errors[topic := 1];
            var order' := if topic in errors then order else order + [topic];
            && order' == Dedup(wrong + [topic])
            && (forall t :: t in errors' <==> t in order')
            && (forall t :: t in errors' ==> errors'[t] == multiset(wrong + [topic])[t])
  {
    DedupSnoc(wrong, topic);
    assert topic in errors <==> topic in wrong;
    if topic in errors {
      TallyCountStep(wrong, topic, errors, errors[topic := errors[topic] + 1]);
    } else {
      assert multiset(wrong)[topic] == 0;
      TallyCountStep(wrong, topic, errors, errors[topic := 1]);
      assert forall t :: t in order + [topic] <==> t in order || t == topic;
    }
  }

  /** Adding one to `topic`'s count, or starting it at one, keeps the counts equal to the
      multiplicities in the list of wrong topics. */
  lemma TallyCountStep(wrong: seq<string>, topic: string, errors: map<string, nat>, errors': map<string, nat>)
    requires forall t :: t in errors ==> errors[t] == multiset(wrong)[t]
    requires errors' == if topic in errors then errors[topic := errors[topic] + 1] else errors[topic := 1]
    requires topic !in errors ==> multiset(wrong)[topic] == 0
    ensures forall t :: t in errors' ==> errors'[t] == multiset(wrong + [topic])[t]
  {
    var m := multiset(wrong + [topic]);
    assert m == multiset(wrong) + multiset{topic};
    forall t | t in errors'
      ensures errors'[t] == m[t]
    {
      if t != topic {
        assert errors'[t] == errors[t];
      }
    }
  }

  /** The state of the grading loop: the right answers so far, the dictionary of wrong
      answers per topic (`errors`, whose keys in insertion order are `order`), and the
      result entries written so far. */
  datatype Tally = Tally(correct: nat, errors: map<string, nat>, order: seq<string>, results: seq<QuestionResult>)

  /** One iteration of the grading loop, for pair `i`: the entry reporting the pair is
      appended; a right answer is counted; a wrong one is charged to its topic, which
      joins the end of the key order the first time it is charged. */
  function Record(tally: Tally, i: nat, question: Question, answer: string): (r: Tally)
    ensures |r.results| == |tally.results| + 1 && r.results[..|tally.results|] == tally.results
    ensures Reports(r.results[|tally.results|], i, question, answer)
    ensures IsCorrect(question, answer) ==>
              r.correct == tally.correct + 1 && r.errors == tally.errors && r.order == tally.order
    ensures !IsCorrect(question, answer) ==>
              var topic := TopicOf(question);
              && r.correct == tally.correct
              && r.errors == tally.errors[topic := (if topic in tally.errors then tally.errors[topic] else 0) + 1]
              && r.order == (if topic in tally.errors then tally.order else tally.order + [topic])
  {
    var isCorrect := IsCorrect(question, answer);
    var entry := QuestionResult(i, isCorrect, answer, question.correctAnswer, question.explanation.GetOr(""));
    if isCorrect then
      Tally(tally.correct + 1, tally.errors, tally.order, tally.results + [entry])
    else
      var topic := TopicOf(question);
      if topic in tally.errors then
        Tally(tally.correct, tally.errors[topic := tally.errors[topic] + 1], tally.order, tally.results + [entry])
      else
        Tally(tally.correct, tally.errors[topic := 1], tally.order + [topic], tally.results + [entry])
  }

  /** The loop state after the first `n` pairs: one result per pair, and no more right
      answers than pairs. */
  function TallyOf(questions: seq<Question>, answers: seq<string>, n: nat): (t: Tally)
    requires n <= |questions| && n <= |answers|
    ensures |t.results| == n
    ensures t.correct <= n
  {
    if n == 0 then Tally(0, map[], [], [])
    else Record(TallyOf(questions, answers, n - 1), n - 1, questions[n - 1], answers[n - 1])
  }

  /** The dictionary of wrong answers per topic, with its key order, agrees with the list of wrong topics. */
  ghost predicate TalliesErrors(wrong: seq<string>, tally: Tally)
  {
    && tally.order == Dedup(wrong)
    && (forall t :: t in tally.errors <==> t in tally.order)
    && (forall t :: t in tally.errors ==> tally.errors[t] == multiset(wrong)[t])
  }

  /** `tally` accounts for the first `n` pairs exactly as the reference definitions say. */
  ghost predicate Accounts(questions: seq<Question>, answers: seq<string>, n: nat, tally: Tally)
    requires n <= |questions| && n <= |answers|
  {
    && tally.correct == CorrectCount(questions, answers, n)
    && TalliesErrors(WrongTopics(questions, answers, n), tally)
    && |tally.results| == n
    && (forall k :: 0 <= k < n ==> Reports(tally.results[k], k, questions[k], answers[k]))
  }

  lemma {:induction false} TallyOfCorrect(questions: seq<Question>, answers: seq<string>, n: nat)
    requires n <= |questions| && n <= |answers|
    ensures TallyOf(questions, answers, n).correct == CorrectCount(questions, answers, n)
  {
    if n > 0 {
      TallyOfCorrect(questions, answers, n - 1);
      CorrectStep(questions, answers, n, TallyOf(questions, answers, n - 1), TallyOf(questions, answers, n));
    }
  }

  /** One more graded pair adds the same to the loop's count as to the reference count. */
  lemma CorrectStep(questions: seq<Question>, answers: seq<string>, n: nat, prev: Tally, next: Tally)
    requires 0 < n <= |questions| && n <= |answers|
    requires next == Record(prev, n - 1, questions[n - 1], answers[n - 1])
    requires prev.correct == CorrectCount(questions, answers, n - 1)
    ensures next.correct == CorrectCount(questions, answers, n)
  {
    var bump := if IsCorrect(questions[n - 1], answers[n - 1]) then 1 else 0;
    assert next.correct == prev.correct + bump;
    assert CorrectCount(questions, answers, n) == CorrectCount(questions, answers, n - 1) + bump;
  }

  lemma {:induction false} TallyOfErrors(questions: seq<Question>, answers: seq<string>, n: nat)
    requires n <= |questions| && n <= |answers|
    ensures TalliesErrors(WrongTopics(questions, answers, n), TallyOf(questions, answers, n))
  {
    if n > 0 {
      TallyOfErrors(questions, answers, n - 1);
      RecordErrors(questions, answers, n);
    }
  }

  /** One more graded pair keeps the dictionary of error counts in step with the wrong topics. */
  lemma RecordErrors(questions: seq<Question>, answers: seq<string>, n: nat)
    requires 0 < n <= |questions| && n <= |answers|
    requires TalliesErrors(WrongTopics(questions, answers, n - 1), TallyOf(questions, answers, n - 1))
    ensures TalliesErrors(WrongTopics(questions, answers, n), TallyOf(questions, answers, n))
  {
    var m := n - 1;
    var prev := TallyOf(questions, answers, m);
    var wrong := WrongTopics(questions, answers, m);
    var q, a := questions[m], answers[m];
    assert TallyOf(questions, answers, n) == Record(prev, m, q, a);
    if IsCorrect(q, a) {
      assert WrongTopics(questions, answers, n) == wrong;
    } else {
      assert WrongTopics(questions, answers, n) == wrong + [TopicOf(q)];
      RecordWrong(wrong, prev, m, q, a);
    }
  }

  /** Grading a wrong answer charges it to its topic in the dictionary of error counts. */
  lemma RecordWrong(wrong: seq<string>, prev: Tally, i: nat, q: Question, a: string)
    requires !IsCorrect(q, a)
    requires TalliesErrors(wrong, prev)
    ensures TalliesErrors(wrong + [TopicOf(q)], Record(prev, i, q, a))
  {
    var topic := TopicOf(q);
    var next := Record(prev, i, q, a);
    TallyStep(wrong, topic, prev.errors, prev.order);
    if topic in prev.errors {
      assert next.errors == prev.errors[topic := prev.errors[topic] + 1] && next.order == prev.order;
    } else {
      assert next.errors == prev.errors[topic := 1] && next.order == prev.order + [topic];
    }
  }

  lemma {:induction false} TallyOfResults(questions: seq<Question>, answers: seq<string>, n: nat)
    requires n <= |questions| && n <= |answers|
    ensures |TallyOf(questions, answers, n).results| == n
    ensures forall k :: 0 <= k < n ==> Reports(TallyOf(questions, answers, n).results[k], k, questions[k], answers[k])
  {
    if n > 0 {
      var m := n - 1;
      var prev := TallyOf(questions, answers, m);
      var next := TallyOf(questions, answers, n);
      TallyOfResults(questions, answers, m);
      assert next.results[..m] == prev.results;
      forall k | 0 <= k < n
        ensures Reports(next.results[k], k, questions[k], answers[k])
      {
        if k < m {
          assert next.results[k] == next.results[..m][k];
        }
      }
    }
  }

  /** The grading loop counts the right answers, tallies the wrong ones per topic in order
      of first appearance, and reports every graded pair. */
  lemma TallyOfAccounts(questions: seq<Question>, answers: seq<string>, n: nat)
    requires n <= |questions| && n <= |answers|
    ensures Accounts(questions, answers, n, TallyOf(questions, answers, n))
  {
    TallyOfCorrect(questions, answers, n);
    TallyOfErrors(questions, answers, n);
    TallyOfResults(questions, answers, n);
  }

  /** The grading loop of `evaluate_quiz_attempt`. */
  method TallyAnswers(questions: seq<Question>, answers: seq<string>) returns (tally: Tally)
    ensures var n := Graded(questions, answers);
            && tally.correct == CorrectCount(questions, answers, n)
            && TalliesErrors(WrongTopics(questions, answers, n), tally)
            && |tally.results| == n
            && (forall k :: 0 <= k < n ==> Reports(tally.results[k], k, questions[k], answers[k]))
  {
    tally := Tally(0, map[], [], []);
    for i := 0 to Graded(questions, answers)
      invariant tally == TallyOf(questions, answers, i)
    {
      tally := Record(tally, i, questions[i], answers[i]);
    }
    TallyOfAccounts(questions, answers, Graded(questions, answers));
  }

  /** The topics of `order` whose wrong answers exceed two fifths of the questions, in
      the order of `order`. */
  function WeakAmong(order: seq<string>, wrong: seq<string>, total: nat): (weak: seq<string>)
    ensures forall t :: t in weak <==> t in order && 5 * multiset(wrong)[t] > 2 * total
    ensures |weak| <= |order|
  {
    if |order| == 0 then []
    else
      var m := |order| - 1;
      assert forall t :: t in order <==> t in order[..m] || t == order[m] by {
        assert order == order[..m] + [order[m]];
      }
      WeakAmong(order[..m], wrong, total)
        + (if 5 * multiset(wrong)[order[m]] > 2 * total then [order[m]] else [])
  }

  /** `xs` lists topics of `wrong` in the order of their first wrong answer. */
  predicate OrderedByFirst(wrong: seq<string>, xs: seq<string>)
    requires forall t :: t in xs ==> t in wrong
  {
    forall i, j :: 0 <= i < j < |xs| ==> FirstIndex(wrong, xs[i]) < FirstIndex(wrong, xs[j])
  }

  /** Appending a topic first answered wrongly after all of `xs` keeps the order. */
  lemma OrderedByFirstSnoc(wrong: seq<string>, xs: seq<string>, x: string)
    requires forall t :: t in xs ==> t in wrong
    requires x in wrong && OrderedByFirst(wrong, xs)
    requires forall i :: 0 <= i < |xs| ==> FirstIndex(wrong, xs[i]) < FirstIndex(wrong, x)
    ensures forall t :: t in xs + [x] ==> t in wrong
    ensures OrderedByFirst(wrong, xs + [x])
  {
    var ys := xs + [x];
    forall i, j | 0 <= i < j < |ys|
      ensures FirstIndex(wrong, ys[i]) < FirstIndex(wrong, ys[j])
    {
      assert ys[i] == xs[i];
      if j < |xs| {
        assert ys[j] == xs[j];
      }
    }
  }

  /** A prefix of an ordered list is ordered. */
  lemma OrderedByFirstPrefix(wrong: seq<string>, xs: seq<string>, m: nat)
    requires forall t :: t in xs ==> t in wrong
    requires m <= |xs| && OrderedByFirst(wrong, xs)
    ensures forall t :: t in xs[..m] ==> t in wrong
    ensures OrderedByFirst(wrong, xs[..m])
  {
    var front := xs[..m];
    assert forall t :: t in front ==> t in xs;
    forall i, j | 0 <= i < j < |front|
      ensures FirstIndex(wrong, front[i]) < FirstIndex(wrong, front[j])
    {
      assert front[i] == xs[i] && front[j] == xs[j];
    }
  }

  /** Every topic kept from a prefix of an ordered list comes before the element that
      follows the prefix. */
  lemma KeptComeFirst(order: seq<string>, wrong: seq<string>, total: nat, m: nat, prev: seq<string>)
    requires forall t :: t in order ==> t in wrong
    requires m < |order| && OrderedByFirst(wrong, order)
    requires prev == WeakAmong(order[..m], wrong, total)
    ensures forall i :: 0 <= i < |prev| ==> prev[i] in wrong && FirstIndex(wrong, prev[i]) < FirstIndex(wrong, order[m])
  {
    forall i | 0 <= i < |prev|
      ensures prev[i] in wrong && FirstIndex(wrong, prev[i]) < FirstIndex(wrong, order[m])
    {
      assert prev[i] in order[..m];
      var j :| 0 <= j < m && order[..m][j] == prev[i];
      assert order[j] == prev[i];
    }
  }

  /** Filtering keeps the order of first wrong answers. */
  lemma {:induction false} WeakAmongOrdered(order: seq<string>, wrong: seq<string>, total: nat)
    requires forall t :: t in order ==> t in wrong
    requires OrderedByFirst(wrong, order)
    ensures forall t :: t in WeakAmong(order, wrong, total) ==> t in wrong
    ensures OrderedByFirst(wrong, WeakAmong(order, wrong, total))
  {
    if |order| > 0 {
      var m := |order| - 1;
      var prev := WeakAmong(order[..m], wrong, total);
      OrderedByFirstPrefix(wrong, order, m);
      WeakAmongOrdered(order[..m], wrong, total);
      var last := order[m];
      if 5 * multiset(wrong)[last] > 2 * total {
        assert WeakAmong(order, wrong, total) == prev + [last];
        KeptComeFirst(order, wrong, total, m, prev);
        assert last in order;
        OrderedByFirstSnoc(wrong, prev, last);
      } else {
        assert WeakAmong(order, wrong, total) == prev;
      }
    }
  }

  /** One more topic of the key order is either kept or dropped. */
  lemma WeakAmongSnoc(order: seq<string>, wrong: seq<string>, total: nat, k: nat)
    requires k < |order|
    ensures WeakAmong(order[..k + 1], wrong, total)
            == WeakAmong(order[..k], wrong, total)
               + (if 5 * multiset(wrong)[order[k]] > 2 * total then [order[k]] else [])
  {
    assert order[..k + 1][..k] == order[..k];
  }

  /** Filtering the key order of the wrong answers' topics finds exactly the weak topics,
      in order of first wrong answer, and at most two of them. */
  lemma WeakAreasOfWrong(wrong: seq<string>, total: nat)
    requires |wrong| <= total
    ensures var weak := WeakAmong(Dedup(wrong), wrong, total);
            && (forall t :: t in weak <==> 5 * multiset(wrong)[t] > 2 * total)
            && (forall i :: 0 <= i < |weak| ==> weak[i] in wrong)
            && (forall i, j :: 0 <= i < j < |weak| ==> FirstIndex(wrong, weak[i]) < FirstIndex(wrong, weak[j]))
            && |weak| <= 2
  {
    var weak := WeakAmong(Dedup(wrong), wrong, total);
    WeakTopicsExactly(wrong, total);
    WeakTopicsOrdered(wrong, total);
    AtMostTwoWeak(wrong, total, weak);
  }

  /** The weak topics among the key order are exactly the topics past the threshold. */
  lemma WeakTopicsExactly(wrong: seq<string>, total: nat)
    ensures forall t :: t in WeakAmong(Dedup(wrong), wrong, total) <==> 5 * multiset(wrong)[t] > 2 * total
  {
    forall t | 5 * multiset(wrong)[t] > 2 * total
      ensures t in Dedup(wrong)
    {
      assert t in multiset(wrong);
    }
  }

  /** The weak topics come in order of first wrong answer, hence without repeats. */
  lemma WeakTopicsOrdered(wrong: seq<string>, total: nat)
    ensures var weak := WeakAmong(Dedup(wrong), wrong, total);
            && (forall i :: 0 <= i < |weak| ==> weak[i] in wrong)
            && OrderedByFirst(wrong, weak)
            && (forall i, j :: 0 <= i < j < |weak| ==> weak[i] != weak[j])
  {
    var order := Dedup(wrong);
    var weak := WeakAmong(order, wrong, total);
    DedupOrdered(wrong);
    assert OrderedByFirst(wrong, order);
    WeakAmongOrdered(order, wrong, total);
    assert forall i :: 0 <= i < |weak| ==> weak[i] in wrong;
  }

  /** The `weak_areas` comprehension: the tallied topics, in key order, whose share of
      wrong answers exceeds `1 - WEAK_AREA_THRESHOLD`. */
  method SelectWeakAreas(wrong: seq<string>, errors: map<string, nat>, total: nat) returns (weakAreas: seq<string>)
    requires |wrong| <= total
    requires forall t :: t in errors <==> t in wrong
    requires forall t :: t in errors ==> errors[t] == multiset(wrong)[t]
    ensures forall t :: t in weakAreas <==> 5 * multiset(wrong)[t] > 2 * total
    ensures forall i :: 0 <= i < |weakAreas| ==> weakAreas[i] in wrong
    ensures forall i, j :: 0 <= i < j < |weakAreas| ==>
              FirstIndex(wrong, weakAreas[i]) < FirstIndex(wrong, weakAreas[j])
    ensures |weakAreas| <= 2
  {
    weakAreas := FilterWeak(Dedup(wrong), wrong, errors, total);
    WeakAreasOfWrong(wrong, total);
  }

  /** The weak-area comprehension of `evaluate_quiz_attempt`, as a loop over the
      dictionary's keys `order`, keeping the topics whose error rate passes the threshold. */
  method FilterWeak(order: seq<string>, wrong: seq<string>, errors: map<string, nat>, total: nat)
    returns (weakAreas: seq<string>)
    requires |wrong| <= total
    requires forall t :: t in order ==> t in wrong && t in errors && errors[t] == multiset(wrong)[t]
    ensures weakAreas == WeakAmong(order, wrong, total)
  {
    weakAreas := [];
    for k := 0 to |order|
      invariant weakAreas == WeakAmong(order[..k], wrong, total)
    {
      var topic := order[k];
      WeakAmongSnoc(order, wrong, total, k);
      assert topic in wrong;
      if IsWeak(errors[topic], total) {
        weakAreas := weakAreas + [topic];
      }
    }
    assert order[..|order|] == order;
  }

  /** `evaluate_quiz_attempt`.
      - `total` counts every question, `correct` the right answers among the graded pairs,
        so unanswered questions lower the score without being charged to a topic;
      - the score is the percentage of right answers, 0 for an empty quiz, and the
        attempt passes at 70 percent;
      - a topic is weak when more than 40 percent of all questions were answered wrongly
        under it, hence there are at most two weak areas;
      - weak areas are listed in the order of their first wrong answer. */
  method EvaluateQuizAttempt(questions: seq<Question>, answers: seq<string>) returns (e: Evaluation)
    ensures e.total == |questions|
    ensures e.correct == CorrectCount(questions, answers, Graded(questions, answers))
    ensures |e.results| == Graded(questions, answers)
    ensures forall i :: 0 <= i < |e.results| ==> Reports(e.results[i], i, questions[i], answers[i])
    ensures e.score == ScoreOf(e.correct, e.total) && 0.0 <= e.score <= 100.0
    ensures e.passed <==> e.total > 0 && 10 * e.correct >= 7 * e.total
    ensures var wrong := WrongTopics(questions, answers, Graded(questions, answers));
            && (forall t :: t in e.weakAreas <==> 5 * multiset(wrong)[t] > 2 * e.total)
            && (forall i :: 0 <= i < |e.weakAreas| ==> e.weakAreas[i] in wrong)
            && (forall i, j :: 0 <= i < j < |e.weakAreas| ==>
                  FirstIndex(wrong, e.weakAreas[i]) < FirstIndex(wrong, e.weakAreas[j]))
    ensures |e.weakAreas| <= 2
  {
    var tally := TallyAnswers(questions, answers);
    var total := |questions|;
    var wrong := WrongTopics(questions, answers, Graded(questions, answers));
    var score := ScoreOf(tally.correct, total);
    var weakAreas := SelectWeakAreas(wrong, tally.errors, total);
    e := Evaluation(score, tally.correct, total, weakAreas, tally.results, score >= Config.MinQuizAccuracy * 100.0);
  }
}
