/**
 * Answer checking and scoring.  The platform has three answer-check rules:
 * the attempt service (MCQ compared raw, NUMERIC compared stripped, other
 * types never scored), the one-shot `submit` action (stripped comparison for
 * every type) and the teacher's result-detail view (MCQ raw, NUMERIC
 * stripped, TEXT stripped and case-insensitive).
 */
module Scoring {
  import opened Text
  import opened Models

  // ------------------------------------------------ the attempt service rule

  /**
   * The attempt service's check (finish_test): a missing or falsy answer is
   * wrong; an MCQ answer must equal the correct answer as a string; a NUMERIC
   * answer must equal it once both are stripped; TEXT and CODE answers are
   * never scored.
   */
  predicate ServiceCorrect(q: Question, ans: Option<Json>)
  {
    ans.Some? && Truthy(ans.value) &&
    match q.qtype
      case Mcq => Show(ans.value) == q.correctAnswer
      case Numeric => Strip(Show(ans.value)) == Strip(q.correctAnswer)
      case _ => false
  }

  /** The sum of the question points. */
  function TotalPoints(qs: seq<Question>): int
  {
    if qs == [] then 0 else TotalPoints(qs[..|qs| - 1]) + qs[|qs| - 1].points
  }

  /** The points of the questions the service rule marks correct, each question once. */
  function ServiceScore(qs: seq<Question>, answers: Answers): int
  {
    if qs == [] then 0
    else
      var q := qs[|qs| - 1];
      ServiceScore(qs[..|qs| - 1], answers)
        + (if ServiceCorrect(q, Get(answers, IntToString(q.id))) then q.points else 0)
  }

  predicate NonNegativePoints(qs: seq<Question>)
  {
    forall i :: 0 <= i < |qs| ==> qs[i].points >= 0
  }

  /** With non-negative points the score lies between 0 and the total. */
  lemma {:induction false} ServiceScoreBounds(qs: seq<Question>, answers: Answers)
    requires NonNegativePoints(qs)
    ensures 0 <= ServiceScore(qs, answers) <= TotalPoints(qs)
  {
    if qs != [] {
      ServiceScoreBounds(qs[..|qs| - 1], answers);
    }
  }

  /** An attempt with no answers scores nothing. */
  lemma {:induction false} ServiceScoreEmpty(qs: seq<Question>)
    ensures ServiceScore(qs, []) == 0
  {
    if qs != [] {
      ServiceScoreEmpty(qs[..|qs| - 1]);
    }
  }

  /** Every question answered correctly earns the full total. */
  lemma {:induction false} ServiceScoreFull(qs: seq<Question>, answers: Answers)
    requires forall i :: 0 <= i < |qs| ==> ServiceCorrect(qs[i], Get(answers, IntToString(qs[i].id)))
    ensures ServiceScore(qs, answers) == TotalPoints(qs)
  {
    if qs != [] {
      ServiceScoreFull(qs[..|qs| - 1], answers);
    }
  }

  /**
   * The scoring loop of finish_test: the total of all question points and the
   * points of the questions answered correctly under the service rule.
   */
  method ScoreAttempt(qs: seq<Question>, answers: Answers) returns (score: int, total: int)
    ensures score == ServiceScore(qs, answers)
    ensures total == TotalPoints(qs)
  {
    score, total := 0, 0;
    var i := 0;
    while i < |qs|
      invariant 0 <= i <= |qs|
      invariant score == ServiceScore(qs[..i], answers)
      invariant total == TotalPoints(qs[..i])
    {
      var q := qs[i];
      ScoreStep(qs, i, answers);
      total := total + q.points;
      var correct := CheckAnswer(q, Get(answers, IntToString(q.id)));
      if correct {
        score := score + q.points;
      }
      i := i + 1;
    }
    assert qs[..i] == qs;
  }

  /** The attempt service's test for one answer: present and truthy, then compared as the question type says. */
  method CheckAnswer(q: Question, ans: Option<Json>) returns (correct: bool)
    ensures correct == ServiceCorrect(q, ans)
  {
    correct := false;
    if ans.Some? && Truthy(ans.value) {
      if q.qtype == Mcq {
        correct := Show(ans.value) == q.correctAnswer;
      } else if q.qtype == Numeric {
        correct := Strip(Show(ans.value)) == Strip(q.correctAnswer);
      }
    }
  }

  lemma ScoreStep(qs: seq<Question>, i: nat, answers: Answers)
    requires i < |qs|
    ensures var q := qs[i];
      && ServiceScore(qs[..i + 1], answers)
         == ServiceScore(qs[..i], answers) + (if ServiceCorrect(q, Get(answers, IntToString(q.id))) then q.points else 0)
      && TotalPoints(qs[..i + 1]) == TotalPoints(qs[..i]) + q.points
  {
    assert qs[..i + 1][..i] == qs[..i];
  }

  /** `score / total * 100`, or 0 when there are no points to earn. */
  function Percentage(score: int, total: int): (p: real)
    ensures total > 0 && 0 <= score <= total ==> 0.0 <= p <= 100.0
    ensures total > 0 && score == total ==> p == 100.0
    ensures total <= 0 || score == 0 ==> p == 0.0
  {
    if total > 0 then (score as real / total as real) * 100.0 else 0.0
  }

  // ---------------------------------------------------- result-detail rule

  datatype AnswerStatus = Skipped | Incorrect | Correct

  /**
   * The result-detail view's check: a missing (or null) answer is SKIPPED;
   * MCQ compares the raw strings, NUMERIC the stripped ones and TEXT the
   * stripped lower-cased ones; every other present answer is INCORRECT.
   */
  function DetailStatus(q: Question, ans: Option<Json>): (r: AnswerStatus)
    ensures r == Skipped <==> ans.None? || ans.value == JNull
    ensures q.qtype == Code ==> r != Correct
  {
    if ans.None? || ans.value == JNull then Skipped
    else
      var a := Show(ans.value);
      var ok := match q.qtype
        case Mcq => a == q.correctAnswer
        case Numeric => Strip(a) == Strip(q.correctAnswer)
        case TextAnswer => Lower(Strip(a)) == Lower(Strip(q.correctAnswer))
        case Code => false;
      if ok then Correct else Incorrect
  }

  /** Whatever the attempt service scores, the result-detail view shows as CORRECT. */
  lemma ServiceCorrectShownCorrect(q: Question, ans: Option<Json>)
    requires ServiceCorrect(q, ans)
    ensures DetailStatus(q, ans) == Correct
  {
  }

  /**
   * The two rules disagree on TEXT questions: a matching TEXT answer is shown
   * as CORRECT but earns no points in finish_test.
   */
  lemma TextShownCorrectButUnscored()
    ensures var q := Question(1, TextAnswer, [], "A", 5);
      DetailStatus(q, Some(JStr("a"))) == Correct && !ServiceCorrect(q, Some(JStr("a")))
  {
    TextAnswersAgree();
    assert Show(JStr("a")) == "a";
  }

  lemma TextAnswersAgree()
    ensures Lower(Strip("a")) == Lower(Strip("A"))
  {
    StripOfTrimmed("A");
    StripOfTrimmed("a");
    assert Lower("A") == "a";
    assert Lower("a") == "a";
  }

  // -------------------------------------------------- the one-shot submit

  /** The submit action's check: stripped equality for every question type. */
  predicate SubmitCorrect(q: Question, ans: string)
  {
    Strip(ans) == Strip(q.correctAnswer)
  }

  /** `all_questions[q_id]`: the question with that id, if the olympiad has one. */
  function FindQuestion(qs: seq<Question>, id: int): (r: Option<Question>)
    ensures r.Some? ==> r.value in qs && r.value.id == id
    ensures r.None? ==> forall i :: 0 <= i < |qs| ==> qs[i].id != id
  {
    if qs == [] then None
    else if qs[0].id == id then Some(qs[0])
    else FindQuestion(qs[1..], id)
  }

  /** What one submitted entry adds in the submit loop: keys that are not integers, or name no question, add 0. */
  function EntryPoints(qs: seq<Question>, entry: (string, string)): int
  {
    match ParseInt(entry.0)
      case None => 0
      case Some(id) =>
        match FindQuestion(qs, id)
          case None => 0
          case Some(q) => if SubmitCorrect(q, entry.1) then q.points else 0
  }

  /** The submit score as written: a sum over the submitted entries. */
  function SubmitScoreAsWritten(qs: seq<Question>, answers: seq<(string, string)>): int
  {
    if answers == [] then 0
    else SubmitScoreAsWritten(qs, answers[..|answers| - 1]) + EntryPoints(qs, answers[|answers| - 1])
  }

  /** The scoring loop of the submit action, over the submitted entries in order. */
  method SubmitScoreLoop(qs: seq<Question>, answers: seq<(string, string)>) returns (score: int)
    ensures score == SubmitScoreAsWritten(qs, answers)
  {
    score := 0;
    var i := 0;
    while i < |answers|
      invariant 0 <= i <= |answers|
      invariant score == SubmitScoreAsWritten(qs, answers[..i])
    {
      var (key, ans) := answers[i];
      assert answers[..i + 1][..i] == answers[..i];
      var id := ParseInt(key);
      if id.Some? {
        var q := FindQuestion(qs, id.value);
        if q.Some? && SubmitCorrect(q.value, ans) {
          score := score + q.value.points;
        }
      }
      i := i + 1;
    }
    assert answers[..i] == answers;
  }

  /**
   * Two keys that parse to the same question id are both scored: with one
   * one-point question and the entries "1" and "01" the score is 2 while the
   * total is 1, so the percentage is 200.
   */
  lemma SubmitScoreCountsDuplicates()
    ensures var qs := [Question(1, Mcq, ["x", "y"], "0", 1)];
      SubmitScoreAsWritten(qs, [("1", "0"), ("01", "0")]) == 2 && TotalPoints(qs) == 1
  {
    var qs := [Question(1, Mcq, ["x", "y"], "0", 1)];
    var answers := [("1", "0"), ("01", "0")];
    ParseOne();
    ParseZeroOne();
    assert SubmitCorrect(qs[0], "0");
    assert EntryPoints(qs, answers[0]) == 1;
    assert EntryPoints(qs, answers[1]) == 1;
    assert answers[..1] == [answers[0]];
    assert answers[..1][..0] == [];
    assert TotalPoints(qs) == 1 by { assert qs[..0] == []; }
  }

  lemma ParseOne()
    ensures ParseInt("1") == Some(1)
  {
    StripOfTrimmed("1");
    assert DigitsValue("1") == 1 by { assert "1"[..0] == []; }
  }

  lemma ParseZeroOne()
    ensures ParseInt("01") == Some(1)
  {
    StripOfTrimmed("01");
    assert "01"[..1] == "0";
    assert "0"[..0] == [];
    assert DigitsValue("01") == 1;
  }

  /** The first submitted answer whose key parses to `id`. */
  function AnswerFor(answers: seq<(string, string)>, id: int): Option<string>
  {
    if answers == [] then None
    else if ParseInt(answers[0].0) == Some(id) then Some(answers[0].1)
    else AnswerFor(answers[1..], id)
  }

  /** The entry found is one whose key names the question, and none is found only when no key does. */
  lemma {:induction false} AnswerForFinds(answers: seq<(string, string)>, id: int)
    ensures AnswerFor(answers, id).None? ==> forall i :: 0 <= i < |answers| ==> ParseInt(answers[i].0) != Some(id)
    ensures AnswerFor(answers, id).Some? ==>
      exists i :: 0 <= i < |answers| && ParseInt(answers[i].0) == Some(id) && answers[i].1 == AnswerFor(answers, id).value
  {
    if answers != [] && ParseInt(answers[0].0) != Some(id) {
      AnswerForFinds(answers[1..], id);
      var r := AnswerFor(answers, id);
      if r.Some? {
        var i :| 0 <= i < |answers| - 1 && ParseInt(answers[1..][i].0) == Some(id) && answers[1..][i].1 == r.value;
        assert answers[i + 1] == answers[1..][i];
      } else {
        forall i | 0 <= i < |answers| ensures ParseInt(answers[i].0) != Some(id) {
          if i > 0 {
            assert answers[i] == answers[1..][i - 1];
          }
        }
      }
    }
  }

  /**
   * The submit score with each question counted once, using the first
   * submitted entry whose key names it.
   */
  function SubmitScore(qs: seq<Question>, answers: seq<(string, string)>): int
  {
    if qs == [] then 0
    else
      var q := qs[|qs| - 1];
      var a := AnswerFor(answers, q.id);
      SubmitScore(qs[..|qs| - 1], answers) + (if a.Some? && SubmitCorrect(q, a.value) then q.points else 0)
  }

  lemma SubmitStep(qs: seq<Question>, i: nat, answers: seq<(string, string)>)
    requires i < |qs|
    ensures var q := qs[i];
      var a := AnswerFor(answers, q.id);
      && SubmitScore(qs[..i + 1], answers)
         == SubmitScore(qs[..i], answers) + (if a.Some? && SubmitCorrect(q, a.value) then q.points else 0)
      && TotalPoints(qs[..i + 1]) == TotalPoints(qs[..i]) + q.points
  {
    assert qs[..i + 1][..i] == qs[..i];
  }

  /** The corrected scoring loop: over the questions, each scored against its first matching entry. */
  method ScoreSubmission(qs: seq<Question>, answers: seq<(string, string)>) returns (score: int, total: int)
    ensures score == SubmitScore(qs, answers)
    ensures total == TotalPoints(qs)
  {
    score, total := 0, 0;
    var i := 0;
    while i < |qs|
      invariant 0 <= i <= |qs|
      invariant score == SubmitScore(qs[..i], answers)
      invariant total == TotalPoints(qs[..i])
    {
      var q := qs[i];
      SubmitStep(qs, i, answers);
      var a := AnswerFor(answers, q.id);
      if a.Some? && SubmitCorrect(q, a.value) {
        score := score + q.points;
      }
      total := total + q.points;
      i := i + 1;
    }
    assert qs[..i] == qs;
  }

  /** Counted once per question, the submit score never exceeds the total. */
  lemma {:induction false} SubmitScoreBounds(qs: seq<Question>, answers: seq<(string, string)>)
    requires NonNegativePoints(qs)
    ensures 0 <= SubmitScore(qs, answers) <= TotalPoints(qs)
  {
    if qs != [] {
      SubmitScoreBounds(qs[..|qs| - 1], answers);
    }
  }

  /** The question ids of an olympiad are distinct (they are primary keys). */
  predicate DistinctIds(qs: seq<Question>)
  {
    forall i, j :: 0 <= i < j < |qs| ==> qs[i].id != qs[j].id
  }

  /** No two submitted keys name the same integer. */
  predicate DistinctParsedKeys(answers: seq<(string, string)>)
  {
    forall i, j :: 0 <= i < j < |answers| && ParseInt(answers[i].0).Some? ==> ParseInt(answers[i].0) != ParseInt(answers[j].0)
  }

  /** What the entry `e` contributes to question `q` when it is the first entry naming `q`. */
  function Contribution(q: Question, e: (string, string)): int
  {
    if ParseInt(e.0) == Some(q.id) && SubmitCorrect(q, e.1) then q.points else 0
  }

  /** Summing the contributions of one entry over all questions gives what the submit loop adds for it. */
  lemma {:induction false} ContributionSum(qs: seq<Question>, e: (string, string))
    requires DistinctIds(qs)
    ensures SumContribution(qs, e) == EntryPoints(qs, e)
  {
    if qs != [] {
      var init := qs[..|qs| - 1];
      var q := qs[|qs| - 1];
      ContributionSum(init, e);
      match ParseInt(e.0)
        case None =>
        case Some(id) =>
          if q.id == id {
            assert FindQuestion(init, id).None?;
            FindLast(qs, id);
          } else {
            FindNotLast(qs, id);
          }
    }
  }

  function SumContribution(qs: seq<Question>, e: (string, string)): int
  {
    if qs == [] then 0 else SumContribution(qs[..|qs| - 1], e) + Contribution(qs[|qs| - 1], e)
  }

  lemma {:induction false} FindLast(qs: seq<Question>, id: int)
    requires qs != [] && qs[|qs| - 1].id == id
    requires FindQuestion(qs[..|qs| - 1], id).None?
    ensures FindQuestion(qs, id) == Some(qs[|qs| - 1])
  {
    if |qs| > 1 {
      assert qs[1..][..|qs| - 2] == qs[..|qs| - 1][1..];
      FindLast(qs[1..], id);
    }
  }

  lemma {:induction false} FindNotLast(qs: seq<Question>, id: int)
    requires qs != [] && qs[|qs| - 1].id != id
    ensures FindQuestion(qs, id) == FindQuestion(qs[..|qs| - 1], id)
  {
    if |qs| > 1 && qs[0].id != id {
      assert qs[1..][..|qs| - 2] == qs[..|qs| - 1][1..];
      FindNotLast(qs[1..], id);
    }
  }

  /**
   * Prepending an entry whose key names no later entry's integer adds
   * exactly what that entry earns to the corrected score.
   */
  lemma {:induction false} SubmitScoreCons(qs: seq<Question>, e: (string, string), rest: seq<(string, string)>)
    requires ParseInt(e.0).Some? ==> forall i :: 0 <= i < |rest| ==> ParseInt(rest[i].0) != ParseInt(e.0)
    ensures SubmitScore(qs, [e] + rest) == SubmitScore(qs, rest) + SumContribution(qs, e)
  {
    if qs != [] {
      var q := qs[|qs| - 1];
      SubmitScoreCons(qs[..|qs| - 1], e, rest);
      assert ([e] + rest)[1..] == rest;
      if ParseInt(e.0) == Some(q.id) {
        AnswerForFinds(rest, q.id);
        assert AnswerFor(rest, q.id).None?;
      }
    }
  }

  /**
   * On submissions whose keys name distinct integers, counting per question
   * and counting per entry agree: the correction changes only the duplicate
   * case.
   */
  lemma {:induction false} SubmitScoreAgrees(qs: seq<Question>, answers: seq<(string, string)>)
    requires DistinctIds(qs) && DistinctParsedKeys(answers)
    ensures SubmitScore(qs, answers) == SubmitScoreAsWritten(qs, answers)
    decreases |answers|
  {
    if answers == [] {
      SubmitScoreNoAnswers(qs);
    } else {
      var e := answers[0];
      var rest := answers[1..];
      assert answers == [e] + rest;
      SubmitScoreAgrees(qs, rest);
      SubmitScoreCons(qs, e, rest);
      ContributionSum(qs, e);
      AsWrittenCons(qs, e, rest);
    }
  }

  lemma {:induction false} SubmitScoreNoAnswers(qs: seq<Question>)
    ensures SubmitScore(qs, []) == 0
  {
    if qs != [] {
      SubmitScoreNoAnswers(qs[..|qs| - 1]);
    }
  }

  lemma AsWrittenSnoc(qs: seq<Question>, xs: seq<(string, string)>, x: (string, string))
    ensures SubmitScoreAsWritten(qs, xs + [x]) == SubmitScoreAsWritten(qs, xs) + EntryPoints(qs, x)
  {
    assert (xs + [x])[..|xs|] == xs;
  }

  lemma {:induction false} AsWrittenCons(qs: seq<Question>, e: (string, string), rest: seq<(string, string)>)
    ensures SubmitScoreAsWritten(qs, [e] + rest) == EntryPoints(qs, e) + SubmitScoreAsWritten(qs, rest)
    decreases |rest|
  {
    if rest != [] {
      var init := rest[..|rest| - 1];
      var last := rest[|rest| - 1];
      assert rest == init + [last];
      assert [e] + rest == ([e] + init) + [last];
      AsWrittenCons(qs, e, init);
      AsWrittenSnoc(qs, [e] + init, last);
      AsWrittenSnoc(qs, init, last);
    } else {
      assert ([e] + rest)[..0] == [];
    }
  }

  /** The experience the submit action grants to a COMPLETED submission. */
  function SubmitXp(score: int, percentage: real): (xp: int)
    ensures percentage >= 70.0 ==> xp == 2 * score + 20
    ensures percentage < 70.0 ==> xp == 2 * score
  {
    2 * score + (if percentage >= 70.0 then 20 else 0)
  }
}
