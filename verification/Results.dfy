/**
 * The single-player results screen: how many stored answers match the tier's correct
 * indices, the rounded percentage, the colour band of the score and the `mm:ss` time text.
 */
module Results {
  import opened Wrappers
  import opened Seqs
  import opened Text
  import opened JsMath
  import opened QuizData

  /** The colour class the score is shown in. */
  datatype ScoreColor = Green | Yellow | Red

  /** What the screen shows once everything it needs was found in storage. */
  datatype Summary = Summary(
    name: string, difficulty: Difficulty, totalTime: int, correctAnswers: nat, totalQuestions: nat)

  /** Answer `i` was given and equals question `i`'s correct index (a missing or null answer never does). */
  predicate Hit(answers: seq<Option<int>>, qs: seq<Question>, i: nat)
    requires i < |qs|
  {
    i < |answers| && answers[i] == Some(qs[i].correctIndex)
  }

  /** The number of hits among the first `k` questions. */
  function CorrectUpTo(answers: seq<Option<int>>, qs: seq<Question>, k: nat): (c: nat)
    requires k <= |qs|
    ensures c <= k
  {
    if k == 0 then 0
    else CorrectUpTo(answers, qs, k - 1) + (if Hit(answers, qs, k - 1) then 1 else 0)
  }

  /** The number of questions answered correctly. */
  function CorrectCount(answers: seq<Option<int>>, qs: seq<Question>): nat
  {
    CorrectUpTo(answers, qs, |qs|)
  }

  /** The loop over the questions that counts the correct answers, one question at a time. */
  method CountCorrect(answers: seq<Option<int>>, qs: seq<Question>) returns (correct: nat)
    ensures correct == CorrectCount(answers, qs)
    ensures correct <= |qs|
  {
    correct := 0;
    for index := 0 to |qs|
      invariant correct == CorrectUpTo(answers, qs, index)
    {
      if index < |answers| && answers[index] == Some(qs[index].correctIndex) {
        correct := correct + 1;
      }
    }
  }

  /** The count equals the number of positions that hold the right answer. */
  lemma {:induction false} CorrectUpToIsSetSize(answers: seq<Option<int>>, qs: seq<Question>, k: nat)
    requires k <= |qs|
    ensures CorrectUpTo(answers, qs, k) == |set i | 0 <= i < k && Hit(answers, qs, i)|
  {
    if k > 0 {
      CorrectUpToIsSetSize(answers, qs, k - 1);
      HitSetStep(answers, qs, k);
    }
  }

  /** Widening the range by one position adds that position exactly when it is a hit. */
  lemma HitSetStep(answers: seq<Option<int>>, qs: seq<Question>, k: nat)
    requires 0 < k <= |qs|
    ensures |set i | 0 <= i < k && Hit(answers, qs, i)|
         == |set i | 0 <= i < k - 1 && Hit(answers, qs, i)| + (if Hit(answers, qs, k - 1) then 1 else 0)
  {
    var before := set i | 0 <= i < k - 1 && Hit(answers, qs, i);
    var now := set i | 0 <= i < k && Hit(answers, qs, i);
    if Hit(answers, qs, k - 1) {
      assert now == before + {k - 1};
    } else {
      assert now == before;
    }
  }

  /** All questions are counted correct exactly when every one was answered with its correct index. */
  lemma {:induction false} AllCorrectIff(answers: seq<Option<int>>, qs: seq<Question>, k: nat)
    requires k <= |qs|
    ensures CorrectUpTo(answers, qs, k) == k <==> forall i :: 0 <= i < k ==> Hit(answers, qs, i)
  {
    if k > 0 {
      AllCorrectIff(answers, qs, k - 1);
    }
  }

  /** Answers past the last question are ignored. */
  lemma {:induction false} TrailingAnswersIgnored(answers: seq<Option<int>>, extra: seq<Option<int>>, qs: seq<Question>, k: nat)
    requires k <= |qs| <= |answers|
    ensures CorrectUpTo(answers + extra, qs, k) == CorrectUpTo(answers, qs, k)
  {
    if k > 0 {
      TrailingAnswersIgnored(answers, extra, qs, k - 1);
      assert (answers + extra)[k - 1] == answers[k - 1];
    }
  }

  /** With no answer given at all, nothing counts. */
  lemma {:induction false} UnansweredCountsNothing(answers: seq<Option<int>>, qs: seq<Question>, k: nat)
    requires k <= |qs|
    requires forall i :: 0 <= i < |answers| ==> answers[i].None?
    ensures CorrectUpTo(answers, qs, k) == 0
  {
    if k > 0 {
      UnansweredCountsNothing(answers, qs, k - 1);
    }
  }

  /** `Math.round(correct / total * 100)`, or 0 when there are no questions. */
  function Percentage(correct: nat, total: nat): (p: int)
    ensures total == 0 ==> p == 0
    ensures correct <= total ==> 0 <= p <= 100
    ensures 0 < total && correct == total ==> p == 100
  {
    if total > 0 then
      RoundedShareBounds(correct, total);
      RoundDiv(100 * correct, total)
    else 0
  }

  lemma RoundedShareBounds(correct: nat, total: nat)
    requires total > 0
    ensures RoundDiv(100 * correct, total) >= 0
    ensures correct <= total ==> RoundDiv(100 * correct, total) <= 100
    ensures correct == total ==> RoundDiv(100 * correct, total) == 100
  {
    RoundDivExact(100, total);
    RoundDivExact(0, total);
    RoundDivMonotone(0, 100 * correct, total);
    if correct <= total {
      RoundDivMonotone(100 * correct, 100 * total, total);
    }
  }

  /** Below 200 questions, 100% is shown only when every answer is correct. */
  lemma PercentageBelowFullWhenAnyWrong(correct: nat, total: nat)
    requires correct < total < 200
    ensures Percentage(correct, total) < 100
  {
    var p := Percentage(correct, total);
    assert (2 * p - 1) * total <= 200 * correct;
    if p >= 100 {
      MulLe(199, 2 * p - 1, total);
      assert false;
    }
  }

  /** From 200 questions on, one wrong answer can still be shown as 100%. */
  lemma PercentageRoundsUpToFull()
    ensures Percentage(199, 200) == 100
  {
  }

  /**
   * `getScoreColor`: the band of the UNROUNDED percentage `correct / total * 100`: green from
   * 80, yellow from 60, red below. With no questions the quotient is `NaN` (no comparison
   * holds, so red), or `Infinity` (green) if some answer were counted.
   */
  function ColorOf(correct: nat, total: nat): (c: ScoreColor)
    ensures total > 0 ==> (c == Green <==> 100 * correct >= 80 * total)
    ensures total > 0 ==> (c == Red <==> 100 * correct < 60 * total)
  {
    if total == 0 then (if correct > 0 then Green else Red)
    else if 100 * correct >= 80 * total then Green
    else if 100 * correct >= 60 * total then Yellow
    else Red
  }

  function BandRank(c: ScoreColor): nat
  {
    match c
    case Red => 0
    case Yellow => 1
    case Green => 2
  }

  /** More correct answers out of the same number of questions never give a worse band. */
  lemma ColorMonotone(c1: nat, c2: nat, total: nat)
    requires c1 <= c2 <= total
    ensures BandRank(ColorOf(c1, total)) <= BandRank(ColorOf(c2, total))
  {
  }

  /** For a five-question tier the band agrees with the percentage shown next to it. */
  lemma ColorMatchesShownPercentage(correct: nat)
    requires correct <= TierSize
    ensures var p := Percentage(correct, TierSize);
      && (ColorOf(correct, TierSize) == Green <==> p >= 80)
      && (ColorOf(correct, TierSize) == Yellow <==> 60 <= p < 80)
  {
    assert correct in {0, 1, 2, 3, 4, 5};
  }

  /** JavaScript's `%`, whose result takes the sign of the dividend. */
  function JsRem(a: int, b: int): (r: int)
    requires b > 0
    ensures a >= 0 ==> r == a % b
    ensures -b < r < b
  {
    if a >= 0 then a % b else -((-a) % b)
  }

  /** The two-character-minimum field of the time text. */
  function TwoDigits(n: int): (s: string)
    ensures |s| >= 2
  {
    PadStart(IntToString(n), 2, '0')
  }

  /** `formatTime(seconds)`: `mins:secs` with `Math.floor(seconds / 60)` and `seconds % 60`. */
  function FormatTime(seconds: int): (t: string)
    ensures |t| >= 5
  {
    TimeText(seconds / 60, JsRem(seconds, 60))
  }

  /** The template literal of `formatTime`: both fields padded to two digits, joined by a colon. */
  function TimeText(mins: int, secs: int): (t: string)
    ensures |t| >= 5
  {
    TwoDigits(mins) + ":" + TwoDigits(secs)
  }

  predicate IsColon(c: char) { c == ':' }

  /** Reads `mm:ss` back: the fields before and after the first colon, both all digits. */
  function ParseTime(t: string): (r: Option<int>)
  {
    match FirstIndex(t, IsColon)
    case None => None
    case Some(k) =>
      var mins, secs := t[..k], t[k + 1..];
      if mins != [] && secs != [] && (forall i :: 0 <= i < |mins| ==> IsDigit(mins[i]))
        && (forall i :: 0 <= i < |secs| ==> IsDigit(secs[i]))
      then Some(DigitsValue(mins) * 60 + DigitsValue(secs))
      else None
  }

  lemma {:induction false} TwoDigitsValue(n: nat)
    ensures var s := TwoDigits(n);
      (forall i :: 0 <= i < |s| ==> IsDigit(s[i])) && DigitsValue(s) == n
  {
    var d := NatToString(n);
    DigitsValueOfNatToString(n);
    var z := if |d| < 2 then 2 - |d| else 0;
    DigitsValueLeadingZeros(z, d);
    assert TwoDigits(n) == seq(z, _ => '0') + d;
  }

  lemma TwoDigitsLength(n: nat)
    requires n < 100
    ensures |TwoDigits(n)| == 2
  {
    NatToStringLength(n);
  }

  /** The first colon of `m + ":" + s` is the one after the all-digit `m`. */
  lemma {:induction false} ColonAfterDigits(m: string, s: string)
    requires forall i :: 0 <= i < |m| ==> IsDigit(m[i])
    ensures FirstIndex(m + ":" + s, IsColon) == Some(|m|)
  {
    var t := m + ":" + s;
    assert t[|m|] == ':';
    assert forall i :: 0 <= i < |m| ==> t[i] == m[i];
    assert forall i :: 0 <= i < |m| ==> !IsColon(t[i]);
  }

  /** Two non-empty digit fields joined by a colon read back as minutes and seconds. */
  lemma {:induction false} ParseTimeOfFields(m: string, s: string, mins: int, secs: int)
    requires m != [] && s != []
    requires forall i :: 0 <= i < |m| ==> IsDigit(m[i])
    requires forall i :: 0 <= i < |s| ==> IsDigit(s[i])
    requires DigitsValue(m) == mins && DigitsValue(s) == secs
    ensures ParseTime(m + ":" + s) == Some(mins * 60 + secs)
  {
    var t := m + ":" + s;
    ColonAfterDigits(m, s);
    assert t[..|m|] == m && t[|m| + 1..] == s;
  }

  /** For a non-negative time the text reads back as the same number of seconds, with seconds below 60. */
  lemma {:induction false} FormatTimeRoundTrip(seconds: nat)
    ensures ParseTime(FormatTime(seconds)) == Some(seconds)
    ensures JsRem(seconds, 60) < 60
  {
    var q, r := seconds / 60, seconds % 60;
    assert JsRem(seconds, 60) == r;
    assert q * 60 + r == seconds;
    TimeTextReadBack(q, r);
  }

  /** Minutes and seconds padded and joined by a colon read back as `q * 60 + r` seconds. */
  lemma {:induction false} TimeTextReadBack(q: nat, r: nat)
    ensures ParseTime(TimeText(q, r)) == Some(q * 60 + r)
  {
    TwoDigitsValue(q);
    TwoDigitsValue(r);
    ParseTimeOfFields(TwoDigits(q), TwoDigits(r), q, r);
  }

  /** Under 100 minutes the text is exactly five characters, `mm:ss`. */
  lemma {:induction false} FormatTimeLength(seconds: int)
    requires 0 <= seconds < 6000
    ensures |FormatTime(seconds)| == 5
  {
    var q, r := seconds / 60, seconds % 60;
    assert q < 100 by {
      assert seconds == q * 60 + r;
    }
    TwoDigitsLength(q);
    TwoDigitsLength(r);
    assert FormatTime(seconds) == TimeText(q, r);
  }

  /**
   * The screen's loading step: with the player name, difficulty, total time and answers all
   * found in storage (an empty name counts as missing), it counts the correct answers against
   * the tier; otherwise it computes nothing and the page redirects to the start.
   */
  method LoadResults(
    storedName: Option<string>, storedDifficulty: Option<Difficulty>,
    storedTime: Option<int>, storedAnswers: Option<seq<Option<int>>>)
    returns (r: Option<Summary>)
    ensures r.None? <==> (storedName.None? || storedName == Some("") || storedDifficulty.None?
                          || storedTime.None? || storedAnswers.None?)
    ensures r.Some? ==> (r.value.name == storedName.value && r.value.difficulty == storedDifficulty.value
                         && r.value.totalTime == storedTime.value
                         && r.value.totalQuestions == TierSize
                         && r.value.correctAnswers == CorrectCount(storedAnswers.value, Tier(storedDifficulty.value))
                         && r.value.correctAnswers <= r.value.totalQuestions)
  {
    if storedName.None? || storedName.value == "" || storedDifficulty.None?
      || storedTime.None? || storedAnswers.None? {
      return None;
    }
    var questions := Tier(storedDifficulty.value);
    var correct := CountCorrect(storedAnswers.value, questions);
    r := Some(Summary(storedName.value, storedDifficulty.value, storedTime.value, correct, |questions|));
  }
}
