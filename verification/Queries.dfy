/**
 * The single-player results table `quiz_results`: saving a finished quiz, the leaderboard
 * (best percentage first, faster time breaking ties, ranked from 1) and a player's best scores.
 */
module Queries {
  import opened Wrappers
  import opened Seqs
  import opened QuizData

  /** A `quiz_results` row; the row id and `created_at`, set by the database, are not part of it. */
  datatype QuizResult = QuizResult(
    playerName: string,
    difficulty: Difficulty,
    totalTime: int,
    correctAnswers: int,
    totalQuestions: int,
    scorePercentage: int)

  /** A result with its place on the leaderboard, when it has one. */
  datatype LeaderboardEntry = LeaderboardEntry(result: QuizResult, rank: Option<nat>)

  const DefaultLeaderboardLimit := 50
  const PlayerBestLimit := 10

  // ----- The leaderboard order -----

  /** `a` may be listed before `b`: a higher percentage, or the same percentage in no more time. */
  predicate RanksBefore(a: QuizResult, b: QuizResult)
  {
    a.scorePercentage > b.scorePercentage
    || (a.scorePercentage == b.scorePercentage && a.totalTime <= b.totalTime)
  }

  /** Listed in leaderboard order. */
  predicate Ordered(s: seq<QuizResult>)
  {
    forall i, j :: 0 <= i < j < |s| ==> RanksBefore(s[i], s[j])
  }

  /** `x` placed into an ordered list after every row ranking strictly before it. */
  function Insert(x: QuizResult, s: seq<QuizResult>): (r: seq<QuizResult>)
    requires Ordered(s)
    ensures Ordered(r)
    ensures multiset(r) == multiset(s) + multiset{x}
  {
    if s == [] then [x]
    else if RanksBefore(x, s[0]) then
      assert forall j :: 0 <= j < |s| ==> RanksBefore(s[0], s[j]);
      [x] + s
    else
      var rest := Insert(x, s[1..]);
      HeadRanksBeforeInserted(x, s, rest);
      assert s == [s[0]] + s[1..];
      [s[0]] + rest
  }

  /** When `x` does not rank before the head, the head ranks before every row of the tail with `x` inserted. */
  lemma {:induction false} HeadRanksBeforeInserted(x: QuizResult, s: seq<QuizResult>, rest: seq<QuizResult>)
    requires Ordered(s) && s != [] && !RanksBefore(x, s[0])
    requires multiset(rest) == multiset(s[1..]) + multiset{x}
    ensures forall j :: 0 <= j < |rest| ==> RanksBefore(s[0], rest[j])
  {
    forall j | 0 <= j < |rest| ensures RanksBefore(s[0], rest[j]) {
      var y := rest[j];
      assert y in multiset(rest);
      if y != x {
        assert y in multiset(s[1..]);
        var i :| 0 <= i < |s[1..]| && s[1..][i] == y;
        assert s[i + 1] == y;
      }
    }
  }

  /**
   * The rows in leaderboard order, as `ORDER BY score_percentage DESC, total_time ASC`
   * returns them; rows equal on both keys keep their table order.
   */
  function SortByRank(s: seq<QuizResult>): (r: seq<QuizResult>)
    ensures Ordered(r)
    ensures multiset(r) == multiset(s)
    ensures |r| == |s|
  {
    if s == [] then []
    else
      assert s == [s[0]] + s[1..];
      Insert(s[0], SortByRank(s[1..]))
  }

  /** The first `n` rows in leaderboard order: ordered rows of `s`, as many as `n` allows. */
  lemma {:induction false} TopRows(s: seq<QuizResult>, n: nat)
    ensures var top := Take(SortByRank(s), n);
      && |top| == (if n < |s| then n else |s|)
      && (forall i :: 0 <= i < |top| ==> top[i] in s)
      && Ordered(top)
  {
    var sorted := SortByRank(s);
    var top := Take(sorted, n);
    forall i | 0 <= i < |top| ensures top[i] in s {
      assert top[i] == sorted[i];
      assert sorted[i] in multiset(sorted);
    }
  }

  // ----- The queries -----

  /** The `difficulty` filter of `getLeaderboard`: none given keeps every row. */
  predicate InTier(difficulty: Option<Difficulty>, row: QuizResult)
  {
    difficulty.None? || row.difficulty == difficulty.value
  }

  /** The rows of the requested tier, in table order. */
  function TierRows(rows: seq<QuizResult>, difficulty: Option<Difficulty>): (tier: seq<QuizResult>)
    ensures forall x :: x in tier <==> x in rows && InTier(difficulty, x)
    ensures difficulty.None? ==> tier == rows
  {
    var keep := (row: QuizResult) => InTier(difficulty, row);
    if difficulty.None? then
      FilterKeepsAll(rows, keep);
      Filter(rows, keep)
    else
      Filter(rows, keep)
  }

  /** The rows of one player, in table order. */
  function PlayerRows(rows: seq<QuizResult>, playerName: string): (own: seq<QuizResult>)
    ensures forall x :: x in own <==> x in rows && x.playerName == playerName
  {
    Filter(rows, (row: QuizResult) => row.playerName == playerName)
  }

  /** The rows the leaderboard shows, in order, before ranks are attached. */
  function LeaderboardRows(rows: seq<QuizResult>, difficulty: Option<Difficulty>, limit: nat): (shown: seq<QuizResult>)
    ensures var tier := TierRows(rows, difficulty);
      |shown| == (if limit < |tier| then limit else |tier|)
    ensures forall i :: 0 <= i < |shown| ==> shown[i] in rows && InTier(difficulty, shown[i])
    ensures Ordered(shown)
  {
    var tier := TierRows(rows, difficulty);
    TopRows(tier, limit);
    Take(SortByRank(tier), limit)
  }

  /**
   * `getLeaderboard`: the rows of the tier (all rows with no tier given), best first, at most
   * `limit` of them (50 by default), each ranked by its position counting from 1.
   */
  function GetLeaderboard(rows: seq<QuizResult>, difficulty: Option<Difficulty>, limit: nat := DefaultLeaderboardLimit)
    : (board: seq<LeaderboardEntry>)
    ensures var tier := TierRows(rows, difficulty);
      |board| == (if limit < |tier| then limit else |tier|)
    ensures forall i :: 0 <= i < |board| ==> board[i].rank == Some(i + 1)
    ensures forall i :: 0 <= i < |board| ==> board[i].result in rows && InTier(difficulty, board[i].result)
    ensures forall i, j :: 0 <= i < j < |board| ==> RanksBefore(board[i].result, board[j].result)
    ensures var shown := LeaderboardRows(rows, difficulty, limit);
      |board| == |shown| && forall i :: 0 <= i < |board| ==> board[i].result == shown[i]
  {
    var shown := LeaderboardRows(rows, difficulty, limit);
    seq(|shown|, i requires 0 <= i < |shown| => LeaderboardEntry(shown[i], Some(i + 1)))
  }

  /** The rows `getPlayerBestScores` shows, in order, before they are wrapped as entries. */
  function PlayerBestRows(rows: seq<QuizResult>, playerName: string): (shown: seq<QuizResult>)
    ensures var own := PlayerRows(rows, playerName);
      |shown| == (if PlayerBestLimit < |own| then PlayerBestLimit else |own|)
    ensures forall i :: 0 <= i < |shown| ==> shown[i] in rows && shown[i].playerName == playerName
    ensures Ordered(shown)
  {
    var own := PlayerRows(rows, playerName);
    TopRows(own, PlayerBestLimit);
    Take(SortByRank(own), PlayerBestLimit)
  }

  /** `getPlayerBestScores`: the player's rows, best first, at most ten, without ranks. */
  function GetPlayerBestScores(rows: seq<QuizResult>, playerName: string): (best: seq<LeaderboardEntry>)
    ensures var own := PlayerRows(rows, playerName);
      |best| == (if PlayerBestLimit < |own| then PlayerBestLimit else |own|)
    ensures forall i :: 0 <= i < |best| ==>
      best[i].rank.None? && best[i].result in rows && best[i].result.playerName == playerName
    ensures forall i, j :: 0 <= i < j < |best| ==> RanksBefore(best[i].result, best[j].result)
    ensures var shown := PlayerBestRows(rows, playerName);
      |best| == |shown| && forall i :: 0 <= i < |best| ==> best[i].result == shown[i]
  {
    var shown := PlayerBestRows(rows, playerName);
    Map(shown, (row: QuizResult) => LeaderboardEntry(row, None))
  }

  // ----- What the leaderboard promises -----

  /** The first `k` of an ordered list rank before every row left after them. */
  lemma {:induction false} TakeRanksBeforeRest(sorted: seq<QuizResult>, k: nat, x: QuizResult)
    requires Ordered(sorted)
    requires x in sorted && x !in Take(sorted, k)
    ensures forall y :: y in Take(sorted, k) ==> RanksBefore(y, x)
  {
    var j :| 0 <= j < |sorted| && sorted[j] == x;
    var top := Take(sorted, k);
    assert forall i :: 0 <= i < |top| ==> top[i] == sorted[i] && top[i] in top;
    assert |top| <= j;
    forall y | y in Take(sorted, k) ensures RanksBefore(y, x) {
      var i :| 0 <= i < |Take(sorted, k)| && Take(sorted, k)[i] == y;
      assert sorted[i] == y;
    }
  }

  /**
   * The first `n` rows in leaderboard order are the best `n`: a row left off ranks no better
   * than any row kept, and when there are no more than `n` rows none is left off.
   */
  lemma {:induction false} TopRowsAreBest(s: seq<QuizResult>, n: nat, x: QuizResult)
    requires x in s
    ensures x !in Take(SortByRank(s), n) ==> forall y :: y in Take(SortByRank(s), n) ==> RanksBefore(y, x)
    ensures |s| <= n ==> x in Take(SortByRank(s), n)
  {
    var sorted := SortByRank(s);
    assert x in multiset(s);
    assert x in sorted by {
      assert x in multiset(sorted);
    }
    if x !in Take(sorted, n) {
      TakeRanksBeforeRest(sorted, n, x);
    }
  }

  /** The first `n` rows in leaderboard order hold no row more often than `s` does. */
  lemma TopRowsSubMultiset(s: seq<QuizResult>, n: nat)
    ensures multiset(Take(SortByRank(s), n)) <= multiset(s)
  {
    TakeSubMultiset(SortByRank(s), n);
  }

  /**
   * The leaderboard is the top of its tier: a row of the tier that is left off ranks no
   * better than any row shown, and when fewer than `limit` rows exist none is left off.
   */
  lemma LeaderboardIsTop(rows: seq<QuizResult>, difficulty: Option<Difficulty>, limit: nat, x: QuizResult)
    requires x in rows && InTier(difficulty, x)
    ensures x !in LeaderboardRows(rows, difficulty, limit) ==>
      forall y :: y in LeaderboardRows(rows, difficulty, limit) ==> RanksBefore(y, x)
    ensures var tier := TierRows(rows, difficulty);
      |tier| <= limit ==> x in LeaderboardRows(rows, difficulty, limit)
  {
    TopRowsAreBest(TierRows(rows, difficulty), limit, x);
  }

  /** Each row shown is shown once per copy in the table: the leaderboard never repeats a result. */
  lemma LeaderboardIsSubMultiset(rows: seq<QuizResult>, difficulty: Option<Difficulty>, limit: nat)
    ensures multiset(LeaderboardRows(rows, difficulty, limit)) <= multiset(rows)
  {
    FilterSubMultiset(rows, (row: QuizResult) => InTier(difficulty, row));
    TopRowsSubMultiset(TierRows(rows, difficulty), limit);
  }

  /**
   * The player's best scores are the player's top ten: a row of theirs that is left off ranks
   * no better than any row shown, and with ten rows or fewer none is left off.
   */
  lemma PlayerBestIsTop(rows: seq<QuizResult>, playerName: string, x: QuizResult)
    requires x in rows && x.playerName == playerName
    ensures x !in PlayerBestRows(rows, playerName) ==>
      forall y :: y in PlayerBestRows(rows, playerName) ==> RanksBefore(y, x)
    ensures |PlayerRows(rows, playerName)| <= PlayerBestLimit ==> x in PlayerBestRows(rows, playerName)
  {
    TopRowsAreBest(PlayerRows(rows, playerName), PlayerBestLimit, x);
  }

  /** The player's best scores never show a result more often than the table holds it. */
  lemma PlayerBestIsSubMultiset(rows: seq<QuizResult>, playerName: string)
    ensures multiset(PlayerBestRows(rows, playerName)) <= multiset(rows)
  {
    FilterSubMultiset(rows, (row: QuizResult) => row.playerName == playerName);
    TopRowsSubMultiset(PlayerRows(rows, playerName), PlayerBestLimit);
  }

  /** Without a tier the leaderboard draws on every row. */
  lemma AllTiersLeaderboard(rows: seq<QuizResult>, limit: nat)
    ensures |GetLeaderboard(rows, None, limit)| == (if limit < |rows| then limit else |rows|)
  {
  }

  // ----- Saving a result -----

  /** The `quiz_results` table, as far as this client writes it. */
  class ResultsTable {
    var results: seq<QuizResult>

    constructor ()
      ensures results == []
    {
      results := [];
    }

    /** `saveQuizResult`: one insert; the row comes back as stored. */
    method SaveQuizResult(result: QuizResult) returns (saved: QuizResult)
      modifies this
      ensures results == old(results) + [result]
      ensures saved == result
    {
      results := results + [result];
      saved := result;
    }

    /** The leaderboard over what has been saved. */
    function Leaderboard(difficulty: Option<Difficulty>, limit: nat): (board: seq<LeaderboardEntry>)
      reads this
      ensures |board| <= limit && |board| <= |results|
    {
      GetLeaderboard(results, difficulty, limit)
    }
  }

  /** A result just saved with the best percentage and time of its tier appears first on that tier's board. */
  lemma {:induction false} BestSavedResultLeads(rows: seq<QuizResult>, result: QuizResult, limit: nat)
    requires limit > 0
    requires forall y :: y in rows && y.difficulty == result.difficulty ==> RanksBefore(result, y) && !RanksBefore(y, result)
    ensures var board := GetLeaderboard(rows + [result], Some(result.difficulty), limit);
      |board| > 0 && board[0].result == result
  {
    var all := rows + [result];
    var tier := TierRows(all, Some(result.difficulty));
    var sorted := SortByRank(tier);
    assert result in all && result in tier;
    assert result in multiset(sorted);
    var j :| 0 <= j < |sorted| && sorted[j] == result;
    assert sorted[0] in multiset(sorted);
    assert sorted[0] in tier;
    assert sorted[0] in rows || sorted[0] == result;
    assert j == 0 || RanksBefore(sorted[0], sorted[j]);
  }
}
