/** The whole-log summary: game count, exact result counts and the overall win rate. */
module OverallStatistics {
  import opened JournalTypes
  import opened Grouping
  import opened Tallies

  /** The summary row. */
  datatype OverallStats = OverallStats(
    totalGames: nat, totalWins: nat, totalLosses: nat, totalDraws: nat, overallWinRate: real)

  /** A JavaScript number as far as a quotient of two counts can go:
      finite, or the result of dividing by zero. */
  datatype JsNumber = Finite(value: real) | Infinity | NaN

  /** JavaScript's `a / b * 100` on two counts. */
  function JsPercent(a: nat, b: nat): JsNumber {
    if b == 0 then (if a == 0 then NaN else Infinity)
    else Finite((a as real) / (b as real) * 100.0)
  }

  predicate NotDraw(g: Game) { g.result != Draw }

  /** The number of games whose result is not exactly `Draw`: the overall
      win-rate denominator. Results other than the three known ones are in it. */
  function NonDraws(log: seq<Game>): nat {
    |Filter(log, NotDraw)|
  }

  /** The non-draw games are all games but the draws, and include every win. */
  lemma {:induction false} NonDrawsCount(log: seq<Game>)
    ensures NonDraws(log) == |log| - Count(log, Draw)
    ensures Count(log, Win) <= NonDraws(log)
    ensures AllStandard(log) ==> NonDraws(log) == Count(log, Win) + Count(log, Loss)
  {
    if log != [] {
      var init := log[..|log| - 1];
      var g := log[|log| - 1];
      assert log == init + [g];
      NonDrawsCount(init);
      FilterSnoc(init, g, NotDraw);
      CountSnoc(init, g, Win);
      CountSnoc(init, g, Loss);
      CountSnoc(init, g, Draw);
    }
  }

  /** The overall win rate as the code computes it: only an empty log is
      guarded, so a log of draws only divides zero by zero. */
  function OverallWinRateAsWritten(log: seq<Game>): (r: JsNumber)
    ensures r != Infinity
    ensures r.Finite? <==> |log| == 0 || NonDraws(log) > 0
    ensures NonDraws(log) > 0 ==> r == Finite(Percent(Count(log, Win), NonDraws(log)))
    ensures r.Finite? ==> 0.0 <= r.value <= 100.0
  {
    NonDrawsCount(log);
    PercentBounds(Count(log, Win), NonDraws(log));
    if |log| > 0 then JsPercent(Count(log, Win), NonDraws(log)) else Finite(0.0)
  }

  /** Every non-empty log of draws only makes the code's win rate NaN, and
      nothing else does. */
  lemma AsWrittenNaNExactlyOnAllDraws(log: seq<Game>)
    ensures OverallWinRateAsWritten(log) == NaN <==>
      |log| > 0 && forall g :: g in log ==> g.result == Draw
  {
    NonDrawsCount(log);
    if |log| > 0 && forall g :: g in log ==> g.result == Draw {
      FilterNone(log, NotDraw);
    }
  }

  /** The summary, with the all-draw case defined as a win rate of 0. */
  function Overall(log: seq<Game>): (s: OverallStats)
    ensures s.totalGames == |log|
    ensures s.totalWins + s.totalLosses + s.totalDraws <= s.totalGames
    ensures 0.0 <= s.overallWinRate <= 100.0
  {
    CountsBounded(log);
    NonDrawsCount(log);
    PercentBounds(Count(log, Win), NonDraws(log));
    OverallStats(
      |log|, Count(log, Win), Count(log, Loss), Count(log, Draw),
      if |log| > 0 then Percent(Count(log, Win), NonDraws(log)) else 0.0)
  }

  /** The corrected rate is the code's wherever the code's is a number, and 0
      where the code's is NaN. */
  lemma OverallAgreesWithAsWritten(log: seq<Game>)
    ensures OverallWinRateAsWritten(log) != NaN ==>
      OverallWinRateAsWritten(log) == Finite(Overall(log).overallWinRate)
    ensures OverallWinRateAsWritten(log) == NaN ==> Overall(log).overallWinRate == 0.0
  {
    NonDrawsCount(log);
  }

  /** What the summary means: exact counts, wins as a percentage of the
      non-draw games, and the three counts covering the log when every result
      is a win, a loss or a draw. */
  lemma OverallMeaning(log: seq<Game>)
    ensures Overall(log).totalWins == Count(log, Win)
    ensures Overall(log).totalLosses == Count(log, Loss)
    ensures Overall(log).totalDraws == Count(log, Draw)
    ensures Overall(log).overallWinRate == Percent(Count(log, Win), NonDraws(log))
    ensures AllStandard(log) ==>
      Overall(log).totalWins + Overall(log).totalLosses + Overall(log).totalDraws == |log|
      && NonDraws(log) == Overall(log).totalWins + Overall(log).totalLosses
  {
    CountsBounded(log);
    NonDrawsCount(log);
  }
}
