/** Head-to-head records: one row per distinct opponent name, in the order
    the names first appear in the log. */
module OpponentStatistics {
  import opened JournalTypes
  import opened Grouping
  import opened Tallies

  /** One row of the head-to-head table. */
  datatype OpponentRow = OpponentRow(
    opponent: string, wins: nat, losses: nat, draws: nat, total: nat, winRate: real)

  /** The games against `opponent`: an exact match on the name. */
  function GamesAgainst(log: seq<Game>, opponent: string): seq<Game> {
    Group(log, OpponentOf, opponent)
  }

  /** The row made from one entry of the opponent map. Draws are left out of
      the win-rate denominator. */
  function RowOf(opponent: string, t: Tally): OpponentRow {
    OpponentRow(opponent, t.wins, t.losses, t.draws,
      t.wins + t.losses + t.draws, Percent(t.wins, t.wins + t.losses))
  }

  /** The rows of the opponents `ks`, in that order. */
  function OpponentRows(ks: seq<string>, log: seq<Game>): seq<OpponentRow> {
    seq(|ks|, i requires 0 <= i < |ks| => RowOf(ks[i], Tallied(GamesAgainst(log, ks[i]))))
  }

  /** The distinct opponent names of the log in first-seen order: the key
      order of the opponent map. */
  function OpponentNames(log: seq<Game>): seq<string> {
    Dedup(Keys(log, OpponentOf))
  }

  /** The head-to-head table. */
  function OpponentStats(log: seq<Game>): seq<OpponentRow> {
    OpponentRows(OpponentNames(log), log)
  }

  /** `getOpponentStats`: one pass over the log fills a map from opponent name
      to tally, creating the entry on first sight; the map's entries, in
      insertion order, become the rows. */
  method GetOpponentStats(log: seq<Game>) returns (rows: seq<OpponentRow>)
    ensures rows == OpponentStats(log)
    ensures forall i :: 0 <= i < |rows| ==> OpponentRowDescribes(rows[i], log)
    ensures SumOpponentTotals(rows) == |log|
  {
    var opponentMap: map<string, Tally> := map[];
    var order: seq<string> := [];
    for i := 0 to |log|
      invariant TallyMapHolds(opponentMap, order, log[..i], OpponentOf)
    {
      var game := log[i];
      assert log[..i + 1] == log[..i] + [game];
      TallyMapStep(opponentMap, order, log[..i], game, OpponentOf);
      ghost var before, orderBefore := opponentMap, order;
      if game.opponent !in opponentMap {
        opponentMap := opponentMap[game.opponent := Tally(0, 0, 0)];
        order := order + [game.opponent];
      }
      opponentMap := opponentMap[game.opponent := Step(opponentMap[game.opponent], game.result)];
      assert opponentMap == Counted(before, game.opponent, game.result);
      assert order == Ordered(before, orderBefore, game.opponent);
    }
    assert log[..|log|] == log;
    rows := seq(|order|, j requires 0 <= j < |order| => RowOf(order[j], opponentMap[order[j]]));
    OpponentRowsMeaning(log);
    OpponentTotalsSum(log);
  }

  /** What a row says: the exact wins and losses against its opponent, every
      other result as a draw, all those games as total, and the percentage of
      wins among the decided games, wins and losses (0 when there are none). */
  predicate OpponentRowDescribes(row: OpponentRow, log: seq<Game>) {
    var games := GamesAgainst(log, row.opponent);
    && row.wins == Count(games, Win)
    && row.losses == Count(games, Loss)
    && row.total == row.wins + row.losses + row.draws == |games|
    && row.winRate == Percent(row.wins, row.wins + row.losses)
    && 0.0 <= row.winRate <= 100.0
  }

  lemma RowOfDescribes(log: seq<Game>, o: string)
    ensures OpponentRowDescribes(RowOf(o, Tallied(GamesAgainst(log, o))), log)
  {
    var games := GamesAgainst(log, o);
    var t := Tallied(games);
    var row := RowOf(o, t);
    TalliedCounts(games);
    PercentBounds(t.wins, t.wins + t.losses);
  }

  /** Every row of the table describes its opponent's games. */
  lemma OpponentRowsMeaning(log: seq<Game>)
    ensures forall i :: 0 <= i < |OpponentStats(log)| ==> OpponentRowDescribes(OpponentStats(log)[i], log)
  {
    var ks := OpponentNames(log);
    forall i | 0 <= i < |ks|
      ensures OpponentRowDescribes(OpponentStats(log)[i], log)
    {
      RowOfDescribes(log, ks[i]);
    }
  }

  /** Every opponent of the log is among the names, and every name is an opponent of the log. */
  lemma NamesAreOpponents(log: seq<Game>)
    ensures forall g :: g in log ==> g.opponent in OpponentNames(log)
    ensures forall o :: o in OpponentNames(log) ==> exists g :: g in log && g.opponent == o
  {
    var keys := Keys(log, OpponentOf);
    forall g | g in log
      ensures g.opponent in OpponentNames(log)
    {
      var n :| 0 <= n < |log| && log[n] == g;
      assert keys[n] == g.opponent;
    }
    forall o | o in OpponentNames(log)
      ensures exists g :: g in log && g.opponent == o
    {
      var n :| 0 <= n < |log| && keys[n] == o;
      assert log[n] in log;
    }
  }

  /** The rows follow the opponent names one for one. */
  lemma RowsFollowNames(log: seq<Game>)
    ensures |OpponentStats(log)| == |OpponentNames(log)|
    ensures forall i :: 0 <= i < |OpponentStats(log)| ==>
      OpponentStats(log)[i].opponent == OpponentNames(log)[i]
  {
  }

  /** No opponent has two rows. */
  lemma OpponentRowsDistinct(log: seq<Game>)
    ensures forall i, j :: 0 <= i < j < |OpponentStats(log)| ==>
      OpponentStats(log)[i].opponent != OpponentStats(log)[j].opponent
  {
    RowsFollowNames(log);
  }

  /** Every opponent met in the log has a row. */
  lemma EveryOpponentHasRow(log: seq<Game>)
    ensures forall g :: g in log ==>
      exists i :: 0 <= i < |OpponentStats(log)| && OpponentStats(log)[i].opponent == g.opponent
  {
    var ks := OpponentNames(log);
    var rows := OpponentStats(log);
    RowsFollowNames(log);
    NamesAreOpponents(log);
    forall g | g in log
      ensures exists i :: 0 <= i < |rows| && rows[i].opponent == g.opponent
    {
      var i :| 0 <= i < |ks| && ks[i] == g.opponent;
      assert rows[i].opponent == g.opponent;
    }
  }

  /** Every row's opponent was met in the log. */
  lemma EveryRowOpponentMet(log: seq<Game>)
    ensures forall i :: 0 <= i < |OpponentStats(log)| ==>
      exists g :: g in log && g.opponent == OpponentStats(log)[i].opponent
  {
    var ks := OpponentNames(log);
    var rows := OpponentStats(log);
    RowsFollowNames(log);
    NamesAreOpponents(log);
    forall i | 0 <= i < |rows|
      ensures exists g :: g in log && g.opponent == rows[i].opponent
    {
      assert ks[i] in ks && rows[i].opponent == ks[i];
    }
  }

  /** The rows are listed in the order their opponents are first met. */
  lemma OpponentRowsFirstSeen(log: seq<Game>)
    ensures forall i, j :: 0 <= i < j < |OpponentStats(log)| ==>
      FirstIndex(Keys(log, OpponentOf), OpponentStats(log)[i].opponent)
        < FirstIndex(Keys(log, OpponentOf), OpponentStats(log)[j].opponent)
  {
    RowsFollowNames(log);
    DedupFirstSeen(Keys(log, OpponentOf));
  }

  /** The sum of the `total` column. */
  function SumOpponentTotals(rows: seq<OpponentRow>): nat {
    if rows == [] then 0 else SumOpponentTotals(rows[..|rows| - 1]) + rows[|rows| - 1].total
  }

  lemma {:induction false} OpponentTotalsIsGroupSizes(ks: seq<string>, log: seq<Game>)
    ensures SumOpponentTotals(OpponentRows(ks, log)) == GroupSizes(ks, log, OpponentOf)
  {
    if ks != [] {
      var init := ks[..|ks| - 1];
      OpponentTotalsIsGroupSizes(init, log);
      assert OpponentRows(ks, log)[..|ks| - 1] == OpponentRows(init, log);
      TalliedCounts(GamesAgainst(log, ks[|ks| - 1]));
    }
  }

  /** Every game is counted in exactly one row: the totals add up to the log's length. */
  lemma OpponentTotalsSum(log: seq<Game>)
    ensures SumOpponentTotals(OpponentStats(log)) == |log|
  {
    OpponentTotalsIsGroupSizes(OpponentNames(log), log);
    GroupSizesOfAllKeys(log, OpponentOf);
  }
}
