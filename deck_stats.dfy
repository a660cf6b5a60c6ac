/** Per-deck records: one row per deck of the deck list, in its order. */
module DeckStatistics {
  import opened JournalTypes
  import opened Grouping
  import opened Tallies

  /** One row of the per-deck table. */
  datatype DeckRow = DeckRow(
    name: string, colors: string, leader: string,
    wins: nat, losses: nat, draws: nat, total: nat, winRate: real)

  /** The games played with the deck named `name`: an exact match on `deckUsed`. */
  function GamesOfDeck(log: seq<Game>, name: string): seq<Game> {
    Group(log, DeckOf, name)
  }

  /** The row of one deck. Draws are part of the win-rate denominator. */
  function DeckRowOf(d: Deck, log: seq<Game>): (row: DeckRow)
    ensures row.name == d.name && row.colors == d.colors && row.leader == d.leader
    ensures row.wins + row.losses + row.draws <= row.total
    ensures 0.0 <= row.winRate <= 100.0
    ensures DeckRowDescribes(row, d, log)
  {
    var games := GamesOfDeck(log, d.name);
    var wins, losses, draws, total := Count(games, Win), Count(games, Loss), Count(games, Draw), |games|;
    CountsBounded(games);
    PercentBounds(wins, total);
    DeckRow(d.name, d.colors, d.leader, wins, losses, draws, total, Percent(wins, total))
  }

  /** `getDeckStats`: the deck list mapped to its rows, one row per deck in
      deck-list order, each describing its deck. */
  function DeckStats(decks: seq<Deck>, log: seq<Game>): (rows: seq<DeckRow>)
    ensures |rows| == |decks|
    ensures forall i :: 0 <= i < |decks| ==> DeckRowDescribes(rows[i], decks[i], log)
  {
    seq(|decks|, i requires 0 <= i < |decks| => DeckRowOf(decks[i], log))
  }

  /** What a row says: the deck's name, its exact counts among the games
      naming it, the number of those games as total, and the win rate over
      all of them, draws included (0 when there are none). */
  predicate DeckRowDescribes(row: DeckRow, d: Deck, log: seq<Game>) {
    var games := GamesOfDeck(log, d.name);
    && row.name == d.name
    && row.total == |games|
    && row.wins == Count(games, Win)
    && row.losses == Count(games, Loss)
    && row.draws == Count(games, Draw)
    && row.winRate == Percent(row.wins, row.total)
  }

  /** When every game is a win, a loss or a draw, each row's three counts add
      up to its total. */
  lemma DeckRowsComplete(decks: seq<Deck>, log: seq<Game>)
    requires AllStandard(log)
    ensures forall i :: 0 <= i < |decks| ==>
      var row := DeckStats(decks, log)[i];
      row.wins + row.losses + row.draws == row.total
  {
    forall i | 0 <= i < |decks|
      ensures var row := DeckStats(decks, log)[i];
        row.wins + row.losses + row.draws == row.total
    {
      CountsBounded(GamesOfDeck(log, decks[i].name));
    }
  }

  /** A deck that no game names gets an all-zero row. */
  lemma UnplayedDeckRow(d: Deck, log: seq<Game>)
    requires forall g :: g in log ==> g.deckUsed != d.name
    ensures DeckRowOf(d, log) == DeckRow(d.name, d.colors, d.leader, 0, 0, 0, 0, 0.0)
  {
    GroupNone(log, DeckOf, d.name);
    assert GamesOfDeck(log, d.name) == [];
  }

  /** The sum of the `total` column. */
  function SumDeckTotals(rows: seq<DeckRow>): nat {
    if rows == [] then 0 else SumDeckTotals(rows[..|rows| - 1]) + rows[|rows| - 1].total
  }

  /** The deck names of the list, in order. */
  function Names(decks: seq<Deck>): seq<string> {
    Keys(decks, NameOf)
  }

  /** Orphaned games: those whose `deckUsed` names no deck of the list. */
  function Orphans(decks: seq<Deck>, log: seq<Game>): seq<Game> {
    Outside(log, DeckOf, Names(decks))
  }

  lemma {:induction false} DeckTotalsIsGroupSizes(decks: seq<Deck>, log: seq<Game>)
    ensures SumDeckTotals(DeckStats(decks, log)) == GroupSizes(Names(decks), log, DeckOf)
  {
    if decks != [] {
      var init := decks[..|decks| - 1];
      DeckTotalsIsGroupSizes(init, log);
      assert DeckStats(decks, log)[..|decks| - 1] == DeckStats(init, log);
      assert Names(decks)[..|decks| - 1] == Names(init);
    }
  }

  /** With unique deck names, every game is counted in exactly one row or is
      an orphan: the row totals plus the orphans make up the whole log. */
  lemma DeckTotalsAndOrphans(decks: seq<Deck>, log: seq<Game>)
    requires DistinctBy(decks, NameOf)
    ensures SumDeckTotals(DeckStats(decks, log)) + |Orphans(decks, log)| == |log|
  {
    DeckTotalsIsGroupSizes(decks, log);
    GroupSizesCover(Names(decks), log, DeckOf);
  }

  /** An orphaned game is in no deck's games. */
  lemma OrphanInNoRow(decks: seq<Deck>, log: seq<Game>, g: Game)
    requires g in Orphans(decks, log)
    ensures forall i :: 0 <= i < |decks| ==> g !in GamesOfDeck(log, decks[i].name)
  {
    forall i | 0 <= i < |decks|
      ensures g !in GamesOfDeck(log, decks[i].name)
    {
      assert Names(decks)[i] == decks[i].name;
    }
  }
}
