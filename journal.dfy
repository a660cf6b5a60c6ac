/** The journal's state: the deck list and the game log, and the four actions
    that change them. */
module Journal {
  import opened JournalTypes
  import opened Text
  import opened Grouping
  import opened DeckStatistics

  /** What the add-deck action reports. */
  datatype AddDeckStatus = Added | BlankName | DuplicateName

  /** What the log-game action reports. */
  datatype AddGameStatus = Logged | MissingFields

  /** Some deck of the list has exactly this name (`deckList.find`). */
  predicate HasDeckNamed(decks: seq<Deck>, name: string) {
    exists i :: 0 <= i < |decks| && decks[i].name == name
  }

  /** No two decks share a name. */
  predicate UniqueNames(decks: seq<Deck>) {
    DistinctBy(decks, NameOf)
  }

  /** The log form's required fields are all non-empty (no trimming). */
  predicate FieldsFilled(draft: GameDraft) {
    draft.deckUsed != "" && draft.opponent != "" && ResultText(draft.result) != ""
  }

  /** The deck list without the deck named `name`. */
  function WithoutDeck(decks: seq<Deck>, name: string): seq<Deck> {
    Filter(decks, (d: Deck) => d.name != name)
  }

  /** The log without the games played with the deck named `name`. */
  function WithoutDeckGames(log: seq<Game>, name: string): seq<Game> {
    Filter(log, (g: Game) => g.deckUsed != name)
  }

  /** The log without the games whose id is `id`. */
  function WithoutGame(log: seq<Game>, id: int): seq<Game> {
    Filter(log, (g: Game) => g.id != id)
  }

  class JournalState {
    var deckList: seq<Deck>
    var gameLog: seq<Game>

    /** An empty journal. */
    constructor()
      ensures deckList == [] && gameLog == []
    {
      deckList := [];
      gameLog := [];
    }

    /** `addDeck`: appends the form's deck, dated `today`, unless the name is
        blank after trimming or a deck already has exactly this name. Blank
        is reported first. */
    method AddDeck(draft: DeckDraft, today: Date) returns (status: AddDeckStatus)
      modifies this
      ensures status == BlankName <==> IsBlank(draft.name)
      ensures status == DuplicateName <==> !IsBlank(draft.name) && HasDeckNamed(old(deckList), draft.name)
      ensures status == Added ==> deckList == old(deckList) + [NewDeck(draft, today)]
      ensures status != Added ==> deckList == old(deckList)
      ensures gameLog == old(gameLog)
      ensures UniqueNames(old(deckList)) ==> UniqueNames(deckList)
    {
      TrimEmptyIffBlank(draft.name);
      if Trim(draft.name) != "" && !HasDeckNamed(deckList, draft.name) {
        AppendKeepsUnique(deckList, NewDeck(draft, today));
        deckList := deckList + [NewDeck(draft, today)];
        status := Added;
      } else if Trim(draft.name) == "" {
        status := BlankName;
      } else {
        status := DuplicateName;
      }
    }

    /** `deleteDeck`: removes the deck named `deckName` and, with it, every
        game played with that deck; what survives keeps its order. */
    method DeleteDeck(deckName: string)
      modifies this
      ensures deckList == WithoutDeck(old(deckList), deckName)
      ensures gameLog == WithoutDeckGames(old(gameLog), deckName)
      ensures forall d :: d in deckList <==> d in old(deckList) && d.name != deckName
      ensures forall g :: g in gameLog <==> g in old(gameLog) && g.deckUsed != deckName
      ensures UniqueNames(old(deckList)) ==> UniqueNames(deckList)
    {
      if UniqueNames(deckList) {
        FilterKeepsDistinct(deckList, (d: Deck) => d.name != deckName, NameOf);
      }
      deckList := WithoutDeck(deckList, deckName);
      gameLog := WithoutDeckGames(gameLog, deckName);
    }

    /** `addGame`: appends the form's game with the id it is given, unless
        the deck, the opponent or the result is empty. */
    method AddGame(draft: GameDraft, id: int) returns (status: AddGameStatus)
      modifies this
      ensures status == Logged <==> FieldsFilled(draft)
      ensures status == Logged ==> gameLog == old(gameLog) + [NewGame(draft, id)]
      ensures status != Logged ==> gameLog == old(gameLog)
      ensures deckList == old(deckList)
    {
      if draft.deckUsed != "" && draft.opponent != "" && ResultText(draft.result) != "" {
        gameLog := gameLog + [NewGame(draft, id)];
        status := Logged;
      } else {
        status := MissingFields;
      }
    }

    /** `deleteGame`: removes every game whose id is `gameId`; the others keep
        their order and the deck list is untouched. */
    method DeleteGame(gameId: int)
      modifies this
      ensures gameLog == WithoutGame(old(gameLog), gameId)
      ensures forall g :: g in gameLog <==> g in old(gameLog) && g.id != gameId
      ensures deckList == old(deckList)
    {
      gameLog := WithoutGame(gameLog, gameId);
    }
  }

  /** Appending a deck whose name is new keeps deck names unique. */
  lemma AppendKeepsUnique(decks: seq<Deck>, d: Deck)
    requires !HasDeckNamed(decks, d.name)
    ensures UniqueNames(decks) ==> UniqueNames(decks + [d])
  {
    if UniqueNames(decks) {
      var s := decks + [d];
      forall i, j | 0 <= i < j < |s|
        ensures NameOf(s[i]) != NameOf(s[j])
      {
        if j == |decks| {
          assert s[i] == decks[i];
        } else {
          assert s[i] == decks[i] && s[j] == decks[j];
        }
      }
    }
  }

  /** Deleting a game by an id no game carries changes nothing. */
  lemma DeleteAbsentGame(log: seq<Game>, id: int)
    requires forall g :: g in log ==> g.id != id
    ensures WithoutGame(log, id) == log
  {
    FilterAll(log, (g: Game) => g.id != id);
  }

  /** The games of the deck named `name` and the rest split the log: every
      game is in exactly one of the two parts. */
  lemma {:induction false} DeckGamesSplit(log: seq<Game>, name: string)
    ensures multiset(WithoutDeckGames(log, name)) + multiset(GamesOfDeck(log, name)) == multiset(log)
    ensures |WithoutDeckGames(log, name)| + |GamesOfDeck(log, name)| == |log|
  {
    if log != [] {
      var init := log[..|log| - 1];
      var g := log[|log| - 1];
      assert log == init + [g];
      DeckGamesSplit(init, name);
      FilterSnoc(init, g, (h: Game) => h.deckUsed != name);
      GroupSnoc(init, g, DeckOf, name);
    }
  }

  /** Removing one deck's games leaves every other deck's games as they were. */
  lemma {:induction false} OtherDeckGamesKept(log: seq<Game>, name: string, other: string)
    requires other != name
    ensures GamesOfDeck(WithoutDeckGames(log, name), other) == GamesOfDeck(log, other)
  {
    if log != [] {
      var init := log[..|log| - 1];
      var g := log[|log| - 1];
      assert log == init + [g];
      OtherDeckGamesKept(init, name, other);
      FilterSnoc(init, g, (h: Game) => h.deckUsed != name);
      GroupSnoc(init, g, DeckOf, other);
      GroupSnoc(WithoutDeckGames(init, name), g, DeckOf, other);
    }
  }

  lemma DeckStatsSnoc(decks: seq<Deck>, d: Deck, log: seq<Game>)
    ensures DeckStats(decks + [d], log) == DeckStats(decks, log) + [DeckRowOf(d, log)]
  {
  }

  /** A deck that is kept gets the same row from the pruned log. */
  lemma KeptDeckRow(d: Deck, log: seq<Game>, name: string)
    requires d.name != name
    ensures DeckRowOf(d, WithoutDeckGames(log, name)) == DeckRowOf(d, log)
  {
    OtherDeckGamesKept(log, name, d.name);
  }

  /** Deleting a deck, with its games, removes exactly its row from the
      per-deck table and leaves every other row as it was. */
  lemma {:induction false} DeleteDeckStats(decks: seq<Deck>, log: seq<Game>, name: string)
    ensures DeckStats(WithoutDeck(decks, name), WithoutDeckGames(log, name))
      == Filter(DeckStats(decks, log), (row: DeckRow) => row.name != name)
  {
    var log' := WithoutDeckGames(log, name);
    if decks == [] {
      assert WithoutDeck(decks, name) == [];
    } else {
      var init := decks[..|decks| - 1];
      var d := decks[|decks| - 1];
      assert decks == init + [d];
      DeleteDeckStats(init, log, name);
      FilterSnoc(init, d, (e: Deck) => e.name != name);
      DeckStatsSnoc(init, d, log);
      FilterSnoc(DeckStats(init, log), DeckRowOf(d, log), (r: DeckRow) => r.name != name);
      if d.name != name {
        KeptDeckRow(d, log, name);
        DeckStatsSnoc(WithoutDeck(init, name), d, log');
      }
    }
  }
}
