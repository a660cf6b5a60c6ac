/** The records the journal keeps: decks, logged games and their results. */
module JournalTypes {

  /** The outcome stored in a game record. The log form offers "Win", "Loss"
      and "Draw" (or the empty placeholder); imported data is unchecked, so any
      other text is carried as `Other`. */
  datatype GameResult = Win | Loss | Draw | Other(text: string)

  /** The text a result is stored as. */
  function ResultText(r: GameResult): string {
    match r
    case Win => "Win"
    case Loss => "Loss"
    case Draw => "Draw"
    case Other(t) => t
  }

  /** A result is canonical when `Other` is not used for one of the three known texts. */
  predicate Canonical(r: GameResult) {
    r.Other? ==> r.text != "Win" && r.text != "Loss" && r.text != "Draw"
  }

  /** The results a record can hold: a stored text is one value, so the text
      "Win" is always `Win` and never `Other("Win")`. */
  type StoredResult = r: GameResult | Canonical(r) witness Win

  /** Reads a stored result text; every text has exactly one canonical reading. */
  function ParseResult(s: string): (r: StoredResult)
    ensures ResultText(r) == s
  {
    if s == "Win" then Win
    else if s == "Loss" then Loss
    else if s == "Draw" then Draw
    else Other(s)
  }

  lemma ParseResultText(r: StoredResult)
    ensures ParseResult(ResultText(r)) == r
  {
  }

  /** For stored results, comparing results is comparing their texts: the
      code's `result === 'Win'` tests and the model's `== Win` tests agree. */
  lemma {:induction false} StoredComparisonsAgree(r: StoredResult, r': StoredResult)
    ensures r == r' <==> ResultText(r) == ResultText(r')
    ensures r == Win <==> ResultText(r) == "Win"
    ensures r == Loss <==> ResultText(r) == "Loss"
    ensures r == Draw <==> ResultText(r) == "Draw"
  {
    ParseResultText(r);
    ParseResultText(r');
  }

  /** A calendar date, the meaning of a well-formed YYYY-MM-DD string. Two such
      strings are equal exactly when their triples are. */
  datatype Date = Date(year: int, month: int, day: int)

  /** Chronological order of dates, as the difference of two parsed dates orders them. */
  predicate Before(a: Date, b: Date) {
    a.year < b.year
    || (a.year == b.year && (a.month < b.month || (a.month == b.month && a.day < b.day)))
  }

  lemma BeforeIsStrictTotalOrder(a: Date, b: Date, c: Date)
    ensures !Before(a, a)
    ensures Before(a, b) ==> !Before(b, a)
    ensures a != b ==> Before(a, b) || Before(b, a)
    ensures Before(a, b) && Before(b, c) ==> Before(a, c)
  {
  }

  /** A deck; its name is the key games refer to. */
  datatype Deck = Deck(name: string, colors: string, leader: string, cardList: string, dateCreated: Date)

  /** The fields of the add-deck form. */
  datatype DeckDraft = DeckDraft(name: string, colors: string, leader: string, cardList: string)

  /** A logged game; `deckUsed` names a deck by its name. */
  datatype Game = Game(
    id: int, date: Date, deckUsed: string, opponent: string, opponentDeck: string,
    result: StoredResult, gameLength: string, notes: string, mulligans: int)

  /** The fields of the log-game form. */
  datatype GameDraft = GameDraft(
    date: Date, deckUsed: string, opponent: string, opponentDeck: string,
    result: StoredResult, gameLength: string, notes: string, mulligans: int)

  /** The deck the add-deck action stores: the form's fields plus the creation date. */
  function NewDeck(draft: DeckDraft, today: Date): (d: Deck)
    ensures DeckDraft(d.name, d.colors, d.leader, d.cardList) == draft && d.dateCreated == today
  {
    Deck(draft.name, draft.colors, draft.leader, draft.cardList, today)
  }

  /** The game the log-game action stores: the form's fields plus the id it is given. */
  function NewGame(draft: GameDraft, id: int): (g: Game)
    ensures g.id == id
    ensures GameDraft(g.date, g.deckUsed, g.opponent, g.opponentDeck, g.result,
                      g.gameLength, g.notes, g.mulligans) == draft
  {
    Game(id, draft.date, draft.deckUsed, draft.opponent, draft.opponentDeck,
         draft.result, draft.gameLength, draft.notes, draft.mulligans)
  }

  // Field selectors, used as grouping keys.
  function NameOf(d: Deck): string { d.name }
  function DeckOf(g: Game): string { g.deckUsed }
  function OpponentOf(g: Game): string { g.opponent }
  function DateOf(g: Game): Date { g.date }
  function ResultOf(g: Game): GameResult { g.result }
}
