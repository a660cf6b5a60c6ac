# One Piece TCG Journal — verified model of the journal core

The journal keeps two lists: the **deck list** (name, colours, leader, card
list, creation date) and the **game log** (id, date, deck used, opponent,
opponent's deck, result, game length, notes, mulligans). Four actions change
them: adding a deck, deleting a deck together with its games, logging a game
and deleting a game. Four read-only views summarise them: per-deck records,
head-to-head records per opponent, a per-date win/loss timeline and a
whole-log summary.

The model is split by the program's own structure:

| file | module | what it holds |
|---|---|---|
| `journal_types.dfy` | `JournalTypes` | decks, games, results (`Win`, `Loss`, `Draw`, or any other stored text), dates |
| `text.dfy` | `Text` | the whitespace trimming of the deck-name guard |
| `grouping.dfy` | `Grouping` | `filter`, grouping by a key, first-seen distinct keys |
| `tallies.dfy` | `Tallies` | exact result counts, the loops' win/loss/draw tally, percentages, one step of a tallying loop over a map |
| `deck_stats.dfy` | `DeckStatistics` | the per-deck records (a pure `map`/`filter` expression) |
| `opponent_stats.dfy` | `OpponentStatistics` | the head-to-head records (a loop filling a map) |
| `timeline.dfy` | `Timeline` | the timeline (a loop filling a map, then a sort by date) |
| `overall_stats.dfy` | `OverallStatistics` | the whole-log summary (a pure expression) |
| `journal.dfy` | `Journal` | the `JournalState` class with the two lists and the four actions |

Results are modelled as `Win | Loss | Draw | Other(text)`: the log form only
offers the three known results, but imported data is not checked, and the
views treat other texts differently. Records hold a `StoredResult`, a result
in which the texts "Win", "Loss" and "Draw" are always the three known
results, so that comparing results is comparing the stored texts (the per-deck and overall counts match
exact results only, while the opponent and timeline loops count every
non-win, non-loss result as a draw). Win rates are exact reals; dates are
`(year, month, day)` triples ordered chronologically.

## Model

The contracts below are stated with a few plain definitions that each mirror
one expression of the source and carry no row of their own: `Tallies.Count`
(`filter(g => g.result === r).length`, lines 139-141 and 197-199),
`Text.Trim` (`name.trim()`, line 93), `Journal.HasDeckNamed`
(`deckList.find`, line 93), `Journal.FieldsFilled` (the guard at line 113),
`OverallStatistics.NonDraws` (the denominator at line 200), and the three
filters `Journal.WithoutDeck`, `Journal.WithoutDeckGames` and
`Journal.WithoutGame` (lines 108, 109 and 132).

| member | source | states |
|---|---|---|
| JournalTypes.ParseResult | src/components/OnePieceJournal.jsx:139-141 | every stored result text reads as a stored result with exactly that text |
| JournalTypes.StoredComparisonsAgree | src/components/OnePieceJournal.jsx:139-141 | for the results records hold, two results are equal exactly when their texts are, and a result is `Win`, `Loss` or `Draw` exactly when its text is "Win", "Loss" or "Draw", so the model's result tests are the code's `result === 'Win'` tests |
| JournalTypes.BeforeIsStrictTotalOrder | src/components/OnePieceJournal.jsx:188 | the date order used by the timeline sort is irreflexive, asymmetric, transitive and total on distinct dates |
| JournalTypes.NewDeck | src/components/OnePieceJournal.jsx:94-97 | the stored deck carries every field of the form unchanged (name, colours, leader, card list) and the creation date it is given |
| JournalTypes.NewGame | src/components/OnePieceJournal.jsx:114 | the stored game carries every field of the form unchanged (date, deck, opponent, opponent's deck, result, length, notes, mulligans) and the id it is given |
| Text.TrimStart | src/components/OnePieceJournal.jsx:93 | the result is the name with exactly its leading whitespace removed: a suffix, preceded only by whitespace, starting with no whitespace, and empty exactly when the name is blank |
| Text.TrimEnd | src/components/OnePieceJournal.jsx:93 | the result is the name with exactly its trailing whitespace removed: a prefix, followed only by whitespace, ending with no whitespace, and empty exactly when the name is blank |
| Text.TrimEmptyIffBlank | src/components/OnePieceJournal.jsx:93 | the trimmed name is empty exactly when the name is whitespace only |
| Grouping.Filter | src/components/OnePieceJournal.jsx:108-109 | the kept elements are exactly those of the input that pass, and there are no more of them |
| Grouping.FilterAppend | src/components/OnePieceJournal.jsx:108-109 | filtering keeps the relative order of the survivors |
| Grouping.FilterKeepsDistinct | src/components/OnePieceJournal.jsx:108 | removing decks keeps deck names unique |
| Grouping.Group | src/components/OnePieceJournal.jsx:138 | a group holds exactly the elements whose key equals the given key |
| Grouping.Dedup | src/components/OnePieceJournal.jsx:160-161 | the keys created in the map are distinct and are exactly the keys met |
| Grouping.DedupFirstSeen | src/components/OnePieceJournal.jsx:168 | the distinct keys are listed in the order of their first occurrence |
| Grouping.GroupSizesCover | src/components/OnePieceJournal.jsx:137-142 | with distinct keys, the groups and the elements outside them count every element exactly once |
| Grouping.GroupSizesOfAllKeys | src/components/OnePieceJournal.jsx:159-166 | the groups of all keys met together hold every element |
| Tallies.CountsBounded | src/components/OnePieceJournal.jsx:139-142 | exact wins, losses and draws never exceed the games, and make them up when every result is standard |
| Tallies.Step | src/components/OnePieceJournal.jsx:163-165 | a win adds one to the wins, a loss one to the losses, any other result one to the draws, and nothing else moves |
| Tallies.TalliedCounts | src/components/OnePieceJournal.jsx:163-165 | the loop tally has the exact wins and losses, counts everything else as a draw, and sums to the games seen |
| Tallies.Percent | src/components/OnePieceJournal.jsx:152 | the rate is 0 for an empty whole and otherwise times the whole equals 100 times the part |
| Tallies.PercentBounds | src/components/OnePieceJournal.jsx:152 | a rate of a part of its whole lies in [0, 100] and is 100 only when the part is all of it |
| Tallies.TallyMapStep | src/components/OnePieceJournal.jsx:159-166 | one loop iteration (create the entry at zero on first sight, then count the result) keeps the map equal to the tallies of the games seen, in first-seen key order |
| DeckStatistics.DeckRowOf | src/components/OnePieceJournal.jsx:137-153 | a deck's row copies its name, colours and leader, holds the exact win, loss and draw counts of the games naming the deck and their number as total, its counts do not exceed its total, and its rate over all those games lies in [0, 100] |
| DeckStatistics.DeckStats | src/components/OnePieceJournal.jsx:136-155 | one row per deck, in deck-list order, each with the deck's name, the exact counts of the games naming the deck, their number as total, and the win rate over all of them, draws included |
| DeckStatistics.DeckRowsComplete | src/components/OnePieceJournal.jsx:139-142 | when every result is standard, each row's counts add up to its total |
| DeckStatistics.UnplayedDeckRow | src/components/OnePieceJournal.jsx:152 | a deck no game names gets all-zero counts and a rate of 0 |
| DeckStatistics.DeckTotalsAndOrphans | src/components/OnePieceJournal.jsx:138 | with unique deck names, the row totals plus the games naming no deck make up the whole log |
| DeckStatistics.OrphanInNoRow | src/components/OnePieceJournal.jsx:138 | a game naming no deck of the list is counted in no row |
| OpponentStatistics.GetOpponentStats | src/components/OnePieceJournal.jsx:157-174 | the loop's rows are the head-to-head table; each row has the exact wins and losses, other results as draws, total = wins + losses + draws, and the rate of wins among wins and losses; the totals sum to the log's length |
| OpponentStatistics.RowOfDescribes | src/components/OnePieceJournal.jsx:168-173 | a row built from an opponent's tally describes that opponent's games, its rate in [0, 100] |
| OpponentStatistics.OpponentRowsMeaning | src/components/OnePieceJournal.jsx:168-173 | every row describes its opponent's games |
| OpponentStatistics.OpponentRowsDistinct | src/components/OnePieceJournal.jsx:158-161 | no opponent has two rows |
| OpponentStatistics.EveryOpponentHasRow | src/components/OnePieceJournal.jsx:159-161 | every opponent of the log has a row |
| OpponentStatistics.EveryRowOpponentMet | src/components/OnePieceJournal.jsx:159-161 | every row's opponent occurs in the log |
| OpponentStatistics.OpponentRowsFirstSeen | src/components/OnePieceJournal.jsx:168 | rows come in the order their opponents first appear in the log |
| OpponentStatistics.OpponentTotalsSum | src/components/OnePieceJournal.jsx:171 | the row totals sum to the number of games |
| Timeline.Insert | src/components/OnePieceJournal.jsx:188 | one insertion adds exactly the entry: same entries plus one, games summed |
| Timeline.InsertSorted | src/components/OnePieceJournal.jsx:188 | inserting an entry with a new date keeps the timeline sorted |
| Timeline.SortByDate | src/components/OnePieceJournal.jsx:188 | the result is sorted by date and is a permutation of the input |
| Timeline.SortedUnique | src/components/OnePieceJournal.jsx:188 | the sorted order is determined: two date-sorted permutations of the same entries are equal |
| Timeline.FirstSeenBucketsMeaning | src/components/OnePieceJournal.jsx:177-186 | before sorting there is one entry per distinct date, each with that date's exact wins and losses and other results as draws |
| Timeline.FirstSeenBucketsCover | src/components/OnePieceJournal.jsx:179-182 | every date of the log has an entry |
| Timeline.FirstSeenBucketsSum | src/components/OnePieceJournal.jsx:183-185 | the entries' wins, losses and draws together count every game once |
| Timeline.GetTimelineData | src/components/OnePieceJournal.jsx:176-189 | the result is sorted ascending by date, is a permutation of the per-date entries, each entry describes its date, every date of the log has an entry, and all entries together count the whole log |
| OverallStatistics.OverallWinRateAsWritten | src/components/OnePieceJournal.jsx:200 | the code's rate is never infinite; it is a number exactly when the log is empty or has a non-draw game, and then it is the percentage of wins among the non-draw games, in [0, 100] |
| OverallStatistics.NonDrawsCount | src/components/OnePieceJournal.jsx:200 | the win-rate denominator is all games but exact draws, includes every win, and is wins + losses when every result is standard |
| OverallStatistics.AsWrittenNaNExactlyOnAllDraws | src/components/OnePieceJournal.jsx:200 | the win rate as written is NaN exactly for a non-empty log of draws only |
| OverallStatistics.Overall | src/components/OnePieceJournal.jsx:195-201 | the total is the log's length, the three counts do not exceed it, and the rate lies in [0, 100] |
| OverallStatistics.OverallMeaning | src/components/OnePieceJournal.jsx:196-200 | exact result counts, wins as a percentage of the non-draw games (0 when there are none), and the counts covering the log when every result is standard |
| OverallStatistics.OverallAgreesWithAsWritten | src/components/OnePieceJournal.jsx:200 | the corrected rate equals the code's wherever the code's is a number, and is 0 where it is NaN |
| Journal.JournalState.constructor | src/components/OnePieceJournal.jsx:6-7 | a new journal has no decks and no games |
| Journal.JournalState.AddDeck | src/components/OnePieceJournal.jsx:92-105 | appends exactly the new deck iff the name is not blank and no deck has exactly that name; reports blank before duplicate; otherwise nothing changes; the game log never changes; unique names stay unique |
| Journal.JournalState.DeleteDeck | src/components/OnePieceJournal.jsx:107-110 | removes exactly the decks named so and exactly the games played with that deck, keeping the survivors in order; unique names stay unique |
| Journal.JournalState.AddGame | src/components/OnePieceJournal.jsx:112-129 | appends exactly the new game iff deck, opponent and result are all non-empty, otherwise nothing changes; the deck list never changes |
| Journal.JournalState.DeleteGame | src/components/OnePieceJournal.jsx:131-133 | removes exactly the games with that id, keeping the others in order; the deck list never changes |
| Journal.AppendKeepsUnique | src/components/OnePieceJournal.jsx:93-97 | appending a deck whose name no deck has keeps deck names unique |
| Journal.DeleteAbsentGame | src/components/OnePieceJournal.jsx:132 | deleting an id no game carries leaves the log as it was |
| Journal.DeckGamesSplit | src/components/OnePieceJournal.jsx:109 | every game of the old log is either kept or one of the deleted deck's games, never both (the two parts' multisets add up to the log's) |
| Journal.OtherDeckGamesKept | src/components/OnePieceJournal.jsx:109 | deleting a deck's games leaves every other deck's games as they were |
| Journal.DeleteDeckStats | src/components/OnePieceJournal.jsx:107-110 | after deleting a deck the per-deck table is the old table without that deck's row, every other row unchanged |

## Left out

- Loading from and saving to browser storage (src/components/OnePieceJournal.jsx:30-44): persistence I/O.
- Export and import (src/components/OnePieceJournal.jsx:47-90): file and browser I/O. Import, when the file has both lists, replaces both lists wholesale without any check; this is why the model allows any result text, duplicate deck names and games naming no deck.
- All rendering, the charts, the card-line count and the "last ten games" view (src/components/OnePieceJournal.jsx:203-601): presentation.
- Win rates are exact reals; the one-decimal `toFixed(1)` strings and the mix of string and number values are floating-point rendering.
- Dates are `(year, month, day)` triples; parsing of malformed date strings in the sort comparator is the JavaScript engine's behaviour. Well-formed `YYYY-MM-DD` strings are equal exactly when their triples are, so entries keep the date they were grouped by. The model assumes every game has a date: the log form's date field can be cleared and the log-game guard does not check it, and a game stored with an empty date (grouped under "" and sorted with an invalid date) is not represented.
- `Date.now()` ids and today's date are parameters of `AddGame` and `AddDeck`; their uniqueness is not assumed.
- Timeline.SortByDate: requires distinct dates; the timeline only ever sorts one entry per date, so the stability of JavaScript's sort on equal keys never matters there.
- OpponentStatistics.GetOpponentStats: uses plain first-seen order; JavaScript lists integer-like object keys (an opponent named "42") first, in ascending numeric order, and the model does not capture that.
- OpponentStatistics.GetOpponentStats: an opponent whose name is an inherited object property (such as "constructor") finds a truthy inherited value instead of creating an entry, so the source lists no row for that opponent; the model treats every name as a fresh key.
- The alerts and the form resets and visibility flags after a successful add: user-interface state. The actions report their outcome as a status instead.
- The overall win rate divides by the games whose result is not exactly "Draw", as the code does, so results other than the three known texts are in the denominator; a description of it as wins over wins plus losses holds only when every result is standard (`OverallStatistics.OverallMeaning`).

## Findings

| source | as written | input that shows it | evidently intended | confidence | as-written member | corrected member |
|---|---|---|---|---|---|---|
| src/components/OnePieceJournal.jsx:200 | the overall win rate guards only the empty log, so a log of draws only divides 0 by 0 | a log holding a single game whose result is "Draw" gives NaN | a win rate of 0 when there are no non-draw games, as the other two rates do | not executed | OverallStatistics.AsWrittenNaNExactlyOnAllDraws | OverallStatistics.OverallAgreesWithAsWritten |
