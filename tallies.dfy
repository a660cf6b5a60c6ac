/** Counting results and turning counts into win rates. */
module Tallies {
  import opened JournalTypes
  import opened Grouping

  /** The number of games whose result is exactly `r`
      (`games.filter(g => g.result === r).length`). */
  function Count(games: seq<Game>, r: GameResult): (n: nat)
    ensures n <= |games|
  {
    |Group(games, ResultOf, r)|
  }

  lemma CountSnoc(games: seq<Game>, g: Game, r: GameResult)
    ensures Count(games + [g], r) == Count(games, r) + (if g.result == r then 1 else 0)
  {
    GroupSnoc(games, g, ResultOf, r);
  }

  /** Every game is a win, a loss or a draw. */
  predicate AllStandard(games: seq<Game>) {
    forall g :: g in games ==> g.result == Win || g.result == Loss || g.result == Draw
  }

  /** Exact wins, losses and draws never exceed the games counted, and account
      for all of them when no game carries some other result. */
  lemma {:induction false} CountsBounded(games: seq<Game>)
    ensures Count(games, Win) + Count(games, Loss) + Count(games, Draw) <= |games|
    ensures AllStandard(games) ==>
      Count(games, Win) + Count(games, Loss) + Count(games, Draw) == |games|
  {
    if games != [] {
      var init := games[..|games| - 1];
      var g := games[|games| - 1];
      assert games == init + [g];
      CountsBounded(init);
      CountSnoc(init, g, Win);
      CountSnoc(init, g, Loss);
      CountSnoc(init, g, Draw);
    }
  }

  /** Wins, losses and draws as the aggregation loops keep them. */
  datatype Tally = Tally(wins: nat, losses: nat, draws: nat)

  /** One game's effect on a tally: a win or a loss is counted as such, and
      every other result, whatever its text, as a draw. */
  function Step(t: Tally, r: GameResult): (t': Tally)
    ensures t'.wins == t.wins + (if r == Win then 1 else 0)
    ensures t'.losses == t.losses + (if r == Loss then 1 else 0)
    ensures t'.draws == t.draws + (if r != Win && r != Loss then 1 else 0)
    ensures t'.wins + t'.losses + t'.draws == t.wins + t.losses + t.draws + 1
  {
    if r == Win then t.(wins := t.wins + 1)
    else if r == Loss then t.(losses := t.losses + 1)
    else t.(draws := t.draws + 1)
  }

  /** The tally the loops reach after seeing `games` in order, starting from zero. */
  function Tallied(games: seq<Game>): Tally {
    if games == [] then Tally(0, 0, 0)
    else Step(Tallied(games[..|games| - 1]), games[|games| - 1].result)
  }

  lemma TalliedSnoc(games: seq<Game>, g: Game)
    ensures Tallied(games + [g]) == Step(Tallied(games), g.result)
  {
    assert (games + [g])[..|games|] == games;
  }

  /** The loop tally agrees with exact counting: wins and losses are the exact
      counts, the draws are everything else, and the three sum to the games seen. */
  lemma {:induction false} TalliedCounts(games: seq<Game>)
    ensures Tallied(games).wins == Count(games, Win)
    ensures Tallied(games).losses == Count(games, Loss)
    ensures Tallied(games).wins + Tallied(games).losses + Tallied(games).draws == |games|
    ensures AllStandard(games) ==> Tallied(games).draws == Count(games, Draw)
  {
    if games != [] {
      var init := games[..|games| - 1];
      var g := games[|games| - 1];
      assert games == init + [g];
      TalliedCounts(init);
      TalliedSnoc(init, g);
      CountSnoc(init, g, Win);
      CountSnoc(init, g, Loss);
      CountSnoc(init, g, Draw);
    }
  }

  /** `part` as a percentage of `whole`, exactly; 0 when `whole` is 0
      (the `whole > 0 ? part / whole * 100 : 0` of the win rates). */
  function Percent(part: nat, whole: nat): (r: real)
    ensures whole == 0 ==> r == 0.0
    ensures whole > 0 ==> r * (whole as real) == (part as real) * 100.0
  {
    if whole > 0 then (part as real) / (whole as real) * 100.0 else 0.0
  }

  /** A percentage of a part no larger than its whole lies in [0, 100], and is
      100 only when the part is the whole. */
  lemma PercentBounds(part: nat, whole: nat)
    requires part <= whole
    ensures 0.0 <= Percent(part, whole) <= 100.0
    ensures Percent(part, whole) == 100.0 <==> whole > 0 && part == whole
  {
    var r := Percent(part, whole);
    if whole > 0 {
      var w := whole as real;
      assert r * w == (part as real) * 100.0;
      assert 0.0 <= r <= 100.0;
      assert r == 100.0 ==> part == whole by {
        if r == 100.0 { assert 100.0 * w == (part as real) * 100.0; }
      }
    }
  }

  /** A tally map and its key order (the insertion order of the object's keys)
      hold, for every key met so far, the tally of the games `seen` with that key. */
  ghost predicate TallyMapHolds<K(!new)>(
    m: map<K, Tally>, order: seq<K>, seen: seq<Game>, key: Game -> K)
  {
    && order == Dedup(Keys(seen, key))
    && (forall k :: k in m <==> k in order)
    && (forall k :: k in m ==> m[k] == Tallied(Group(seen, key, k)))
  }

  /** The map after one game with key `k` and result `r`: the entry for `k`
      is created at zero if missing, then stepped by `r`. */
  function Counted<K(!new)>(m: map<K, Tally>, k: K, r: GameResult): (m': map<K, Tally>)
    ensures forall j :: j in m' <==> j in m || j == k
    ensures m'[k] == Step(if k in m then m[k] else Tally(0, 0, 0), r)
    ensures forall j :: j in m && j != k ==> m'[j] == m[j]
  {
    var e := if k in m then m else m[k := Tally(0, 0, 0)];
    e[k := Step(e[k], r)]
  }

  /** The key order after one game with key `k`: the key is appended on first sight. */
  function Ordered<K(!new)>(m: map<K, Tally>, order: seq<K>, k: K): seq<K> {
    if k in m then order else order + [k]
  }

  lemma KeyOrderStep<K(!new)>(seen: seq<Game>, game: Game, key: Game -> K)
    ensures Dedup(Keys(seen + [game], key)) ==
      if key(game) in Dedup(Keys(seen, key)) then Dedup(Keys(seen, key))
      else Dedup(Keys(seen, key)) + [key(game)]
  {
    KeysSnoc(seen, game, key);
    DedupSnoc(Keys(seen, key), key(game));
  }

  lemma GroupTallyStep<K(!new)>(seen: seq<Game>, game: Game, key: Game -> K, k: K)
    ensures Tallied(Group(seen + [game], key, k)) ==
      if key(game) == k then Step(Tallied(Group(seen, key, k)), game.result)
      else Tallied(Group(seen, key, k))
  {
    GroupSnoc(seen, game, key, k);
    TalliedSnoc(Group(seen, key, k), game);
  }

  lemma FirstTally<K(!new)>(seen: seq<Game>, key: Game -> K, k: K)
    requires k !in Dedup(Keys(seen, key))
    ensures Tallied(Group(seen, key, k)) == Tally(0, 0, 0)
  {
    GroupAbsent(seen, key, k);
  }

  /** After one game the key order is still the first-seen order of the keys,
      and still lists exactly the map's keys. */
  lemma TallyMapStepKeys<K(!new)>(m: map<K, Tally>, order: seq<K>, seen: seq<Game>, game: Game, key: Game -> K)
    requires TallyMapHolds(m, order, seen, key)
    ensures Ordered(m, order, key(game)) == Dedup(Keys(seen + [game], key))
    ensures forall j :: j in Counted(m, key(game), game.result) <==> j in Ordered(m, order, key(game))
  {
    KeyOrderStep(seen, game, key);
  }

  /** After one game every entry is the tally of its key's games. */
  lemma TallyMapStepValues<K(!new)>(m: map<K, Tally>, order: seq<K>, seen: seq<Game>, game: Game, key: Game -> K)
    requires TallyMapHolds(m, order, seen, key)
    ensures forall j :: j in Counted(m, key(game), game.result) ==>
      Counted(m, key(game), game.result)[j] == Tallied(Group(seen + [game], key, j))
  {
    var k0 := key(game);
    var m' := Counted(m, k0, game.result);
    if k0 !in m {
      FirstTally(seen, key, k0);
    }
    forall j | j in m'
      ensures m'[j] == Tallied(Group(seen + [game], key, j))
    {
      GroupTallyStep(seen, game, key, j);
    }
  }

  /** One iteration of a tallying loop: the entry for the game's key is
      created at zero on first sight (its key appended to the order), then
      stepped by the game's result. */
  lemma TallyMapStep<K(!new)>(m: map<K, Tally>, order: seq<K>, seen: seq<Game>, game: Game, key: Game -> K)
    requires TallyMapHolds(m, order, seen, key)
    ensures TallyMapHolds(Counted(m, key(game), game.result), Ordered(m, order, key(game)), seen + [game], key)
  {
    TallyMapStepKeys(m, order, seen, game, key);
    TallyMapStepValues(m, order, seen, game, key);
  }
}
