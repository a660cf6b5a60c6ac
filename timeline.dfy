/** The win/loss timeline: one entry per distinct date of the log, in
    chronological order. */
module Timeline {
  import opened JournalTypes
  import opened Grouping
  import opened Tallies

  /** One point of the timeline. */
  datatype TimelineEntry = TimelineEntry(date: Date, wins: nat, losses: nat, draws: nat)

  /** The games played on `date`: an exact match on the date. */
  function GamesOn(log: seq<Game>, date: Date): seq<Game> {
    Group(log, DateOf, date)
  }

  function EntryOf(date: Date, t: Tally): TimelineEntry {
    TimelineEntry(date, t.wins, t.losses, t.draws)
  }

  /** The games an entry accounts for. */
  function Games(e: TimelineEntry): nat {
    e.wins + e.losses + e.draws
  }

  /** The games the entries account for, together. */
  function SumGames(s: seq<TimelineEntry>): nat {
    if s == [] then 0 else Games(s[0]) + SumGames(s[1..])
  }

  lemma {:induction false} SumGamesAppend(a: seq<TimelineEntry>, b: seq<TimelineEntry>)
    ensures SumGames(a + b) == SumGames(a) + SumGames(b)
  {
    if a != [] {
      assert (a + b)[0] == a[0];
      assert (a + b)[1..] == a[1..] + b;
      SumGamesAppend(a[1..], b);
    } else {
      assert a + b == b;
    }
  }

  /** The distinct dates of the log in first-seen order: the key order of the
      timeline object. */
  function LogDates(log: seq<Game>): seq<Date> {
    Dedup(Keys(log, DateOf))
  }

  /** The entries of the dates `ks`, in that order. */
  function Buckets(ks: seq<Date>, log: seq<Game>): seq<TimelineEntry> {
    seq(|ks|, i requires 0 <= i < |ks| => EntryOf(ks[i], Tallied(GamesOn(log, ks[i]))))
  }

  /** The timeline object's values before sorting: one entry per date, in
      first-seen order. */
  function FirstSeenBuckets(log: seq<Game>): seq<TimelineEntry> {
    Buckets(LogDates(log), log)
  }

  /** Strictly ascending by date. */
  predicate SortedByDate(s: seq<TimelineEntry>) {
    forall i, j :: 0 <= i < j < |s| ==> Before(s[i].date, s[j].date)
  }

  /** No date appears twice. */
  predicate DistinctDates(s: seq<TimelineEntry>) {
    forall i, j :: 0 <= i < j < |s| ==> s[i].date != s[j].date
  }

  /** `s` with `x` placed after every entry not later than it. */
  function Insert(s: seq<TimelineEntry>, x: TimelineEntry): (r: seq<TimelineEntry>)
    ensures |r| == |s| + 1
    ensures multiset(r) == multiset(s) + multiset{x}
    ensures forall e :: e in r <==> e in s || e == x
    ensures SumGames(r) == SumGames(s) + Games(x)
  {
    if s == [] then [x]
    else if Before(x.date, s[0].date) then
      assert ([x] + s)[1..] == s;
      [x] + s
    else
      var rest := Insert(s[1..], x);
      assert s == [s[0]] + s[1..];
      assert ([s[0]] + rest)[1..] == rest;
      [s[0]] + rest
  }

  /** An entry earlier than every entry of a sorted timeline can go in front. */
  lemma ConsSorted(h: TimelineEntry, rest: seq<TimelineEntry>)
    requires SortedByDate(rest)
    requires forall e :: e in rest ==> Before(h.date, e.date)
    ensures SortedByDate([h] + rest)
  {
    forall i, j | 0 <= i < j < |[h] + rest|
      ensures Before(([h] + rest)[i].date, ([h] + rest)[j].date)
    {
      assert ([h] + rest)[j] == rest[j - 1];
      if i > 0 {
        assert ([h] + rest)[i] == rest[i - 1];
      } else {
        assert rest[j - 1] in rest;
      }
    }
  }

  /** Inserting an entry with a new date into a sorted timeline keeps it sorted. */
  lemma {:induction false} InsertSorted(s: seq<TimelineEntry>, x: TimelineEntry)
    requires SortedByDate(s)
    requires forall e :: e in s ==> e.date != x.date
    ensures SortedByDate(Insert(s, x))
  {
    if s == [] {
    } else if Before(x.date, s[0].date) {
      forall e | e in s
        ensures Before(x.date, e.date)
      {
        var j :| 0 <= j < |s| && s[j] == e;
        if j > 0 {
          BeforeIsStrictTotalOrder(x.date, s[0].date, e.date);
        }
      }
      ConsSorted(x, s);
    } else {
      var rest := Insert(s[1..], x);
      assert s[0] in s;
      InsertSorted(s[1..], x);
      BeforeIsStrictTotalOrder(s[0].date, x.date, x.date);
      forall e | e in rest
        ensures Before(s[0].date, e.date)
      {
        if e != x {
          var k :| 1 <= k < |s| && s[k] == e;
        }
      }
      ConsSorted(s[0], rest);
    }
  }

  /** The stable sort of the entries by date (JavaScript's `sort` with a
      comparator that subtracts the two parsed dates). */
  method SortByDate(values: seq<TimelineEntry>) returns (sorted: seq<TimelineEntry>)
    requires DistinctDates(values)
    ensures SortedByDate(sorted)
    ensures multiset(sorted) == multiset(values)
    ensures SumGames(sorted) == SumGames(values)
  {
    sorted := [];
    for i := 0 to |values|
      invariant SortedByDate(sorted)
      invariant multiset(sorted) == multiset(values[..i])
      invariant SumGames(sorted) == SumGames(values[..i])
    {
      InsertStep(values, i, sorted);
      sorted := Insert(sorted, values[i]);
    }
    assert values[..|values|] == values;
  }

  /** One iteration of the sort: inserting the next entry keeps the sorted
      part a sorted permutation of the prefix seen, with the same games. */
  lemma InsertStep(values: seq<TimelineEntry>, i: nat, sorted: seq<TimelineEntry>)
    requires DistinctDates(values) && i < |values|
    requires SortedByDate(sorted)
    requires multiset(sorted) == multiset(values[..i])
    requires SumGames(sorted) == SumGames(values[..i])
    ensures SortedByDate(Insert(sorted, values[i]))
    ensures multiset(Insert(sorted, values[i])) == multiset(values[..i + 1])
    ensures SumGames(Insert(sorted, values[i])) == SumGames(values[..i + 1])
  {
    PrefixStep(values, i);
    NextDateIsNew(values, i, sorted);
    InsertSorted(sorted, values[i]);
  }

  /** Extending a prefix by one entry adds that entry and its games. */
  lemma PrefixStep(values: seq<TimelineEntry>, i: nat)
    requires i < |values|
    ensures multiset(values[..i + 1]) == multiset(values[..i]) + multiset{values[i]}
    ensures SumGames(values[..i + 1]) == SumGames(values[..i]) + Games(values[i])
  {
    assert values[..i + 1] == values[..i] + [values[i]];
    SumGamesAppend(values[..i], [values[i]]);
  }

  /** With distinct dates, the next entry's date is not among those already sorted. */
  lemma NextDateIsNew(values: seq<TimelineEntry>, i: nat, sorted: seq<TimelineEntry>)
    requires DistinctDates(values) && i < |values|
    requires multiset(sorted) == multiset(values[..i])
    ensures forall e :: e in sorted ==> e.date != values[i].date
  {
    forall e | e in sorted
      ensures e.date != values[i].date
    {
      assert e in multiset(values[..i]);
      var j :| 0 <= j < i && values[j] == e;
    }
  }

  /** What an entry says: its date occurs in the log, and it holds the exact
      wins and losses among that date's games, every other result counted as
      a draw. */
  predicate EntryDescribes(e: TimelineEntry, log: seq<Game>) {
    var games := GamesOn(log, e.date);
    && |games| > 0
    && e.wins == Count(games, Win)
    && e.losses == Count(games, Loss)
    && Games(e) == |games|
  }

  lemma DatesOccur(log: seq<Game>, d: Date)
    requires d in LogDates(log)
    ensures |GamesOn(log, d)| > 0
  {
    var n :| 0 <= n < |log| && Keys(log, DateOf)[n] == d;
    assert log[n] in GamesOn(log, d);
  }

  lemma BucketDescribes(log: seq<Game>, d: Date)
    requires d in LogDates(log)
    ensures EntryDescribes(EntryOf(d, Tallied(GamesOn(log, d))), log)
  {
    DatesOccur(log, d);
    TalliedCounts(GamesOn(log, d));
  }

  lemma BucketsFollowDates(log: seq<Game>)
    ensures |FirstSeenBuckets(log)| == |LogDates(log)|
    ensures forall i :: 0 <= i < |FirstSeenBuckets(log)| ==>
      FirstSeenBuckets(log)[i].date == LogDates(log)[i]
  {
  }

  /** Before sorting: one entry per distinct date of the log, each describing
      its date's games. */
  lemma FirstSeenBucketsMeaning(log: seq<Game>)
    ensures DistinctDates(FirstSeenBuckets(log))
    ensures forall i :: 0 <= i < |FirstSeenBuckets(log)| ==> EntryDescribes(FirstSeenBuckets(log)[i], log)
  {
    var ks := LogDates(log);
    var b := FirstSeenBuckets(log);
    BucketsFollowDates(log);
    forall i | 0 <= i < |b|
      ensures EntryDescribes(b[i], log)
    {
      BucketDescribes(log, ks[i]);
    }
  }

  /** Before sorting: every date of the log has an entry. */
  lemma FirstSeenBucketsCover(log: seq<Game>)
    ensures forall g :: g in log ==>
      exists i :: 0 <= i < |FirstSeenBuckets(log)| && FirstSeenBuckets(log)[i].date == g.date
  {
    var ks := LogDates(log);
    var b := FirstSeenBuckets(log);
    BucketsFollowDates(log);
    forall g | g in log
      ensures exists i :: 0 <= i < |b| && b[i].date == g.date
    {
      var n :| 0 <= n < |log| && log[n] == g;
      assert Keys(log, DateOf)[n] == g.date;
      assert g.date in ks;
      var i :| 0 <= i < |ks| && ks[i] == g.date;
    }
  }

  lemma {:induction false} SumGamesIsGroupSizes(ks: seq<Date>, log: seq<Game>)
    ensures SumGames(Buckets(ks, log)) == GroupSizes(ks, log, DateOf)
  {
    if ks != [] {
      var init := ks[..|ks| - 1];
      var last := ks[|ks| - 1];
      SumGamesIsGroupSizes(init, log);
      assert Buckets(ks, log) == Buckets(init, log) + [EntryOf(last, Tallied(GamesOn(log, last)))];
      SumGamesAppend(Buckets(init, log), [EntryOf(last, Tallied(GamesOn(log, last)))]);
      TalliedCounts(GamesOn(log, last));
    }
  }

  /** Every game is counted in exactly one entry. */
  lemma FirstSeenBucketsSum(log: seq<Game>)
    ensures SumGames(FirstSeenBuckets(log)) == |log|
  {
    SumGamesIsGroupSizes(LogDates(log), log);
    GroupSizesOfAllKeys(log, DateOf);
  }

  /** `getTimelineData`: one pass over the log fills a map from date to tally,
      creating the entry on first sight; the map's values are then sorted by date. */
  method GetTimelineData(log: seq<Game>) returns (entries: seq<TimelineEntry>)
    ensures SortedByDate(entries)
    ensures multiset(entries) == multiset(FirstSeenBuckets(log))
    ensures forall i :: 0 <= i < |entries| ==> EntryDescribes(entries[i], log)
    ensures forall g :: g in log ==> exists i :: 0 <= i < |entries| && entries[i].date == g.date
    ensures SumGames(entries) == |log|
  {
    var timeline: map<Date, Tally> := map[];
    var order: seq<Date> := [];
    for i := 0 to |log|
      invariant TallyMapHolds(timeline, order, log[..i], DateOf)
    {
      var game := log[i];
      assert log[..i + 1] == log[..i] + [game];
      TallyMapStep(timeline, order, log[..i], game, DateOf);
      ghost var before, orderBefore := timeline, order;
      if game.date !in timeline {
        timeline := timeline[game.date := Tally(0, 0, 0)];
        order := order + [game.date];
      }
      timeline := timeline[game.date := Step(timeline[game.date], game.result)];
      assert timeline == Counted(before, game.date, game.result);
      assert order == Ordered(before, orderBefore, game.date);
    }
    assert log[..|log|] == log;
    var values := seq(|order|, j requires 0 <= j < |order| => EntryOf(order[j], timeline[order[j]]));
    assert values == FirstSeenBuckets(log);
    FirstSeenBucketsMeaning(log);
    FirstSeenBucketsSum(log);
    entries := SortByDate(values);
    PermutedBucketsDescribe(log, entries);
    PermutedBucketsCover(log, entries);
  }

  /** Whatever order the entries are put in, each still describes its date. */
  lemma PermutedBucketsDescribe(log: seq<Game>, entries: seq<TimelineEntry>)
    requires multiset(entries) == multiset(FirstSeenBuckets(log))
    ensures forall i :: 0 <= i < |entries| ==> EntryDescribes(entries[i], log)
  {
    var values := FirstSeenBuckets(log);
    FirstSeenBucketsMeaning(log);
    forall i | 0 <= i < |entries|
      ensures EntryDescribes(entries[i], log)
    {
      assert entries[i] in multiset(values);
      var p :| 0 <= p < |values| && values[p] == entries[i];
    }
  }

  /** Whatever order the entries are put in, every date of the log keeps an entry. */
  lemma PermutedBucketsCover(log: seq<Game>, entries: seq<TimelineEntry>)
    requires multiset(entries) == multiset(FirstSeenBuckets(log))
    ensures forall g :: g in log ==> exists i :: 0 <= i < |entries| && entries[i].date == g.date
  {
    var values := FirstSeenBuckets(log);
    FirstSeenBucketsCover(log);
    forall g | g in log
      ensures exists i :: 0 <= i < |entries| && entries[i].date == g.date
    {
      var p :| 0 <= p < |values| && values[p].date == g.date;
      assert values[p] in multiset(entries);
      var i :| 0 <= i < |entries| && entries[i] == values[p];
    }
  }

  /** Sorting by date leaves no choice: two sorted timelines with the same
      entries are the same timeline. */
  lemma {:induction false} SortedUnique(a: seq<TimelineEntry>, b: seq<TimelineEntry>)
    requires SortedByDate(a) && SortedByDate(b)
    requires multiset(a) == multiset(b)
    ensures a == b
  {
    if a != [] {
      SameHead(a, b);
      TailMultiset(a);
      TailMultiset(b);
      SortedUnique(a[1..], b[1..]);
    } else {
      assert |multiset(b)| == 0;
    }
  }

  /** Two date-sorted permutations of the same entries start with the same entry. */
  lemma SameHead(a: seq<TimelineEntry>, b: seq<TimelineEntry>)
    requires SortedByDate(a) && SortedByDate(b)
    requires multiset(a) == multiset(b) && a != []
    ensures b != [] && a[0] == b[0]
  {
    assert a[0] in multiset(b);
    assert b[0] in multiset(a);
    if a[0] != b[0] {
      var k :| 0 < k < |b| && b[k] == a[0];
      var m :| 0 < m < |a| && a[m] == b[0];
      BeforeIsStrictTotalOrder(a[0].date, b[0].date, a[0].date);
      assert false;
    }
  }

  /** Dropping the head of a sequence drops one copy of it from its multiset. */
  lemma TailMultiset(a: seq<TimelineEntry>)
    requires a != []
    ensures multiset(a[1..]) == multiset(a) - multiset{a[0]}
  {
    assert a == [a[0]] + a[1..];
  }
}
