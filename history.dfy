/**
 * The history recorder of the main activity. Every history entry the player
 * (a watched stream) or the search box (a submitted query) produces is routed
 * to the store of its kind; if it has the same values as that store's latest
 * row, only that row's creation date is refreshed, otherwise the entry is
 * appended as a new row.
 *
 * A store is an ordered sequence of rows; its latest row is the last one, and a
 * row's identity is its position.
 */
module History {
  import opened Wrappers

  /** A creation date, in milliseconds since the epoch. */
  type Timestamp = int

  /** The metadata of a played stream that a watch-history entry is built from. */
  datatype StreamInfo = StreamInfo(serviceId: int, url: string, name: string, duration: int)

  /** A history entry; both kinds carry their creation date. */
  datatype Entry =
    | Watch(date: Timestamp, serviceId: int, url: string, title: string, duration: int)
    | Search(date: Timestamp, serviceId: int, query: string)

  /** The watch-history entry for a stream played at `now`. */
  function WatchEntryOf(now: Timestamp, info: StreamInfo): (e: Entry)
    ensures e.Watch? && e.date == now
    ensures StreamInfo(e.serviceId, e.url, e.title, e.duration) == info
  {
    Watch(now, info.serviceId, info.url, info.name, info.duration)
  }

  /**
   * hasEqualValues between two present entries: the same kind and equal on
   * every field except the creation date.
   */
  predicate SameValues(a: Entry, b: Entry) {
    match a
    case Watch(_, serviceId, url, title, duration) =>
      b.Watch? && b.serviceId == serviceId && b.url == url && b.title == title && b.duration == duration
    case Search(_, serviceId, query) =>
      b.Search? && b.serviceId == serviceId && b.query == query
  }

  /** The creation date is the one and only field the comparison ignores. */
  lemma SameValuesIgnoresOnlyDate(a: Entry, b: Entry)
    ensures SameValues(a, b) <==> a.(date := b.date) == b
  {
  }

  /** A stored row: its identity in the store and the entry it holds. */
  datatype Row = Row(index: nat, entry: Entry)

  /** getLatestEntry: the most recently inserted row, absent when the store is empty. */
  function LatestEntry(rows: seq<Entry>): (latest: Option<Row>)
    ensures latest.None? <==> rows == []
    ensures latest.Some? ==> latest.value.index == |rows| - 1 && latest.value.entry == rows[|rows| - 1]
  {
    if rows == [] then None else Some(Row(|rows| - 1, rows[|rows| - 1]))
  }

  /**
   * hasEqualValues against a possibly absent row: an absent row never compares
   * equal, and a present one exactly when it differs from `e` in its date only.
   */
  function HasEqualValues(e: Entry, other: Option<Row>): (equal: bool)
    ensures other.None? ==> !equal
    ensures other.Some? ==> (equal <==> e.(date := other.value.entry.date) == other.value.entry)
  {
    match other
    case None => false
    case Some(row) =>
      SameValuesIgnoresOnlyDate(e, row.entry);
      SameValues(e, row.entry)
  }

  /** Accepting `e` refreshes the latest row of `rows` instead of appending. */
  predicate Coalesces(rows: seq<Entry>, e: Entry) {
    HasEqualValues(e, LatestEntry(rows))
  }

  /** The one write the consumer issues to a store. */
  datatype Mutation = Update(row: Row) | Insert(entry: Entry)

  /**
   * The write chosen for `e`: an update of the latest row carrying `e`'s date
   * when it has equal values, an insert of `e` otherwise.
   */
  function Decide(rows: seq<Entry>, e: Entry): (m: Mutation)
    ensures m.Update? <==> Coalesces(rows, e)
    ensures m.Update? ==> m.row.index == |rows| - 1 && m.row.entry == rows[|rows| - 1].(date := e.date)
    ensures m.Insert? ==> m.entry == e
  {
    var latest := LatestEntry(rows);
    if HasEqualValues(e, latest) then
      Update(latest.value.(entry := latest.value.entry.(date := e.date)))
    else
      Insert(e)
  }

  /** What a store does with a write: an update rewrites the row with its identity, an insert appends. */
  function Apply(rows: seq<Entry>, m: Mutation): (r: seq<Entry>)
    requires m.Update? ==> m.row.index < |rows|
    ensures |r| == if m.Insert? then |rows| + 1 else |rows|
    ensures m.Update? ==> r[m.row.index] == m.row.entry
    ensures m.Insert? ==> r[|rows|] == m.entry
    ensures forall i :: 0 <= i < |rows| && !(m.Update? && i == m.row.index) ==> r[i] == rows[i]
  {
    match m
    case Update(row) => rows[row.index := row.entry]
    case Insert(entry) => rows + [entry]
  }

  /**
   * The store after accepting `e`: one row longer, or as long when `e` is
   * coalesced into the latest row; every earlier row is untouched; the
   * coalesced row differs from the old latest row in its date only; and either
   * way the latest row is then `e` itself.
   */
  function Coalesce(rows: seq<Entry>, e: Entry): (r: seq<Entry>)
    ensures |r| == if Coalesces(rows, e) then |rows| else |rows| + 1
    ensures r[..|r| - 1] == rows[..|r| - 1]
    ensures Coalesces(rows, e) ==> r[|r| - 1] == rows[|rows| - 1].(date := e.date)
    ensures r[|r| - 1] == e
  {
    var r := Apply(rows, Decide(rows, e));
    if Coalesces(rows, e) then
      SameValuesIgnoresOnlyDate(e, rows[|rows| - 1]);
      SameValuesIgnoresOnlyDate(rows[|rows| - 1], e);
      r
    else
      r
  }

  /** The two stores: watch history and search history. */
  datatype Stores = Stores(watch: seq<Entry>, search: seq<Entry>)

  const NoHistory := Stores([], [])

  /** The store an entry is routed to: search entries to search history, all others to watch history. */
  function StoreFor(st: Stores, e: Entry): seq<Entry> {
    if e.Search? then st.search else st.watch
  }

  /** The store an entry is not routed to. */
  function OtherStore(st: Stores, e: Entry): seq<Entry> {
    if e.Search? then st.watch else st.search
  }

  /** Total number of rows in both stores. */
  function RowCount(st: Stores): nat {
    |st.watch| + |st.search|
  }

  /** The consumer's step: only the store of `e`'s kind changes, and it changes by Coalesce. */
  function Step(st: Stores, e: Entry): (r: Stores)
    ensures StoreFor(r, e) == Coalesce(StoreFor(st, e), e)
    ensures OtherStore(r, e) == OtherStore(st, e)
  {
    if e.Search? then st.(search := Coalesce(st.search, e)) else st.(watch := Coalesce(st.watch, e))
  }

  /** The latest row of `rows` exists and is `e`. */
  predicate EndsWith(rows: seq<Entry>, e: Entry) {
    rows != [] && rows[|rows| - 1] == e
  }

  /**
   * Entries processed one at a time, in submission order; after a non-empty
   * run, the latest row of the last entry's store is that entry.
   */
  function Replay(st: Stores, events: seq<Entry>): (r: Stores)
    ensures events != [] ==> EndsWith(StoreFor(r, events[|events| - 1]), events[|events| - 1])
    decreases |events|
  {
    if events == [] then st
    else
      var next := Step(st, events[0]);
      var r := Replay(next, events[1..]);
      if |events| == 1 then
        assert events[1..] == [] && r == next;
        assert EndsWith(StoreFor(next, events[0]), events[0]);
        r
      else
        assert events[1..][|events| - 2] == events[|events| - 1];
        r
  }

  /** The first entry of a run is applied first. */
  lemma ReplayFirst(st: Stores, events: seq<Entry>)
    requires events != []
    ensures Replay(st, events) == Replay(Step(st, events[0]), events[1..])
  {
  }

  /** A run of one entry is one step. */
  lemma ReplaySingle(st: Stores, e: Entry)
    ensures Replay(st, [e]) == Step(st, e)
  {
    assert [e][1..] == [];
  }

  /** Dropping the first and the last element commute. */
  lemma DropFirstOfDropLast(s: seq<Entry>)
    requires |s| >= 2
    ensures s[1..][..|s| - 2] == s[..|s| - 1][1..]
    ensures s[1..][|s| - 2] == s[|s| - 1]
    ensures s[..|s| - 1][0] == s[0]
  {
  }

  /**
   * The inductive step of `ReplayAppliesLastEntryLast`: if the run after the
   * first entry ends with its last entry's step, so does the whole run.
   */
  lemma LastStepAfterFirst(st: Stores, events: seq<Entry>, mid: Stores)
    requires |events| >= 2
    requires mid == Replay(Step(st, events[0]), events[1..][..|events[1..]| - 1])
    requires Replay(Step(st, events[0]), events[1..]) == Step(mid, events[1..][|events[1..]| - 1])
    ensures Replay(st, events) == Step(Replay(st, events[..|events| - 1]), events[|events| - 1])
  {
    var front := events[..|events| - 1];
    ReplayFirst(st, events);
    DropFirstOfDropLast(events);
    ReplayFirst(st, front);
  }

  /** The last entry submitted is the last applied, to the stores all earlier entries left. */
  lemma {:induction false} ReplayAppliesLastEntryLast(st: Stores, events: seq<Entry>)
    requires events != []
    ensures Replay(st, events) == Step(Replay(st, events[..|events| - 1]), events[|events| - 1])
    decreases |events|
  {
    if |events| == 1 {
      ReplaySingle(st, events[0]);
      assert events == [events[0]] && events[..0] == [];
    } else {
      var st', rest := Step(st, events[0]), events[1..];
      ReplayAppliesLastEntryLast(st', rest);
      LastStepAfterFirst(st, events, Replay(st', rest[..|rest| - 1]));
    }
  }

  /** Each store holds entries of its own kind only. */
  ghost predicate Routed(st: Stores) {
    (forall i :: 0 <= i < |st.watch| ==> st.watch[i].Watch?) &&
    (forall i :: 0 <= i < |st.search| ==> st.search[i].Search?)
  }

  /** No two neighbouring rows have equal values. */
  ghost predicate NoAdjacentDuplicates(rows: seq<Entry>) {
    forall i :: 0 < i < |rows| ==> !SameValues(rows[i - 1], rows[i])
  }

  ghost predicate Deduplicated(st: Stores) {
    NoAdjacentDuplicates(st.watch) && NoAdjacentDuplicates(st.search)
  }

  /** Accepting an entry keeps every row in the store of its own kind. */
  lemma StepKeepsRouted(st: Stores, e: Entry)
    requires Routed(st)
    ensures Routed(Step(st, e))
  {
    var rows := StoreFor(st, e);
    var r := Coalesce(rows, e);
    forall i | 0 <= i < |r|
      ensures r[i].Search? == e.Search?
    {
      if i < |r| - 1 {
        assert r[i] == r[..|r| - 1][i];
      }
    }
  }

  /** Coalescing never leaves two neighbouring rows with equal values behind. */
  lemma CoalesceKeepsNoAdjacentDuplicates(rows: seq<Entry>, e: Entry)
    requires NoAdjacentDuplicates(rows)
    ensures NoAdjacentDuplicates(Coalesce(rows, e))
  {
    var r := Coalesce(rows, e);
    forall i | 0 < i < |r|
      ensures !SameValues(r[i - 1], r[i])
    {
      assert r[i - 1] == r[..|r| - 1][i - 1] == rows[i - 1];
      if i < |r| - 1 {
        assert r[i] == r[..|r| - 1][i] == rows[i];
      } else if Coalesces(rows, e) {
        assert !SameValues(rows[i - 1], rows[i]);
      } else {
        assert !SameValues(e, rows[i - 1]);
        SameValuesIgnoresOnlyDate(e, rows[i - 1]);
        SameValuesIgnoresOnlyDate(rows[i - 1], e);
      }
    }
  }

  /** Processing any entries keeps both stores routed by kind. */
  lemma {:induction false} ReplayKeepsRouted(st: Stores, events: seq<Entry>)
    requires Routed(st)
    ensures Routed(Replay(st, events))
    decreases |events|
  {
    if events != [] {
      StepKeepsRouted(st, events[0]);
      ReplayKeepsRouted(Step(st, events[0]), events[1..]);
    }
  }

  /** Processing any entries keeps neighbouring rows distinct in both stores. */
  lemma {:induction false} ReplayKeepsDeduplicated(st: Stores, events: seq<Entry>)
    requires Deduplicated(st)
    ensures Deduplicated(Replay(st, events))
    decreases |events|
  {
    if events != [] {
      var e := events[0];
      CoalesceKeepsNoAdjacentDuplicates(StoreFor(st, e), e);
      ReplayKeepsDeduplicated(Step(st, e), events[1..]);
    }
  }

  /** Each entry adds at most one row and removes none. */
  lemma {:induction false} ReplayRowCount(st: Stores, events: seq<Entry>)
    ensures RowCount(st) <= RowCount(Replay(st, events)) <= RowCount(st) + |events|
    decreases |events|
  {
    if events != [] {
      ReplayRowCount(Step(st, events[0]), events[1..]);
    }
  }

  /**
   * Entries whose values are pairwise distinct, none equal to the latest row of
   * its store, are all inserted: none is merged.
   */
  lemma {:induction false} DistinctEntriesAreAllInserted(st: Stores, events: seq<Entry>)
    requires forall i, j :: 0 <= i < |events| && 0 <= j < |events| && i != j ==> !SameValues(events[i], events[j])
    requires forall i :: 0 <= i < |events| ==> !Coalesces(StoreFor(st, events[i]), events[i])
    ensures RowCount(Replay(st, events)) == RowCount(st) + |events|
    decreases |events|
  {
    if events != [] {
      var e := events[0];
      var st' := Step(st, e);
      var rest := events[1..];
      forall i | 0 <= i < |rest|
        ensures !Coalesces(StoreFor(st', rest[i]), rest[i])
      {
        assert rest[i] == events[i + 1];
        if rest[i].Search? == e.Search? {
          assert StoreFor(st', rest[i]) == StoreFor(st', e);
          assert !SameValues(rest[i], e);
        } else {
          assert StoreFor(st', rest[i]) == OtherStore(st', e) == OtherStore(st, e) == StoreFor(st, rest[i]);
        }
      }
      forall i, j | 0 <= i < |rest| && 0 <= j < |rest| && i != j
        ensures !SameValues(rest[i], rest[j])
      {
        assert rest[i] == events[i + 1] && rest[j] == events[j + 1];
      }
      DistinctEntriesAreAllInserted(st', rest);
    }
  }

  /** N entries with pairwise distinct values, starting from empty stores, leave N rows. */
  lemma DistinctEntriesFromEmptyStores(events: seq<Entry>)
    requires forall i, j :: 0 <= i < |events| && 0 <= j < |events| && i != j ==> !SameValues(events[i], events[j])
    ensures RowCount(Replay(NoHistory, events)) == |events|
  {
    DistinctEntriesAreAllInserted(NoHistory, events);
  }

  /** Two entries are processed one after the other. */
  lemma ReplayTwo(st: Stores, first: Entry, second: Entry)
    ensures Replay(st, [first, second]) == Step(Step(st, first), second)
  {
    assert [first, second][1..] == [second];
    assert Replay(st, [first, second]) == Replay(Step(st, first), [second]);
    assert [second][1..] == [];
    assert Replay(Step(st, first), [second]) == Replay(Step(Step(st, first), second), []);
  }

  /** The comparison is symmetric. */
  lemma SameValuesSymmetric(a: Entry, b: Entry)
    requires SameValues(a, b)
    ensures SameValues(b, a)
  {
  }

  /** An entry with equal values to a store's only row replaces it. */
  lemma CoalesceIntoSingleRow(row: Entry, e: Entry)
    requires SameValues(e, row)
    ensures Coalesce([row], e) == [e]
  {
    assert LatestEntry([row]) == Some(Row(0, row));
    var r := Coalesce([row], e);
    assert |r| == 1 && r[0] == e;
  }

  /** The same stream watched (or query searched) twice in a row leaves one row, carrying the second date. */
  lemma RepeatedEntryKeepsOneRow(first: Entry, second: Entry)
    requires SameValues(first, second)
    ensures StoreFor(Replay(NoHistory, [first, second]), second) == [second]
    ensures OtherStore(Replay(NoHistory, [first, second]), second) == []
  {
    ReplayTwo(NoHistory, first, second);
    var st1 := Step(NoHistory, first);
    assert first.Search? == second.Search?;
    assert StoreFor(st1, second) == [first] && OtherStore(st1, second) == [];
    SameValuesSymmetric(first, second);
    CoalesceIntoSingleRow(first, second);
  }

  /** A watch entry and a search entry land in different stores and are never merged. */
  lemma KindsAreNeverMerged(watched: Entry, searched: Entry)
    requires watched.Watch? && searched.Search?
    ensures Replay(NoHistory, [watched, searched]) == Stores([watched], [searched])
  {
    ReplayTwo(NoHistory, watched, searched);
  }

  /** Only the latest row is compared: an entry equal to an older row only is appended. */
  lemma OnlyLatestRowIsCompared(rows: seq<Entry>, e: Entry, older: nat)
    requires older < |rows| - 1 && SameValues(e, rows[older])
    requires !SameValues(e, rows[|rows| - 1])
    ensures Coalesce(rows, e) == rows + [e]
  {
    var r := Coalesce(rows, e);
    assert r[..|rows|] == rows;
    assert r == r[..|rows|] + [r[|rows|]];
  }

  /** The latest row takes the incoming date even when that date is older than the one stored. */
  lemma OlderDateStillOverwrites(rows: seq<Entry>, e: Entry)
    requires rows != [] && SameValues(e, rows[|rows| - 1])
    requires e.date < rows[|rows| - 1].date
    ensures |Coalesce(rows, e)| == |rows|
    ensures Coalesce(rows, e)[|rows| - 1].date == e.date < rows[|rows| - 1].date
  {
  }

  /** A history preference that is not stored counts as enabled. */
  function HistoryEnabled(preference: Option<bool>): (enabled: bool)
    ensures enabled <==> preference != Some(false)
  {
    preference.GetOr(true)
  }

  /**
   * The history part of the main activity: the two stores the history
   * consumer writes to and whether the consumer is still subscribed to the
   * stream of submitted entries.
   */
  class HistoryConsumer {
    var watchHistory: seq<Entry>
    var searchHistory: seq<Entry>
    var subscribed: bool

    function State(): Stores
      reads this
    {
      Stores(watchHistory, searchHistory)
    }

    /** Each store is a table of its own kind of entry. */
    ghost predicate Valid()
      reads this
    {
      Routed(State())
    }

    /** initHistory: subscribe the consumer to the stores as they are stored. */
    constructor (watch: seq<Entry>, search: seq<Entry>)
      requires Routed(Stores(watch, search))
      ensures Valid() && subscribed
      ensures State() == Stores(watch, search)
    {
      watchHistory := watch;
      searchHistory := search;
      subscribed := true;
    }

    /**
     * The consumer: route `e` to its store, compare it with the latest row and
     * either refresh that row's date (update) or append `e` (insert).
     */
    method Accept(e: Entry)
      requires Valid()
      modifies this
      ensures Valid() && subscribed == old(subscribed)
      ensures State() == Step(old(State()), e)
      ensures e.Search? ==> watchHistory == old(watchHistory)
      ensures !e.Search? ==> searchHistory == old(searchHistory)
      ensures |StoreFor(State(), e)| == |StoreFor(old(State()), e)| + if Coalesces(StoreFor(old(State()), e), e) then 0 else 1
    {
      var rows := if e.Search? then searchHistory else watchHistory;
      var latest := LatestEntry(rows);
      var written: seq<Entry>;
      if HasEqualValues(e, latest) {
        var row := latest.value;
        row := row.(entry := row.entry.(date := e.date));
        written := rows[row.index := row.entry];
      } else {
        written := rows + [e];
      }
      if e.Search? {
        searchHistory := written;
      } else {
        watchHistory := written;
      }
      StepKeepsRouted(old(State()), e);
    }

    /** onNext on the entry stream: a subscribed consumer accepts the entry, otherwise it is dropped. */
    method Submit(e: Entry)
      requires Valid()
      modifies this
      ensures Valid() && subscribed == old(subscribed)
      ensures State() == if old(subscribed) then Step(old(State()), e) else old(State())
    {
      if subscribed {
        Accept(e);
      }
    }

    /** addWatchHistoryEntry: submit the played stream, unless watch history is disabled. */
    method AddWatchHistoryEntry(watchHistoryPreference: Option<bool>, info: StreamInfo, now: Timestamp)
      requires Valid()
      modifies this
      ensures Valid() && subscribed == old(subscribed)
      ensures State() == if HistoryEnabled(watchHistoryPreference) && old(subscribed)
        then Step(old(State()), WatchEntryOf(now, info)) else old(State())
    {
      if HistoryEnabled(watchHistoryPreference) {
        Submit(WatchEntryOf(now, info));
      }
    }

    /** onSearch: submit the query, unless search history is disabled. */
    method OnSearch(searchHistoryPreference: Option<bool>, serviceId: int, query: string, now: Timestamp)
      requires Valid()
      modifies this
      ensures Valid() && subscribed == old(subscribed)
      ensures State() == if HistoryEnabled(searchHistoryPreference) && old(subscribed)
        then Step(old(State()), Search(now, serviceId, query)) else old(State())
    {
      if HistoryEnabled(searchHistoryPreference) {
        Submit(Search(now, serviceId, query));
      }
    }

    /** disposeHistory: unsubscribe; later entries reach no store. */
    method DisposeHistory()
      modifies this
      ensures !subscribed && State() == old(State())
    {
      subscribed := false;
    }
  }
}
