# NewPipe main activity: history coalescing and navigation decisions

This project models the logic in NewPipe's `MainActivity` and proves properties about it. NewPipe is an
Android client for video-streaming services. The activity does two things that are modelled here.

- **History recording.** When a stream is played or a search is submitted, the activity builds a history
  entry and pushes it onto an entry stream. A single consumer takes entries off that stream. It routes
  each entry to its store: search entries go to the search-history store and every other entry goes to
  the watch-history store. The consumer then compares the entry with that store's latest row. If the
  two have equal values on every field except the creation date, the latest row takes the new entry's
  date. Otherwise the entry is appended as a new row. A preference turns recording off for each kind.
- **Navigation decisions.** The model states as pure functions:
  - how an incoming intent is routed to the video, channel, playlist, search or main screen;
  - that a launcher re-launch is ignored;
  - the screen chosen at start-up;
  - what the back press and the up button do;
  - which screen orientation is requested.

Files:
- `wrappers.dfy`: `Option`, which stands in for nullable references and absent extras or preferences.
- `history.dfy` (module `History`):
  - history entries and the store write as specification functions (`Decide`, `Apply`, `Coalesce`,
    `Step`, `Replay`), with lemmas about them;
  - the class `HistoryConsumer`. It holds the two stores as sequences, with the latest row last. Its
    methods change the stores exactly as `Step` says.
- `navigation.dfy` (module `Navigation`): the intent, back, up and orientation decisions, each a
  function that returns the action chosen.

Assumptions of the model:
- The entry classes and `hasEqualValues` are not part of this model. `SameValues` stands in for
  `hasEqualValues`. It holds when both entries are of the same kind and agree on every field except the
  creation date. `SameValuesIgnoresOnlyDate` states that this is the only field ignored.
- Comparing with an absent latest row (an empty store) gives "not equal". This is assumed, since the
  body of `hasEqualValues` is not part of this model.
- A watch entry carries a service id, url, title and duration taken from the played stream. A search
  entry carries a service id and the query.
- The database is a sequence per store, and a row's identity is its position. `getLatestEntry` returns
  the last row. `update` rewrites the row with the given identity. `insert` appends.
- Entries are consumed one at a time, in submission order.
- Preferences and system settings are inputs. An absent preference takes the default the source passes:
  `true` for both history switches and `false` for "last orientation was landscape". An absent
  accelerometer-rotation setting counts as `0`, which means locked.

## Model

| member | source | states |
|---|---|---|
| History.SameValuesIgnoresOnlyDate | app/src/main/java/org/schabi/newpipe/MainActivity.java:426 | two entries have equal values exactly when one becomes the other once it takes the other's date: the creation date is the only field the comparison ignores |
| History.SameValuesSymmetric | app/src/main/java/org/schabi/newpipe/MainActivity.java:426 | if an entry has equal values to another, the other has equal values to it |
| History.LatestEntry | app/src/main/java/org/schabi/newpipe/MainActivity.java:425 | the latest entry is absent exactly when the store is empty; otherwise it is the last row, with its identity |
| History.HasEqualValues | app/src/main/java/org/schabi/newpipe/MainActivity.java:426 | comparing with an absent latest row gives "not equal"; against a present row, equal exactly when the entry differs from that row in its creation date only |
| History.Decide | app/src/main/java/org/schabi/newpipe/MainActivity.java:425-431 | the consumer issues an update exactly when the entry has equal values to a present latest row; the update carries that row's identity and the incoming date; otherwise it inserts the incoming entry unchanged |
| History.Apply | app/src/main/java/org/schabi/newpipe/MainActivity.java:428-430 | an update rewrites only the row with its identity and keeps the length; an insert appends one row; every other row is unchanged |
| History.Coalesce | app/src/main/java/org/schabi/newpipe/MainActivity.java:425-431 | the store keeps its length when the entry is coalesced and grows by one otherwise; every row before the latest is untouched; a coalesced row differs from the old latest row only in its date, which becomes the incoming date; either way the latest row is then the incoming entry |
| History.Step | app/src/main/java/org/schabi/newpipe/MainActivity.java:422-431 | search entries change only the search store and all other entries only the watch store, by `Coalesce`; the other store is unchanged |
| History.Replay | app/src/main/java/org/schabi/newpipe/MainActivity.java:404-434 | entries are consumed one at a time in submission order; after any non-empty run, the latest row of the last entry's store is that last entry |
| History.ReplayAppliesLastEntryLast | app/src/main/java/org/schabi/newpipe/MainActivity.java:404-434 | the last entry submitted is applied last: a non-empty run ends with that entry's `Step`, applied to the stores that all earlier entries left |
| History.StepKeepsRouted | app/src/main/java/org/schabi/newpipe/MainActivity.java:422-423 | if each store holds only entries of its own kind before an entry is accepted, it still does afterwards |
| History.CoalesceKeepsNoAdjacentDuplicates | app/src/main/java/org/schabi/newpipe/MainActivity.java:425-431 | if no two neighbouring rows have equal values before an entry is accepted, none do afterwards |
| History.ReplayKeepsRouted | app/src/main/java/org/schabi/newpipe/MainActivity.java:417-434 | any sequence of accepted entries keeps both stores routed by kind |
| History.ReplayKeepsDeduplicated | app/src/main/java/org/schabi/newpipe/MainActivity.java:417-434 | any sequence of accepted entries keeps neighbouring rows of both stores distinct in value |
| History.ReplayRowCount | app/src/main/java/org/schabi/newpipe/MainActivity.java:417-434 | each accepted entry adds at most one row and removes none: after n entries the total number of rows has grown by between 0 and n |
| History.DistinctEntriesAreAllInserted | app/src/main/java/org/schabi/newpipe/MainActivity.java:425-431 | entries with pairwise distinct values, none equal to the latest row of its own store, are all inserted: the row count grows by exactly their number |
| History.DistinctEntriesFromEmptyStores | app/src/main/java/org/schabi/newpipe/MainActivity.java:425-431 | N entries with pairwise distinct values, starting from empty stores, leave exactly N rows |
| History.CoalesceIntoSingleRow | app/src/main/java/org/schabi/newpipe/MainActivity.java:425-428 | an entry with equal values to a store's only row leaves that store holding just the incoming entry |
| History.RepeatedEntryKeepsOneRow | app/src/main/java/org/schabi/newpipe/MainActivity.java:425-428 | two entries with equal values, starting from empty stores, leave a single row that is the second entry (with the second date) and leave the other store empty |
| History.KindsAreNeverMerged | app/src/main/java/org/schabi/newpipe/MainActivity.java:422-423 | a watch entry then a search entry leave one row in each store |
| History.OnlyLatestRowIsCompared | app/src/main/java/org/schabi/newpipe/MainActivity.java:425-430 | an entry equal in value to an older row but not to the latest row is appended |
| History.OlderDateStillOverwrites | app/src/main/java/org/schabi/newpipe/MainActivity.java:426-428 | a coalesced entry whose date is older than the stored one still overwrites the stored date |
| History.WatchEntryOf | app/src/main/java/org/schabi/newpipe/MainActivity.java:438 | the entry for a played stream is a watch entry dated at the time of playing that keeps the stream's service id, url, name and duration (this field list is assumed, since the entry class is not part of this model) |
| History.HistoryEnabled | app/src/main/java/org/schabi/newpipe/MainActivity.java:437 | a history switch is on unless the preference is stored as false; an absent preference counts as on |
| History.HistoryConsumer.constructor | app/src/main/java/org/schabi/newpipe/MainActivity.java:400-407 | initHistory: the consumer is subscribed over the two stores as they are stored, each holding its own kind |
| History.HistoryConsumer.Accept | app/src/main/java/org/schabi/newpipe/MainActivity.java:420-432 | the new stores are `Step` of the old ones: the other store is unchanged, the routed store's length grows by one unless the entry coalesces, and both stores stay routed by kind |
| History.HistoryConsumer.Submit | app/src/main/java/org/schabi/newpipe/MainActivity.java:404-407 | an entry pushed onto the stream is accepted while the consumer is subscribed and reaches no store otherwise |
| History.HistoryConsumer.AddWatchHistoryEntry | app/src/main/java/org/schabi/newpipe/MainActivity.java:436-441 | with watch history enabled (the default), the played stream's entry is submitted; when it is disabled, neither store changes |
| History.HistoryConsumer.OnSearch | app/src/main/java/org/schabi/newpipe/MainActivity.java:454-460 | with search history enabled (the default), a search entry for the service and query is submitted; when it is disabled, neither store changes |
| History.HistoryConsumer.DisposeHistory | app/src/main/java/org/schabi/newpipe/MainActivity.java:410-414 | the consumer is unsubscribed and the stores are unchanged |
| Navigation.HandleIntent | app/src/main/java/org/schabi/newpipe/MainActivity.java:361-389 | a stream, channel or playlist link type opens the screen of exactly that kind, and any other link type (the switch has no default) opens nothing; without a link type, open-search opens search, and otherwise the main screen opens; the service id defaults to 0, auto-play to false and a missing query to ""; url, title and play queue pass through |
| Navigation.RoutingRoundTrip | app/src/main/java/org/schabi/newpipe/MainActivity.java:364-388 | every action is chosen for the intent that carries exactly its extras |
| Navigation.LinkTypeTakesPriority | app/src/main/java/org/schabi/newpipe/MainActivity.java:364-381 | an intent that has both a link type and open-search opens neither search nor the main screen; it opens the content of that link type when it is a stream, channel or playlist |
| Navigation.LaunchedFromLauncher | app/src/main/java/org/schabi/newpipe/MainActivity.java:201-202 | an intent counts as a launcher re-launch exactly when its action is MAIN and it has category LAUNCHER; an intent with no action never does |
| Navigation.OnNewIntent | app/src/main/java/org/schabi/newpipe/MainActivity.java:196-208 | an intent with action MAIN and category LAUNCHER is ignored; any other intent is routed by handleIntent; a null intent fails |
| Navigation.InitialNavigation | app/src/main/java/org/schabi/newpipe/MainActivity.java:328-334 | with an empty back stack, a start intent with a link type is routed by handleIntent and anything else opens the main screen; start-up opens no screen exactly when the link type is not a stream, channel or playlist; a restored back stack (the check in onCreate at line 101) chooses nothing |
| Navigation.StartUpIgnoresOpenSearch | app/src/main/java/org/schabi/newpipe/MainActivity.java:331-333 | at start-up an open-search intent without a link type opens the main screen, while the same intent delivered later opens search |
| Navigation.SendBackPressedEvent | app/src/main/java/org/schabi/newpipe/MainActivity.java:221-228 | the press is consumed exactly when the fragment in the holder handles back presses and its own handler answers true |
| Navigation.OnBackPressed | app/src/main/java/org/schabi/newpipe/MainActivity.java:210-228 | a back-pressable fragment that consumes the press ends it; otherwise a back stack of exactly one finishes the activity and any other size takes the default back behaviour |
| Navigation.OnHomeButtonPressed | app/src/main/java/org/schabi/newpipe/MainActivity.java:254-260 | up goes to the search screen exactly when it is on the back stack, else to the main screen |
| Navigation.GlobalScreenOrientationLocked | app/src/main/java/org/schabi/newpipe/MainActivity.java:466-470 | rotation is locked exactly when the accelerometer-rotation setting is not 1; a missing setting counts as locked |
| Navigation.SetupOrientation | app/src/main/java/org/schabi/newpipe/MainActivity.java:472-483 | the value passed to setRequestedOrientation: none without preferences; unspecified (-1) when rotation is unlocked; when locked, sensor-landscape (6) exactly when the last orientation was landscape and sensor-portrait (7) otherwise |

## Left out

- The RxJava subject and the I/O scheduler are not modelled. Entries are consumed synchronously, one at a time, in submission order.
- Errors thrown by the store (I/O failures) are not modelled. Every write succeeds.
- The database layer, its DAOs and `NewPipeDatabase` are not part of this model. Each store is an in-memory sequence. Room's primary keys become row positions.
- History.HistoryConsumer.DisposeHistory: sets a flag instead of nulling the two DAO fields. Entries arriving after disposal are dropped either way.
- The entry classes and `hasEqualValues` are not part of this model. The equality is assumed to compare every non-date field. If the real comparison ignores more fields, then after a coalesced write the latest row equals the incoming entry only on the compared fields.
- `onVideoPlayed` and `onAudioPlayed` only forward to `addWatchHistoryEntry`. They are not modelled separately; their video-stream and audio-stream arguments are ignored in the source.
- Navigation.HandleIntent: a link-type extra that is present but is null, or is not a link type at all, would throw in the source. This case is not modelled: a present link type is always a constant of the enumeration (`OtherLink` stands for every constant other than stream, channel and playlist).
- The fragment transactions in `NavigationHelper` are not part of this model. Only the chosen action is modelled.
- Drawer setup, menu inflation and item selection, toolbar visibility, broadcasts, theme and main-page recreation, `StateSaver` and the settings content observer are Android UI and lifecycle plumbing and are left out.
- Reading shared preferences and system settings is not modelled. Each value is an input: `Option<bool>` or `Option<int>`, with the source's default when absent.
- The clock (`new Date()`) is not modelled. The creation date is an input.
