# Wearable state sync, modelled in Dafny

cordova-plugin-wearable connects a Cordova phone app to a paired watch. Its core is a small
replicated key-value state. Each replica keeps one entry per JSON-Pointer-like path. An entry
holds a value or a tombstone plus a version `(ts, r)`: a millisecond timestamp and a replica
id. The two replicas merge by last writer wins, comparing `ts` first and then `r`.

The phone side exists twice:

- On Android (Kotlin), entries travel as Wear OS Data Layer items under
  `<plugin path>/state/op/<opId>`, `/state/snapshot`, `/state/ack` and `/state/request/...`.
- On iOS (Swift), they travel as WatchConnectivity application-context keys and messages.

On both platforms:

- every local write is applied, published to the app and sent to the peer as an operation;
- a received operation or snapshot is merged entry by entry;
- a peer's acknowledgements are recorded and let tombstones be garbage-collected.

Only Android acknowledges what it receives: each merged entry is queued, and the queue is
batched and flushed to the peer. iOS has the same queue and flush, but `recordAckForEntry`
(src/ios/StateSync.swift:282-285), the only way into it, has no caller in src/ios.

Around this sit a bounded retry helper, two Android event bridges that queue events until a
JavaScript listener registers, and the JavaScript facade that validates keys and pointers
before calling native code.

The project has one Dafny module per source file, plus two shared modules.

| file | module | models |
|---|---|---|
| json.dfy | Json | JSON values (`JNull`, `JBool`, integer `JNum`, `JStr`, `JArr`, `JObj`), the shared `Option`/`Result`, field access |
| text.dfy | Text | string helpers both platforms use: slash stripping, splitting, code-point order, Swift's `Int(String)` |
| android_models.dfy | AndroidModels | src/android/StateModels.kt and the keys of src/android/StateSyncSpec.kt |
| android_store.dfy | AndroidStore | src/android/StateStore.kt, with the `JsonPointer` helper |
| android_retry.dfy | AndroidRetry | src/android/RetryHelper.kt |
| android_sync.dfy | AndroidSync | src/android/StateSync.kt |
| plugin_event_bridge.dfy | PluginEventBridge | src/android/PluginEventBridge.kt |
| listener_bridge.dfy | ListenerBridge | src/android/ListenerBridge.kt |
| event_queue.dfy | EventQueue | the bounded queue and delivery log the two bridges share |
| ios_models.dfy | IosModels | src/ios/StateModels.swift |
| ios_store.dfy | IosStore | src/ios/StateStore.swift, except `mergeValues` |
| ios_merge.dfy | IosMerge | `mergeValues` of src/ios/StateStore.swift |
| ios_retry.dfy | IosRetry | src/ios/RetryHelper.swift |
| ios_sync.dfy | IosSync | src/ios/StateSync.swift |
| wearable_js.dfy | WearableJs | the state functions of www/wearable.js |

## How the model is built

- **Classes with state.** Objects whose fields the source updates become classes:
  - the two `StateStore`s;
  - the two `StateSync` engines;
  - `EventBridge` and `EventListenerBridge`.

  Each class has a `State()` function that reads its fields and those of its store into a
  `World` (or `Bridge`) value.
- **Specification functions.** Every method is proved against a function on that value, with
  `ensures State() == XSpec(old(State()), ...)`. The properties the source promises are
  lemmas about those functions.
- **Loops.** Loops in the source are `while` loops with invariants. Examples: applying the
  entries of a snapshot, recording each element of an acknowledgement, and replaying a
  bridge's queue.
- **Storage.** Android entries are a sequence with distinct paths. This stands for the insertion
  order of the `LinkedHashMap` the store reloads, which `materialize` and snapshots use. iOS
  entries are a map.
- **Iteration order.** Where the order of a Swift dictionary matters, it is a parameter (an
  `Env` of order functions) constrained to enumerate the keys. Examples: `materialize`,
  `cleanupDuplicatePaths`, the snapshot and ack dictionaries.
- **Outside the model.** The clock, the random ids and the peer link also come in as
  parameters. Anything sent to the peer is appended to an `outbox` log. Anything published to
  the app is appended to a log of its own:
  - `dispatched` on Android;
  - `notices` and `posted` on iOS;
  - `delivered` for the bridges.
- **Version order.** The replica-id tie-break and the path-length sort key are modelled on code
  points (`Text.StrLess`, `|path|`). Swift's `<` on strings orders Unicode scalars (after
  canonical normalisation, which is not modelled). Kotlin's `String.compareTo` and `length`
  work on UTF-16 code units, which differs for characters outside the Basic Multilingual
  Plane; see "## Left out".

The two platforms implement the same protocol but differ in a few places; the model follows
each platform's code:

- **Acknowledging received entries.** Android queues an ack for every op and every snapshot
  entry it merges (src/android/StateSync.kt:238, :243-249, `AndroidSync.OpAlwaysAcked`,
  `AndroidSync.SnapshotStepsAckEveryEntry`). iOS's `processOpPayload` and `applySnapshotDict`
  (src/ios/StateSync.swift:390-415, :357-388) queue nothing (`IosSync.StateSync.ProcessOpPayload`,
  `IosSync.StateSync.ApplySnapshotDict`), since `recordAckForEntry` is never called.
- **Tombstones in snapshots.** Android's `sendSnapshot` encodes every stored entry,
  tombstones included (src/android/StateSync.kt:115, `AndroidSync.SnapshotIncludesTombstones`);
  iOS skips tombstones (src/ios/StateSync.swift:146, `IosSync.SnapshotHasExactlyLiveEntries`).
- **Leading slashes.** On both stores `a` and `/a` name the same entry
  (`AndroidStore.SlashedAndPlainCollide`, `IosStore.SlashedAndPlainCollide`), but the amount
  stripped differs:
  - Android's `applyEntry` strips one leading slash (src/android/StateStore.kt:137);
  - Android's `setPath`/`removePath` strip one more before it (src/android/StateSync.kt:61, :76),
    so `//a` is stored as `a`;
  - iOS's `normalizePath` strips all leading slashes, unless the path is nothing but slashes
    (src/ios/StateStore.swift:12-18).
- **Acknowledgements and garbage collection.** iOS's `recordPeerSeen` stores the acknowledged
  path as given (src/ios/StateStore.swift:137-142) while entries are keyed by the normalised
  path, so `gcAcknowledgedTombstones` (src/ios/StateStore.swift:153) never collects entry `a`
  on an acknowledgement of `/a` (`IosStore.AckUnderSlashedPathMisses`). The iOS flush sends
  normalised paths, so the two devices of this repository do not hit this case.
- **Corrected code paths.** Where the code has a defect listed under "## Findings", the
  as-written behaviour is modelled and exhibited next to the corrected one, and the operations
  of the model use the corrected one; "## Left out" names the operations this affects.

## Model

| member | source | states |
|---|---|---|
| Text.StripOneSlash | src/android/StateStore.kt:137 | removes exactly one leading `/` and leaves a path without one unchanged |
| Text.TrimLeadingSlashesFacts | src/android/StateStore.kt:231 | `trimStart('/')` leaves a suffix that does not start with `/` and drops only slashes |
| Text.SplitKeepEmpty | src/android/StateStore.kt:232 | Kotlin's `split('/')`: at least one piece and no piece contains `/` |
| Text.SplitJoin | src/android/StateStore.kt:232 | joining the pieces of `split('/')` with `/` gives back the string |
| Text.SplitOmitEmpty | src/ios/StateStore.swift:222 | Swift's `split(separator: "/")`: only non-empty pieces, none containing `/` |
| Text.StrCompare | src/android/StateModels.kt:11 | string `compareTo` is negative, zero or positive exactly when the first string is below, equal to or above the second |
| Text.StrLessIrreflexive | src/ios/StateModels.swift:17 | no replica id is below itself |
| Text.StrLessTransitive | src/ios/StateModels.swift:17 | string order is transitive |
| Text.StrLessTotal | src/ios/StateModels.swift:17 | two different strings are ordered one way or the other |
| Text.StrLessAsymmetric | src/ios/StateModels.swift:17 | string order is asymmetric |
| Text.ParseDigits | src/ios/StateStore.swift:276 | succeeds exactly on non-empty all-digit strings |
| Text.ParseInt | src/ios/StateStore.swift:276 | Swift's `Int(String)`: results stay in the 64-bit range, a plain or `+`-signed digit string parses as the value of its digits and a `-`-signed one as its negation, each exactly when that value is in range |
| Text.ParseIntDecimalString | src/ios/StateStore.swift:282 | `Int(String(idx))` gives back `idx` for every index in range |
| AndroidModels.CompareTo | src/android/StateModels.kt:7-13 | positive, negative or zero exactly when the timestamp is larger, smaller or equal, with ties broken by replica id |
| AndroidModels.CompareToAntisymmetric | src/android/StateModels.kt:7-13 | swapping the arguments flips the sign |
| AndroidModels.CompareToTransitive | src/android/StateModels.kt:7-13 | "newer than" is transitive |
| AndroidModels.CompareToTotal | src/android/StateModels.kt:7-13 | of two different versions exactly one is newer |
| AndroidModels.TieBreakExamples | src/android/StateModels.kt:9-12 | equal timestamps are decided by replica id (`(100,"b")` beats `(100,"a")`) and a larger timestamp always wins |
| AndroidModels.VersionToJson | src/android/StateModels.kt:15 | a version read back from its JSON is the same version |
| AndroidModels.VersionFromJson | src/android/StateModels.kt:18-22 | a missing `ts` reads as 0 and a missing `r` as the empty string |
| AndroidModels.SerializedPath | src/android/StateModels.kt:34 | the serialised path always starts with `/`, keeps a path that has one and prefixes one otherwise |
| AndroidModels.EntryToJson | src/android/StateModels.kt:31-40 | writes a `/`-prefixed path and a value exactly for live entries with a value, and reads back as the same entry with one slash stripped |
| AndroidModels.EntryFromJson | src/android/StateModels.kt:43-51 | succeeds exactly when `path` is a string and `version` an object, strips one leading `/`, and a tombstone carries no value |
| AndroidModels.EntryRoundTrip | src/android/StateModels.kt:31-51 | an entry stored without a leading slash round-trips through its JSON, with the value of a tombstone dropped |
| AndroidModels.OpToJson | src/android/StateModels.kt:57-66 | writes a value exactly for a put with a value, and decodes back to the same op |
| AndroidModels.OpFromJson | src/android/StateModels.kt:69-77 | succeeds exactly when `type` and `path` are strings and `version` an object; a delete has no value; a missing `ts` becomes the clock reading |
| AndroidStore.Lookup | src/android/StateStore.kt:140 | finds the entry stored under a key, or returns none when no entry has that path |
| AndroidStore.Put | src/android/StateStore.kt:145 | storing keeps paths distinct, and afterwards the key maps to the new entry and every other key to what it mapped to before |
| AndroidStore.Remove | src/android/StateStore.kt:144 | removing keeps paths distinct and drops exactly the entry under that key |
| AndroidStore.ApplySpec | src/android/StateStore.kt:135-150 | `applyEntry` stores the entry under its one-slash-stripped path and drops the slashed twin exactly when no entry exists under either key or the new version is newer; otherwise nothing changes |
| AndroidStore.ApplyIdempotent | src/android/StateStore.kt:141 | applying the same entry a second time changes nothing |
| AndroidStore.ApplyStored | src/android/StateStore.kt:144-145 | after a successful apply, the stored entry is the new one under the stripped path |
| AndroidStore.ApplyCommutes | src/android/StateStore.kt:135-150 | two writes to the same path with different versions leave the same entry list in either order, also when the store holds the path under its slashed twin |
| AndroidStore.ApplyCommutesFromEmpty | src/android/StateStore.kt:135-150 | the same result starting from an empty store |
| AndroidStore.SlashedAndPlainCollide | src/android/StateStore.kt:137-140 | applying `a` and applying `/a` have the same effect |
| AndroidStore.RecordSpec | src/android/StateStore.kt:176-183 | `recordPeerSeen` stores the version under the peer and the one-slash-stripped path, and leaves other peers and the peer's other keys alone |
| AndroidStore.RecordThenHasPeerSeen | src/android/StateStore.kt:189-197 | after recording `v`, `hasPeerSeen(w)` holds exactly when `v >= w`; an unknown peer has seen nothing |
| AndroidStore.AtLeastTransitive | src/android/StateModels.kt:7-13 | `>=` on versions is transitive |
| AndroidStore.HasPeerSeenCoversOlder | src/android/StateStore.kt:189-197 | a peer that has seen a version has seen every older one |
| AndroidStore.RecordOverwritesNewer | src/android/StateStore.kt:180 | recording an older ack after a newer one overwrites it, so the newer version is no longer seen |
| AndroidStore.GcSpec | src/android/StateStore.kt:204-217 | garbage collection keeps exactly the entries that are not tombstones acknowledged by the peer |
| AndroidStore.GcDistinct | src/android/StateStore.kt:214 | garbage collection keeps paths distinct |
| AndroidStore.KeepPathsIsGc | src/android/StateStore.kt:206-214 | removing the collected list of paths is the same as filtering out collectable entries |
| AndroidStore.UnescapeEscape | src/android/StateStore.kt:232 | `~1`-then-`~0` unescaping inverts the JSON Pointer escape of a token |
| AndroidStore.UnescapeOrder | src/android/StateStore.kt:232 | the replacement order matters: `~01` becomes `~1`, where the other order would give `/` |
| AndroidStore.Tokens | src/android/StateStore.kt:231-232 | a pointer always yields at least one token |
| AndroidStore.PointerSet | src/android/StateStore.kt:233-249 | after `JsonPointer.apply`, reading the tokens gives the value (absent for null); siblings of the first token are unchanged, and so is every pointer that branches off the written path at any depth |
| AndroidStore.JsonPointerApply | src/android/StateStore.kt:229-250 | the loop with its parent stack computes `PointerSet` of the tokens |
| AndroidStore.SortBy | src/android/StateStore.kt:158 | `sortedBy` gives a permutation ordered by the key |
| AndroidStore.SortByStable | src/android/StateStore.kt:158 | `sortedBy` is stable: the entries sharing any one key come out in their stored order |
| AndroidStore.ConsSorted | src/android/StateStore.kt:158 | an entry whose key is no larger than any of a sorted list keeps the list sorted when put in front |
| AndroidStore.InsertBy | src/android/StateStore.kt:158 | inserting into a sorted list keeps it sorted and adds exactly one element |
| AndroidStore.InsertByWithKey | src/android/StateStore.kt:158 | an inserted entry goes after every entry that shares its key |
| AndroidStore.SortTwo | src/android/StateStore.kt:158 | the entry with the smaller key sorts first whichever order the two are stored in |
| AndroidStore.ParentThenChild | src/android/StateStore.kt:159-167 | writing a parent and then a child nested in it leaves the child's value at its path and every other member of an object parent in place |
| AndroidStore.MaterializeParentBeforeChild | src/android/StateStore.kt:156-169 | with the depth order, for a store holding just a parent and a child nested in it, both survive `materialize`, whichever was stored first |
| AndroidStore.AsWrittenParentBeforeChild | src/android/StateStore.kt:156-169 | with the raw length order of the code, the same holds when the parent's stored path is also the shorter string |
| AndroidStore.EscapedParentClobbersChild | src/android/StateStore.kt:158 | the length order applies `~~~/x` before its parent `~0~0~0` (the token `~~~`), so the child is lost in either stored order |
| AndroidStore.ApplyAllFacts | src/android/StateStore.kt:159-167 | writing entries without a live one changes nothing, and every new top-level member is the first token of a live entry |
| AndroidStore.MaterializeAsWritten | src/android/StateStore.kt:156-169 | `materialize` as written (raw-length sort, tombstones skipped, entries written in sorted order): a store of tombstones gives `{}`, and every top-level member comes from a live entry |
| AndroidStore.MaterializeSpec | src/android/StateStore.kt:156-169 | the same with the depth order: a store of tombstones gives `{}`, and every top-level member comes from a live entry |
| AndroidStore.MaterializeParentThenChild | src/android/StateStore.kt:156-169 | a parent `user` and a child `user/name` merge into one object, whatever order they were stored in |
| AndroidStore.WrapInt32 | src/android/StateStore.kt:68 | a Kotlin `Int` result is in the 32-bit range and congruent to the exact sum |
| AndroidStore.StateStore.constructor | src/android/StateStore.kt:25 | the store starts from the persisted fields |
| AndroidStore.StateStore.GetReplicaId | src/android/StateStore.kt:33-51 | always returns `phone`; a stored id other than `phone` clears entries and acks, and a missing one is stored |
| AndroidStore.StateStore.GetEpoch | src/android/StateStore.kt:59-61 | the stored epoch, or 1 when none is stored |
| AndroidStore.StateStore.BumpEpoch | src/android/StateStore.kt:67-70 | stores epoch + 1 with 32-bit wrap-around and changes nothing else |
| AndroidStore.StateStore.NextLocalVersion | src/android/StateStore.kt:111-114 | `(now, phone)`, with the replica-id migration as a side effect |
| AndroidStore.StateStore.ApplyEntry | src/android/StateStore.kt:135-150 | the new entries and the returned flag are `ApplySpec` of the old entries |
| AndroidStore.StateStore.RecordPeerSeen | src/android/StateStore.kt:176-183 | the new ack table is `RecordSpec` of the old one |
| AndroidStore.StateStore.HasPeerSeen | src/android/StateStore.kt:189-197 | the answer is the ack table's (stripped key first, then the key as given, then `seen >= version`), and a yes for a version is a yes for every older version |
| AndroidStore.StateStore.GcAcknowledgedTombstones | src/android/StateStore.kt:204-217 | the new entries are `GcSpec` of the old ones |
| AndroidStore.StateStore.Materialize | src/android/StateStore.kt:156-169 | the sorted loop of pointer writes gives `MaterializeSpec` of the entries, which keeps a parent and a nested child when the store holds just those two (`MaterializeParentBeforeChild`) |
| AndroidRetry.Pow2 | src/android/RetryHelper.kt:60 | powers of two are positive |
| AndroidRetry.Pow2Add | src/android/RetryHelper.kt:60 | `2^(a+b) = 2^a * 2^b` |
| AndroidRetry.Pow2Monotone | src/android/RetryHelper.kt:60 | powers of two grow with the exponent |
| AndroidRetry.BackoffDelay | src/android/RetryHelper.kt:58-62 | the intended delay is positive and at most 5000 ms |
| AndroidRetry.BackoffDelayValues | src/android/RetryHelper.kt:58-62 | delays 500, 1000, 2000, 4000 ms, then the 5000 ms cap from attempt 5 on |
| AndroidRetry.BackoffDelayMonotone | src/android/RetryHelper.kt:58-62 | delays never shrink from one attempt to the next |
| AndroidRetry.WrapLong | src/android/RetryHelper.kt:59-60 | Kotlin `Long` multiplication wraps into the 64-bit range and is exact inside it |
| AndroidRetry.DoubleToLong | src/android/RetryHelper.kt:60 | `Double.toLong()` of a power of two saturates at `Long.MAX_VALUE` |
| AndroidRetry.AsWrittenAgreesUpTo55 | src/android/RetryHelper.kt:58-62 | the code as written gives the intended delay for every attempt up to 55 |
| AndroidRetry.BackoffDelayAsWritten | src/android/RetryHelper.kt:58-62 | the delay as written, with the Long product and `toLong` saturation: never above 5000 ms, but not bounded below |
| AndroidRetry.AsWrittenNegativeAt56 | src/android/RetryHelper.kt:58-62 | at attempt 56 the code as written computes a negative delay, where the intended one is 5000 ms |
| AndroidRetry.RetryCalls | src/android/RetryHelper.kt:19-53 | the loop calls the block once per attempt, in order, and stops after the first success |
| AndroidRetry.RetrySleeps | src/android/RetryHelper.kt:19-53 | it sleeps the backoff delay after each failed attempt except the last |
| AndroidRetry.ThrowIsLikeFalse | src/android/RetryHelper.kt:19-53 | a block that throws is retried exactly like one that returns false |
| AndroidRetry.DefaultAlwaysFailing | src/android/StateSyncSpec.kt:48-53 | with the default three attempts an always-failing block is called three times, sleeps 500 and 1000 ms and reports false |
| AndroidRetry.WithRetry | src/android/RetryHelper.kt:19-53 | the `while` loop computes the result, calls and sleeps of `RetrySpec` |
| AndroidSync.Enqueue | src/android/StateSync.kt:311-327 | queuing an ack keeps the pending table well formed |
| AndroidSync.EnqueueFacts | src/android/StateSync.kt:314-318 | the ack is keyed by the `/`-prefixed path and keeps the newer of the queued and the new version; other keys are untouched and a new key goes last |
| AndroidSync.EnqueueAllKeepsMaximum | src/android/StateSync.kt:316-317 | after many acks each key holds a version at least as new as every version offered for it, and it is one of them |
| AndroidSync.Migrate | src/android/StateStore.kt:33-51 | the replica-id migration stores `phone` and touches nothing but the store |
| AndroidSync.MigrateIdempotent | src/android/StateStore.kt:36-48 | migrating twice is migrating once, and a store already on `phone` is unchanged |
| AndroidSync.LocalWriteSendsIffChanged | src/android/StateSync.kt:59-86 | a local write dispatches state and sends one op exactly when the store accepted it, with the value then readable under the stripped path; otherwise nothing is sent |
| AndroidSync.RepeatedWriteIsQuiet | src/android/StateSync.kt:59-69 | repeating a write with the same clock reading sends and dispatches nothing more |
| AndroidSync.SnapshotIncludesTombstones | src/android/StateSync.kt:104-129 | the snapshot array has one element per stored entry, tombstones included, each decoding to its entry |
| AndroidSync.OpAlwaysAcked | src/android/StateSync.kt:228-240 | a received op is applied, always queued for ack with a flush scheduled, and dispatches state only when it changed the store |
| AndroidSync.ApplyThenAck | src/android/StateSync.kt:234-239 | applying an entry and then queueing its ack changes the entries as the merge says, dispatches once exactly when the merge won, publishes nothing and schedules a flush |
| AndroidSync.RemoteOpMatchesLocal | src/android/StateSync.kt:230-233 | the op a local write sends is received as the same entry |
| AndroidSync.SnapshotDispatchesAtMostOnce | src/android/StateSync.kt:241-252 | a snapshot sends nothing and dispatches state at most once |
| AndroidSync.SnapshotStepsAckEveryEntry | src/android/StateSync.kt:243-249 | every entry of a well-formed snapshot is queued for ack |
| AndroidSync.AckWithoutSenderIgnored | src/android/StateSync.kt:253-264 | an ack without `fromReplica` changes nothing |
| AndroidSync.SeenArrayDecodes | src/android/StateSync.kt:339-345 | each element of the flushed `seen` array decodes to a queued path and its version, in queue order |
| AndroidSync.FlushDrains | src/android/StateSync.kt:330-355 | flushing empties the queue and sends one ack item exactly when the queue was non-empty |
| AndroidSync.FlushedAcksAreRecorded | src/android/StateSync.kt:253-264 | a peer receiving the flushed array records every queued version |
| AndroidSync.AckStepsRecord | src/android/StateSync.kt:256-262 | the receiving loop records each element under the sender, keeps other peers, and keeps the sender's other keys |
| AndroidSync.RouteAsWrittenMisroutesSnapshot | src/android/StateSync.kt:228 | with the plugin path `/ops`, the snapshot item is classified as an op by the code as written |
| AndroidSync.RouteAsWritten | src/android/StateSync.kt:227-270 | the `when` as written: any path containing `/op` is an op, before every other test |
| AndroidSync.RouteAsWrittenAgrees | src/android/StateSync.kt:227-270 | every op of the anchored routing is an op as written, and the two agree on every path without `/op` |
| AndroidSync.RouteClassifiesProtocolPaths | src/android/StateSync.kt:227-270 | the corrected routing sends each protocol path to its own handler |
| AndroidSync.RequestSpec | src/android/StateSync.kt:265-270 | a request item changes the state only when its `type` is `requestSnapshot` |
| AndroidSync.IrrelevantEventsIgnored | src/android/StateSync.kt:196-210 | events outside the state base path change nothing |
| AndroidSync.StateSync.constructor | src/android/StateSync.kt:34 | the base path is the plugin path + `/state`, with no pending acks and empty logs |
| AndroidSync.StateSync.SetPath | src/android/StateSync.kt:59-69 | the new state is `LocalWriteSpec` of a put |
| AndroidSync.StateSync.RemovePath | src/android/StateSync.kt:76-86 | the new state is `LocalWriteSpec` of a tombstone |
| AndroidSync.StateSync.LocalWrite | src/android/StateSync.kt:59-86 | the shared body of the two writes |
| AndroidSync.StateSync.NextLocalVersion | src/android/StateStore.kt:111-114 | the version is the clock reading and "phone"; the state is `Migrate` of the old one |
| AndroidSync.StateSync.ApplyEntry | src/android/StateStore.kt:135-150 | the entries become the merge's result and the returned flag is the merge's; nothing else changes |
| AndroidSync.StateSync.Publish | src/android/StateSync.kt:65-68 | a winning write publishes its operation, then dispatches the state |
| AndroidSync.StateSync.DispatchState | src/android/StateSync.kt:92-101 | the materialised state is appended to the dispatch log |
| AndroidSync.StateSync.SendOp | src/android/StateSync.kt:136-140 | one op item under `/state/op/<opId>` is sent |
| AndroidSync.StateSync.SendSnapshot | src/android/StateSync.kt:104-129 | the new state is `SendSnapshotSpec`: one snapshot item with every entry |
| AndroidSync.StateSync.GetReplicaId | src/android/StateStore.kt:33-50 | the id is "phone" and the state is `Migrate` of the old one |
| AndroidSync.StateSync.PublishSnapshot | src/android/StateSync.kt:122-123 | one item under base + "/snapshot" is appended to the published items; nothing else changes |
| AndroidSync.StateSync.HandleSnapshotRequest | src/android/StateSync.kt:371-378 | a request answers with a snapshot |
| AndroidSync.StateSync.OnDataChanged | src/android/StateSync.kt:196-210 | the new state is `EventsSpec` of the event buffer |
| AndroidSync.StateSync.HandleEvent | src/android/StateSync.kt:199-204 | a changed event under the base path is handled as `ItemSpec` says; any other event leaves the state alone |
| AndroidSync.StateSync.HandleDataItem | src/android/StateSync.kt:218-275 | the new state is `ItemSpec`: routes the item and applies the matching handler |
| AndroidSync.StateSync.HandleOp | src/android/StateSync.kt:228-240 | the new state is `OpSpec` of the payload |
| AndroidSync.StateSync.HandleSnapshot | src/android/StateSync.kt:241-252 | the new state is `SnapshotSpec` of the payload |
| AndroidSync.StateSync.ApplySnapshotEntries | src/android/StateSync.kt:244-249 | the entry loop computes `SnapshotSteps`, including stopping at the first malformed element |
| AndroidSync.StateSync.ApplySnapshotElement | src/android/StateSync.kt:244-249 | an element is applied and acknowledged exactly when it decodes; otherwise nothing changes |
| AndroidSync.StateSync.HandleAck | src/android/StateSync.kt:253-264 | the new state is `AckSpec` of the payload |
| AndroidSync.StateSync.EnqueueAck | src/android/StateSync.kt:311-327 | the new state is `EnqueueAckSpec` |
| AndroidSync.StateSync.FlushAcks | src/android/StateSync.kt:330-355 | the new state is `FlushSpec` |
| AndroidSync.StateSync.PublishAcks | src/android/StateSync.kt:349-350 | one item under base + "/ack" is appended to the published items; nothing else changes |
| AndroidSync.EncodeEntries | src/android/StateSync.kt:109-116 | the loop builds the snapshot array |
| AndroidSync.EncodeSeen | src/android/StateSync.kt:339-345 | the loop builds the `seen` array |
| EventQueue.OfferAllKeepsOldest | src/android/PluginEventBridge.kt:44-48 | a bounded queue keeps the oldest events up to the limit and drops the rest |
| PluginEventBridge.OperationsKeepValid | src/android/PluginEventBridge.kt:22-50 | the queue never exceeds 50 and is empty while a callback is registered; dispatch either delivers or queues |
| PluginEventBridge.UnregisteredQueues | src/android/PluginEventBridge.kt:43-49 | without a callback, events are queued in order up to 50 |
| PluginEventBridge.RegisteredNeverQueues | src/android/PluginEventBridge.kt:40-42 | with a callback, every event is delivered in order |
| PluginEventBridge.EarlyEventsReplayed | src/android/PluginEventBridge.kt:22-32 | the first 50 early events are delivered at registration, before later ones, in order |
| PluginEventBridge.EventBridge.constructor | src/android/PluginEventBridge.kt:12-15 | no callback and an empty queue |
| PluginEventBridge.EventBridge.Register | src/android/PluginEventBridge.kt:22-32 | the new state is `RegisterSpec`: the queue is replayed to the new callback and cleared |
| PluginEventBridge.EventBridge.Dispatch | src/android/PluginEventBridge.kt:39-50 | the new state is `DispatchSpec` |
| ListenerBridge.Classification | src/android/ListenerBridge.kt:85-89 | the `stateChanged` event the sync engine dispatches goes to the state listener; a payload with `type` and no `stateChanged` does not |
| ListenerBridge.OperationsKeepValid | src/android/ListenerBridge.kt:25-119 | neither queue exceeds 20 and each is empty while its listener is registered; dispatch touches only the matching channel |
| ListenerBridge.UnregisteredQueues | src/android/ListenerBridge.kt:95-113 | without listeners, state events and messages go to their own queues in order, up to 20 each |
| ListenerBridge.EarlyStateEventsReplayed | src/android/ListenerBridge.kt:48-64 | registering a state listener delivers the first 20 early state events in order and leaves the messages queued |
| ListenerBridge.UnregisterQueuesStateEvents | src/android/ListenerBridge.kt:67-71 | after unregistering, a state event is queued alone in the emptied state queue and the message side is untouched |
| ListenerBridge.EventListenerBridge.constructor | src/android/ListenerBridge.kt:15-17 | no listeners and empty queues |
| ListenerBridge.EventListenerBridge.Replay | src/android/ListenerBridge.kt:33-39 | the loop delivers each copied event in order |
| ListenerBridge.EventListenerBridge.RegisterMessageListener | src/android/ListenerBridge.kt:25-41 | the new state is `RegisterMessageSpec` |
| ListenerBridge.EventListenerBridge.RegisterStateListener | src/android/ListenerBridge.kt:48-64 | the new state is `RegisterStateSpec` |
| ListenerBridge.EventListenerBridge.UnregisterStateListener | src/android/ListenerBridge.kt:67-71 | the state listener and state queue are cleared |
| ListenerBridge.EventListenerBridge.Dispatch | src/android/ListenerBridge.kt:79-119 | the new state is `DispatchSpec` |
| IosModels.LessIrreflexive | src/ios/StateModels.swift:15-18 | no version is below itself |
| IosModels.LessTransitive | src/ios/StateModels.swift:15-18 | version order is transitive |
| IosModels.LessTrichotomy | src/ios/StateModels.swift:15-18 | of two different versions exactly one is below the other |
| IosModels.TieBreak | src/ios/StateModels.swift:17 | equal timestamps are decided by replica id |
| IosModels.LessAgreesWithCompareTo | src/ios/StateModels.swift:15-18 | the iOS order and the Android `compareTo` agree on every pair |
| IosModels.VersionToDict | src/ios/StateModels.swift:5-19 | a version whose `ts` fits 64 bits reads back from its dictionary |
| IosModels.VersionFromDict | src/ios/StateSync.swift:347 | a dictionary is read as a version exactly when `ts` is a 64-bit integer |
| IosStore.Normalize | src/ios/StateStore.swift:12-18 | never lengthens the path and leaves a path of only slashes as it is |
| IosStore.NormalizeIdempotent | src/ios/StateStore.swift:12-18 | normalising twice is normalising once |
| IosStore.NormalizeStripsLeadingSlashes | src/ios/StateStore.swift:12-18 | strips every leading slash unless nothing else is left |
| IosStore.NormalizeExamples | src/ios/StateStore.swift:12-18 | `a`, `/a` and `//a` all become `a`; `/`, `//` and the empty path stay as they are |
| IosStore.NormalizeSlashPrefix | src/ios/StateStore.swift:12-18 | one more leading slash does not change the result, unless the path is only slashes |
| IosStore.ApplySpec | src/ios/StateStore.swift:170-202 | `applyEntry` stores the entry under the normalised path exactly when it is new there or newer |
| IosStore.ApplyIdempotent | src/ios/StateStore.swift:170-202 | applying an entry twice changes nothing the second time |
| IosStore.ApplyCommutes | src/ios/StateStore.swift:170-202 | two entries with different versions leave the same store in either order |
| IosStore.SlashedAndPlainCollide | src/ios/StateStore.swift:171 | `a` and `/a` hit the same key |
| IosStore.ValueAt | src/ios/StateStore.swift:122-127 | a value is returned exactly for a live entry with a value under the normalised path |
| IosStore.HasPathSpec | src/ios/StateStore.swift:129-134 | `hasPath` holds exactly for a live entry under the normalised path |
| IosStore.ApplyThenRead | src/ios/StateStore.swift:170-202 | reading right after a write returns the written value, or nothing for a delete |
| IosStore.ValueImpliesHasPath | src/ios/StateStore.swift:122-134 | a readable value implies `hasPath`, and `hasPath` with a stored value implies a readable value |
| IosStore.RecordSpec | src/ios/StateStore.swift:137-142 | `recordPeerSeen` stores the version under the peer and the path as given, and keeps everything else |
| IosStore.RecordThenHasPeerSeen | src/ios/StateStore.swift:144-150 | after recording `v`, `hasPeerSeen(w)` holds exactly when `w` is not above `v`; an older ack overwrites a newer one |
| IosStore.HasPeerSeenCoversOlder | src/ios/StateStore.swift:144-150 | a peer that has seen a version has seen every version not above it |
| IosStore.AckUnderSlashedPathMisses | src/ios/StateStore.swift:139 | an ack recorded under `/a` is not found for the key `a` |
| IosStore.GcSpec | src/ios/StateStore.swift:153-166 | keeps exactly the entries that are not acknowledged tombstones, unchanged, and every live entry |
| IosStore.RecordThenGc | src/ios/StateStore.swift:153-166 | a tombstone whose version is recorded under its key is collected |
| IosStore.AnyMovesKeys | src/ios/StateStore.swift:67-94 | the cleanup persists exactly when some stored key is not normalised |
| IosStore.CleanupKeepsGreatest | src/ios/StateStore.swift:67-94 | cleanup keeps one entry per normalised key, taken from the keys that normalise to it, and its version is at least theirs |
| IosStore.CleanupNoopWhenNormal | src/ios/StateStore.swift:67-94 | a store whose keys are all normalised is left unchanged |
| IosStore.MaterializeFoldFacts | src/ios/StateStore.swift:205-226 | in every dictionary order, a store of tombstones materialises as `{}`, and each top-level member comes from a live entry: its first component, or for the root path a member of its object value or the `value` slot |
| IosStore.MaterializeLastLiveVisible | src/ios/StateStore.swift:205-226 | in every dictionary order, the last live entry visited with a non-empty path is readable at its components, whatever tombstones follow it |
| IosStore.MaterializeOrderDependent | src/ios/StateStore.swift:205-226 | the result depends on dictionary order: parent then child merges both, but child then parent loses the child |
| IosStore.StateStore.constructor | src/ios/StateStore.swift:25-46 | a stored id other than `phone` clears entries and acks; otherwise the persisted state is loaded; the id is `phone` |
| IosStore.StateStore.CleanupDuplicatePaths | src/ios/StateStore.swift:67-94 | entries become the cleanup fold when some key moves, and stay otherwise |
| IosStore.StateStore.NextLocalVersion | src/ios/StateStore.swift:109-112 | `(now, replicaId)` |
| IosStore.StateStore.ApplyEntry | src/ios/StateStore.swift:170-202 | the new entries, flag and notifications follow `ApplySpec`, with one notification per accepted entry |
| IosStore.StateStore.GetValueAtPath | src/ios/StateStore.swift:122-127 | the value of a live entry under the normalised key, nothing otherwise; a path and its normalised form read the same |
| IosStore.StateStore.HasPath | src/ios/StateStore.swift:129-134 | a live entry exists under the normalised key; a path and its normalised form agree; where it says no, `getValueAtPath` returns nothing |
| IosStore.StateStore.RecordPeerSeen | src/ios/StateStore.swift:137-142 | the ack table becomes `RecordSpec` of the old one |
| IosStore.StateStore.HasPeerSeen | src/ios/StateStore.swift:144-150 | the ack under the path as given is not below the query, and a yes for a version is a yes for every version not above it |
| IosStore.StateStore.GcAcknowledgedTombstones | src/ios/StateStore.swift:153-166 | entries become `GcSpec` of the old ones |
| IosStore.StateStore.Materialize | src/ios/StateStore.swift:205-226 | the loop over the given key order computes `MaterializeFold` |
| IosMerge.ArrayIndex | src/ios/StateStore.swift:276 | a component indexes an array exactly when it parses as a non-negative integer |
| IosMerge.Nulls | src/ios/StateStore.swift:309 | the padding is `n` nulls |
| IosMerge.Padded | src/ios/StateStore.swift:309 | padding keeps the array as a prefix and fills up to the index with nulls |
| IosMerge.SetAt | src/ios/StateStore.swift:243-382 | the corrected walk: afterwards the value is at the components, and an object's other keys are unchanged |
| IosMerge.SetAtStep | src/ios/StateStore.swift:352-382 | one step of the walk descends and plugs the updated child back into its parent |
| IosMerge.MergeSpec | src/ios/StateStore.swift:231-395 | empty components merge an object value into the root or store another value under a reserved key; otherwise the value is readable at the components and only the first component's key is added |
| IosMerge.MergeInto | src/ios/StateStore.swift:236-238 | the loop merges the object's fields over the base |
| IosMerge.MergeValues | src/ios/StateStore.swift:231-395 | the method computes `MergeSpec` |
| IosMerge.WalkDown | src/ios/StateStore.swift:248-349 | the frames collected on the way down, plugged around the write of the last component, give the write of the whole path |
| IosMerge.Rebuild | src/ios/StateStore.swift:351-381 | the rebuild loop plugs the frames back from the innermost out |
| IosMerge.NegativeIndexTraps | src/ios/StateStore.swift:276-289 | component `-1` on an array traps in the code as written; the corrected walk stores it as a key |
| IosMerge.MergeAsWritten | src/ios/StateStore.swift:248-381 | the walk and rebuild as written, with `None` for the trap: a result is always an object or an array |
| IosMerge.AsWrittenAgreesWithoutArrays | src/ios/StateStore.swift:248-381 | where no array lies on the path, the walk as written is the corrected write |
| IosMerge.AppendBelowLosesArray | src/ios/StateStore.swift:298-305 | appending below the end of an array replaces the array by an object in the code as written; the corrected walk extends it |
| IosMerge.SparseBelowDropsValue | src/ios/StateStore.swift:307-315 | a sparse index that is not last drops the value in the code as written; the corrected walk stores it |
| IosRetry.DelayMs | src/ios/RetryHelper.swift:62-65 | positive and at most 5000 ms |
| IosRetry.DelayAgreesWithAndroid | src/ios/RetryHelper.swift:62-65 | equals the Android delay for every attempt: 500, 1000, 2000 ms, then the cap |
| IosRetry.DefaultAlwaysFailing | src/ios/RetryHelper.swift:6-11 | three calls, sleeps of 0.5 s and 1 s, and false |
| IosRetry.WithRetry | src/ios/RetryHelper.swift:22-60 | the loop computes `RetrySpec`, and the error flag says whether some attempt threw |
| IosSync.ApplyNeverLowers | src/ios/StateStore.swift:170-202 | after an apply, the key holds a version at least as new as the entry's, and no key's version goes down |
| IosSync.OpEntryOf | src/ios/StateSync.swift:390-415 | an op payload is accepted exactly when `type`, `path` and `version` are well formed, and gives its path |
| IosSync.OpRoundTrip | src/ios/StateSync.swift:77-87 | the op payload `setPath` builds is received as the written entry |
| IosSync.SetPathPostsAndPublishes | src/ios/StateSync.swift:53-126 | a write is applied and posted; connectivity off sends nothing; otherwise exactly one context key or message carrying the entry is sent |
| IosSync.SnapshotDictOfKeys | src/ios/StateSync.swift:144-153 | the snapshot has a path exactly when a live entry with that path is enumerated |
| IosSync.SnapshotHasExactlyLiveEntries | src/ios/StateSync.swift:144-153 | over the full key order, the snapshot holds exactly the live entries: no tombstones |
| IosSync.SnapshotItemEntry | src/ios/StateSync.swift:361-385 | an item is read exactly when it is a dictionary, as a live entry with a value exactly when `value` is present |
| IosSync.SnapshotItemRoundTrip | src/ios/StateSync.swift:144-153 | an item written by `sendSnapshot` is read back as its entry |
| IosSync.SnapshotDictWritesLiveEntries | src/ios/StateSync.swift:357-388 | applying a snapshot changes only entries and notifications, and every entry it changes is live |
| IosSync.SnapshotSkipsNonDictionaries | src/ios/StateSync.swift:362 | items that are not dictionaries are ignored |
| IosSync.SnapshotAppliesEveryItem | src/ios/StateSync.swift:357-388 | after a snapshot, each dictionary item's key holds at least the item's version |
| IosSync.SnapshotKeepsAtLeast | src/ios/StateSync.swift:357-388 | a snapshot never lowers a stored version |
| IosSync.AckDictStepsRecord | src/ios/StateSync.swift:344-355 | the loop records every well-formed version under the peer |
| IosSync.AckDictRecordsUnderPeer | src/ios/StateSync.swift:344-355 | an ack dict records each valid version under the peer, leaves other peers, then collects acknowledged tombstones |
| IosSync.AckMapKeys | src/ios/StateSync.swift:302-305 | the ack map has exactly the pending paths |
| IosSync.AckMapLastWins | src/ios/StateSync.swift:302-305 | the last pending entry for a path decides its version |
| IosSync.FlushDrains | src/ios/StateSync.swift:296-342 | flushing empties the pending list and sends at most one thing, exactly one when pending is non-empty and a watch is paired |
| IosSync.FlushedAcksArriveUnderPeer | src/ios/StateSync.swift:302-305 | a flushed ack map received by the peer records each last pending version |
| IosSync.ContextRoutesProtocolKeys | src/ios/StateSync.swift:212-243 | op, snapshot, ack and request keys go to their own handlers |
| IosSync.OtherKeysIgnored | src/ios/StateSync.swift:212-243 | a context with no protocol keys changes nothing |
| IosSync.OpRoutesAgree | src/ios/StateSync.swift:245-279 | an op gives the same state whether it comes as a context key or as a message |
| IosSync.AckRoutesAgree | src/ios/StateSync.swift:245-279 | an ack map gives the same state whether it comes through the context or a message |
| IosSync.StateSync.constructor | src/ios/StateSync.swift:17-19 | base path is the configured path + `/state`, with empty logs |
| IosSync.StateSync.SetPath | src/ios/StateSync.swift:53-126 | the new state is `SetPathSpec` |
| IosSync.StateSync.SendOpViaMessage | src/ios/StateSync.swift:417-420 | one op message is sent |
| IosSync.StateSync.SendSnapshot | src/ios/StateSync.swift:131-197 | the new state is `SendSnapshotSpec` |
| IosSync.StateSync.BuildSnapshot | src/ios/StateSync.swift:144-153 | the loop builds `SnapshotDictOf` |
| IosSync.StateSync.HandleApplicationContext | src/ios/StateSync.swift:212-243 | the new state is `ContextSpec` |
| IosSync.StateSync.HandleContextItem | src/ios/StateSync.swift:213-241 | one key of the context, routed |
| IosSync.StateSync.HandleMessage | src/ios/StateSync.swift:245-279 | the new state is `MessageSpec` |
| IosSync.StateSync.RecordAckForEntry | src/ios/StateSync.swift:282-285 | the entry is appended to pending and a flush scheduled |
| IosSync.StateSync.FlushAcks | src/ios/StateSync.swift:296-342 | the new state is `FlushSpec` |
| IosSync.StateSync.SendAckViaMessage | src/ios/StateSync.swift:422-425 | one ack message is sent |
| IosSync.StateSync.ProcessAckDict | src/ios/StateSync.swift:344-355 | the new state is `AckDictSpec` |
| IosSync.StateSync.ApplySnapshotDict | src/ios/StateSync.swift:357-388 | the new state is `ApplySnapshotDictSpec` |
| IosSync.StateSync.ProcessOpPayload | src/ios/StateSync.swift:390-415 | the new state is `OpSpec` |
| IosSync.StateSync.HandleSnapshotRequest | src/ios/StateSync.swift:472-475 | answers with `SendSnapshotSpec` |
| IosSync.BuildAckMap | src/ios/StateSync.swift:302-305 | the loop builds `AckMap` |
| WearableJs.ExecPromise | www/wearable.js:35-46 | calls native with the action and arguments, callback-style exactly when `success` is a function |
| WearableJs.Rejection | www/wearable.js:260-267 | a bad argument never reaches native: `error(msg)` exactly when `error` is a function, a rejected promise exactly when neither callback is one, and nothing otherwise |
| WearableJs.SetState | www/wearable.js:259-269 | native is called exactly for a non-empty string key, with `[key, value]` |
| WearableJs.RemoveState | www/wearable.js:279-289 | native is called exactly for a non-empty string key |
| WearableJs.GetState | www/wearable.js:301-311 | native is called exactly for a non-empty string key |
| WearableJs.HasState | www/wearable.js:323-333 | native is called exactly for a non-empty string key |
| WearableJs.SetStatePath | www/wearable.js:344-354 | native is called exactly for a string beginning with `/`, with `[pointer, value]` |
| WearableJs.RemoveStatePath | www/wearable.js:364-374 | native is called exactly for a string beginning with `/` |
| WearableJs.RejectionsStayInJs | www/wearable.js:259-374 | for invalid arguments no state function calls native, and all six fail the same way |
| WearableJs.PointersAreKeys | www/wearable.js:345 | every valid pointer is a valid key, but `a` is a key and not a pointer |
| WearableJs.SuiteExamples | tests/tests.js:369-415 | the rejections the test suite expects: empty keys, `invalid/path`, the empty pointer; valid calls reach native |
| WearableJs.ErrorOnlyCallers | www/wearable.js:262-265 | a caller passing only `error` gets `error(msg)` on a bad key but a promise on a good one |

## Left out

- Transport: the Data Layer `putDataItem`, `updateApplicationContext` and `sendMessage` are one entry in the `outbox` log per send. Their retries are not modelled; iOS's `Link.contextAccepted` stands for whether the context update eventually succeeded.
- Timers: the 300 ms Android ack debounce and the 0.5 s iOS flush delay become a `flushScheduled` flag and an explicit flush call.
- Concurrency: `@Synchronized`, `synchronized(pendingAcks)` and dispatch queues are left out, because the model is single-threaded.
- Persistence: SharedPreferences and UserDefaults are in-memory fields.
  - The JSON text they hold is not modelled, so a corrupt stored array, which loads as empty, is not modelled.
  - Neither is the Android reload of a `//x` path, which strips a second slash.
- Numbers are integers; floating-point JSON values and org.json's coercions (`optLong` on a string, for instance) are left out.
- The clock, op ids and Swift dictionary iteration order are parameters.
- The random UUID suffix of the iOS snapshot and ack context keys (src/ios/StateSync.swift:141-142, :307-308) is dropped: the key is the channel prefix alone, which is all the receiving side's prefix routing looks at.
- The iOS 100 KB size check and its fallback in `sendSnapshot` are left out.
- The JSON-string branch of `processOpPayload` (src/ios/StateSync.swift:405-407) is the `else` of `if let val = payload["value"]`, so it runs only when `value` is absent, and then `as? String` is nil: the branch can never decode anything. A string `value` is stored as a string, as `IosSync.OpEntryOf` does, so nothing of this branch is left out.
- AndroidStore.MaterializeSpec, AndroidStore.StateStore.Materialize and AndroidSync.StateSync.DispatchState: entries are sorted by token depth (`TokenDepth`), not by the raw path length of src/android/StateStore.kt:158 (modelled as `AndroidStore.MaterializeAsWritten`). The two orders put a parent before a nested child alike whenever the parent's stored path is the shorter string (`AndroidStore.AsWrittenParentBeforeChild`); they differ when escapes (`~0`, `~1`) make a parent's path at least as long as its child's, where the code can lose the child (`AndroidStore.EscapedParentClobbersChild`).
- Swift `String` comparison and normalisation are modelled by code-point order without Unicode normalisation.
- Text.StrCompare, AndroidModels.CompareTo, AndroidStore.PathLength and IosModels.LessAgreesWithCompareTo: strings are compared and measured by code point, while Kotlin's `compareTo` and `length` (src/android/StateModels.kt:11, src/android/StateStore.kt:158) use UTF-16 code units. For characters outside the Basic Multilingual Plane the Android tie-break on equal timestamps can differ (`\uFF61` is above `\U0001F600` in Kotlin, below it here), and so can the Android materialise order, since a supplementary character counts twice in Kotlin's length. IosModels.LessAgreesWithCompareTo therefore holds for the model, not for the two platforms on such ids.
- Logging, `lastError` text and `Logger` calls are left out.
- `start`, `stop`, `bootstrapExistingDataItems`, `requestPeerSnapshot`, `sendAck` (no caller) and the Cordova plugin classes are left out: platform plumbing without state of the core.
- The other JavaScript functions (`configure`, `sendMessageToWatch`, listener registration, ...) are left out, because they pass their arguments straight to native.
- A JavaScript callback is a flag "is a function". Arguments are JSON values, so `undefined` has no counterpart; the guards reject it like any other non-string.
- Bridge callbacks are numbers standing for identities. A delivery appends to a log; an exception a callback throws is caught in the source and changes nothing here.
- AndroidSync.StateSync.DispatchState: logs the entries materialised, not the JSON object `materialize` builds from them (that is `AndroidStore.StateStore.Materialize`).
- IosSync.StateSync.ApplySnapshotDict: items without a `version` take `(now, replicaId)` with a single `now` for the whole snapshot, where the source reads the clock per item.
- AndroidRetry.WithRetry and IosRetry.WithRetry: sleeping is a log of delays, and an exception from the sleep itself is not modelled.
  The Android loop logs the corrected `BackoffDelay`; from attempt 56 on (`maxAttempts >= 57`) the code's `calculateBackoffDelay` (`AndroidRetry.BackoffDelayAsWritten`) is negative and its `Thread.sleep` would throw instead.
- AndroidSync.StateSync.HandleDataItem, AndroidSync.ItemSpec, AndroidSync.EventsSpec, AndroidSync.StateSync.HandleEvent, AndroidSync.StateSync.OnDataChanged and AndroidSync.IrrelevantEventsIgnored: items are routed by the anchored `Route`, not by the `path.contains("/op")` test of src/android/StateSync.kt:228 (modelled as `RouteAsWritten`). The two differ only on paths that contain `/op` but do not start with `<base>/op/` (`AndroidSync.RouteAsWrittenAgrees`): with a plugin path such as `/ops` the code hands every item to op decoding, which fails, and an item `<base>/opx` is an op for the code and ignored here.
- IosMerge.MergeSpec, IosMerge.MergeValues, IosMerge.WalkDown, IosMerge.ArrayIndex, IosStore.MaterializeFold, IosStore.MaterializeSnoc, IosStore.MaterializeFoldFacts, IosStore.MaterializeLastLiveVisible, IosStore.MaterializeOrderDependent and IosStore.StateStore.Materialize: `mergeValues` is modelled by the corrected walk `SetAt`, not by the walk of src/ios/StateStore.swift:248-381 as written (`IosMerge.MergeAsWritten`). They agree whenever no array lies on the path (`IosMerge.AsWrittenAgreesWithoutArrays`). With an array on the path, `getAllState` differs in the three cases under "## Findings": a negative index traps in the code, an append below the end loses the array, and a sparse index drops the value.

## Findings

| source | as written | input that shows it | evidently intended | confidence | as-written member | corrected member |
|---|---|---|---|---|---|---|
| src/ios/StateStore.swift:276-289 | `Int(comp)` accepts negative numbers and `idx < arr.count` then indexes with them | component `-1` on the array `[1]` | a negative component is not an index | high; not executed | IosMerge.NegativeIndexTraps | IosMerge.SetAt |
| src/ios/StateStore.swift:298-305 | appending below the end pushes the new dictionary, not the array holding it, onto the parent stack | components `1/x` on the array `[1]` | the array grows to `[1, {x: v}]` | high; not executed | IosMerge.AppendBelowLosesArray | IosMerge.SetAt |
| src/ios/StateStore.swift:307-315 | a sparse index breaks out of the walk even when it is not the last component | components `2/x` on the empty array | `[null, null, {x: v}]` | high; not executed | IosMerge.SparseBelowDropsValue | IosMerge.SetAt |
| src/android/StateSync.kt:228 | op items are recognised by `path.contains("/op")`, which also matches a base path containing `/op` | plugin path `/ops`, item `/ops/state/snapshot` | only `<base>/op/<id>` items are ops | medium; not executed | AndroidSync.RouteAsWrittenMisroutesSnapshot | AndroidSync.RouteClassifiesProtocolPaths |
| src/android/StateStore.kt:158 | `sortedBy { it.path.length }` orders by the raw path, which escaped tokens lengthen, so a parent can sort after a child nested in it | entries `~0~0~0 = {"a": 1}` and `~~~/x = 2` (both address the member `~~~`) | parents applied before children, as the comment at that line says | plausible, only for escaped paths; not executed | AndroidStore.EscapedParentClobbersChild | AndroidStore.MaterializeParentBeforeChild |
| src/android/RetryHelper.kt:58-62 | `500 * 2.0.pow(attempt - 1).toLong()` overflows `Long` and `min` keeps the negative product | attempt 56 (needs `maxAttempts >= 57`) | the 5000 ms cap | low, unreachable with the default of 3 attempts; not executed | AndroidRetry.AsWrittenNegativeAt56 | AndroidRetry.BackoffDelayValues |
