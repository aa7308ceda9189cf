# Models of the engine's log and serving core

These Dafny modules model the parts of the Rust engine (`apps/engine/src`) that decide whether a change
reaches a subscriber exactly once, in order and as the right message, and prove what the comments and
tests there promise. `dafny verify dfyconfig.toml` checks the whole project.

| module | models |
|---|---|
| `ChangeLog`, `ChangeLogWriter`, `Sweep` | the segmented change log: rotation in four durable actions, readers that cross segments, the boot walk, the sweep around pins; first as a machine in which a crash or failure may fall between any two actions, then as the code that takes the actions |
| `Streams`, `Fold`, `Adapter`, `Handle`, `Coalesce`, `ShapeLog`, `Offsets` | the Electric adapter: shape streams read in pages, the three folds over them, the classification of envelopes for a strict client, one handle's requests over whole runs, the shared long-polls |
| `Append` | the two retry loops that append to a shape stream through a service that loses answers |
| `Like`, `Predicate`, `Routing`, `Canonical`, `Template` | predicates: LIKE with backtracking, three-valued evaluation against SQL's, routing, canonical text and signatures, shared templates |
| `Counts` | the counts tier: at-least-once stamped deltas into group counts |
| `Ownership` | the writer-ownership row, claimed, quiesced and promoted by compare-and-set |
| `Params`, `PgOutput`, `PgWire`, `PkDict`, `Histogram` | `$N` substitution, the pgoutput decoder and the bytes it accepts, the key interner, the latency histogram |
| `Basics`, `Values`, `TextOrder` | shared types, cells and truth values, text order |

State that the code updates in place is a class whose methods are tied to a specification function; what
is promised is then proved about that function. Protocols are step relations over a state, with
invariants proved for every run. Asynchronous calls, clocks and the network appear as nondeterministic
steps or as lists of answers given to a method.

Where the code does not do what its comments say, the model follows the code, and the theorem says
exactly when the promise holds:

- `like_match` compares a character with the pattern before it looks for `%` (predicate.rs:556-559), so a
  `%` in the text can use up the pattern's `%`. `Like.CorrectTextIff`, `Like.CorrectPatternIff`.
- An IN leaf differs from SQL for an absent value and for a NULL cell against an empty set
  (predicate.rs:465-478). `Predicate.InLeafAgreesIff`, `Predicate.InLeafDiffers`.
- The snapshot emits a key again if it was deleted and upserted again (electric.rs:546-555).
  `Adapter.SnapshotAcceptedIff`, `Adapter.ReinsertedKeyIsRefused`.
- An upsert without a value enters the key set but not the rows (electric.rs:612-620 against 551).
  `Adapter.ClassifyOneAgreesIff`.
- The fold up to an offset relies on the envelopes' stamps (electric.rs:541); ds.rs:142 says the server
  stamps them and sequencer.rs:1500-1505 that it does not. For every paging the fold goes on to the first
  entry stamped past the offset (`Fold.KeyFoldIsCut`), which is the offset exactly if the stream ends there
  or the next entry is stamped (`Fold.KeyFoldStopsIff`), and a retry is then answered rightly exactly if the
  entries folded too many left the key set as it was (`Handle.RetryIsRightIff`). Without stamps a client can
  keep a deleted row (`Handle.UnstampedRetryKeepsDeletedRow`).
- Substituted literals that touch run together (params.rs:107-126). `Params.ReadsAsReplacedIff`.
- The writer's in-memory segment moves before the catalog records it (changelog.rs:453-454), so a sweep
  between the two can leave a boot without its segment (`ChangeLog.SweptBeforeRecordRefusesBoot`).
- A sweep reads the pins, the floor and the shapes being parked one after the other
  (engine/lifecycle.rs:2073-2083). A shape parked, or a consumer pinned (engine/mod.rs:2701-2724), in
  between can lose its segment (`ChangeLog.ParkedDuringSweepLosesSegment`,
  `ChangeLog.PinnedDuringSweepLosesSegment`). With one sweeper shapes are parked only before it looks at the
  change log (engine/lifecycle.rs:1944-1955); nothing of the kind holds consumers back.
  `ChangeLog.StepKeepsInvIff` gives the exact guard of every step, and a run of the log is one that keeps to
  it.
- The last histogram bucket is open-ended, so the factor of two ends at 2^39 (metrics.rs:76-81).
  `Histogram.QuantileErrorIff`.

## Model

| member | source | states |
|---|---|---|
| ChangeLog.DeliveredIsExact | apps/engine/src/changelog.rs:17-36 | In every run of commits, rotations that fail or leave extra pointers, crashes, boots, guarded sweeps and reads, what a reader delivered is exactly the log's data between its start and its position; from the beginning, a prefix of the log. |
| ChangeLog.RotationIsCrashSafe | apps/engine/src/changelog.rs:441-546 | At every point of every run all segments below the write segment are closed, it is open, above it is at most its empty successor, every pointer names the next segment, and the boot walk from whatever the catalog recorded ends at it (or is too long). |
| ChangeLog.StepKeepsInvIff | apps/engine/src/changelog.rs:362-613 | A writer, reader, pin or sweep step keeps the invariant exactly under its guard: a sweep decides only if every pin that came while it was reading is above what it found and the catalog has recorded a later segment, a consumer's pin comes into force only with nothing from its segment on deleted or doomed; every other step always does. |
| ChangeLog.RunKeepsInv | apps/engine/src/changelog.rs:362-613 | So the invariant holds after every run that keeps to the guards. |
| ChangeLog.PinAtCheckpointIsGuarded | apps/engine/src/engine/mod.rs:2698-2724 | A consumer pin at or past the segment of the durable checkpoint always comes into force well. |
| ChangeLog.ParkedDuringSweepLosesSegment | apps/engine/src/engine/lifecycle.rs:2071-2104 | A run in which a shape captured before the pins are read, and parked before the parking test, has the segment it will replay from deleted. |
| ChangeLog.PinnedDuringSweepLosesSegment | apps/engine/src/engine/mod.rs:2701-2724 | A run in which a consumer's pin is accepted on a known segment and comes into force after that segment is deleted. |
| ChangeLog.SweptBeforeRecordRefusesBoot | apps/engine/src/changelog.rs:501-546 | A run - sweep between the writer's switch and its record, then a crash - after which no boot succeeds. |
| ChangeLog.WriterKeepsShape | apps/engine/src/changelog.rs:362-472 | A writer step, at any stage of a rotation, keeps the log's shape and only adds at the write segment. |
| ChangeLog.BootKeepsShape | apps/engine/src/changelog.rs:501-546 | A boot keeps the shape and adopts the write segment. |
| ChangeLog.WalkFindsWriteSeg | apps/engine/src/changelog.rs:517-546 | From any stored segment at or below it the walk ends at the write segment, exactly if that is less than the bound away. |
| ChangeLog.ResolveFindsWriteSeg | apps/engine/src/changelog.rs:517-546 | The same for `resolve_current` and its own bound. |
| ChangeLog.CrossingIsNext | apps/engine/src/changelog.rs:474-499 | By pointer or by number, a reader leaves a closed segment for the next one, and that is never past the write segment. |
| ChangeLog.ReaderCanGoOn | apps/engine/src/changelog.rs:474-499 | In every run a reader's segment is stored, and its successor too once it is closed. |
| ChangeLog.CommitsLandOnWriteSeg | apps/engine/src/changelog.rs:345-386 | A commit adds its data at the end of the log, on the write segment and nowhere else. |
| ChangeLog.DeletionIsSafe | apps/engine/src/engine/lifecycle.rs:1990-2107 | In every run that keeps to the guards, with the sweep's three reads as separate steps, a step that deletes a segment deletes one below the checkpoint, the write segment, the recorded segment, every pin and every position about to become one. |
| ChangeLog.HeldPositionsCanReplay | apps/engine/src/engine/lifecycle.rs:1990-2107 | In every such run all segments from the checkpoint, and from each surviving pin, to the write segment are stored. |
| ChangeLog.ReplayingPinStays | apps/engine/src/changelog.rs:548-560 | A pin in use by a replay is never evicted; it goes only when the replay ends, and does not move before. |
| ChangeLog.BootNeedsRecordedSegment | apps/engine/src/changelog.rs:501-546 | The walk from a recorded segment succeeds exactly if every segment from it to the write segment is still stored. |
| ChangeLogWriter.Writer.Rotate | apps/engine/src/changelog.rs:430-458 | However it ends, storage is as after some number of its three actions, in order, a lost answer included; only when all three are acknowledged do the state and the catalog hear of it - the old segment is then closed behind a pointer to its stored successor, all else as before - and otherwise nothing volatile has changed. With every request answered the rotation of an open segment succeeds. |
| ChangeLogWriter.Writer.ResolveForward | apps/engine/src/changelog.rs:460-471 | The writer moves to where the closed segments lead, with a start time for every segment passed and a record of every rotation; if the walk or one of its requests fails, it stays. With every request answered it ends as the walk does. |
| ChangeLogWriter.Writer.AppendCommit | apps/engine/src/changelog.rs:345-386 | Success: the commit landed once and whole at the end of the one open segment the closed ones lead to. A failed append: it is there once or nowhere. Any other error: nowhere. With every request answered, and storage not denying an open segment, it succeeds whenever closed segments lead to an open one within the bound. |
| ChangeLogWriter.ResolveCurrentSegment | apps/engine/src/changelog.rs:517-546 | The loop of head requests gives the specified walk's answer if every request is answered, and reports the failure if one is not. |
| ChangeLogWriter.InitChangeLog | apps/engine/src/engine/mod.rs:2188-2240 | A boot that succeeds adopts the open segment the closed ones lead to from the recorded one, with every segment in between begun and exactly the unrecorded ones reported, ascending, and the sequencer's start is stored; one that fails adopts nothing. With every request answered the tail is known, and it fails only if the walk does or the start is not stored. |
| ChangeLogWriter.DeleteSegments | apps/engine/src/engine/lifecycle.rs:2091-2104 | Only doomed segments are touched, and a segment is forgotten only once it is no longer stored; with every request answered no doomed segment is left. |
| ChangeLogWriter.WalkMeaning | apps/engine/src/changelog.rs:517-546 | A segment found is open, or is the never-recorded first one that does not exist yet, and everything before it is closed; each error likewise says what was met - the first segment missing, a closed one without a successor, or nothing but closed ones within the bound. |
| ChangeLogWriter.WalkReaches | apps/engine/src/changelog.rs:517-546 | If closed segments lead to an open one within the bound, the walk finds it. |
| ChangeLogWriter.RotationStepsAreActions | apps/engine/src/changelog.rs:441-458 | Each rotation step of the machine has on storage the effect of the corresponding action of the code. |
| ChangeLogWriter.RotationIsRotateEffect | apps/engine/src/changelog.rs:441-458 | Each rotation step of the machine, taken where some actions of the code's rotation have led, leads to what one action more leaves in storage. |
| ChangeLogWriter.Storage.AppendChecked | apps/engine/src/ds.rs:1134-1180 | Landed: all items are at the end of the open stream. Retired: nothing landed. Failed: once and whole, or not at all. |
| Sweep.PlanSegmentDeletion | apps/engine/src/changelog.rs:582-613 | A shape is evicted exactly if it has a releasable pin on a closed segment whose known successor began at least the retain time ago; deleted, ascending, are exactly the known segments below the checkpoint, the current segment and every other pin. |
| Sweep.Floor | apps/engine/src/changelog.rs:610 | The floor is the least of the checkpoint and the surviving pins. |
| Sweep.SecondPlanCountsEveryPin | apps/engine/src/engine/lifecycle.rs:2071-2081 | Whatever segments, floor and pins there are by then, the second plan never passes a pin; what the first proposed it deletes exactly if no pin is in the way; it deletes more only where the floor has risen or a pin has gone; an unevictable pin is never evicted. |
| Sweep.PlanIsMachinePlan | apps/engine/src/engine/lifecycle.rs:2073-2081 | With the pins a sweep of the machine read, what the plan deletes are the candidates it finds on reading the floor. |
| Streams.PageExtends | apps/engine/src/electric.rs:480-486 | A page takes the replayed rows from its offset to the next one, wherever the page boundaries fall. |
| Streams.ServesStable | apps/engine/src/electric.rs:480-486 | What is appended later does not change what a page said. |
| Streams.RepeatedBatchChangesNothing | apps/engine/src/ds.rs:1182-1188 | Appending a batch again leaves the key-to-row map as it was. |
| Fold.StreamFold.ApplyPage | apps/engine/src/electric.rs:538-570 | The fold object after a page is the specified fold's state after it. |
| Fold.StreamFold.DriveFold | apps/engine/src/electric.rs:573-581 | So after all pages asked for, and it stops asking only when done. |
| Fold.SnapshotIgnoresPaging | apps/engine/src/electric.rs:538-581 | Rows and order are those of folding the stream in one piece, for every split into pages. |
| Fold.SnapshotIsAsOf | apps/engine/src/electric.rs:583-589 | A snapshot's rows are the stream's rows as of the offset it returns. |
| Fold.SnapshotReadsOn | apps/engine/src/electric.rs:538-581 | The snapshot folds the envelopes of exactly the answers up to the first that is up to date, closed or leads nowhere, stands at the last next offset among them, and is done exactly if there is one. |
| Fold.KeyFoldIsCut | apps/engine/src/electric.rs:538-571 | For every split into pages the key fold has folded exactly the entries the pages reach, up to the first one stamped past the target. |
| Fold.KeyFoldIsAsOf | apps/engine/src/electric.rs:591-595 | The finished key fold, for every split into pages, has the keys of the stream up to the target if the stream ends there or goes on with a stamped entry; read to the end, it has the keys up to the cut wherever that is. |
| Fold.KeyFoldStopsIff | apps/engine/src/electric.rs:538-545 | The cut is never before the target, and at it exactly if the stream ends there or the next entry is stamped. |
| Fold.AllTargetsAreMetIff | apps/engine/src/electric.rs:538-545 | Every target is met exactly if every entry is stamped. |
| Fold.UnstampedFoldOverruns | apps/engine/src/electric.rs:538-545 | An unstamped upsert and delete of a key: the key set as of the upsert comes out empty. |
| Fold.SnapshotEmitsPerInsertion | apps/engine/src/electric.rs:534-555 | A live key is emitted as often as it was inserted, other keys never. |
| Fold.SnapshotInInsertionOrder | apps/engine/src/electric.rs:534-555 | What a snapshot emits are the keys of the envelopes that took an absent key to present, in the order of the stream, but for those not live at the end. |
| Fold.OrderIsInsertionOrder | apps/engine/src/electric.rs:546-555 | The order list holds the keys of all such envelopes, in the order of the stream. |
| Fold.ShapeRows | apps/engine/src/http.rs:1386-1408 | The rows preview's loop computes the specified loop over pages. |
| Fold.RowsLoopIsFold | apps/engine/src/http.rs:1386-1408 | The preview ends on the same page with the same rows and offset as the snapshot fold. |
| ShapeLog.GetShapeLog | apps/engine/src/http.rs:1308-1366 | Over the pages read, the total counts every envelope and the entries are the last `limit` of the specified ones. |
| ShapeLog.LogLimit | apps/engine/src/http.rs:1323 | The limit is what is asked for up to 500, 500 above that, and 50 if nothing is asked. |
| ShapeLog.EntryByLastEnvelope | apps/engine/src/http.rs:1337-1348 | An entry is an update exactly if the last envelope before it on its key was no delete; a delete without an old image gives the value that envelope carried. |
| ShapeLog.WalkedReadsOn | apps/engine/src/http.rs:1330-1366 | The preview reads the same answers: up to the first that is up to date, closed or leads nowhere. |
| ShapeLog.LogTellsTheMessages | apps/engine/src/http.rs:1337-1348 | From the same live keys the preview ends with the adapter's key set, and its entries without the deletes of absent keys tell the operations, keys and values of the adapter's messages. |
| Adapter.ApplyChanges | apps/engine/src/electric.rs:597-624 | The loop edits the key set and emits the messages of the specified classification. |
| Adapter.ClassifyForClient | apps/engine/src/electric.rs:597-624 | A strict client holding the rows behind the key set accepts every message and ends with the replayed rows, whose keys are the new key set. |
| Adapter.MessagesFollowEnvelopes | apps/engine/src/electric.rs:597-624 | In order, each upsert and each delete of a key that is there has one message with its key, its row and its transaction; it is an update exactly for an upsert of a key whose last envelope, or else the key set, has it. |
| Adapter.ClassifyIsRightIff | apps/engine/src/electric.rs:597-624 | Made from any key set, the messages take a strict client where the envelopes lead exactly if that key set and the client agree on every key the envelopes speak of. |
| Adapter.ClassifyOneAgreesIff | apps/engine/src/electric.rs:597-624 | Per envelope: the client follows exactly if it is a delete or carries a value; the key set, also if the key is already there. |
| Adapter.SnapshotAcceptedIff | apps/engine/src/electric.rs:983-1003 | A strict client accepts the snapshot exactly if no live key was inserted twice, and then holds the folded rows. |
| Adapter.ReinsertedKeyIsRefused | apps/engine/src/electric.rs:546-555 | Insert, delete, insert of one key: the snapshot holds it twice and a strict client refuses it. |
| Handle.HandleState.Resync | apps/engine/src/electric.rs:775-781 | Only a different offset re-folds the key set; keys and offset move together. |
| Handle.HandleState.Commit | apps/engine/src/electric.rs:798-846 | A closed page changes nothing; any other moves keys and offset together and answers with the classified messages. |
| Handle.PollLiveUntil | apps/engine/src/electric.rs:723-762 | If the first answers are pages that settle nothing and the next is one that does, that page is returned, with the offset it was asked from, which is the last next offset before it; if a deadline comes instead, the page before it, or none, and that same offset. |
| Handle.PollEndsThere | apps/engine/src/electric.rs:723-762 | There is one such point in every list of answers: what it is decides page and offset, whatever comes after it. |
| Handle.PollIsOneRead | apps/engine/src/electric.rs:713-762 | Its empty pages pass over nothing: the page returned is one read from an offset equivalent to the requested one. |
| Handle.StepKeepsInv | apps/engine/src/electric.rs:768-846 | Every step of a request, cancellation at either wait included, keeps the handle's invariant, if key sets are rebuilt only for offsets the fold can see. |
| Handle.KeySetFollowsOffset | apps/engine/src/electric.rs:768-846 | After every such run, whichever pages of a closed stream are marked closed, the key set is the stream's key set as of the stored offset, and every response is right for a client at the offset it asked for. |
| Handle.StrictClientNeverRefuses | apps/engine/src/electric.rs:768-846 | In every such run a strict client following any chain of responses refuses nothing and ends with the rows as of the last offset served. |
| Handle.RetryIsRightIff | apps/engine/src/electric.rs:775-846 | After a re-fold read to the end, a page past the cut is answered rightly exactly if the entries folded past the offset left the key set as it was. |
| Handle.UnstampedRetryKeepsDeletedRow | apps/engine/src/electric.rs:775-846 | A run on an unstamped stream whose retry leaves a client holding a deleted row. |
| Coalesce.SlotMap.Join | apps/engine/src/electric.rs:671-681 | One locked edit is the protocol's election: who is told to wait waits on a leader of its own offset that still owns the slot, who is not is the only leader there, and the invariant is kept. |
| Coalesce.SlotMap.Leave | apps/engine/src/electric.rs:684-692 | Leaving is the protocol's unregistering or cancellation: the offset has no slot any more and the invariant is kept. |
| Coalesce.StepKeepsInv | apps/engine/src/electric.rs:661-711 | Arrival, work, publication, cancellation, unregistering and re-election each keep the protocol's invariant. |
| Coalesce.OneLeaderPerSlot | apps/engine/src/electric.rs:661-711 | An offset has a slot exactly while a leader at it lives, and never two leaders. |
| Coalesce.ReturnsArePublished | apps/engine/src/electric.rs:661-711 | A request returns only a result that a leader published at the same offset. |
| Coalesce.NoWaiterStranded | apps/engine/src/electric.rs:661-711 | Each waiter has a live leader, a value to take, or re-election open to it. |
| Coalesce.LeadersFinish | apps/engine/src/electric.rs:683-696 | A leader whose work ended gets nearer to closing its channel with each of its steps, and nobody else delays it. |
| Offsets.OffsetTestsAreStreamOrder | apps/engine/src/electric.rs:467-478 | On the service's zero-padded offsets `offset_after` is stream order, and log positions order by segment, then by stream order. |
| Offsets.TextOrderIsStreamOrder | apps/engine/src/changelog.rs:69-79 | Comparing two offset texts is comparing the positions, `-1` below all. |
| Offsets.OffsetBytesReadsBack | apps/engine/src/changelog.rs:159-172 | The byte position is read back from every offset the service writes, and a number is read exactly from sixteen bytes, the first underscore and sixteen digits. |
| Append.StreamClient.AppendReliable | apps/engine/src/ds.rs:1205-1247 | Whatever the service does, the stream gains the batch as often as it landed and nothing else; only an acknowledgement counts bytes; an empty batch succeeds without a request. |
| Append.StreamClient.AppendRetrying | apps/engine/src/ds.rs:1084-1132 | The same for the bounded retry, with the ending the rounds call for. |
| Append.ReliableLosesNothing | apps/engine/src/ds.rs:1182-1247 | Success means readers see the rows as with the batch once; giving up means a gone answer the reconciler confirmed; readers never see anything but without or with the batch. |
| Append.ReliableEndsForCause | apps/engine/src/ds.rs:1205-1247 | The loop ends with the first round that is acknowledged, or gone with the reconciler's consent, and with that result; it goes on exactly while there is none. |
| Append.RetryEndsForCause | apps/engine/src/ds.rs:1066-1132 | The bounded retry goes on exactly while rounds are transient, in time and not stopped; the first other round gives the ending, each ending exactly for its cause. Gone for good means storage itself said so on that round's head request. |
| Append.RetryOutlastsOutage | apps/engine/src/ds.rs:1066-1132 | Through any number of unavailable answers and false 404s the first acknowledgement ends it, with the batch seen once. |
| Like.LikeMatch | apps/engine/src/predicate.rs:550-575 | The loop terminates; acceptance implies a LIKE match, and without a `%` in the text, or in the pattern, it decides LIKE. |
| Like.CorrectTextIff | apps/engine/src/predicate.rs:550-575 | A text is matched rightly against every pattern exactly if it holds no `%`. |
| Like.CorrectPatternIff | apps/engine/src/predicate.rs:550-575 | A pattern is matched rightly against every text exactly if it holds no `%`. |
| Like.AcceptsOnlyMatches | apps/engine/src/predicate.rs:550-575 | Whatever the inputs, an accepted text is a LIKE match. |
| Like.Complete | apps/engine/src/predicate.rs:550-575 | Backtracking only to the last `%` loses nothing: a match owed at any loop state is found. |
| Like.Sound | apps/engine/src/predicate.rs:550-575 | Success from any loop state means that the rest matches there or from the last `%`. |
| Like.SpoilingPattern | apps/engine/src/predicate.rs:556-559 | For every text with a `%`, a pattern whose match is missed. |
| Like.SpoilingText | apps/engine/src/predicate.rs:556-559 | For every pattern with a `%`, a text whose match is missed. |
| Predicate.MatchesIsSqlWhere | apps/engine/src/predicate.rs:416-480 | Under per-leaf guards the engine keeps exactly the rows for which SQL's WHERE is TRUE, for every predicate. |
| Predicate.MatchesWithoutInUnderNot | apps/engine/src/predicate.rs:416-480 | In particular with no IN under a NOT and no NULL cell against an empty set. |
| Predicate.AgreesAt | apps/engine/src/predicate.rs:424-480 | AND, OR and NOT carry agreement on one truth value up from leaves that may differ on the others. |
| Predicate.InLeafAgreesIff | apps/engine/src/predicate.rs:463-478 | An IN leaf selects SQL's rows, alone or under NOT, exactly under a guard on the cell and the set. |
| Predicate.InLeafDiffers | apps/engine/src/predicate.rs:463-478 | An absent value against a set with NULL under NOT, and a NULL cell in NOT IN of an empty set, are decided otherwise than SQL does. |
| Predicate.SubqueryFreeIsSql | apps/engine/src/predicate.rs:424-480 | Without subqueries the truth values are SQL's, all three. |
| Predicate.EvalAndMeaning | apps/engine/src/predicate.rs:436-447 | The short-circuiting AND is FALSE exactly if some operand is, TRUE exactly if all are. |
| Predicate.EvalOrMeaning | apps/engine/src/predicate.rs:448-459 | Dually for OR. |
| Predicate.CmpAgrees | apps/engine/src/predicate.rs:506-546 | A comparison leaf is SQL's on values of one kind, with NULL UNKNOWN: numbers by size, FALSE before TRUE, texts by their first difference. |
| Predicate.CompareTextIs | apps/engine/src/predicate.rs:506-546 | Texts compare as their first difference says, in all three outcomes. |
| Routing.EqualityTemplate | apps/engine/src/predicate.rs:336-355 | The collecting, sorting and duplicate test give the specified template. |
| Routing.TemplateIsKey | apps/engine/src/predicate.rs:328-355 | A shape with a template matches a row exactly if the row's projection is its key; columns strictly increase, no value is NULL. |
| Routing.TemplateExistsIff | apps/engine/src/predicate.rs:328-355 | A template exists exactly for a conjunction, however nested, of at least one equality with a value that is not NULL, no two on one column. |
| Routing.TemplateHoldsConjuncts | apps/engine/src/predicate.rs:336-355 | It holds the columns and values of those equalities and no others. |
| Routing.FindAccessLeaf | apps/engine/src/predicate.rs:358-407 | The recursive search returns the specified leaf. |
| Routing.AccessLeafIsNecessary | apps/engine/src/predicate.rs:358-407 | A matching row makes the leaf TRUE; the leaf is a conjunct's; an equality is returned exactly if some conjunct is one with a value that is not NULL, nothing exactly if none is such an equality or an order comparison. |
| Routing.LeafIsExact | apps/engine/src/predicate.rs:368-382 | A lookup by a leaf finds exactly the rows on which its comparison is TRUE. |
| Routing.ConjunctIsNecessary | apps/engine/src/predicate.rs:358-407 | A matching row matches every conjunct, however nested the ANDs. |
| Routing.BuildFilesOnce | apps/engine/src/predicate.rs:328-407 | The index files a shape under its own slot and no other. |
| Routing.RoutingIsScan | apps/engine/src/predicate.rs:328-407 | Key lookup, leaf lookup and fallback together find exactly the shapes a full scan finds. |
| Canonical.CanonIsSound | apps/engine/src/predicate.rs:99-125 | Clauses with one canonical text have the same truth value on every row of every database. |
| Canonical.SigIsSound | apps/engine/src/predicate.rs:127-131 | Subqueries with one signature have the same value set. |
| Canonical.ReadBack | apps/engine/src/predicate.rs:99-125 | Canonical text determines the clause up to the order of operands, and where it ends. |
| Canonical.CanonIff | apps/engine/src/predicate.rs:99-125 | Two clauses have one text exactly if they are the same but for the order of AND and OR operands, at any depth and inside subqueries; no operand is dropped or repeated. |
| Canonical.SigIff | apps/engine/src/predicate.rs:127-131 | Two subqueries share a node exactly if they are the same in that sense. |
| Canonical.SigReadBack | apps/engine/src/predicate.rs:127-131 | So does a signature. |
| Canonical.LitReadBack | apps/engine/src/predicate.rs:103-105 | A literal's text determines the literal. |
| Canonical.AlikeMeansEqual | apps/engine/src/predicate.rs:107-116 | Reordering AND and OR operands keeps all three truth values. |
| Template.SubqueryTemplate | apps/engine/src/predicate.rs:146-185 | Flattening, lifting and the two sorts give the specified template. |
| Template.TemplateKeepsMeaning | apps/engine/src/predicate.rs:133-185 | The AND of lifted equalities and residual has the WHERE's three-valued value on every row. |
| Template.TemplateIgnoresOrder | apps/engine/src/predicate.rs:133-185 | The same conjuncts in any order and nesting give one key and one bind. |
| Template.ShufflingKeepsTemplate | apps/engine/src/predicate.rs:151-185 | In particular permuting or re-nesting a top-level AND. |
| Template.TemplateIsSound | apps/engine/src/predicate.rs:133-185 | One key and one bind mean the same table and projection, the same truth values and the same value set. |
| Template.TemplateIgnoresLiterals | apps/engine/src/predicate.rs:133-185 | Subqueries whose conjuncts differ only in the literals (not NULL) of equalities alone on their column have one key. |
| Template.BindIsLeast | apps/engine/src/predicate.rs:163-177 | The bind holds, for a column, the literal of its equality whose canonical text comes first among the top-level equalities with a literal that is not NULL, and nothing else. |
| Template.BindNames | apps/engine/src/predicate.rs:163-179 | The bound columns are exactly those with such an equality, sorted by name, each once. |
| Template.SameKeyIff | apps/engine/src/predicate.rs:133-185 | One key exactly for the same table, projection, bound columns and multiset of residual texts. |
| Template.LiftPartitions | apps/engine/src/predicate.rs:163-177 | Lifting neither loses nor invents a conjunct. |
| Template.FlatteningKeepsMeaning | apps/engine/src/predicate.rs:151-162 | Flattening nested ANDs keeps the value. |
| Template.ConjunctsAre | apps/engine/src/predicate.rs:151-162 | The conjuncts are the clauses below nothing but ANDs, each as often as it stands there; none is an AND. |
| Counts.Circuit.Batch | apps/engine/src/arrangements.rs:299-333 | A batch raises the mark, integrates exactly the new deltas into every known table, and reports exactly the groups whose count changed, by new minus old. |
| Counts.Circuit.Serve | apps/engine/src/arrangements.rs:297-333 | After a run of batches every table holds the specified counts, and the published changes, added up, lead from the counts before to the counts after. |
| Counts.Circuit.Admit | apps/engine/src/arrangements.rs:302-310 | A delta is new exactly if its stamp is above the mark, or it has none; only a new stamp raises the mark. |
| Counts.DrainTable | apps/engine/src/arrangements.rs:266-287 | A table's output is exactly the changed groups with new minus old. |
| Counts.CountGroups | apps/engine/src/arrangements.rs:215-240 | Every group with its count, each once, none with zero. |
| Counts.ExactlyOnce | apps/engine/src/arrangements.rs:289-333 | For every gapless at-least-once delivery and every cut into batches, what is applied is the log up to the furthest delivered change, once and in order. |
| Counts.AcceptedAre | apps/engine/src/arrangements.rs:301-310 | In any log, stamped or not, exactly the deltas without a stamp, and those with one above the mark and above every stamp before, are applied, in their order. |
| Counts.AcceptRun | apps/engine/src/arrangements.rs:301-310 | An attempt from within the delivered part has its repeats dropped and the rest applied. |
| Counts.BatchingIsIrrelevant | apps/engine/src/arrangements.rs:299-318 | The filter's result does not depend on the batches. |
| Counts.CountsAfterAdds | apps/engine/src/arrangements.rs:289-333 | Counting batch by batch, carrying the mark, adds up to counting everything accepted. |
| Counts.DeltaMovesGroupBy | apps/engine/src/arrangements.rs:262-287 | A delta between two tables moves each group's count by the difference of their GROUP BYs. |
| Counts.SeedIsGroupBy | apps/engine/src/arrangements.rs:334-352 | Seeding by weighted groups is seeding by rows. |
| Counts.CountsEqualGroupBy | apps/engine/src/arrangements.rs:266-352 | Seeded, and after a run of batches that make up an at-least-once delivery, the counts are the batch GROUP BY over the table as it then is. |
| Ownership.OwnershipTable.ClaimOrObserve | apps/engine/src/deployment.rs:130-155 | Undisturbed, a claim is granted exactly if the row is then active for the revision; the row is written exactly if it is absent, on bootstrap. |
| Ownership.OwnershipTable.QuiesceOwner | apps/engine/src/deployment.rs:161-197 | Undisturbed, a quiesce is granted exactly if the row is then quiesced for that owner, generation, handoff and receipt; the row is written exactly if it is active for that owner and generation. |
| Ownership.OwnershipTable.PromoteSuccessor | apps/engine/src/deployment.rs:199-237 | Undisturbed, a promote is granted exactly if the row is then the successor's next generation; the row is written exactly if it is quiesced for that owner and generation with that handoff and receipt. |
| Ownership.StepKeepsInv | apps/engine/src/deployment.rs:130-237 | Statement, late statement, lost answer and separate read, of any number of calls, keep the invariant. |
| Ownership.VersionIsGenerationAndPhase | apps/engine/src/deployment.rs:130-237 | Each generation is active for one version of the row and then quiesced for one. |
| Ownership.GenerationRisesByPromoteOnly | apps/engine/src/deployment.rs:199-237 | The generation rises only by one, and only by a promote naming the recorded owner, generation, handoff and receipt. |
| Ownership.OneOwnerPerGeneration | apps/engine/src/deployment.rs:130-237 | One owner per generation, for all time. |
| Ownership.OneSuccessorPerGeneration | apps/engine/src/deployment.rs:199-237 | Promotes granted from one generation name the same successor, handoff and receipt and got the same row. |
| Ownership.OneActiveRevisionPerGeneration | apps/engine/src/deployment.rs:130-237 | Claims and promotes granted in one generation got the same row. |
| Ownership.GrantedMeansHeld | apps/engine/src/deployment.rs:130-237 | A granted call: the row was as asked at an instant between its start and its answer. |
| Ownership.ConflictMeansNotHeld | apps/engine/src/deployment.rs:161-237 | A conflict: at an instant the statement found nothing to change and at a later one the row was not as asked. |
| Ownership.RefusalTells | apps/engine/src/deployment.rs:130-237 | A refused claim stands by with the row as it was at an instant of the call, not the claimant's then; a refused quiesce or promote is a conflict. |
| Ownership.RetryIsGranted | apps/engine/src/deployment.rs:181-197 | A call whose answer was lost can be sent again: while the row is still as asked, nothing changes and the same row is granted. |
| Ownership.LateStatementCounts | apps/engine/src/deployment.rs:130-237 | A call given up once sent may still take effect: the row is then as it asked, and sending it again is granted that row. |
| Params.Substitute | apps/engine/src/params.rs:84-133 | The quote-aware scan writes the text of the input's tokens, or fails on the first unbound placeholder. |
| Params.EmitFailsIffUnbound | apps/engine/src/params.rs:78-133 | It fails exactly if some unquoted placeholder is unbound, and names one that is. |
| Params.PlaceholderReads | apps/engine/src/params.rs:107-126 | A dollar sign and the longest run of decimal digits after it are a placeholder; without a digit it stands for itself. |
| Params.ReadsAsReplacedIff | apps/engine/src/params.rs:78-133 | The output reads as the input's tokens with each placeholder replaced by one literal exactly if no placeholder touches a literal or another placeholder. |
| Params.LiteralUnescapes | apps/engine/src/params.rs:115-122 | That literal stands for the bound value. |
| Params.TouchingPlaceholders | apps/engine/src/params.rs:107-126 | `$1$2` comes out as one literal, with a quote between the values. |
| Params.QuoteValue | apps/engine/src/params.rs:115-122 | The writing loop gives the value in quotes with every quote doubled. |
| PgOutput.Decode | apps/engine/src/pgoutput.rs:74-139 | The cursor program gives what the grammar of the messages gives, errors included. |
| PgOutput.Reader.ReadCStr | apps/engine/src/pgoutput.rs:167-178 | The bytes up to the NUL, which is passed too; unterminated otherwise; never past the end. |
| PgOutput.Reader.ReadTuple | apps/engine/src/pgoutput.rs:179-200 | The tuple the grammar gives, none for a negative count; never past the end. |
| PgOutput.Reader.TakeN | apps/engine/src/pgoutput.rs:147-154 | The next bytes, or an error that leaves the cursor. |
| PgOutput.DecodeUndoesEncode | apps/engine/src/pgoutput.rs:74-201 | Decoding the encoding of any message in range, with any bytes after it, gives the message and leaves those bytes. |
| PgWire.ReadsExactlyMessages | apps/engine/src/pgoutput.rs:74-201 | The decoder reads a message, and leaves what it leaves, exactly where the bytes are that message in the formats' terms; everything else - a wrong marker, an unknown cell, a negative length, too few bytes - is an error. |
| PgOutput.CutOffIsError | apps/engine/src/pgoutput.rs:74-201 | Every strict prefix of an encoding is an error. |
| PgOutput.MessageKept | apps/engine/src/pgoutput.rs:74-201 | Bytes added after a readable message never change what is read. |
| PkDict.Dict.GetOrInsert | apps/engine/src/pk_dict.rs:60-79 | An old key changes nothing, a new one goes to the end of the reverse table; the tables stay inverse, and the id resolves to the key, exactly if the key was old or the next id fits 32 bits. |
| PkDict.Dict.Get | apps/engine/src/pk_dict.rs:81-87 | An id exactly for the keys already interned, and that id resolves to the key. |
| PkDict.Dict.ResolveId | apps/engine/src/pk_dict.rs:89-96 | A key exactly for the ids minted, and that key's id is the one asked for. |
| PkDict.MintKeepsInverseIff | apps/engine/src/pk_dict.rs:73-78 | Minting keeps the tables inverse exactly while the id fits 32 bits. |
| PkDict.StepKeepsInv | apps/engine/src/pk_dict.rs:62-79 | Every stage of every thread's call keeps the tables' invariant, and ids are only added. |
| PkDict.ReturnedIdsAreForever | apps/engine/src/pk_dict.rs:60-96 | An id once returned resolves to its key in every later state, and same key means same id for all threads and times. |
| PkDict.ReadersSeeInverses | apps/engine/src/pk_dict.rs:41-49 | Whenever the forward table can be read the tables are inverses, ids dense from 0. |
| PkDict.CallsFinish | apps/engine/src/pk_dict.rs:60-79 | No call blocks for ever: while one is under way some call has a step to take, and every such step leaves fewer. |
| PkDict.OneKeyTooMany | apps/engine/src/pk_dict.rs:73-78 | After 2^32 keys the next one gets id 0, which resolves to the first. |
| Histogram.Hist.Record | apps/engine/src/metrics.rs:30-35 | The buckets, count, sum and maximum are those of the samples with the new one added. |
| Histogram.Hist.Quantile | apps/engine/src/metrics.rs:37-51 | The value is the bucket bound of the sample of the target rank; 0 with no samples, the last bound beyond the count. |
| Histogram.RankFindsBucket | apps/engine/src/metrics.rs:37-51 | The bucket where the running count reaches a rank is that of the sample of that rank. |
| Histogram.TargetIs | apps/engine/src/metrics.rs:37-51 | The rank is the least number not below quantile times count, and 1 at least. |
| Histogram.BitsBetweenPowers | apps/engine/src/metrics.rs:76-81 | Bit length tied to powers of two. |
| Histogram.QuantileErrorIff | apps/engine/src/metrics.rs:37-81 | For a quantile in (0, 1] a sample of the rank exists, and the value is above it and at most twice it (1 for 0) exactly if it is below 2^39; otherwise 2^39. |

## Left out

- ChangeLog: segment numbers are unbounded, a 32-bit wrap of them is not modelled; the checkpoint a sweep writes when there is no sequencer is absent; consumers name offsets that exist.
- ChangeLog.DeliveredIsExact: for runs that keep to the guards; `ChangeLog.StepKeepsInvIff` says that nothing less will do.
- Handle.KeySetFollowsOffset: for streams whose upserts carry values and whose pages carry a next offset, and for key sets rebuilt at offsets where the stream ends or goes on with a stamped entry.
- Handle.StepKeepsInv: storage marks pages of a closed stream as closed either all, or those that reach the end; a read and the edit that follows it are one step.
- Coalesce.LeadersFinish: that the leader's own work ends is not claimed; it waits on the network.
- Canonical.CanonIsSound: identifiers are free of the separators `,()|`, only quotes and backslashes are escaped in text literals, and JSON arrays and objects as literals are absent.
- Template.SameKeyIff: for columns with a name that is not empty.
- Predicate.MatchesIsSqlWhere: floats are reals, so NaN and infinities are absent; comparison guards exclude operands of different kinds.
- Adapter.ApplyChanges: the JSON encoding of messages; a delete without a value is one that carries the key in its place.
- Counts.CountsEqualGroupBy: the dataflow library is its relation of weighted counts, and its step never fails; the order in which groups are reported is not modelled.
- Append.ReliableLosesNothing: one writer for each shape stream; sizes are counted in envelopes, back-off times are absent.
- Ownership.GenerationRisesByPromoteOnly: generations are unbounded; an SQL statement is one atomic step; database errors are lost answers.
- PgOutput.Decode: strings are their bytes, so what lossy decoding does to malformed UTF-8 is absent, as is reserving memory for the announced count.
- PgOutput.DecodeUndoesEncode: flag bits of a column other than the key bit, and truncate options, are dropped by the decoder.
- PkDict.Dict.GetOrInsert: lock poisoning is absent.
- Histogram.Hist.Quantile: the product of quantile and count is exact, counters do not wrap, and readers see whole records.
- Fold.ShapeRows: the order and cut of the rows preview.
- `rotation_target`'s fallback to the path form and the rotation policy (sizes, ages): configuration with one-line claims.
- `validate_param_keys` and `parse_params`: they check the keys' form only; a key written `01` or `+1` passes and leaves `$1` unbound, which `Params.EmitFailsIffUnbound` reports.
- `compile_with`'s coercion of literals and its errors: the models start from compiled predicates.
- Page-size caps (`cap_after_breach` and what follows it): limits with easy claims.
- `engine.rs`, retention policy, replication and the subquery registry: not part of this model.
- HTTP, authentication, tracing, configuration, memory estimates and readiness: plumbing.
