# A verified model of the chat server's storage and delivery protocols

The server keeps messages in an ordered key-value store and everything else in a relational one.
On top of them it runs several small protocols. This project models those protocols in Dafny and
proves what they keep over every run, which of their promises hold on all inputs, and, where one
does not, the exact condition under which it does.

| file | what it models |
|---|---|
| `Bytes.dfy`, `Keys.dfy` | 64-bit ids as big-endian bytes, byte order, and the key families of the message store |
| `Journal.dfy` | the message store as a log of writes, its leased id allocator, and runs with crashes that lose any suffix of the log |
| `LostWrites.dfy` | the message store and the projected rows of the other store together, when crashes lose messages and leases |
| `MsgDb.dfy` | the store as the server updates it: allocation, batches, markers and range scans over byte keys |
| `History.dfy` | the paged time-window search over one conversation |
| `DeferredDm.dfy`, `DeferredStore.dfy`, `DeferredAnswers.dfy` | deferred direct messages: markers, projection, identities, envelopes, with concurrent reconcilers and crashes; what each request answers and stores |
| `BotOutbox.dfy`, `BotDeliveries.dfy`, `BotOutboxRuns.dfy` | the direct messages a Bot sends, the catch-up when its recipient publishes keys later, who gets what from them, and runs of both with crashes |
| `PrekeyClaims.dfy` | concurrent claims on a pool of one-time prekeys |
| `BotVault.dfy`, `BotRenewals.dfy`, `BotStore.dfy` | a Bot's key vault beside the keys published for it, and what each renewal of them leaves |
| `MlsRouting.dfy`, `MlsSequence.dfy` | the routing properties of encrypted messages and the sequencing of MLS messages in a group |
| `KeyPackages.dfy`, `MlsRoutes.dfy` | single-use key packages, a group's route, and the lease to initialize it |
| `Groups.dfy`, `GroupEffects.dfy`, `GroupStore.dfy` | groups as requests change them and who may, and the database and cache that must agree |
| `Archive.dfy`, `ArchiveEntries.dfy`, `ArchivePack.dfy` | message archives, their cross-references, what each entry says, and reading them back |

Two forms recur. A protocol whose steps interleave is a state machine: `World`, `Step`, `Do`, and
`After`, which folds a run; its theorems speak of `After` of any run. Code that updates tables or
fields is a class whose methods take the same branches and loops, and whose contracts equate the
new state with the function or relation the theorems are about. Several machines carry a log of
what callers were told (`granted`, `acts`, `log`), and the main theorems say what the next answer
is from that log alone, without the tables.

A relational transaction is one atomic step, and one that fails changes nothing. Cryptography is
abstract: a public key determines its private key and unwrapping works exactly with the matching
ones. Random tokens, keys and row ids are never drawn twice. Time is an input that never runs back.

## What the code does not promise

These are properties one might expect that the code does not have. Each is proved false by an
example or a general lemma and comes with the exact condition.

- A publish of keys does not report a sender whose only messages to that user are not projected yet:
  `DeferredDm.PublishWakesEverySenderExactly`, `DeferredDm.PublishMissesAnUnprojectedSender`.
- A time-window search can miss messages: `History.HistoryIsNewestExactlyWhenInReach`,
  `History.LateArrivalHidesAMessage`, `History.UndecodablePageEndsTheWalk`. With a limit of 0 it can
  return one.
- A cursor below -1 hides every newer message: `MsgDb.CursorMeansGreater`.
- A failed inbound envelope can use up a prekey: `BotVault.FailureKeepsTablesExactly`,
  `BotVault.BinaryContentLosesAPrekey`. The vault is written before the plaintext is checked to be
  text.
- A bundle fetched across a rotation never opens: `BotVault.BundleOpensExactlyWhenCurrent`.
- A crash that loses an id lease can make a new message meet the projected row of a lost one:
  `LostWrites.CrashIsHarmlessExactly`, `LostWrites.LosingTheLeaseDoesHarm`.
- A Bot's message that reached one device is never caught up for a later one:
  `BotOutbox.CatchUpLeavesExactly`, `BotOutbox.LaterDeviceIsMissed`.
- A Bot's message can lose its key, when its call ends before the first envelope:
  `BotOutboxRuns.EnvelopeOrKeyExactly`, `BotOutboxRuns.CrashInTheGapLosesTheKey`.
- The owner of a private group need not be a member: `Groups.OwnersAreMembersExactly` for one request,
  `Groups.OwnerOutExactly` for every run.
- A device may mark a route initialized after its lease ran out: `MlsRoutes.MarksFollowTheLog`.
- The prekey fallback is reachable with nine callers: `PrekeyClaims.NineCallsCanFallBack`.

The comment in `migrations/20260721140000_bot_e2ee.sql` says a retained Bot key is deleted once its
message is complete; the code never deletes one, and the model follows the code.

## Model

| member | source | states |
|---|---|---|
| `Bytes.DecodeEncoded` | crates/msgdb/src/messages.rs:279-285 | reading back the big-endian bytes of a number of any width gives the number |
| `Bytes.BigEndianOrder` | crates/msgdb/src/messages.rs:258-263 | for keys of one length, byte order is numeric order, and equal bytes are equal numbers |
| `Bytes.BytesRoundTrip` | crates/msgdb/src/messages.rs:310-326 | a 64-bit id survives encoding and decoding, negative ones too |
| `Bytes.BytesOrder` | crates/msgdb/src/messages.rs:310-316 | encoded ids of one sign are ordered as numbers, and a negative id sorts above every other |
| `Bytes.WithinPrefix` | crates/msgdb/src/messages.rs:99-130 | a range whose bounds share a prefix holds exactly the keys with that prefix whose rest is in range |
| `Keys.EncodeInjective` | crates/msgdb/src/messages.rs:258-366 | no two different entries of the store share a key, across all families |
| `Keys.DecodeIndexedEncoded` | crates/msgdb/src/messages.rs:318-366 | decoding a user, group or direct-message index key gives back its conversation and message id |
| `Keys.DecodePendingEncoded` | crates/msgdb/src/messages.rs:272-285 | decoding a marker key gives back the message id |
| `Keys.MarkerRoundTrip` | crates/msgdb/src/messages.rs:287-308 | decoding a marker value gives back sender, target and time |
| `Keys.PrefixOwns` | crates/msgdb/src/messages.rs:99-230 | an encoded key that extends the prefix of a conversation is an index entry of that conversation; the early exits on a foreign or undecodable key are never taken |
| `Keys.ScanSeesConversation` | crates/msgdb/src/messages.rs:99-230 | a key lies inside the scan bounds of a conversation if and only if it is an index entry of it with an id in the window |
| `Keys.ConversationOrder` | crates/msgdb/src/messages.rs:310-366 | inside a conversation key order is id order |
| `Keys.PendingFamily` | crates/msgdb/src/messages.rs:77-92 | a scan by marker prefix meets exactly the markers |
| `Keys.KeyLayout` | crates/msgdb/src/messages.rs:258-366 | how the key of each kind of entry is laid out: the name of its family, then its numbers big-endian, the message id last |
| `Keys.MarkerLayout` | crates/msgdb/src/messages.rs:287-308 | a marker value is sender, target and time, eight bytes each |
| `Journal.IndexIsFeed` | crates/msgdb/src/messages.rs:22-75 | after any log of writes the index of a conversation is exactly that conversation's messages with their bytes |
| `Journal.MarkersAreMarked` | crates/msgdb/src/messages.rs:53-97 | the marker entries are exactly the deferred messages marked and not yet unmarked, with their values |
| `Journal.MidsAreStored` | crates/msgdb/src/messages.rs:22-75 | the ids of the messages sent are exactly those with a canonical entry |
| `Journal.MergedIsLastPut` | crates/msgdb/src/messages.rs:232-256 | the merged entry of a message is what was last put for it, and none once it was removed; nothing else touches it |
| `Journal.StoredCounter` | crates/msgdb/src/sequence.rs:19-34 | the stored counter entry, of sequence 1, decodes to the last lease written, or is absent and counts as 1 |
| `Journal.RenewedIsSound` | crates/msgdb/src/sequence.rs:36-45 | taking a lease when one is due keeps the log sound, and the next id above every stored one |
| `Journal.InvariantOfRun` | crates/msgdb/src/sequence.rs:14-45 | over every run of open, issue, write, amend, clean close and crash (a crash drops any suffix of the log) the stored counter exceeds every id in use at every point of the log |
| `Journal.SendNeverOverwrites` | crates/msgdb/src/messages.rs:22-75 | in every reachable state, the canonical, index and marker keys a send is about to write are all free |
| `Journal.StoredMessageIsPermanent` | crates/msgdb/src/messages.rs:22-75 | no step changes a stored message's bytes, and only a crash can lose one |
| `Journal.LargestIdIsBounded` | crates/msgdb/src/sequence.rs:5-45 | over every run, whatever suffix each crash loses, leases included, the largest id issued is at most the number of ids issued plus 32 for each crash of the run |
| `Journal.CleanShutdownSkipsNothing` | crates/msgdb/src/db.rs:15-18 | over every run without a crash, with any number of clean restarts, the ids issued are 1, 2, .. with none skipped |
| `Journal.ReopeningContinues` | crates/msgdb/src/db.rs:15-18 | whatever the run before, crashes included, shutting down cleanly and reopening continues at the id that was due next |
| `Journal.WritesAreLogged` | crates/msgdb/src/messages.rs:22-97 | a running server takes every amendment and the batch of every send it gave an id to, and logs it |
| `Journal.IssuedIdIsNew` | crates/msgdb/src/db.rs:33-35 | an issued id belongs to no stored message and to no send still in flight |
| `LostWrites.DurableLeasesNeverConflict` | src/e2ee_v2.rs:241-303 | over every run of both stores whose crashes keep the id counter above the projected ids, whatever else they lose, no marker conflicts with a projected row and no message is written under the id of one |
| `LostWrites.CrashIsHarmlessExactly` | crates/msgdb/src/sequence.rs:14-45 | after any such run, a further crash can never lead to a conflict, nor to a message that inherits the row of a lost one, if and only if the counter it leaves exceeds every projected id |
| `LostWrites.ReachId` | crates/msgdb/src/sequence.rs:36-45 | a running server can be brought to hand out any later id |
| `LostWrites.LosingTheLeaseDoesHarm` | src/e2ee_v2.rs:241-278 | there is such a run after which a crash that loses the first lease does lead to both |
| `MsgDb.RepresentsUnion` | crates/msgdb/src/messages.rs:22-37 | applying an encoded batch to the encoded tree is applying its entries to the entries |
| `MsgDb.NewestIsUnique` | crates/msgdb/src/messages.rs:99-230 | what the scans promise (the newest `limit` messages of a set of ids, ascending, with their bytes) has one answer |
| `MsgDb.ScanIsNewest` | crates/msgdb/src/messages.rs:99-230 | walking the keys of a window backwards, stopping at `limit` and reversing is that answer |
| `MsgDb.Db.Open` | crates/msgdb/src/db.rs:22-27 | opening on whatever a shutdown or crash left takes a lease and is ahead of every stored id |
| `MsgDb.Db.UpdateLease` | crates/msgdb/src/sequence.rs:23-34 | reads the stored counter, or 1, and stores it raised by 32 |
| `MsgDb.Db.Release` | crates/msgdb/src/sequence.rs:19-21 | gives back the unused part of the lease: the stored counter is the next id |
| `MsgDb.Db.GenerateMsgId` | crates/msgdb/src/sequence.rs:36-45 | returns the next id, which no stored message has, after taking a lease if one is due; no conversation changes |
| `MsgDb.Db.GroupBatch` | crates/msgdb/src/messages.rs:22-37 | the batch is the canonical entry, one entry per recipient and the group entry |
| `MsgDb.Db.DmBatch` | crates/msgdb/src/messages.rs:53-75 | the batch is the canonical entry, both users' entries, the pair's entry and any marker |
| `MsgDb.Db.SendToGroup` | crates/msgdb/src/messages.rs:22-37 | the message joins the group and the recipients it lists, no other conversation changes, and its id is new |
| `MsgDb.Db.SendToDm` | crates/msgdb/src/messages.rs:39-75 | the message joins both users' feeds and the pair, with a marker exactly if it is deferred |
| `MsgDb.Db.RemovePendingMarker` | crates/msgdb/src/messages.rs:94-97 | removes one marker and changes no conversation |
| `MsgDb.Db.PendingMarkers` | crates/msgdb/src/messages.rs:77-92 | never fails, and lists every marker once, in id order, with what was written |
| `MsgDb.Db.IndexEntry` | crates/msgdb/src/messages.rs:99-230 | every key met by a scan decodes to a message of the scanned conversation with its bytes |
| `MsgDb.Db.ScanBack` | crates/msgdb/src/messages.rs:131-230 | the byte scan of a window returns its newest messages |
| `MsgDb.Db.FetchUserMessagesAfter` | crates/msgdb/src/messages.rs:99-129 | the newest `limit` messages of a user's feed above a cursor, ascending, with the stored bytes, for every 64-bit cursor |
| `MsgDb.CursorMeansGreater` | crates/msgdb/src/messages.rs:105-110 | a cursor selects the ids greater than it if and only if it is at least -1 or the feed is empty |
| `MsgDb.Db.FetchDmMessagesBefore` | crates/msgdb/src/messages.rs:131-163 | the newest `limit` messages of an unordered pair before an id, ascending |
| `MsgDb.Db.FetchGroupMessagesBefore` | crates/msgdb/src/messages.rs:165-197 | the newest `limit` messages of a group before an id, ascending |
| `MsgDb.Db.FetchUserMessagesBefore` | crates/msgdb/src/messages.rs:199-230 | the newest `limit` messages of a user's feed before an id, ascending |
| `History.StoreServesPages` | crates/msgdb/src/messages.rs:131-197 | a page fetched from the store is the slice of the conversation just below the cursor |
| `History.CursorDecreases` | src/api/message.rs:713-773 | the oldest message of a page is below the cursor it was fetched with, so the walk always moves |
| `History.PagesAreOneWalk` | src/api/message.rs:713-773 | paging with early exits gives the same as one walk over all rows within reach |
| `History.ReachOfDecodable` | src/api/message.rs:726-730 | if every row decodes, fifty pages reach exactly fifty times the page size of rows |
| `History.WalkAnswersExactlyWhenInReach` | src/api/message.rs:741-760 | a walk that stops at the first too-old message returns the newest matches if and only if none of them lies beyond such a message or the floor |
| `History.HistoryIsNewestExactlyWhenInReach` | src/api/message.rs:713-773 | for all rows, decodable or not, and every limit, a time-window request returns the newest `limit` messages of its window if and only if they are in reach; with a limit of 0, if and only if the first page has none that is not behind a too-old one |
| `History.HistoryIsNewest` | src/api/message.rs:713-773 | so it does for a limit of at least 1 when all rows decode, times never go back and the history is at most fifty pages |
| `History.FloorOfDecodable` | src/api/message.rs:724-730 | if every row decodes, in reach is exactly the last fifty pages of 200 rows, or of `limit` if that is more |
| `History.HistoryByTime` | src/api/message.rs:713-773 | in ids and times: with times that never go back a request returns, oldest first, at most `limit` messages below the cursor from `after` to `before` inclusive, and either all such messages or `limit` that are newer than the rest |
| `History.HistoryWithoutTimes` | src/api/message.rs:720-722 | without time bounds it returns the newest `limit` messages below the cursor |
| `History.HistoryWithLimitZero` | src/api/message.rs:713-773 | with a limit of 0 and a time bound it returns the newest match among the last 200 rows, if any |
| `History.LateArrivalHidesAMessage` | src/api/message.rs:748-753 | on two rows, the later sent with the earlier time, a request for one message returns nothing although one lies in its window |
| `History.UndecodablePageEndsTheWalk` | src/api/message.rs:735-738 | a page without a decodable row ends the walk whatever lies below |
| `History.UnboundedWindow` | src/api/message.rs:720-722 | without time bounds the newest `limit` messages are one page |
| `History.WalkBatch` | src/api/message.rs:741-760 | the inner loop appends exactly the matches of the walk over this page, and says whether the walk is over |
| `History.FetchHistoryByTime` | src/api/message.rs:713-773 | the loop over cursor and matched computes the paged history for every limit, 0 included |
| `DeferredDm.InvariantOfRun` | src/e2ee_v2.rs:241-351 | the protocol invariant holds over every interleaving of sends, reconcilers, publishes, envelope posts, logins, retirements and crashes |
| `DeferredDm.EveryDeferredMessageIsKept` | src/e2ee_v2.rs:241-303 | every deferred message ever written is at all times marked or projected as itself, and no reconciler ever met a conflict or an unreadable marker |
| `DeferredDm.NothingIsRewritten` | src/api/e2e.rs:709-815 | however a run goes on, messages, envelopes and completion times once stored never change or go, and identity versions never fall |
| `DeferredDm.ReconcileStopsAtFirstFailure` | src/e2ee_v2.rs:285-303 | a reconcile projects and unmarks everything before the first bad marker and nothing from there on |
| `DeferredDm.ReconcileDrains` | src/e2ee_v2.rs:285-303 | one undisturbed reconcile in any reachable state succeeds and leaves no marker |
| `DeferredDm.NewMaterialWakesEverySender` | src/api/e2e.rs:185-246 | a first publish or a change of keys reports exactly the senders of the messages projected for that user; republishing the same keys keeps the version and reports those with a missing envelope |
| `DeferredDm.PublishWakesEverySenderExactly` | src/api/e2e.rs:185-246 | over every run such a publish reports only senders of deferred messages ever written to that user, and all of them if and only if each message still unprojected has a sender with another one that is projected |
| `DeferredDm.PublishMissesAnUnprojectedSender` | src/api/e2e.rs:185-246 | a run in which it misses one: the message is written and not yet projected when its target publishes |
| `DeferredDm.ReconciledPublishWakesEverySender` | src/e2ee_v2.rs:285-303 | after an undisturbed reconcile of any reachable state the condition holds for every user |
| `DeferredDm.WaitingSendersHaveWork` | src/api/e2e.rs:665-691 | every waiting sender finds, in its pending list, a message that lacks this device |
| `DeferredDm.PostSettlesOneDevice` | src/api/e2e.rs:761-813 | posting an envelope settles one message for one device and nothing else |
| `DeferredDm.PostSucceedsExactly` | src/api/e2e.rs:709-813 | exactly when posting is accepted, and that the first envelope under a key wins |
| `DeferredDm.PendingListCanBeWorkedOff` | src/api/e2e.rs:656-813 | over every run a sender's post for a listed message to a device that lacks it succeeds and settles it, and the message stays listed exactly as long as another current device lacks it |
| `DeferredDm.EnvelopesInEveryRun` | src/e2ee_v2.rs:313-351 | in every reachable state no envelope is for a version its device has not reached, and a message is completed if and only if it has an envelope |
| `DeferredAnswers.ProjectingAnswers` | src/e2ee_v2.rs:241-278 | projecting adds the row of a marker unless there is one, and fails for a time that cannot be represented or a row of another sender or target, each with its own error |
| `DeferredAnswers.PublishStoresTheKeys` | src/api/e2e.rs:148-216 | an accepted publish stores each submitted key in its own column of the token's row, live, at version 1, the same or one more, and touches nothing else |
| `DeferredAnswers.RepublishingKeepsTheVersion` | src/api/e2e.rs:177-216 | over every run, publishing the same keys again, however much later, returns the same version, and publishing others one more |
| `DeferredAnswers.PublishRefusals` | src/api/e2e.rs:148-184 | exactly when a publish is refused, and with which error |
| `DeferredAnswers.PendingExactly` | src/api/e2e.rs:656-699 | over every run a sender is shown exactly its messages to a user that nobody has an envelope for or that a current device of the user lacks |
| `DeferredAnswers.PostRefusals` | src/api/e2e.rs:709-788 | exactly when a post is refused, and with which error |
| `DeferredAnswers.PostStoresTheEnvelope` | src/api/e2e.rs:788-815 | an accepted post stores the envelope unless there is one, completes the message as of now unless it was complete, and touches nothing else |
| `DeferredAnswers.AppendReports` | src/e2ee_v2.rs:313-351 | an append says whether it added the envelope |
| `DeferredAnswers.RetiringShutsOut` | src/api/token.rs:1320-1340 | a retired device can neither publish nor post, is posted nothing and lacks nothing, and everything else stays |
| `DeferredAnswers.ReturningDevice` | src/api/e2e.rs:177-204 | logging in again is not enough to be current; publishing is |
| `DeferredAnswers.AloneIsReconcile` | src/e2ee_v2.rs:285-303 | in every run the steps of a reconciler, taken one after the other, succeed and come to the same tables as one reconcile |
| `DeferredAnswers.FailedWorkerStops` | src/e2ee_v2.rs:285-303 | a reconciler that meets a marker it cannot project stops there, changes nothing and is on record |
| `DeferredAnswers.StepsTakeEffect` | src/api/e2e.rs:148-815 | every step of a run has taken effect when it is done, a refused request and a crash change no table |
| `DeferredStore.Store.ProjectPendingDmMarker` | src/e2ee_v2.rs:241-278 | insert-unless-present and compare, as one transaction |
| `DeferredStore.Store.ReconcilePendingDmMarkers` | src/e2ee_v2.rs:285-303 | reads the markers in id order and leaves exactly what reconciling that list leaves; succeeds if and only if every marker can be projected, and then none is left and the count is returned |
| `DeferredStore.Store.PutIdentity` | src/api/e2e.rs:148-246 | the five refusals in order, the version rule, and the senders reported |
| `DeferredStore.Store.AppendPendingEnvelopeInternal` | src/e2ee_v2.rs:313-351 | first write wins and completes the message |
| `DeferredStore.Store.PostPendingEnvelope` | src/api/e2e.rs:709-813 | the refusals in order, then the append for the device's current version |
| `DeferredStore.ReconcileOutcome` | src/e2ee_v2.rs:285-303 | what reconciling any list of markers leaves behind, good or bad |
| `BotOutbox.WrapUndisturbed` | src/bot_e2ee.rs:1157-1199 | the claims loop with no rivals wraps once with the lowest prekey, if any, and consumes it exactly if the wrap works |
| `BotOutbox.Outbox.SendBotDm` | src/bot_e2ee.rs:1262-1300 | one envelope for each usable device whose wrap works, at its present version, each from that device's pool; the key is retained if and only if there is none and the master key is there |
| `BotOutbox.Outbox.CatchUpOne` | src/bot_e2ee.rs:1349-1385 | one message of a catch-up adds at most its own envelope and takes at most one prekey of that device |
| `BotOutbox.Outbox.CatchUpPendingSends` | src/bot_e2ee.rs:1318-1390 | deals with exactly the messages due in some order, counts the new envelopes, stops at a key that cannot be opened, and refuses a missing master key or an unusable device only if something is due |
| `BotOutbox.LateKeys` | src/bot_e2ee.rs:1349-1385 | a catch-up makes an envelope exactly for each message whose key is readable and could be wrapped when its turn came |
| `BotOutbox.EnvelopesCostPrekeys` | src/bot_e2ee.rs:1157-1199 | over a catch-up each envelope costs one prekey as long as there is one, and failed wraps cost none |
| `BotOutbox.EnvelopingCompletes` | src/e2ee_v2.rs:335-346 | sending and catching up keep "complete if and only if it has an envelope" |
| `BotOutbox.CatchUpLeavesExactly` | src/bot_e2ee.rs:1325-1390 | after a complete catch-up a device still lacks exactly the messages it lacked whose key was not retained or did not wrap at its turn |
| `BotOutbox.LaterDeviceIsMissed` | src/bot_e2ee.rs:1262-1300 | a message that got an envelope when it was sent is listed as pending for a device added later, its Bot is reported as waiting, and yet no catch-up is due to handle it |
| `BotDeliveries.NextRowIsLowest` | src/bot_e2ee.rs:1112-1126 | a wrap uses the unconsumed prekey with the lowest id |
| `BotDeliveries.SendReachesExactly` | src/bot_e2ee.rs:1262-1282 | a send makes an envelope for exactly the recipient's devices that are published, not retired, usable and wrap, at their present version, each paid from its own pool; nobody else gets anything |
| `BotDeliveries.SendRetainsExactly` | src/bot_e2ee.rs:1283-1300 | the key is retained exactly if no envelope was made and the master key is there, and only this message can become complete |
| `BotDeliveries.CatchUpReachesExactly` | src/bot_e2ee.rs:1325-1390 | a complete catch-up adds exactly the envelopes, for this device and version, of this Bot's messages to its user whose key was retained and wrapped at its turn; each wraps that key |
| `BotDeliveries.CatchUpCosts` | src/bot_e2ee.rs:1349-1385 | a catch-up takes one prekey of the device for each new envelope while there is one |
| `BotOutboxRuns.DeliverableInRun` | src/bot_e2ee.rs:1256-1300 | over every interleaving of sends, wraps, catch-ups, failures and crashes a sent message is in a call, retained or enveloped if and only if no crash or failure met its call before the first envelope |
| `BotOutboxRuns.EnvelopeOrKeyExactly` | src/bot_e2ee.rs:1256-1300 | so once no call is at work on it, it has an envelope or a retained key under exactly that condition |
| `BotOutboxRuns.CutShortIsForGood` | src/bot_e2ee.rs:1318-1390 | otherwise it has neither in any continuation of the run |
| `BotOutboxRuns.CrashInTheGapLosesTheKey` | src/bot_e2ee.rs:1256-1300 | a run in which that happens |
| `BotOutboxRuns.PassedOver` | src/bot_e2ee.rs:1264-1268 | a device that does not wrap is passed over, and devices may change at any time; neither touches a message |
| `BotOutboxRuns.RetainedAndCaughtUp` | src/bot_e2ee.rs:1256-1390 | undisturbed, a send to a recipient without devices retains the key, and a later catch-up makes the envelope |
| `BotOutboxRuns.EnvelopedAtOnce` | src/bot_e2ee.rs:1256-1300 | undisturbed, a send to a device that wraps makes the envelope, for the version read, and retains nothing |
| `PrekeyClaims.InvariantOfRun` | src/bot_e2ee.rs:1112-1199 | the claim invariant holds over every interleaving of peeks, wraps, claims, lost claims and pool replacements |
| `PrekeyClaims.EnvelopesUseDistinctRows` | src/bot_e2ee.rs:1157-1199 | envelopes returned with a prekey use distinct rows, the rows claimed are as many as those envelopes, and a call that returned none claimed none |
| `PrekeyClaims.ConsumedRowsAreClaimed` | src/bot_e2ee.rs:1132-1138 | the rows consumed since the start are exactly the claimed ones |
| `PrekeyClaims.FallbackNeedsEightRivals` | src/bot_e2ee.rs:1162-1198 | a call reaches the fallback only if eight claims by other calls, or replacements, happened during it |
| `PrekeyClaims.EightCallsNeverFallBack` | src/bot_e2ee.rs:1162-1198 | with at most eight calls on a pool that is not replaced none falls back |
| `PrekeyClaims.NineCallsCanFallBack` | src/bot_e2ee.rs:1162-1198 | with nine calls there is a run where one falls back although prekeys are left |
| `PrekeyClaims.Pool.PeekOneTimePrekey` | src/bot_e2ee.rs:1112-1126 | returns the unconsumed row with the lowest id, if any, and consumes nothing |
| `PrekeyClaims.Pool.TryConsumeOneTimePrekey` | src/bot_e2ee.rs:1132-1138 | succeeds exactly for an unconsumed row and consumes that one |
| `PrekeyClaims.Pool.WrapContentKeyForDevice` | src/bot_e2ee.rs:1157-1199 | the loop of eight attempts against any rivals: how it ends, with which row, and that a failed wrap or a fallback consumes nothing of its own |
| `PrekeyClaims.LostRoundsTakeRows` | src/bot_e2ee.rs:1162-1188 | each lost attempt costs the pool an available row |
| `PrekeyClaims.CallsThatClaimNothing` | src/bot_e2ee.rs:1157-1199 | a call whose wrap fails ends there, and one that finds no prekey ends with the plain wrap; neither consumes a row |
| `PrekeyClaims.ReplacingOffersNewRows` | src/bot_e2ee.rs:1112-1138 | replacing a pool offers exactly the new rows and keeps the consumed ones, and a row peeked before is lost to its call |
| `BotVault.InvariantOfRun` | src/bot_e2ee.rs:597-858 | the vault invariant holds over every run of initialize, rotate, rebuild, three-step fetches and inbound handling |
| `BotVault.VaultMatchesPublished` | src/bot_e2ee.rs:597-858 | in every run both tables carry one version, the published keys are those of the vault's secrets, and every prekey on offer has its secret under the same key id |
| `BotVault.PrekeyOpensOnce` | src/bot_e2ee.rs:1463-1509 | over every run no one-time prekey opens two envelopes |
| `BotVault.BundleOpensExactlyWhenCurrent` | src/api/e2e.rs:422-496 | a handed-out bundle still opens if and only if its identity and its prekey were both read at the vault's present version and the prekey is unused; one read across a rotation never opens |
| `BotVault.FreshBundleIsHonoured` | src/api/e2e.rs:422-496 | from any reachable state an undisturbed fetch yields a bundle whose first envelope is delivered and whose second is refused |
| `BotVault.FailureKeepsTablesExactly` | src/bot_e2ee.rs:1460-1522 | whatever is stored, a failed attempt leaves every row as it was if and only if it is not an opened envelope under a prekey whose plaintext is not text |
| `BotVault.BinaryContentLosesAPrekey` | src/bot_e2ee.rs:1505-1521 | from every reachable state with a prekey on offer a sender can fetch it and send binary content: that fails, the prekey is gone, and a text under it then fails too |
| `BotVault.InitializedOffersPrekeys` | src/bot_e2ee.rs:597-678 | such states are reached by initializing a Bot |
| `BotVault.RenewalsAreFresher` | src/bot_e2ee.rs:395-433 | initialize, rotate and rebuild leave synchronised tables whose signed prekey and one-time secrets are all new |
| `BotVault.OpeningUses` | src/bot_e2ee.rs:1464-1509 | an opened envelope takes exactly its own prekey out of the vault |
| `BotRenewals.InitializingDrawsEverything` | src/bot_e2ee.rs:597-678 | over every run, initializing a Bot without keys publishes version 1, with all keys new and twenty prekeys on offer |
| `BotRenewals.RotatingKeepsOnlyTheIdentity` | src/bot_e2ee.rs:680-776 | over every run, a rotation keeps the identity in both tables and renews the signed prekey and all twenty prekeys at one version more; consumed rows are offered again |
| `BotRenewals.RebuildingReplacesEverything` | src/bot_e2ee.rs:778-868 | over every run, a confirmed rebuild publishes an identity different from every earlier one, at one version more, and exactly the twenty prekeys 1 to 20, unconsumed, in new rows under new keys |
| `BotRenewals.RenewalRefusals` | src/bot_e2ee.rs:597-790 | exactly when each of the three is refused, and with which error; a refusal changes nothing |
| `BotRenewals.OutOfStep` | src/bot_e2ee.rs:597-868 | on any tables: initializing beside a published identity or a used key id fails, a rotation leaves both identity columns alone, and nothing is published where there is no row |
| `BotRenewals.OpensExactly` | src/bot_e2ee.rs:1460-1500 | over every run an envelope opens if and only if the vault holds the private key of the identity, the signed prekey and the one-time prekey it names |
| `BotRenewals.InboundAnswers` | src/bot_e2ee.rs:1422-1522 | exactly which answer an inbound envelope gets, and when it is delivered |
| `BotRenewals.FetchGoesThrough` | src/api/e2e.rs:422-496 | in every run a new fetch can go through, reads the lowest prekey on offer, if any, and consumes that row and no other |
| `BotRenewals.StepsTakeEffect` | src/bot_e2ee.rs:597-868 | the renewals and inbound envelopes of a run are these operations |
| `BotStore.GenerateOneTimePrekeys` | src/bot_e2ee.rs:402-414 | twenty prekeys with key ids 1 to 20 |
| `BotStore.InsertPrekeys` | src/bot_e2ee.rs:731-743 | row by row, either every prekey of the batch is in or, for a plain insert that meets a used key id, the transaction fails |
| `BotStore.Store.Initialize` | src/bot_e2ee.rs:597-678 | the errors in order (not a Bot, already initialized, conflicting rows), else all-new keys at version 1 in both tables with twenty prekeys on offer |
| `BotStore.Store.Rotate` | src/bot_e2ee.rs:680-776 | keeps the identity key, raises the version by one, replaces the signed prekey and all prekeys, and revives consumed rows in place |
| `BotStore.Store.Rebuild` | src/bot_e2ee.rs:778-868 | only if confirmed: all-new keys, every old prekey row gone, version raised by one |
| `BotStore.Store.HandleInboundBotEnvelope` | src/bot_e2ee.rs:1422-1522 | which error or success an inbound envelope meets, from a missing message on, and that the used prekey is gone exactly if the ciphertext opened |
| `MlsRouting.AcceptedHasAShape` | src/e2ee_v2.rs:353-490 | every accepted message is one of five kinds and its route carries all the fields of that kind |
| `MlsRouting.AcceptedExactly` | src/e2ee_v2.rs:353-490 | exactly which properties are accepted, and as which route |
| `MlsRouting.RouteRoundTrip` | src/e2ee_v2.rs:353-490 | the properties a client writes for a message are accepted as that message if and only if its fields are well formed |
| `MlsRouting.AuthenticatedExactly` | src/e2ee_v2.rs:67-76 | a logged-in device gets accepted exactly the messages that name it as their sender, and a mismatch exactly for well-formed messages that name another |
| `MlsRouting.RefusedForTheFirstFailure` | src/e2ee_v2.rs:353-490 | properties are refused with the error of the first of eighteen checks they fail, and accepted if they fail none |
| `MlsRouting.TargetsByShape` | src/api/message.rs:973-1005 | content of another type goes anywhere; groups get the three MLS kinds and users the other two; exactly the deferred kind yields a pending target, and each refusal has its own error |
| `MlsSequence.InvariantOfRun` | src/e2ee_v2.rs:109-216 | over every run the three tables say exactly what the log of granted requests says |
| `MlsSequence.GrantedExactly` | src/e2ee_v2.rs:109-216 | every accepted route is granted if and only if it is an MLS message and the log allows it: one commit epoch with a new id, one generation per sender, one welcome per recorded commit |
| `MlsSequence.GrantsAreRecorded` | src/e2ee_v2.rs:109-216 | a granted request is on record from then on, and one that is not changes nothing |
| `MlsSequence.CommitsCanBeGranted` | src/e2ee_v2.rs:124-151 | whatever the run before, any number of further commits can be granted in a group |
| `MlsSequence.CommitsAreConsecutive` | src/e2ee_v2.rs:124-151 | a group's commit epochs are exactly 1 to n, one commit each, in the order granted, with distinct ids; each row names its commit and its sender |
| `MlsSequence.GenerationsAreConsecutive` | src/e2ee_v2.rs:179-212 | a sender's generations in an epoch are exactly 0 to k-1 in the order granted |
| `MlsSequence.WelcomesNameCommits` | src/e2ee_v2.rs:152-178 | every welcome names a recorded commit and is from whoever was granted it, and no epoch has two |
| `MlsSequence.EpochCountsCommits` | src/e2ee_v2.rs:179-193 | an application message is granted under the number of commits granted before it |
| `MlsSequence.EpochsNeverGoDown` | src/e2ee_v2.rs:179-193 | the epochs of a group's application messages never go down over a run |
| `MlsSequence.Store.ReserveMlsSequence` | src/e2ee_v2.rs:109-216 | the transaction as written computes the reservation the runs use, and a conflict changes nothing |
| `KeyPackages.PackagesLeaveInOrder` | src/mls_delivery.rs:60-104 | over every run what was consumed is the beginning of what was published, each package once, and the rest waits |
| `KeyPackages.NextPackage` | src/mls_delivery.rs:84-104 | what the next request gets: the oldest waiting package, or not found exactly if all are used |
| `KeyPackages.QueueChange` | src/mls_delivery.rs:60-104 | each request changes one device's queue at one end |
| `KeyPackages.CredentialsFollowTheLog` | src/mls_delivery.rs:39-58 | over every run the stored credential of a device is the one last accepted |
| `KeyPackages.NextAnswers` | src/mls_delivery.rs:39-82 | over every run, what the next publish or credential is answered: a package needs a credential accepted before, a credential a registered user, and 64 KiB is the most |
| `KeyPackages.ValidDeviceIdExactly` | src/mls_delivery.rs:8-18 | valid device ids in ASCII codes: 1 to 128 digits, letters, hyphens, colons, underscores |
| `KeyPackages.Store.ValidateDeviceId` | src/mls_delivery.rs:8-18 | accepts exactly 1 to 128 allowed characters |
| `KeyPackages.Store.PublishKeyPackage` | src/mls_delivery.rs:60-82 | the checks in order, the foreign key, and the new row |
| `KeyPackages.Store.ConsumeKeyPackage` | src/mls_delivery.rs:84-104 | finds and marks the first unconsumed row of the device |
| `KeyPackages.Store.PutCredential` | src/mls_delivery.rs:39-58 | the checks in order, the foreign key to the user, then insert or replace |
| `MlsRoutes.InvariantOfRun` | src/mls_delivery.rs:127-228 | over every run the routes agree with the log of answers given |
| `MlsRoutes.ClaimsFollowTheLog` | src/mls_delivery.rs:164-203 | a claim is refused, or answered 2, 1 or 0 as the earlier answers decide, and sets or renews the lease, to thirty seconds from now, exactly when it answers 1 |
| `MlsRoutes.MarksFollowTheLog` | src/mls_delivery.rs:205-228 | marking is refused or succeeds exactly for the last device granted the claim, once, however old that grant is, and then drops the lease |
| `MlsRoutes.GrantsAreExclusive` | src/mls_delivery.rs:164-203 | no two devices are granted a route within thirty seconds of each other |
| `MlsRoutes.MarkIsFinal` | src/mls_delivery.rs:205-228 | after a mark no claim is granted and no mark succeeds |
| `MlsRoutes.MarkerWasGranted` | src/mls_delivery.rs:205-228 | whoever marked a route had been granted it last |
| `MlsRoutes.OneRoutePerGroup` | src/mls_delivery.rs:127-150 | however calls interleave a group has one token, groups have different ones, and the second read finds exactly one row |
| `MlsRoutes.FirstCallerSetsUp` | src/mls_delivery.rs:127-228 | a group's first caller gets a route, claims it, may renew the claim any time later, and marks the route |
| `MlsRoutes.LaterCallers` | src/mls_delivery.rs:127-203 | a later caller is given the same route, and the answer to its claim is put on record |
| `MlsRoutes.Store.RouteForGroup` | src/mls_delivery.rs:127-150 | one undisturbed call: refused, or the existing token, or a new one |
| `MlsRoutes.Store.ClaimInitialization` | src/mls_delivery.rs:164-203 | takes or renews the lease only when free, expired or already the caller's, and answers from the row it leaves |
| `MlsRoutes.Store.MarkInitialized` | src/mls_delivery.rs:205-228 | marks the route and drops the lease for its present initializer, else a conflict and no change |
| `Groups.SoundAfter` | src/api/group.rs:144-879 | after any requests members are registered users, public groups list none, and ids are never reused |
| `Groups.OwnersAreMembersExactly` | src/api/group.rs:507-660 | every request keeps each private group's owner among its members, if and only if it is not a switch to private that leaves the caller out |
| `Groups.OwnerOutExactly` | src/api/group.rs:144-879 | over every run of requests an owner is outside his private group if and only if some switch to private left him out and nothing since deleted or opened the group, named another owner or added him |
| `Groups.OwnerCanBeLeftOut` | src/api/group.rs:543-561 | that exception, concretely |
| `Groups.RemoveUndoesAdd` | src/api/group.rs:740-879 | removing the users just added restores the group |
| `GroupEffects.Creating` | src/api/group.rs:144-259 | a new group has the given name, description, flag and owner, and as members the listed users and its creator, or nobody if it is public |
| `GroupEffects.MakingPrivate` | src/api/group.rs:525-604 | made private, a group belongs to the caller and has as members those listed or, without a list, exactly the registered users who are not guests; its settings stay |
| `GroupEffects.MakingPublic` | src/api/group.rs:563-640 | made public, it lists nobody; asking for the type it has changes nothing |
| `GroupEffects.Updating` | src/api/group.rs:389-504 | an update sets exactly the named fields, each to its own value, and the owner only to a member |
| `GroupEffects.Moving` | src/api/group.rs:339-879 | leaving, adding and removing change exactly the members they name, deleting forgets the group; no other group changes |
| `GroupEffects.OnlyTheEntitledChange` | src/api/group.rs:339-879 | a group changes only at the hand of an administrator, its owner, a member who adds registered users, or a member who leaves; the owner is never removed |
| `GroupEffects.RefusalsExactly` | src/api/group.rs:144-707 | exactly when creating, deleting, updating, switching and leaving are refused, and with what; a refusal changes nothing |
| `GroupEffects.AddingRefusedExactly` | src/api/group.rs:740-807 | exactly when adding members is refused, and with what |
| `GroupEffects.RemovingRefusedExactly` | src/api/group.rs:811-879 | exactly when removing members is refused: the first listed owner or stranger decides with what |
| `GroupStore.UpdateAssigns` | src/api/group.rs:425-460 | in the generated update statement each column gets the value meant for it, whichever are present |
| `GroupStore.LoadChanges` | src/state.rs:601-690 | changing one row and its memberships changes that group in the loaded cache and no other |
| `GroupStore.Store.LoadGroupsCache` | src/state.rs:601-690 | the two loops of a load give the cache the rows describe, and fail exactly on a private row without owner |
| `GroupStore.Store.Reload` | src/state.rs:601-690 | in a store that is in sync a reload succeeds, the owner is always there, and it equals the live cache |
| `GroupStore.Store.InsertMembers` | src/api/group.rs:541-561 | inserts the whole list or, on a duplicate or unknown user, nothing |
| `GroupStore.Store.Create` | src/api/group.rs:144-259 | cache and database stay in sync; the refusals in order, else a new group with its members, including the creator of a private one |
| `GroupStore.Store.Delete` | src/api/group.rs:339-385 | in sync; the refusals, else the group and its memberships are gone |
| `GroupStore.Store.Update` | src/api/group.rs:389-504 | in sync; the refusals, else exactly the named fields change, the owner only to a member of a private group |
| `GroupStore.Store.ChangeType` | src/api/group.rs:507-660 | in sync; both switches and both non-switches, and a list with a duplicate or unknown user changes nothing |
| `GroupStore.Store.Leave` | src/api/group.rs:664-707 | in sync; refused for public groups, owners and strangers, else the caller is gone |
| `GroupStore.Store.AddMembers` | src/api/group.rs:740-807 | in sync; refused unless all are known, new and listed once, else all are added |
| `GroupStore.Store.CheckRemoval` | src/api/group.rs:833-843 | the first listed user who is the owner or no member decides the refusal |
| `GroupStore.Store.RemoveMembers` | src/api/group.rs:811-879 | in sync; refused if the owner or a stranger is listed, else all listed are gone |
| `GroupStore.Store.Serve` | src/api/group.rs:144-879 | after any sequence of requests the cache is what the requests mean and a reload gives the same |
| `Archive.CreateMessageArchive` | src/api/archive.rs:62-221 | either the error of the lowest message that has one, or an index in which every message, sender, avatar, file and thumbnail resolves to its own item, users are shared exactly by sender, and each file belongs to exactly one item |
| `Archive.EnterMessage` | src/api/archive.rs:85-217 | one pass of the loop: a message of a known kind joins the index, its sender entered once, and all earlier entries still resolve |
| `Archive.SortedIsSorted` | src/api/archive.rs:83-85 | messages ascend and are exactly those asked for |
| `Archive.NoProblems` | src/api/archive.rs:85-113 | an archive is refused if and only if some message has a problem |
| `Archive.FileKeepsLinks` | src/api/archive.rs:152-188 | adding a file and its thumbnail keeps files and the items that point to them one to one |
| `Archive.UserKeepsEntries` | src/api/archive.rs:115-140 | entering a sender keeps all earlier entries |
| `ArchiveEntries.SourceIsTheOtherParty` | src/api/archive.rs:223-236 | the source of a direct message in which the maker takes part is the other of the two; of any other message it is where it was sent |
| `ArchiveEntries.EntryCarriesItsMessage` | src/api/archive.rs:142-217 | an entry carries id, time, properties and kind of its message; text is in it, a file and its thumbnail are attachments with the stored bytes and metadata |
| `ArchiveEntries.EntryNamesItsSender` | src/api/archive.rs:115-140 | it names its sender, with the picture if there is one |
| `ArchiveEntries.ProblemExactly` | src/api/archive.rs:86-113 | exactly which messages cannot be archived by whom, and with which error |
| `ArchiveEntries.FirstProblemDecides` | src/api/archive.rs:85-113 | the first message by id that has a problem decides the error |
| `ArchivePack.NamesDiffer` | src/api/archive.rs:258-276 | no two entries of a packed archive share a name |
| `ArchivePack.EntryPaths` | src/api/archive.rs:258-276 | file i is stored as attachment/i.data and its metadata as attachment/i.meta, i in decimal |
| `ArchivePack.Pack` | src/api/archive.rs:238-283 | the writing loop produces the index entry and two entries for each file |
| `ArchivePack.ExtractUndoesPack` | src/api/archive.rs:285-346 | reading back gives the index, file i for attachment i, and nothing beyond the last |
| `ArchivePack.IndexesCanBeFetched` | src/api/archive.rs:305-346 | the file and thumbnail indexes of a message fetch that message's own file and thumbnail |

## Left out

- HTTP handling, authentication tokens, event broadcast, notifications, webhooks, audit rows and configuration are not modelled; a caller is a user, a device and whether it is an administrator.
- Real cryptography, base64, JSON, bincode and zip encoding are not modelled; `src/deferred.rs`, `src/ratchet.rs` and `src/x3dh.rs` are not part of this model.
- Input/output faults and database errors other than constraint violations are not modelled, except as the end of a Bot's send; a missing master key is modelled where a Bot sends and receives, not in the vault's own operations.
- The store's batches are atomic and its log is written in order; what the storage engine does inside is not modelled.
- Uniqueness of message ids is stated below the 64-bit limit: allocation requires room for the next lease.
- LostWrites.CrashIsHarmlessExactly: the projected ids leave room for one more lease below the 64-bit limit.
- History.FetchHistoryByTime: the conversation is a fixed sequence of rows while the request runs.
- Search by text (`message_matches_query`), edits, reactions, merged-message contents and read indexes are left out as easy members.
- DeferredDm.EveryDeferredMessageIsKept: the message store loses nothing it wrote and ids are not reused; crashes that lose messages and leases are the subject of LostWrites.
- DeferredDm.WaitingSendersHaveWork: the pending list is a set, so its order by message id is not captured.
- DeferredStore.Store.PutIdentity: blank text is recognised by ASCII white space only.
- DeferredStore.Store.ProjectPendingDmMarker: the times the calendar library can represent are bounded by a round number of milliseconds.
- BotOutbox.Outbox.SendBotDm: starts where the message is sent and projected; nobody else claims from a recipient's pool during the call, which is the subject of the prekey model, and crashes during it are the subject of the runs.
- PrekeyClaims.EnvelopesUseDistinctRows: fetching a bundle, which consumes a prekey without the guard, is not among the steps; rows of a Bot that a rotation revives are not either.
- BotVault.PrekeyOpensOnce: handling an inbound envelope is one atomic step, although the code reads and writes the vault in separate statements.
- BotVault.InvariantOfRun: nobody but fetches consumes the Bot's prekeys, and the Bot publishes only through its vault.
- MlsRoutes.Store.RouteForGroup: access to the group is a parameter, as are the checks of a route's spelling.
- The artifacts stored on a route (`mls_artifact`) and channel admission of Bots are left out.
- GroupStore.Store.Reload: times, avatars and pinned messages of a group are not compared, since an update does not refresh the cached time.
- GroupStore.Store.LoadGroupsCache: the times, avatar and pinned messages of a group are read and not compared.
- GroupStore.Store.Delete: read indexes of users are not modelled; deleting users and its cascades are not either.
- Archive.CreateMessageArchive: reading files is a lookup by sender or path, and the group membership it checks is that of the cache.
