# rsmsg: a verified model of the message path

rsmsg is a desktop messenger: clients encrypt messages under per-peer hash chains, a server keeps
encrypted envelopes in a PostgreSQL table until they are acknowledged, and calls use an in-memory
signal queue and an audio jitter buffer. This project models those parts in Dafny and proves what
they keep over every run. `dafny verify dfyconfig.toml` checks everything.

## How the model is organised

| files | what they model |
|---|---|
| `Crypto.dfy` | the crypto engine as functions under laws (`Lawful`): symmetric key agreement, opening undoes sealing, no opening under another key; a lemma shows the laws are satisfiable |
| `PeerSessions.dfy`, `BatchRecords.dfy`, `SyncFlow.dfy`, `SessionStore.dfy` | ratchet sessions, batches of envelopes, the sync worker with its recovery pass, saving and loading |
| `Mailbox.dfy`, `MailboxRuns.dfy` | the message table, its handlers, and runs of concurrent drain transactions with row locks |
| `ChatHistory.dfy`, `HistoryLaws.dfy`, `HistoryRuns.dfy`, `HistoryLosses.dfy` | chat history, unread counters, read acknowledgements, what each operation does message by message, their runs, and runs that lose messages |
| `MessagePath.dfy`, `MessagePathSafety.dfy`, `MessagePathLaws.dfy`, `MessagePathCounters.dfy`, `DeliveredRun.dfy` | the composition: any number of clients, the server and a network that loses, delays, repeats and reorders; and a run in which all goes well |
| `JitterBuffer.dfy`, `JitterBufferRuns.dfy` | the playback buffer and its runs |
| `LoginRateLimit.dfy` | the login limiter and its sliding-window bound |
| `CallSignals.dfy`, `CallSignalRuns.dfy` | the bounded call-signal queue and its ledger |
| `Prekeys.dfy`, `PrekeyRuns.dfy` | one-time prekeys and interleaved prekey transactions |
| `Registration.dfy` | registration by invite, alone and interleaved |
| `Preview.dfy` | the camera preview's nested loops |
| `Arithmetic.dfy`, `Wrappers.dfy` | shared arithmetic, options and results |

Code that changes state in place is a class or a method with loops, proved equal to a function of the
old state; the lemmas about runs are about those functions. What each such function does is stated once
more without it, element by element, in the methods' contracts and in lemmas of their own. Environment answers (clock, disk, network,
database lookups, password hashing) are parameters. In runs, message ids allotted by a client are fresh,
as version 4 UUIDs are taken to be.

Three facts shape the statements. A refresh resets both counters, so counters repeat under one root:
soundness is about message ids and envelopes, not counters. Contact cards are never stored, hence never
acknowledged, and stay pending. The server alone does not tie acknowledgement to delivery; the
composition with the clients does.

Where a property holds only under a condition, the condition is shown to be exact:

- Unread counters stay truthful through a deletion exactly when no acknowledgement of that chat is on its
  way (`DeleteIsSafeExactly`), through a logout exactly when none at all is (`LogOutIsSafeExactly`), and
  through a login exactly when the history read back has room for the one on its way
  (`LogInIsSafeExactly`). While the counters are exact, a report that calls a message read is safe exactly
  when no received message of that id awaits reading (`ReadReportIsSafeExactly`). Short runs from the empty
  history break each of them (`LostAcksOvercount`, `ForgottenSendOvercounts`).
- The preview shows every frame of a size truly exactly when the width is at least 2 or twelve bytes a
  pixel fit in 32 bits (`PreviewIsTrueExactly`). Otherwise the last pixel is lost (`LastPixelIsLost`): the
  wrapped offsets of a release build never reach it.
- The bounds 14 and 2880 are reached (`FourteenIsReached`, `ThresholdStretchIsExact`).

In the whole system the counters of a device are truthful in every run in which it is careful: it avoids
the three losses above, and it does not file as received a message that its history once showed as sent
(`CountersNeverOverstate`). A device that never deletes a chat, logs out, logs in again or restarts is
always careful (`KeptHistoriesNeverOverstate`).

## Model

| member | source | states |
|---|---|---|
| Crypto.CryptoEngine.OpeningIsAuthentic | crates/crypto/src/lib.rs:135-159 | whatever key opens a sealed text, it yields exactly the sealed text |
| Crypto.SharedKeyIsSymmetric | crates/crypto/src/lib.rs:95-111 | both ends derive the same shared key |
| Crypto.KeysAreChecked | crates/crypto/src/lib.rs:95-175 | a key that is not 32 bytes is refused by every operation |
| Crypto.LawfulEnginesExist | crates/crypto/src/lib.rs:95-175 | the laws assumed of the engine are consistent |
| PeerSessions.SealedUsesCounterKey | crates/client-core/src/core.rs:275-294 | a send seals the text under the key that its counter names below the root, and keeps the session well-formed |
| PeerSessions.DecryptWithSession | crates/client-core/src/core.rs:683-711 | the skipping loop equals the closed form, error cases included, and leaves the session alone on failure |
| PeerSessions.V2OpensExactly | crates/client-core/src/core.rs:690-708 | a v2 envelope with counter n opens iff n is not passed and the text opens under the n-th message key of the root; the chain then stands at n + 1, otherwise nothing moves |
| PeerSessions.OtherOpensExactly | crates/client-core/src/core.rs:683-711 | anything but a v2 envelope is tried under the root key and never moves the session |
| PeerSessions.OpenedKeepsWellFormed | crates/client-core/src/core.rs:683-711 | opening keeps chains at their counters; only a v2 success moves a session, and past the envelope's counter |
| PeerSessions.ClientCore.SendTextToPeerWithId | crates/client-core/src/core.rs:268-304 | what is posted, the advanced session and the save, whatever the transport answers, whose answer is passed on; the no-session and error cases |
| PeerSessions.ClientCore.DerivePeerSharedKey | crates/client-core/src/core.rs:588-615 | it succeeds exactly when the bundle came and its key is usable, answering key and bundle; without a session, or on request, the device then has one with both chains at the key and counters 0, and otherwise nothing changes |
| PeerSessions.ClientCore.ResetPeerSession | crates/client-core/src/core.rs:471-480 | the session is gone and the answer says whether there was one |
| PeerSessions.ClientCore.DecryptPendingWithSessions | crates/client-core/src/core.rs:648-673 | the loop over a batch threads the sessions left to right; the ack ids are the ids of the output |
| BatchRecords.CountersAfterBatch | crates/client-core/src/core.rs:648-673 | a batch moves a receive counter to one past the largest authentic counter met, and never touches the send side |
| BatchRecords.OpensExactlyRecords | crates/client-core/src/core.rs:655-668 | one envelope of a batch opens exactly when its counter is a record among its peer's authentic ones, or it is a legacy envelope under the root |
| BatchRecords.BatchYieldsRecords | crates/client-core/src/core.rs:648-673 | the output of a batch is exactly the selection by the records rule, stated without moving sessions |
| BatchRecords.PeersAreIsolated | crates/client-core/src/core.rs:655-668 | dropping all other peers' envelopes changes neither a peer's session nor its messages |
| BatchRecords.SealedIsAuthentic | crates/client-core/src/core.rs:275-294 | what a peer seals from a session on the same root is authentic under that root |
| BatchRecords.FreshSessionOpensFirstAuthentic | crates/client-core/src/core.rs:648-711 | with a fresh session the first authentic envelope of a batch opens |
| SyncFlow.RunSyncFlow | crates/client-ui/src/app.rs:3291-3384 | the worker derives missing sessions, decrypts, and refreshes and retries exactly when a non-empty batch opened nothing and some refresh was attempted; the mappings, messages, statuses and count it reports |
| SyncFlow.RefreshSessions | crates/client-ui/src/app.rs:3334-3372 | the recovery loop refreshes for each item whose peer, bundle and pinned identity check out |
| SyncFlow.RefreshReplacesSessions | crates/client-core/src/core.rs:588-615 | a refreshed device has a fresh session on the last derived root; every other session is untouched |
| SyncFlow.ChangedIdentityIsNotRefreshed | crates/client-ui/src/app.rs:3334-3372 | when every item that would refresh a device carries an identity other than the pinned one, its session stays as it was |
| SyncFlow.KeptIdentityIsRefreshed | crates/client-ui/src/app.rs:3334-3372 | an item with the pinned or an unpinned identity whose refresh succeeds leaves a fresh session |
| SyncFlow.LastKeptIdentityGivesRoot | crates/client-ui/src/app.rs:3334-3372 | the refreshed root is that of the last such item |
| SyncFlow.FirstLoopKeepsSessions | crates/client-ui/src/app.rs:3306-3331 | the first loop leaves existing sessions alone |
| SyncFlow.FirstLoopDerives | crates/client-ui/src/app.rs:3306-3331 | after the first loop a known sender with a usable bundle has a session |
| SyncFlow.FirstLoopAddsFresh | crates/client-ui/src/app.rs:3306-3331 | a session it adds is a fresh one on the key of a bundle for that device |
| SyncFlow.EveryDerivationIsReported | crates/client-ui/src/app.rs:3316-3328 | the first loop's mappings are exactly the successful derivations |
| SyncFlow.EveryCheckedBundleIsReported | crates/client-ui/src/app.rs:3359-3363 | the recovery loop reports every bundle it fetched, a changed identity included |
| SyncFlow.NoRetryKeepsFirstPass | crates/client-ui/src/app.rs:3332-3377 | a first pass that opened something, or no kept identity, ends the sync |
| SyncFlow.NothingOpenedNothingMoved | crates/client-ui/src/app.rs:3332-3333 | a first pass that opens nothing leaves every session as it was |
| SyncFlow.RecoveryOpensFirstAuthentic | crates/client-ui/src/app.rs:3332-3377 | after an empty first pass the retry yields exactly the records from floor 0 for refreshed devices, the first authentic envelope among them |
| SyncFlow.SyncNeverStaysStuck | crates/client-ui/src/app.rs:3332-3377 | an envelope the peer sealed on the shared key brings at least one message out of the sync once the peer's true key is refreshed |
| SessionStore.Save | crates/client-core/src/session_store.rs:37-54 | the file lists every session once with its chains and counters, sorted by peer |
| SessionStore.SortedFileIsUnique | crates/client-core/src/session_store.rs:53 | the sorted file does not depend on the order in which the map is read |
| SessionStore.LoadUndoesSave | crates/client-core/src/session_store.rs:8-55 | loading what was saved gives back the same session map, in whatever order the file lists it |
| SessionStore.LoadedFieldByField | crates/client-core/src/session_store.rs:12-34 | fields come back one by one; a missing chain starts at the shared key |
| SessionStore.LastItemWins | crates/client-core/src/session_store.rs:34 | of several items for one peer the last one is loaded |
| SessionStore.BeforeIsLexicographic | crates/client-core/src/session_store.rs:53 | the file's order is the lexicographic one |
| SessionStore.UnlockLocalStorage | crates/client-core/src/core.rs:53-57 | the sessions become those last saved when the file opens and lists them, and none when it does not open |
| Mailbox.MessageTable.InsertMessage | crates/server/src/repository/messages.rs:3-23 | a known id changes nothing and reports 0 rows, a new one appends an undelivered, unacknowledged row |
| Mailbox.MessageTable.FetchPendingLocked | crates/server/src/repository/messages.rs:25-42 | the rows picked are a valid answer to the ordered, limited, lock-skipping select |
| Mailbox.MessageTable.AckMessages | crates/server/src/repository/messages.rs:55-71 | exactly the addressee's named unacknowledged rows gain an acknowledgement time, and the count is the number of rows changed |
| Mailbox.MessageTable.FetchStatuses | crates/server/src/repository/messages.rs:73-87 | one status for each of the sender's own named rows, delivered and read as its times say |
| Mailbox.MessageTable.DrainPendingMessages | crates/server/src/services/messages.rs:10-47 | the transaction returns the picked rows and marks exactly them delivered |
| Mailbox.DrainIsExact | crates/server/src/repository/messages.rs:25-53 | a drain returns min(limit, pending) rows, oldest first, and changes exactly the delivery times that were missing |
| Mailbox.SendMessage | crates/server/src/domain/messaging.rs:48-113 | a message enters the table iff the sender is authenticated and may write to the recipient; otherwise nothing changes |
| Mailbox.FetchPending | crates/server/src/domain/messaging.rs:115-128 | only the device itself drains, with the limit clamped to 1..500 and 100 by default |
| Mailbox.AckMessage | crates/server/src/domain/messaging.rs:130-147 | only the device itself acknowledges; the count is the number of rows hit |
| MailboxRuns.RowsOnlyAdvance | crates/server/src/repository/messages.rs:44-87 | over any run a row keeps its first content, its status never goes back, and it is read iff its addressee acknowledged it |
| MailboxRuns.DeliveredExactlyByDrains | crates/server/src/repository/messages.rs:44-53 | over any run a row is delivered iff it was before or a drain that had picked it committed |
| MailboxRuns.NewRowsAreUndelivered | crates/server/src/repository/messages.rs:10-14 | a row enters the table undelivered and unacknowledged, holding what was sent |
| MailboxRuns.NeverReturnedAfterRead | crates/server/src/services/messages.rs:10-47 | no committed drain hands out a row acknowledged before |
| MailboxRuns.OpenDrainsAreDisjoint | crates/server/src/repository/messages.rs:31-36 | drains open at the same time hold different rows of their own devices |
| MailboxRuns.FirstInsertWins | crates/server/src/repository/messages.rs:10-14 | inserting a known id again changes nothing, and the id names one row |
| ChatHistory.MessengerApp.PushIncoming | crates/client-ui/src/app.rs:1870-1961 | a known id is ignored, a contact card only opens a chat, anything else is appended and counted unless its chat is selected |
| HistoryLaws.ArrivalIsAppended | crates/client-ui/src/app.rs:1894-1950 | a new message is appended to its chat, whatever the chat held, shown as its payload says, and counted iff another chat is selected; nothing else changes |
| HistoryLaws.CardOnlyOpensChat | crates/client-ui/src/app.rs:1878-1893 | a new contact card opens its chat and does nothing else |
| HistoryLaws.KnownIdIsIgnored | crates/client-ui/src/app.rs:1871-1877 | a message already held changes nothing |
| HistoryLaws.NickIsWhereItGoes | crates/client-ui/src/app.rs:1922-1931 | the chat is the known peer's, or is named after the device's first eight characters |
| ChatHistory.MessengerApp.MarkSelectedChatRead | crates/client-ui/src/app.rs:1653-1695 | which messages become Read, which ids are acknowledged, and when nothing happens |
| HistoryLaws.MarkingIsExact | crates/client-ui/src/app.rs:1653-1695 | exactly the waiting ids of the selected chat are sent off, its received messages become Read, and its counter goes |
| ChatHistory.MessengerApp.PollReadAckResult | crates/client-ui/src/app.rs:1697-1725 | a failed acknowledgement restores Delivered and gives the count back |
| HistoryLaws.PollIsExact | crates/client-ui/src/app.rs:1697-1725 | what each answer does to messages, counter and acknowledgement |
| ChatHistory.MessengerApp.ApplyOutgoingStatuses | crates/client-ui/src/app.rs:1746-1768 | every message with a reported id takes the reported status |
| HistoryLaws.LastReportWins | crates/client-ui/src/app.rs:1746-1768 | every message takes the status of the last report naming it: Read, Delivered or Sent |
| ChatHistory.OutgoingMessageIds | crates/client-ui/src/app.rs:1727-1735 | the ids are exactly those of sent messages not yet Read |
| ChatHistory.MessengerApp.SendCurrentMessage | crates/client-ui/src/app.rs:878-918 | exactly when every check passes the message is appended to the selected chat as Sending under its new id; nothing else changes |
| ChatHistory.MessengerApp.UpdateMessageStatus | crates/client-ui/src/app.rs:1530-1539 | a late send result writes the status of whatever stands at its index, or nothing |
| ChatHistory.MessengerApp.DeleteChatLocally | crates/client-ui/src/app.rs:814-823 | the chat and its counter are gone, and it is no longer selected |
| ChatHistory.MessengerApp.ClickChat | crates/client-ui/src/app.rs:2153-2164 | a click deselects the selected chat, or selects another and marks it |
| HistoryLaws.ClickIsExact | crates/client-ui/src/app.rs:2153-2164 | both cases of a click |
| ChatHistory.MessengerApp.ApplyOpenChatSuccess | crates/client-ui/src/app.rs:699-710 | opening selects the chat, learns its device and marks it |
| HistoryLaws.OpeningIsExact | crates/client-ui/src/app.rs:699-710 | opening keeps what the chat held |
| ChatHistory.MessengerApp.ApplyPeerMapping | crates/client-ui/src/app.rs:1614-1635 | a mapping learns the device and opens a chat if there is none |
| ChatHistory.MessengerApp.LogOut | crates/client-ui/src/app.rs:632-646 | the history is emptied; selection and acknowledgement stay |
| ChatHistory.MessengerApp.PollLoginResult | crates/client-ui/src/app.rs:584-590 | the history read back replaces the one in memory; selection and acknowledgement stay |
| HistoryRuns.RestoredCounts | crates/client-ui/src/app.rs:1703-1719 | a restore gives back exactly the messages marked Read under the acknowledgement |
| HistoryRuns.MarkedCounts | crates/client-ui/src/app.rs:1664-1677 | marking covers every id that is sent in the acknowledgement |
| HistoryRuns.UnreadHeldIsCount | crates/client-ui/src/app.rs:1664-1668 | the bound on a counter is the number of received messages not marked Read |
| HistoryRuns.StepKeepsDistinct | crates/client-ui/src/app.rs:1870-1877 | ids stay distinct through arrivals, deletions, statuses and fresh sends |
| HistoryRuns.LateSendResultKeepsGood | crates/client-ui/src/app.rs:1530-1539 | a late send result keeps the counters truthful even when it hits another message after a deletion |
| HistoryRuns.RunKeepsGood | crates/client-ui/src/app.rs:1653-1725 | in every run no unread counter exceeds the received messages not marked Read, and ids are distinct |
| HistoryRuns.DeleteIsSafeExactly | crates/client-ui/src/app.rs:814-823 | deleting a chat keeps the counters truthful iff no acknowledgement of it is on its way |
| HistoryRuns.LogOutIsSafeExactly | crates/client-ui/src/app.rs:632-646 | logging out keeps the counters truthful iff no acknowledgement is on its way |
| HistoryRuns.LogInIsSafeExactly | crates/client-ui/src/app.rs:584-590 | reading a history back keeps the counters truthful iff it has room for the acknowledgement on its way |
| HistoryRuns.ReadReportIsSafeExactly | crates/client-ui/src/app.rs:1746-1768 | from exact counters a report that calls an id read keeps them truthful iff no received message of that id awaits reading |
| HistoryRuns.StepKeepsIds | crates/client-ui/src/app.rs:1870-1961 | only deletions, logouts and logins take messages out of a history |
| HistoryLosses.ReadingIsGood | crates/client-ui/src/app.rs:1653-1695 | a reachable state with an acknowledgement on its way that satisfies the whole invariant |
| HistoryLosses.LostAcksOvercount | crates/client-ui/src/app.rs:1697-1725 | arrive, click, then delete, log out or log in, and a failed acknowledgement: a counter claims a message its chat does not hold |
| HistoryLosses.ForgottenSendOvercounts | crates/client-ui/src/app.rs:1746-1768 | send to oneself, delete, receive, and a late read report: a counter claims a message no longer unread |
| MessagePathSafety.BatchIsAuthentic | crates/client-core/src/core.rs:648-673 | every plaintext of a handed-out batch is the text its id was issued for |
| MessagePathSafety.AckedRowsAreOk | crates/client-ui/src/app.rs:1653-1695 | what an acknowledgement names was delivered and filed before |
| MessagePathSafety.OutgoingIdsAreShown | crates/client-ui/src/app.rs:1727-1735 | a sync asks only about messages its own history shows as sent |
| MessagePathSafety.StepKeepsSound | crates/client-ui/src/app.rs:1610-1695 | every action of client, server or network keeps the whole path sound |
| MessagePathSafety.ChainsAndPlaintexts | crates/client-core/src/core.rs:268-304 | in every run each chain stands at its counter below the root and every plaintext is what its issuer encrypted |
| MessagePathSafety.ReadMeansDeliveredAndFiled | crates/server/src/repository/messages.rs:44-71 | a row becomes acknowledged only by its addressee, after delivery and after its exact text entered the addressee's history |
| MessagePathSafety.ReadReceiptsAreTruthful | crates/client-ui/src/app.rs:1746-1768 | a sent message shown as Read was delivered to and filed by the device it was issued to, with exactly its text |
| MessagePathSafety.HistoriesStayDistinctAndTrue | crates/client-ui/src/app.rs:1610-1651 | in every run histories keep distinct ids and received messages show the issued text |
| MessagePathSafety.ContactsStayPending | crates/client-ui/src/app.rs:1878-1893 | a contact card is never acknowledged |
| MessagePathLaws.FiledIsShown | crates/client-ui/src/app.rs:1934-1947 | what the log calls filed is a received message of the history, with its id and text |
| MessagePathLaws.ShownIsFiled | crates/client-ui/src/app.rs:1934-1947 | and what an arrival newly shows is filed |
| MessagePathLaws.FiledWasShown | crates/client-ui/src/app.rs:1870-1961 | every filing of a run was shown by the device's own history |
| MessagePathLaws.DeliveredOnlyByDrain | crates/server/src/services/messages.rs:10-47 | a row gains its delivery time exactly when a drain of its addressee picks it |
| MessagePathLaws.DeliveredMeansHandedOut | crates/server/src/services/messages.rs:10-47 | in every run a delivered row was handed to its addressee in the answer to one of its drains |
| MessagePathLaws.ReadMeansHandedOutAndShown | crates/client-ui/src/app.rs:1653-1695 | in every run an acknowledged row was handed out by a drain and shown in the addressee's history with exactly the issued text |
| MessagePathLaws.PostsAreSealed | crates/client-core/src/core.rs:268-304 | what is posted is the issued text sealed under the session's next key, addressed as issued |
| MessagePathLaws.SavedComesBack | crates/client-core/src/session_store.rs:8-55 | a restart reads back what was saved, or no session when the file does not open |
| DeliveredRun.LettersCanBeRead | crates/client-ui/src/app.rs:1610-1768 | two fresh devices have a run that ends with the sender's history showing Read and the receiver's showing the text |
| MessagePathCounters.UiIsAllowed | crates/client-ui/src/app.rs:1610-1651 | the reports a sync asked for and the fresh ids of the whole system meet everything a history step assumes |
| MessagePathCounters.StepKeepsCounted | crates/client-ui/src/app.rs:1653-1725 | every action of any client, the server or the network keeps a careful device's counters truthful |
| MessagePathCounters.CountersNeverOverstate | crates/client-ui/src/app.rs:1653-1725 | in every run of the whole system no unread counter of a careful device exceeds the received messages not marked Read |
| MessagePathCounters.KeptHistoriesNeverOverstate | crates/client-ui/src/app.rs:1653-1725 | the same for every device that does not delete chats, log out, log in again or restart, with no other assumption |
| JitterBuffer.PlaybackStream.Produce | crates/client-ui/src/media.rs:483-486 | the queue keeps exactly the newest 96000 samples |
| JitterBuffer.PlaybackStream.NextFrame | crates/client-ui/src/media.rs:971-987 | one output frame in numbers: when it plays, what is trimmed, and that it writes the oldest sample left or 0 |
| JitterBuffer.PlaybackStream.Callback | crates/client-ui/src/media.rs:967-992 | the callback is one frame per chunk, each sample of it holding the popped sample or 0 |
| JitterBufferRuns.FrameFacts | crates/client-ui/src/media.rs:970-987 | no underrun, silence drops nothing, at most TARGET + frames stay queued |
| JitterBufferRuns.LedgerFollowsCallback | crates/client-ui/src/media.rs:967-992 | the ledger of a run has the callback's own state and emissions |
| JitterBufferRuns.OutputIsRecorded | crates/client-ui/src/media.rs:983-990 | the array holds what the ledger records as popped, and 0 where it records silence |
| JitterBufferRuns.SoundIsNeverChoppy | crates/client-ui/src/media.rs:967-987 | in every run no frame pops an empty queue and every finished stretch of sound lasts at least 2880 frames |
| JitterBufferRuns.SamplesAreConserved | crates/client-ui/src/media.rs:470-487 | pushed = played + dropped + queued; drops leave from the oldest end; what is heard is what was played, in order |
| JitterBufferRuns.ThresholdStretch | crates/client-ui/src/media.rs:967-987 | a buffer at the threshold with no producer plays its first 2880 samples in order |
| JitterBufferRuns.ThresholdStretchIsExact | crates/client-ui/src/media.rs:971-976 | such a buffer plays exactly 2880 frames, then falls silent |
| JitterBufferRuns.ThresholdOutput | crates/client-ui/src/media.rs:967-992 | for its first 2880 frames the array holds the queue, sample by sample |
| LoginRateLimit.LoginRateLimiter.Allow | crates/server/src/login_rate_limit.rs:26-50 | the entry and the answer, touching no other key |
| LoginRateLimit.LoginRateLimiter.RecordFailure | crates/server/src/login_rate_limit.rs:52-68 | the counted entry, blocked from the eighth failure |
| LoginRateLimit.UserLogin | crates/server/src/handlers/user.rs:28-48 | ask, check, record; other users' entries are untouched |
| LoginRateLimit.AttemptKeepsBounded | crates/server/src/login_rate_limit.rs:26-68 | one attempt keeps the bound between window, count and interval |
| LoginRateLimit.AtMostFourteenGuesses | crates/server/src/login_rate_limit.rs:26-68 | any closed 60-second interval without a login lets at most 14 wrong guesses past |
| LoginRateLimit.BlockHolds | crates/server/src/login_rate_limit.rs:35-42 | a block lets nothing past and does not move until it ends |
| LoginRateLimit.EntryCountsGuesses | crates/server/src/login_rate_limit.rs:26-68 | in every run the stored count is the number of guesses recorded since the stored window began, and the entry is blocked iff that is eight |
| LoginRateLimit.EighthFailureBlocks | crates/server/src/login_rate_limit.rs:64-67 | once eight wrong guesses of one window got past nothing passes for 300 seconds, and the first attempt from then on does |
| LoginRateLimit.EightInARowBlock | crates/server/src/login_rate_limit.rs:26-68 | eight wrong guesses in a row within a minute of a fresh start all get past and then block the user for 300 seconds |
| LoginRateLimit.FourteenIsReached | crates/server/src/login_rate_limit.rs:44-47 | a run that reaches the bound |
| CallSignals.CallSignalQueue.SendCallSignal | crates/server/src/domain/call_signaling.rs:35-103 | a signal is accepted iff every check passes, and then the oldest goes if the queue is full; a refusal names the first check that fails |
| CallSignals.CallSignalQueue.FetchCallSignals | crates/server/src/domain/call_signaling.rs:105-132 | the loop hands out the first matching signals up to the limit and keeps the rest in order |
| CallSignals.FetchIsExact | crates/server/src/domain/call_signaling.rs:114-130 | only signals of this device and call go out, at most the limit, and one stays only when the limit is reached |
| CallSignalRuns.LedgerFollowsQueue | crates/server/src/domain/call_signaling.rs:94-131 | the numbered ledger's queue and deliveries are those of the queue operations |
| CallSignalRuns.TakenIsPrefix | crates/server/src/domain/call_signaling.rs:119-129 | among signals of one call to one device a fetch takes a prefix |
| CallSignalRuns.EverySignalOnce | crates/server/src/domain/call_signaling.rs:94-131 | every accepted signal is exactly once queued, delivered to its addressee, or evicted |
| CallSignalRuns.CallsStayInOrder | crates/server/src/domain/call_signaling.rs:115-131 | a device receives one call's signals in acceptance order under any mix of fetches |
| CallSignalRuns.EvictionsComeLate | crates/server/src/domain/call_signaling.rs:94-101 | at most 2048 are queued, and an evicted signal saw at least 2048 later ones accepted |
| Prekeys.PrekeyTable.ConsumeOneTimePrekey | crates/server/src/repository/prekeys.rs:23-44 | the free unlocked key with the least row id is consumed and returned |
| Prekeys.PrekeyTable.UploadPrekeys | crates/server/src/domain/device.rs:49-78 | all items or none; the answer counts the new keys |
| Prekeys.UploadKeepsKnownKeys | crates/server/src/repository/prekeys.rs:9-20 | known keys are untouched, a new key has its first item's public key, and the row count grows by the number reported |
| PrekeyRuns.NoKeyIsGrantedTwice | crates/server/src/domain/messaging.rs:16-46 | no two committed fetches return the same key, and consumed means returned |
| PrekeyRuns.OpenFetchesHoldDistinctKeys | crates/server/src/repository/prekeys.rs:27-39 | open fetches hold different unconsumed keys |
| PrekeyRuns.RollbackFreesTheKey | crates/server/src/domain/messaging.rs:20-33 | a rolled-back fetch makes its key available again |
| PrekeyRuns.KeysAreNeverRevived | crates/server/src/repository/prekeys.rs:9-20 | a consumed key stays consumed with its public key, whatever is uploaded later |
| PrekeyRuns.CommittedUploadIsStored | crates/server/src/domain/device.rs:60-77 | a committed upload stores exactly its keys |
| PrekeyRuns.CommittedFetchIsGranted | crates/server/src/domain/messaging.rs:16-46 | a committed fetch consumes and returns exactly the key it picked |
| PrekeyRuns.KeysCanBeGranted | crates/server/src/domain/messaging.rs:16-46 | a run that uploads a key and hands it out |
| Registration.AccountTables.Register | crates/server/src/domain/user.rs:72-130 | success iff every check passes, adding one user and marking one invite; every refusal leaves both tables alone and names the first check that fails |
| Registration.InvitesMatchUsers | crates/server/src/domain/user.rs:85-129 | under any interleaving used invites and registered users correspond one to one |
| Registration.OnlyCommitsChangeTables | crates/server/src/domain/user.rs:85-129 | the tables change only at a commit, by one new user and one unused invite now used |
| Registration.UseIsFinal | crates/server/src/repository/registration_invites.rs:49-64 | a used invite keeps its user for ever |
| Registration.InvitesCanBeUsed | crates/server/src/domain/user.rs:85-129 | a run in which a valid invite brings in a user |
| Preview.PreviewRgb | crates/client-ui/src/media.rs:716-737 | the nested loops give the even dimensions, width at most 320, and every byte of the painted canvas, for any input |
| Preview.GuardAlwaysHolds | crates/client-ui/src/media.rs:729-731 | for a frame with room both byte offsets are exact and in bounds |
| Preview.OffsetsFitExactly | crates/client-ui/src/media.rs:717-724 | the output offsets of a frame fit in u32 iff its width is at least 2 or 12 times its height fits |
| Preview.PreviewIsNearestNeighbour | crates/client-ui/src/media.rs:725-734 | with room, pixel (x, y) shows source pixel (floor(x w / tw), floor(y h / th)) |
| Preview.NearestPixelIsShown | crates/client-ui/src/media.rs:725-734 | the same from inequalities, without division |
| Preview.WidthIsExact | crates/client-ui/src/media.rs:717 | the width is the largest even number up to the frame's and 320 |
| Preview.HeightIsExact | crates/client-ui/src/media.rs:718-720 | the height is the largest even number that keeps the aspect, in 32 bits |
| Preview.LastPixelIsLost | crates/client-ui/src/media.rs:729-731 | without room the last output pixel is black whatever the frame holds there |
| Preview.PreviewIsTrueExactly | crates/client-ui/src/media.rs:716-737 | all frames of a size are previewed truly iff the size has room |
| Preview.ThinFramesMayOverflow | crates/client-ui/src/media.rs:729-731 | a size and a frame for which the preview is wrong |

## Left out

- Counter overflow: ratchet counters are natural numbers; the u64 limit is never reached by honest sends.
- Primitives: X25519, Ed25519, HKDF, XChaCha20-Poly1305, Argon2, base64, JSON and the local vault are parameters or laws.
- Legacy envelopes: modelled only as tried under the root key and never moving a session.
- Eventual delivery: not promised by the code, since contact cards stay unacknowledged and refreshes reset counters.
- MailboxRuns: NOW() is a clock given with each statement, and an acknowledgement that would wait for a lock is simply taken later.
- ChatHistory.MessengerApp.PushIncoming: notifications, the call tone and the automatic busy answer are not modelled.
- Preview arithmetic: the u32 offsets are those of a release build, which wraps; a debug build stops where they overflow.
- Per-message status order in the history: a late send result may overwrite a newer status, so only the server's status is monotone.
- Parsing of invite codes and UUIDs, blob upload, presence, user blocks beyond the send checks, devices other than "main", HTTP and WebSocket transport, the version gate, the user interface and the codecs.
- JitterBuffer.PlaybackStream.Callback: the playback callback's values are written unconverted.
