# hermEX ActiveSync: a verified model of the synchronization core

This project models the server side of Exchange ActiveSync in hermEX and proves, for all
inputs and for whole runs, what the protocol is for: a device that keeps syncing a mail
folder ends up holding what the folder holds, nothing is sent twice or lost, its own edits
are not sent back to it, the folder tree stays a tree, and a remote wipe is delivered
exactly as asked. Where one of these holds only under a condition, the condition is exact.

| file | content |
|---|---|
| `Snapshot.dfy` | the diff of a device's snapshot against a folder, the frame theorem, what recording a part of the diff leaves |
| `Mail.dfy`, `MailEdits.dfy` | client commands on mail folders, and what a batch leaves of each message |
| `Objects.dfy`, `Additions.dfy` | client commands on calendar, contact, task and note folders, and the answers to additions |
| `ObjectEcho.dfy` | which of a device's own object edits come back to it |
| `SyncState.dfy` | sync keys over a run |
| `Rounds.dfy` | window capping, drains of a stable folder |
| `Replica.dfy`, `ObjectReplica.dfy` | device, server and mailbox as one transition system, for mail and for object folders |
| `Exact.dfy`, `Convergence.dfy` | when device and server agree exactly on a mail folder, and how long a device takes to catch up |
| `PartialChange.dfy`, `ObjectConvergence.dfy` | the same for object folders: what a Change of some properties does to the others, and how long catching up takes |
| `Delivery.dfy` | which folders are served from what, which change an item gives rise to, what each key is answered with |
| `Engine.dfy`, `Server.dfy` | the imperative code of Sync, GetItemEstimate and Ping, proved against the modules above |
| `Folders.dfy`, `Seed.dfy` | the folder tree under FolderCreate, FolderDelete and FolderUpdate, and the tree a mailbox starts with |
| `FolderEffects.dfy` | when each folder command succeeds, what it does to the tree, and which folders a run leaves |
| `Wipe.dfy` | the remote-wipe record of each device |
| `Bcc.dfy`, `BccBody.dfy` | blind-copy stripping, and what it does to the body |
| `Attachments.dfy`, `FreeBusy.dfy` | attachment numbering, free/busy strings |
| `Recurrence.dfy`, `RuleTexts.dfy` | recurrence rules as text: writing and reading them, and what any text says |
| `Tasks.dfy` | a task's rule on its trip to a device and back |
| `Strconv.dfy`, `Text.dfy` | decimal numbers as Go's strconv prints and reads them; cutting and joining text |

## How the model reads the code

- The list of deletions in a diff is collected from a map and sorted by an order in which
  two spellings of one number tie, so the diff is a relation, `Snapshot.IsDiff`, and every
  theorem holds for each list the code might produce. `Snapshot.DiffUnique` says when
  there is only one.
- Objects that the code updates in place (a collection's state, the mailbox, the device's
  saved collections, the folder hierarchy, the device registry, the digit buffer) are
  classes and arrays. Their methods are proved against value-level functions, and the
  theorems are about those.
- A message whose body cannot be read (`unreadable`) and an object's renderer (`render`)
  are parameters; so are the ids the store allocates, the time of a contact and the mailbox
  as each check of a held request finds it.
- A device is taken to give each addition of a request a client id of its own, as MS-ASCMD
  asks, and to learn the server ids from the responses alone.
- A device's Change of an object reallocates its change number, as
  `internal/objectstore/props.go:119-127` says; the comment at
  `internal/activesync/objectclass.go:15-17` says it does not.
- Where the code as written does less than it promises, the model keeps the code and the
  theorem gives the exact condition:
  - a server id with leading zeros reaches its message or object but is recorded or dropped
    under its own spelling, so that the device's own edit is sent back to it
    (`Mail.ChangeReachedSettlesIff`, `Mail.DeleteReachedSettlesIff` and their namesakes in
    `ObjectEcho`; the case of "007" in `OddSpellingEchoes`);
  - a Change without a Read element folds the server's read state into the snapshot, and
    the device is never sent it (`Exact.ChangeWithoutReadAgreesIff`);
  - a device that edits an item already gone keeps a stale copy until the deletion is
    within the window (`Exact.ExactAfterRoundIff`, with a run from a fresh mailbox in
    `Exact.ExactAgreementCanFail`); where no edit comes too late, agreement is exact
    throughout (`Exact.TimelyRunExact`);
  - a Change of an object that has left the folder does not settle it
    (`ObjectEcho.WrittenComesBackIff`, with a batch in `ObjectEcho.LateChangeComesBack`);
  - a Change of an object writes the properties it carries and records the item as sent, so
    what others changed in its remaining properties never reaches the device
    (`PartialChange.ChangeAgreesIff`, with a run from a fresh mailbox in
    `PartialChange.AChangeCanBeLost`);
  - a mail drain stops for good at the first new message that cannot be read
    (`Rounds.DrainAnsweredIff`);
  - an object drain whose first window's worth of entries cannot be rendered never ends
    (`Rounds.ObjectDrainAgreesIff`);
  - Ping reads the mail index also for an object folder, where only a recovered item has a
    row (`Server.PingOnObjectsIff`, `Server.PingWithoutIndex`);
  - a heartbeat request that only primes, or only carries stale keys, is held although it
    has an answer ready (`Server.HeldIffNothingToCollect`);
  - the unsigned key counter wraps (`SyncState.NextKeyLargerIff`);
  - stripping a Bcc field that ends a CRLF header leaves a stray carriage return
    (`Bcc.BareCRIff`, `Bcc.StrayCarriageReturn`);
  - a message whose only blank line mixes the two line endings is sent with its Bcc field
    (`Bcc.BccSurvivesIff`, `Bcc.MixedKeepsBcc`);
  - the header is taken to end at the first CRLF blank line even when an LF one comes
    before, so a line of the body that looks like a Bcc field goes too; and a header of
    nothing but Bcc leaves an empty line for the body to start with (`BccBody.BodyKeptIff`,
    `BccBody.QuotedLineGoes`, `BccBody.EmptyLineLeft`);
  - a monthly nth-weekday task comes back as a yearly one and a yearly task loses its
    recurrence (`Tasks.RoundTripIff`), although the comment at
    `internal/activesync/tasks.go:191-194` counts yearly rules among the shapes covered;
  - cancelling a wipe is documented to have no effect once the device has acknowledged it
    (`internal/activesync/devices.go:233-234`), yet it overwrites that record; no later
    answer depends on it (`Wipe.CancelUnnoticedIff`).

## Model

| member | source | states |
|---|---|---|
| Snapshot.Frame | internal/activesync/sync.go:435-460 | Whatever changes on a set of items only, leaving each of them equal in snapshot and folder, removes exactly those items from the diff and keeps the rest in order |
| Snapshot.DiffDistinct | internal/activesync/sync.go:435-460 | No item occurs twice in a diff, and each entry is about an item on which snapshot and folder differ, with the folder's version |
| Snapshot.PendingIffUnsettled | internal/activesync/calendar.go:339-365 | An item is pending if and only if snapshot and folder disagree about it |
| Snapshot.DiffLength | internal/activesync/sync.go:435-460 | Every diff of one snapshot and folder has the same length |
| Snapshot.RecordSome | internal/activesync/calendar.go:370-389 | Recording any selection of pending changes leaves exactly the others pending, in order |
| Snapshot.ResidualIsSuffix | internal/activesync/sync.go:363-381 | After sending and recording the first w changes, the next diff is the old one without its first w entries |
| Snapshot.NothingPendingIffAgree | internal/activesync/sync.go:435-460 | Nothing is pending if and only if the snapshot is the folder |
| Snapshot.DiffUnique | internal/activesync/sync.go:767-771 | The diff is unique where no two vanished ids read as the same number |
| Snapshot.Resume | internal/activesync/sync.go:363-381 | What was sent of a diff, followed by any diff computed afterwards, is a diff of the snapshot as it was before |
| Snapshot.DiffExists | internal/activesync/sync.go:435-460 | Every snapshot and folder have a diff |
| Strconv.ParseFormatUint | internal/activesync/state.go:88-94 | A printed unsigned number reads back, up to the parser's limit |
| Strconv.ParseFormatInt | internal/activesync/attachments.go:70-86 | Every printed 64-bit number reads back |
| Strconv.FormatUintInjective | internal/activesync/sync.go:435-460 | Two uids never share a server id |
| Mail.SetSeen | internal/activesync/sync.go:495-517 | Sets the read bit and leaves every other flag |
| Mail.ClearSeen | internal/activesync/sync.go:495-517 | Clears the read bit and leaves every other flag |
| Mail.NoEcho | internal/activesync/sync.go:466-490 | After any batch of Change and Delete in issued spelling, the diff is the earlier one without exactly the items of the successful commands |
| Mail.ChangeSettlesIffIssued | internal/activesync/sync.go:495-517 | A successful Change leaves the id it used settled if and only if that is spelled as issued; otherwise the spelling comes back as a deletion |
| Mail.ChangeReachedSettlesIff | internal/activesync/sync.go:495-517 | The message a Change reaches is settled under its own id if and only if the Change used that id or the snapshot already held the new flags |
| Mail.DeleteReachedSettlesIff | internal/activesync/sync.go:476-488 | The message a Delete reaches is settled under its own id if and only if the Delete used that id or the snapshot never held it |
| Mail.OddSpellingEchoes | internal/activesync/sync.go:466-517 | With message 7 in sync, a Change of "007" is answered with a change of "7" and a deletion of "007", a Delete of "007" with a deletion of "7" |
| MailEdits.BatchEdits | internal/activesync/sync.go:466-517 | After any batch a message is in the folder if and only if it was and no Delete named it; its read flag is what the last Change with Read "1" or "0" said, or as it was; nothing else about it changes |
| MailEdits.CommandRecords | internal/activesync/sync.go:466-517 | A Change that reaches a message records its new flags, a Delete that does drops the entry, both under the id as spelled; no command changes another entry |
| MailEdits.ReadReported | internal/activesync/sync.go:495-517 | A batch reports a message as read if and only if one of its commands took it from unread to read |
| Mail.ApplyAllValid | internal/activesync/sync.go:466-490 | A batch keeps the uid order and never adds a uid |
| Mail.ChangeTransition | internal/activesync/sync.go:495-517 | A Change reports its message's object id if and only if it took it from unread to read, and no other message |
| Mail.SilentTransition | internal/activesync/sync.go:466-490 | A Delete, a failed or an unknown command reads no message |
| Additions.AddsAnswered | internal/activesync/objectclass.go:60-109 | Each Add that has a client id, data that parse and an id from the store is answered, and no other, in command order, with its client id and the decimal of the new id; the folder lists that id afterwards if and only if no later Delete names it |
| ObjectReplica.AnswersSuffice | internal/activesync/objectclass.go:86-109 | A device that goes by the answers holds each stored addition under its server id and no other |
| Objects.BatchKeeps | internal/activesync/objectclass.go:60-85 | Over any batch of Add, Change and Delete: the rows stay in id order, deleted ids stay deleted, the snapshot changes on deleted ids only, entries outside the written and deleted ids do not move |
| Objects.NumbersTaken | internal/objectstore/recoverable.go:51-116 | An Add and a Change take one change number, the first Delete of a row two and keeps the second, all else none |
| Objects.BatchSettles | internal/activesync/objectclass.go:151-165 | The fold leaves exactly the written-and-listed and the deleted ids settled and no other id changed |
| Objects.NoEcho | internal/activesync/objectclass.go:60-85 | After a batch and the fold, the diff is the earlier one without exactly the settled ids |
| ObjectEcho.ListedAfterIff | internal/activesync/objectclass.go:60-85 | After a batch the folder lists exactly what it listed or was given, without what was deleted |
| ObjectEcho.WrittenIff | internal/activesync/objectclass.go:60-132 | The batch writes exactly what it creates, and what it changes that the store knew beforehand |
| ObjectEcho.DroppedIff | internal/activesync/objectclass.go:135-144 | Of the objects the store knew beforehand exactly those named by a Delete are dropped |
| ObjectEcho.WrittenComesBackIff | internal/activesync/objectclass.go:114-165 | An object the batch writes is pending afterwards if and only if the snapshot holds it, the folder did not list it before, and the batch neither created nor deletes it |
| ObjectEcho.LateChangeComesBack | internal/activesync/objectclass.go:114-165 | A Change of a deleted object the device still holds, answered with its deletion |
| ObjectEcho.ChangeReachedSettlesIff | internal/activesync/objectclass.go:114-165 | The listed object a Change reaches is settled if and only if the Change used its own id or the snapshot already held the next change number |
| ObjectEcho.DeleteReachedSettlesIff | internal/activesync/objectclass.go:135-144 | The object a Delete reaches is settled if and only if the Delete used its own id or the snapshot never held it |
| ObjectEcho.OddSpellingEchoes | internal/activesync/objectclass.go:114-165 | With object 7 in sync, a Change of "007" is sent back as a change of "7", a Delete of "007" as a deletion of "7" |
| Objects.SidListed | internal/objectstore/folderobjects.go:27-46 | An object is listed if and only if its row is in the folder and not soft-deleted |
| SyncState.SyncKeyGate | internal/activesync/sync.go:417-430 | Key "0" resets to key "1" and an empty snapshot; an empty or different key is refused and changes nothing; the current key passes |
| SyncState.CollectionState.constructor | internal/activesync/state.go:28-31 | A collection's state holds the key and snapshot it was given |
| SyncState.NextOfIssued | internal/activesync/state.go:88-94 | The successor of an issued key is an issued key whose number is one more, modulo 2^64 |
| SyncState.NextKeyLargerIff | internal/activesync/state.go:88-94 | A new key differs from the spent one, and exceeds it if and only if the counter has not reached 2^64 - 1 |
| SyncState.RunWellKeyed | internal/activesync/sync.go:417-430 | In every run a collection holds an issued key or none, and key "1" always stands with an empty snapshot |
| SyncState.KeyCountsAccepted | internal/activesync/sync.go:330-382 | Between two primes the key grows by exactly the number of accepted requests |
| SyncState.AcceptedKeysIncrease | internal/activesync/sync.go:417-430 | Between two primes accepted keys strictly increase, so none is accepted twice |
| Rounds.ParseWindow | internal/activesync/sync.go:755-764 | The window is the requested one within 1 to 512, 512 above that, and 100 when it is missing, malformed or not positive |
| Rounds.MailRoundCounts | internal/activesync/sync.go:363-381 | A round sends the smaller of window and estimate, reduces the estimate by that, and sets MoreAvailable exactly when something stays |
| Rounds.DrainConserves | internal/activesync/estimate.go:87-91 | With any windows, what was sent plus the current estimate is the first estimate, after every round |
| Rounds.DrainTerminates | internal/activesync/sync.go:363-381 | A drain ends with snapshot equal to folder within as many rounds as the first estimate; MoreAvailable is clear exactly on agreement |
| Rounds.DrainDelivers | internal/activesync/sync.go:363-410 | What any number of rounds sent, followed by whatever is pending then, is a diff of the first snapshot: each change is sent exactly once, in order |
| Rounds.BlockedIff | internal/activesync/sync.go:386-410 | A round reaches an addition that cannot be read if and only if the first such addition in listing order lies within its window |
| Rounds.BlockedMeans | internal/activesync/sync.go:386-410 | That is, if and only if one of the first changes the window takes is the addition of an unreadable message |
| Rounds.DrainAnsweredIff | internal/activesync/sync.go:363-410 | The first n rounds of a mail drain are free of unreadable additions if and only if there are none, or the n windows together stop short of the first |
| Rounds.ObjectResidual | internal/activesync/calendar.go:303-326 | An object round leaves the capped entries its class does not render, followed by the rest |
| Rounds.RoundProgress | internal/activesync/calendar.go:303-326 | A round makes the pending list shorter or finds it stuck |
| Rounds.ObjectDrainLimit | internal/activesync/calendar.go:303-326 | With windows of any sizes, an object drain ends with exactly the entries pending that are stuck at its widest window, once that has come up as often as there are pending changes |
| Rounds.ObjectDrainAgreesIff | internal/activesync/calendar.go:303-326 | It delivers everything deliverable if and only if each deliverable change has fewer withheld ones before it than that window is wide |
| Rounds.WideDrainAgrees | internal/activesync/calendar.go:303-326 | With windows wider than the withheld count, in any mix, every item but the withheld ones ends in agreement |
| Replica.RunSafe | internal/activesync/sync.go:330-430 | In every run of deliveries, expunges, flag changes, lost and failed answers, primes, stale keys and resyncs: while both sides hold the same key, device and snapshot agree on every item except ones gone from the folder whose deletion is pending |
| Replica.CaughtUp | internal/activesync/sync.go:363-381 | After a delivered round without MoreAvailable the device holds exactly the folder's messages with their read state |
| Exact.TimelyRunExact | internal/activesync/sync.go:330-430 | In every run whose commands each find their message, device and snapshot agree exactly whenever both sides hold the same key |
| Exact.BatchAgreesIff | internal/activesync/sync.go:466-490 | After a batch the two agree about an item if and only if the folder held it, or the batch left the device's copy of it alone |
| Exact.RoundSends | internal/activesync/sync.go:363-381 | A round sends the first window of the changes pending before it, without the items of its successful commands |
| Exact.ExactAfterRoundIff | internal/activesync/sync.go:363-490 | From exact agreement, a delivered round keeps it if and only if every gone item its commands edit is among those changes |
| Exact.ExactAgreementCanFail | internal/activesync/sync.go:363-517 | A run from a fresh mailbox of six states that ends with equal keys and different read states |
| Exact.ChangeWithoutReadAgreesIff | internal/activesync/sync.go:495-517 | After a Change that carries no Read value no round of a drain sends the item, and the copies agree on it, after any number of rounds, if and only if the device had the folder's read state before |
| Replica.SpentKey | internal/activesync/state.go:88-94 | A spent key is neither repeated nor followed by the key of a fresh prime |
| Replica.FailedRoundSafe | internal/activesync/sync.go:70-122 | A request that fails after touching the mailbox, before saving, keeps the replica safe |
| Replica.StaysVanished | internal/activesync/sync.go:435-460 | An id gone from the folder never names a later message |
| Convergence.CatchesUp | internal/activesync/sync.go:330-430 | From every state a run reaches, a conversation of delivered requests on an unchanged mailbox has the device hold exactly the folder after at most one refusal, one prime and one round for each pending change |
| Convergence.StepShortens | internal/activesync/sync.go:330-430 | Each such request that does not find the device caught up lowers the bound, a wrap of the key counter included |
| Convergence.StaysCaughtUp | internal/activesync/sync.go:363-381 | A further round leaves a caught-up device as it is |
| Convergence.CanCatchUp | internal/activesync/sync.go:330-430 | Such a conversation exists from every reachable state |
| ObjectReplica.ContentStep | internal/objectstore/props.go:104-149 | A command leaves each item the properties it had, those it was created with, or the old ones overwritten by those the Change carries |
| ObjectReplica.UpsertEqualIff | internal/objectstore/props.go:104-149 | Writing the same properties to two copies makes them equal if and only if they agreed on all others |
| ObjectReplica.BatchTracked | internal/activesync/objectclass.go:60-165 | After a device's batch of Add, Change and Delete, with the ids from the responses, device and snapshot differ at most about pending items; where each Change covers what the copies differ in, settled items also have equal properties |
| ObjectReplica.BatchFresher | internal/objectstore/folderobjects.go:27-46 | Whatever a batch makes the folder list anew or differently carries a change number given out since |
| ObjectReplica.RunSafe | internal/activesync/calendar.go:303-389 | Replica safety for object folders in every run of others' writes, deletions and recoveries, lost and failed answers, primes, stale keys and resyncs; including the properties of settled items in a run whose Changes each cover what the copies differ in |
| ObjectReplica.CaughtUp | internal/activesync/calendar.go:303-389 | With equal keys and nothing pending the device holds exactly the folder's items, in such a run with exactly their properties |
| PartialChange.ChangeAgreesIff | internal/activesync/objectclass.go:114-165 | After a Change of a listed item no round of a drain sends it, and after any number of rounds device and folder agree on its properties if and only if they agreed before on those the Change does not carry |
| PartialChange.AChangeCanBeLost | internal/activesync/objectclass.go:114-165 | A run of five states from a fresh mailbox, ending with equal keys and nothing pending, the item's place one on the device and another in the folder |
| ObjectConvergence.RoundDue | internal/activesync/calendar.go:303-326 | A round with a window wider than the number of withheld changes lowers the number of those that can be sent |
| ObjectConvergence.StepShortens | internal/activesync/sync.go:330-430 | On an unchanged object folder each request that does not find the device caught up lowers the bound, a wrap of the key counter included |
| ObjectConvergence.CatchesUp | internal/activesync/sync.go:330-430 | From every state a run reaches, a conversation of delivered requests with such windows on an unchanged store has the device hold exactly the folder's items but the withheld ones after at most one refusal, one prime and one round for each change that can be sent; after a run as above, with their properties |
| Engine.SortSids | internal/activesync/sync.go:767-771 | The deletions come out ordered, without repeats, and are the ones put in |
| Engine.DiffSnapshot | internal/activesync/sync.go:435-460 | The scan, the map walk and the sort compute a diff in the sense of the theorems |
| Engine.ScanListing | internal/activesync/sync.go:437-449 | The listing scan collects additions and modifications in listing order, and the live ids |
| Engine.VanishedInOrder | internal/activesync/calendar.go:339-365 | Walking the snapshot in any order yields the vanished ids, sorted |
| Engine.Mailbox.SetMessageFlags | internal/objectstore/read.go:165-200 | Replaces one message's flags, or reports that the folder has no such uid; no other folder changes |
| Engine.Mailbox.SoftDeleteMessage | internal/objectstore/recoverable.go:33-45 | Takes one message out of the folder, or reports that there is none; no other folder changes |
| Engine.ApplyReadFlag | internal/activesync/sync.go:495-517 | Sets or clears the read flag in the mailbox and records the result in the snapshot; reports the object id exactly on unread to read |
| Engine.ApplyClientCommand | internal/activesync/sync.go:466-490 | One command's effect on folder and snapshot, and the messages it took to read |
| Engine.ApplyClientCommands | internal/activesync/sync.go:466-490 | The batch in order; the reported ids are exactly its unread-to-read transitions |
| Engine.MailChangeCommands | internal/activesync/sync.go:386-410 | Emits and records every capped change; fails exactly when an added message cannot be read, with the changes before it recorded |
| Engine.RenderObjectChange | internal/activesync/calendar.go:370-389 | A deletion or rendered item is recorded; one with nothing to stream is not |
| Engine.RenderObjectChanges | internal/activesync/calendar.go:303-326 | Emits and records exactly the renderable entries; fails exactly on a renderer error, with the entries before it recorded and nothing emitted |
| Engine.AddObject | internal/activesync/objectclass.go:90-109 | Creates the object and answers with the client id and the new server id, or does neither |
| Engine.ChangeObject | internal/activesync/objectclass.go:114-132 | Rewrites an existing object and returns its id, or writes nothing and returns none |
| Engine.DeleteObject | internal/activesync/objectclass.go:135-144 | Soft-deletes the object and drops it from the snapshot, together |
| Engine.FoldClientWrites | internal/activesync/objectclass.go:151-165 | Records the current version of every written item the folder lists, and of no other |
| Engine.ApplyObjectCommand | internal/activesync/objectclass.go:60-85 | One command's effect on store, snapshot, written ids and responses |
| Engine.ApplyObjectClientCommands | internal/activesync/objectclass.go:60-85 | The batch in order, then one fold, with the responses of the theorems on additions |
| Engine.SyncMail | internal/activesync/sync.go:363-381 | A current-key mail round: commands, a capped diff, the recorded snapshot, the next key; no other folder and no object changes; fails if and only if the window reaches an addition that cannot be read |
| Engine.SyncObjects | internal/activesync/sync.go:349-361 | A current-key object round: edits and fold, a capped rendered diff, the next key; no mail changes |
| Engine.SyncCollection | internal/activesync/sync.go:330-382 | An unreadable collection id is status 4, a prime is key "1" and nothing else, a refused key is status 3, and only the current key reaches the folder's path |
| Delivery.ServedAsObjectsIff | internal/activesync/objectclass.go:29-44 | In every mailbox a run reaches, the folders served from the object rows are the provisioned Calendar, Contacts, Tasks and Notes |
| Delivery.DiffSends | internal/activesync/sync.go:435-460 | A change is pending if and only if it adds an item new to the snapshot, modifies one known with another version, or removes one no longer listed |
| Delivery.MailSent | internal/activesync/sync.go:363-410 | The answer to a current key on any folder but 15, 17, 18 and 19 holds only changes its messages call for, and all of them unless more is available |
| Delivery.ObjectsSent | internal/activesync/sync.go:349-361 | On folders 15, 17, 18 and 19 likewise for the live object rows, as far as they render |
| Delivery.EstimateIsSent | internal/activesync/estimate.go:65-92 | The count behind GetItemEstimate and the hold is the number of changes a current-key Sync sends when its window holds them all and every item renders |
| Delivery.AnswerToKey | internal/activesync/sync.go:330-430 | Status 4 for a collection id that is no number, key "1" for "0", status 3 for no key or another than the current one; none of these changes the mailbox |
| Delivery.KeyAfter | internal/activesync/state.go:88-94 | After a key follows the number after the one it spells, from the last 64-bit one 0, and "1" after no number |
| Delivery.NextKeyAnswered | internal/activesync/state.go:88-94 | The current key n is answered with n + 1 |
| Server.ObjectsDiffer | internal/activesync/sync.go:231-247 | Answers true if and only if the diff is not empty |
| Server.ObjectChangeCount | internal/activesync/sync.go:252-269 | Counts exactly the diff's length |
| Server.EstimateCollection | internal/activesync/estimate.go:65-92 | Never-synced or stale is status 2; otherwise the estimate is the length of what Sync would send unbounded |
| Server.PingCheck | internal/activesync/ping.go:129-154 | Reports the monitored collections that have changed, in the order they are monitored |
| Server.ReportedIff | internal/activesync/ping.go:129-154 | A collection is reported if and only if it is monitored and its mail listing differs from its snapshot |
| Server.ReportedInOrder | internal/activesync/ping.go:129-154 | The order of the report is the order of monitoring, each collection as often as it is listed |
| Server.PingAgreesOnMail | internal/activesync/ping.go:129-154 | For a mail folder Ping reports if and only if a command-free Sync with the current key has something to send |
| Server.PingOnObjectsIff | internal/activesync/ping.go:129-154 | For an object folder it reports if and only if the snapshot is not the folder's mail index, and is right if and only if agreement with the index and agreement with the objects coincide |
| Server.PingWithoutIndex | internal/activesync/ping.go:129-154 | Where the folder has no index row it reports if and only if the snapshot holds anything |
| Server.CollectionHasChanges | internal/activesync/sync.go:200-226 | True if and only if the collection's key is current and its diff not empty |
| Server.SyncHasChanges | internal/activesync/sync.go:188-195 | True if and only if some collection would collect something |
| Server.SyncHasCommands | internal/activesync/sync.go:176-183 | True if and only if some collection carries a Commands element |
| Server.HeldIffNothingToCollect | internal/activesync/sync.go:130-143 | A request is held if and only if it asks for it and each of its collections carries no commands and is a prime, stale, unreadable or has an empty diff |
| Server.GoesOnIff | internal/activesync/sync.go:130-143 | A request not held goes on with the mailbox as it stands, a held one with the first check that finds a collection not idle, and not at all if and only if there is none |
| Server.HoldForSync | internal/activesync/sync.go:275-299 | Ends at the first check that finds something to collect, with the mailbox as that check found it |
| Server.WaitForSyncChanges | internal/activesync/sync.go:130-143 | Goes on with the mailbox as it stands, or as the check that ended the hold found it, or not at all |
| Server.SyncOne | internal/activesync/sync.go:149-161 | One collection is served from the loaded state and no other collection changes |
| Server.SyncCollections | internal/activesync/sync.go:149-161 | The collections are served in request order, each from where the last left off, with the read transitions of all of them in order; a failure leaves the mailbox as the failing collection left it |
| Server.AnswerServes | internal/activesync/sync.go:149-161 | A complete answer obeys the key discipline in each collection named once, and leaves every other collection as it was |
| Server.Device.HandleSync | internal/activesync/sync.go:70-122 | An expired hold and a failure save nothing; an answer is that of the mailbox the request went on with, changed meanwhile or not, and saves exactly what it reports; with readable items there is no failure |
| Server.ServedIsRequest | internal/activesync/sync.go:330-382 | Serving a mail collection under any key is a request of the replication protocol, delivered, lost, or failed before the save |
| Server.AnsweredIsRequest | internal/activesync/sync.go:70-122 | So is a Sync of one mail collection that is answered |
| Server.FailedIsRequest | internal/activesync/sync.go:70-122 | And one that fails |
| Server.ObjectServedIsRequest | internal/activesync/sync.go:330-361 | Serving an object collection is a request of the object protocol in the same way, with the device's and the folder's properties |
| FolderEffects.CreateSucceedsIff | internal/activesync/foldercreate.go:70-94 | A FolderCreate succeeds if and only if it has a name and the device's key, its parent exists and has no child of that name |
| FolderEffects.CreateAdds | internal/activesync/foldercreate.go:34-94 | It adds one folder, of that name, under the folder ParentId spells or the top level, and changes no other |
| FolderEffects.DeleteSucceedsIff | internal/activesync/folderdelete.go:54-77 | A FolderDelete succeeds if and only if it has the device's key and the id of an existing folder of the user's |
| FolderEffects.DeleteRemoves | internal/activesync/folderdelete.go:54-77 | It removes exactly that folder and all below it and changes no other |
| FolderEffects.UpdateSucceedsIff | internal/activesync/folderupdate.go:55-120 | A FolderUpdate succeeds if and only if it has a name, the device's key, an existing folder of the user's and an existing parent not below it, without another child of that name |
| FolderEffects.UpdateMoves | internal/activesync/folderupdate.go:20-105 | It gives that folder the name and parent and changes no other |
| FolderEffects.RefusedRequest | internal/activesync/foldercreate.go:13-22 | Status 10, 9 and 3 each exactly in their case |
| FolderEffects.CreateRefused | internal/activesync/foldercreate.go:70-94 | Past those, a creation is answered 5 without its parent, else 2 for a name taken, else 1 |
| FolderEffects.DeleteRefused | internal/activesync/folderdelete.go:54-77 | A deletion is answered 4 for an id that is no number or no folder, else 1 |
| FolderEffects.UpdateRefused | internal/activesync/folderupdate.go:55-120 | A rename or move is answered 4, 5, 2, 6, 4 or 1, in the order of the code's checks |
| FolderEffects.PrimeGivesOne | internal/activesync/foldersync.go:65-76 | A prime gives key "1"; no command touches another device's key |
| FolderEffects.SuccessGivesNext | internal/activesync/foldercreate.go:54-66 | A success moves the device's key from n to n + 1, a refusal leaves it |
| FolderEffects.FoldersOfRun | internal/activesync/folderdelete.go:54-77 | After any run the tree holds exactly the folders that were there or were created and that no deletion of them or of a folder above them followed |
| Folders.ReachesRoot | internal/objectstore/folderapi.go:751-770 | In a sound tree every folder leads to the root, where an upward walk ends |
| Folders.NoCycle | internal/objectstore/folderapi.go:751-770 | In a sound tree no folder lies below itself |
| Folders.BuiltinNotUnder | internal/objectstore/folderapi.go:679-691 | No built-in folder lies below a user folder, so deleting a user folder cannot reach one |
| Folders.CreateKeeps | internal/activesync/foldercreate.go:70-94 | Creating under an existing parent with a free name keeps the tree sound |
| Folders.RemoveKeeps | internal/activesync/folderdelete.go:54-77 | Removing a user folder with everything below it keeps the tree sound and every built-in folder |
| Folders.MoveKeeps | internal/objectstore/folderapi.go:210-242 | Moving a user folder to a parent not below it, with a free name, keeps the tree sound |
| Folders.StepKeepsTree | internal/activesync/folderupdate.go:55-120 | Every command, whatever its outcome, keeps the tree sound and the built-in folders in place |
| Folders.RunKeepsTree | internal/activesync/folderupdate.go:20-120 | So does every run of any number of devices |
| Folders.UpdateRefusedIffBreaks | internal/activesync/folderupdate.go:55-120 | A well-formed rename or move of a user folder is refused if and only if it would break the tree |
| Folders.CreateRefusedIffBreaks | internal/activesync/foldercreate.go:70-94 | A well-formed creation is refused if and only if it would break the tree |
| Folders.MoveBelowBreaks | internal/objectstore/folderapi.go:210-242 | Hanging a folder under itself or a descendant always breaks the tree |
| Folders.StepSpendsKey | internal/activesync/foldercreate.go:34-94 | A command succeeds only under the device's current key and spends it; a refused one changes nothing |
| Folders.KeyCountsSuccesses | internal/activesync/folderdelete.go:19-77 | Between primes a device's hierarchy key grows by its own successes, whatever other devices do |
| Folders.TreeMovesOnSuccess | internal/activesync/folderdelete.go:54-77 | A stretch of a run without success leaves the tree as it was |
| Folders.FolderSubtree | internal/objectstore/folderapi.go:595-618 | The level-by-level walk collects exactly the folders below, and nothing if and only if the folder does not exist |
| Folders.FolderByName | internal/objectstore/folderapi.go:99-132 | Finds a folder of that name under that parent if and only if there is one |
| Folders.Hierarchy.FolderSyncPrime | internal/activesync/foldersync.go:65-76 | A prime sets the device's hierarchy key to "1" and touches nothing else |
| Folders.Hierarchy.HandleFolderCreate | internal/activesync/foldercreate.go:34-94 | Status and new state are the ones the transition system of the run theorems gives; a success returns the new key and the new folder's id |
| Folders.Hierarchy.HandleFolderDelete | internal/activesync/folderdelete.go:19-77 | Likewise for a deletion, with the whole subtree |
| Folders.Hierarchy.RenameFolder | internal/objectstore/folderapi.go:210-242 | Refuses a provisioned folder, then a named parent at or below the folder, then a missing folder; a move to the top level is not checked for a cycle |
| Folders.Hierarchy.HandleFolderUpdate | internal/activesync/folderupdate.go:20-105 | Likewise for a rename or move; in a tree with two siblings of one name, a folder that already is one of them may be found either way |
| Seed.SeededOk | internal/objectstore/folder.go:28-65 | The tree a mailbox is seeded with is sound |
| Seed.FreshRunKeepsTree | internal/objectstore/folder.go:86-113 | From a fresh mailbox every run keeps a sound tree with each built-in folder under its own parent and name |
| Wipe.StepOwed | internal/activesync/devices.go:152-181 | One event's effect on what a device is owed: a request of its own sets it, a settling event of its own clears it, all else keeps it |
| Wipe.StatusRecordsHistory | internal/activesync/devices.go:225-248 | After any history the stored status is outstanding for a kind if and only if the last word on the device was a request of that kind |
| Wipe.WipeDelivered | internal/activesync/server.go:187-217 | A command with a current policy key is refused, and a Provision carries a kind, exactly while a request stands |
| Wipe.RefusedIff | internal/activesync/server.go:187-217 | After any history a command is answered 449 if and only if it names its device and either a policy other than the baseline is not the one it carries the key of, or a wipe is owed |
| Wipe.StatusShown | internal/activesync/devices.go:17-26 | The status code each event of a device leaves, as the device list shows it |
| Wipe.ContactShown | internal/activesync/devices.go:112-144 | Each command and Provision is the last contact, the first of them the first; nothing else moves the times |
| Wipe.NotWipedTwice | internal/activesync/devices.go:152-181 | Once settled, neither directive nor refusal until a new request |
| Wipe.OthersUnaffected | internal/activesync/devices.go:186-248 | Another device's event, and any resync, leaves a device's record as it was |
| Wipe.FirstContactKept | internal/activesync/devices.go:112-144 | The first contact is recorded once and kept until deletion |
| Wipe.CancelUnnoticedIff | internal/activesync/devices.go:233-237 | A cancel changes no later answer, to any events whatever, if and only if no wipe was outstanding, for recorded and unrecorded devices alike; it leaves the registry as it was if and only if the device was recorded as active |
| Wipe.Registry.RecordDeviceContact | internal/activesync/devices.go:112-144 | Records the contact and returns the status the gate acts on |
| Wipe.Registry.ForceProvision | internal/activesync/server.go:187-217 | Refusal and new registry are those of the history theorems |
| Wipe.Registry.AdvanceProvisionWipe | internal/activesync/devices.go:152-181 | Returns the directive owed and moves the status on only where one was owed |
| Wipe.Registry.HandleProvision | internal/activesync/provision.go:138-172 | Contact first, then the wipe, as in the history theorems |
| Wipe.Registry.RequestWipeOf | internal/activesync/devices.go:225-231 | Is the request event of the history theorems, with the kind asked for |
| Wipe.Registry.CancelWipeOf | internal/activesync/devices.go:235-237 | Is the cancel event |
| Wipe.Registry.ResyncDeviceRecord | internal/activesync/devices.go:186-196 | Drops the device's sync state and no record |
| Wipe.Registry.DeleteDeviceRecord | internal/activesync/devices.go:200-220 | Is the deletion event, and drops the device's sync state |
| Bcc.StripBcc | internal/activesync/sendmail.go:255-284 | The one-pass filter keeps exactly the lines before the boundary it finds that are outside every Bcc field and its folded continuations, and every byte from the boundary on |
| Bcc.FieldStep | internal/activesync/sendmail.go:255-284 | A line is in a Bcc field if and only if it starts one or continues one |
| Bcc.FieldLetters | internal/activesync/sendmail.go:255-284 | By the letters: "bcc:" in any case starts a field, a blank or a tab continues it |
| Bcc.BoundaryWithin | internal/activesync/sendmail.go:255-284 | The result's header ends no later than the filtered header does |
| Bcc.NoBccLeft | internal/activesync/sendmail.go:255-284 | Where a boundary is found, no header line of the result starts a Bcc field |
| Bcc.BccSurvivesIff | internal/activesync/sendmail.go:235-284 | A mail reader finds a Bcc field in the result if and only if stripBcc found no boundary and the reader found one before |
| Bcc.MixedKeepsBcc | internal/activesync/sendmail.go:255-284 | A message with a mixed blank line that keeps its Bcc field |
| BccBody.BodyKeptIff | internal/activesync/sendmail.go:255-284 | What a mail reader takes for the body is left as it was if and only if none of its lines before the boundary found is in a Bcc field and, where its blank line is that boundary, something of the header is kept |
| BccBody.QuotedLineGoes | internal/activesync/sendmail.go:255-284 | A message whose body loses a line |
| BccBody.EmptyLineLeft | internal/activesync/sendmail.go:255-284 | A message whose body gains an empty one |
| Bcc.Idempotent | internal/activesync/sendmail.go:255-284 | Stripping twice is stripping once |
| Bcc.UnchangedIff | internal/activesync/sendmail.go:255-284 | A message is left as it is if and only if it has no header boundary or no Bcc line |
| Bcc.BareCRIff | internal/activesync/sendmail.go:255-284 | A message with a CRLF header is left with a stray carriage return where its header ends if and only if its last header line is in a Bcc field and something is kept |
| Bcc.StrayCarriageReturn | internal/activesync/sendmail.go:255-284 | A message that is |
| Text.JoinSplit | internal/activesync/sendmail.go:255-284 | Splitting at a separator and joining gives the text back |
| Text.SplitJoin | internal/oxcical/recurrence.go:68-83 | Joining pieces free of the separator and splitting gives the pieces back |
| Text.SplitTwo | internal/activesync/sendmail.go:255-284 | Splitting at a separator splits what is on either side |
| Attachments.ListWalk | internal/activesync/attachments.go:28-52 | Appends the subtree's attachment leaves, depth first, numbered on from the list |
| Attachments.LeavesIff | internal/activesync/attachments.go:28-52 | The leaves are exactly the parts of the tree without parts of their own whose disposition is "attachment" |
| Attachments.ListedAs | internal/activesync/attachments.go:28-66 | A listed attachment carries its file name or "attachment" and its number from 1, type/subtype, size and position |
| Attachments.MessageAttachments | internal/activesync/attachments.go:28-66 | Lists every attachment leaf once, each with its own position, name and type |
| Attachments.FindWalk | internal/activesync/attachments.go:90-111 | Finds the leaf of a given number in the same order, or counts all of them |
| Attachments.AttachmentContent | internal/activesync/attachments.go:90-120 | Returns the content and type of the index-th leaf, none when there is none or it does not decode |
| Attachments.FileRefReadsBackIff | internal/activesync/attachments.go:70-86 | A file reference reads back as its parts if and only if both ids are non-empty and free of colons |
| Attachments.FirstReference | internal/activesync/attachments.go:70-76 | The reference "13:42:0" |
| Attachments.FetchListed | internal/activesync/attachments.go:28-120 | Fetching by a listed reference reaches the very leaf the listing numbered; an index past the list reaches nothing |
| FreeBusy.MarkBusySlots | internal/activesync/availability.go:130-147 | Raises exactly the overlapped slots, in place, and lowers none |
| FreeBusy.QuantizeFreeBusy | internal/activesync/availability.go:109-126 | One digit per started half hour, each the highest status of any event that overlaps the slot |
| FreeBusy.CoversWindow | internal/activesync/availability.go:109-126 | The string covers the window in half hours, and without its last digit would not |
| FreeBusy.OverlapsIff | internal/activesync/availability.go:130-147 | An event counts for a half hour if and only if they have an instant in common, or the event has no instant and lies inside |
| FreeBusy.DigitMeans | internal/activesync/availability.go:104-161 | A digit is 3 if anyone is out of office in the slot, else 2 if busy, else 1 if tentative, else 0 |
| FreeBusy.OrderIrrelevant | internal/activesync/availability.go:109-161 | The string depends on the set of events only |
| FreeBusy.SplitsAtSlots | internal/activesync/availability.go:109-126 | Cutting the window at a slot border cuts the string there |
| Recurrence.WeekdayBitmask | internal/activesync/calendar.go:170-177 | Bit k is set if and only if weekday k is listed |
| Recurrence.BitmaskWeekdays | internal/activesync/tasks.go:236-250 | Lists the weekdays of the set bits in week order |
| Recurrence.MaskKeepsDaysIff | internal/activesync/tasks.go:236-250 | A weekday list survives the mask if and only if it is in week order without repeats |
| RuleTexts.MaskIsDayOfWeek | internal/activesync/calendar.go:170-177 | The mask is the sum of 1 for SU, 2 for MO and so on to 64 for SA, each counted once |
| RuleTexts.DaysOfMask | internal/activesync/tasks.go:236-250 | A mask of any value lists the weekdays of its lowest seven bits, Sunday first |
| RuleTexts.InstantText | internal/activesync/calendar.go:180-185 | Year, month, day, T, hour, minute, second, Z, each in its digits |
| Recurrence.ParseFormatCivil | internal/activesync/calendar.go:180-185 | Every printed instant reads back |
| Recurrence.RruleFromRecurrence | internal/activesync/tasks.go:195-232 | The builder writes the rule text: the parts that are set, in order, joined by semicolons |
| RuleTexts.UtcIff | internal/activesync/calendar.go:180-185 | A device's time reads as an instant if and only if it is its text |
| RuleTexts.RuleWritten | internal/activesync/tasks.go:195-232 | The rule text letter by letter, each parameter under its name and only when set |
| RuleTexts.DaysWritten | internal/activesync/tasks.go:209-219 | The BYDAY value: the weekdays between commas, each behind the ordinal if there is one |
| Recurrence.ParseByDay | internal/oxcical/recurrence.go:362-379 | Collects the weekday tokens and the last readable ordinal |
| Recurrence.ParseRRule | internal/oxcical/recurrence.go:68-114 | Applies the known parts in order; a text without a frequency is no rule |
| RuleTexts.RuleSays | internal/oxcical/recurrence.go:68-114 | For every text: of the parts that name a parameter and give it a value the code takes the last counts, a parameter without one has its default, and there is a rule if and only if the frequency is not blank |
| RuleTexts.TrimSays | internal/oxcical/recurrence.go:68-83 | Trimming cuts blanks off both ends and nothing else |
| RuleTexts.UntilIff | internal/oxcical/recurrence.go:383-393 | An UNTIL value reads as an instant if and only if it is its text, the same without Z, or its date at midnight |
| RuleTexts.TokenSays | internal/oxcical/recurrence.go:362-379 | A BYDAY token is the longest run of signs and digits, its ordinal, and a weekday in any case |
| RuleTexts.ByDaySays | internal/oxcical/recurrence.go:362-379 | The weekdays that are not blank in order, and the last ordinal that is a number |
| Recurrence.RuleReadsAs | internal/oxcical/recurrence.go:68-114 | For every record of the documented vocabulary, what its printed text reads as |
| Recurrence.RuleReadsBackIff | internal/oxcical/recurrence.go:68-114 | A record is what its text reads as if and only if interval and count are in range and an ordinal has a weekday |
| Tasks.RenderRecurrence | internal/activesync/tasks.go:98-141 | Builds the element of the round-trip theorems |
| Tasks.ReadRecurrence | internal/activesync/tasks.go:146-189 | Fills the record the element denotes; unknown Types are refused |
| Tasks.RenderedShows | internal/activesync/tasks.go:98-141 | The element child by child: Type "0", "1", "2" or "3", "5" or "6" by frequency and weekdays, DayOfWeek exactly for "1", "3" and "6", WeekOfMonth exactly for "3" and "6", "5" for the last |
| Tasks.ReadStores | internal/activesync/tasks.go:146-189 | An element is stored if and only if its Type is "0", "1", "2" or "3", as DAILY, WEEKLY, MONTHLY or YEARLY, with each field from its child |
| Tasks.ReadRendered | internal/activesync/tasks.go:98-189 | For every record, exactly which record comes back from a device, or that none does |
| Tasks.RoundTripIff | internal/activesync/tasks.go:98-189 | A recurrence comes back unchanged if and only if it is daily or monthly without weekdays, or weekly with weekdays in order, with interval at least 1, not both bounds and no ordinal |
| Tasks.TaskRecurrence | internal/activesync/tasks.go:98-125 | An element if and only if there is a rule text and it reads, and then the one of that rule, child by child |
| Tasks.ParseTaskRecurrence | internal/activesync/tasks.go:146-172 | The rule text of the record its children spell; none without an element or with a Type other than "0" to "3" |
| Tasks.ThereAndBack | internal/activesync/tasks.go:98-250 | A rule text the server writes is stored again verbatim if and only if the element can carry the rule; it is lost if and only if the rule is yearly |

## Left out

- `cmd/`, `internal/admin/` and every package outside ActiveSync, except the store, iCalendar and folder functions cited above.
- WBXML and HTTP framing, authentication, logging, protocol version differences and policy documents: translation without state of its own.
- The rendering of messages, appointments, contacts, tasks and notes: an abstract renderer with three outcomes (rendered, nothing to stream, error) stands for it.
- Concurrent requests of one device: the code loads the state, works and saves without a lock, and the model runs requests one after the other. Others may change the mailbox between requests and during a hold.
- Wall-clock time: the length of a hold, the polling interval and the heartbeat bounds; the checks a hold makes are a parameter.
- Store failures other than a missing row: each modelled store call succeeds or reports that the row does not exist. A failing save is the lost or failed outcome in `Replica`.
- Search, ItemOperations, MoveItems, MeetingResponse, ResolveRecipients, Settings, SendMail beyond Bcc stripping, SmartReply and SmartForward: mostly straight-line calls into other packages.
- EmptyFolderContents and mailbox policy resolution: easy members beside the ones modelled.
- Device metadata other than first and last contact and wipe status.
- Occurrence expansion of a recurrence rule: not part of what a device sync computes.
- Folders.FolderByName: the store's query is modelled by a choice of some matching folder, without a row order.
- Folders.FolderSubtree: the store's table is a map, so the order of ids within a level is not modelled.
- Engine.SortSids: an insertion sort stands for the library sort; only the order and the contents are used.
- Objects.BatchKeeps: an item's properties are those the commands carry; the time stamps the store adds to a write and its normalization of the conversation topic are not modelled. No Change removes a property: the call it makes only writes.
- ObjectConvergence.CatchesUp: for folders of fewer than 2^63 rows, all that 64-bit ids leave room for.
- Recurrence.ParseFormatCivil: instants are whole seconds of the years 0 to 9999; the fraction Go's parser tolerates after the seconds is not modelled.
- Recurrence.ParseRRule: upper-casing and trimming are those of ASCII letters and Latin-1 spaces.
- Bcc.BccSurvivesIff: the reader's header ends at the first line that is empty up to carriage returns; a line of blanks, which the library's reader also takes for the end, is not.
- Bcc.StripBcc: lower-casing is that of ASCII letters; no other letter lower-cases to one of "bcc:".
- FreeBusy.QuantizeFreeBusy: times are unbounded integers in nanoseconds; the saturation of a window longer than 292 years is not modelled.
- Attachments.ListWalk: the MIME parser is not part of this model; the tree is given.
