# Spectro, modelled and verified in Dafny

Spectro is a browser telemetry product: an SDK that queues, sends and stores events, an API that pages over what
was stored, a console that shows it, and the organisations that own it. This project models the parts of it whose
behaviour spans many calls or many interleavings, and proves what they promise.

* **The event queue** (`Events`, `Lists`, `EventQueues`, `QueueProperties`, `QueueDelivery`, `QueueAttempts`,
  `QueueClocks`, `QueuePositions`, `QueueEnvelopes`). `EventQueue` is a class with the eviction, selection, packing and
  retry loops of the source; each method is proved equal to a function on sequences, and the lemmas about those
  functions give conservation, eviction order by position, the exact set an urgent drain selects, greedy packing, the
  length of what is sent, when a flush makes progress, and the end of retrying.
* **The durable outbox** (`StableSorting`, `Outbox`). A scoped store with a time to live and newest-first retention.
* **The delivery protocol** (`Delivery`, `DeliverySafety`, `DeliveryRuns`, `DeliveryLosses`, `DeliveryRetention`,
  `DeliveryTheorems`, `DeliveryRestart`, `DeliveryCopies`, `DeliveryAccounts`, `DeliveryRemovals`, `DeliveryOrder`,
  `DeliveryRequests`, `SpectroClients`). `Delivery` is a step machine: one client step is the code between two awaits,
  and the outbox, the network and a crash take steps in between in any order. `DeliverySafety` proves an invariant of
  every step, and the others what it means over whole runs: why the outbox may give an event up and when it gives up
  none, what is secured, what a restart recovers and with which attempts, where every accepted event ends, what leaves
  the outbox for good, what waits for what, and what becomes of every flush call. `SpectroClient` is the client as an
  object over the real queue and store. It records the run it has made, each of its methods is proved to take the
  protocol's step, and so what holds of every run holds of every such object.
* **Organisation membership** (`Membership`, `MembershipSafety`, `MembershipDecisions`). Every SQL statement of the
  management transactions is a step of its own, and any number of transactions interleave.
* **Depth check and normaliser** (`Json`, `JsHeap`, `FreshCopies`, `JsonDepth`, `Normalizer`, `NormalizerMeaning`,
  `SensitiveKeys`), over JavaScript object graphs that may share or be cyclic. The normaliser is proved for every test
  of property keys; `SensitiveKeys` is the SDK's.
* **The YAML printer** (`Text`, `Yaml`) with a reader that undoes it.
* **Paging** (`Keyset`, `Issues`, `LiveDrain`): the issue list that filters after paging, and the live drain.
* **The console's bounded views** (`LiveArrivals`, `PageLifecycle`, `SchemaPointer`, `SchemaRows`,
  `SchemaExpansion`).

Some promises hold only under a condition, which is stated exactly:

* `prepend` reports an event bigger than the whole queue twice, so it conserves records exactly when there is none
  (`QueueProperties.PrependConserves`, `QueueProperties.RetryConserves`). The client never queues one.
* The queue measures an envelope with one clock reading and the client sends it with another. Everything sent fits
  exactly when the second has no more digits than the first (`QueueClocks.ClocksDecideFit`).
* A flush sends something exactly when some candidate fits the envelope by itself, so a keepalive flush stalls exactly
  on a queue of events too big for it (`QueueAttempts.FlushMakesProgress`, `QueueAttempts.KeepaliveStallsExactly`).
* The outbox gives an event up for age, for room, for a failed write or because it does not validate, and for nothing
  else, and a later save may store it again (`DeliveryLosses.LossesExactly`). Once its writes have run, an urgent
  event the client owes is stored exactly if it has not been given up and not stored since
  (`DeliveryLosses.LedgerIsExact`, `DeliveryTheorems.SecuredReachesTheOutbox`), and with the attempts it has had
  exactly if, moreover, the last save of it did not fail (`DeliveryCopies.OutboxHasTheAttempts`).
* A restore drops what it evicts without reporting it. Everything accepted stays accounted for exactly if no restore
  pushes it out, and one pushes something out exactly when what is queued and what is restored do not fit together
  (`DeliveryAccounts.EverythingIsAccountedFor`, `DeliveryAccounts.PushesOutExactly`).
* A delivered event leaves the outbox for good if no save of it is pending when it is removed, which holds of every event
  known when its flush had waited for the restore (`DeliveryRemovals.DeliveredAreRemoved`,
  `DeliveryRemovals.DeliveredStayRemoved`). The removal is not on the chain of writes: an event captured after that
  moment, delivered and removed at once is stored by the save that follows (`DeliveryRemovals.LateSaveReturns`).
* Property keys are judged sensitive or not before they are cut to 128 characters. A result has no sensitive key, and
  normalising it again changes nothing, exactly when cutting makes no kept key sensitive
  (`Normalizer.NoSensitiveKeySurvives`, `Normalizer.NormalizeIsIdempotent`; `SensitiveKeys.CutCanExposeASensitiveKey`
  is a key for which it does).
* The depth check is the recursive depth test exactly on values that share nothing: it refuses a value that is merely
  shared, not only cycles (`JsonDepth.DepthCheckOnTrees`, `JsonDepth.SharingIsRefused`).

`dafny verify dfyconfig.toml` checks the whole project.

## Model

| member | source | states |
|---|---|---|
| EventQueues.EventQueue.Enqueue | packages/core/src/queue.ts:53-73 | the eviction loop leaves, evicts and answers as `EnqueueSpec` says: the least number of evictions in eviction order, then append if that made room; `dropped` counts a refused arrival too; the byte counter stays the sum of the sizes |
| EventQueues.EventQueue.Restore | packages/core/src/queue.ts:75-83 | enqueues in turn the records whose id is not queued, counts the accepted ones, and stops where enqueue throws |
| EventQueues.EventQueue.Drain | packages/core/src/queue.ts:85-117 | takes greedily from the candidates under count and envelope size, returns what it took in queue order and keeps the rest in queue order |
| EventQueues.EventQueue.PackEnvelope | packages/core/src/queue.ts:95-105 | the packing loop, which adds a candidate and takes it out again if the envelope got too big, is greedy packing |
| EventQueues.EventQueue.PushFront | packages/core/src/queue.ts:122-149 | makes room by evicting anything, batch first, then puts the record in front; an oversize record empties the queue and is reported by both exits |
| EventQueues.EventQueue.Prepend | packages/core/src/queue.ts:119-151 | records go in last to first, so they keep their own order, and all evictions are reported in order |
| EventQueues.EventQueue.Retry | packages/core/src/queue.ts:153-170 | records with an attempt left go back in front one attempt later; exhausted ones and evictions are reported |
| EventQueues.EventQueue.SelectImmediate | packages/core/src/queue.ts:176-217 | the loops compute the selection that `SelectionIsExact` describes, urgent positions first |
| EventQueues.EventQueue.SelectContext | packages/core/src/queue.ts:189-206 | the backward scan from one urgent record adds exactly the positions with fewer than eight related records between |
| EventQueues.EventQueue.RemoveAt | packages/core/src/queue.ts:219-224 | removes one entry and takes its size off the counter |
| QueueProperties.EnqueueConserves | packages/core/src/queue.ts:53-73 | what was queued plus the arrival is what is left, evicted or refused, as multisets |
| QueueProperties.EnqueueEvictsInOrder | packages/core/src/queue.ts:57-68 | batch records go first and oldest first, an urgent one only for an urgent arrival once no batch record is left, and nothing goes that did not have to |
| QueuePositions.EnqueueByPosition | packages/core/src/queue.ts:53-73 | told by positions: what goes is batch before urgent and the older first, in that order; what stays keeps its order, and the arrival joins it at the end if and only if there are then fewer than 500 and 4 MiB hold them |
| QueueProperties.EnqueueRefusals | packages/core/src/queue.ts:57-68 | exactly when an arrival is rejected or the call throws, and what has been evicted for nothing by then |
| QueuePositions.PrependInTwoGoes | packages/core/src/queue.ts:119-151 | prepending two lists is prepending the second, then the first, and reports what goes in that order |
| QueueProperties.PrependConserves | packages/core/src/queue.ts:119-151 | queue and dropped together are the old queue and the records, if and only if no record exceeds the queue's byte limit |
| QueuePositions.PrependKeepsOrder | packages/core/src/queue.ts:119-151 | whatever prepending evicts, what is left is a part of the records followed by the queue, in that order |
| QueueProperties.RetryConserves | packages/core/src/queue.ts:153-170 | every record, one attempt later, is queued or reported, and reported once, if and only if no record that is retried exceeds the queue's byte limit |
| QueueProperties.RunWithinCapacity | packages/core/src/queue.ts:53-170 | over every sequence of enqueue, restore, retry and drain the queue holds at most 500 records and 4 MiB |
| QueueProperties.RestoreOntoEmpty | packages/core/src/queue.ts:75-83 | records that fit and have distinct ids are restored onto an empty queue in full and in order |
| QueueProperties.RestoreOntoAny | packages/core/src/queue.ts:75-83 | distinct urgent records that fit and are not queued yet are restored in full and in order, at the end; of what was queued the fewest go that make room, in eviction order |
| QueueProperties.RestoreEvictsNothing | packages/core/src/queue.ts:75-83 | such a restore leaves everything queued before if and only if the two fit the queue together |
| QueueDelivery.SelectionIsExact | packages/core/src/queue.ts:176-217 | the selection is every urgent record and each batch record in the context of a later urgent one, nothing twice, urgent first, each group in queue order |
| QueueDelivery.SelectionInFields | packages/core/src/queue.ts:176-217 | in the events' own fields: an urgent drain looks at a position if and only if it is urgent, or batch with a session and page, the same as those of a later urgent record at most ten seconds younger, with fewer than eight such records in between; any other drain looks at all |
| QueueEnvelopes.EnvelopeLength | packages/core/src/queue.ts:93-99 | the size the queue measures is the length of the JSON text of the envelope |
| QueueDelivery.DrainPartitions | packages/core/src/queue.ts:95-116 | drained and retained split the queue by position, both in queue order, and only candidates are drained |
| QueueDelivery.DrainedEnvelopeFits | packages/core/src/client.ts:176-189 | what flush sends fits the byte limit whatever the item order, up to the difference in digits of the two clock readings |
| QueueClocks.ClocksDecideFit | packages/browser/src/transport.ts:28-37 | for any options and readings, everything flush can send fits its limit, so the size guards of the transport never fire on it, if and only if the sending reading has no more digits than the measuring one |
| QueueClocks.WiderClockOverflows | packages/browser/src/transport.ts:28-37 | for any two readings of which the sending one is wider there is a queue whose envelope overflows, at either limit |
| QueueDelivery.DrainIsMaximal | packages/core/src/queue.ts:95-105 | if fewer than the limit were taken, no candidate left behind still fits the envelope |
| QueuePositions.TakenExactly | packages/core/src/queue.ts:95-105 | a candidate is sent if and only if, after those sent of the candidates before it, the count limit allows it and it still fits the envelope |
| QueueDelivery.ContextNeverDisplacesUrgency | packages/core/src/queue.ts:90-116 | the urgent records an urgent drain takes are those it would take from the urgent records alone, under any limits |
| QueueAttempts.FailedFlushKeepsOrder | packages/core/src/client.ts:177-209 | a failed flush with no capture in between evicts nothing: the drained records with attempts left stand, one attempt later, in front of the retained ones |
| QueueAttempts.FlushSpendsAttempts | packages/core/src/client.ts:173-214 | every flush, delivered or failed, lowers the sum of the attempts left by at least the number of records sent, a failed one by exactly that |
| QueueAttempts.FlushMakesProgress | packages/core/src/client.ts:176-180 | for any queue, options and clock, a flush sends something if and only if some candidate fits the envelope by itself |
| QueueAttempts.FlushStallsExactly | packages/core/src/client.ts:173-214 | a flush, delivered or failed, of such a queue leaves it as it was if and only if no candidate fits by itself |
| QueueAttempts.UrgentFlushNeedsUrgency | packages/core/src/queue.ts:90-105 | an urgent flush that is not keepalive sends something if and only if an urgent record is queued |
| QueueAttempts.DefaultDrainTakesSome | packages/core/src/client.ts:176-180 | a default flush of a non-empty queue sends something |
| QueueAttempts.FlushesEmptyTheQueue | packages/core/src/client.ts:173-214 | as many default flushes as attempts were left empty the queue, whatever the network does |
| QueueAttempts.KeepaliveStallsExactly | packages/core/src/client.ts:176-180 | a keepalive flush of a queue within bounds whose records have attempts left, as every reachable one is, leaves it as it was if and only if every queued event is too big for the keepalive envelope |
| StableSorting.Ordered | packages/browser/src/outbox.ts:69-81 | the insertion loop is `StableSort` |
| StableSorting.StableSortCorrect | packages/browser/src/outbox.ts:69-81 | the result is sorted, a permutation, and keeps the input order of equal keys |
| StableSorting.StableSortUnique | packages/browser/src/outbox.ts:69-81 | those properties leave only one result |
| Outbox.IndexedDbEventOutbox.Save | packages/browser/src/outbox.ts:121-169 | merges, drops what is expired or exhausted, retains newest first, leaves other scopes alone and returns the number given up |
| Outbox.IndexedDbEventOutbox.Retain | packages/browser/src/outbox.ts:151-161 | the downward loop with its running total keeps what `RetainNewest` keeps |
| Outbox.IndexedDbEventOutbox.Load | packages/browser/src/outbox.ts:95-119 | returns the live urgent records, oldest event first, and deletes every other record of the scope and no other |
| Outbox.IndexedDbEventOutbox.Remove | packages/browser/src/outbox.ts:171-180 | deletes exactly the named events of the scope |
| Outbox.MergedMeaning | packages/browser/src/outbox.ts:131-143 | after the merge an id holds the newest record saved for it, at the time it was first stored |
| Outbox.RetainedExactly | packages/browser/src/outbox.ts:151-161 | a candidate survives exactly when, after the newer survivors, both limits still admit it |
| Outbox.SaveIsWellFormed | packages/browser/src/outbox.ts:145-168 | the scope keeps unique ids and both limits, and the count of entries given up is never negative |
| Outbox.SaveKeepsNewestThatFit | packages/browser/src/outbox.ts:121-169 | the scope ends as the newest-first greedy subset of the live merged entries, first-stored times are kept, and the count returned is the number of live entries given up |
| Outbox.SaveKeepsTheYoung | packages/browser/src/outbox.ts:145-150 | what a save keeps is younger than the time to live and has fewer than eight attempts, and every merged entry like that is considered |
| Outbox.LoadKeepsTheYoung | packages/browser/src/outbox.ts:104-114 | a load keeps exactly the urgent entries that are younger than the time to live and have fewer than eight attempts |
| Outbox.SaveKeepsNewArrival | packages/core/src/client.ts:131-133 | the save a capture makes keeps the event it was made for if and only if the event fits the configured byte limit at all, unless the clock ran backwards |
| DeliverySafety.StepPreserves | packages/core/src/client.ts:84-271 | every step of capture, flush, drain, acknowledgement, failure, restore, outbox write and crash keeps the invariant |
| DeliverySafety.FailPreserves | packages/core/src/client.ts:197-212 | a failed send, with its retry, its save and its removal, keeps the invariant |
| DeliverySafety.FailMentions | packages/core/src/client.ts:204-209 | saving before removing: what was given up ends removed even if it was also retried, other retried urgent events end saved, and the rest is as it was |
| DeliverySafety.WritePreserves | packages/core/src/client.ts:245-271 | a finished durable write keeps the invariant, whatever the outbox gives up for it |
| DeliverySafety.LoadMeaning | packages/browser/src/outbox.ts:104-118 | a load hands out distinct live urgent records, each from a stored entry, sorted by event time |
| DeliveryTheorems.AtMostOneBatchInFlight | packages/core/src/client.ts:152-171 | in every reachable state at most one flush operation exists, and it is the one new calls join |
| DeliveryTheorems.MemoryStaysDistinct | packages/core/src/client.ts:173-213 | no event is held twice, queued attempts stay below eight and no event is sent more than eight times in a client's life |
| DeliveryTheorems.UrgentEventsAreSecured | packages/core/src/client.ts:131-133 | in every reachable state every urgent event queued or in flight is owed: taken on, and neither acknowledged nor reported dropped; and an owed event is in the outbox once the pending writes are applied if and only if one of them saves it or the outbox has not given it up for good, which is to give it up and not store it again |
| DeliveryTheorems.SecuredReachesTheOutbox | packages/core/src/client.ts:245-271 | once the writes that concern an owed event have run, it is stored if and only if the outbox has not given it up for good |
| DeliveryTheorems.NothingIsGivenUp | packages/browser/src/outbox.ts:121-169 | if no write fails, nothing grows too old, what is loaded validates and all urgent events taken on fit the outbox together, it gives up none, and each is stored, once, when the chain has run out |
| DeliveryLosses.LossesExactly | packages/browser/src/outbox.ts:145-161 | after a step an event counts as given up if and only if the step was a failed save that held it and it is not stored, a save at which its merged entry was too old, exhausted or crowded out by newer ones, a load at which it was too old, or the removal of an invalid one; or it counted before and is still not stored |
| DeliveryLosses.LedgerIsExact | packages/core/src/client.ts:216-271 | a reachable state counts an event as given up if and only if such a step of this page's life gave it up and it has not been stored since; what startup cleared away had failed validation |
| DeliveryRestart.RestartRecoversTheOutbox | packages/core/src/client.ts:216-243 | after a crash, whatever is captured and attempted before the next restore and whatever fails validation, the queue then ends with exactly the live urgent records of the outbox that validate, oldest event first, behind what was queued less the fewest evictions that make room |
| DeliveryRestart.CrashLosesNoSavedEvent | packages/core/src/client.ts:152-271 | an owed urgent event whose writes have run before a crash is stored if and only if the outbox has not given it up for good, and what is stored the next life queues again, whatever happens before its restore, unless it is too old by then or does not validate |
| DeliveryCopies.StepCopies | packages/core/src/client.ts:131-271 | every step keeps, for each urgent record in memory, the chain of its copies: the stored one, then those about to be saved, each with more attempts than the one before, up to the record itself |
| DeliveryCopies.OutboxHasTheAttempts | packages/core/src/client.ts:203-209 | for every urgent record in memory the last pending save of it carries exactly that record, attempts included; if none is pending, exactly that record is stored if and only if the outbox has not given the event up for good and the last finished save of it did not fail |
| DeliveryCopies.AttemptsSurviveACrash | packages/core/src/client.ts:203-243 | so the life after a crash goes on with the attempts the event had |
| DeliveryAccounts.EverythingIsAccountedFor | packages/core/src/client.ts:84-243 | what is once queued, in flight, acknowledged or reported dropped stays so for the rest of the page's life if and only if no restore has pushed it out of the queue |
| DeliveryAccounts.AcceptedAreAccountedFor | packages/core/src/client.ts:111-134 | that is so of every event capture accepts, urgent or not, from then on |
| DeliveryAccounts.PushesOutExactly | packages/core/src/queue.ts:75-83 | a restore discards the evictions it makes; it makes some if and only if what is queued by then and the valid loaded records do not fit the queue together |
| DeliveryRemovals.InvalidAreCleared | packages/core/src/client.ts:231-235 | once the removal after a restore has succeeded, exactly the loaded events that do not validate have left the outbox, and they are not stored again in this life |
| DeliveryRemovals.DeliveredAreRemoved | packages/core/src/client.ts:190-195 | the removal after a delivery takes exactly what was drained and sent out of the outbox; of that, what no pending save holds at that moment is not stored again in this life |
| DeliveryRemovals.DeliveredStayRemoved | packages/core/src/client.ts:173-195 | that is so of every event known when its flush had waited for the restore |
| DeliveryRemovals.LateSaveReturns | packages/core/src/client.ts:173-196 | a run in which an event captured after its flush had waited is delivered, removed, and then stored by its own save |
| DeliveryRemovals.DroppedAreRemoved | packages/core/src/client.ts:121-126 | an urgent event evicted or exhausted is out of the outbox for the rest of this life once its removal has run, unless a removal of it failed |
| DeliveryOrder.FlushWaitsForEarlierWrites | packages/core/src/client.ts:173-177 | a flush drains only after every durable write issued before its restore wait ended has finished, and each urgent event it sends that was known by then is in the outbox at that moment if and only if the outbox has not given it up for good |
| DeliveryOrder.JoinedFlushesGoOn | packages/core/src/client.ts:152-171 | every call that joined a flush goes on exactly once; those that have not wait for the operation under way or are next, and no merged request is without one of them |
| DeliveryRequests.RequestIsWhatWasAsked | packages/core/src/client.ts:152-171 | at every point of a run the pending request asks for keepalive, for urgent events, or for any priority if and only if one of the calls merged into it did |
| DeliveryRequests.EveryFlushIsServed | packages/core/src/client.ts:152-171 | a flush call starts an operation with its own options, or its request stays pending with all it asked for until a joined call starts an operation covering it, or finds that nothing is left |
| DeliveryRequests.DrainServesItsCall | packages/core/src/client.ts:173-189 | a drain takes and sends what the options its operation was started with ask for |
| DeliveryRequests.CallsAreToldTrue | packages/core/src/client.ts:156-162 | every call that joined is told how many records the queue held when an operation had ended |
| DeliveryRequests.DroppedWhenNothingWasLeft | packages/core/src/client.ts:160 | a request is dropped only after an operation has left the queue empty |
| DeliveryRequests.OthersReturn | packages/core/src/client.ts:156-162 | only one of the joined calls makes the request: once it has gone on, every other one that goes on before another call joins just returns |
| SpectroClients.SpectroClient.Capture | packages/core/src/client.ts:84-142 | an invalid or oversize event changes nothing; another takes the protocol's capture step, and its id is returned exactly when it was queued |
| SpectroClients.SpectroClient.Drain | packages/core/src/client.ts:176-187 | the queue's drain loop takes the protocol's drain step and keeps object, run and store in agreement |
| SpectroClients.SpectroClient.FinishRemoval | packages/core/src/client.ts:190-196 | removes the acknowledged events from the scope, off the write chain, or leaves the store as it was, and stays on a run of the protocol |
| SpectroClients.SpectroClient.Fail | packages/core/src/client.ts:197-212 | the queue's retry loop, the save and the removal take the protocol's failure step and keep object, run and store in agreement |
| SpectroClients.SpectroClient.Restore | packages/core/src/client.ts:221-236 | queues the loaded records that pass the schema check and the size limit, and goes on to remove the others (`DeliveryRemovals.InvalidAreCleared`) |
| SpectroClients.SpectroClient.FinishStartup | packages/core/src/client.ts:231-242 | the invalid ids leave the scope, or the store stays, and the object stays on a run of the protocol either way |
| SpectroClients.SpectroClient.RunWrite | packages/core/src/client.ts:245-271 | the head of the chain runs on the real store, which then holds what the protocol's state says, or fails without touching it |
| SpectroClients.SpectroClient.FailLoad | packages/core/src/client.ts:240-242 | a load that fails keeps the object on a run of the protocol, with the outbox untouched |
| SpectroClients.ObjectKeepsPromises | packages/core/src/client.ts:52-271 | at every moment of an object's life one flush at most is under way, the queue is within bounds, no event was sent more than eight times, and when no write is pending an urgent event queued is in the store if and only if the outbox has not given it up for good |
| MembershipSafety.StepKeeps | apps/api/src/postgres-organization-members.ts:155-280 | every statement of every interleaved transaction keeps the invariant: what a lock holder has read is still true |
| MembershipSafety.AlwaysAnOwner | apps/api/src/postgres-organization-members.ts:85-97 | under every interleaving the organisation has an owner, an active one as long as no account is disabled |
| MembershipSafety.OwnersAreExplained | apps/api/src/organization-members.ts:108-114 | every owner's role comes from creating the organisation, a change by someone then an owner, or an invitation created by someone then an owner |
| MembershipSafety.AuditReplaysMembership | apps/api/src/postgres-organization-members.ts:74-84 | folding the audit log from the creation entry rebuilds exactly the membership and roles |
| MembershipSafety.AuditIsAuthorised | apps/api/src/postgres-organization-members.ts:212-242 | every log entry was allowed by its actor's role when it was written and records the true previous role |
| MembershipSafety.InvitationsStayLinear | apps/api/src/postgres-organization-members.ts:155-199 | no invitation is accepted twice or both accepted and revoked, and an address has at most one open invitation |
| MembershipDecisions.AcceptedByTheRecipient | apps/api/src/postgres-organization-members.ts:106-116 | every acceptance in the log was committed by a transaction that, while it held the lock, found its actor active, verified and with the very address the invitation had been created for, less than a week after that |
| MembershipDecisions.ManagedByManagers | apps/api/src/postgres-organization-members.ts:57-73 | every other entry was committed by a transaction that, while it held the lock, found its actor an active owner or admin |
| MembershipDecisions.EveryDecisionWasMade | apps/api/src/postgres-organization-members.ts:155-280 | each check a committed transaction has passed was made at an earlier step, under the lock, and came out in its favour |
| MembershipDecisions.DecisionsAreExact | apps/api/src/postgres-organization-members.ts:155-280 | a check fails if and only if what it asks, read off the rows, does not hold |
| MembershipDecisions.RefusedNeverCommits | apps/api/src/postgres-organization-members.ts:155-280 | a transaction whose check fails never commits |
| MembershipDecisions.CommitMeaning | apps/api/src/postgres-organization-members.ts:155-280 | what each kind of commit changes, row by row, and the one entry it adds |
| MembershipSafety.CreatedOk | apps/api/src/postgres-workspaces.ts:62-83 | a new organisation, with its creator as owner and its creation entry, satisfies the invariant |
| JsonDepth.IsJsonDepthWithin | packages/protocol/src/validation.ts:118-144 | ends on any object graph and answers true exactly when every reachable object is reached by one path and none at the limit has children |
| JsonDepth.RecursiveJsonFieldsAreBounded | packages/protocol/src/validation.ts:70-85 | an event passes exactly when each of its free-form parts is an unshared tree within five levels |
| JsonDepth.DepthCheckOnTrees | packages/protocol/src/validation.ts:118-144 | on a copy of a tree the answer is the recursive depth test, if the copy shares nothing |
| JsonDepth.DepthCheckOnFreshCopies | packages/protocol/src/validation.ts:118-144 | on a tree laid out afresh the check is the recursive depth test |
| JsonDepth.SharingIsRefused | packages/protocol/src/validation.ts:128-131 | any object that is a child at two places reachable from the root makes the check refuse, with no cycle needed |
| JsonDepth.CyclesAreRefused | packages/protocol/src/validation.ts:128-131 | an object that can be reached from itself is refused |
| Normalizer.NormalizeInPlace | packages/core/src/normalize.ts:34-88 | the recursion with its one mutable set computes `Normalize` and leaves the set as it found it, on success and on failure |
| Normalizer.NormalizeFieldsInPlace | packages/core/src/normalize.ts:76-84 | the property loop leaves out sensitive keys, cuts the others and stops at the first failure |
| SensitiveKeys.NormalizeProperties | packages/core/src/normalize.ts:90-92 | custom properties are normalised with the SDK's test of keys, from depth 0 and with nothing under way |
| SensitiveKeys.DisguisedFragment | packages/core/src/normalize.ts:26-32 | a key in which a sensitive fragment stands, in any case and with any separators, is sensitive |
| SensitiveKeys.SensitiveHasAReason | packages/core/src/normalize.ts:26-32 | a sensitive key is, folded, one of the three words or has one of the fragments in it |
| Normalizer.FieldResults | packages/core/src/normalize.ts:76-84 | the entries of a result are exactly what the kept properties become, a later one overwriting an earlier one with the same cut key |
| NormalizerMeaning.ResultIsImage | packages/core/src/normalize.ts:34-88 | read off the value: strings become their first 2048 characters, arrays the images of their first hundred items in order, objects one entry for each cut key that one of the first hundred properties gives, in the order first given, with the image of the last such property; other scalars themselves |
| NormalizerMeaning.FailsAtTheFirstFault | packages/core/src/normalize.ts:34-62 | it fails if and only if something it looks at is too deep, not finite, unsupported, a date or below itself, and then with what is wrong with the first of these in visiting order |
| Normalizer.ResultIsCanonical | packages/core/src/normalize.ts:34-88 | a result keeps every limit: depth, items, keys, key length and string length, with distinct keys |
| Normalizer.NormalizedPassesDepthCheck | packages/core/src/normalize.ts:90-92 | whatever the input, the objects a successful call builds pass the validator's depth check |
| Normalizer.NoSensitiveKeySurvives | packages/core/src/normalize.ts:76-84 | no key at any depth is sensitive if and only if cutting makes no kept key sensitive, in particular when keys have at most 128 characters |
| SensitiveKeys.CutCanExposeASensitiveKey | packages/core/src/normalize.ts:79-82 | a harmless key of 129 characters that leaves a sensitive one in the result |
| Normalizer.NormalizeIsIdempotent | packages/core/src/normalize.ts:34-92 | normalising a result again changes nothing if and only if cutting made no kept key sensitive |
| Yaml.YamlRoundTrip | apps/web/src/payload-viewer.tsx:16-49 | reading the printed lines of a value gives the value back, at any nesting |
| Yaml.YamlTextRoundTrip | apps/web/src/payload-viewer.tsx:51-52 | so does reading the joined text |
| Yaml.YamlIsInjective | apps/web/src/payload-viewer.tsx:51-52 | distinct values print differently |
| Yaml.EscapeMeaning | apps/web/src/payload-viewer.tsx:16-24 | which characters a string escapes, and how |
| Issues.ListStore | apps/api/src/clickhouse-issues.ts:117-128 | a store page is the next rows in order, with a cursor exactly when more follow |
| Issues.StorePageMeaning | apps/api/src/clickhouse-issues.ts:83-128 | reading one row more than asked for tells exactly whether more follow, and the cursor leads to them |
| Issues.PushMatches | apps/api/src/app.ts:656-680 | the inner loop adds the page's matches and stops at the row that fills the data |
| Issues.ListIssues | apps/api/src/app.ts:636-680 | the loop ends and answers the simple query: the first matching issues after the cursor, with a cursor exactly when rows remain after the last one given |
| Issues.FollowingMissesNothing | apps/api/src/app.ts:636-680 | following the cursors with any limits yields every matching issue once, in order |
| Issues.MatchingMeaning | apps/api/src/app.ts:656-666 | the matches are the rows with the wanted status, each once and in order; an issue without a record is open |
| Issues.AnswerMeaning | apps/api/src/app.ts:666-683 | an answer holds the first matches, as many as asked for, and a cursor at the last of them if and only if it is full and rows follow |
| Keyset.AfterMeaning | apps/api/src/clickhouse-issues.ts:83-88 | the rows behind a cursor are those below it in both parts' descending order |
| LiveDrain.ListLive | apps/api/src/clickhouse-live.ts:48-64 | the byte-capped loop computes the page |
| LiveDrain.AdmitRows | apps/api/src/clickhouse-live.ts:49-57 | the loop admits the first row always and further ones while the byte cap allows |
| LiveDrain.PageMeaning | apps/api/src/clickhouse-live.ts:48-64 | a page is the next rows, never empty while rows remain, within the byte cap unless it is one row, as long as both caps allow, with a cursor exactly when rows remain |
| LiveDrain.DrainReachesEveryRow | apps/api/src/clickhouse-live.ts:31-65 | following the cursors reaches every row once, in order |
| LiveDrain.FetchObservation | apps/web/src/live-query.ts:28-74 | returns the first pages, at most five and 8 MiB of text, a prefix of the table; `truncated` says exactly whether it is a proper one, or the table is empty and the wrapping of its empty page alone exceeds 8 MiB |
| LiveDrain.PageTextLength | apps/web/src/live-query.ts:44-50 | the bytes counted for a page are the length of its text |
| LiveArrivals.ObserveArrivals | apps/web/src/live-observation.ts:21-57 | the loops compute `Observe`: fresh rows in front, trimmed from the end of what may be trimmed |
| LiveArrivals.DropOverflow | apps/web/src/live-observation.ts:47-55 | the loop drops rows from the end of the pending list when paused and of the displayed list when not, counting them, until everything fits or nothing is left to drop |
| LiveArrivals.TrimMeaning | apps/web/src/live-observation.ts:49-55 | trimming keeps the longest prefix that fits both bounds beside the other rows |
| LiveArrivals.FreshMeaning | apps/web/src/live-observation.ts:29-43 | fresh arrivals are distinct and exactly the items not known before |
| LiveArrivals.FreshInOrder | apps/web/src/live-observation.ts:34-43 | they are the items of which the id is neither known nor that of an earlier item, in arrival order, with the time of the poll |
| LiveArrivals.ObserveMeaning | apps/web/src/live-observation.ts:45-56 | what a poll shows and lets wait begins with the fresh arrivals, before what waited, before what was shown, cut only at the end |
| LiveArrivals.SeenAreTheLatest | apps/web/src/live-observation.ts:29-56 | the ids seen are the last thousand of those seen before, shown, waiting and polled, in this order, none twice |
| LiveArrivals.RunAccounts | apps/web/src/live-observation.ts:21-60 | on every run from empty no event occurs twice, both bounds hold, and rows plus evicted is everything ever admitted |
| LiveArrivals.ObserveKeeps | apps/web/src/live-observation.ts:45-56 | one poll keeps the bounds and the account, and a paused one leaves the displayed rows alone |
| LiveArrivals.PauseThenRevealShowsTheSame | apps/web/src/live-observation.ts:45-60 | if nothing was evicted and the seen list not cut, pausing for any number of polls and revealing shows what reading on would have shown |
| PageLifecycle.SessionPageLifecycle.ApplyContext | packages/browser/src/lifecycle.ts:256-271 | tells the host, and the map holds exactly the last visits to the 32 most recently visited urls |
| PageLifecycle.SessionPageLifecycle.Start | packages/browser/src/lifecycle.ts:117-143 | resumes a usable stored session or begins one, applies the page, and captures accordingly; a second start changes nothing |
| PageLifecycle.SessionPageLifecycle.Touch | packages/browser/src/lifecycle.ts:145-162 | renews an expired session with a new page, or notes the time and writes at most once a minute |
| PageLifecycle.SessionPageLifecycle.HandleNavigation | packages/browser/src/lifecycle.ts:190-218 | the same url is only activity; another applies a new page and, if the session expired, a new session first |
| PageLifecycle.SessionPageLifecycle.ContextForNavigationUrl | packages/browser/src/lifecycle.ts:178-188 | gives the last context of a remembered url, none for a forgotten one, and for the current url the current context |
| PageLifecycle.SessionPageLifecycle.Stop | packages/browser/src/lifecycle.ts:164-176 | stopping leaves session, page and remembered contexts as they are, so a later start goes on from them |
| PageLifecycle.LatestMeaning | packages/browser/src/lifecycle.ts:264-265 | the list of latest visits holds exactly the visits whose url was not visited again, one for each url |
| PageLifecycle.LatestOrdered | packages/browser/src/lifecycle.ts:264-265 | it is ordered by those visits |
| PageLifecycle.ForgottenOnlyForNewer | packages/browser/src/lifecycle.ts:266-270 | a page is forgotten only when 32 others have been visited since |
| PageLifecycle.RecentStep | packages/browser/src/lifecycle.ts:264-270 | deleting, adding at the end and dropping the oldest keeps the most recent 32 |
| PageLifecycle.SessionsSplitAtTimeouts | packages/browser/src/lifecycle.ts:236-242 | while the clock goes forward, two moments of activity fall in one session if and only if the timeout has not passed between them; every operation adds its moment to such a record |
| PageLifecycle.PersistedMeaning | packages/browser/src/lifecycle.ts:244-254 | storage is written if forced or a minute after the last write, and then holds the session |
| SchemaPointer.ResolveSchemaReference | apps/web/src/schema-catalogue.ts:24-40 | the walk as written, with its undefined values, is `Resolve` |
| SchemaPointer.UnescapeEscape | apps/web/src/schema-catalogue.ts:31-32 | unescaping recovers every name from its escaped form, which has no slash and no bad escape |
| SchemaPointer.ResolveEncodedPath | apps/web/src/schema-catalogue.ts:30-40 | for every document and every path into it, resolving the path's encoding gives the node there, if it is a schema |
| SchemaPointer.ResolvesExactly | apps/web/src/schema-catalogue.ts:24-40 | a pointer resolves to a node if and only if it is the encoding of a path to that node and the node is a schema |
| SchemaRows.BuildSchemaRows | apps/web/src/schema-catalogue.ts:163-235 | expansion ends over cyclic references and yields exactly the first 200 rows of the unbounded expansion; `limited` says whether any were cut off |
| SchemaRows.RowBuilder.FollowReferences | apps/web/src/schema-catalogue.ts:181-212 | the reference loop gathers the chain that `Gather` describes |
| SchemaRows.RowBuilder.Walk | apps/web/src/schema-catalogue.ts:170-227 | adds the field's rows, and those below it, up to the limit |
| SchemaExpansion.ChildrenAlongReferences | apps/web/src/schema-catalogue.ts:178-209 | the children of a row are the field's own fields and those of every schema along its references, in order; the references are known, pairwise different, none met above and at most sixteen, and the note says, if and only if, at which of a missing, repeated or seventeenth one the chain stopped |
| SchemaExpansion.EveryPlace | apps/web/src/schema-catalogue.ts:170-233 | the unbounded expansion is the row at every place whose upper rows are all open, each once, in reading order |
| SchemaExpansion.RowMeaning | apps/web/src/schema-catalogue.ts:177-227 | a row in the field's own terms: id, depth, reference, note and when it can be opened |
| SchemaRows.RowsAreShallow | apps/web/src/schema-catalogue.ts:210-226 | no row lies deeper than twelve, an open one less deep, and its id ends in its own escaped name |

## Left out

- Sizes: the serialised length of an event is a field of the event, as the queue and the outbox cache it. An
  envelope's length is its fixed text plus the events, and item sizes on live pages are given.
- Clients: one client uses an outbox scope at a time, with an outbox; the client without a durable queue and other
  tabs writing to the same scope are not modelled.
- Error reporting, the callbacks for urgent events, full batches and transport failures, and the timers and backoff
  that call flush. Any step may be followed by any other, so no schedule is assumed.
- The transport beyond its size guards: a send is acknowledged or fails.
- Event validation, the name pattern and sanitising of payloads: capture is told whether the event passed.
- QueueClocks.ClocksDecideFit: the measuring clock is below 10 to the power 100 milliseconds, as every date is.
- DeliveryTheorems.MemoryStaysDistinct: event ids of captures are assumed new, as version 7 UUIDs are.
- SpectroClients.SpectroClient.Capture: the event's id is assumed new, as a version 7 UUID is.
- SpectroClients.SpectroClient.constructor: what the store holds for the scope is within the limits, as every object
  with the same limits leaves it (`SpectroClients.ObjectLeavesAStart`).
- Outbox.IndexedDbEventOutbox.constructor: the limits it takes are already bounded; limits that are not positive
  safe integers make the source throw.
- IndexedDB itself: the order in which it lists a scope is left open, a transaction takes effect whole or not at
  all, and a stored attempt count is a natural number.
- `eventPriority`, `normalizeTags` and `observationFrom`: single expressions.
- Membership: one organisation at a time, tokens as the ids of their invitations, addresses already normalised. The
  shared row locks on memberships and people are left out, which only allows more interleavings.
- Membership listings, invitation previews and project creation: they change no membership.
- Normalizer: strings are sequences of characters, not UTF-16 units. The order JavaScript gives to keys that look
  like integers, and a key named `__proto__`, are not modelled.
- Yaml.YamlRoundTrip: numbers are carried as the text JavaScript prints for them, and the printer's last case, for
  values JSON does not have, is left out. The JSON form of `formatPayload` is the runtime's own.
- Issues: the query's conditions and the aggregation are the table, which is fixed while it is read; the encoding of
  cursors and the error replies are left out. A cursor may lead to an empty last page, as in the source.
- LiveDrain.FetchObservation: responses that are not OK, or of another project, end it with an exception and are not
  modelled. Live conditions are the table, fixed by the window the first page settles.
- LiveArrivals: the row and byte limits are parameters; their defaults are 500 rows and 8 MiB.
- PageLifecycle: one clock reading and one page reading serve each call; sanitising of urls is left out, as are the
  subscriptions and a host that throws.
- PageLifecycle.SessionPageLifecycle.Stop: the cleanups registered by start, run in reverse order with their errors
  reported, are the host's; what is modelled is what stopping does to the fields.
- SchemaPointer.ResolveSchemaReference: splitting a reference into document and pointer, and percent-decoding, are
  the runtime's.
- SchemaRows: references are resolved identities; type names, constraints and the order of the error document's
  fields are left out.
- User interface, routing, sign-in, ingestion and the other stores.
