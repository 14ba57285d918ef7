# Night Drop core: verified model

A Dafny model of the messaging core of Night Drop, with proofs of what its documentation promises. The model follows
the Rust sources under `core/src`: the same branches, the same constants, the same error paths. What the code changes
step by step is a class or a loop here, proved equal to a function; what is promised is proved of those functions, over
every input and every run.

| module | what it models |
|---|---|
| `RelayList` | a device's own relay list: normalizing it, editing it, and the 24 h tail of dropped relays in its polled set |
| `DrainPlan` | which relays a drain round really asks, out of that set |
| `Posting` | which relays a frame is posted to, the fan-out with its receipts, one detached send, and recall |
| `Outbox` | one device's delivery state (`Node`): held frames, the outbox, control frames, retry clocks, and applying a round's results |
| `Effects` | what each of those operations does to every field, told without the functions that compute it |
| `InFlight` | the whole delivery machine (node, running batch, API calls, what the network took) and its in-flight invariant |
| `Device` | the node with its poller and API calls: each of its calls is a step of that machine |
| `HoldOrder`, `Runs` | held frames reach a contact without a relay one at a time and in the order they were held, in every run |
| `NoLoss` | no frame is lost before it is delivered or its chat goes, poller teardown included |
| `ShutDown` | the shutdown beside the poller's teardown, the debounced save, and which of the frames put back are written |
| `Progress` | an arrival releases the next frame; retries back off; a control frame waits until it lands |
| `Mailbox`, `Drain` | taking mail from a relay within its response budget, and a drain round over every mailbox fragment |
| `KeyRoll` | the anti-rollback choice of a signing key, and the signed relay list that uses it |
| `Pairing` | the two halves of the short-code handshake over ideal primitives, and the joiner's two bounded loops |
| `Bytes`, `Decimal`, `Codec` | big-endian numbers, UTF-8 and decimal text, length-prefixed fields, and the envelopes built from them |
| `CivilDate`, `RateLimit`, `Redact` | the log's time stamp, its rate limiter and its redaction |
| `StartUp` | which onion identity a start comes up on, as a machine over disk steps that can stop anywhere |
| `Lifecycle` | the stop signal on a condition variable, the poller's jobs, and what is over when its guard drops |

`dafny verify dfyconfig.toml` checks all of it.

## How the model stands for the code

* The asynchronous transport is modelled: queueing a send only pushes to the outbox. A dial, post or take has any
  outcome, and a failed post or take stores or removes nothing.
* Every sealed frame is distinct bytes. A frame with no message has `None` where the code has an empty message id.
* Cryptography, base64 and JSON are function-valued parameters. Where a result needs them ideal, it says so in a
  predicate (`Pairing.Ideal`, `KeyRoll.Ideal`, `KeyRoll.SignedOnly`), and `Pairing.IdealIsMet` shows that the handshake's
  demands can be met together.
* Fields named as history (`holdLog`, `delivered`, `sealed`, `log`, `history`, `mine`, `replaced`, `owner`,
  `known`) only record what happened, so that a property of a run can be stated. No decision of the code reads them.
* Time is a parameter, in the unit the code uses.

## Where the code does less than its text says

Each is proved with an input that shows it and the exact condition under which the promise holds.

* A dropped relay need not be drained for its 24 h, though its mail "would otherwise be lost". A drain round polls through
  `expand_relay_set`, which keeps the first four onions, a cap meant for a contact's untrusted set; list and tail together
  can name more. `DrainPlan.OneExchanged` is one such edit, `DrainPlan.DroppedIsNotDrained` every edit of its kind;
  `DrainPlan.ListedOnceIsDrainedIff` is the condition over any run of edits, and `DrainPlan.FewAreDrained` the common case.
* What the poller's teardown puts back need not be saved. Its save is debounced; `shutdown_core` writes a pending save when
  it gets the lock, and does not try again when it got it before the poller was done. `ShutDown.ClosedEarlyIsLost` is such
  a shutdown, of a state a run reaches; `ShutDown.AbandonedIsWrittenIff` is the condition.
* A settled epoch may still hold mail. A drain job counts as answered when one take of the fallback was answered, and a
  response is cut off at 32 MiB. `Drain.SettledMayLeaveMail` is such a round; `Drain.SettledIsEmptyIff` is the condition.
* The comment on `read_onion_key` says an unreadable file is never treated as absent. The code returns "absent" for every
  failed read, and seals what it then launches on before it loads the state file. So one failed read can lose the address
  at once (`StartUp.FailedReadLosesAddress`) or for the next start (`StartUp.FailedReadLosesAddressLater`).
  `StartUp.RestoredIffRead` is the condition for one start that sees its state file, `StartUp.StartKeepsIff` for any.
* A state file that is there and not seen is taken for none, and a new node is saved over it, on a new address or the old
  one: `StartUp.UnseenInstallIsReplaced`. `StartUp.KeptIffNeverLost` is the condition for every point of a run of starts.
* A start with a wrong store key fails, but before the identity has left the keystore it first seals it under the wrong
  key, and the right one is shut out: `StartUp.WrongKeyLocksOut`. The conditions are in `StartUp.WrongKeyStart` and
  `StartUp.OpensIffNeverRekeyed`.
* A fresh start adopts a leftover keystore when removing it fails: `StartUp.LeftoverIsAdopted`; the conditions are
  `StartUp.FreshIffRemoved` and `StartUp.NewIffNeverAdopted`.
* A relay is posted to twice when the primary client hides its address and the peer's set names that address:
  `Posting.PostedToTwice`, `Posting.AttemptsExact`. Only tests build such a client (`RelayClient::with_dialer`); the app
  uses `with_dialer_for`, which knows its address.
* An onion address in capitals is not redacted, nor one whose `.onion` is: `Redact.CapitalsStay`. One is hidden whole
  exactly when its label is lowercase base32 (`Redact.AddressHiddenIff`) and its mark is in lowercase
  (`Redact.CleanLineIsKept`).
* The log's date has the grammar of RFC 3339 up to the year 9999: `CivilDate.YearTenThousand`, `CivilDate.StampReads`.
* `put_field` writes the length cast to 32 bits, so a value of 2^32 bytes reads back empty (`Codec.PutReads`): it is
  inverted for values shorter than 2^32 and no others (`Codec.PutTakes`, `Codec.EditReturns`, `Pairing.PairsIffSameCode`).

## Model

| member | source | states |
|---|---|---|
| Runs.FifoEveryRun | core/src/node.rs:3304-3362 | in every run, while a contact has no relay route, its held frames arrive in the order they were held, at most one is in flight and it is the oldest, whatever hold, flush, round, API call, signal or teardown is interleaved |
| HoldOrder.StepKeepsFifo | core/src/node.rs:2529-2680 | each single step of the machine, arbitrary outcomes included, keeps that order |
| Runs.OneInFlight | core/src/node.rs:3304-3362 | the entry of an unrouted contact that is in flight is its oldest, and it is the only one |
| Runs.CoherentEveryRun | core/src/node.rs:2495-2525 | in every reachable state marks and sends agree: a marked entry has its send on the way, an unmarked one has none, no frame is on its way twice, every frame has one home |
| Runs.LaunchIsCoherent | core/src/node.rs:1094-1102 | an empty or restored node, with nothing on its way, starts out coherent and in order |
| Device.Device.Deliver | core/src/node.rs:2432-2467 | handing a frame to the node is the machine's step for it |
| Device.Device.HeardFrom | core/src/node.rs:3153-3164 | so is hearing from a contact |
| Device.Device.TakeRound | core/src/api.rs:3088-3097 | so is the poller's taking the outbox for a round |
| Device.Device.ApplyRound | core/src/api.rs:2884-2897 | so is recording a finished round |
| Device.Device.TakeForCaller | core/src/node.rs:2519-2525 | so is an API call's taking its own sends |
| Device.Device.ApplyForCaller | core/src/api.rs:1365-1387 | so is recording them |
| Device.Device.Abandon | core/src/api.rs:3122-3134 | so is recording as failed what never went out |
| InFlight.StepKeepsCoherent | core/src/node.rs:2529-2680 | each single step keeps in-flight coherence, sends of deleted chats (orphans) included |
| InFlight.ApplyHeadKeepsCoherent | core/src/node.rs:2529-2680 | applying one result (any kind of send, any outcome) keeps it: a failed retry is idle again, one that arrived is gone, an orphan changes nothing |
| InFlight.FlushKeepsCoherent | core/src/node.rs:3304-3362 | a flush keeps it: the indices its first pass collects are still right in its second |
| InFlight.FlushControlKeepsCoherent | core/src/node/messaging.rs:548-581 | a flush of control frames keeps it, each send carrying the entry its sealed bytes find |
| InFlight.TakeCallersKeepsCoherent | core/src/node.rs:2519-2525 | taking the API calls' own sends out of the outbox keeps it |
| Outbox.CallerSplitIsStable | core/src/node.rs:2519-2525 | the split into callers' sends and the rest loses nothing, adds nothing, separates exactly and is idempotent |
| Outbox.SplitKeepsOrder | core/src/node.rs:2519-2525 | both sides keep the outbox's order: the callers' sends stand at its callers' places, the rest at the others, in increasing order |
| Outbox.GoingExact | core/src/node.rs:3304-3362 | a flush sends exactly a routed contact's idle entries and an unrouted contact's oldest when idle and due, in queue order |
| Outbox.DetachedIsRouted | core/src/node.rs:2472-2490 | a frame detached for a contact has a relay to go to exactly when the contact has a relay route |
| Outbox.FindHeldExact | core/src/node.rs:2592-2601 | a held result finds the first entry with its sealed bytes, or there is none |
| Outbox.MarkingKeepsFinds | core/src/node/messaging.rs:548-581 | marking control entries in flight moves none of them and changes no frame's routing |
| Outbox.Node.HoldMessage | core/src/node.rs:3259-3283 | the frame goes to the end of the held queue, idle; nothing else changes |
| Outbox.Node.DeliverWith | core/src/node.rs:2432-2467 | the frame is queued direct-first, except that an outdated contact's one-off frame is held and its other frames, version announcement aside, are left to the next announcement |
| Outbox.Node.SendOrQueue | core/src/node.rs:2495-2510 | the send goes to the end of the outbox; nothing else changes |
| Outbox.Node.TakeOutbox | core/src/node.rs:2513-2515 | the whole outbox is handed over and nothing is left in it |
| Outbox.Node.TakeCallerOutbox | core/src/node.rs:2519-2525 | the callers' sends are handed over, the rest stays in order |
| Outbox.Node.PlanFlush | core/src/node.rs:3315-3342 | the first pass, with its list of busy contacts, finds exactly the entries the specification sends |
| Outbox.Node.SendPlanned | core/src/node.rs:3343-3361 | the second pass marks and queues each planned entry by the index the first pass found |
| Outbox.Node.FlushHeldFor | core/src/node.rs:3304-3362 | a flush leaves exactly the state its specification gives: closed chats' frames dropped, due entries marked, one send for each |
| Outbox.Node.QueuePendingControl | core/src/node.rs:2779-2786 | a control frame is kept, marked in flight, and sent |
| Outbox.Node.FlushPendingControlFor | core/src/node/messaging.rs:548-581 | every due control frame is marked and sent by the entry that carries it |
| Outbox.Node.HeldRetryFailed | core/src/node.rs:3137-3149 | the retry clock of one contact moves on; nothing else changes |
| Outbox.Node.HeardFrom | core/src/node.rs:3153-3164 | the retry clock is reset, and what is kept for the contact goes out, direct first, if anything waited |
| Outbox.Node.ApplyOutbound | core/src/node.rs:2529-2680 | applying a batch in place gives the state of applying its results one after another |
| Effects.DeliverQueues | core/src/node.rs:2432-2467 | a frame for an up-to-date contact, and a version announcement for any, adds exactly one send at the end of the outbox, direct first, to that contact with these bytes, address and mailbox, and to exactly the relays both sides reach; nothing else changes |
| Effects.DeliverWaits | core/src/node.rs:2443-2460 | any other frame for an outdated contact is held, idle and last, when it is one-off, and left otherwise; nothing is queued |
| Effects.FlushTells | core/src/node.rs:3304-3362 | a flush keeps exactly the open chats' frames in order, marks exactly those asked for and idle that are routed or their contact's next and not held back, and queues for each one send over a new connection, by relays alone exactly for a routed contact whose device does not come first |
| Effects.FlushControlTells | core/src/node/messaging.rs:548-581 | a flush of control frames marks exactly those asked for and idle that have a relay to go to or are not held back, and queues for each one send, relay first, by its own routing |
| Effects.QueueControlTells | core/src/node.rs:2779-2786 | a new control frame stands last, marked, with one send by the route asked for |
| Effects.HeardTells | core/src/node.rs:3153-3164 | hearing from a contact stops its clock and no other; then of its open, up-to-date chat the oldest held frame is in flight, all of them when it is routed, and so is each of its control frames unless it is outdated without a relay for it |
| Effects.ResultMovesClock | core/src/node.rs:2543-2550 | applying a result: a failure with no relay to go to sets its recipient's wait to 60 s the first time, else to double, at most 300 s or 900 s in the background, from now; a direct arrival removes it; no other result moves it, and none another contact's or one's own |
| Effects.ResultHolds | core/src/node.rs:2551-2568 | a result of anything but a held frame holds its frame exactly when it failed, is one-off, had no relay to go to and its chat is open, and queues nothing |
| Effects.HeldResult | core/src/node.rs:2592-2636 | a held frame's result: failed, that entry is idle; taken by a relay, it is gone; arrived directly, it is gone and what a flush for its contact does follows |
| Effects.HeldOrphan | core/src/node.rs:2592-2597 | a held result whose frame is gone changes no queue |
| Effects.ControlResult | core/src/node.rs:2582-2591 | a control frame that landed is gone from its queue, one that failed is idle again, and no other result touches that queue |
| Effects.LandedKeepsOrder | core/src/node.rs:2582-2585 | the others stay in their order |
| Effects.ResultRecords | core/src/node.rs:2569-2659 | relay copies are recorded against exactly the message the result names, a copy handed directly counted in behind an unconfirmed one; no chat changes otherwise |
| Effects.ResultAwaits | core/src/node.rs:2620-2672 | a message handed over directly waits for its receipt from now, a failed copy behind one as before, and nothing else newly waits |
| NoLoss.NothingLost | core/src/node.rs:2432-2467 | from the moment it is owed, a frame is owed (held, in the outbox, in the running batch or with an API call) or delivered in every later state while its chat is open |
| NoLoss.StepKeepsOwed | core/src/node.rs:2529-2601 | no single step loses a frame that is owed to an open chat |
| NoLoss.GivenFrameIsOwed | core/src/node.rs:2432-2467 | a one-off frame handed over for a contact with no relay route, or an outdated one, is owed from then on |
| NoLoss.GivenFrameIsUnderWay | core/src/node.rs:2432-2467 | every frame handed over for an up-to-date contact, whatever its routes, is under way at once |
| NoLoss.StepKeepsUnderWay | core/src/node.rs:2495-2680 | no single step ends a send, whatever its kind and routes, unless the network took the frame or the step applies a failed result of it |
| NoLoss.SendEndsSomehow | core/src/node.rs:2495-2680 | so in every run: a send stays queued, running or with an API call until the network has taken the frame or a failure of it is applied |
| NoLoss.TeardownLeavesNothingInFlight | core/src/api.rs:3116-3134 | after the poller's teardown the outbox and the batch are empty, nothing is marked in flight, and marks and sends still agree |
| NoLoss.TeardownKeepsOwed | core/src/api.rs:3116-3134 | teardown loses nothing from memory: with no API call open, a frame owed and not delivered is in the held queue afterwards |
| ShutDown.AbandonedIsWrittenIff | core/src/api.rs:2766-2820 | over every interleaving of a shutdown with the teardown: a one-off frame put back, and not in the file before, is held at the end, and is in the file exactly when the last write was a debounce window before the teardown's last act and that write succeeds, or else when the shutting thread had the lock after it and its write succeeds (no other call saving) |
| ShutDown.WrittenIffClosedAfter | core/src/api.rs:2766-2820 | on a disk that can be written, the shutting thread having had the lock once: exactly when the window was over or it had the lock after the teardown's last act |
| ShutDown.ClosedOnceGoneIsWritten | core/src/api.rs:3116-3134 | when it had the lock once the poller was gone, what was put back is written, as the comment promises |
| ShutDown.HeldIsWrittenIff | core/src/api.rs:631-668 | with other calls saving too: a frame held from some step on is in the file at the end exactly when some step from there on wrote the file |
| ShutDown.ClosedOnce | core/src/api.rs:2766-2820 | the shutting thread has the lock once at most |
| ShutDown.ClosedEarlyIsLost | core/src/api.rs:2776-2796 | one shutdown just after a save that gets the lock at once: the frame put back is in memory only |
| ShutDown.ExportedTells | core/src/node/backup.rs:149-158 | what is written of the held queue: every entry with its contact, message and bytes, in order and idle |
| ShutDown.RestartLaunches | core/src/node/backup.rs:400-412 | written in any reachable state, it makes a launch that every result on runs starts from, holding exactly what was held |
| ShutDown.Saver.SaveLater | core/src/api.rs:649-658 | a save soon writes when the last write is a window ago, else marks one pending |
| ShutDown.Saver.Flush | core/src/api.rs:663-667 | a pending save is written now, and no other |
| Progress.DirectSuccessAdvances | core/src/node.rs:2592-2636 | for an open, up-to-date contact other than oneself, without a relay route: a direct arrival of a held frame takes exactly that frame out of its queue, and the oldest of the rest is on its way at once |
| Progress.ArrivalIsReached | core/src/node.rs:2592-2636 | such a state is reached by a run: one saved frame, flushed, taken and handed over |
| Progress.OutdatedReleasesNothing | core/src/node.rs:3304-3362 | for an outdated contact an arrival releases nothing |
| Progress.FlushReleasesNext | core/src/node.rs:3304-3362 | a flush for an open contact that may be retried now, routed or not, with nothing in flight: drops none of its frames and sends the oldest |
| Progress.RetriesBackOff | core/src/node.rs:3137-3149 | after n direct-only failures in a row the wait is 60 s doubled n-1 times, or the cap, counted from the last one |
| Progress.BacksOffEveryRun | core/src/node.rs:2543-2550 | in every run of the machine, from a state in which a contact is not held back and for as long as its device does not show itself: after n applied results in which its direct-only send failed the wait is just that, and before the first there is none |
| Progress.ControlNeverLost | core/src/node.rs:2582-2601 | in every run a control frame stays queued, whatever happens to its chat, until a copy has landed |
| Progress.StepKeepsControl | core/src/node.rs:2582-2601 | no single step drops a control frame that has not landed |
| Progress.RecallBehindDirect | core/src/node.rs:2637-2659 | the receipts recorded for an unconfirmed message that fell back to a relay can never be recalled to success |
| Posting.AttemptsExact | core/src/node.rs:356-425 | a fan-out tries exactly the addresses named, at most one more than the peers, and none twice exactly unless the primary hides an address the peers name |
| Posting.PostedToTwice | core/src/node.rs:356-425 | one such input, with its address tried twice |
| Posting.AttemptsBounded | core/src/node.rs:3379-3398 | a detached frame is tried on at most the primary, four onions of the peer, and the directory |
| Posting.RouteExact | core/src/node.rs:2998-3014 | with our list, a mailbox and the peer's set there, a post goes to the Night Drop client when the peer uses it, and once each to exactly the peer's first four onions and the directory's relays; else nowhere |
| Posting.ExpandRelays | core/src/node.rs:3379-3398 | the loop gathers exactly those targets, in order |
| Posting.NoRouteNoPost | core/src/node.rs:2998-3005 | with our own list empty, the peer's set unknown or no mailbox agreed, a detached frame has no relay to go to |
| Posting.ReceiptsNameAcceptors | core/src/node.rs:356-425 | the receipts are exactly those of the calls that were answered, the primary's without an address |
| Posting.PostPeers | core/src/node.rs:385-425 | each peer not posted to yet is posted to once, in order, and what is stored is what the receipts name |
| Posting.QueueOnRelays | core/src/node.rs:356-425 | a fan-out makes exactly those calls, fails exactly when none is answered, and leaves no copy its receipts do not name |
| Posting.RunSend | core/src/node.rs:1279-1330 | a send reports only what its route allows; without a relay or a handle it makes no relay call; a direct-first send that got through posts nothing; one that failed tried everything it may |
| Posting.RecallReceipts | core/src/node.rs:554-596 | each copy with a relay and a mailbox is asked for once, in order, at the relay that has it, later ones after a failure included; the result is true exactly when there are copies, each could be asked for and each answer was yes; then each was stored and is gone unread |
| Posting.QueueThenRecall | core/src/node.rs:554-596 | a fan-out, anything the world does, then a recall: true means no relay holds that blob and nobody took it |
| RelayList.NormalizedSplits | core/src/node.rs:429-450 | normalizing keeps every trimmed, non-blank entry once, in order: at most four in the list, the rest as overflow only when the list is full |
| RelayList.NormalizedInOrder | core/src/node.rs:429-450 | which are kept: of the entries asked for, trimmed, blanks left out, the first of each in order; the first four of those in the list, the others cut |
| RelayList.TrimTakesBlanks | core/src/node.rs:432-436 | trimming takes the white space at both ends and nothing else |
| RelayList.NormalizedIsStable | core/src/node.rs:429-450 | a normalized list normalizes to itself |
| RelayList.NormalizeRelays | core/src/node.rs:429-450 | the loop computes that split |
| RelayList.RunKeepsValid | core/src/node.rs:2958-2976 | in every run of edits the list is normalized, no relay drains twice, and none is both listed and draining |
| RelayList.StaysInPolledSet | core/src/node.rs:2958-2988 | a relay listed at time t is in the polled set at every time before t + 24 h, whatever edits come between |
| RelayList.TailEnds | core/src/node.rs:2958-2988 | a relay dropped at time t and not asked for again is out of the polled set from t + 24 h on |
| RelayList.PolledIsListedOrDue | core/src/node.rs:2979-2988 | nothing is in the polled set that is neither listed nor still due |
| RelayList.TailInOrder | core/src/node.rs:2958-2976 | the tail after an edit, in order: what drained before and still does, what leaves the list, what did not fit, each once |
| RelayList.Relays.SetRelayListAt | core/src/node.rs:2958-2976 | an edit in place gives the specified list and tail and keeps them valid |
| DrainPlan.DrainedIff | core/src/node/messaging.rs:1512-1540 | for any list and tail, a round asks Night Drop exactly when it is polled and has a client, and an onion exactly when it is among the first four onions of list and tail, or is Night Drop's own relay or in the directory while Night Drop is polled |
| DrainPlan.ListedOnceIsDrainedIff | core/src/node/messaging.rs:1512-1540 | a relay listed at time t is drained at a time before t + 24 h, whatever edits came between, exactly on that condition then |
| DrainPlan.ListedIsDrained | core/src/node/messaging.rs:1512-1540 | a relay on the list is drained, Night Drop given a client |
| DrainPlan.FewAreDrained | core/src/node/messaging.rs:1512-1540 | so is everything in the polled set while it names at most four onions |
| DrainPlan.FullListDrainsItself | core/src/node.rs:3379-3398 | with four onions listed and Night Drop not polled, an onion is drained exactly when it is listed: nothing of the tail is |
| DrainPlan.DroppedIsNotDrained | core/src/node.rs:3379-3398 | every edit from a full list of onions to another that drops one: it is in the polled set for 24 h and never drained |
| DrainPlan.OneExchanged | core/src/node.rs:3379-3398 | one such edit, from [a, b, c, d] to [a, b, c, e] |
| DrainPlan.AfterTailDrainedIff | core/src/node/messaging.rs:1512-1540 | from t + 24 h on an onion dropped at t and not asked for again is drained exactly when Night Drop is polled and brings it along |
| DrainPlan.RoundReachesDrained | core/src/node/messaging.rs:1541-1568 | a round, in any job order, asks a drained onion for every fragment, and leaves all mail at one that is not drained where it is |
| DrainPlan.GatherRelays | core/src/node/messaging.rs:1512-1540 | the loop with its list of seen addresses gathers exactly the specified relays |
| Mailbox.FittingExact | core/src/relay_client/mod.rs:197-204 | a queue is emptied exactly when it fits the budget, whose first blob always goes; what is left waits behind a blob larger than the room |
| Mailbox.DrainHandleBounded | core/src/relay_client/mod.rs:410-441 | the relay takes the longest prefix that fits, in order, and leaves the rest |
| Mailbox.OneRequestEmptiesIff | core/src/relay_client/mod.rs:956-989 | one request for several handles empties them all exactly when everything waiting fits the budget, or is one larger blob |
| Mailbox.JointTakesWhatFits | core/src/relay_client/mod.rs:956-989 | one request takes no more than the budget, or one larger blob, and leaves at no handle a blob that would still fit: so it takes something whenever something waits |
| Mailbox.EachEmptiesIff | core/src/relay_client/mod.rs:1336-1353 | the fallback empties its handles exactly when each is answered as often as its mail needs responses, handles named twice included |
| Mailbox.EachFitsOnce | core/src/relay_client/mod.rs:1336-1353 | with each handle named once that is: its own take is answered and its mail fits one response, or it has none |
| Mailbox.TakeOkIff | core/src/relay_client/mod.rs:1312-1353 | whatever mail there is, a take counts as answered exactly when its joint request got through, on an older relay with one of the fallback's, or, for 0, 1 or more than 64 handles, when there were none or one of their takes did |
| Mailbox.TakeConserves | core/src/relay_client/mod.rs:1312-1334 | each mailbox was what was taken from it, in order, followed by what is left; a failed take removed nothing; other mailboxes are untouched |
| Mailbox.TakeEmptiesIff | core/src/relay_client/mod.rs:1312-1334 | an answered take empties what it asks for exactly when that mail fits the responses it gets, handles named twice included |
| Mailbox.Relay.TakeEach | core/src/relay_client/mod.rs:1336-1353 | one take for each handle keeps what arrived and is Ok exactly when there were no handles or some take was answered |
| Mailbox.Relay.TakeMany | core/src/relay_client/mod.rs:1312-1334 | one joint request for 2 to 64 handles, one each otherwise or when an older relay refuses, Ok exactly when it got through, with the specified result and remains |
| Drain.RoundConserves | core/src/node.rs:257-345 | over a whole round each mailbox was what was harvested from it, in order, followed by what is left |
| Drain.HarvestInJobOrder | core/src/node.rs:284-325 | what a job took follows what the jobs before it took and precedes what later ones did |
| Drain.RelayTally | core/src/node.rs:272-325 | answered + failed + skipped is the number of a relay's jobs; one that answers nothing costs exactly its first two jobs; one that answers anything has none skipped |
| Drain.OutcomeIff | core/src/node.rs:284-325 | a job is skipped exactly on a relay given up on, and one that is tried is answered exactly when its take gets through |
| Drain.LiveRelayAnswersAll | core/src/node.rs:284-325 | on a relay all of whose takes get through no job fails or is skipped |
| Drain.LiveRelayIsReached | core/src/node.rs:326-344 | such a relay counts as reachable |
| Drain.LiveRoundSettles | core/src/node.rs:326-344 | a round settles its epoch when every relay asked for it is such a one |
| Drain.SettledMayLeaveMail | core/src/node.rs:276-344 | a concrete round that settles an epoch while one of its mailboxes still holds mail |
| Drain.SettledIsEmptyIff | core/src/node.rs:276-344 | with no handle asked for by two jobs on one relay, a settled epoch's mailboxes are all empty exactly when each take got through where there was mail and that mail fits the responses |
| Drain.DrainRelayMailboxes | core/src/node.rs:257-345 | the loop with its tally harvests exactly the specified blobs, settles the asked epoch exactly when each of its jobs was answered, names each addressed relay once and reachable exactly when some take on it answered, and sums up how many jobs were answered, failed and skipped; with every take getting through, all were answered and the epoch settles |
| KeyRoll.MessageInjective | core/src/keyroll.rs:87-93 | equal rotation messages have equal purpose, sequence and key |
| KeyRoll.StandingAfter | core/src/keyroll.rs:119-153 | the key chosen is the rotation's when it is newer, signed and readable, else the one that stood; fed back it stands |
| KeyRoll.TrustIsHighest | core/src/keyroll.rs:119-153 | after any sequence of rotations and junk, from any remembered value, the trusted sequence is the highest that names a key |
| KeyRoll.TrustedKeyWasNamed | core/src/keyroll.rs:119-153 | the trusted key is the baked or remembered one, or the first one named at the trusted sequence |
| KeyRoll.OrderDoesNotMatter | core/src/keyroll.rs:119-153 | if the recovery key names one key for each sequence, two installs that heard the same rotations trust the same key |
| KeyRoll.NeverRollsBack | core/src/keyroll.rs:119-153 | no sequence of rotations lowers the trusted sequence or changes the key at it |
| KeyRoll.UnsignedIsForgotten | core/src/keyroll.rs:119-137 | a remembered value without a valid signature behaves as none |
| KeyRoll.OtherPurposeMovesNothing | core/src/keyroll.rs:155-171 | a recovery key that signed only for another purpose moves nothing |
| KeyRoll.TrustWasSigned | core/src/keyroll.rs:119-171 | over any run that starts with nothing remembered, what is remembered is a sequence and a key that the recovery key signed for this purpose |
| KeyRoll.SignedIsAccepted | core/src/keyroll.rs:175-195 | the operator's tool signs exactly the readable keys, and what it signs is accepted exactly when it is newer |
| KeyRoll.AdoptionOnlyRises | core/src/node/messaging.rs:635-680 | over any sequence of fetched lists neither the trusted sequence nor the list version goes back, and the same version means the same relays |
| KeyRoll.AdoptTells | core/src/node/messaging.rs:635-680 | a list that the key standing with its rotation counted in has signed is applied when newer, with its own relays and version, else leaves them, its rotation remembered either way; any other list changes nothing |
| KeyRoll.CleanNamesTell | core/src/node/messaging.rs:667-672 | its relays are trimmed, blanks left out, in order |
| KeyRoll.OldListIsRefused | core/src/directory.rs:124-134 | a list without a newer rotation has to be signed by the key trusted now |
| KeyRoll.DirectoryKeeper.AdoptDirectory | core/src/node/messaging.rs:635-680 | adoption in place: a list that does not verify changes nothing, one that does moves the trust, and only a newer one replaces the relays |
| Codec.TakeExact | core/src/node.rs:3509-3525 | a field is read as (v, q) exactly when the buffer has, from p to q, what writing v gives, and v is shorter than 2^32 |
| Codec.PutReads | core/src/node.rs:3504-3507 | a value written anywhere reads back cut to its length modulo 2^32 |
| Codec.PutTakes | core/src/node.rs:3504-3525 | it reads back whole exactly when it is shorter than 2^32 |
| Codec.Cursor.TakeField | core/src/node.rs:3509-3525 | the checked reader agrees with that for every offset and address width, and leaves its cursor when it fails |
| Codec.TakeAllExact | core/src/node.rs:3509-3525 | reading n fields gives these values exactly when the buffer starts with them written out and each fits |
| Codec.TwoFieldsExact | core/src/node.rs:3818-3823 | an opener splits into a and b exactly when it starts with the two written out |
| Codec.ThreeFieldsExact | core/src/node.rs:3826-3832 | an answer splits into a, b and c exactly when it starts with the three written out |
| Codec.EditReturns | core/src/node.rs:3528-3541 | an edit unpacks to its target and clamped text exactly when the target's length fits 32 bits |
| Codec.EditInverse | core/src/node.rs:3536-3541 | whatever unpacks as an edit is that edit packed |
| Codec.BurnReturns | core/src/node.rs:3545-3562 | a burn message returns its timer and clamped text for every 64-bit timer |
| Codec.BurnTimerWasWritten | core/src/node.rs:3555-3562 | a timer that is not 0 was written in the envelope: an unreadable one is 0 and nothing else |
| Codec.MediaReturns | core/src/node.rs:3713-3732 | the fields of packed media are read as written exactly when id, kind and mime are shorter than 2^32; then it returns its data, with kind and mime sanitized, exactly when its id is sane |
| Codec.TextsAreFields | core/src/node.rs:3723-3732 | what is unpacked is made of the three fields read, kind and mime sanitized, and of nothing else |
| Codec.MediaInverse | core/src/node.rs:3723-3732 | whatever unpacks as media is some media packed, sanitized |
| Codec.BurnMediaReturns | core/src/node.rs:3565-3594 | burn media likewise, with every 64-bit timer |
| Codec.BurnMediaInverse | core/src/node.rs:3582-3594 | whatever unpacks as burn media is a timer field and some media packed; an unreadable timer is 0 |
| Codec.MediaIncomingReturns | core/src/node.rs:3735-3766 | an announcement likewise, with its thumbnail and every 64-bit size |
| Codec.MediaIncomingInverse | core/src/node.rs:3752-3766 | whatever unpacks as an announcement is some announcement packed |
| Codec.EnvelopeLayouts | core/src/node.rs:3528-3766 | each envelope is exactly its fields in this order and then its text or data |
| Bytes.BeReads | core/src/node.rs:3504-3507 | a number written in w big-endian bytes reads back modulo 256^w |
| Bytes.BeWrites | core/src/node.rs:3509-3525 | any w bytes are the bytes of the number they read as |
| Bytes.BeDigits | core/src/node.rs:3504-3507 | the most significant byte stands first |
| Bytes.ParseShown | core/src/node.rs:3545-3562 | a decimal number parses to itself when it fits 64 bits and to nothing otherwise |
| Pairing.PairsIffSameCode | core/src/node.rs:3838-3851 | given the inviter's answer to its own opener, the joiner gets exactly the payload when the codes match and the seal is shorter than 2^32, and a wrong-code error otherwise |
| Pairing.SwappedPartFails | core/src/node.rs:3942-3970 | an honest answer with another PAKE message or ciphertext, giving another secret, yields no payload |
| Pairing.HybridNeedsBoth | core/src/pqkem.rs:81-92 | the seal key determines both secrets it is made of |
| Pairing.IdealIsMet | core/src/pqkem.rs:81-92 | the demands made of the PAKE, the KEM and the seal can be met together: some primitives meet them all |
| Pairing.LegsApart | core/src/node.rs:3812-3814 | the two legs never share a mailbox, and either leg's mailbox belongs to one slot |
| Pairing.JunkIsSkipped | core/src/node.rs:3935-3942 | malformed blobs before the first well-formed answer, and anything after it, make no difference |
| Pairing.JoinsBehindJunk | core/src/node.rs:3926-3974 | so whatever junk is taken before the inviter's answer, and whatever after, the handshake ends with exactly that payload, or the wrong-code error |
| Pairing.EstablishPost | core/src/node.rs:3888-3918 | the opener is posted once to every relay in each round, in order, at most 121 rounds in the 240 s window; giving up means the window passed and no post landed |
| Pairing.AnswerIsSeen | core/src/node.rs:3951-3955 | an answer is found exactly when some take handed over a well-formed blob |
| Pairing.Gather | core/src/node.rs:3951-3955 | one round takes from the relays in order, all of them or up to the one that hands over an answer, and finds the first well-formed blob of everything the relays handed over |
| Pairing.AwaitAnswer | core/src/node.rs:3926-3955 | with a timeout at least one round is made, each of takes from every relay in order until an answer; after each wait the opener is posted again to every relay exactly when the last post is 20 s ago; no answer means the timeout passed and no take of the wait handed over a well-formed blob |
| Pairing.RunJoinHandshake | core/src/node.rs:3861-3974 | the result is what the first well-formed blob the relays handed over completes to; otherwise no relay, unreachable or timed out, each exactly when it is so, timed out only after whole rounds of takes; every post is the same opener on the joiner's leg, every take on the inviter's |
| CivilDate.NextDate | core/src/diag.rs:116-136 | the day after a day is printed as the calendar's next date |
| CivilDate.CivilCounts | core/src/diag.rs:116-136 | every printed date is valid under the leap-year rule, and counting its days from 1970 gives its day number |
| CivilDate.CountsCivil | core/src/diag.rs:116-136 | every valid date from 1970 on is printed for the day number counted for it |
| CivilDate.FourDigitYears | core/src/diag.rs:116-136 | the year has four digits exactly up to day 2932896 |
| CivilDate.StampReads | core/src/diag.rs:116-136 | a stamp has the grammar of section 5.6 of RFC 3339 exactly while years have four digits, and then reads back as its millisecond |
| CivilDate.YearTenThousand | core/src/diag.rs:116-136 | the first stamp that does not: midnight of 10000-01-01, a millisecond after one that does |
| RateLimit.IntervalBound | core/src/diag.rs:200-250 | no stretch of one window's length admits more than twice the burst of a shape |
| RateLimit.CheckKeepsWindows | core/src/diag.rs:222-249 | for event times that do not go back, windows of a shape never overlap, none admits more than the burst, and only open ones stay in the map |
| RateLimit.ClosingKeepsAccount | core/src/diag.rs:222-249 | closing windows turns their drops into reports and loses none |
| RateLimit.RateLimiter.Check | core/src/diag.rs:222-249 | events = admitted + reported drops + drops of open windows, per shape, at any window length; the summaries are the drops of exactly the windows that closed; an event is admitted exactly when fewer than the burst were in its window |
| RateLimit.RateLimiter.Retain | core/src/diag.rs:222-237 | the closed windows are forgotten and each with drops is reported, in whatever order the map yields them |
| Redact.RedactedForGood | core/src/diag.rs:284-351 | the result has no `.onion` in lowercase, every `listener-secret=` in it is followed by `<redacted>` and then a separator or the end, and redacting again changes nothing |
| Redact.CleanLineIsKept | core/src/diag.rs:284-351 | a line is left as it is exactly when there is no lowercase `.onion` and no open `listener-secret=` in it: other marks do not count |
| Redact.AddressHiddenIff | core/src/diag.rs:324-351 | of an address with a lowercase mark everything is hidden exactly when its label is lowercase base32 throughout |
| Redact.CapitalsStay | core/src/diag.rs:324-351 | two addresses in capitals that stay readable |
| Redact.OnionsOutKeeps | core/src/diag.rs:324-351 | the text between the marks is kept, in order, without the base32 label before each |
| Redact.UnlabelledExact | core/src/diag.rs:330-342 | what is popped before a mark is the whole base32 run and nothing else |
| Redact.OtherTextKept | core/src/diag.rs:301-319 | with every value taken away, a line and its redacted form are the same text |
| Redact.RedactOnions | core/src/diag.rs:324-351 | the push-and-pop scanner computes the first-occurrence specification |
| Redact.RedactListenerSecret | core/src/diag.rs:301-319 | the search-and-copy loop computes its specification |
| Redact.RedactLine | core/src/diag.rs:284-291 | both together |
| StartUp.KeptIffNeverLost | core/src/api.rs:1064-1176 | over every run of starts with any outcomes, state files that are there and not seen included, stopped at any point, and wipes: the install has, at every point, the node and the identity its state file was first saved with, exactly when no step seals a key while the keystore does not hold that file's identity, removes the keystore that alone holds it, or saves over the file a node that did not load it |
| StartUp.OpensIffNeverRekeyed | core/src/api.rs:1064-1176 | likewise the store key of the state file opens the install at every point exactly when, besides, no step seals under another store key |
| StartUp.NewIffNeverAdopted | core/src/api.rs:2673-2694 | likewise every start that found no state file is on an identity unknown when it began exactly when none is launched with a keystore still there |
| StartUp.EveryStartIsRight | core/src/api.rs:1064-1176 | in every such run a start that comes up has sealed its identity under its key; with no step of the first three kinds a start with a state file there, seen or not, is on the identity the install always had, with none of the last a start that found none is on a new one |
| StartUp.TruthfulRunIsSafe | core/src/api.rs:2618-2694 | if every state file that is there is seen, every key file read, and every keystore a fresh start finds removed, no step of a run is of any of these kinds |
| StartUp.StartTells | core/src/api.rs:1064-1176 | when a start with a state file there comes up, on which identity, and what it leaves in key file and state file, in terms of what it saw, read and could write |
| StartUp.FreshStartTells | core/src/api.rs:1064-1176 | the same of a start with no state file there |
| StartUp.StartKeepsIff | core/src/api.rs:1064-1176 | one start of an install in order, however it ends: the install keeps its node and identity exactly unless the start seals over it, discards its keystore or saves over it, each in terms of what the start saw, read and could write; if it comes up, it is on the install's identity exactly when the first two did not happen |
| StartUp.RestoredIffRead | core/src/api.rs:2618-2629 | one start that sees the state file both times: it leaves the install its identity, and if it comes up is on it, exactly unless the read of a key file that is there fails, the keystore does not hold the same identity, the service is launched and the seal is written |
| StartUp.FailedReadLosesAddress | core/src/api.rs:2618-2629 | one failed read: the install comes up on a new identity and seals it over its own |
| StartUp.FailedReadLosesAddressLater | core/src/api.rs:1096-1130 | the start whose read fails need not come up: it fails after sealing, or is killed there, and the next start, which reads its key, runs on the stranger |
| StartUp.UnseenInstallIsReplaced | core/src/api.rs:1084-1140 | a state file not seen at the first look, or at the second: a fresh node is saved over it, on a new address or on the install's own |
| StartUp.FreshIffRemoved | core/src/api.rs:2673-2694 | a fresh start that comes up is on a new identity exactly when no keystore was left or it was removed |
| StartUp.LeftoverIsAdopted | core/src/api.rs:2673-2694 | one keystore that cannot be removed: the new identity is the old one |
| StartUp.WrongKeyStart | core/src/api.rs:1084-1140 | a start with a store key that is not the state file's comes up exactly when it is launched with a key in hand or sealed and then does not see the file; what it leaves in the key file is what was there, or, exactly when it had no key in hand, was launched and could write, what it launched on, sealed under the wrong key; when the install is kept, and stays open to its own key, is exact too |
| StartUp.WrongKeyLocksOut | core/src/api.rs:1084-1130 | one such start before the identity left the keystore: the right key is shut out while the file is read |
| StartUp.LockedOutForGood | core/src/api.rs:2618-2629 | no run of starts with that key that saw the state file and read the key file comes up or changes anything |
| StartUp.Install.NewTor | core/src/api.rs:1064-1176 | the sequence of calls does those steps in that order |
| StartUp.Install.ReadSealedKey | core/src/api.rs:2618-2629 | every failed read is "absent"; a wrong key or a damaged file is an error |
| StartUp.Install.DropKeystore | core/src/api.rs:2673-2694 | the keystore is removed unless a restoring start has no sealed key, best-effort |
| StartUp.Install.Bootstrap | core/src/transport/tor.rs:1089-1101 | the service launches on the saved key, else on the on-disk keystore's, else on a new one |
| Lifecycle.SoundEveryRun | core/src/lifecycle.rs:41-126 | in every interleaving no wakeup is lost and no call has returned what was not so |
| Lifecycle.NoSleeperLeft | core/src/lifecycle.rs:50-69 | once every stop call has returned, no sleeper is parked |
| Lifecycle.SleepTells | core/src/lifecycle.rs:62-69 | a sleep returns false exactly when a stop is set as it returns |
| Lifecycle.FlagsOnlyRise | core/src/lifecycle.rs:41-126 | neither flag is ever lowered |
| Lifecycle.ExitMeansOver | core/src/lifecycle.rs:77-91 | with the poller's log legal (as `Lifecycle.Poller.Run` keeps it), a wait that returned true came after the guard dropped: drain, directory and outbox jobs joined, each harvest and each round applied exactly once, the rest abandoned, the core released |
| Lifecycle.LogIsARun | core/src/api.rs:2908-3140 | every legal log, so every one the poller's code makes, is a run of the interleaving machine, event by event |
| Lifecycle.ReleasedIsOver | core/src/api.rs:3099-3139 | in every legal log, releasing the core means just that |
| Lifecycle.LegalTallies | core/src/api.rs:2908-2985 | in every legal log a job is started once, joined once at most, and a drain's or a round's result applied once for each join |
| Lifecycle.StopSignal.SleepFor | core/src/lifecycle.rs:62-69 | returns whether a stop is not set, at once when one is, and after the full time when none came |
| Lifecycle.StopSignal.WaitForExitWithin | core/src/lifecycle.rs:77-91 | returns whether the thread has exited, and false only past the bound |
| Lifecycle.Poller.RunTick | core/src/api.rs:2939-3097 | a tick keeps the log legal and logs exactly this of each kind: the job that was running is joined when it has finished, applied too when it is a drain or a round, and one is started when none is left and it is due: a round when something is queued, a drain when the relays' time has come, none was running and there is one, a directory fetch on that time too |
| Lifecycle.Poller.TearDown | core/src/api.rs:3099-3139 | the end joins and applies what is running, abandons the rest, releases the core, and only then drops the guard |
| Lifecycle.Poller.Run | core/src/api.rs:2908-3140 | the loop that sleeps on the signal and runs a tick after each sleep: it ends only when it saw a stop, before any tick when one was set, and then everything is over and the exit flag is up; until then it is in order, every tick was run, and the flag is down |

## Left out

- Announced flags, history and delivery labels: `apply_outbound` also sets what a contact was told and how a message is shown. The model keeps the kinds of announcement apart but not those flags.
- Synchronous transports, where `send_or_queue` applies at once: the two passes of a flush are proved for the asynchronous transport only.
- Runs.FifoEveryRun: speaks of runs in which the contact has no relay route throughout; with a route, entries go out side by side and no order is promised.
- Editing or unsending a message while it is held.
- Expiry of mail at relays and the relay's own limits: a mailbox loses mail only to takes and recalls, except in `RelayNet.Meanwhile`, which may drop anything.
- Relay-health bookkeeping after a drain, staggered starts and timing figures.
- ShutDown.AbandonedIsWrittenIff: other API calls during a shutdown may save but do not send or hold frames, and the poller's drain is already applied; a core without a state file saves nothing.
- Poisoned locks, panics and failed thread joins. The poller applies what it joined.
- The invite job at teardown: the poller does not join it, so no result speaks of it.
- Overflow of a time plus a delay in 64 bits, and of the 32-bit drop counter of a window that stays open.
- One clock reading stands for all the readings within one apply or one flush.
- The shape an event is counted under (`event_shape`): a shape is any text here.
- Starts without a state directory or a store key, and the restore-from-backup starts, which write their own key files.
- The inviter's service loop, its opener limit, and what a joiner does with the payload.
- Text clamping, id checking and media-kind sanitizing: they are parameters of `Codec`.
- Fairness of the condition variable: what is proved is that no thread is parked past a stop, not when the scheduler runs it. In `StopSignal` each wait takes at least one tick of time.
- Agreement with the peer on what an announcement said.
- Labels, safety numbers, word lists, backups, files, the bridge and the user interface.
