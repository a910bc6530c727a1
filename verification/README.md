# NostMesh, verified

NostMesh connects nodes that know each other only by Nostr keys: they find each
other over relays, agree on WireGuard tunnel keys, probe for a path, change the
host's network, and share routes. This project models the parts of it that carry
its promises and proves those promises in Dafny.

Each file covers one component, in its own form: what changes fields step by step
is a class whose methods are proved against functions on values; what is pure is
functions; what several components do together is stated as lemmas over whole runs.

| files | what they cover |
|---|---|
| `bits`, `bech32_checksum`, `bech32` | key text: encoding, decoding, error detection |
| `prefix`, `policy`, `sorting`, `routes`, `router`, `router_runs` | which announced routes are installed, and over whole runs |
| `host`, `journal`, `plan`, `rollback`, `restoration` | changes to the host as functions, and when undoing them restores it |
| `network`, `moments`, `manager`, `changes`, `recovery`, `crash` | the same changes step by step, crashes at every moment, and recovery |
| `session`, `agreement`, `driver` | the handshake as a protocol between many nodes over unreliable relays |
| `text`, `probe`, `candidate`, `engine`, `checker` | probing for a path in a hostile network |
| `bytes`, `overlay`, `manifest`, `allocation`, `signed_subnet`, `envelope` | addresses every node works out alike, and canonical encodings |
| `jsondepth`, `inbox`, `answered` | the nesting check, the replay cache, and answers remembered across restarts |

`dafny verify dfyconfig.toml` checks everything.

## What is assumed

Hashes never collide; authors of events are genuine, and authentication codes are a
parameter. A node's own session identifiers and tunnel keys are fresh. Each method
guarded by a mutex is one atomic step, and the clock is an argument. A journal save is
atomic but may fail after it took effect. A call to the host does all it says or
nothing, and any call may fail; so may any observation. Contracts say both what holds
whatever fails and what holds when nothing does.

In the handshake, honest nodes follow the protocol while all others write what they
like; relays lose, repeat, reorder and replay everything.

## Where the program and its description part

The model follows the code. These lemmas show where it does less than it says.

- `Rollback.RouteRollback`, `Restoration.RoutesAlwaysRestored`, `Restoration.RouteUnnoticedIff`:
  a failed route plan leaves the host as found unless it names the same new route twice
  and stops at the repeat. Nothing in the repository plans a route twice: the only routes
  planned are those of one reconciliation, which are distinct
  (`Changes.ReconciliationRestored`).
- `Restoration.PresentRestored`, `Restoration.InterfaceAlwaysRestored`,
  `Restoration.PresentUnnoticedIff`: on an interface that was already there a failed plan is
  undone in full only if it had asked for nothing new: the same port, addresses and MTU,
  and for every peer held the endpoint, allowed addresses and keepalive it had. Otherwise
  the host stays changed, and no record says so unless the run stopped as a step was being
  journaled.
- `Crashes.QuietExact`, `Crashes.LapsedUnnoticed`: a commit whose save fails after the
  file was replaced is rolled back while its record says committed. A crash in that time
  leaves a half-undone host that no recovery looks at. Every other crash with the host
  changed and the transaction neither committed in full nor over is found by recovery.
- `Policy.AdmittedMeetsMartian`: only the base address of a route is compared with
  unroutable space, so a short prefix can contain such space whole.
- `Routing.BestUnique`: two live local offers leave the selection to map order. The table
  takes such offers, but nothing in the repository makes them.
- `Inboxes.EvictsOldestIff`, `Inboxes.AboveLimitIff`: a full cache whose oldest entry has
  an empty identifier can grow above its limit. The cache takes empty identifiers, but it
  is only called with those of events, which are never empty.
- `Envelopes.OwnBytesIff`: a field is cut at 65535 bytes, so an envelope with a field of
  that length or more shares its bytes with another one; any other envelope does not.
- `SignedSubnets.SignedSubnetIff`, `SignedSubnets.SignedTableIff`: a signature covers the
  subnets sorted, while an index into them uses the order they are listed in. It fixes the
  subnet, and every address in it, only if the list holds one subnet, repeated or not.
- `Answered.AtMostOneAnswer`, `Answered.ForgottenIff`: the file keeps whole seconds, so
  the promised hour can be up to one second short; and a save that fails is ignored, so a
  restart right after it forgets the answer.


## Model

| member | source | states |
|---|---|---|
| `Bech32Checksum.Polymod` | internal/nostr/bech32.go:73-87 | the loop folds the checksum step over the values, starting from 1 |
| `Bech32Checksum.StepLinear` | internal/nostr/bech32.go:73-87 | one checksum step is linear over exclusive or, in the state and in the value |
| `Bech32Checksum.StepInjective` | internal/nostr/bech32.go:73-87 | a step on a 30-bit difference never makes it vanish and never leaves 30 bits |
| `Bech32Checksum.SpreadWindow` | internal/nostr/bech32.go:73-87 | over up to six values a difference vanishes only if there was none |
| `Bech32Checksum.PolymodBurst` | internal/nostr/bech32.go:73-87 | two value strings of any length that differ only within six positions have different checksums |
| `Bech32.ConvertBits` | internal/nostr/bech32.go:110-148 | with a 32-bit accumulator that wraps, regrouping still cuts the bit stream of the input into groups, and refuses out-of-range values and non-zero or over-long padding |
| `Bech32.ExpandHRP` | internal/nostr/bech32.go:92-102 | the prefix is expanded to its high bits, a zero and its low bits |
| `Bech32.EncodeBech32` | internal/nostr/bech32.go:151-178 | refuses an empty prefix and returns the prefix, the separator, the regrouped payload and the checksum symbols |
| `Bech32.DecodeBech32` | internal/nostr/bech32.go:181-230 | each rejection in the order the checks run, and otherwise the prefix and the payload |
| `Bech32.CheckPrefix` | internal/nostr/bech32.go:201-206 | every character of the prefix is printable ASCII |
| `Bech32.ReadSymbols` | internal/nostr/bech32.go:208-215 | the data characters as alphabet positions, or an error if one is outside the alphabet |
| `Bech32.ChecksumAccepted` | internal/nostr/bech32.go:151-230 | six check symbols are accepted if and only if they are the ones encoding would write |
| `Bech32.RegroupRoundTrip` | internal/nostr/bech32.go:110-148 | bytes cut into five-bit groups and back are the same bytes |
| `Bech32.RegroupCanonical` | internal/nostr/bech32.go:110-148 | groups that are accepted as bytes are exactly the groups those bytes are cut into, so padding is unique |
| `Bech32.DecodeThenEncode` | internal/nostr/bech32.go:151-230 | whenever a string decodes, encoding the result gives its lower case |
| `Bech32.EncodeThenDecode` | internal/nostr/bech32.go:151-230 | decoding an encoding gives back prefix and payload if and only if the prefix is lower case and printable and the text within the length limit |
| `Bech32.BurstDetected` | internal/nostr/bech32.go:181-230 | a decodable string changed within at most six neighbouring data characters, at any length, is a checksum error |
| `Bech32.RelabelDetected` | internal/nostr/bech32.go:181-230 | a public-key string relabelled as a secret key is a checksum error |
| `Prefixes.WithinIff` | internal/policy/decision.go:276-286 | the containment test is inclusion of address sets |
| `Prefixes.OverlapsIff` | internal/domain/routeadmission.go:48-91 | prefixes overlap if and only if they share an address, and then one contains the other |
| `Policy.AdmittedIff` | internal/domain/routeadmission.go:48-91 | a route is admitted if and only if it is canonical, not the default, has no unroutable base address, and its addresses avoid every local prefix, transport and infrastructure address |
| `Policy.AdmittedMeetsMartian` | internal/domain/routeadmission.go:48-113 | an admitted prefix still holds unroutable space exactly when it is shorter than such a block and swallows it |
| `Policy.LoopbackCanBeAdmitted` | internal/domain/routeadmission.go:48-113 | 126.0.0.0/7 is admitted although it contains all of 127.0.0.0/8 |
| `Policy.FindGroup` | internal/policy/decision.go:179-197 | group rules are consulted in order and the first group holding the peer decides |
| `Policy.RuleGrantsIff` | internal/policy/decision.go:179-197 | which address lists a peer's deciding rule grants, whether an own grant or a group |
| `Policy.RouteAllowedIff` | internal/policy/decision.go:210-286 | a route is allowed if and only if it is not the default and its addresses all lie in one entry of the rule deciding its provider |
| `Routes.RouteTable.Offer` | internal/domain/routes.go:111-124 | an offer is taken unless a newer version from the same provider is held, and replaces only that one |
| `Routes.RouteTable.Withdraw` | internal/domain/routes.go:130-143 | forgets one offer, and the destination when nobody offers it |
| `Routes.RouteTable.WithdrawProvider` | internal/domain/routes.go:149-160 | forgets exactly one provider's offers |
| `Routes.RouteTable.Expire` | internal/domain/routes.go:166-200 | forgets exactly the lapsed offers and reports the selected destinations left without any |
| `Routes.RouteTable.BestFor` | internal/domain/routes.go:283-308 | an offer that no live offer beats, if any is live |
| `Routes.RouteTable.SelectOne` | internal/domain/routes.go:211-264 | one destination moves to its best offer unless the current one still offers it within the hysteresis window |
| `Routes.RouteTable.Select` | internal/domain/routes.go:211-264 | the whole new selection, what to install and what to remove, both sorted |
| `Routes.RouteTable.Installed` | internal/domain/routes.go:365-376 | the selected routes that are still offered, sorted |
| `Routing.BestExists` | internal/domain/routes.go:283-308 | where any offer is live there is a best one |
| `Routing.BestUnique` | internal/domain/routes.go:283-308 | the best offer is independent of map order if and only if there are not two live local offers |
| `Routing.WinnersUnique` | internal/domain/routes.go:211-308 | for announced offers the winners are one function of the offers and the time |
| `Routing.ReconcileIsTheDifference` | internal/policy/routing.go:154-168 | removing then installing turns the old forwarding map into the new one, nothing is in both lists or twice in one, no entry is superfluous, and what is selected is exactly what has a live offer |
| `Routing.ExpiredAreRemoved` | internal/policy/routing.go:154-168 | what expiry reports is always among what selection removes, so it can be dropped |
| `Routing.ReconcileDeterministic` | internal/policy/routing.go:154-168 | two reconciliations of the same state give the same tables and the same lists, whatever order maps are walked in |
| `Routing.Router.AnnounceRoute` | internal/policy/routing.go:83-128 | one announced route is denied, refused, rejected as stale, or offered, in that order |
| `Routing.Router.Announce` | internal/policy/routing.go:83-128 | routes are judged one by one against the table as it then stands, and a refusal does not stop the rest |
| `Routing.Router.Withdraw` | internal/policy/routing.go:136-140 | forgets what this provider offered for these prefixes |
| `Routing.Router.Disconnect` | internal/policy/routing.go:146-148 | forgets everything a provider offered |
| `Routing.Router.Reconcile` | internal/policy/routing.go:154-168 | expiry, then selection |
| `RoutingRuns.RunSound` | internal/policy/routing.go:83-168 | every offer and every selection of every run was authorized and admitted |
| `RoutingRuns.OnlyAuthorizedSpace` | internal/policy/routing.go:83-168 | from the empty table, whatever is offered or selected lies in authorized space and avoids this node's own |
| `RoutingRuns.SwitchBound` | internal/domain/routes.go:208-264 | a prefix whose provider keeps offering it changes provider at most once per hysteresis window |
| `RoutingRuns.OneRoundConverges` | internal/domain/routes.go:208-264 | with every offer live and every window past, one reconciliation selects every winner |
| `RoutingRuns.ConvergedStays` | internal/domain/routes.go:208-264 | after that a reconciliation changes nothing and lists nothing |
| `RoutingRuns.ConvergedForever` | internal/domain/routes.go:208-264 | and so does any number of them |
| `RoutingRuns.HoldsTheNewest` | internal/domain/routes.go:111-124 | after any offers each slot holds a candidate of the highest version, and only slots with candidates are held |
| `RoutingRuns.MergeOrderInsensitive` | internal/domain/routes.go:111-124 | any order and any repetition of the same offers leave the same table when a version determines its contents |
| `RoutingRuns.DeliveryOrderInsensitive` | internal/policy/routing.go:83-128 | the same for announcements, with authorization in between |
| `Host.PerformSane` | internal/wireguard/fake.go:374-420 | no call leaves a route through an interface that is not there |
| `Network.World.Call` | internal/wireguard/port.go:130-177 | a call does all it says or nothing, and leaves host and journal fit for recovery |
| `Journal.Transaction.UpdateStatus` | internal/netstate/journal.go:157-172 | marks the first operation with an identifier, and reports whether there is one |
| `Journal.Transaction.CompensationOrder` | internal/netstate/journal.go:187-211 | the applied operations, newest first |
| `Journal.SetStatusExact` | internal/netstate/journal.go:157-172 | of several operations with one identifier only the first ever changes |
| `Journal.WellMarkedKept` | internal/netstate/journal.go:157-172 | marking never leaves an operation in flight behind an earlier one of the same identifier |
| `Plans.StopExact` | internal/netstate/manager.go:281-444 | wherever a run stops, exactly the first operations of the steps done are applied, short of the one the stop is at |
| `Rollback.UnwoundStrips` | internal/netstate/manager.go:458-507 | compensation that creates no gap takes away exactly the new peers and new routes, in whatever order they were made |
| `Rollback.AbsentRollback` | internal/netstate/manager.go:190-507 | a plan for an interface that was absent, stopped anywhere and undone, leaves the host exactly as it was |
| `Rollback.RouteRollback` | internal/netstate/manager.go:190-507 | a route plan stopped anywhere and undone leaves the host as it was if and only if it does not stop at a new route it had already installed |
| `Rollback.PresentRollback` | internal/netstate/manager.go:190-507 | on an interface that was there nothing that existed is removed and nothing elsewhere moves; its peers are restored if and only if the plan does not stop at a new peer it had already added |
| `Rollback.RepeatedRouteStays` | internal/netstate/manager.go:378-477 | the same new route planned twice, the second call refused, is left behind |
| `Rollback.ClosedNeedsRecovery` | internal/netstate/manager.go:233-242 | a rolled-back record still asks for recovery if and only if the run stopped while journaling that a step began |
| `Rollback.PresentUnnoticed` | internal/netstate/manager.go:458-507 | an interface that was there keeps the MTU a rolled-back plan gave it, and the journal does not ask for recovery |
| `Restoration.EntryUnchanged` | internal/wireguard/fake.go:190-246 | a peer that was there is as it was if and only if the last entry done for it has its endpoint and allowed addresses, and the last one with a keepalive has its keepalive |
| `Restoration.PresentRestored` | internal/netstate/manager.go:190-507 | on an interface that was there, a plan stopped anywhere and undone leaves the whole host as it was if and only if it had done nothing or what it asked for by then is what was there, and it does not stop at a new peer it had already added |
| `Restoration.InterfaceAlwaysRestored` | internal/netstate/manager.go:129-507 | an interface plan is undone in full from every stop it can come to if and only if the interface was absent, or is not the program's, or the settings and every entry for a peer it has match it and no new peer is named twice |
| `Restoration.PresentUnnoticedIff` | internal/netstate/manager.go:190-507 | the host stays changed with no record to say so if and only if it is not restored and the run did not stop as a step was being journaled |
| `Restoration.RoutesAlwaysRestored` | internal/netstate/manager.go:331-507 | a list of routes is undone from every stop it can come to if and only if no route it can reach is a new one that an earlier entry repeats |
| `Restoration.DistinctRoutesRestored` | internal/netstate/manager.go:331-507 | a list that names no route twice is undone in full from every stop |
| `Restoration.RouteUnnoticedIff` | internal/netstate/manager.go:331-507 | a route stays behind with no record to say so if and only if the call for a stranded repeat was refused |
| `Network.World.Save` | internal/netstate/store.go:47-104 | a record is replaced whole or not at all, and a failed save may still have replaced it |
| `Manager.NetManager.Begin` | internal/netstate/manager.go:432-437 | the operation is marked in flight before the host is touched |
| `Manager.NetManager.Complete` | internal/netstate/manager.go:439-444 | the operation is marked applied before the save that may fail |
| `Manager.NetManager.MaybeInject` | internal/netstate/manager.go:446-452 | an armed failure fires once, at its own kind |
| `Manager.NetManager.ApplyInterface` | internal/netstate/manager.go:281-318 | the interface steps in order, stopping at the first failure with the host and the journal as that stop leaves them |
| `Manager.NetManager.ApplyPeers` | internal/netstate/manager.go:410-430 | the same for the peers |
| `Manager.NetManager.ApplyRoutes` | internal/netstate/manager.go:378-408 | the same for the routes |
| `Manager.NetManager.Compensate` | internal/netstate/manager.go:458-477 | undoes newest first, skips what existed, goes on past a failed undo, and marks what was undone; without a fault only what cannot be undone fails |
| `Manager.NetManager.Undo` | internal/netstate/manager.go:479-507 | each kind of operation has its one undoing call |
| `Manager.NetManager.Take` | internal/netstate/manager.go:281-444 | begin, call and complete one step: the host and the marks are those of the stop reported, and at every moment in between the record is open and the host stands at a number of whole steps |
| `Manager.NetManager.TryCommit` | internal/netstate/manager.go:266-270 | a failed save leaves the record as it was or committed on file |
| `Manager.NetManager.GiveUp` | internal/netstate/manager.go:209-246 | from any stop, and from a commit that failed, the host and the record at every moment of the undoing and once it is closed |
| `Manager.NetManager.Apply` | internal/netstate/manager.go:190-279 | all steps done and the commit on file, or a stop compensated; without a fault it commits exactly when every step can go through; every moment finds the host as it was, an open record with the steps being taken or undone, the commit with every step done, a host being undone beside a commit that failed and is on file, or the closed record |
| `Manager.NetManager.PlanInterface` | internal/netstate/manager.go:129-184 | the plan records for every operation whether what it acts on was already there |
| `Manager.NetManager.PlanRoutes` | internal/netstate/manager.go:331-359 | the same for routes on an interface that exists |
| `Changes.InterfaceGoes` | internal/netstate/manager.go:129-318 | an interface plan goes through if and only if the name is ours, its identifier can be journaled, and no failure is armed in its way |
| `Changes.RoutesGo` | internal/netstate/manager.go:331-408 | the same for a route plan, which must also hold no default route |
| `Changes.Establish` | internal/orchestrator/orchestrator.go:160-173 | planning and applying an interface: without a fault it is done exactly when the plan can go through, otherwise undone exactly as far as the rollback theorems say; every moment is one a run can show, and leaves host and journal fit for recovery; if the host ends as it was found and no failed commit is on file, no moment shows a changed host without a record to say so or the commit |
| `Changes.InstallRoutes` | cmd/nostmesh/routes.go:318-325 | the same for the routes a reconciliation asks for |
| `Changes.ReconciliationRestored` | cmd/nostmesh/routes.go:314-325 | the routes one reconciliation asks for are undone in full wherever their plan stops |
| `Recovery.Orchestrator.RemoveOne` | internal/orchestrator/reconcile.go:63-86 | takes down an owned interface with its routes, and tolerates one that is gone |
| `Recovery.Orchestrator.RemoveAll` | internal/orchestrator/reconcile.go:30-57 | stops at the first failure with the rest in place, and never touches what is not owned |
| `Recovery.Orchestrator.Reconcile` | internal/orchestrator/reconcile.go:100-115 | marks whatever reached the host as rolled back, reading each mark as it then stands |
| `Recovery.Orchestrator.ReconcileJournal` | internal/orchestrator/reconcile.go:93-120 | every pending record is settled and no other is changed |
| `Recovery.Orchestrator.Down` | internal/orchestrator/reconcile.go:30-57 | leaves only foreign interfaces and routes, and settles the journal; without a fault it succeeds |
| `Recovery.Orchestrator.Recover` | internal/orchestrator/reconcile.go:128-163 | does the same if some record is pending, and nothing at all otherwise |
| `Recovery.ReconciledSettles` | internal/orchestrator/reconcile.go:93-120 | a settled record asks for recovery again if and only if an operation in flight was shadowed by an earlier one |
| `Recovery.NothingPending` | internal/orchestrator/reconcile.go:93-120 | records the manager writes always settle completely |
| `Moments.CommittedSettled` | internal/netstate/journal.go:213-228 | a committed record never asks for recovery |
| `Crashes.MomentForeign` | internal/netstate/manager.go:190-507 | no moment of a run shows a change to interfaces and routes that are not the program's |
| `Crashes.QuietExact` | internal/netstate/manager.go:190-279 | with the host changed, nothing is pending if and only if the change is committed in full, or is being undone beside a failed commit that is on file, or is over and closed without having stopped as a step was being journaled |
| `Moments.SafeThroughout` | internal/netstate/manager.go:190-279 | a run that committed, or whose undoing restored the host with no failed commit on file, shows at every moment the host as it was, a pending record, or the change in full and committed |
| `Crashes.LapsedUnnoticed` | internal/netstate/manager.go:208-279 | a moment of a run with one of two new routes still installed and nothing pending, beside a commit that failed and is on file |
| `Crashes.StartOver` | internal/orchestrator/reconcile.go:128-163 | a new process on what any process left: recovery that succeeds, at once or when tried again, leaves nothing of ours on the host and nothing pending, and recovering again changes nothing |
| `Crashes.CrashInEstablish` | internal/orchestrator/reconcile.go:128-163 | a change to an interface run to its end, the snapshot a crash at a given moment of that run leaves, and recovery from it: which snapshots go unnoticed exactly, and from all others recovery leaves the host found before the change without anything of ours |
| `Crashes.CrashInRoutes` | internal/orchestrator/reconcile.go:128-163 | the same for a crash at any moment of a change to routes |
| `Sessions.Handshake.Open` | internal/session/handshake.go:189-223 | a handshake opens if and only if its identifiers are there and its two ends differ |
| `Sessions.Handshake.RecordSeq` | internal/session/transitions.go:274-290 | a number heard before is tolerated with the same content and refused with other |
| `Sessions.Handshake.BindPeerTunnelKey` | internal/session/transitions.go:240-266 | refuses a malformed, expired, replaced or mirrored key, in that order |
| `Sessions.Handshake.BuildRequest` | internal/session/transitions.go:27-50 | an idle initiator offers its own key and waits |
| `Sessions.Handshake.ReceiveRequest` | internal/session/transitions.go:56-87 | an idle, authorized responder binds the key; a refused key leaves the message recorded |
| `Sessions.Handshake.BuildOffer` | internal/session/transitions.go:90-122 | pins the hash of the terms it sends |
| `Sessions.Handshake.ReceiveOffer` | internal/session/transitions.go:125-152 | pins the hash of the terms received and binds the key in them |
| `Sessions.Handshake.BuildAccept` | internal/session/transitions.go:158-174 | accepts exactly the pinned hash |
| `Sessions.Handshake.ReceiveAccept` | internal/session/transitions.go:177-201 | connects only on the hash it offered; a mismatch leaves the message recorded |
| `Sessions.Handshake.ConfirmEstablished` | internal/session/transitions.go:208-219 | only a connecting handshake is established |
| `Sessions.Handshake.ReceiveReady` | internal/session/transitions.go:225-233 | a peer's word changes no state |
| `Agreement.RunInv` | internal/session/transitions.go:27-201 | over every run every honest message is accounted for by the attempt that sent it, and every commitment by a message received |
| `Agreement.ResponderAgrees` | internal/session/transitions.go:27-266 | a responder that connected did so on the acceptance an initiator of its own session sent there, and they hold the same terms and each other's keys |
| `Agreement.BothAgree` | internal/session/transitions.go:27-266 | both ends of a session connected agree on the terms and on each other's keys |
| `Agreement.InitiatorAgrees` | internal/session/transitions.go:125-174 | an initiator that connected agrees with a responder of its own session on the terms and on each other's keys |
| `Agreement.SameProbeKey` | internal/connectivity/probe.go:84-99 | ends that agree derive the same probe key, and no other session derives it |
| `Agreement.ExchangeCompletes` | internal/orchestrator/driver.go:740-815 | when every message arrives in time both ends connect and agree |
| `Agreement.KeyNeverReplaced` | internal/session/transitions.go:240-266 | a bound peer key is never replaced by another, by any event |
| `Agreement.OnlyConfirmEstablishes` | internal/session/transitions.go:208-233 | only a node's own check establishes its session |
| `Drivers.RolesOppose` | internal/orchestrator/driver.go:543-551 | two nodes left to themselves take opposite roles |
| `Drivers.Mailbox.AwaitMessage` | internal/orchestrator/driver.go:1030-1069 | returns the oldest held message of a kind or the first to arrive, and holds the latest four of every other kind in order |
| `Drivers.Mailbox.AwaitOffer` | internal/orchestrator/driver.go:828-848 | takes the first offer, held or to come, not older than the request, and gives up at one without its payload |
| `Drivers.Mailbox.AwaitAccept` | internal/orchestrator/driver.go:863-889 | takes the first acceptance that names exactly the offer made and is not older than it |
| `Drivers.SearchFirst` | internal/orchestrator/driver.go:828-889 | a message is taken if and only if it fits and everything before it was passed over |
| `Drivers.AcceptanceHeard` | internal/orchestrator/driver.go:863-889 | an acceptance that is taken is one the protocol can hear, and names the offer made; every one passed over before it was too old or would have been refused |
| `Probes.ResponseBack` | internal/connectivity/probe.go:164-310 | a response is read back as it was written, by the response decoder only |
| `Probes.ChallengeBack` | internal/connectivity/probe.go:135-310 | a challenge is read back by the challenge decoder only |
| `Probes.AuthenticIff` | internal/connectivity/probe.go:229-310 | bytes authenticate as a response if and only if they carry the tag of their own kind, nonce and body |
| `Probes.AddressBack` | internal/connectivity/probe.go:164-283 | an address survives its sixteen-byte form |
| `Engines.Engine.AddCandidate` | internal/connectivity/engine.go:137-189 | each refusal in order; what is stored is unverified and untried whatever its source claimed; a known candidate is left alone |
| `Engines.Engine.Probable` | internal/connectivity/engine.go:195-221 | the candidates that may be probed, best first, one of each foundation and none missing |
| `Engines.ProbableEmptyIff` | internal/connectivity/engine.go:195-375 | nothing is probable if and only if nothing may be probed, so the exhaustion test and the list agree |
| `Engines.Engine.RecordAttempt` | internal/connectivity/engine.go:224-236 | counts one attempt against one candidate |
| `Engines.Engine.RecordSuccess` | internal/connectivity/engine.go:242-276 | verifies one candidate; only the first verified is nominated |
| `Engines.Engine.RecordFailure` | internal/connectivity/engine.go:279-298 | a candidate out of attempts has failed, any other may be tried again |
| `Engines.Engine.GetEndpoint` | internal/connectivity/engine.go:320-326 | an endpoint is given if and only if the nominated candidate is verified |
| `Engines.Engine.IsExhausted` | internal/connectivity/engine.go:360-375 | nothing nominated and nothing left to probe |
| `Checkers.Checker.SendChallenge` | internal/connectivity/checker.go:207-227 | spends an attempt whether or not the challenge leaves, and remembers the nonce only if it does |
| `Checkers.Checker.VerifyResponse` | internal/connectivity/checker.go:386-425 | verifies if and only if the response is authentic, answers a challenge in flight, and comes from the very address challenged; that nonce is then spent |
| `Checkers.Checker.LearnPeerReflexive` | internal/connectivity/checker.go:333-362 | a source no candidate has becomes one more unverified candidate if there is room, and no other changes |
| `Checkers.Checker.HandleArrival` | internal/connectivity/checker.go:252-287 | verifies exactly what the arrival proves, learns its source exactly from an authentic challenge, and changes no candidate otherwise |
| `Checkers.SoundKept` | internal/connectivity/checker.go:207-425 | what was proven stays proven through everything that verifies nothing |
| `Checkers.Checker.Run` | internal/connectivity/checker.go:123-175 | ends without a clock within candidates times attempts rounds and challenges, third-party candidates within their own bound; ends nominating only a candidate challenged at its address and answered from it, or exhausted only with nothing left to probe; no nonce promotes twice |
| `Overlay.DerivedPlace` | internal/domain/overlay.go:132-174 | a derived address is in the subnet, is not its anycast address, and is at the first counter that allows it |
| `Overlay.SubnetPlace` | internal/domain/overlay.go:101-120 | a subnet is a canonical /64 of its network's /48 in unique local space |
| `Overlay.SubnetsApart` | internal/domain/overlay.go:115-120 | two subnets of a network share an address if and only if they are the same |
| `Manifests.Validate` | internal/domain/manifest.go:113-149 | accepts if and only if the manifest is well formed, and names the first member at fault |
| `Manifests.Digest` | internal/domain/manifest.go:184-226 | hashes every field behind its length, subnets and members sorted |
| `Manifests.PreimageIff` | internal/domain/manifest.go:184-226 | two manifests hash the same bytes if and only if they have the same network, name, version, subnets and members, in any order |
| `Allocations.AllocateOne` | internal/domain/allocation.go:129-164 | searches the counters upwards and reports why none would do |
| `Allocations.Allocate` | internal/domain/allocation.go:97-126 | refuses an invalid manifest, and otherwise places the members in key order, each around the ones before |
| `Allocations.TableEntries` | internal/domain/allocation.go:97-164 | every member has its own entry, at the least counter whose address was free, inside the /64 and not its anycast address |
| `Allocations.TableDistinct` | internal/domain/allocation.go:97-164 | no two members share an address |
| `Allocations.OrderInsensitive` | internal/domain/allocation.go:97-126 | the order members are listed in changes neither the table nor the error |
| `Allocations.LaterMembersDoNotMatter` | internal/domain/allocation.go:97-126 | an entry depends only on the members whose keys sort at or before its own |
| `Allocations.SignedAlikeOtherSubnet` | internal/domain/manifest.go:155-226 | manifests that are signed alike can place their members in different subnets |
| `SignedSubnets.SubnetFixedIff` | internal/domain/manifest.go:155-226 | the content signed fixes the subnet an index names if and only if all listed subnets are the same |
| `SignedSubnets.SignedSubnetIff` | internal/domain/manifest.go:155-226 | every manifest signed alike has the same overlay subnet if and only if all listed subnets are the same |
| `SignedSubnets.OtherSubnetOtherAddresses` | internal/domain/allocation.go:97-164 | in another subnet of the network every member has an address nobody has in this one |
| `SignedSubnets.SignedTableIff` | internal/domain/allocation.go:97-164 | where a manifest has a table, every manifest signed alike has the same table if and only if all listed subnets are the same |
| `Envelopes.AssociatedData` | internal/protocol/envelope.go:225-258 | the fields in order, each behind two bytes of length and cut to what those can express |
| `Envelopes.AssociatedDataIff` | internal/protocol/envelope.go:225-258 | the bytes determine the fields as cut, and nothing else |
| `Envelopes.InjectiveWhenShort` | internal/protocol/envelope.go:225-258 | when every field fits, envelopes authenticate alike if and only if they agree in all ten fields and the critical list |
| `Envelopes.LongExtensionsCollide` | internal/protocol/envelope.go:243-254 | extensions that differ only past the limit authenticate alike |
| `Envelopes.FullFieldCollides` | internal/protocol/envelope.go:243-254 | a field that fills its prefix can be lengthened without a change in the bytes |
| `Envelopes.OwnBytesIff` | internal/protocol/envelope.go:225-258 | no other envelope shares an envelope's bytes if and only if every field is shorter than the limit |
| `JsonDepth.CheckDepth` | internal/protocol/validate.go:475-503 | gives up at the first bracket too deep, which is the same as scanning to the end |
| `JsonDepth.DepthExact` | internal/protocol/validate.go:475-503 | a JSON text, however spaced and escaped, is refused if and only if it nests deeper than sixteen |
| `JsonDepth.PrefixBounded` | internal/protocol/validate.go:475-503 | no prefix of any accepted text has more brackets open than the maximum seen |
| `Inboxes.Inbox.EvictExpired` | internal/nostr/inbox.go:173-188 | forgets exactly the entries past their time, with the positions they claimed |
| `Inboxes.Inbox.EvictOldest` | internal/nostr/inbox.go:191-212 | drops the entry the walk settles on, with its positions, or nothing |
| `Inboxes.Inbox.Observe` | internal/nostr/inbox.go:130-167 | the new memory and the verdict, in whatever order the map is walked |
| `Inboxes.EvictsOldestIff` | internal/nostr/inbox.go:191-212 | making room drops the oldest entry in every order if and only if that entry has an identifier |
| `Inboxes.EvictsOldest` | internal/nostr/inbox.go:191-212 | without an empty identifier the walk drops an oldest entry in every order |
| `Inboxes.EmptyIdentifierStays` | internal/nostr/inbox.go:191-212 | an oldest entry with an empty identifier, met last, makes the walk drop nothing |
| `Inboxes.AboveLimitIff` | internal/nostr/inbox.go:130-212 | one message can take the cache above its limit if and only if it is full and its oldest entry has an empty identifier |
| `Inboxes.RunSound` | internal/nostr/inbox.go:130-212 | over every run events and positions pair off one to one and the limit is kept |
| `Inboxes.WindowHolds` | internal/nostr/inbox.go:130-212 | after a message was new, within its time and before the limit of further new ones, it is a duplicate and a rival for its position a conflict |
| `Inboxes.KeyTextInjective` | internal/nostr/inbox.go:121-123 | positions have the same text if and only if they are the same |
| `Answered.Store.Save` | cmd/nostmesh/answeredstore.go:85-131 | the file holds every session in whole seconds, or is as it was if the save failed |
| `Answered.Store.Load` | cmd/nostmesh/answeredstore.go:51-78 | and gives them back as times |
| `Answered.AnsweredSessions.Evict` | internal/orchestrator/driver.go:295-302 | forgets exactly the sessions past the retention |
| `Answered.AnsweredSessions.Add` | internal/orchestrator/driver.go:271-288 | records a session in memory, and on file unless the save fails, which is ignored |
| `Answered.AnsweredSessions.Settle` | internal/orchestrator/driver.go:1091-1181 | a session is answered if and only if it is not remembered at the look; the clock is read again for the clearing and for the entry |
| `Answered.NextRemembers` | internal/orchestrator/driver.go:238-302 | within the retention an answered session is forgotten if and only if a restart does not find it on file |
| `Answered.AtMostOneAnswer` | internal/orchestrator/driver.go:238-302 | over any interleaving of requests, looks and restarts that find it a session is not answered again within an hour less the part of a second the file drops |
| `Answered.SavedAnsweredOnce` | internal/orchestrator/driver.go:238-302 | once saved, it is found by every restart that can read the file, whatever later saves fail |
| `Answered.ForgottenIff` | internal/orchestrator/driver.go:271-288 | after an answer and a restart the session may be answered again at once if and only if the file cannot be read, or the save failed and no earlier entry is still in time |
| `Answered.AnsweredAgainAfterRestart` | cmd/nostmesh/answeredstore.go:51-131 | past that moment a restart lets it be answered again, so the bound is exact |

## Left out

- The kernel, netlink, sockets, STUN, relays' own storage, files and commands: input and output only.
- SHA-256, HMAC, HKDF, NIP-44 and signatures: library code, here parameters or free constructors.
- Case folding of letters outside ASCII: Bech32 text is characters below 256, folded as ASCII.
- IPv4-mapped IPv6 prefixes: the two address families are disjoint. Probes do map addresses, and that is modelled.
- The text of a prefix: the order prefixes sort in is any strict total order, and a journal identifier is its kind and target rather than their text.
- Editing the allowlist and the conflict report: lookups and listings.
- Times, log lines, error texts and operation details in the journal: nothing decides on them.
- A manager without a journal, and journal files that do not parse: a journal is always there and readable or the read fails.
- The order of peers within an interface and of transactions within the journal: maps and sets.
- Another program changing the host between two calls: only this one acts while it runs.
- Which interface the routes of one shared table go to, and the kernel's routes after a failed installation: the forwarding theorems are about the prefix-to-provider map.
- Restoring port, MTU, addresses and peer endpoints of what already existed: compensation does not do it.
- Sessions.Handshake.NextSeq: does not wrap at 64 bits, since a session sends a handful of messages.
- Sessions.Handshake.BuildOffer: the offered overlay address is always empty, as in the code.
- Agreement.RunInv: a responder's attempt may hear any request of its session; the driver's choice of one request per session is in Answered, and its filters in Drivers only shrink what is heard.
- Checkers.Checker.Run: nonces are any sixteen bytes; only that none promotes twice assumes that none is drawn twice, and failure of the random source is not modelled.
- Checkers.Checker.HandleArrival: the counters are kept but their report is not.
- Probes.ResponseBack: covers times that fit the eight bytes written, that is from 1970 on.
- Engines.Engine.AddCandidate: how an address is written as text is a parameter, used in foundations and learned identifiers.
- JsonDepth.DepthExact: the grammar it covers is larger than JSON, since literals may be any text without brackets, quotes and backslashes, escapes may be of any byte, and names may be missing.
- Inboxes.RunSound: assumes clock readings that strictly increase and identifiers that are not empty.
- Allocations.Allocate: the IPv4 prefix parser is a parameter; conflicts between IPv4 assignments are a separate check that is not modelled.
- Manifests.PreimageIff: covers manifests whose members have distinct keys, which validation demands.
- Answered.AnsweredSessions.Settle: binding the session to the transport, which can fail between the look and the entry and then leaves only the look, is not modelled.
- Crashes.CrashInEstablish: a crash tears nothing; each journal save and each host call is over or has not begun.
- Waiting, retries, backoff, keepalives and configuration: timing and input checks around these cores.
