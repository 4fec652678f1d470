# Shared-state gossip: a verified model

Shared-state is a mesh-wide key-value store. Every node keeps, per data type, a
map from key to (author, TTL, data). Nodes exchange whole maps over TCP and
merge what they receive, entries expire by losing TTL, and a command-line insert
reaches the local daemon as a merge over loopback. This project models that
store, the gossip built on it, the framed transfer beneath it and the
bookkeeping around it, and proves what holds over whole runs.

| file | what it holds |
|---|---|
| `store.dfy` | entries, the pointwise merge, sessions, expiry, the clean view; `Deployed` is the rule nodes run, `Guarded` the one with the intended own-entry threshold |
| `daemon.dfy` | the daemon object: merge loop, bleach loop, configuration loading and registering, both legs of a session, the insert command |
| `merge_order.dfy`, `order_exact.dfy` | merging slices under the TTL rules in one order or another, and exactly when the order of two slices or of any list does not show |
| `permutations.dfy` | lists up to order |
| `mesh.dfy` | nodes plus sessions in flight, steps, and runs under any node policy |
| `rounds.dfy` | how far knowledge travels in rounds of overlapping, delayed and lost sessions |
| `gossip.dfy` | gossip under the deployed rule: provenance and local inserts |
| `convergence.dfy` | when gossip under the deployed rule brings agreement |
| `freshness.dfy` | a shared clock: merging by TTL is last-writer-wins |
| `decay.dfy` | how an own entry ages, and the equal-TTL echo |
| `versions.dfy` | the four strategies of the executable specification, on values and in place |
| `version_lists.dfy`, `version_order.dfy`, `version_order_exact.dfy` | version counters over lists of slices: domination, recovery, resurrection, and exactly when the order does not show |
| `version_gossip.dfy`, `version_spread.dfy` | version counters over runs: safety, and that the last publication gets everywhere, even after a reboot of its author |
| `counterexamples.dfy` | runs from freshly booted nodes into the states the exact conditions shut out |
| `wire.dfy`, `transfer.dfy` | byte order, frame codec, the socket loops and a whole exchange |
| `bleach_clock.dfy`, `statistics.dfy` | whole-second arithmetic of the bleach loop; the pruned statistics history |
| `descriptors.dfy`, `pending.dfy` | the event loop's descriptor table and its queue of suspended operations |

Runs are sequences of steps chosen freely: every result quantifies over all of
them. A session is a record under an id that is never reused: requested (the
client's snapshot travels), replied (the server has merged and its snapshot
travels), finished, or lost. The server's merge and reply snapshot are one step,
as the code has no suspension point between them; the client merges the reply
into whatever its state is by then.

Modelling choices. Host names, keys and payloads are opaque; only their
equality matters. TTLs are
unbounded integers; configured durations are not negative. System-call results,
kernel byte counts, descriptor numbers, clock readings, file contents and
message loss are parameters or free choices. Maps are visited in any order.
Names and data on the wire are bytes. The merge loop runs on a copy of the
type's state that is stored back when the loop ends; nothing can observe the
difference, because the loop never suspends.

Where code and prose disagree the model follows the code. The comment at
`src/sharedstate.cc:891-892` says own entries are not overwritten at equal TTL;
the threshold computed there is not used and the comparison at line 896 accepts
them (`Decay.EchoAltersExactly`, `Decay.StaleEcho`). The protocol draft asks
receivers for complete frames; the receiving code never compares a short count
with the length it asked for (`Wire.AcceptanceExactly` says exactly when that
shows, `Wire.TruncatedReceived` what comes of it).

Properties that do not hold of the code in general, with the exact condition
under which they do and an input at which they fail:

- agreement after a session: `Store.SessionOutcome`, `Counterexamples.SessionDisagrees`
- expiry commuting with merging: `Store.BleachMergeCommute`, `Counterexamples.ExpiryDisagrees`
- the order of two slices not showing: `MergeOrder.SwapExactly`, `VersionOrder.VSwapExactly`, and that of
  any list: `OrderExact.OrderlessExactly`, `VersionOrderExact.VOrderlessExactly`; `MergeOrder.OwnEchoOrderMatters`,
  `VersionOrder.OwnEchoOrderExactly`
- convergence of a single-author key: `Convergence.ConvergesExactly`, `Counterexamples.NeverConverges`
- an own entry surviving a merge: `Decay.EchoAltersExactly`, `Decay.StaleEcho` under the deployed rule,
  `VersionLists.OwnEntryReplacedExactly`, `Counterexamples.EqualVersionReturns` under version counters
- the significance count of the version strategies: `Versions.SignificanceExact`,
  `Counterexamples.EqualVersionReplaces`
- a rebooted v2 node ending with the newest of its echoes: `VersionLists.RecoveryExactly`,
  `VersionLists.OwnEchoRecovery`, `VersionOrder.NewestExactly`, `VersionOrder.TwoEchoesExactly`,
  `VersionLists.EchoResurrection`
- a publication after a reboot staying ahead of the copies from before it: `VersionSpread.StaysLedExactly`,
  `Counterexamples.StragglerReturns`
- agreement of receiver and decoder: `Wire.AcceptanceExactly`, `Wire.TruncatedLengthAccepted`
- the number of excess statistics records: `Statistics.SkipCountExact`, wrong from an excess of 2^31 on
- closing a command completely: `Descriptors.AsyncCommand.CloseCommand`, `Descriptors.CloseAfterFault`

The counterexample runs start at two freshly booted nodes. In the first
(`Counterexamples.LossRunEnds`) the author inserts, its peer takes the copy over,
the reply is lost and the author ages by a second. In the second
(`Counterexamples.EqualVersionReturns`) the author reboots after the first
publication, publishes again under the version it starts over with, ages by a
second and hears its peer. In the third (`Counterexamples.StragglerReturns`) the
author publishes three times, sends a request, reboots, publishes and syncs twice,
and then the request arrives.

## Model

| member | source | states |
|---|---|---|
| Store.ChangedIsViewDifference | src/sharedstate.cc:970-991 | the changed-key set is empty exactly when the key-to-data payload given to hooks is the same |
| Store.MergeIdempotent | src/sharedstate.cc:864-907 | repeating the same merge changes nothing and has nothing to count, under either rule |
| Store.MergeOneMore | src/sharedstate.cc:864-907 | slice keys are independent: one more key is one more single-key merge and its change adds to the count, so the key order cannot matter |
| Store.SessionOutcome | src/sharedstate.cc:111-141 | after a completed remote session the two states agree on a key if and only if neither side held it as its own while the other had strictly more TTL |
| Store.LoopbackSessionAgrees | src/sharedstate.cc:413-431 | a loopback session always ends with both sides holding the same map |
| Store.BleachTwice | src/sharedstate.cc:1059-1063 | two bleaches are one by the sum and their removal counts add up |
| Store.BleachAction | src/sharedstate.cc:1041-1065 | any non-empty sequence of bleaches is one bleach by the total, with the reported removals adding up to its removals |
| Store.ExpiredAreGone | src/sharedstate.cc:1055-1065 | what counts as expired is exactly what is missing after a bleach, and their number is the loss in size |
| Store.BleachKeeps | src/sharedstate.cc:1041-1063 | an entry stays exactly when it has more TTL than the time, and then loses that time and nothing else |
| Store.RemovalsAreLoss | src/sharedstate.cc:1041-1065 | over any sequence of bleaches the reported removals add up to the loss in size |
| Store.BleachMergeCommute | src/sharedstate.cc:1041-1065 | expiring after a merge equals merging the expired maps, unless and only unless the merge is remote and some own entry runs out while the peer's copy survives |
| Daemon.SharedState.Merge | src/sharedstate.cc:839-916 | -1 and no change for an unknown type; else that type holds the pointwise merge, other types are untouched, the result counts the keys whose clean view changed, and the configuration lookup is defined |
| Daemon.SharedState.MergeLoop | src/sharedstate.cc:864-915 | the loop with its counter, in any key order, computes the pointwise merge and the number of keys whose view changed |
| Daemon.SharedState.MergeOne | src/sharedstate.cc:864-907 | one iteration is a single-key merge and reports significance exactly when the view changed at that key |
| Daemon.SharedState.BleachType | src/sharedstate.cc:1037-1066 | below one second or for an unknown type -1 and no change; else entries at or below the time go, the rest lose it, and the result is the loss in size |
| Daemon.SharedState.BleachDataLoop | app/shared_state_cli.cc:154-188 | over any configuration files and clock readings the loop ends at the first file that cannot be read, and until then leaves what reloading and bleaching by the whole-second ticks of the measured gaps make of the states |
| Daemon.SharedState.BleachIteration | app/shared_state_cli.cc:169-184 | one iteration reloads and bleaches every configured type by at least a second, truncated |
| Daemon.LoopStatesAre | app/shared_state_cli.cc:169-184 | after the loop exactly the types of the last file are stored: one configured throughout went through exactly the ticks, one dropped on the way or added is empty |
| Daemon.LoopDecay | app/shared_state_cli.cc:160-184 | an entry of a type configured throughout that nobody merges over is gone exactly when the seconds taken reach its TTL, and over n iterations these are within n seconds below and n milliseconds above the time between the clock readings, less what the iterations took themselves |
| Daemon.SharedState.LoadRegisteredTypes | src/sharedstate.cc:765-809 | a parsed file makes the types with state equal to the configured types, keeps surviving entries and starts new types empty; an unreadable one changes nothing; alignment is kept |
| Daemon.SharedState.RegisterDataType | src/sharedstate.cc:695-762 | name checks, reload, the recorded type and the result in every error case; states never get ahead of the configuration |
| Daemon.SharedState.HandleRequest | src/sharedstate.cc:413-454 | the reply is the merged state, stored and sent as one step; the request fails if sending it or collecting the statistics does, and hooks are due exactly when it succeeded at a peer daemon whose clean view changed |
| Daemon.SharedState.FinishSync | src/sharedstate.cc:137-169 | the client merges the reply into its current state and keeps it even if collecting the statistics fails; hooks are due exactly when that succeeds and the clean view changed |
| Daemon.RunSession | src/sharedstate.cc:111-141 | a whole session succeeds when both know the type, leaves other types alone and ends in agreement on exactly the keys nobody was locked out of |
| Daemon.InsertCommand | app/shared_state_cli.cc:38-74 | the insert command merges its freshly dated slice over loopback; when nothing in the daemon outlives a fresh entry the daemon holds exactly what was inserted on top of the rest |
| Daemon.InsertLifetime | app/shared_state_cli.cc:65-67 | an inserted entry nobody merges over is still there after any bleaches that sum to at most the bleach TTL plus the update interval, and gone one second later |
| Daemon.LoopbackInsertSession | app/shared_state_cli.cc:61-71 | a loopback session of a slice nothing outlives leaves both sides with the old state overridden by the slice |
| MergeOrder.SwapExactly | src/sharedstate.cc:864-907 | from any state and under both rules two slices merge to the same state in both orders if and only if no key matters: two different copies tie or the lower is own-authored, both get past what was held, or they tie a held own entry and open it to a fresher copy |
| MergeOrder.MergeAllIsTop | src/sharedstate.cc:864-907 | if own-authored copies have the highest TTL of their key a list merges to a highest-TTL entry per key of everything seen |
| MergeOrder.OrderIndependence | tests/spec-suite/properties.py:48-67 | from any state, if own-authored copies are on top and the top copy of each key is unique, every permutation of the slices gives the same state |
| OrderExact.OrderlessExactly | tests/spec-suite/properties.py:48-67 | over any state and under both rules all permutations of a list agree if and only if no tying copies open a key held as own and, of the copies that can get in elsewhere, own ones are on top and the top is unique |
| MergeOrder.OwnEchoOrderMatters | tests/spec-suite/properties.py:85-95 | of any two echoes of a freshly booted author's own key with different TTLs the one heard first stays, under both TTL rules |
| Gossip.RunGenuine | src/sharedstate.cc:862-906 | in every run from an empty mesh, stored and travelling states hold only inserted entries with TTL between 1 and the insert TTL |
| Gossip.Provenance | src/sharedstate.cc:862-906 | every stored or travelling entry was inserted, with that data, by the author it names, whatever is lost, delayed, bleached or rebooted |
| Gossip.InsertSupremacy | app/shared_state_cli.cc:61-71 | in every reachable mesh an insert leaves its daemon holding exactly the inserted entries and everything else unchanged |
| Rounds.RunSince | src/sharedstate.cc:111-141 | in every gossip run whose merges climb no node sinks, and each session begun since has delivered what its phase says, whatever overlaps, is delayed or lost |
| Rounds.Spread | src/sharedstate.cc:413-431 | after as many rounds as hops a node knows at least what the other knew at the start |
| Convergence.MergeJoins | src/sharedstate.cc:875-906 | with authors in the lead no merge discards a fresher copy, so the result is above both sides |
| Convergence.RunSteady | src/sharedstate.cc:111-141 | with authors in the lead every merge of a gossip-only run climbs, nodes only gain and every copy was there at the start |
| Convergence.EndsFreshest | src/sharedstate.cc:839-916 | if authors lead, after diameter-many rounds every node holds a highest-TTL copy of the key of what anybody held at the start |
| Convergence.Converges | src/sharedstate.cc:839-916 | if also equal-TTL copies are equal, all nodes then hold the same entry |
| Convergence.ConvergesExactly | src/sharedstate.cc:882-888 | for a single-author key held by its author, those rounds bring agreement if and only if no copy had more TTL than the author's |
| Freshness.TtlTellsGeneration | app/shared_state_cli.cc:61-71 | under a shared clock TTL order is publication order and equal copies are the same publication |
| Freshness.MergeIsLastWriterWins | src/sharedstate.cc:882-906 | a merge keeps the later publication and never finds its peer ill |
| Freshness.EventFresh | src/sharedstate.cc:1059-1063 | publishing, ticking, session steps, loss and other nodes' reboots keep every copy dated and the author current |
| Freshness.ExactFreshness | src/sharedstate.cc:882-906 | in every such run each copy is one publication aged by exactly the time since, no held generation goes backwards, and the ill branch is never taken |
| Decay.HonestDecay | src/sharedstate.cc:875-906 | over every interleaving of remote merges and bleaches an own entry's TTL is its first TTL less the time passed and it goes when that is used up; under the guarded rule its data survives anything peers send |
| Decay.EchoAltersExactly | src/sharedstate.cc:891-906 | one deployed merge alters an own entry's data if and only if the copy has equal TTL and other data; the guarded rule never does |
| Decay.StaleEcho | tests/spec-suite/properties.py:114-129 | a six-step run in which the echo of a first publication replaces the second at its own author |
| Counterexamples.LossRunEnds | src/sharedstate.cc:111-141 | a valid five-step run, a lost reply and a second of bleaching, that leaves the author a second behind its peer |
| Counterexamples.SessionDisagrees | src/sharedstate.cc:882-888 | from there a completed session leaves the two nodes in disagreement |
| Counterexamples.ExpiryDisagrees | src/sharedstate.cc:1041-1065 | from there expiring after the merge and before it differ |
| Counterexamples.BehindIsQuiet | src/sharedstate.cc:882-888 | there no message is on its way, the key has one author who holds it, equal-TTL copies are equal and a copy is ahead of the author's |
| Counterexamples.NeverConverges | src/sharedstate.cc:882-888 | from there no number of rounds brings agreement |
| Counterexamples.OneRoundValid | src/sharedstate.cc:111-141 | such rounds exist: one session over the only edge is one |
| Counterexamples.EqualVersionReplaces | tests/spec-suite/model.py:94-97 | an own publication gives way to an equal version with more TTL and other data, and the merge reports nothing |
| Counterexamples.EqualVersionReturns | tests/spec-suite/model.py:94-97 | a valid run with a reboot in which that happens to an author under both counting strategies |
| Counterexamples.StragglerReturns | tests/spec-suite/simulator.py:142-162 | a valid run with a reboot after which a request from before it takes the last publication's place at the peer, under both counting strategies |
| Counterexamples.StragglerAhead | tests/spec-suite/simulator.py:142-162 | on the way of that run the travelling copy is newer than what is held, and ahead of the publication that leads at the nodes |
| BleachClock.WholeSecondsBounds | app/shared_state_cli.cc:175-183 | one iteration at least 999 ms after the last subtracts at least a second, more than the time less a second and at most the time plus a millisecond |
| BleachClock.WholeSecondsTruncate | app/shared_state_cli.cc:177-183 | the seconds subtracted are the elapsed time, one second at least, truncated to whole seconds |
| BleachClock.GapAt | app/shared_state_cli.cc:175-184 | each iteration measures from the end of the bleach before it, the first from the start of the loop |
| BleachClock.GapsTelescope | app/shared_state_cli.cc:160-184 | together the measured gaps are the time from the start to the last measurement, less what the earlier iterations took themselves |
| BleachClock.DriftBound | app/shared_state_cli.cc:160-185 | over n such iterations: at least n seconds, more than the measured time less n seconds, at most that time plus n milliseconds |
| BleachClock.ClockBound | app/shared_state_cli.cc:160-184 | the same bounds by clock readings alone, for iterations that each begin at least 999 ms after the one before ended |
| BleachClock.UnmergedEntryDecay | src/sharedstate.cc:1059-1063 | an unmerged entry loses exactly that total and is gone exactly when the total reaches its TTL |
| Versions.MirrorsDaemon | tests/spec-suite/model.py:101-120 | forgetting versions, strategies v1 and v1i are the daemon's deployed and guarded merge |
| Versions.VMergeIdempotent | tests/spec-suite/properties.py:34-45 | merging the same slice twice is merging it once, under all four strategies |
| Versions.SignificanceExact | tests/spec-suite/model.py:85-97 | the significance count names the changed keys if and only if no tie-break replaced different data; the TTL strategies never have such a tie-break |
| Versions.IllExactly | tests/spec-suite/model.py:102-104 | a copy is logged as discarded exactly under a TTL strategy at a held key whose entries, versions forgotten, put the peer in the ill branch |
| Versions.KindMeans | tests/spec-suite/model.py:65-120 | every event kind says what became of the entry, and each kind happens exactly under a condition on authors, TTLs, versions and origin |
| Versions.ChangesExactly | tests/spec-suite/model.py:65-120 | the keys counted as changes are exactly those whose copy is unknown, newer by version and then TTL, or under the TTL rules at least as fresh and not mistrusted; every key whose entry differs afterwards and every significant one is among them |
| Versions.Node.Merge | tests/spec-suite/model.py:59-121 | the in-place loop computes the merge, counts significant and all changes, and logs for every slice key the kind that decided it, once |
| Versions.Node.MergeKey | tests/spec-suite/model.py:65-120 | one iteration is a single-key merge with the event kind of the branch taken |
| Versions.Node.BleachNode | tests/spec-suite/model.py:124-134 | less than a second is refused; else the rest is decremented and the keys returned are exactly the ones missing afterwards |
| Versions.BleachMirrorsDaemon | tests/spec-suite/model.py:124-134 | forgetting versions, expiry is the daemon's; versions and origins stay as they are and what expires is what is missing afterwards |
| Versions.Node.AuthorInsert | tests/spec-suite/model.py:144-152 | a counting publication is strictly newer than what the node held |
| Versions.PublicationLifetime | tests/spec-suite/model.py:137-152 | a publication nobody merges over is there, unaltered but for its TTL, as long as less than its bleach TTL has passed when versions count, and an update interval and a second longer when they do not |
| VersionLists.VersionMonotone | tests/spec-suite/model.py:75-99 | a version merge never lowers the held version and ends at or above the one heard |
| VersionLists.Domination | tests/spec-suite/model.py:75-99 | after any list of slices the held version is at least every version heard for the key |
| VersionLists.NextPublishAdopted | tests/spec-suite/model.py:147-152 | the author's next publication is adopted by every non-owning peer whose copy is no newer than something the author heard |
| VersionLists.LeapfrogAdopted | tests/spec-suite/properties.py:155-178 | a fresh own insert that hears a newer echo keeps its data one version above, and every non-owning peer whose copy is no newer than the echo adopts it |
| VersionLists.OwnEntryReplacedExactly | tests/spec-suite/model.py:75-98 | a locally inserted own entry is replaced exactly by an equal-version echo with more TTL, else only its version moves, leapfrogging a newer echo by one |
| VersionLists.OwnDataSurvives | tests/spec-suite/model.py:75-98 | if no echo has more TTL than the fresh insert, the whole list leaves it with at most a higher version |
| VersionLists.RecoveryExactly | tests/spec-suite/model.py:75-84 | for any state and list recovery fires somewhere if and only if a slice brings a newer version than an own leader of what came before, and until then the node holds the leader |
| VersionLists.OwnEchoRecovery | tests/spec-suite/model.py:75-84 | at a v2 node that holds its own echo and hears more of them recovery fires if and only if one is newer than the held one |
| VersionLists.EchoResurrection | tests/spec-suite/properties.py:138-145 | for any outdated and newer echo heard in that order after a reboot, v2 lifts the outdated data above both and v2r takes the newer |
| VersionLists.ResurrectionSpreads | tests/spec-suite/properties.py:146-151 | under v2 every other node whose copy is no newer than the newer echo adopts the outdated data from the author, under v2r a peer with the newer echo keeps it |
| VersionOrder.VSwapExactly | tests/spec-suite/model.py:75-99 | from any state and under both counting strategies two slices merge to the same state in both orders if and only if no key matters, in terms of the versions, TTLs and authors of the copies and of what was held |
| VersionOrder.OwnEchoOrderExactly | tests/spec-suite/properties.py:80-84 | two echoes newer than a locally inserted own entry leave it differently in the two orders if and only if their versions are consecutive |
| VersionOrder.VMergeAllIsTop | tests/spec-suite/model.py:75-99 | a list in which no own leader is overtaken merges to the entry with the highest version, then TTL, of everything seen |
| VersionOrder.NewestExactly | tests/spec-suite/model.py:75-99 | any list merges to the newest entry of everything seen if and only if at no key the node, since it last recovered, neither took a copy over nor heard the very entry it lifted |
| VersionOrder.NewestWithoutRescue | tests/spec-suite/model.py:75-99 | if no copy can rescue a lifted own entry (one version above another copy, with more TTL than an older own copy or equal to it otherwise), a v2 list merges to the newest entry if and only if no own leader is overtaken |
| VersionOrder.ThirdEchoRescues | tests/spec-suite/model.py:94-97 | of three own echoes of consecutive versions with more TTL on the third, v2 recovers at the second and still ends with the third |
| VersionOrder.RecoveryFreeWhen | tests/spec-suite/model.py:75-84 | that is so under v2r without local inserts, and under v2 at keys without an own copy or with none newer than the first |
| VersionOrder.TwoEchoesExactly | tests/spec-suite/properties.py:138-145 | a rebooted v2 node hearing two of its echoes ends with a newest one if and only if the second is not newer than the first |
| VersionOrder.VOrderIndependence | tests/spec-suite/model.py:53-99 | from a state without local inserts and with one top copy per key, and under v2 own copies of the newest version only, every permutation gives the same state |
| VersionOrderExact.VOrderlessExactly | tests/spec-suite/properties.py:48-67 | over any state and under both counting strategies all permutations of a list agree if and only if the copies that can get in have one top, under v2 own ones of the newest version only, and at a key held as own no tie stands beside a newer copy, no newer copy one version above another is the newest or has more TTL than the held one, and there is one highest tie |
| VersionGossip.MergeNumbered | tests/spec-suite/model.py:75-99 | merging numbered copies never triggers recovery and never lowers a version |
| VersionGossip.RunSafe | tests/spec-suite/simulator.py:142-162 | in every run each copy's version is the number of the publication it carries and the author holds the latest number |
| VersionGossip.VersionSafety | tests/spec-suite/simulator.py:142-162 | with a single author that keeps its entry, equal versions carry equal data everywhere, the author holds the maximum, no held version goes down and recovery never fires, whatever is delayed, lost, bleached or rebooted elsewhere |
| VersionSpread.LeadSpreads | tests/spec-suite/simulator.py:142-162 | when the author holds the newest version and equal versions carry its data, that publication is at every node after as many rounds as hops |
| VersionSpread.LastPublicationSpreads | tests/spec-suite/simulator.py:142-162 | after any permitted run from an empty mesh and enough rounds every node holds the author's last publication, under v2 and v2r |
| VersionSpread.RegainsLead | tests/spec-suite/model.py:144-152 | once every node's knowledge has reached the author, whatever it held and recovered on the way, its next publication is newer than every copy in the mesh |
| VersionSpread.LeapfrogLeads | tests/spec-suite/properties.py:155-178 | a fresh insert of a rebooted author that hears the newest copy in the mesh is from then on ahead of every copy |
| VersionSpread.LeapfrogSpreads | tests/spec-suite/properties.py:155-178 | then that one publication is at a node after as many rounds as hops |
| VersionSpread.RebootRecovery | tests/spec-suite/simulator.py:71-73 | an author that loses its counter in a reboot, whatever it hears then, and publishes twice with enough rounds behind each publication ends with the last one at every node, if no travelling copy is newer than what the nodes hold |
| VersionSpread.StaysLedExactly | tests/spec-suite/simulator.py:142-162 | a publication that is ahead at all nodes stays ahead at all nodes under every gossip that may follow if and only if no travelling copy is newer |
| Wire.NetworkOrder | src/sharedstate.cc:303-305 | on either host byte order htonl puts big-endian bytes in memory and reads them back |
| Wire.BigEndianValue | src/sharedstate.cc:303-305 | read in base 256 with the most significant byte first, a word's bytes are the word, and four bytes are read as what they write |
| Wire.FrameLayout | tests/spec-suite/wire.py:29-35 | the parts of a frame by position: name length, name, the data length in base 256, data |
| Wire.FrameLimits | tests/spec-suite/wire.py:29-34 | a message has a frame exactly when its name has 1 to 128 bytes and its data 2 to 1048576 |
| Wire.DecodeRefuses | tests/spec-suite/wire.py:38-50 | exactly when decoding refuses a buffer for its name length and exactly when for its data length |
| Wire.DecodePrefix | tests/spec-suite/wire.py:38-54 | every proper prefix of a frame is refused as short, nothing else |
| Wire.EncodeThenDecode | tests/spec-suite/wire.py:29-54 | decoding an encoded frame, with anything behind it, returns the message and consumes exactly the frame |
| Wire.DecodeThenEncode | tests/spec-suite/wire.py:38-54 | whatever decodes is the encoding of what it decodes to |
| Wire.ReceiverAgreesWithDecoder | src/sharedstate.cc:189-236 | a complete frame is received exactly as the one-shot decoder decodes it, leaving the same rest of the stream |
| Wire.AcceptanceExactly | src/sharedstate.cc:189-236 | on every byte stream receiver and decoder accept the same, except exactly the truncated frames whose zero-filled header looks valid |
| Wire.TruncatedReceived | src/sharedstate.cc:189-236 | such a frame is received with all of the stream consumed and zeros for the bytes that did not come |
| Wire.TruncatedLengthAccepted | src/sharedstate.cc:215-236 | a five-byte stream that is received as 256 zero bytes |
| Transfer.AsyncSocket.Recv | src/async_socket.cc:148-170 | for every pattern of short reads the buffer gets the next bytes of the stream, as many as fit or are left, and keeps the rest of its content |
| Transfer.AsyncSocket.Send | src/async_socket.cc:172-198 | for every pattern of short writes all bytes go out once and in order |
| Transfer.SendWord | src/sharedstate.cc:243-247 | on either host byte order the four bytes that go out write the word in base 256, most significant first |
| Transfer.RecvWord | src/sharedstate.cc:215-220 | on either host byte order the word is what the next four bytes of the stream, zero-filled if it ends, write in base 256, most significant first |
| Transfer.WriteFrame | src/sharedstate.cc:282-315 | what goes out is the wire image of the message, with name length and data length cut to their fields, and the total is its length |
| Transfer.WireImageLayout | src/sharedstate.cc:288-313 | the parts of the wire image of any message by position: name length modulo 256, as much of the name, the data length modulo 2^32 most significant byte first, data |
| Transfer.WireImageIsFrame | src/sharedstate.cc:288-313 | for every message a receiver admits nothing is cut |
| Transfer.ReadAck | src/sharedstate.cc:317-341 | sending succeeds exactly when the acknowledged number is the number of bytes sent |
| Transfer.SendNetworkMessage | src/sharedstate.cc:274-361 | on a healthy socket sending succeeds if and only if the acknowledgement equals the length of the wire image |
| Transfer.ReceiveNetworkMessage | src/sharedstate.cc:172-272 | on a healthy socket the result is what the stream determines, the frame alone is consumed and the acknowledgement is the byte count in network order |
| Transfer.Exchange | src/sharedstate.cc:172-361 | between hosts of any byte order and under any splitting the receiver gets exactly the message, consumes exactly the frame, agrees with the decoder, and the sender sees its own count acknowledged |
| Statistics.SkipCountExact | src/sharedstate.cc:649-653 | the wrapping unsigned subtraction, narrowed to a signed word, gives the true excess over ten records if and only if that excess is below 2^31 |
| Statistics.SkipCount | src/sharedstate.cc:649-653 | for every size the skip count is at most that size, so no pop finds the deque empty |
| Statistics.AdmissibleLimits | include/sharedstate.hh:253-256 | what is kept has at most ten records and none older than thirty minutes, in nanoseconds |
| Statistics.StatsFile.CollectStat | src/sharedstate.cc:629-658 | the record is appended to its peer and every peer's deque pruned at its time; an unreadable file counts as empty |
| Statistics.PruneDeque | src/sharedstate.cc:649-657 | the two popping loops drop the excess and then the aged front |
| Statistics.DropAgedFront | src/sharedstate.cc:655-657 | whatever the timestamps, only aged records at the front go, and what is left begins with a record young enough |
| Statistics.PrunedIsLongestSuffix | src/sharedstate.cc:646-658 | pruning what was kept, with a record behind it, gives the longest admissible suffix of the whole log |
| Statistics.HistoryRefinesLog | src/sharedstate.cc:644-658 | over every run with a monotone clock each deque is the longest suffix of its full log with at most ten records, none older than thirty minutes at the last pruning |
| Statistics.NewestKept | src/sharedstate.cc:644-658 | the record just collected is always kept, as the last one |
| Descriptors.IOContext.RegisterFD | include/io_context.hh:91-118 | a number that is not open or cannot be made non-blocking is refused; else it maps to a fresh object carrying it, and the table stays valid |
| Descriptors.IOContext.CloseAFD | include/io_context.hh:122-202 | a null or closed object is refused, a displaced one stops the process, a live one is closed once and forgotten even when the kernel reports an error |
| Descriptors.AsyncCommand.CloseStdIn | src/async_command.cc:204-209 | the pipe is forgotten by the command only when its close succeeded; the table loses it either way |
| Descriptors.AsyncCommand.CloseCommand | src/async_command.cc:265-279 | exactly the remaining pipes and the wait descriptor are released if and only if none of their closes reports an error; the first error strands what comes behind it, and one at a pipe leaves that pipe behind and the wait descriptor live |
| Descriptors.CleanReleasesAll | src/async_command.cc:265-279 | without an error the released numbers are all the remaining ones |
| Descriptors.CloseAgain | src/async_command.cc:265-279 | with a pipe left behind by a failed close every further attempt fails, however many there are and whatever closes report by then, and the wait descriptor stays as it is |
| Descriptors.CloseAfterFault | src/async_command.cc:265-279 | after a failed close of either pipe no number of later attempts closes the command, and its wait descriptor stays managed |
| Descriptors.Execute | src/async_command.cc:129-143 | starting a command puts three distinct live descriptors under management |
| Pending.OperationQueue.ResumePendingOps | include/async_file_descriptor.hh:61-81 | whatever resumed operations append, one pass resumes what was pending at entry once each in order and leaves exactly what was appended, in order |
| Pending.RequeuedMembers | include/async_file_descriptor.hh:74-78 | after a pass the queue holds exactly the operations that some operation of that pass appended |
| Pending.RequeuedInOrder | include/async_file_descriptor.hh:74-78 | every appended operation has its place behind all that earlier ones appended, in the order its own operation appended it |

## Left out

- JSON encoding of slices, configuration and statistics (`fromStateSlice`, `toStateSlice`, `serial_process`): the serialisation library is not part of this model.
- Handshake, bandwidth and round-trip estimation: arithmetic on measured clocks.
- Hook execution, neighbour discovery, process forking, epoll event delivery and timers: plumbing, present only as free choices or parameters.
- Coroutine frames, and references into a type's state held across a suspension while the configuration drops the type: the client merges into the state found by name.
- The simulator's metrics, random schedules and thresholds: replaced by quantifying over all runs.
- Overflow of 64-bit seconds in TTL arithmetic: TTLs are unbounded integers.
- UTF-8 validity of type names in the Python codec: names are bytes.
- CloseAFD: checks that end the process are an outcome value, after which nothing is claimed.
- ResumePendingOps: an operation is resumed without touching the queue other than by appending; destroying the descriptor from within a resumed operation is not covered.
- RebootRecovery: asks that no copy still travelling at the start of the rounds is newer than what some node holds; StaysLedExactly says exactly when one that travels later does no harm, and StragglerReturns shows one that does.
- ExactFreshness: a tick bleaches all nodes by the same whole seconds at once, as the property assumes; unsynchronised bleaching is covered by Provenance, HonestDecay and VersionSafety.
