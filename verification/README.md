# csyn in Dafny

csyn keeps the latest sample of every topic in a lock-free, double-buffered store and moves those samples over
UDP, Zenoh and zros. This project models the store, everything that polls it, and the tools around it, and proves
what they promise over every input, every run and every interleaving.

`dafny verify dfyconfig.toml` checks the whole project.

## What is modelled

- **The store** (`zephyr/src/csyn.c`). `TopicStore` has a topic's memory (two slots, two lengths, one generation) and
  `Topic`, whose `Publish` and `Copy` work in place. `StoreProtocol` cuts the same two operations into atomic steps, with
  `memcpy` moving single bytes in any order, one publisher and any number of readers, interleaved freely. The
  generation is a `uint32_t` that wraps; the publish count beside it does not. The invariant says that the slot of
  parity `g + 1` is free while `g` is visible, that a slot once published never shows length zero again, and what a
  reader in the middle of a copy may rely on. `SoloPublish` and `SoloCopy` tie the steps back to the two methods'
  meaning.
- **The pollers** (`zephyr/src/csyn_zenoh.c`, `csyn_native_udp.c`, `csyn_zros_bridge.c`). `Pollers` puts the idiom "read the
  generation, copy later, record the generation read first" on top of the byte-wise store. `Bridge` puts the zros mirror
  in front of it and proves convergence over both hops. `Transports` and `NativeUdp` have the same polling code as
  methods that run between publishes.
- **The shell's watch** (`zephyr/src/csyn_shell.c`). `ShellWatch` has the shared record, the binary semaphore given after
  `irq_unlock`, and program counters for any number of commands and the watch thread. A timeout may fire at any moment.
- **Mocap arbitration and value contracts** (`zephyr/src/csyn_zenoh.c`, `rust/src/types.rs`). `Mocap` proves the hold
  counter equal to a statement about the whole stream. `ValueContract` proves which texts the C and the Rust side accept.
- **Formats.** `NativeUdp` (the UDP frame) and `FixedWrapper` (the one-field FlatBuffers wrapper) each prove that the parser
  accepts exactly what the printer prints.
- **Graph server and throttles** (`rust/src/graph.rs`, `rust/src/contract_warning.rs`). `TrafficWindow`, `Graph`,
  `GraphContents`, `GraphState`, `AdminKeys` and `Throttles`.
- **Attitude** (`zephyr/src/csyn_codec.c`), over the reals, an angle being the cosine and sine of its half.

## Assumptions

- One publisher for each topic, and sequentially consistent atomics. Slot and length accesses interleave with
  everything but are not reordered with the generation accesses. The publisher's own load of the generation is one step
  with its call, since nobody else writes it.
- Slot sizes are arbitrary; the original's 16-bit `max_size` and lengths are a special case in which no length is truncated.
- Wrap-around of the generation is part of the model. No claim is restricted to fewer than 2^32 publishes in all unless
  its statement says so; where wrap-around breaks a promise, a lemma shows the run (`StoreProtocol.TornAfterWrapAround`)
  or states the exact condition (`StoreProtocol.RefusalMeansGenerationZero`, `Pollers.PollAfterQuiescenceDeliversLatest`,
  `Bridge.PassMirrorsLatest`).
- zros reads, writes and generation loads are atomic, and every message of one zros topic has the same size.
- The catalog, the JSON parser, the results of sockets, puts and reads, and clocks are parameters. The observation clock
  and the clock of the Rust throttle do not go backwards; the clock of the C throttle may.
- A `BTreeMap` is visited in an arbitrary order of its distinct keys.
- Rust resolves a canonical encoding to a topic only if it is exactly that topic's contract text
  (the table lookup is `synapse_fbs` code and not part of this model).

## What turned out not to hold as said

- After exactly 2^32 publishes inside one copy, the copy returns bytes nobody published
  (`StoreProtocol.TornAfterWrapAround`). `StoreProtocol.NoTornReads` needs fewer than 2^32 publishes between the two
  generation loads of one copy, and nothing else.
- Right after a multiple of 2^32 publishes, a copy is refused although samples were published
  (`StoreProtocol.RefusedAfterWrapAround`, and exactly when in `StoreProtocol.RefusalMeansGenerationZero`).
- `mirror_tx_if_updated` ignores a refused publish and still records the generation. The two hops converge if and only if
  the message fits the topic (`Bridge.TwoHopConvergence`); the size check of `csyn_init` implies it for fixed-layout topics
  whose message type has the catalog's size (`Bridge.CheckedTopicsConverge`).
- A rate watch of the same topic restarted in the middle of a report gets the older generation written over its new
  baseline, so the next rate counts a publish from before the restart (`ShellWatch.RestartMidReportOvercounts`);
  `ShellWatch.RatesCountFromBaseline` has the exact condition.
- A contract's text is its alone if and only if neither wire type nor hash holds the separator `;schema=sha256-128:`
  between them (`ValueContract.UnambiguousWithoutSeparator`); otherwise one text is two contracts
  (`ValueContract.SeparatorIsAmbiguous`). The catalog's wire types are type names and its hashes hexadecimal.
- `unwrap_fixed_payload` truncates the object size to 16 bits, so above 65531 bytes it accepts messages that
  `wrap_fixed_payload` never makes (`FixedWrapper.UnwrapAcceptsOnlyWraps`).
- Converting Euler angles to a quaternion and back is the identity exactly on the condition in
  `Attitude.EulerRoundTrip`.

## Model

| member | source | states |
|---|---|---|
| TopicStore.PublishedRepresents | zephyr/src/csyn.c:75-79 | Writing the other slot, its length and the next generation keeps the memory a faithful picture of the history: the count modulo 2^32, and the latest sample whole in the slot of its parity |
| TopicStore.Topic.Publish | zephyr/src/csyn.c:65-82 | Accepts exactly sizes 1 to max_size; then appends the sample to the history and leaves exactly the published memory; a refusal changes nothing |
| TopicStore.Topic.Copy | zephyr/src/csyn.c:84-118 | Alone, succeeds exactly when the generation is not zero and the latest sample fits; delivers that sample, its length and generation, touches no other byte of the buffer, and a refusal leaves the buffer alone |
| Registry.LastSegment | zephyr/src/csyn.c:159-160 | The part of a key after its last slash: slash-free, and preceded by a slash or nothing |
| Registry.ResolvesWithLegacyCommand | zephyr/src/csyn.c:158-164 | The catalog's entry wins; without one, exactly the keys whose last segment is vehicle_command have the legacy entry |
| Registry.Init | zephyr/src/csyn.c:153-178 | Succeeds exactly when every topic resolves (catalog or legacy vehicle_command) and every fixed layout has the slot size; otherwise stops at the first that does not |
| Registry.FindById | zephyr/src/csyn.c:54-63 | The first topic carrying the id, or none if no topic does |
| StoreProtocol.RunKeepsInv | zephyr/src/csyn.c:65-118 | Every interleaving of bytewise publishes and copies keeps the store's invariant |
| StoreProtocol.NoTornReads | zephyr/src/csyn.c:84-118 | In every interleaving a successful copy returns exactly the bytes, length and generation of one publish, still the latest at the final generation load, if fewer than 2^32 publishes completed between its two loads |
| StoreProtocol.TornAfterWrapAround | zephyr/src/csyn.c:96-110 | A run in which exactly 2^32 publishes complete between the loads and the copy returns a sample nobody published |
| StoreProtocol.RefusedAfterWrapAround | zephyr/src/csyn.c:96-100 | A run in which a copy right after exactly 2^32 publishes is refused |
| StoreProtocol.RetriesArePaidFor | zephyr/src/csyn.c:96-110 | Retries of one copy are at most the publishes completed during it |
| StoreProtocol.CallsFinish | zephyr/src/csyn.c:96-117 | From every reachable state of a copy under way, overtaken ones included, its own steps end it: retried once if overtaken, refused exactly on generation zero or a length that does not fit, else returning the latest sample whole unless 2^32 publishes completed in its turn |
| StoreProtocol.RefusalMeansGenerationZero | zephyr/src/csyn.c:97-107 | With a buffer of the slot size, a copy is refused if and only if it loaded generation zero, even when it reads a length being overwritten |
| StoreProtocol.CopiesNeverGoBack | zephyr/src/csyn.c:84-118 | Successive successful copies by one reader never return an older publish |
| StoreProtocol.SoloPublish | zephyr/src/csyn.c:65-82 | The steps of an uninterrupted publish add up to the in-place method's new memory and history |
| StoreProtocol.SoloCopy | zephyr/src/csyn.c:84-118 | An undisturbed copy returns the latest sample, or is refused exactly on generation zero or a short buffer |
| Pollers.RunKeepsInv | zephyr/src/csyn_zenoh.c:628-646 | Every interleaving of publisher, other readers and one poller keeps the poller's invariant on top of the store's |
| Pollers.DeliveriesAreSafe | zephyr/src/csyn_zenoh.c:628-686 | Over every run and across all sessions, UDP, Zenoh (with restarts) or zros consumer: the stored 32-bit generation stands for a count never ahead of what was delivered, nor that of what was published; deliveries are in order and each a whole publish; no more than publishes in one session, than publishes plus restarts in all, and under Zenoh than successful puts |
| Pollers.PollAfterQuiescenceDeliversLatest | zephyr/src/csyn_native_udp.c:160-185 | After publishing stops, any one poll that begins and completes, whatever else interleaves, records the latest publish if and only if the 32-bit generation did not merely look recorded, and then the other end has it whole; below 2^32 publishes always |
| Pollers.LaterPollsDeliverNothing | zephyr/src/csyn_native_udp.c:160-185 | After that poll, whatever follows it delivers and records nothing until the next publish completes or a session starts |
| Pollers.FewPublishesAreNoticed | zephyr/src/csyn_zenoh.c:633-637 | Below 2^32 publishes a poll never mistakes an unrecorded generation for a recorded one |
| Pollers.NothingMoreToDeliver | zephyr/src/csyn_zros_bridge.c:103-118 | While the generation equals the recorded one or zero, nothing is delivered or recorded until the next publish completes |
| Pollers.WholePollDeliversUnlessUnchanged | zephyr/src/csyn_zenoh.c:628-646 | An undisturbed poll with a large enough buffer completes, and ends up to date if and only if it already was or the 32-bit generation differs from the recorded one and from zero; below 2^32 publishes always |
| Pollers.WholePoll | zephyr/src/csyn_native_udp.c:160-185 | The whole effect of an undisturbed poll: nothing to notice completes it; a sample too large, or whose Zenoh put fails, leaves everything recorded and delivered as it was; any other is delivered whole and recorded, a failed UDP send included |
| Pollers.FailedPutIsRetried | zephyr/src/csyn_zenoh.c:643-645 | After a failed put the next poll with a successful one delivers the same latest sample |
| Pollers.NewSessionResends | zephyr/src/csyn_zenoh.c:656-686 | A new session is sent the latest sample again, if and only if the generation is not zero |
| Pollers.DeliveriesArePuts | zephyr/src/csyn_zenoh.c:643-645 | From any state, under Zenoh, no more is delivered than puts succeed |
| Bridge.RunKeepsInv | zephyr/src/csyn_zros_bridge.c:233-281 | Every interleaving of zros publishes, mirror calls, store steps and polls keeps the two-hop invariant |
| Bridge.TopicMirrorsZros | zephyr/src/csyn_zros_bridge.c:233-251 | Over every run the topic carries only zros samples, in zros order, no more than zros published, and none if the message does not fit |
| Bridge.PassMirrorsLatest | zephyr/src/csyn_zros_bridge.c:233-251 | After zros stops, one complete mirror call settles the bridge if and only if the zros generation did not merely look recorded; then the latest zros sample is in the topic if and only if it fits |
| Bridge.DueMirrorCall | zephyr/src/csyn_zros_bridge.c:240-250 | A whole call that has something to notice and whose read succeeds completes, records the zros generation, publishes the latest zros sample exactly if it fits, and changes nothing else |
| Bridge.IdleMirrorCall | zephyr/src/csyn_zros_bridge.c:240-247 | A whole call with nothing to notice changes nothing; one whose read fails records nothing and so is made again |
| Bridge.MirrorSettles | zephyr/src/csyn_zros_bridge.c:233-251 | A whole call by a bridge that notices the latest zros publish completes and settles it |
| Bridge.PollSendsLatest | zephyr/src/csyn_zenoh.c:628-646 | With the bridge settled, one complete poll sends the latest zros sample if and only if it fits, or else nothing was ever sent, and leaves nothing to notice |
| Bridge.NothingMoreIsSent | zephyr/src/csyn_zros_bridge.c:233-251 | From then on mirror calls and polls send nothing until zros publishes or a session starts |
| Bridge.FewPublishesAreNoticed | zephyr/src/csyn_zros_bridge.c:240-243 | Below 2^32 zros publishes neither hop mistakes an unrecorded generation for a recorded one |
| Bridge.TwoHopConvergence | zephyr/src/csyn_zros_bridge.c:233-281 | One complete mirror call and one complete poll after zros stopped: something was sent if and only if the message fits, what was sent last is the latest zros sample, and nothing more is sent after that |
| Bridge.BothHopsComplete | zephyr/src/csyn_zros_bridge.c:253-281 | From every state between calls and polls, a whole mirror call and a whole poll complete and leave the latest zros sample sent last, so convergence is reached |
| Bridge.CheckedTopicsConverge | zephyr/src/csyn.c:171-176 | The size equality checked at init makes the ignored publish result harmless: fixed-layout topics converge, for fewer than 2^32 zros publishes |
| Transports.PutTopicIfUpdated | zephyr/src/csyn_zenoh.c:628-646 | Offers the latest sample unless unresolved, unpublished, unchanged or too large, and records the generation only when the put succeeds |
| Transports.PollTopics | zephyr/src/csyn_zenoh.c:674-683 | One pass polls every outbound topic by its own recorded generation and leaves every other entry alone |
| Transports.TxMap.MirrorTxIfUpdated | zephyr/src/csyn_zros_bridge.c:233-251 | Publishes what was read when the zros generation is new, and records the generation whether or not the topic took the sample |
| NativeUdp.PutLe16 | zephyr/src/csyn_native_udp.c:44-48 | Two little-endian bytes in place, the rest of the buffer unchanged |
| Bytes.FromLeOfLe | zephyr/src/csyn_native_udp.c:39-48 | Reading a little-endian field gives back the value written |
| Bytes.LeOfFromLe | zephyr/src/csyn_native_udp.c:39-48 | A field has one spelling: writing the value read gives back its bytes |
| NativeUdp.PutHeader | zephyr/src/csyn_native_udp.c:174-179 | Magic, id and length in place, the payload behind them unchanged |
| NativeUdp.TxTopicIfUpdated | zephyr/src/csyn_native_udp.c:160-185 | What goes to sendto is the frame of the topic's id and latest sample; the generation is recorded exactly when a frame was built |
| NativeUdp.ParseInvertsFrame | zephyr/src/csyn_native_udp.c:128-139 | A datagram parses to an id and payload if and only if it is their frame |
| NativeUdp.FrameLayout | zephyr/src/csyn_native_udp.c:174-179 | A frame is the letters CSYN, id and length low byte first, and the payload from byte 8 |
| NativeUdp.ReceivedFrames | zephyr/src/csyn_native_udp.c:109-139 | Through the receive buffer: frames that fit come back whole, an accepted untruncated datagram is a frame, an accepted longer one begins with a frame filling the buffer |
| NativeUdp.RxDatagram | zephyr/src/csyn_native_udp.c:116-156 | A frame's payload is published on the first topic with its id, which with distinct ids is the only one; no other topic changes |
| NativeUdp.Route | zephyr/src/csyn_native_udp.c:141-155 | A known id takes the payload to its first topic, where publish accepts or refuses it; an unknown id changes nothing |
| ShellWatch.NoLostWakeUp | zephyr/src/csyn_shell.c:156-203 | In every interleaving, an active watch with the thread in or entering its forever wait has the semaphore set or a starter that owes its give |
| ShellWatch.BaselineIsPast | zephyr/src/csyn_shell.c:173-189 | In every interleaving the recorded generation is a past generation of the topic now watched, and every reported interval is positive |
| ShellWatch.AtMostOneReportAfterStop | zephyr/src/csyn_shell.c:156-171 | After a stop with no later start at most one more report is printed and the write-back never reactivates the watch |
| ShellWatch.ShowRoundReportsOnce | zephyr/src/csyn_shell.c:212-216 | From its snapshot, or after a pause that timed out, the thread prints a live echo or line watch's topic exactly once and pauses again, whatever publishes, ticks and gives interleave |
| ShellWatch.RateRoundReportsOnce | zephyr/src/csyn_shell.c:217-253 | After a rate pause that timed out, with no start or stop, exactly one rate of the watched topic is printed and the thread pauses again, whatever interleaves |
| ShellWatch.RateRoundRuns | zephyr/src/csyn_shell.c:233-253 | An undisturbed round prints the publishes since the baseline over the time since then, at least 1 ms, and makes them the new baseline |
| ShellWatch.StartIsServed | zephyr/src/csyn_shell.c:173-210 | A start wakes a waiting thread, which takes up exactly the new watch |
| ShellWatch.StopIsServed | zephyr/src/csyn_shell.c:156-210 | A stop wakes a waiting thread, which prints nothing and waits forever again |
| ShellWatch.WorldGoesOn | zephyr/src/csyn_shell.c:233-237 | Over every run the clock tells the time passed and the counts the publishes, whatever the watch does |
| ShellWatch.RatesTelescope | zephyr/src/csyn_shell.c:218-253 | With no start or stop the topic's printed counts add up to its generation growth modulo 2^32, exactly below that, and the intervals to the time covered; a report already under way is reckoned from its own copy of the baseline |
| ShellWatch.RatesCountFromBaseline | zephyr/src/csyn_shell.c:173-189 | The counts are reckoned from the baseline the latest start recorded if and only if no report of the topic was under way then, or its copy has the same generation |
| ShellWatch.RestartMidReportOvercounts | zephyr/src/csyn_shell.c:246-253 | A run in which a restart in the middle of a report makes the next rate count a publish from before the restart |
| Mocap.KeyContains | zephyr/src/csyn_zenoh.c:213-226 | True if and only if the key is there and really contains the needle |
| Mocap.CounterMeansSuppressing | zephyr/src/csyn_zenoh.c:266-273 | Over every stream the hold counter is positive if and only if a plausible selected sample came and fewer than the hold of fallbacks came since the latest one |
| Mocap.LostTrackIsImplausible | zephyr/src/csyn_zenoh.c:259-261 | A sample is plausible if and only if one of its first four bytes is there and not 0xff, all four being there |
| Mocap.DropsAreBounded | zephyr/src/csyn_zenoh.c:266-273 | Dropped fallbacks are at most the hold times the plausible selected samples |
| Mocap.Arbiter.Handle | zephyr/src/csyn_zenoh.c:231-278 | A sample is passed to publish if and only if it survives the checks and the stream so far does not suppress it; selected samples always are; the topic gets exactly those |
| ValueContract.ExactlyThreeSpellings | zephyr/src/csyn_zenoh.c:130-147 | C accepts exactly the contract, the contract after a semicolon, and the contract after the zenoh/bytes prefix |
| ValueContract.ContractText | zephyr/src/csyn_zenoh.c:93-103 | Fixed layouts have the struct media type, others the FlatBuffers one, followed by wire type and hash |
| ValueContract.UnambiguousWithoutSeparator | zephyr/src/csyn_zenoh.c:93-103 | No other contract has the same text if and only if neither wire type nor hash holds `;schema=sha256-128:` |
| ValueContract.TextIsInjective | zephyr/src/csyn_zenoh.c:93-103 | Media type, wire type and hash can be read off the text among contracts whose wire types do not hold the separator |
| ValueContract.AcceptanceIsUnambiguous | zephyr/src/csyn_zenoh.c:130-147 | No received text is accepted for two different contracts whose wire types do not hold the separator |
| ValueContract.AcceptedForNoOther | zephyr/src/csyn_zenoh.c:130-147 | What is accepted for a contract is accepted for no other one if and only if neither its wire type nor its hash holds the separator |
| ValueContract.SeparatorIsAmbiguous | zephyr/src/csyn_zenoh.c:101-102 | With the separator in a wire type, one text is two contracts |
| ValueContract.RustAcceptsAnyWrapping | rust/src/types.rs:64-78 | Rust accepts a contract's text behind any wrapping in which no media type begins, and nothing else |
| ValueContract.SidesAgree | rust/src/types.rs:70-73 | Every spelling C accepts resolves on the Rust side to the same contract |
| Throttles.WarningsAreSpaced | zephyr/src/csyn_zenoh.c:175-183 | Any two warnings of a topic are at least 10000 ms apart for any rejection times, and the zero sentinel never returns |
| Throttles.WarnedExactlyWhenDue | zephyr/src/csyn_zenoh.c:175-183 | A rejection is warned about if and only if no warning before it is less than 10000 ms old |
| Throttles.EveryRejectionIsCovered | zephyr/src/csyn_zenoh.c:175-183 | Every rejection is warned about, or comes less than 10000 ms after a warning given before it |
| Throttles.TopicGate.SampleContractMatches | zephyr/src/csyn_zenoh.c:162-186 | A sample matches by the three spellings; a mismatch is warned about if and only if no warning of the topic is less than 10000 ms old |
| Throttles.PruningIsHarmless | rust/src/contract_warning.rs:15-21 | Evicting old entries of every key does not change the decision |
| Throttles.PrunedEqualsUnpruned | rust/src/contract_warning.rs:13-25 | Under a nondecreasing clock the pruning throttle warns exactly as the rule without pruning |
| Throttles.ContractWarningThrottle.Warn | rust/src/contract_warning.rs:13-25 | Emits if and only if that key had no warning in the last ten seconds |
| FixedWrapper.Wrap | rust/src/types.rs:159-176 | Appending piece by piece gives the layout, or the error above 65531 bytes |
| FixedWrapper.UnwrapInvertsLayout | rust/src/types.rs:178-201 | A message unwraps to a payload if and only if it is that payload's layout |
| FixedWrapper.UnwrapOfWrap | rust/src/types.rs:159-201 | Unwrapping undoes wrapping for every payload that can be wrapped |
| FixedWrapper.UnwrapAcceptsOnlyWraps | rust/src/types.rs:178-201 | Unwrapping accepts only what wrapping makes if and only if the size is at most 65531 |
| FixedWrapper.TableReachesStruct | rust/src/types.rs:159-176 | Root offset, signed vtable offset and slot 4 of the wrapper lead to the struct at byte 8, in bounds |
| FixedWrapper.TimestampsAgree | rust/src/types.rs:121-142 | The table branch reads from the wrapper the timestamp that the fixed branch reads from the payload |
| AdminKeys.JoinOfSplit | rust/src/graph.rs:506-519 | Joining the split parts of a key gives the key |
| AdminKeys.ParseInvertsKey | rust/src/graph.rs:502-529 | A key parses to an entity if and only if it is that entity's key, with slash-free zid, mode and kind and any non-empty expression |
| AdminKeys.EntitiesMatchKeys | rust/src/graph.rs:502-529 | The parsed entities are exactly those whose keys are present; distinct keys give distinct entities |
| TrafficWindow.PopOldIsFilter | rust/src/graph.rs:292-297 | On sorted times, popping from the front is filtering |
| TrafficWindow.WindowIsFilterOfHistory | rust/src/graph.rs:270-298 | For every nondecreasing history: recent is the history filtered to the last 5000 ms, messages and bytes its count and sum, root type the first named |
| GraphState.Observe | rust/src/graph.rs:285-297 | The in-place update of one entry is one step of that history |
| GraphState.GraphState.ObserveTopic | rust/src/graph.rs:270-298 | An observation extends its topic's history and no other; every entry stays what its whole history makes of it |
| GraphState.GraphState.TakeSnapshot | rust/src/graph.rs:301-435 | Every observed topic shows its whole history, as a node (counters, rate, staleness) and as a row (also its age, root type and last size); the graph is sound; the server's own fields are passed on |
| GraphState.GraphState.BuildGraph | rust/src/graph.rs:301-409 | Filling nodes and links in place gives the graph that the snapshot lemmas are about |
| GraphState.SnapshotShows | rust/src/graph.rs:320-347 | A topic's node has its id, label and root type, and the count, sum, rate and staleness of its whole history, whatever the admin entries say |
| GraphState.Builder.InsertTopics | rust/src/graph.rs:320-347 | The loop over observed topics, in place, is the fold over them |
| GraphState.Builder.InsertZids | rust/src/graph.rs:558-592 | One list of zids in place; entries that are not strings are skipped |
| GraphState.Builder.InsertSessions | rust/src/graph.rs:609-641 | The sessions of a router in place; entries without a peer are skipped |
| GraphState.Builder.AddAdminTopology | rust/src/graph.rs:531-643 | All payloads in place; what does not parse to an object is skipped |
| GraphState.Builder.InsertEntities | rust/src/graph.rs:351-409 | The loop over declared entities, in place, is the fold over them |
| Strings.HeadIsCut | rust/src/graph.rs:699-705 | The head of at most so many UTF-8 bytes is the text cut at that byte, wherever a character ends there |
| Graph.SnapshotIsSound | rust/src/graph.rs:301-409 | For every topic table and admin entries: each node stored under its own id, with the kind and label that belong to it, and each link between nodes of the snapshot |
| Graph.AdminIdsTellApart | rust/src/graph.rs:665-674 | Router, peer and client ids tell mode and zid apart; all other modes share one id for a zid |
| Graph.EntityIdsTellApart | rust/src/graph.rs:360-365 | Entities of colon-free kind and zid share an id exactly when kind, zid and the underscored expression agree |
| Graph.SessionDetailParts | rust/src/graph.rs:616-630 | A session's detail holds its region and its links, or the peer when it has neither |
| Graph.EveryLinkIsRendered | rust/src/graph.rs:680-697 | The rendered links are exactly those that name both their ends |
| Graph.DecimalMeansNumber | rust/src/graph.rs:342 | The digits of a traffic link's label mean the message count |
| Graph.ObservedTopicsKeepCounters | rust/src/graph.rs:320-409 | An observed topic's node survives admin entries and declarations naming the same topic |
| GraphContents.SnapshotIsExact | rust/src/graph.rs:301-409 | The node ids are exactly the transport, the observed topics and what payloads and entities name; the links exactly the traffic, session and declaration links, in that order |
| GraphContents.DeclarationLinksAreExact | rust/src/graph.rs:383-408 | Publisher links go exactly from declared publishers to their topics, subscriber links from topics to their subscribers |
| GraphContents.AdminLinksAreExact | rust/src/graph.rs:377-382 | Admin links are exactly those from a declared entity's router to the entity, and the reported sessions' |
| Attitude.TermsAreFullAngleProducts | zephyr/src/csyn_codec.c:23-56 | For half angles on the unit circle the quaternion has norm 1 and the five terms are the products of the full angles' sines and cosines |
| Attitude.ClampNeverBinds | zephyr/src/csyn_codec.c:46-55 | For every unit quaternion the sine of pitch is within -1 and 1, and the roll and yaw vectors both have the length of the cosine of pitch |
| Attitude.EulerRoundTrip | zephyr/src/csyn_codec.c:23-56 | Converting to a quaternion and back gives the same three directions if and only if pitch is strictly within a quarter turn, or exactly a quarter turn with roll and yaw zero |

## Left out

- More than one publisher on a topic, and weakly ordered memory: outside the store's design.
- NULL arguments, and lookups by name (`csyn_topic_find`, `csyn_topic_at`): they add only easy members.
- Sockets, Zenoh sessions and declarations, HTTP serving, the command line, logging and shell formatting: plumbing over
  libraries that are not part of this model. The results they return are parameters.
- Queryables and command contracts, key expressions with namespaces, and `input_handler`: the last is the mocap handler
  without arbitration.
- The receive loop of `rx_drain` around one datagram, and its once-only log messages.
- The size tests the zros consumers make after `copy_csyn_topic`, and their message conversions.
- NativeUdp.TxTopicIfUpdated: runs between publishes; the interleaved poll is Pollers, one topic at a time, since topics
  share no memory.
- Transports.PollTopics: models the topic list as fixed during a pass, as the registry is.
- TopicStore.Topic.Copy: its loop never retries, because nothing runs beside it; retries are in StoreProtocol.
- Mocap.Arbiter.Handle: one topic for each counter; the original counter is one static variable, used with one mocap topic.
- FixedWrapper.UnwrapInvertsLayout: models the negation of an `i32` as wrapping; a build with overflow checks panics at the
  one value that overflows.
- GraphState.GraphState.ObserveTopic: counters are unbounded where the original's are 64 bits wide.
- GraphState.GraphState.TakeSnapshot: nodes are a map, so their order in the reply is not modelled.
- Graph.SnapshotIsSound: covers the inputs on which the original returns. `shorten` cuts a label at byte 8 and panics if a
  zid longer than 8 bytes has a character reaching across that byte; the snapshot is then lost with its lock held.
- Graph.ObservedTopicsKeepCounters: says nothing of the displayed rate falling after traffic stops; the original prunes
  only on observation.
- GraphContents.SnapshotIsExact: speaks of node ids; two entities whose expressions differ only in `/` and `_` share one.
- `synapse_fbs`, flatcc and zros internals, the MCAP bag, the FlatBuffers verifier: libraries that are not part of this model.
- Attitude.EulerRoundTrip: real arithmetic; rounding, NaN and signed zeros of the C functions are not modelled, and the angle
  of a zero vector is taken as zero.
- Payload decoders and PWM scaling in `zephyr/src/csyn_codec.c`, and the browser side of the graph: easy or sensitive to rounding.
