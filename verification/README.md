# A verified model of the vmnet-broker lifecycle

vmnet-broker hands out virtual networks to the processes ("peers") that run virtual machines. Peers
ask for a network by name over XPC and share one network per name. A network lives while any peer
holds it, and for an idle period after that; the broker itself ends after an idle period without
peers, or on a signal when there are none. Everything happens on one queue, one event at a time.

The project has three layers.

- **The machine** (`Types`, `Leases`): a small specification. Its state says which names each peer
  leases, in the order of acquisition, which networks exist with the removal deadline of those nobody
  leases, the clock and the deadline of the broker. `Step` says what each event does to it: a
  connection, a request, a disconnection, a removal timer, the broker's timer, a signal, a listener
  failure, time passing. There are no reference counts, pointers or timers in it. A disconnection
  drops the leases of the peer last first, each after a reading of the clock, as the code does;
  `Invariants.Released` is its effect without any order, and `Draining.SlotOrderIsImmaterial` says
  that the order shows in nothing but the clock and the deadlines.
- **Its properties** (`Invariants`, `Counting`, `Runs`, `Lifetimes`, `Draining`, `Capacity`,
  `Resources`, `Answers`, `Protocol`, `Figures`): an inductive invariant; what holds over whole runs
  about grace periods, locks, identity of networks, shutdown and termination; what is sent, in what
  order; what must be held from the system in each state; what a client makes of the replies; the
  interface in figures.
- **The program** (`Runtime`, `Config`, `Networks`, `Broker`, `Client`, `Safety`): classes with the
  fields of the C structures, and methods with the branches, loops and order of calls of the C
  functions. Contexts hold an eight-slot array of pointers, networks count their peers, the registry
  owns the networks and frees them, timers capture pointers. `Broker.Serve` proves that this program,
  given any list of events that can happen, follows the machine event by event and sends exactly the
  machine's replies. `Safety` then says what that means for its memory: no used slot and no armed
  timer points to a freed network, every count is exact, every resource is held exactly once.

The program runs on `Runtime.System`, which stands for memory, XPC, vmnet, timers, the clock and
process exit. It keeps a ledger of everything held. Each release requires that the thing is held, so
releasing twice would not verify; `Balanced` says that between two events the ledger is what the state
calls for, so losing something would not verify either. Calls that may fail (`calloc`, `strdup`,
the vmnet calls, `inet_pton`) fail or succeed as a parameter of the event says (`Types.Faults`), and every
theorem holds for all of them. The methods take the state of the machine as a ghost parameter. The
assertions of the C code that no timer is running are preconditions of `RemoveLater` and
`ShutdownLater`, proved at every call.

Some C functions are split into several methods (`AcquireNetwork` uses `FindOrRegister`,
`RegisterNew` and `TakeNetwork`, for instance); the order of effects is that of the source.

The environment is assumed to behave as XPC and dispatch document it: the events of a connection come
after its creation and before its invalidation, which comes once (`Leases.Enabled`); a timer
does not fire before its deadline or after it was cancelled; nothing happens after exit. Time may pass
before each reading of the clock (`ticks` and `last` of `Disconnect`). The configuration table is
arbitrary, so that the limit of eight networks for each peer can be reached; the two builtin networks
are a special case in `Capacity`.

Where the documentation and the code differ, the model follows the code:

- include/broker-network.h:18-20 says that a network is deleted when no peers use it. The code waits
  for the idle timeout (`Lifetimes.ShortVisit`, `Lifetimes.DestructionIsSafe`).
- include/broker-network.h:13 says that acquiring increments the peer count. Acquiring a network
  that the peer already owns does not (`Invariants.ReacquireIsIdempotent`).
- docs/protocol.md:77 lists the code 3 (not allowed). The broker never sends it (`Protocol.OneReply`).

Three plausible promises are false of the code, and the exact conditions are proved instead. The end
of the process counts as the end of every network it made, as README.md:19-20 of the repository says.

- The grace period is not kept against a termination signal, nor against a failure of the listener,
  which ends the process at once (`Lifetimes.ExitCutsGrace` gives the runs). The grace period of a
  network has passed if and only if its deadline has (`Lifetimes.GraceIffExpired`), and the end of a
  network cuts it short if and only if it is brought about by one of these two before the deadline
  (`Lifetimes.DestructionIsSafe`).
- The lock that include/vmnet-broker.h:57-59 promises does not survive a failure of the listener
  (`Lifetimes.ListenerBreaksLock`). While its peer is connected it survives everything else
  (`Lifetimes.LockHoldsIff`).
- The client does not report every nonzero error code: it tests the low 32 bits only
  (`Protocol.TruncationHidesErrors` gives a reply, `Protocol.DecodeIsConsistent` and
  `Protocol.ErrorRoundTripIff` the conditions). The broker sends no such code.

## Model

| member | source | states |
|---|---|---|
| Broker.Broker.Serve | broker/xpc.c:124-157 | refinement: for every list of possible events the program, with its counters, slot arrays, registry and timers, ends in a heap that represents the state the machine ends in, and has sent exactly the machine's replies in order |
| Answers.RepliesInOrder | broker/broker.c:33-66 | what those replies are: one message for each request with a return address and no other; the reply to a request stands after exactly as many messages as there were such requests before it, goes to the peer that asked, and is the answer in the state the request finds |
| Answers.EveryReply | broker/broker.c:33-66 | every message sent is the reply to such a request |
| Answers.RunReplies | broker/broker.c:33-66 | the same over a run, in terms of its states |
| Broker.Broker.HandleEvent | broker/xpc.c:41-62 | the same for one event of any kind, from any heap that represents any state |
| Broker.StartAndServe | broker/broker.c:187-204 | the same from start-up |
| Broker.Broker.constructor | broker/broker.c:28-31 | a broker that has just started represents the initial state |
| Broker.Broker.HandleConnection | broker/xpc.c:29-39 | a new connection gets a fresh context and array of its own, and the heap then represents the state after the connection |
| Broker.Broker.MakeContext | broker/xpc.c:16-27 | the new context stands for a peer without leases and shares nothing with the contexts of other peers |
| Broker.Broker.OnPeerConnect | broker/broker.c:99-121 | only the first peer begins a transaction and cancels a pending shutdown; ledger and state change accordingly |
| Broker.Broker.OnPeerDisconnect | broker/broker.c:123-139 | all leases of the peer are dropped; if it was the last one the transaction ends and the idle shutdown is armed; the heap represents the state after the disconnection |
| Broker.Broker.EndSession | broker/broker.c:130-138 | at zero connected peers the transaction is traded for the shutdown timer, otherwise nothing changes; the assertion of `shutdown_later` cannot fail |
| Broker.Broker.OnPeerRequest | broker/broker.c:33-66 | missing or unknown command and missing name are answered with code 4; a good request has the effect and the answer of the machine; no reply or serialization stays retained |
| Broker.Broker.AcquireNetwork | broker/network.c:320-356 | returns the serialization the machine grants, or nothing and the machine's error code; leases, counts, timer and registry move to the state after the acquire; resources change by the network made, the timer stopped and one retain for the caller |
| Broker.Broker.RegisterNew | broker/network.c:327-347 | a network is registered exactly when the machine grants the request, so never for a peer that has no free slot; on failure nothing stays held |
| Broker.Broker.FindOrRegister | broker/network.c:323-347 | afterwards the name has its network, which is the registered one if there was one and fresh otherwise, or the request fails with the registry unchanged |
| Broker.Broker.TakeNetwork | broker/network.c:349-355 | the peer is refused only if it neither has the network nor a free slot; otherwise it holds the network, whose removal is no longer scheduled |
| Broker.Broker.PeerOwnsNetwork | broker/network.c:267-275 | the pointer search over the used slots finds the network exactly when the peer leases its name |
| Broker.Broker.CanAddNetworkToPeer | broker/network.c:278-291 | refuses with code 7 exactly when all eight slots are used |
| Broker.Broker.UpdatePeerOwnership | broker/network.c:295-316 | succeeds exactly when the peer has the network or a free slot; the slot array and the count stay in step with the leases |
| Broker.Broker.CancelRemoveLater | broker/network.c:254-262 | stops a scheduled removal if there is one, once; the network has no deadline afterwards |
| Broker.Broker.RemoveLater | broker/network.c:209-251 | given that none is running, arms a timer that captures this very network, with the full timeout from now |
| Broker.Broker.ReleasePeerNetworks | broker/network.c:358-374 | the loop drops every lease of the peer, last first, and schedules removal exactly for the networks that lose their last peer |
| Broker.Broker.OnNetworkTimer | broker/network.c:241-248 | whichever timer fires, the network it captured is not freed and is the registry's value under its own name; that entry alone is removed and that network freed |
| Broker.Broker.RegistryRemove | broker/network.c:199-205 | the entry goes and its network is freed with all it holds; every other network and every slot is as before |
| Broker.Broker.RegistrySet | broker/network.c:191-197 | a complete network without owner is filed under a free name; other entries and all slots stay in step |
| Broker.Broker.RegistryGet | broker/network.c:182-189 | a name is found exactly when the machine has a network for it; what is found is that network, not freed, complete, under its own name, with its exact count and timer |
| Broker.Broker.InitRegistry | broker/network.c:164-170 | creates the registry once and loses no entry |
| Broker.Broker.ReleaseRegistry | broker/network.c:172-180 | frees every registered network exactly once, in whatever order, with its timer, and then the registry |
| Broker.Broker.ShutdownNetworks | broker/network.c:377-379 | without peers, frees every network and leaves no timer armed |
| Broker.Broker.OnIdleTimeout | broker/broker.c:90-94 | frees all networks and exits with success |
| Broker.Broker.OnSignal | broker/broker.c:164-181 | with connected peers nothing happens; without, all networks are freed and the broker exits with success |
| Broker.Broker.ShutdownLater | broker/broker.c:68-97 | given that no shutdown is scheduled, schedules one with the full timeout |
| Broker.Broker.HandleOther | broker/xpc.c:138-146 | a listener failure ends the process with failure; other connection errors change nothing |
| Broker.Broker.SendXpcError | broker/xpc.c:79-93 | one reply with the code to the requesting peer if the message can be answered, none otherwise; nothing stays held |
| Broker.Broker.SendXpcNetwork | broker/xpc.c:95-111 | the same with the serialization, whose retain count is as before |
| Broker.Broker.CreateReply | broker/xpc.c:67-77 | there is a reply to fill in exactly when the message has a return address |
| Networks.FreeNetwork | broker/network.c:35-66 | gives back exactly what the fields of a network hold, also for a half built one and for null, and disarms its timer |
| Networks.CreateNetwork | broker/network.c:68-140 | a complete network in the mode of the configuration if and only if none of its four calls fails; on failure code 6 and nothing held |
| Networks.ConfigureNetwork | broker/network.c:332-344 | the configuration is released on every path; the error tells an unknown name from a failure to create |
| Config.FindNetworkConfig | broker/config.c:50-63 | the linear search finds the entry of the table for the name; the error is written only if there is none |
| Config.CreateVmnetConfiguration | broker/config.c:65-147 | a configuration, in the mode of the entry, is held afterwards if and only if it could be created and, for an entry with subnet and mask, both could be parsed and applied; otherwise code 6 and nothing held |
| Config.CreateNetworkConfiguration | broker/config.c:149-158 | not-found comes before create-failure; on failure nothing is held |
| Types.Find | broker/config.c:39-48 | the entry for a name is in the table and has the name; there is none only if no entry has it |
| Types.FindIsFirst | broker/config.c:53-57 | it is the first entry with the name |
| Safety.NoDanglingSlot | broker/network.c:267-275 | every used slot of every open connection points to a network that is not freed and is the registry's value under its own name; the used slots differ pairwise |
| Safety.NoDanglingTimer | broker/network.c:241-248 | every armed timer captured a network that is not freed, registered under its own name and without owners |
| Safety.CountsAreExact | broker/network.c:295-316 | the count of each registered network is the number of open connections with the network in a used slot; its timer is armed if and only if the count is zero; the count lies between zero and the number of connected peers |
| Safety.CountsBalance | broker/network.c:358-374 | summed over the registry the counts equal the number of used slots summed over the connections |
| Safety.SameNameSameObject | broker/network.c:325-349 | two used slots, of any peers, name the same network if and only if they point to the same object |
| Safety.ModesAreConfigured | broker/config.c:71-73 | every registered network was made in the mode of the first entry for its name |
| Safety.BuiltinModes | broker/config.c:39-48 | with the builtin networks "shared" is made in shared mode and "host" in host mode |
| Safety.SessionIsExact | broker/broker.c:99-139 | the connection counter is the number of open connections; a transaction is held exactly while it is positive; the broker timer runs exactly when it is zero after a first connection, and then every network has a deadline no later than the broker's |
| Safety.LedgerIsExact | broker/network.c:35-66 | nothing is held twice; the references, structures, names and serializations held are those of the registered networks, the timers those of the networks with count zero; the registry table is held while there is one; no configuration or reply is left over |
| Safety.ExitFreesEverything | broker/network.c:172-180 | after a successful exit no connection, network or removal timer is left and nothing is held but the source of the broker's timer |
| Invariants.StepKeepsOk | broker/broker.c:99-139 | the whole-machine invariant is inductive: no event breaks it in any state that satisfies it |
| Invariants.AcquireOutcome | broker/network.c:278-356 | complete outcome, by the external calls that fail: granted if and only if already leased, or a slot is free and the name is registered, or is configured and no call that matters for its entry fails; the code is the first that applies of capacity, not-found, create-failure |
| Invariants.AcquireEffect | broker/network.c:320-356 | a failed acquire changes nothing except that the empty registry may be created, and its code is never zero; a granted one appends one lease unless it is there, removes the deadline of one network, which is the registered one or a new one, and touches nothing else |
| Invariants.ReacquireIsIdempotent | broker/network.c:298-300 | acquiring an owned network again succeeds at full capacity and under any fault, returns the same network and changes nothing |
| Invariants.ReleaseEffect | broker/network.c:358-374 | releasing a peer removes its leases and nobody else's, keeps every network, and gives a fresh deadline exactly to the names it was the last to hold |
| Counting.DoubleCounting | broker/network.c:295-316 | leases counted by peer and by network agree for any duplicate-free lease relation |
| Counting.LeasesBalance | broker/network.c:358-374 | so they agree in every state with the invariant |
| Resources.RemoveDue | broker/network.c:154-157 | removing a network releases its reference, serialization, timer, name and memory once each and nothing else |
| Resources.AcquireDue | broker/network.c:320-356 | apart from the caller's retain, what an acquire takes and gives back is what the state after it calls for |
| Resources.DropDue | broker/network.c:360-373 | dropping a lease takes a timer exactly when it was the last lease of the name |
| Resources.NothingLeftAfterExit | broker/broker.c:90-94 | the state after a successful exit calls for nothing but the source of the broker's timer |
| Runs.ReachableOk | broker/broker.c:99-139 | every state of every run satisfies the invariant |
| Runs.EventsAreRuns | broker/xpc.c:149-155 | the event lists the program can be given are exactly those of the runs, with the same final states |
| Runs.SlotsAreFirstGrants | broker/network.c:306-307 | in every reachable state the used slots of a peer are, in order, the distinct names granted since it connected |
| Runs.FirstUsesMeaning | broker/network.c:298-307 | what "distinct, in order of first grant" means |
| Lifetimes.ReleaseDeadline | broker/network.c:359-372 | a name nobody leases after the release of a peer expires exactly the timeout after the moment, within the loop, at which the peer gave it up |
| Lifetimes.DeadlineIsFromLastRelease | broker/network.c:230-239 | over a whole run, the deadline of an idle network is exactly the timeout after the last moment anybody leased it |
| Lifetimes.GraceIffExpired | broker/network.c:230-239 | nobody leased a network at any moment of the last timeout, within or between events, if and only if its deadline has passed |
| Lifetimes.StepDestroysIff | broker/network.c:241-248 | a living network ends with its own timer, the idle shutdown, a signal without peers or a failure of the listener, and with nothing else; the end of the process is the end of the network |
| Lifetimes.DestructionIsSafe | broker/broker.c:90-94 | only a failure of the listener ends a network that somebody leases; the end of a network cuts its grace period if and only if a signal or a failure of the listener brings it about before the deadline |
| Lifetimes.ShortVisit | broker/network.c:370-372 | a run in which the last peer has left and the network is still alive |
| Lifetimes.ExitCutsGrace | broker/broker.c:177-179 | runs in which a signal, or a failure of the listener (broker/xpc.c:140-146), ends a network in the second its last peer left |
| Runs.SameNetworkIff | broker/network.c:325-355 | two grants of a name, to any peers, hand out the same network if and only if it existed at every moment in between |
| Lifetimes.LockSurvivesIff | broker/xpc.c:138-146 | an event other than the disconnection of its peer leaves a lock in place if and only if it is not a failure of the listener |
| Lifetimes.LockHoldsIff | include/vmnet-broker.h:57-59 | from a grant until the peer disconnects, the broker runs, the peer leases the name and the network it was told about is alive without a deadline, if and only if the last event was not a failure of the listener |
| Lifetimes.ListenerBreaksLock | broker/xpc.c:138-146 | a run in which a failure of the listener ends a network that a connected peer leases |
| Runs.ExitIsSafe | broker/broker.c:90-94 | nothing follows an exit; a successful one has no peers and no networks and comes from a signal, or from the timer after a full timeout without peers; a failed one comes from the listener |
| Runs.TimerIsFromLastDisconnect | broker/broker.c:81-88 | the shutdown deadline is the timeout counted from the disconnection of the last peer |
| Draining.CalmStepDrains | broker/network.c:358-374 | without connections and requests every disconnection and timer event lowers the potential twice the used slots plus three times the peers plus the armed timers, and no other event raises it |
| Draining.DrainingIsBounded | broker/network.c:358-374 | so the number of such events in any calm run is bounded by the potential at its start |
| Draining.DrainingEnds | broker/broker.c:123-139 | every list of events, in any order, after which no disconnection and no timer can happen any more has ended a broker that was used; without a failure of the listener it ended with success, without peers and networks |
| Draining.DrainingNeverStalls | broker/broker.c:123-139 | a broker that was used always has a disconnection possible, or its own timer after waiting |
| Draining.DrainingReachesExit | broker/broker.c:90-94 | from every such state disconnecting the peers and waiting leads to a successful exit without networks |
| Draining.DisconnectOrderIsImmaterial | broker/broker.c:123-139 | disconnecting the same peers in any two orders, at any pace, gives the same leases, networks, idle networks and shutdown state |
| Draining.SlotOrderIsImmaterial | broker/network.c:359-373 | so does emptying the slots of one peer in any order instead of last first |
| Capacity.LeasesFitTable | broker/network.c:267-304 | a peer holds at most as many networks as there are configured names |
| Capacity.CapacityIsReachableIff | broker/network.c:278-291 | some run refuses a request for lack of slots if and only if at least eight names are configured |
| Capacity.Builtins | broker/config.c:39-48 | the two builtin names and their entries |
| Capacity.BuiltinsAreServed | broker/config.c:50-63 | with the builtin networks and no failing call, "shared" and "host" are granted whenever a peer asks, and any other name gets not-found |
| Capacity.BuiltinsNeverFillAPeer | broker/config.c:39-48 | with the builtin networks no run refuses a request for lack of slots |
| Protocol.OneReply | broker/broker.c:33-66 | a request with a return address gets exactly one reply, to its sender, with either a network or one of the codes 4 to 7 and never both; no other event sends anything |
| Protocol.AnswerIsWellFormed | broker/xpc.c:79-111 | the same for the content of any answer; code 4 exactly for a missing or unknown command or a missing name |
| Protocol.EndToEnd | client/client.c:23-76 | the caller gets a serialization if and only if the broker leases it the name from then on, and it is that of the registered network; otherwise it gets no serialization and the exact code, and the broker is as before |
| Protocol.DecodeIsConsistent | client/client.c:44-67 | for any reply at all, success if and only if a serialization is returned, if and only if the reply is a dictionary with a network whose error code is zero in its low 32 bits |
| Protocol.NetworkRoundTrip | client/client.c:60-67 | a network reply is decoded to success and that serialization |
| Protocol.ErrorRoundTripIff | client/client.c:54-58 | an error reply is decoded to its own code if and only if the code is a nonzero 32-bit number |
| Protocol.TruncationHidesErrors | client/client.c:54-55 | a reply with a nonzero error code that the client takes for a success |
| Protocol.Narrow | client/client.c:54 | the conversion from 64 to 32 bits keeps the low half and changes exactly the numbers that do not fit |
| Clients.Client.ReadReply | client/client.c:40-75 | the status of every kind of reply: a connection error, another object, a dictionary with an error that is nonzero in 32 bits (its low half as a signed number, even beside a network), with a network, with neither; the reply is released and the caller owns one retain of the serialization it gets |
| Clients.Client.AcquireNetwork | client/client.c:23-76 | client and broker composed, with messages possibly lost and the broker possibly gone: the exact status and serialization, from the state the request finds, and the state the broker is in afterwards; the client is the same peer in every call and keeps nothing but its one connection |
| Clients.ReceivedIs | client/client.c:34-67 | that status is 1 without an answer, else success for a leased name, else that of the broker by capacity, registration, configuration and creation, in this order; the serialization is that of the registered or the new network |
| Clients.Client.ConnectToBroker | client/client.c:11-21 | one connection is created and kept, and with it the identity of the client as a peer |
| Clients.ReceivedServes | client/client.c:34-67 | whatever becomes of the messages, and whether the broker runs or has exited, what the client decodes agrees with the state the broker is in |
| Figures.AnswersInFigures | include/vmnet-broker.h:27-42 | every answer of the broker with its key and number: "error" 4, 5, 6 or 7, or "network" |
| Figures.StatusInFigures | include/vmnet-broker.h:27-42 | the numbers the client reports: 0, 1, 2 and the code of the broker |
| Figures.RequestsInFigures | broker/broker.c:34-57 | a request acts if and only if its command is "acquire" and it has a name |
| Figures.TimersInFigures | broker/broker.c:24 | the timer of an idle network may fire exactly from 120 seconds after the last moment anybody leased it |
| Figures.BrokerTimerInFigures | broker/broker.c:81-94 | the timer of the broker may fire exactly from 120 seconds after its last peer left |
| Figures.ExitsInFigures | broker/broker.c:164-181 | the process exits with 0 from its timer or a signal without peers, with 1 from a failure of the listener, and never else |
| Figures.TwoMinutes | broker/network.c:230-248 | a run in which "shared" is alive, with no timer able to end it, 119 seconds after its last lease, and ends by its timer at 120 |
| Clients.AskingAgain | client/client.c:26-28 | a client that was given a network and asks again is given the same one, whatever fails meanwhile, and the broker does not change |

## Left out

- XPC, dispatch, CoreFoundation and vmnet themselves: `Runtime.System` and the event list stand for them.
- `dispatch_source_create` returning null: the source aborts there by an assertion; the model always gets a timer.
- Timer leeway, power management and clock adjustments: a timer fires at its deadline or any time later.
- Loss of precision of real time: the clock counts whole seconds.
- Fixed width of the C counters: `peers`, `network_count` and `connected_peers` are unbounded here; `Safety.CountsAreExact` bounds a count by the number of connections, so a counter could only wrap with 2^31 of them.
- Encoding of strings: names and commands are compared as sequences of characters; failures inside CoreFoundation are not modelled.
- The bits of a subnet or mask: parsing and applying them only succeeds or fails.
- Identity of a network: its creation number stands for its address, its vmnet reference and its serialization.
- The `name` of a context and the contents of its unused slots: written but never read by the logic.
- The type of the value under the reply's network key: the client passes any object on, and so does the model.
- The client's optional status pointer and its event handler: the model always returns the status.
- Relaunch of an exited broker by launchd: the new process is another `Broker` in its initial state, which learns of the client's connection with its first message.
- Concurrent calls into the client library: the client function is one step here.
- Failure to start the listener (broker/broker.c:197-200): the model starts with a running listener.
- Log messages, `network_info`, `vmnet_strerror`, `vmnet_broker_strerror` and version strings: no state.
- The Go and Swift bindings, the test program, scripts, property lists and the configuration file format of docs/configuration.md.
