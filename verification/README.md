# IARM bus: a verified model of the D-Bus build

The IARM bus lets processes on a device send each other events and call each other's methods. This
project models its three layers and proves properties that span them.

- **The daemon** keeps a list of registered members, seven resource slots that point into that list,
  and the list of members to call before and after power, resolution and mode changes
  (`DaemonSpec.dfy`, `Daemon.dfy`).
- **The client library** keeps the lifecycle flags, a list of event handlers and the published calls
  (`Client.dfy`), above **the core** of the process: allocator, filter chain, event registry and
  component list (`Core.dfy`). The pure form of both is `EventSpec.dfy`; what a message runs is
  `Delivery.dfy`, and `Reentry.dfy` when handlers change the list meanwhile.
- **The wire**: byte layouts of allocator blocks, event records, calls and ownership requests
  (`Bytes.dfy`, `EventData.dfy`, `Rpc.dfy`, `Ownership.dfy`).
- **The whole system**: runs in which the daemon and its members take turns (`WholeSystem.dfy`).
- **Shutdown**: every interleaving of `IARM_Bus_Term` with the dispatch thread (`Shutdown.dfy`), and how it
  can end (`Fate.dfy`).

State that the program changes in place is a class whose methods are proved against a step function
on values; the statements about whole runs are lemmas about those functions, and the classes carry the
run as a ghost history. Whatever the outside world decides is an argument: the answer of a nested call,
whether libdbus takes a filter, whether a message or its reply arrives, what fresh memory holds.

Where the code and its comments differ the model follows the code:

- `IARM_Bus_Init` in a wrong state returns INVALID_STATE; its header says INVALID_PARAM.
- `IARM_Bus_RemoveEventHandler` returns INVALID_PARAM after a successful removal that leaves other
  handlers for the key (`EventSpec.RemoveReports` says exactly when).
- `IARM_IsCallRegistered` always answers yes, so a request for ownership is never stopped by it.
- A free resource requested by an unregistered member is "granted" to nobody (`DaemonSpec.GrantMeaning`,
  `DaemonSpec.UnregisteredGrant`). On a taken one such a request or release would follow a NULL pointer;
  `DaemonSpec.Defined` is exactly the absence of that, and is all that the handlers require.
  `WholeSystem.AskDefined` and `WholeSystem.NeverUndefined` say when that holds.
- A member may have a name of 63 characters, but a call to a name of more than 50 is not sent: such a
  member is never asked to yield and no broadcast reaches it (`DaemonSpec.NeverYields`,
  `WholeSystem.PublishedIsServed`).
- Shutting down can deadlock, and it can read freed memory. `IARM_Bus_Term` holds the library lock while it
  waits for the dispatch thread, whose callbacks may need the lock; and before it closes the connections
  it frees the handler list and the call contexts that the dispatch thread reads without the lock
  (`Fate.CanFinish`, `Fate.CanGoStale`).
- Handlers are listed by 64 characters of the owner's name and listeners by 63, so an event can run a
  handler twice (`Delivery.DoubleDelivery`); `Delivery.DeliveryTimes` says how often, for every run.
- The two listener levels agree exactly for owners of at most 63 characters and ids 0 to 127
  (`EventSpec.IndexAgreement`, `EventSpec.DomainIsExact`, `EventSpec.RemovalDomainIsExact`).
- The program cuts sizes to 32 bits, and libdbus refuses arrays over 64 MiB. Arguments and records arrive
  whole exactly when, with their header, they fit such an array; the 32-bit cut alone leaves them whole
  exactly when their size fits 32 bits (`Rpc.CalleeSeesArgument`, `EventData.RoundTrip`).
- A handler may remove handlers while an event is delivered, but not itself: the loop goes on from the
  entry that this frees (`Reentry.ReentrantFanOut`).

## Model

| member | source | states |
|---|---|---|
| DaemonSpec.OwnershipLedger | core/libIBusDaemon-dbus.c:134-307 | over every legal run a slot is owned by n iff some step granted it to n and no later step replaced, removed, released or yielded it |
| DaemonSpec.MutualExclusion | core/libIBusDaemon-dbus.c:219-265 | two members never hold the same resource in the history sense |
| DaemonSpec.OwnerStep | core/libIBusDaemon-dbus.c:159-307 | one step takes a slot from its owner iff it is one of the four losses, gives it iff it is a grant, and a yield was asked of the owner itself |
| DaemonSpec.GrantMeaning | core/libIBusDaemon-dbus.c:229-256 | after a success reply in any legal run the requestor holds the resource if its latest step was to register, and otherwise nobody does and nothing changed |
| DaemonSpec.UnregisteredGrant | core/libIBusDaemon-dbus.c:253-256 | the failing case: success is reported and nothing changes |
| DaemonSpec.RequestCodes | core/libIBusDaemon-dbus.c:219-265 | over legal histories: the code of a request and whom it asks, by who holds the resource; the owner's refusal is passed on, the holder itself is refused and nobody asked, and a refusal changes nothing |
| DaemonSpec.ReleaseCodes | core/libIBusDaemon-dbus.c:267-307 | the code of a release: success for the holder, otherwise which refusal, and then nothing changes |
| DaemonSpec.RegistrationCodes | core/libIBusDaemon-dbus.c:134-186 | registration and subscription succeed; removal succeeds iff the member is registered |
| DaemonSpec.NeverYields | core/libIBusDaemon-dbus.c:232-247 | an owner loses a resource to a request iff it can be addressed and agrees; one that cannot is never asked and the requestor gets INVALID_PARAM |
| DaemonSpec.LongNamesKeep | core/libIBusDaemon-dbus.c:232-247 | over every legal run a member with a name over 50 characters keeps what it was granted until it releases it, leaves or registers again |
| DaemonSpec.RegistrationHistory | core/libIBusDaemon-dbus.c:134-216 | a name is registered iff its latest step in the run was a registration |
| DaemonSpec.ReRegistration | core/libIBusDaemon-dbus.c:148-153 | registering again moves the member to the end with no resource and leaves everyone else's alone |
| DaemonSpec.RegistryOrder | core/libIBusDaemon-dbus.c:134-157 | over every run the registry lists members in the order of their latest registrations |
| DaemonSpec.RunSound | core/libIBusDaemon-dbus.c:50-53 | in every run names are distinct, owners are registered and subscriptions are not repeated |
| DaemonSpec.BroadcastExact | core/libIBusDaemon-dbus.c:309-489 | with library subscriptions a broadcast tries to call exactly the registered subscribers, once each, in registry order, and reaches those with names of at most 50 characters, in that order |
| DaemonSpec.BroadcastMembers | core/libIBusDaemon-dbus.c:318-330 | for any subscriptions: whom it tries to call, including the names that join to the same key |
| DaemonSpec.SubscriptionsGrow | core/libIBusDaemon-dbus.c:454-475 | the subscription list of a run extends that of each of its prefixes |
| Names.JoinExact | core/libIBusDaemon-dbus.c:320-323 | which owner and method pairs give the same key, for an underscore-free method looked up |
| Names.JoinInjective | core/libIBus-dbus.c:1131-1141 | among the library's methods the key determines owner and method |
| Names.JoinFits | core/libIBusDaemon-dbus.c:458-463 | two names, separator and terminator always fit the key buffer |
| Names.JoinCollides | core/libIBusDaemon-dbus.c:463 | a method with an underscore can produce another member's key |
| Names.MethodNames | core/libIBusDaemon-dbus.c:309-447 | which method each of the five broadcasts calls; no two call the same |
| Names.TargetExact | core/libIARM-dbus.c:494-512 | a call to a name is addressed to the member of that name iff it has at most 50 characters, and to nobody otherwise |
| Daemon.Daemon.RegisterMember | core/libIBusDaemon-dbus.c:134-157 | appends a new object, frees an old one of that name, keeps every slot pointing into the list |
| Daemon.Daemon.Remove | core/libIBusDaemon-dbus.c:159-186 | unlinks the object, clears exactly its slots, frees it; nothing dangles or leaks |
| Daemon.Daemon.RequestOwnership | core/libIBusDaemon-dbus.c:219-265 | every pointer read is live; reply, asked member and new state are the ledger's |
| Daemon.Daemon.ReleaseOwnership | core/libIBusDaemon-dbus.c:267-307 | reply and new state are the ledger's; the event goes out iff a slot was emptied |
| Daemon.Daemon.CheckRegistration | core/libIBusDaemon-dbus.c:188-216 | 1 iff the name's latest step was a registration |
| Daemon.Daemon.RegisterPreChange | core/libIBusDaemon-dbus.c:454-489 | records the joined key unless present |
| Daemon.Daemon.Broadcast | core/libIBusDaemon-dbus.c:309-447 | the members tried are the run's subscribers in order; what is sent goes to those with short names, with the request's two fields |
| Daemon.Daemon.OwnersAreGranted | core/libIBusDaemon-dbus.c:50-51 | each non-null slot points to a live listed object whose grant nothing has undone |
| EventSpec.IndexAgreement | core/libIBus-dbus.c:380-444 | over every run in the domain the core has a listener only for keys with handlers, and for all of them if no filter was refused |
| EventSpec.IndexCount | core/libIBus-dbus.c:387-510 | exactly one registry entry for a key with handlers and none otherwise |
| EventSpec.DomainIsExact | core/libIBus-dbus.c:51-55 | after any run in the domain, one more accepted registration leaves every key with its listener iff it is in the domain or joins handlers already listed |
| EventSpec.RemovalDomainIsExact | core/libIBus-dbus.c:423-457 | after any run in the domain, removing a key leaves every key with its listener iff it is in the domain or the core's key for it has no handlers |
| EventSpec.ForeignRemoval | core/libIARM-dbus.c:970-983 | the failing case: removing a longer owner takes the listener of the one its first 63 characters name |
| EventSpec.RunCoherent | core/libIARM-dbus.c:880-998 | in every run: registry and filter chain agree, one component per listener of each id, no handler listed twice, listener names under 64 characters |
| EventSpec.OtherNodesKept | core/libIARM-dbus.c:985-995 | listener traffic never adds or removes a call or event-source component |
| EventSpec.AddRefines | core/libIBus-dbus.c:371-404 | registration puts the handler first for its key or rejects a duplicate; other keys unchanged |
| EventSpec.RemoveRefines | core/libIBus-dbus.c:484-517 | removal deletes exactly that handler and keeps the order of all others |
| EventSpec.RemoveAllRefines | core/libIBus-dbus.c:431-449 | removing a key empties it and leaves every other key alone |
| EventSpec.RemoveReports | core/libIBus-dbus.c:488-510 | in covered states a removal returns success iff its handler was the key's only one, and INVALID_PARAM otherwise; the handler is gone |
| EventSpec.RemoveNothing | core/libIBus-dbus.c:482-523 | whatever the state and arguments, a removal of what is not listed, or of NULL, changes nothing and returns INVALID_PARAM |
| EventSpec.AddReports | core/libIBus-dbus.c:371-404 | every code of a registration with what it leaves: duplicate or NULL, further handler, first one with an accepted or refused filter or an id the core does not know |
| EventSpec.RemoveAllReports | core/libIARM-dbus.c:947-998 | removing a key returns success iff the core had its listener, and takes exactly one |
| EventSpec.PublishReports | core/libIARM-dbus.c:416-431 | publishing adds one component of its own name and one call at the end of the chain, or nothing |
| EventSpec.OthersReport | core/libIBus-dbus.c:380-446 | registration reports success iff new, removal of a key iff it had handlers |
| Delivery.SignalReachesAll | core/libIARM-dbus.c:228-307 | down any chain of filters a signal reaches every listener for its key, each of which fans out once |
| Delivery.DeliveryTimes | core/libIBus-dbus.c:1167-1197 | after any run at all an event runs the handlers of its record's key in list order, once for each registry entry with the signal's key |
| Delivery.DeliveryCounts | core/libIARM-dbus.c:228-307 | counted: each handler listed for the record's key is run as often as the registry has the signal's key, and nothing else is run |
| Delivery.OnceExactly | core/libIARM-dbus.c:908-914 | delivery is exactly once iff nobody handles the event or exactly one registry entry has its key |
| Delivery.DoubleDelivery | core/libIBus-dbus.c:324-338 | the failing case: a 63-character owner and a longer one that starts with it make one event run a handler twice |
| Delivery.ExactlyOnce | core/libIARM-dbus.c:228-307 | after any run in the domain with accepted filters an event runs each handler of its key exactly once, newest first, and no other |
| Delivery.AtMostOnce | core/libIARM-dbus.c:908-914 | in the domain, even with refused filters: once if the key has its listener, otherwise nothing |
| Delivery.BroadcastDelivers | core/libIBus-dbus.c:277-321 | a broadcast owner, id and data reach exactly the handlers of that owner and id, unchanged |
| Delivery.BroadcastTimes | core/libIBus-dbus.c:298-312 | for any owner: a broadcast reaches the handlers listed under its first 63 characters, once for each listener for its first 64 |
| Reentry.EditIsStep | core/libIBus-dbus.c:351-525 | a library call made by a handler during delivery changes the list as the same call made elsewhere does |
| Reentry.ReentrantFanOut | core/libIBus-dbus.c:1167-1197 | after any run, with handlers that change the list: the loop reads no freed node iff no handler removes its own entry; those run were listed, once each in order; a safe loop misses only those that a handler it ran unlisted; the list left is the one the same calls leave anyway |
| Reentry.QuietWalk | core/libIBus-dbus.c:1176-1194 | with handlers that leave the list alone this is the plain fan-out |
| Reentry.SelfRemoval | core/libIBus-dbus.c:434-443 | the failing case: a handler that removes the handlers of its own event |
| Delivery.RegisteredIsReached | core/libIBus-dbus.c:351-412 | after a first accepted registration a broadcast of that owner and id runs the handler iff they are in the domain |
| Delivery.CallRouting | core/libIARM-dbus.c:309-351 | a method call runs exactly the handler of the first publication under its name in the run, and without one nothing |
| Delivery.PublishedCalls | core/libIARM-dbus.c:416-428 | listener traffic never disturbs the published calls or their order |
| Delivery.OthersRunNothing | core/libIARM-dbus.c:252-351 | a message of another interface or with other arguments runs nothing |
| EventData.RoundTrip | core/libIBus-dbus.c:298-312 | a record that the program cut to 32 bits reads back as sent iff its size fits them; it is sent and reads back iff it fits an array of 64 MiB |
| Bytes.NameRoundTrip | core/libIBus-dbus.c:300-301 | a padded name buffer gives back the first 63 characters |
| Rpc.CalleeSeesArgument | core/libIARM-dbus.c:517-547 | the callee finds the length and the whole argument behind what the 32-bit count ships iff the size fits it; sent and whole iff it fits an array of 64 MiB |
| Rpc.RemoteIsLocal | core/libIARM-dbus.c:642-711 | the reply of the other process, down its whole filter chain, is the method of its first publication under the name applied to the argument, same length; without one there is none |
| Rpc.CallCodes | core/libIARM-dbus.c:471-591 | a call completes iff the name has at most 50 characters, header and argument fit 64 MiB, there is a method and its reply comes; and the code of every other call |
| Rpc.CallReaches | core/libIARM-dbus.c:309-341 | in the callee the call runs the first published handler on exactly the caller's block |
| Core.Core.Malloc | core/libIARM-dbus.c:141-183 | a new block with its size and type in the header, counted and live |
| Core.Core.Free | core/libIARM-dbus.c:197-226 | nothing for NULL; otherwise frees only a live block, once, and counts it |
| Core.Core.RegisterListner | core/libIARM-dbus.c:880-927 | the listener step on registry, chain and components, silent for invalid ids |
| Core.Core.UnRegisterListner | core/libIARM-dbus.c:947-998 | the unlisten step; exactly one component of that id is freed |
| Core.Core.RegisterCall | core/libIARM-dbus.c:372-434 | adds the call filter and its component, or neither if the filter is refused |
| Core.Core.CallWithTimeout | core/libIARM-dbus.c:471-622 | the same on a block, for every size and every name |
| Core.Core.Term | core/libIARM-dbus.c:1253-1301 | context freed, lists gone, components accounted as freed or left behind |
| Client.Client.Init | core/libIBus-dbus.c:102-141 | success gives an initialized, unconnected library with empty lists; failure changes no flag or list |
| Client.Client.Term | core/libIBus-dbus.c:143-196 | success restores the state before Init with every library block freed; in a wrong state nothing changes |
| Client.Client.Connect | core/libIBus-dbus.c:208-228 | connects exactly when initialized and not connected; asks the daemon to register unless it is the daemon |
| Client.Client.Disconnect | core/libIBus-dbus.c:239-260 | disconnects exactly when connected; asks the daemon to unregister unless it is the daemon |
| Client.Client.RegisterEventHandler | core/libIBus-dbus.c:351-412 | the registration step on both levels with its code; in a wrong state nothing changes |
| Client.Client.UnRegisterEventHandler | core/libIBus-dbus.c:423-457 | the remove-key step on both levels with its code |
| Client.Client.DropHandlers | core/libIBus-dbus.c:434-443 | deleting under the cursor ends, frees exactly the key's entries and keeps the others in order |
| Client.Client.RemoveEventHandler | core/libIBus-dbus.c:470-525 | the remove-one step on both levels with its code |
| Client.Client.EventHandlerFuncWrapper | core/libIBus-dbus.c:1167-1197 | the fan-out loop runs the handlers of the record's key in list order |
| Client.Client.RegisterCall | core/libIBus-dbus.c:588-631 | lists and publishes the call; announced to the daemon iff it is one of the five methods |
| Client.AnnouncedAreLibrary | core/libIBus-dbus.c:1123-1152 | the methods announced are exactly those that broadcasts look for |
| Client.Client.BroadcastEvent | core/libIBus-dbus.c:277-321 | the signal carries the packed record; the block is freed whatever happens |
| Client.Client.Call | core/libIBus-dbus.c:695-756 | connected, to a name of at most 50 characters, with an argument that fits 64 MiB and an answer: buffer and code are those of the first method published under the name in the other process; otherwise the code of the failure and the buffer unchanged; blocks balance |
| Client.Client.AskDaemon | core/libIBus-dbus.c:791-904 | through request bytes, the daemon's published methods, reply bytes and both result paths: a request returns success iff the answer comes through and the resource was unheld or yielded to a registered member, a release iff it comes through to the holder; every other code is the daemon's or the transport's |
| Client.Client.BlockConservation | core/libIARM-dbus.c:81-82 | between Init and Term the counters differ by 2 plus the three list lengths, plus what earlier terminations left |
| Client.Client.DeliveryNow | core/libIBus-dbus.c:1167-1197 | in any state the library is in, how often an event runs its handlers, and when that is once |
| Ownership.HandlerOnRequest | core/libIBus-dbus.c:821-833 | the daemon reads from the record what the client wrote, and its result can be read back |
| Ownership.DaemonMethods | core/libIBusDaemon-dbus.c:83-95 | whatever the daemon does after its start, calls of the two ownership methods run its two handlers |
| Ownership.ClientReads | core/libIBus-dbus.c:833-837 | through the call's code and the record's result field the client reads exactly the outcome |
| Ownership.OutcomeCodes | core/libIBus-dbus.c:833-850 | the client gets the daemon's code if its answer comes through, and otherwise the transport's |
| Ownership.GrantEndToEnd | core/libIBus-dbus.c:833-837 | after any legal history, for any member: success iff the answer came through and the resource was free or a registered client's request was yielded to; then every earlier holder was asked and agreed and the grant is the latest and only one, except that an unregistered client holds nothing |
| Ownership.ReleaseEndToEnd | core/libIBus-dbus.c:888-892 | for any member, a release succeeds iff the history's holder is the member, and then nobody holds the resource |
| Ownership.FailureMeaning | core/libIARM-dbus.c:558-591 | a failed call left the daemon unchanged iff no reply went missing, the daemon refused, or the member is unregistered |
| Ownership.LostGrant | core/libIARM-dbus.c:559-570 | a registered member that asks for a free resource owns it iff the request arrived, even when a missing reply told it otherwise |
| WholeSystem.EnrolledIsRegistered | core/libIBus-dbus.c:1077-1113 | over every run, with messages lost and processes dying: a member is registered iff its last arrived connection has not been followed by an arrived disconnection |
| WholeSystem.ConnectedIsRegistered | core/libIBus-dbus.c:208-228 | while no registration is lost every connected member is registered |
| WholeSystem.AskDefined | core/libIBusDaemon-dbus.c:229-241 | an ownership call that arrives makes the daemon follow no NULL pointer iff its member is enrolled or nobody holds the resource |
| WholeSystem.NeverUndefined | core/libIBusDaemon-dbus.c:280-284 | in a run that loses no registration and where the daemon does not ask itself, it follows none |
| WholeSystem.LostRegistration | core/libIBus-dbus.c:216-218 | after any run a lost registration, or the daemon asking itself, makes it follow one when somebody holds the resource |
| WholeSystem.AskHolds | core/libIBusDaemon-dbus.c:219-307 | an ownership call that arrives: a request of an enrolled member for an unheld or yielded resource makes it the holder, a release by the holder leaves nobody holding, a refused one changes nothing |
| WholeSystem.OtherStepsKeep | core/libIBus-dbus.c:588-631 | a step whose message is lost, or that sends none, changes nothing at the daemon |
| WholeSystem.ConnectedMeans | core/libIBus-dbus.c:208-260 | in a run a member is connected iff it connected and has not disconnected, started anew or ended since |
| WholeSystem.WhatIsAllowed | core/libIBus-dbus.c:102-260 | which calls the library takes in which state, and the state they lead to |
| WholeSystem.MemberGoesOn | core/libIBus-dbus.c:371-449 | each call in a process is the next step of its lists; a start or an end empties them |
| WholeSystem.BroadcastCalls | core/libIBusDaemon-dbus.c:309-447 | over every run of daemon and members a broadcast tries to call exactly the enrolled members whose announcement ever arrived, once each, and reaches those with names of at most 50 characters |
| WholeSystem.OneBroadcast | core/libIBusDaemon-dbus.c:309-447 | a member that announced one of the five methods and no other is called by its broadcast and no other |
| WholeSystem.CallServed | core/libIARM-dbus.c:309-341 | in a member a call runs exactly the handler of the first publication of the method since which the process has gone on, on the caller's block; without one, nothing |
| WholeSystem.PublishedIsServed | core/libIBus-dbus.c:588-631 | an enrolled member that published and announced a pre-change method and has gone on since is reached once iff its name has at most 50 characters, and the call then runs one handler |
| WholeSystem.CalledInVain | core/libIBusDaemon-dbus.c:454-489 | subscriptions are never dropped: a member that starts anew and connects is called and runs nothing |
| WholeSystem.EndedIsCalled | core/libIBusDaemon-dbus.c:318-330 | a member that died, or whose disconnection was lost before it terminated, is still called and runs nothing |
| Shutdown.DestroyedOnlyAfterLastAccess | core/libIARM-dbus.c:1000-1013 | in every interleaving mutex, condition and context exist until the dispatch thread's last access |
| Shutdown.NoLostWakeup | core/libIARM-dbus.c:1287-1290 | once the exit bit is set and signalled Term neither sleeps nor goes to sleep |
| Shutdown.BoundedSteps | core/libIARM-dbus.c:1266-1299 | both threads take at most 20 steps, plus two a spurious wake-up and what each message's callbacks and their library calls take |
| Shutdown.Surroundings | core/libIARM-dbus.c:1287-1290 | spurious wake-ups, arriving messages and the loss of the bus are possible whenever the state allows, and do nothing else |
| Shutdown.NeverStuck | core/libIBus-dbus.c:143-196 | off the dispatch thread, short of a stale read, neither thread can move iff both are through or Term sleeps, holding the library lock, while a callback waits for that lock |
| Fate.DeadlockRun | core/libIBusDaemon-dbus.c:286-294 | the failing case: a method that calls the library, as releasing a resource does, has begun when Term takes the lock |
| Fate.FateIsSealed | core/libIARM-dbus.c:1268-1273 | once Term has closed the connections its end is settled: if it can complete, no deadlock and no stale read can come, and if it cannot, nothing saves it |
| Fate.SelfTermNeverFinishes | core/libIARM-dbus.c:1287-1290 | called on the dispatch thread Term never finishes and ends up waiting for itself |
| Fate.CanFinish | core/libIBus-dbus.c:143-196 | from a point of a run Term can complete without a stale read iff it is off the dispatch thread and, if it holds the library lock, the callback in progress and the queued method calls need neither that lock nor what has been freed |
| Fate.CanGoStale | core/libIBus-dbus.c:152-184 | from a point of a run the dispatch thread can still read what Term frees iff it is not blocked by Term and the connection is open, a fan-out has to go on, a method call is queued, or a signal is queued before the list is gone |
| Fate.StaleCallRun | core/libIBus-dbus.c:1155-1165 | the failing case: any method call queued when Term frees the call contexts |
| Fate.StaleSignalRun | core/libIBus-dbus.c:1167-1197 | the failing case: a fan-out in progress when Term frees the handler list |

## Left out

- Core.Core.Term: the loop that frees the components steps through a list node it has already released, so the model leaves open which components it frees and accounts the others as left behind.
- Delivery.React: the program reads the user data of call and listener filters through one pointer type; the model tells them apart by constructor, so it says nothing about a one-character method name that equals a listener's id.
- Client.Client.EventHandlerFuncWrapper: the method runs with handlers that leave the list alone; handlers that change it are `Reentry.Walk`, on values, and changes made by other threads meanwhile are not modelled.
- Client.Client.Term: the method has the library to itself; what the dispatch thread meets meanwhile is `Shutdown.dfy` and `Fate.dfy`.
- Rpc.CallCode: what a callee does that reads past the end of a cut argument is not known; the model takes it to reply no more, as it takes a daemon that meets a NULL requestor.
- Shutdown.Begin: a message carries what its callbacks do; a read of the handler list while it is being freed counts as stale, although the entry read may not have been freed yet.
- Names.Target: `sprintf_s` comes from a library that is not part of this model; as in section K.3.5.3.6 of the C11 standard a result that does not fit leaves an empty string. libdbus makes no message for an empty name, nor an array over 64 MiB; its checks are taken to be non-fatal, as by default they would end the program.
- Client.Client.Connect: what the daemon writes back into the member record is not modelled; the library reads the record's name and nothing else of it.
- EventSpec.CharOf: a stored id is a signed char; where char is unsigned ids up to 254 survive as well.
- Core.Core.Malloc: allocation always succeeds and the counters do not overflow; blocks from plain malloc, such as filter user data, are not counted by the program and not modelled.
- Core.Core.CallWithTimeout: a reply that begins with a return code is taken to carry a byte array of the argument's size, as `IARM_CallReturn` builds it; the code goes on after logging when it does not.
- WholeSystem.AtDaemon: an API call and the daemon's handling of its message are one step; in the program other messages can come between the two.
- Shutdown.Enabled: the library lock is taken by the two threads only; other threads of the program can hold it for the length of one call.
- Shutdown.Apply: unlocking is one step, so it relies on the mutex being destroyable as soon as the unlock has taken effect.
- The five broadcast handlers are one method, because they differ in the method name and the two fields only.
- IARM_Bus_IsConnected copies 63 characters without a terminator; the model has the daemon's side of it, `CheckRegistration`, for terminated names.
- D-Bus itself: connections, bus names, encoding, timeouts and limits other than the length of an array.
- The FusionDale build of the same three layers, which depends on an unseen library.
- Logging, PID files, signals, heartbeats, packaging, templates and sample programs.
