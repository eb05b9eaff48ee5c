# NetBird state tables and protocols in Dafny

This project models the parts of NetBird whose correctness depends on several tables or
several threads staying in step, and proves what holds of them over every input, every run
or every interleaving.

* **Reverse proxy tables** (`Router`, `ProxyTables`, `ProxyLinked`, `ProxyRouters`,
  `ProxyOwned`, `ProxyTracked`, `ProxyStreams`, `ProxyUndo`, `ProxyServer`). The management
  stream sends CREATED, MODIFIED and REMOVED mappings in batches; each one updates the stored
  mappings, the port records, the per-port and main routers, the UDP relays and the CrowdSec
  references, and may fail at any step. `ProxyTables` gives each update as a function of the
  tables and of what the outside world answers (`Env`). `ProxyServer` is the class that performs it in place, each method proved
  equal to its function; the theorems about whole runs are stated on the functions. Two
  properties of routes are told apart. A route or fallback is *tracked* when its service is
  stored and, for a fallback or on a custom port, recorded on that port. It is *owned* when
  moreover the route is under the domain its service is stored with, and the fallback's
  service is stored without a domain.
* **Per-account inbound listeners** (`InboundQueue`, `InboundManager`). Routes that arrive
  before an account's listener is up are queued and replayed. The queue is compared with
  direct application to a router, and the manager's critical sections with every
  interleaving of them.
* **WireGuard interface monitor** (`IfaceMonitor`). The event-driven Linux watcher against
  a kernel that renames, deletes and creates links at any moment, compared with the polling
  watcher of the other platforms.
* **Anonymizer** (`NetIP`, `AnonymizeIP`, `AnonymizeDomain`, `AnonymizeRuns`,
  `SortedDomains`, `Anonymizer`). Replacement addresses drawn from pools, label
  placeholders, memo maps and the cached domain order, over whole runs of calls.
  `Anonymizer` is the class; each method is proved equal to its transition function.
* **Reverse DNS names** (`Names`, `BitStrings`, `ReverseZone`, `ZoneCoverage`,
  `ReverseZoneParser`, `ReverseZoneLoops`). The zone and PTR printers, the zone parser, and
  the loops that fill octets and nibbles by reversed index. Addresses are bit strings, so every prefix length of both families is one
  statement.
* **Android generation counters** (`LoginLatch`, `SSHClient`). The latched login-required
  status and the SSH client's generation counter as lock-granular protocols.
* **STUN filter** (`StunFilter`). The BPF program under an interpreter.
* **Base 62** (`Base62`). The encoder and decoder of 32-bit values.

Protocols are total step functions: a step that is not due changes nothing, so a run is any
sequence of steps and a statement over all sequences covers every schedule.

## Where the code does not do what one might expect

Each of these is kept as the code has it. The first member named shows it at a concrete
state or input, or for a whole family of them; the others give the exact condition.

* A TLS mapping without a domain on a fresh custom port opens a router that stays empty,
  because the router ignores an empty host (`DomainlessTlsLeavesEmptyRouter`;
  `EmptyRouterExactly`).
* Removing a mapping without a domain clears the port's fallback whoever owns it, so create
  followed by remove restores the tables except when a fallback is in the way
  (`ClobberedFallback`; `RemoveUndoesCreate`, `CleanupSparesOthers`).
* A repeated CREATED that moves a service to another port leaves the old port's fallback
  behind for good: a fallback nobody stores (`MovedCreateOrphansPort`; `TrackedExactly`,
  `TrackedRunsExactly`, and for the stricter ownership `OwnedExactly`, `RoutesOwnedExactly`).
* The inbound queue compares hosts as spelled while the router lowers them, so replay and
  direct application part when one host is spelled in two ways (`MixedCaseDisagrees`;
  `DropExactly`, `QueueExactly`, `RequeueExactly`).
* Between publishing an entry and flushing its queue, a newer route added directly is
  overwritten by an older one still queued (`FlushRestoresOlder`, `OlderRouteWins`;
  `DirectAdditionSurvivesExactly`).
* A link change undone between the first index read and the subscription is seen by a
  polling tick and missed by the Linux watcher (`HealedBeforeSubscriptionIsMissed`;
  `RestartExactly`). What it can miss is only what began before it subscribed and healed by
  its re-check (`MissedLossesAreEarly`); not all of that is missed
  (`TouchedWhileLostIsNoticed`).
* An address that was replaced gets a different answer once a pool's mark reaches it
  (`AnswerChanges`; `AnswerStableExactly`), and the internal pools run into the default pools
  after 2,188,288 IPv4 or 65,534 times 2^80 IPv6 replacements (`CollisionReached`;
  `ReplacementsDistinctExactly`).
* A prefix that does not end on a label boundary contains addresses whose PTR names lie
  outside the generated zone; the one exception is the /95 whose other half is the
  IPv4-mapped range (`UnalignedMisses`; `ZoneCoversPrefixExactly`, `RecordsInZoneExactly`).
* An ip6.arpa name in the IPv4-mapped range has at least 24 labels, but its replacement is an
  IPv4 address with four octets, which the printer indexes out of range: a run-time panic,
  on exactly these names (`MappedNamePanics`; `OverrunsExactly`, `PanicsExactly`).
* After an extend, which installs no client, a Status call can latch again from the client
  already in place, but from no older one (`ExtendCanRelatch`; `LatchAfterClearIsCurrent`).
* The SSH client's comment says a reader left over from a previous connection finds itself
  stale. A session started while a new Connect is still dialing runs over the previous
  connection with the new generation (`OldConnectionClosesNewAttempt`;
  `ReaderServesAttemptExactly`, `DecidesForAnotherExactly`).
* The IPv4 filter program assumes a header without options: under one option word it drops
  every STUN datagram for a port the option's last two bytes do not spell
  (`OptionsHideStun`; `Program4Exactly`).

## Model

| member | source | states |
|---|---|---|
| Router.RemoveUndoesAdd | proxy/internal/tcp/router.go:195-231 | removing the route just added for a service with none there restores the router, for every host including the empty one |
| Router.RemoveAbsent | proxy/internal/tcp/router.go:218-231 | removing a service without a route for the host changes nothing |
| Router.UpsertMembers | proxy/internal/tcp/router.go:195-213 | adding a route replaces the service's own entry and keeps every other service's |
| Router.WithoutMembers | proxy/internal/tcp/router.go:218-231 | exactly the other services' routes survive a removal |
| ProxyLinked.CleanupRecords | proxy/server.go:2237-2302 | teardown drops exactly the service's own port, relay and bouncer records and keeps the bouncer registry in step |
| ProxyLinked.ProcessLinked | proxy/server.go:1606-1645 | one update of any kind, failing at any step, keeps every record owned by a stored mapping keyed by its id |
| ProxyLinked.ProcessAllLinked | proxy/server.go:1565-1603 | the same over any sequence of updates and failures |
| ProxyLinked.RemoveRecords | proxy/server.go:2209-2232 | a removal takes exactly the service's records away |
| ProxyLinked.ReconcileRestricts | proxy/server.go:1471-1488 | in whatever order the map is walked, reconciliation leaves the records restricted to the ids seen, nothing more and nothing less |
| ProxyLinked.ConnectLinked | proxy/server.go:1350-1434 | any number of reconnects and batches keep the tables linked |
| ProxyLinked.EveryRunLinked | proxy/server.go:1350-1434 | no reachable state holds a port record, relay or bouncer reference without an owner |
| ProxyLinked.SnapshotRestricts | proxy/server.go:1399-1488 | when a stream's initial sync completes, after any earlier connections and batches, the stored mappings and their records are those of the processed updates restricted to the ids of that stream |
| ProxyLinked.CompletedStreamOnlyProcesses | proxy/server.go:1407-1434 | after the sync has completed, later batches never reconcile |
| ProxyRouters.EmptyRouterExactly | proxy/server.go:1118-1203 | one update leaves an empty per-port router if and only if it sets up a TLS mapping without a domain on a port that has no router yet |
| ProxyRouters.DomainlessTlsLeavesEmptyRouter | proxy/server.go:1804-1859 | a one-update run that does reach one |
| ProxyOwned.CleanupOwnedExactly | proxy/server.go:2237-2287 | a teardown keeps every route under its stored domain and owned if and only if the service's routes on its port are under the host it is torn down with and its fallback goes with a mapping without a domain |
| ProxyOwned.CleanupOwned | proxy/server.go:2209-2287 | under the stored domain it erases the service from every router and leaves everyone else's routes owned |
| ProxyOwned.StoredExactly | proxy/server.go:1606-1625 | a successful setup, once stored, keeps every route under its stored domain and owned if and only if what the service already had fits the mapping and a TCP mapping has no domain |
| ProxyOwned.RolledBackExactly | proxy/server.go:1606-1645 | rolling a failed setup back keeps every route under its stored domain and owned if and only if the teardown under the new domain takes away all the service had on its port |
| ProxyOwned.RemoveOwned | proxy/server.go:2209-2232 | a removal always keeps every route owned, stored domains included |
| ProxyOwned.OwnedExactly | proxy/server.go:1565-1645 | the exact condition, before the update, under which a CREATED, MODIFIED or REMOVED update leaves every route under the domain its service is stored with, every fallback with a service stored without a domain, and both recorded on their port, whatever fails |
| ProxyOwned.CompatibleKeepsOwned | proxy/server.go:1606-1645 | TCP mappings without a domain and CREATED only for new ids or unmoved services meet that condition |
| ProxyOwned.RoutesOwnedExactly | proxy/server.go:1565-1603 | all along a run every route and fallback is owned in that strict sense if and only if every update meets the condition when its turn comes |
| ProxyTracked.CleanupLeavesExactly | proxy/server.go:2237-2287 | a teardown leaves the service nothing that needs a port record if and only if what it had is under the host it is torn down with, fallbacks going with a mapping without a domain |
| ProxyTracked.StoredTracksExactly | proxy/server.go:1649-1859 | after a successful setup the stored service is tracked if and only if its new record covers all it has on any port |
| ProxyTracked.TrackedExactly | proxy/server.go:1565-1645 | the exact condition, before the update, under which it leaves every main route with a stored service and every fallback and custom-port route with a stored service recorded on that port, under whatever domain and whatever fails |
| ProxyTracked.OwnedKeepsTracked | proxy/server.go:2209-2287 | where routes are also under the stored domains, a MODIFIED or REMOVED update never loses track of one |
| ProxyTracked.TrackedRunsExactly | proxy/server.go:1565-1603 | all along a run every route and fallback is tracked if and only if every update meets that condition when its turn comes |
| ProxyOwned.MovedCreateOrphansPort | proxy/server.go:1606-1625 | a three-update run after which a fallback answers for a service nobody stores |
| ProxyStreams.GoodExactly | proxy/server.go:1565-1603 | one update keeps links, ownership and non-empty routers together if and only if it meets both exact conditions |
| ProxyStreams.DisciplinedKeeps | proxy/server.go:1565-1603 | a well-behaved management server's updates meet them |
| ProxyStreams.RemoveGood | proxy/server.go:1471-1488 | every removal reconciliation makes keeps good tables good, whatever it names |
| ProxyStreams.ConnectGood | proxy/server.go:1350-1488 | any connections, batches and reconciled snapshots whose updates meet the conditions keep the tables good |
| ProxyStreams.EveryRunGood | proxy/server.go:1350-1488 | so every state the server reaches that way has an owner for every record, route and fallback and no empty per-port router |
| ProxyStreams.DisciplinedConnectionsAreGood | proxy/server.go:1350-1488 | over any connections, reconnects and failures, TCP mappings without a domain, TLS mappings with one and CREATED only for new ids or unmoved services reach such states only |
| ProxyStreams.NoEmptyOverConnections | proxy/server.go:1118-1203 | when TLS mappings carry a domain, no sequence of connections, whatever else is sent and fails, reaches an empty per-port router |
| ProxyStreams.SnapshotServesOnlyNamed | proxy/server.go:1399-1488 | after a completed snapshot every route and fallback on every router belongs to a service that connection named |
| ProxyUndo.ReleaseUndoesAcquire | proxy/internal/crowdsec/registry.go:43-79 | releasing the bouncer after acquiring it for a new service restores the registry, started or not |
| ProxyUndo.FailedCreateRollsBack | proxy/server.go:1606-1625 | a CREATED of an unknown service that fails at any step leaves every table as it was |
| ProxyUndo.DetachUndoesAttach | proxy/server.go:2264-2280 | detaching restores a router exactly when no fallback is in the way |
| ProxyUndo.RemoveUndoesCreate | proxy/server.go:2209-2287 | create then remove restores every table if and only if the setup does not meet or leave a fallback it does not own |
| ProxyUndo.ClobberedFallback | proxy/server.go:2237-2287 | two TCP services on one port: creating and removing the second closes the port on the first, which stays stored |
| ProxyUndo.CleanupSparesOthers | proxy/server.go:2257-2287 | in every state teardown keeps every other service's route on every router, the main one included, and another's fallback exactly unless a mapping without a domain is torn down on its port |
| ProxyServer.Server.RouterForPort | proxy/server.go:1093-1161 | hands out the main, the existing or a freshly opened router, or none |
| ProxyServer.Server.CleanupPortIfEmpty | proxy/server.go:1177-1203 | closes exactly an empty custom port |
| ProxyServer.Server.ParseRestrictions | proxy/server.go:1874-1906 | acquires the bouncer for the service and records it only on success |
| ProxyServer.Server.ReleaseCrowdSec | proxy/server.go:1910-1919 | releases the bouncer only for a recorded service |
| ProxyServer.Server.SetupHTTP | proxy/server.go:1663-1699 | performs the HTTP setup transition with its late failures |
| ProxyServer.Server.SetupTCP | proxy/server.go:1722-1775 | performs the TCP setup transition |
| ProxyServer.Server.SetupTLS | proxy/server.go:1804-1859 | performs the TLS setup transition |
| ProxyServer.Server.SetupUDP | proxy/server.go:1778-1801 | performs the UDP setup transition, replacing an existing relay |
| ProxyServer.Server.RemoveUDPRelay | proxy/server.go:2290-2302 | removes exactly the service's relay |
| ProxyServer.Server.CleanupMappingRoutes | proxy/server.go:2237-2287 | the loop over the recorded ports performs the teardown transition |
| ProxyServer.Server.AddMapping | proxy/server.go:1606-1625 | performs the CREATED transition with its rollback |
| ProxyServer.Server.ModifyMapping | proxy/server.go:1630-1645 | performs the MODIFIED transition, tearing down what was stored |
| ProxyServer.Server.RemoveMapping | proxy/server.go:2209-2232 | performs the REMOVED transition with the stored mapping |
| ProxyServer.Server.ProcessMappings | proxy/server.go:1565-1603 | the batch loop equals the run of its updates |
| ProxyServer.Server.ReconcileSnapshot | proxy/server.go:1471-1488 | the two loops collect and remove exactly the stale mappings, for some order of the map |
| ProxyServer.SnapshotTracker.Receive | proxy/server.go:1407-1434 | one batch performs the stream transition: process, collect ids, reconcile once |
| InboundQueue.DropExactly | proxy/inbound.go:312-329 | pruning the queue agrees with removing from the router it would build if and only if the service is not queued under another spelling of the host |
| InboundQueue.QueueExactly | proxy/inbound.go:298-308 | for every queue, queueing agrees with adding to that router if and only if the host is empty, the key is new, or the slot's last entry is the one overwritten or carries the route already |
| InboundQueue.RequeueExactly | proxy/inbound.go:298-308 | in every queue additions and removals build, exactly when the host is empty, the key new, or the slot's last entry spelled the same way or carrying the route already |
| InboundQueue.ReplayOntoEmpty | proxy/inbound.go:332-341 | flushing a queue onto a fresh entry's router builds the router the statements about queues speak of |
| InboundQueue.FlushedSlot | proxy/inbound.go:332-341 | a flush gives every host and service its last queued route and leaves the others alone, whatever the router already holds |
| InboundQueue.DirectAdditionSurvivesExactly | proxy/inbound.go:261-341 | a route added directly before the flush survives it if and only if its slot is not queued or was last queued with that route |
| InboundQueue.FlushRestoresOlder | proxy/inbound.go:332-341 | a newer direct route gives way to an older queued one |
| InboundQueue.QueueKeysDistinct | proxy/inbound.go:298-329 | the queue never holds two entries of one host and service |
| InboundQueue.ReplayAgrees | proxy/inbound.go:261-341 | any sequence of additions and removals with one spelling per host, queued and replayed, builds the router direct application builds |
| InboundQueue.MixedCaseDisagrees | proxy/inbound.go:312-329 | for any two spellings of a host, adding under one and removing under the other breaks the agreement |
| InboundManager.CompactInPlace | proxy/inbound.go:312-329 | compacting within the backing array equals a pure filter |
| InboundManager.Manager.QueuePendingLocked | proxy/inbound.go:298-308 | overwrites the key's entry or appends one |
| InboundManager.Manager.DropPendingLocked | proxy/inbound.go:312-329 | filters the key out and deletes an emptied account |
| InboundManager.Manager.AddRoute | proxy/inbound.go:261-276 | queues when there is no entry, otherwise adds to the entry's router |
| InboundManager.Manager.RemoveRoute | proxy/inbound.go:280-295 | drops from the queue, and removes from the router when there is an entry |
| InboundManager.Manager.Publish | proxy/inbound.go:214-219 | makes the fresh entry visible |
| InboundManager.Manager.FlushPending | proxy/inbound.go:332-341 | applies the queued routes, in order, to whatever the entry's router holds, and empties the queue |
| InboundManager.OlderRouteWins | proxy/inbound.go:214-341 | on a fresh manager, a route queued, the entry published, a newer route added and the queue flushed leave the older route in the slot |
| InboundManager.Manager.TearDown | proxy/inbound.go:222-228 | removes entry and queue only for the entry being torn down |
| InboundManager.RunStrandsNothing | proxy/inbound.go:214-341 | in every interleaving an account whose entry has flushed has an empty queue |
| InboundManager.PublishedQueueShrinks | proxy/inbound.go:261-276 | while an entry is published the account's queue only shrinks |
| InboundManager.FlushedQueueStaysEmpty | proxy/inbound.go:332-341 | from any reachable state, once flushed the queue stays empty until the entry is removed |
| InboundManager.QueuedRouteLeavesOnlyBy | proxy/inbound.go:222-341 | a queued route leaves only by removal, overwriting or a flush; teardown discards none |
| InboundManager.FlushReachesCurrentRouter | proxy/inbound.go:214-228 | when an account's entries do not overlap, every live entry is the published one, so a flush goes to the router later additions use |
| IfaceMonitor.LossIsPublished | client/internal/wg_iface_monitor_linux.go:84-134 | every kernel change that takes the name off its index publishes an event the watcher acts on |
| IfaceMonitor.TriggerIsLoss | client/internal/wg_iface_monitor_linux.go:84-134 | every event the watcher acts on goes with a table in which the name is not at its index |
| IfaceMonitor.DrainedMeansPresent | client/internal/wg_iface_monitor_linux.go:27-74 | in every interleaving a watcher waiting with events drained on an open subscription watches an interface that is there |
| IfaceMonitor.RestartIsJustified | client/internal/wg_iface_monitor_linux.go:27-74 | an event or re-check restart has a real loss behind it |
| IfaceMonitor.NothingMissedSinceRecheck | client/internal/wg_iface_monitor_other.go:31-56 | whatever a poller tick would report after the re-check, the Linux watcher has queued or reported |
| IfaceMonitor.RestartExactly | client/internal/wg_iface_monitor_linux.go:27-74 | a watcher that waits with its events drained, or has restarted on an event or its re-check, has restarted if and only if a trigger was published since it subscribed or the re-check saw a loss |
| IfaceMonitor.MissedLossesAreEarly | client/internal/wg_iface_monitor_other.go:31-56 | what a drained, open, waiting watcher missed of what a poller reports began before it subscribed and healed by its re-check |
| IfaceMonitor.TouchedWhileLostIsNoticed | client/internal/wg_iface_monitor_linux.go:27-74 | a loss of that kind that is noticed all the same |
| IfaceMonitor.HealedBeforeSubscriptionIsMissed | client/internal/wg_iface_monitor.go:53-62 | a rename undone between first read and subscription is seen by a poller and missed by the Linux watcher |
| IfaceMonitor.WatchLinux | client/internal/wg_iface_monitor_linux.go:53-74 | the select loop decides on the first input that is not benign |
| IfaceMonitor.WatchPolling | client/internal/wg_iface_monitor_other.go:31-56 | the polling loop restarts at the first reading that is not the expected index |
| AnonymizeIP.StepExtends | client/anonymize/anonymize.go:149-196 | one call keeps memo, pools and marks consistent and only extends them |
| AnonymizeIP.IssuedPasses | client/anonymize/anonymize.go:274-281 | every replacement handed out lies in the recognised range |
| AnonymizeIP.AnonymizeIsIdempotent | client/anonymize/anonymize.go:149-196 | whatever is returned is returned unchanged at every later call, whatever comes between, until a pool is exhausted |
| AnonymizeIP.AnswerStableExactly | client/anonymize/anonymize.go:149-171 | an address gets the same answer at a later call if and only if it was not replaced or no mark has reached it since |
| AnonymizeIP.AnswerChanges | client/anonymize/anonymize.go:149-171 | 198.51.100.1 is answered with 198.51.100.0 and then with itself |
| AnonymizeIP.GapValues | client/anonymize/anonymize.go:105-116 | the internal pools hold 2,188,288 IPv4 and 65,534 times 2^80 IPv6 addresses before they meet the default pools |
| AnonymizeIP.ReplacementsDistinctExactly | client/anonymize/anonymize.go:167-196 | in every reachable state distinct addresses have distinct replacements if and only if no internal pool has overrun its gap into replacements handed out by the default pool |
| AnonymizeIP.CollisionReached | client/anonymize/anonymize.go:105-116 | a run of 2,188,289 private addresses and one public one in which two addresses share a replacement |
| AnonymizeIP.UnreachedNeverShare | client/anonymize/anonymize.go:149-196 | the answers given at any two calls of a run to distinct addresses that no mark has reached by its end differ, within the gaps |
| AnonymizeDomain.StepSound | client/anonymize/anonymize.go:297-381 | any call keeps the memo maps sound and only adds keys |
| AnonymizeDomain.AnonymizeIsIdempotent | client/anonymize/anonymize.go:297-381 | at the strict level the answer for every name that is not a reverse zone is final in every later state |
| AnonymizeDomain.MappedZoneOverruns | client/anonymize/reverse_zone.go:35-47 | an ip6.arpa name in the IPv4-mapped range has at least 24 labels |
| AnonymizeRuns.PlaceholdersDistinctExactly | client/anonymize/anonymize.go:362-381 | in every run the numbers of all placeholders differ if and only if at most 2^32 labels were numbered |
| AnonymizeRuns.OverrunsExactly | client/anonymize/reverse_zone.go:152-170 | in every consistent state the printer runs past the replacement's labels exactly on ip6.arpa names in the IPv4-mapped range |
| AnonymizeRuns.PanicsExactly | client/anonymize/anonymize.go:297-344 | in every run that has exhausted no pool AnonymizeDomain panics exactly on those names |
| AnonymizeRuns.MappedNamePanics | client/anonymize/reverse_zone.go:35-47 | one such name, in any run |
| AnonymizeRuns.FullNameParses | client/anonymize/reverse_zone.go:87-170 | a printed full name parses back to its address |
| AnonymizeRuns.FullZoneIsIdempotent | client/anonymize/reverse_zone.go:35-47 | at any level a full reverse name outside the mapped range is answered, and the answer is final until a pool is exhausted |
| AnonymizeRuns.RunAddresses | client/anonymize/reverse_zone.go:35-47 | the address state of a mixed run is that of the addresses it passed on |
| SortedDomains.OrderingUnique | client/anonymize/anonymize.go:444-460 | there is one longest-first, then lexicographic, ordering of a key set |
| SortedDomains.SortOrdering | client/anonymize/anonymize.go:444-460 | sorting any listing of the keys gives it |
| SortedDomains.SameLengthSameKeys | client/anonymize/anonymize.go:444-460 | a cache of equal length covers the same keys, since keys are only added |
| SortedDomains.SortedDomainsIsExact | client/anonymize/anonymize.go:444-460 | in every reachable state the order returned is that ordering of exactly the current keys, however the map is walked and whether or not it was rebuilt |
| Anonymizer.Anonymizer.NextAnonIP | client/anonymize/anonymize.go:173-196 | draws from the pool of the address's kind and advances its mark |
| Anonymizer.Anonymizer.AnonymizeIP | client/anonymize/anonymize.go:149-171 | performs the address transition |
| Anonymizer.Anonymizer.AnonymizeLabels | client/anonymize/anonymize.go:362-381 | the loop replaces each label in place, left to right |
| Anonymizer.Anonymizer.AnonymizePeerName | client/anonymize/anonymize.go:350-357 | performs the peer-name transition, storing only a changed name |
| Anonymizer.Anonymizer.AnonymizeDomain | client/anonymize/anonymize.go:297-344 | performs the domain transition over all its branches, and gives no answer exactly where the code panics |
| Anonymizer.Anonymizer.AnonymizeReverseZone | client/anonymize/reverse_zone.go:35-47 | tells whether the name is a reverse zone, performs its transition, and gives no answer exactly where the printer overruns |
| Anonymizer.Anonymizer.SortedDomains | client/anonymize/anonymize.go:444-460 | rebuilds the cache only on a length mismatch |
| ZoneCoverage.ZoneCoversOnlyPrefix | client/internal/dns.go:22-92 | a PTR name at or under the generated zone belongs to an address of the same family that the prefix contains, for every prefix and address |
| ZoneCoverage.ZoneCoversPrefixExactly | client/internal/dns.go:54-92 | every contained address is in the zone if and only if the prefix length is a positive multiple of the label size |
| ZoneCoverage.GeneratedZone | client/internal/dns.go:54-92 | a zone is generated for every network except an IPv4-mapped one, and it is the zone of the masked network |
| ZoneCoverage.RecordsInZoneExactly | client/internal/dns.go:15-50 | every record lies in the generated zone if and only if the prefix is aligned or its other half is exactly the IPv4-mapped range |
| ZoneCoverage.UnalignedMisses | client/internal/dns.go:54-92 | for every unaligned prefix, an address it contains whose PTR name is outside the zone |
| ReverseZone.NameLabelsInjective | client/internal/dns.go:22-41 | equal labels come from equal leading bits |
| ReverseZoneParser.ParseOfPrint | client/anonymize/reverse_zone.go:87-170 | parsing what the printer writes truncates the address to its first labels |
| ReverseZoneParser.ParseOfGenerated | client/anonymize/reverse_zone.go:87-148 | the parser recovers the masked network and the rounded-up label count from every generated zone name |
| ReverseZoneParser.PrintOfParseExactly | client/anonymize/reverse_zone.go:152-170 | reprinting a parsed name gives it back if and only if it is lower case without leading zeros |
| ReverseZoneLoops.PtrNibbles | client/internal/dns.go:33-39 | the loop fills the 32 nibble labels from both ends of the index as the printer needs them |
| ReverseZoneLoops.AllNibbles | client/internal/dns.go:78-83 | the loop lists the nibbles in address order |
| ReverseZoneLoops.ReverseUsed | client/internal/dns.go:86-89 | the loop reverses the labels in use |
| ReverseZoneLoops.ReverseZoneAddrV4 | client/anonymize/reverse_zone.go:104-119 | succeeds exactly when the labels parse, with the octets of the padded address |
| ReverseZoneLoops.ReverseZoneAddrV6 | client/anonymize/reverse_zone.go:121-148 | succeeds exactly when the labels parse, with the nibbles of the padded address |
| ReverseZoneLoops.ReverseZoneLabels | client/anonymize/reverse_zone.go:152-170 | the loop prints the first labels of the address, last one first |
| LoginLatch.LoginState.LoginRequiredState | client/android/session.go:61-65 | reads the latch and its generation together |
| LoginLatch.LoginState.LatchLoginRequired | client/android/session.go:72-79 | latches only while no clear has come between |
| LoginLatch.LoginState.ClearLoginRequired | client/android/session.go:83-88 | clears and starts a new generation |
| LoginLatch.OnlyCurrentObservationsSet | client/android/session.go:45-79 | only a Status call of the current generation that saw NeedsLogin sets the latch |
| LoginLatch.LatchLastsUntilCleared | client/android/session.go:36-59 | the latch outlives every restart until a login or an extend clears it |
| LoginLatch.StaleObservationNeverLatches | client/android/session.go:67-88 | in every interleaving a Status call in flight at a clear never sets the latch after it |
| LoginLatch.LatchAfterLoginIsNew | client/android/client.go:216-224 | a latch set after a login's clear reports a client installed no earlier than that login's own |
| LoginLatch.LatchAfterClearIsCurrent | client/android/session.go:45-88 | after any clear, by a login or an extend, every latch reports a client no older than the one in place at the clear |
| LoginLatch.ExtendCanRelatch | client/android/session.go:307-310 | after an extend a Status call can latch from that very client, from any state that has one |
| SSHClient.Client.BeginConnect | client/android/ssh_client.go:179-182 | draws a new generation |
| SSHClient.Client.BeginDial | client/android/ssh_client.go:503-509 | records the cancel only for the current attempt |
| SSHClient.Client.InstallClient | client/android/ssh_client.go:522-530 | installs only the current attempt's client |
| SSHClient.Client.ReadClient | client/android/ssh_client.go:309-316 | reads client and generation together, or reports that there is none |
| SSHClient.Client.InstallSession | client/android/ssh_client.go:323-331 | installs session and stdin only in the generation they were started in |
| SSHClient.Client.Close | client/android/ssh_client.go:267-283 | new generation, every field cleared, notifies at most once |
| SSHClient.Client.Reset | client/android/ssh_client.go:259-263 | opens the one-shot guard and nothing else |
| SSHClient.Client.NotifyClose | client/android/ssh_client.go:574-582 | notifies only in the current generation of an open client |
| SSHClient.OneCloseEachReset | client/android/ssh_client.go:257-305 | over every run OnClose is decided at most once more than the client was reset |
| SSHClient.ClosedStaysEmpty | client/android/ssh_client.go:267-331 | after a Close, whatever was in flight, client, session, stdin and dial cancel stay nil until a Connect begun after that Close sets them |
| SSHClient.StaleReaderStaysSilent | client/android/ssh_client.go:574-582 | a reader running when a Connect begins or a Close happens never decides OnClose afterwards |
| SSHClient.DecidingReaderIsNew | client/android/ssh_client.go:307-345 | a reader that decides OnClose after a Close serves a connection begun after it |
| SSHClient.InstalledExactly | client/android/ssh_client.go:503-530 | at every instant of every run the client in place is the current attempt's own if and only if that attempt has installed it |
| SSHClient.ReaderServesAttemptExactly | client/android/ssh_client.go:307-345 | over every run a reader serves the attempt it is numbered with if and only if that attempt had installed its client by the session's last read |
| SSHClient.DecidesForAnotherExactly | client/android/ssh_client.go:574-582 | a reader decides OnClose while serving an older connection exactly when the current attempt had installed nothing by that read |
| SSHClient.OldConnectionClosesNewAttempt | client/android/ssh_client.go:85-90 | a six-step run in which it does |
| StunFilter.ProgramExactly | sharedsock/stun_filter_linux.go:30-49 | at any offsets the program keeps the whole of exactly the packets long enough whose port and cookie bytes match, and drops the others |
| StunFilter.Program6Exactly | sharedsock/stun_filter_linux.go:23-23 | the IPv6 program accepts exactly the STUN datagrams for the port |
| StunFilter.Program4Exactly | sharedsock/stun_filter_linux.go:19-19 | the IPv4 program accepts exactly when the bytes from 20 on are such a datagram |
| StunFilter.ProgramsAgree | sharedsock/stun_filter_linux.go:18-28 | under any 20-byte header the two programs agree on every datagram |
| StunFilter.OptionsHideStun | sharedsock/stun_filter_linux.go:18-28 | under every 24-byte header whose last two bytes do not spell the port, every STUN datagram for it is dropped |
| Base62.IndexRuneExactly | base62/base62.go:9-12 | a character is accepted exactly when the alphabet has it, and its index is its place there |
| Base62.NumeralDenotes | base62/base62.go:15-32 | the numeral of a number denotes it and has no leading zero |
| Base62.NumeralUnique | base62/base62.go:15-32 | it is the only such numeral |
| Base62.NumeralShort | base62/base62.go:15-32 | a 32-bit value has at most six digits |
| Base62.DecodedDenotes | base62/base62.go:35-49 | on every platform, up to six digits after leading zeros decode to the number denoted modulo 2^32 |
| Base62.DecodeOfEncode | base62/base62.go:15-49 | decoding undoes encoding on every 32-bit value |
| Base62.EncodeOfDecodeExactly | base62/base62.go:15-49 | encoding undoes decoding on exactly the numerals without leading zeros whose number fits 32 bits |
| Base62.ReverseRunes | base62/base62.go:52-58 | the pairwise swaps reverse the array |
| Base62.Encode | base62/base62.go:15-32 | the division loop and the reversal give the numeral |
| Base62.Decode | base62/base62.go:35-49 | fails exactly on a character outside the alphabet, and otherwise the loop gives the wrapped sum |

## Left out

- gRPC streams, TLS, HTTP handlers, listeners, sockets, metrics and the L4 gauge: their outcomes are the fields of `Env` or the actions of a run.
- The watchdog that abandons a batch while it is still being processed: batches are processed to the end.
- The proxy's authentication, middleware and host tables beside the routers: they only add members of the same shape.
- Relay draining and the per-service contexts of the TCP router.
- ProxyServer.Server.RouterForPort: the router is returned as a value and stored back, so aliasing between two holders of one router is not captured.
- InboundManager.Manager.QueuePendingLocked: the queue is a value, so two slices sharing one backing array are not captured; the compaction within an array is `CompactInPlace`.
- InboundQueue.ReplayAgrees: calls are taken one at a time and hosts spelled one way; route updates racing with a flush are covered section by section, not as one linearizable history.
- Letter case outside ASCII: lowering is modelled for A to Z.
- Spurious failures of the interface lookup and AF_BRIDGE link events.
- AnonymizeIP.AnonymizeIsIdempotent: says nothing once a pool is exhausted, where the next address is the zero value.
- AnonymizeDomain.AnonymizeIsIdempotent: strict level only, as promised; at the default level a replaced base domain may occur again inside the name. Partial reverse names are not claimed to be final.
- AnonymizeRuns.PanicsExactly: says nothing once a pool is exhausted, where the replacement is the zero address and is printed as zeros.
- The random part of an anonymous domain is a parameter of the call; collisions of random names are not excluded.
- The regular-expression passes over free text, MAC addresses, WireGuard keys and URIs.
- Wrap-around of the 64-bit generation counters of the Android client, and the order in which callbacks are delivered after the lock is released.
- Base62.Decode: powers above 62^5 pass through floating point and depend on the platform; they are a parameter.
- The byte encoding bpf.Assemble gives the instructions.
