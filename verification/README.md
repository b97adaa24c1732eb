# smon-net: verified model of the network collector

`smon-net` attributes every byte an interface carries to a process, to a container or to an explicit "unknown"
reason, once per interval, and hands the result to the shell front end as a tab-separated file. This project models
that pipeline from the kernel's byte counters to the front end's tables and proves that no byte is invented, that
what is published adds up, that attribution never guesses, and that the file says what the collector meant.

Check it with `dafny verify dfyconfig.toml` (Dafny 4.11).

## Layout

- `FlowCounters`, `CounterProtocol`, `CounterTheorems`, `CounterLedger`, `CgroupProgram`: the kernel program's counters
  in a shared LRU map, and the user-space collector that turns cumulative values into per-poll deltas.
  `CounterProtocol` is a transition system: packets are a lookup step and an update step on any number of CPUs, entries
  may be evicted or overwritten between any two steps, and walks of the map are read key by key and may be aborted,
  retried or fail. `CounterLedger` keeps account of every byte beside it.
- `Packets`, `PacketLaws`, `ParserAgreement`, `KernelKeys`: the frame parser, its inverse, its agreement with the
  kernel's, and what the kernel's makes of any packet.
- `Sockets`, `Cgroups`, `SystemLoading`, `Naming`: from a tuple to a socket, its owner, its network namespace and its
  cgroup, and from the process table to the name of a connection's process.
- `Windows`, `Accounting`, `AccountingTheorems`, `Attribution`, `FrameBooking`, with `Sums`, `Rates`, `TrafficMaps`,
  `SnapshotTypes`, `Sorting`: booking bytes, whose bytes they are, reclassifying exited processes, the residual, and
  whole KB/s.
- `SnapshotText`, `SnapshotReader`, `TextRoundTrip`, `ReadTables`, `ReadBack`, with `TabFields` and `Numerals`: the file,
  printed and read.
- `CanonicalOutput`: the file depends on what was scanned and counted, not on any order.
- `RunLoop`, `RunTheorems`, `RunFiles`, `FileStatus`: the main loop, what holds over all of its runs, when it writes a
  file and what the file says, and what "ok" does not say.
- `ProcText`, `ProcLaws`: the text of `/proc`. `Catalog`, `CatalogOrder`: metadata merged from several
  container runtimes.

What the source does step by step is a method, mostly of a class, whose contract ties it to a function; the laws are
lemmas about those functions. Go's `range` over a map and its unstable sort are nondeterministic in the model: loops
take any remaining key, and rows are only known to be a listing of a map, in some order.

## Results that are not plain promises

- **The counter protocol depends on its iterator.** No key is ever over-reported if a walk that is acted on visits
  each key at most once and a completed walk skips no entry that stayed in the map. Each assumption is needed:
  `RepeatedVisitOverReports` and `OmittedKeyOverReports` are runs that break the bound without it.
  `RepeatVisitsExactIff` says exactly when repeated visits are harmless: each but the last read the old baseline or
  zero. `LostBaselineHarmsIff` says exactly when losing the baseline of a live key can be followed by over-reporting:
  when more was reported under the key than its dead incarnations had counted.
- **Recreated counters.** An evicted entry that comes back is counted from zero only if it is read below its old
  baseline. Through any run, what was counted under a key is what was reported, what no walk read, and the baselines
  subtracted from later incarnations (`EveryByteIsTold`). Only unread bytes go unreported iff no recreated counter was
  read at or above its old baseline (`OnlyUnreadIsLostIff`); `OvertakenCounterHides` is a run that reports eight of
  thirteen bytes although every one was read.
- **Fields of NULs only.** The shell cannot hold a NUL, so a text field consisting of NULs only vanishes between two
  tabs and the later fields move up; at the end of a line it does no harm. `FieldsReadBackIff` is the exact condition,
  for every line of every file, `FieldOfNulsShifts` what happens otherwise and `ScopeOfNulsReadsRuntime` an instance.
  The round trip of rows and tables is proved for every file whose lines all meet the condition, for any PIDs and
  container IDs, repeated ones included.
- **Drops.** The published drops add up to the last total read iff the socket's counter never fell below a total read
  earlier (`DropsExactIff`); unreadable statistics do no harm.
- **Unreadable namespaces.** The loader would report them only if no cgroup had been filed, which cannot be once a
  namespace exists: `LoadSystemResolver` proves that no error is ever returned beside a resolver. The loop's branch
  for partly unreadable namespaces is therefore never taken, and "ok" does not mean that every socket table could be
  read: `WriteOkUnread` writes such a file, and `OkMeansAllReadIff` says that "ok" keeps that promise iff every table
  was read, or eBPF is off, or the deciding walk was not complete, in which cases the file is not "ok".
- **Merging metadata.** The merge is associative but not commutative. `MergeOrderIrrelevantIff` says exactly when the
  order of two descriptions matters, and `CatalogOrderIrrelevantIff` when the order of any number of answers matters
  for the whole catalog.
- **The window's books.** A window is balanced to the byte as long as packets are accounted; observing keeps this iff
  the packet is empty (`ObserveKeepsBalanceIff`). The weaker invariant, never to book more than was captured, holds in
  every state of every run, so the numbers of every file add up, the tick that gives up eBPF included.

## Model

| member | source | states |
|---|---|---|
| FlowCounters.EBPFCollector.ReadDeltasOnce | internal/netmon/ebpf_linux.go:119-144 | one walk emits one flow per visit of a reportable key whose value differs from its baseline, in order, with the value itself if that is below the baseline and else the excess, and returns the values read |
| FlowCounters.EBPFCollector.ReadDeltas | internal/netmon/ebpf_linux.go:80-117 | the poll is decided by the first walk that is not aborted, else by the fourth, and given up iff all four are aborted; a completed walk replaces the baselines, a final aborted one updates those it read, a failed one changes nothing and returns nothing |
| FlowCounters.CreditedIsDeltas | internal/netmon/ebpf_linux.go:125-142 | what a walk credits to a key is the sum over its visits, each counted from the old baseline |
| FlowCounters.VisitedKeyIsCredited | internal/netmon/ebpf_linux.go:131-142 | in numbers: a key visited once is credited with the value read if that is below its baseline, and else with the value minus the baseline |
| FlowCounters.VisitedKeyIsEmitted | internal/netmon/ebpf_linux.go:131-142 | so many bytes are emitted under its identity |
| FlowCounters.RepeatVisitsExactIff | internal/netmon/ebpf_linux.go:125-142 | a walk that visits a key repeatedly credits it with at least the change of its baseline, and with exactly that iff every earlier visit read the old baseline or zero |
| CounterProtocol.CoveredIsStable | internal/netmon/bpf/netmon.c:87-93 | a value once read stays covered by its incarnation while that lives and by the dead bytes afterwards, whatever the kernel does next |
| CounterProtocol.StepKeepsInv | internal/netmon/ebpf_linux.go:88-143 | for each key, every step of packets, evictions and walks keeps the invariant that links baseline, visits and reported bytes to incarnations |
| CounterProtocol.NeverOverReports | internal/netmon/ebpf_linux.go:80-144 | over every run with well-formed walks, no key is reported for more bytes than were counted under it |
| CounterTheorems.PollIsReadDeltas | internal/netmon/ebpf_linux.go:80-117 | the transition system's poll changes baselines and emitted flows exactly as `ReadDeltas` does for the same walks |
| CounterTheorems.OnlyDecidedWalksReport | internal/netmon/ebpf_linux.go:94-116 | discarded retries and hard errors change neither baselines nor what was reported |
| CounterTheorems.EmittedIsReported | internal/netmon/ebpf_linux.go:131-141 | for every identity, the bytes of all flows ever emitted are those reported under the keys with that identity |
| CounterTheorems.FlowsNeverExceedCounted | internal/netmon/ebpf_linux.go:80-144 | over every run with well-formed walks, the flows emitted for an identity carry no more bytes than the kernel counted for it |
| CounterTheorems.ReportedIsBaseline | internal/netmon/ebpf_linux.go:88-116 | while no entry is lost, the bytes reported for a key equal its stored baseline, everything counted is still in the map, and nothing is reported twice |
| CounterTheorems.CompleteWalkCatchesUp | internal/netmon/ebpf_linux.go:101-109 | while no entry is lost, a completed walk reports at least everything counted before it began, keys missed by earlier partial walks included |
| CounterTheorems.RepeatedVisitOverReports | internal/netmon/ebpf_linux.go:125-142 | without the assumption on repeated visits a run reports thirteen bytes of eight |
| CounterTheorems.OmittedKeyOverReports | internal/netmon/ebpf_linux.go:91-92 | without the assumption on omitted keys a run reports ten bytes of five |
| CounterTheorems.LostBaselineHarmsIff | internal/netmon/ebpf_linux.go:88-116 | between polls, when a live key has no baseline, some well-formed continuation over-reports the key iff its reported bytes exceed its dead bytes |
| CounterLedger.EveryByteIsTold | internal/netmon/ebpf_linux.go:88-143 | through every well-formed run, the bytes counted under a key are those reported, those no walk read, and those hidden behind the baseline of an evicted entry |
| CounterLedger.CommitLeavesOnlyUnread | internal/netmon/ebpf_linux.go:101-115 | after a walk that is acted on, what stays unreported of a visited key is the growth of its entry since then, the unread bytes of the entries that are gone, and what was hidden |
| CounterLedger.OnlyUnreadIsLostIff | internal/netmon/ebpf_linux.go:137-140 | only unread bytes go unreported iff no walk acted on read a recreated counter at or above the old baseline |
| CounterLedger.OvertakenCounterHides | internal/netmon/ebpf_linux.go:137-140 | a run that reads all of thirteen bytes and reports eight |
| CgroupProgram.BuildKey | internal/netmon/bpf/netmon.c:48-85 | the key built step by step is the specified one, and no key when a load fails or the version is neither 4 nor 6 |
| KernelKeys.IPv4KeyIs | internal/netmon/bpf/netmon.c:48-85 | for every IPv4 packet the key carries cgroup, direction, both addresses and the protocol, none for a later fragment, and the ports of TCP or UDP with four bytes left, else zero |
| KernelKeys.IPv6KeyIs | internal/netmon/bpf/netmon.c:48-85 | the same for every IPv6 packet, with the next header as protocol |
| KernelKeys.UncountedIff | internal/netmon/bpf/netmon.c:45-80 | a packet is not counted iff it is of another version or its header is cut short |
| KernelKeys.IPv4FlowIs | internal/netmon/ebpf_linux.go:161-184 | every IPv4 packet, with or without ports, is reported for its own cgroup and direction, the local end being the source iff it goes out |
| KernelKeys.IPv6FlowIs | internal/netmon/ebpf_linux.go:161-184 | so is every IPv6 packet, IPv4-mapped addresses unmapped |
| CgroupProgram.FlowMap.CountPacket | internal/netmon/bpf/netmon.c:38-95 | with no one else at work a packet adds its length under its key and changes nothing else |
| CgroupProgram.CountedKeysAreReportable | internal/netmon/ebpf_linux.go:161-184 | every key the kernel program counts under can be reported |
| CgroupProgram.AloneTheStepsCountThePacket | internal/netmon/bpf/netmon.c:87-93 | the protocol's two steps, uninterrupted, are one call of `count_packet` |
| CgroupProgram.RacingInsertsLoseTheFirst | internal/netmon/bpf/netmon.c:92-93 | two CPUs that both miss: the later insert overwrites the earlier, whose bytes are counted but dead |
| Packets.ParsePacket | internal/netmon/packet.go:18-43 | the loop over tags and the step-by-step packet equal the recursive specification, for every byte string |
| Packets.ParseIPv4 | internal/netmon/packet.go:45-61 | as specified, all indices in bounds |
| Packets.ParseIPv6 | internal/netmon/packet.go:63-100 | the loop over at most eight extension headers equals the recursive specification, all indices in bounds |
| Packets.ParsePorts | internal/netmon/packet.go:102-114 | as specified |
| PacketLaws.FrameIsItsPayload | internal/netmon/packet.go:18-43 | any stack of VLAN and QinQ tags is transparent: MACs come back, the rest is what the payload parses to |
| PacketLaws.IPv4FrameIs | internal/netmon/packet.go:45-61 | any IPv4 packet in any tag stack gives its addresses, and protocol and ports iff it is TCP or UDP, no later fragment, and four bytes follow |
| PacketLaws.IPv4FrameRoundTrip | internal/netmon/packet.go:45-61 | an IPv4 frame with any legal options, in any tag stack, whatever follows, gives back protocol, addresses and ports; a later fragment gives addresses only (section 3.1 of RFC 791) |
| PacketLaws.ExtensionsArePassed | internal/netmon/packet.go:72-98 | a chain of recognised headers is walked to its end iff it is shorter than the budget and holds no later fragment (section 4 of RFC 8200, section 2.2 of RFC 4302) |
| PacketLaws.IPv6FrameIs | internal/netmon/packet.go:63-100 | any IPv6 packet likewise, behind at most seven extension headers |
| PacketLaws.IPv6FrameRoundTrip | internal/netmon/packet.go:63-100 | an IPv6 frame gives back ports iff it has at most seven extension headers and no later fragment; addresses always, IPv4-mapped ones unmapped |
| PacketLaws.IsIPIff | internal/netmon/packet.go:45-70 | a payload is taken for IP iff its version agrees with the EtherType and its header is whole |
| PacketLaws.OtherFramesAreNotIP | internal/netmon/packet.go:35-42 | other EtherTypes give the MACs only |
| NetTypes.UnmapIff | internal/netmon/aggregate.go:89-90 | an address is unmapped to an IPv4 address iff it is that address or its mapped form |
| PacketLaws.TruncationOnlyLoses | internal/netmon/packet.go:18-114 | parsing any prefix of a frame yields the same fields or fewer, never different ones |
| ParserAgreement.IPv4PortsIff | internal/netmon/bpf/netmon.c:54-68 | exactly when the user-space parser finds ports on IPv4, in terms of the packet's bytes |
| ParserAgreement.IPv6AgreesIff | internal/netmon/bpf/netmon.c:69-78 | on IPv6 the two parsers agree on the flow exactly when no recognised extension header follows, for packets with ports |
| ParserAgreement.ParsersAgreeIff | internal/netmon/ebpf_linux.go:161-184 | for every frame with ports, kernel key and `flowFromBPFKey` give the flow that `Account` builds iff it is IPv4 or IPv6 without extension header |
| Sockets.NewResolver | internal/netmon/proc.go:130-146 | the resolver holds exactly the set of the entries, repetitions dropped |
| Sockets.WildcardCandidates | internal/netmon/proc.go:156-179 | the candidates of a UDP flow in order of precedence |
| Sockets.Resolve | internal/netmon/proc.go:148-186 | the verdict is that of the set specification: the first key present decides, one distinct inode and one owner; reason 0 means success |
| Sockets.FoundIff | internal/netmon/proc.go:148-204 | a process is found iff the first key of the precedence list that any socket has, has one inode, held by that process alone |
| Sockets.ConnectionIff | internal/netmon/proc.go:148-154 | for anything but UDP a process is found iff one socket has exactly this tuple and it alone holds it; without such a socket, or a holder, there is no match |
| Sockets.UnmatchedIff | internal/netmon/proc.go:181-198 | there is no match iff no key of the list has a socket, or the first that has one has one that nobody holds |
| Sockets.PrecedenceOfIPv4Datagram | internal/netmon/proc.go:156-179 | the nine keys of an IPv4 datagram, written out |
| Sockets.PrecedenceOfIPv6Datagram | internal/netmon/proc.go:156-179 | the four keys between IPv6 ends, written out |
| Sockets.PrecedenceOfDatagramToIPv6 | internal/netmon/proc.go:156-179 | the six keys from an IPv4 to an IPv6 end |
| Sockets.PrecedenceOfDatagramToIPv4 | internal/netmon/proc.go:156-179 | the six keys from an IPv6 to an IPv4 end |
| Sockets.EvidenceNeverSwapsProcess | internal/netmon/proc.go:148-204 | more sockets and more owners, none under a key of higher precedence, only move the verdict upward in Unmatched, a process, Ambiguous, never to another process |
| Cgroups.AppendUniqueOwner | internal/netmon/cgroup.go:457-464 | an owner is appended iff no record of the same process is there |
| Cgroups.Resolve | internal/netmon/cgroup.go:212-243 | the loop over the namespaces computes the specified resolution |
| Cgroups.NamesProcessIff | internal/netmon/cgroup.go:216-234 | a process is named iff the sample is TCP or UDP and the namespaces of its cgroup together name exactly one process of that cgroup |
| Cgroups.NamedIff | internal/netmon/cgroup.go:218-227 | a namespace names an owner iff its sockets lead to one process that it has on record for the cgroup of the sample |
| Cgroups.NamedOwnerIsRecorded | internal/netmon/cgroup.go:229-234 | the named process comes with that record, marked as found by its socket |
| Cgroups.ElseContainerIff | internal/netmon/cgroup.go:235-242 | otherwise the container is used iff the cgroup is a container's; the reason is never "exited" |
| Cgroups.ReasonIff | internal/netmon/cgroup.go:213-243 | the reason is "unsupported" for other protocols, "ambiguous" iff some namespace is ambiguous or two processes are named, else "unmatched" |
| Cgroups.NamespaceOrderIsIrrelevant | internal/netmon/cgroup.go:218-234 | with one record per process the outcome is the same for all resolvers that show the same processes and sockets, in every order of the namespaces |
| SystemLoading.AppendUniqueProcess | internal/netmon/cgroup.go:448-455 | a process is appended iff it is not there |
| SystemLoading.GatherNamespaces | internal/netmon/cgroup.go:154-192 | per namespace: exactly its processes with their records, its cgroups, its smallest PID, and each socket's holders in the order scanned, without repetitions; per cgroup the last workload |
| SystemLoading.FileNamespace | internal/netmon/cgroup.go:202-204 | the resolver is appended to the list of each cgroup of the namespace and to no other |
| SystemLoading.LoadSystemResolver | internal/netmon/cgroup.go:129-210 | each cgroup lists, once each, the resolvers of the namespaces it has a process in, built from the sockets the smallest PID sees; one record per process follows; an error is never returned beside a resolver |
| SystemLoading.LoadsShowTheSame | internal/netmon/cgroup.go:129-210 | two loads of the same scan and tables, visiting maps in any order, show the same namespaces to every cgroup |
| SystemLoading.EveryScanIsRecorded | internal/netmon/cgroup.go:175-205 | every scanned process can be named for its own cgroup, with its own identity, cgroup, namespace and workload |
| SystemLoading.LastWorkloadStays | internal/netmon/cgroup.go:175-176 | each cgroup seen has the workload of the last process scanned in it |
| SystemLoading.HolderIff | internal/netmon/cgroup.go:189-191 | the holders of a socket are the scanned processes of the namespace that have it |
| Naming.ConnectionIsNamed | internal/netmon/cgroup.go:129-243 | a TCP connection listed once, held by one scanned process and listed in no other namespace of its cgroup, is attributed to that process with its record |
| Windows.DirectionTX | internal/netmon/aggregate.go:79-93 | the interface's MAC decides, then a local source address |
| FrameBooking.OwnMacDecides | internal/netmon/aggregate.go:79-87 | for any frame, the interface's MAC as source makes it outgoing, and otherwise as destination incoming |
| FrameBooking.IPv4SourceDecides | internal/netmon/aggregate.go:88-93 | where no MAC decides, an IPv4 packet is outgoing iff its source is a local address |
| FrameBooking.IPv6SourceDecides | internal/netmon/aggregate.go:88-93 | so is an IPv6 packet, mapped sources unmapped |
| FrameBooking.OtherFramesComeIn | internal/netmon/aggregate.go:79-93 | anything that is not IP is incoming unless the interface's MAC sent it |
| FrameBooking.DestinationIff | internal/netmon/aggregate.go:35-62 | without ports a packet is "unsupported", without resolver "unmatched", and else goes to the process, or the reason, that its tuple is judged by |
| FrameBooking.EveryFrameIsBookedOnce | internal/netmon/run_linux.go:94-107 | over every run, each process and each reason is booked exactly the bytes of the frames that go to it, those of the files and of the open window together |
| FrameBooking.FrameCountsItsLength | internal/netmon/run_linux.go:96-107 | a frame counts with its length on the wire, or what was captured if that is unknown, in one direction |
| FrameBooking.FallbackRowsAreExact | internal/netmon/aggregate.go:289-308 | a fallback file has a row for each process of the window that still runs, with the rate of its bytes, and no other |
| FrameBooking.FallbackTotalsAreExact | internal/netmon/aggregate.go:277-311 | each reason of a fallback file is the rate of what was booked to it; processes that no longer run count as exited and as unknown |
| Windows.Window.Account | internal/netmon/aggregate.go:23-64 | a packet is captured once and booked once, to the process its socket names or to the reason, in one direction |
| Windows.Window.Observe | internal/netmon/aggregate.go:66-77 | a packet is captured and booked nowhere |
| Windows.Window.AddUnknown | internal/netmon/aggregate.go:95-111 | the total and the reason's share grow together |
| Windows.Window.Snapshot | internal/netmon/aggregate.go:277-311 | every number of the fallback snapshot, its rows up to order |
| Windows.AccountKeepsBalance | internal/netmon/aggregate.go:23-64 | accounting any packet anywhere keeps captured = unknown + processes and unknown = sum of the reasons, per direction |
| Windows.ObserveKeepsBalanceIff | internal/netmon/aggregate.go:66-77 | observing keeps the balance iff the packet is empty, and never books more than was captured |
| Rates.RateOfTotal | internal/netmon/aggregate.go:331-333 | shares rounded down add up to at most the rounded total and fall short by less than their number |
| Rates.QuotientIsFloor | internal/netmon/aggregate.go:331-333 | the rate is the exact integer quotient |
| Rates.RateIs | internal/netmon/aggregate.go:331-333 | in numbers: bytes per nanosecond in units of 1024 bytes per second, rounded down |
| SnapshotTypes.AddUnknownRate | internal/netmon/aggregate.go:313-329 | the rate is added to its own reason and no other |
| Accounting.Tabulate | internal/netmon/aggregate.go:172-202 | the three maps after the loop over the flows |
| Accounting.TabulatedAddsUp | internal/netmon/aggregate.go:176-202 | for any flows and resolver, the three maps hold exactly the bytes of the flows, per direction |
| Attribution.EachHoldsItsFlows | internal/netmon/aggregate.go:176-202 | for any flows and resolver: under each process, container and reason, and among the processes that still run or do not, exactly the bytes of the flows that resolve there |
| Attribution.EntriesAreOfFlows | internal/netmon/aggregate.go:178-195 | a process or container has an entry iff some flow resolves to it, with the owner or workload of the resolution |
| Accounting.Workloads | internal/netmon/cgroup.go:245-256 | exactly the containers, sorted by cgroup |
| Accounting.SettleProcesses | internal/netmon/aggregate.go:209-228 | rows and bytes of live processes; exited ones moved whole to their reason |
| Accounting.RateEntities | internal/netmon/aggregate.go:229-236 | rows of containers that do not round to zero, bytes of all |
| Accounting.AddTotals | internal/netmon/aggregate.go:243-265 | residual, unknown and captured rates per direction |
| Accounting.SnapshotCgroupFlows | internal/netmon/aggregate.go:168-267 | every number of the eBPF snapshot, its rows up to order |
| Attribution.ProcessRowsAreExact | internal/netmon/aggregate.go:205-228 | one row for each running process that some flow resolves to, with the rate of all its flows and its workload, and no other row |
| Attribution.EntityRowsAreExact | internal/netmon/aggregate.go:229-236 | one row for each container that some flow falls to, with its workload and rate, unless that rounds to nothing |
| Attribution.WorkloadRowsAreContainers | internal/netmon/cgroup.go:245-256 | every workload with a container ID, pod or container name is listed, and no other |
| Attribution.TotalsAreExact | internal/netmon/aggregate.go:209-265 | each reason is the rate of its own flows, exited processes included; what exceeds the flows is unmatched, and captured is the larger of both |
| AccountingTheorems.BytesAreConserved | internal/netmon/aggregate.go:176-265 | live processes, containers and reasons hold exactly the flow bytes, and with the residual exactly the larger of these and the captured bytes |
| AccountingTheorems.ExitedMovesWhole | internal/netmon/aggregate.go:209-220 | bytes of exited processes reach their reason whole, nothing lost or counted twice |
| AccountingTheorems.RatesStayWithinCaptured | internal/netmon/aggregate.go:227-265 | process, container and unknown rates add up to at most the captured rate and fall short by at most the number of live processes and containers |
| AccountingTheorems.ReasonsStayWithinUnknown | internal/netmon/aggregate.go:238-256 | the reasons add up to at most the unknown rate and fall short by at most four |
| AccountingTheorems.WindowRatesStayWithinCaptured | internal/netmon/aggregate.go:277-311 | the same bounds for the fallback snapshot of any window that books no more than it captured, for any start times |
| AccountingTheorems.CoverageNeedsNoClamp | smon.sh:412-415 | with no more unknown than captured per direction the coverage percentage is unclamped |
| AccountingTheorems.PercentIs | smon.sh:412-415 | the percentage for any numbers, clamps included |
| AccountingTheorems.FlowOrderIsIrrelevant | internal/netmon/aggregate.go:176-202 | the three maps depend only on the multiset of the flows |
| Sorting.Sort | internal/netmon/snapshot.go:44 | a sorted permutation |
| Sorting.SortIsUnique | internal/netmon/snapshot.go:44 | when equal keys mean equal rows there is only one sorted order |
| SnapshotTypes.SortedListingIsUnique | internal/netmon/snapshot.go:44-74 | two listings of one map, sorted by a key that determines the row, are the same sequence |
| CanonicalOutput.LivePidsAreDistinct | internal/netmon/aggregate.go:209-228 | at most one row per PID, because at most one process per PID is alive |
| CanonicalOutput.EntitiesAreFiled | internal/netmon/aggregate.go:187-194 | a container row carries the cgroup it is booked under |
| CanonicalOutput.FileIsCanonical | internal/netmon/snapshot.go:44-83 | equal multisets of flows, with resolvers that show the same namespaces in any order, and with maps and unstable sorts in any order, give the same file, character for character |
| CanonicalOutput.LoadsPublishTheSameFile | internal/netmon/snapshot.go:44-83 | two loads of the same scan and tables, given the same flows in any order, publish the same file, character for character |
| SnapshotText.WriteSnapshot | internal/netmon/snapshot.go:25-83 | the text is the first line and the rows of each kind, each kind a sorted permutation of its rows |
| SnapshotText.CleanIsPlain | internal/netmon/snapshot.go:98-104 | a cleaned field is never empty and holds no tab or line break |
| SnapshotReader.NetSnapshot.SetFallback | smon.sh:311-335 | the values shown without a file, and the reason shown with them |
| SnapshotReader.NetSnapshot.Load | smon.sh:337-436 | a file is rejected for exactly the specified reasons, leaving all fallback values and the reason's text; otherwise the tables are those of the three passes and the totals those of the first line |
| SnapshotReader.NetSnapshot.ReadRows | smon.sh:370-411 | the passes over the lines compute the specified tables, for every version |
| SnapshotReader.ComputePercent | smon.sh:412-415 | the coverage percentage with its clamps |
| TabFields.LinesOfText | internal/netmon/snapshot.go:40-83 | a text of lines without tabs or line breaks in their fields splits into exactly those lines |
| TabFields.ReadJoined | smon.sh:371 | reading with adjacent tabs taken as one drops exactly the empty fields and moves the others up |
| TabFields.LineRoundTripIff | smon.sh:371 | a printed line comes back field by field iff no field without its NULs is empty before one that is not |
| TextRoundTrip.ProcessLineIsRead | smon.sh:370-389 | reading a printed process line, version 3 or 4, whose fields of NULs stand only at its end, adds exactly its normalised row |
| TextRoundTrip.EntityLineIsRead | smon.sh:391-411 | so does reading a printed container line |
| TextRoundTrip.WorkloadLineIsRead | smon.sh:399-404 | so does reading a printed workload line |
| TextRoundTrip.LinesOfFile | internal/netmon/snapshot.go:25-83 | the file has exactly one line per row after the first |
| TextRoundTrip.MetaIsRead | smon.sh:345 | all 23 fields of the first line come back, whatever the rows are |
| TextRoundTrip.AcceptedIff | smon.sh:346-368 | a printed file is accepted iff the interface is the reader's and the file is at most three intervals and two seconds old, at least three seconds being granted |
| TextRoundTrip.SnapshotRoundTrip | smon.sh:345-411 | for every version 3 or 4 snapshot whose lines come back, the tables read are the normalised rows: cleaned text, a dash for nothing, default scopes |
| ReadTables.EveryRowIsRead | smon.sh:370-404 | in the tables of a version 3 or 4 file a PID has its last process row and no other PID has any, containers are listed in order, and a container ID has the workload of the last line that names it, workload lines before container and process lines, and its path |
| ReadTables.EveryProcessIsFound | smon.sh:370-389 | with distinct PIDs each process is found under its own |
| TextRoundTrip.WriteThenLoad | smon.sh:337-436 | printer and reader composed: rows and totals are taken over iff the file is accepted, and the fallback values are shown otherwise |
| ReadBack.ProcessReads | smon.sh:370-389 | said without the reader's functions: a process row shows its numbers in decimal and its names character by character, with spaces for tabs and line breaks, nothing for a dash, and "host" for no scope |
| ReadBack.EntityReads | smon.sh:391-411 | a container is listed with ten fields, a dash for nothing |
| ReadBack.WorkloadReads | smon.sh:391-411 | and files its workload likewise |
| ReadBack.NulsDoNotShow | smon.sh:371-374 | NULs in a field count for nothing, wherever they stand |
| ReadBack.NoContainerNoWorkload | smon.sh:376 | a row without a container ID files no workload, neither under nothing nor under a dash |
| ReadBack.MetaReads | smon.sh:412-436 | what the front end shows of the first line of an accepted file: totals, the eight reason counts in order, and the labels with their defaults |
| ReadBack.AcceptsIff | smon.sh:345-368 | any first line is accepted iff version, interface, every number and the age are right |
| ReadBack.ProcessLineCounts | smon.sh:370-389 | any line at all: a process line with four whole numbers sets the entry of its PID, other lines nothing |
| ReadBack.EntityLineCounts | smon.sh:391-411 | a container line with three whole numbers adds one container, other lines nothing |
| ReadBack.WorkloadLineCounts | smon.sh:399-404 | a workload line with a number and a container ID sets the path and workload of that ID, other lines nothing |
| ReadTables.FieldsReadBackIff | smon.sh:371 | for any snapshot and any of its lines, every field is read into its own variable iff none of NULs only stands before one that is not |
| ReadTables.FieldOfNulsShifts | smon.sh:371 | after one field of NULs only every variable reads the field after its own |
| ReadTables.ScopeOfNulsReadsRuntime | smon.sh:371 | for such a scope the shell takes the runtime |
| RunLoop.Collector.Read | internal/netmon/run_linux.go:96-107 | with eBPF a packet is observed, without it accounted |
| RunLoop.Collector.CountDrops | internal/netmon/run_linux.go:116-124 | the increase of the counter, none when it fell or could not be read |
| RunLoop.Collector.Take | internal/netmon/run_linux.go:115-161 | the snapshot at a tick, from eBPF if usable, else from the window, and the variables it changes |
| RunLoop.Collector.TakeTurn | internal/netmon/run_linux.go:89-173 | one turn of the loop, in every case of capture, time, polling and writing |
| RunLoop.Run | internal/netmon/run_linux.go:83-173 | any number of turns is a run of the specification from the initial state |
| RunTheorems.EveryPacketInOneWindow | internal/netmon/run_linux.go:94-173 | over every run the files' packets and the open window's are exactly the packets read, and the captured bytes likewise, per direction |
| RunTheorems.DropsTelescope | internal/netmon/run_linux.go:116-124 | the drops of the files are the last total read plus the counter's setbacks, across polls that could not read it |
| RunTheorems.DropsExactIff | internal/netmon/run_linux.go:116-124 | they are the last total read iff the counter never fell below an earlier one |
| RunTheorems.OkIff | internal/netmon/run_linux.go:126-145 | a file says "ok" iff it is eBPF's, the deciding walk was complete, and processes could be listed without an error |
| FileStatus.OkOfLoadedIff | internal/netmon/run_linux.go:126-145 | when the processes come from a load, a file says "ok" iff eBPF is on and the deciding walk was complete |
| FileStatus.OkMeansAllReadIff | internal/netmon/cgroup.go:195-209 | "ok" implies that every namespace's sockets were read iff they all were, or eBPF is off, or the deciding walk was not complete |
| FileStatus.WriteQuietSecond | internal/netmon/run_linux.go:126-145 | whichever tables could be read, a turn of the loop after the load writes a file that says "ok" |
| FileStatus.WriteOkUnread | internal/netmon/cgroup.go:195-209 | a file says "ok" although the only namespace could not be read |
| RunTheorems.EveryFileIsHonest | internal/netmon/run_linux.go:126-161 | every file is of version 4, "ok" only from eBPF, "partial" only with a reason |
| RunTheorems.SwitchIsForGood | internal/netmon/run_linux.go:146-161 | after a fallback file there are only fallback files |
| RunTheorems.EveryFileAddsUp | internal/netmon/run_linux.go:94-161 | over every run, the rates of every file's rows and unknown part stay within the captured rate and its reasons within the unknown part |
| RunTheorems.FallbackBooksBalance | internal/netmon/run_linux.go:102-107 | while the loop runs without eBPF the open window is balanced to the byte |
| RunTheorems.EveryRunFromTheStart | internal/netmon/run_linux.go:83-173 | over every run from the start: every file honest and adding up, fallback for good, every packet and byte in exactly one window, the fallback window balanced |
| RunFiles.FileIff | internal/netmon/run_linux.go:89-113 | from the start, a file is written iff no read failed, the interval since the last file has passed, and it can be written |
| RunFiles.FileSpansItsWindow | internal/netmon/run_linux.go:113-146 | a file is dated to the millisecond and covers the time since its window was opened; its captured rate is at least, and without eBPF exactly, the rate of the window's bytes over this time |
| RunFiles.EbpfInUseIff | internal/netmon/run_linux.go:126-161 | over every run, eBPF is in use iff it could be opened and no poll has failed, with the baselines the decided walks left, and the sockets known are those of the last file |
| RunFiles.EbpfFileIsExact | internal/netmon/run_linux.go:126-145 | a file of eBPF shows the flows of the walk that decided its poll, each booked to what it resolves to, over the time of its window |
| RunFiles.FileSaysWhy | internal/netmon/run_linux.go:126-161 | the reason a file gives, for every outcome of its poll |
| RunFiles.OneReasonForAll | internal/netmon/run_linux.go:146-161 | all fallback files of a run give the same reason |
| RunTheorems.CoverageIsNeverClamped | smon.sh:412-415 | the percentage of such a file is never clamped |
| ProcText.SwapWords | internal/netmon/proc.go:116-119 | each word of the array is reversed in place |
| ProcText.ParseProcAddrPort | internal/netmon/proc.go:98-128 | as specified, every malformed text rejected |
| ProcText.ParseSocketTable | internal/netmon/proc.go:65-96 | the loop skips the heading and every malformed or inode-less line |
| ProcLaws.SwapIsInvolution | internal/netmon/proc.go:116-119 | swapping twice changes nothing |
| ProcLaws.IPv4TextRoundTrip | internal/netmon/proc.go:98-128 | every IPv4 address and port comes back from the kernel's text |
| ProcLaws.IPv6TextRoundTrip | internal/netmon/proc.go:98-128 | so does every IPv6 address, IPv4-mapped ones unmapped |
| ProcLaws.AddressIff | internal/netmon/proc.go:98-128 | a text is an address iff it has eight hexadecimal digits, thirty-two for IPv6, a colon, and a port that fits |
| ProcLaws.EntryIff | internal/netmon/proc.go:73-92 | a line lists a socket iff it has ten columns, two addresses and a decimal inode other than zero |
| ProcLaws.TableRoundTrip | internal/netmon/proc.go:65-96 | a kernel table with any spacing and any other columns yields exactly its sockets that have an inode, in order |
| ProcLaws.StartTimeRoundTrip | internal/netmon/proc.go:255-270 | field 22 is found whatever the command is called |
| Catalog.MergeWorkload | internal/netmon/cgroup.go:427-446 | field by field, the later text unless it says nothing |
| Catalog.MergeIsAssociative | internal/netmon/cgroup.go:427-446 | descriptions may be merged among themselves first |
| Catalog.PodAbsorbs | internal/netmon/cgroup.go:428-430 | over any number of merges the scope is "pod" iff one description says so |
| Catalog.MergeOrderIrrelevantIff | internal/netmon/cgroup.go:427-446 | two sources may answer in either order iff they do not contradict each other |
| CatalogOrder.CatalogOrderIrrelevantIff | internal/netmon/runtime_metadata.go:119-133 | any permutation of any number of answers gives the same catalog iff no two descriptions of one container contradict each other; scopes are never contradicted once one says "pod" |
| Catalog.WorkloadCatalog.MergeItem | internal/netmon/runtime_metadata.go:182-193 | one item is merged under its own ID, or none without an ID |
| Catalog.WorkloadCatalog.MergeItems | internal/netmon/runtime_metadata.go:119-133 | after any sequence of merges every item is filed under its own, non-empty container ID |
| Catalog.ItemIsMerge | internal/netmon/runtime_metadata.go:182-193 | an item is the merge of everything said about it, defaults filled in once |
| CatalogOrder.LastWordWins | internal/netmon/cgroup.go:427-446 | each field of an item is the last text that any source gave for its container, "cri" being none for the runtime; the scope is "pod" if one said so, and "container" if none said anything |
| Catalog.WorkloadCatalog.Lookup | internal/netmon/runtime_metadata.go:162-180 | whatever order the keys are visited in, the exact item, else the only related one, else none |
| Catalog.FoundIff | internal/netmon/runtime_metadata.go:162-180 | an item is found iff its ID is asked for or it is the only one whose ID is a prefix of the ID asked for or starts with it |

## Left out

- `float64` rounding in the rate: the quotient is exact here, and byte counts are unbounded naturals without wrap-around.
- An addition that reaches an evicted entry is counted as dead: that the kernel may reuse the entry's memory for another key meanwhile is not part of this model.
- The kernel's choice of which entry to evict: any entry may be evicted at any time.
- A completed walk that the poll discards because the process list cannot be read: the loop closes the collector at that point, so its baselines are never used again.
- The directory scans of `/proc`, cgroup path and log-name matching, and the regular expressions they use: scanned processes are inputs.
- `StartTime` of a live process is a fixed function of the PID while one snapshot is taken.
- AF_PACKET handles, loading and attaching the eBPF programs, signals, temporary files and renames: their outcomes are inputs of the loop's turns.
- CRI and gRPC calls, endpoint discovery, JSON metadata, the metadata cache and its lifetime; only the merges of the catalog are modelled.
- Endpoints of metadata are asked one after another here; waiting for them and their time limits are not part of the model.
- Wall-clock time is a number per turn; monotonicity is not assumed.
- The shell's operating-system test, protocol lists and locale are left out, and characters stand for bytes.
- Versions 1 and 2 of the file are read by the model's reader but have no printer in the collector.
- The direction byte of a key has the two values the kernel program writes, and the key's padding is not modelled.
- `unknown[UnknownUnmatched] = residual` in the collector is never read again and is omitted.
- Catalog.MergeWorkload: returns the merged value where the source updates its target in place, because workloads are values in Go and no alias of the target exists.
- SnapshotText.WriteSnapshot: sorts copies where the source sorts the snapshot's own slices in place, since the snapshot is discarded afterwards.
- ProcText.ParseSocketTable: takes the lines of the table; the scanner's limit on the length of a line is not modelled.
- TextRoundTrip.SnapshotRoundTrip: does not cover files with a line that has a field of NULs only before another text, because such a line does not come back; the exact condition is FieldsReadBackIff.
