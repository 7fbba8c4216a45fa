# SwiftTunnel relay: a verified model

The relay carries IPv4 packets between game clients and game servers. This project models the parts of it whose
correctness is hardest to see from the code, and proves what they promise.

- **Packet rewriting and checksums** (`OnesComplement`, `TunRewrite`, `RewriteTheorems`, `Fragments`): the TUN path
  changes an address inside a packet and recomputes the checksums, or patches them incrementally in fragment 0. The
  patch is compared with the recomputation over every packet and every fragmentation. The checksums are those of
  sections 1 and 2 of RFC 1071, equation 3 in section 3 of RFC 1624, RFC 768, section 3.1 of RFC 9293 and sections 3.1
  and 3.2 of RFC 791.
- **The v2 datapath as a protocol** (`Datapath`, `DatapathRuns`, `DatapathDelivery`, with `Subsequences`): buffer indices
  passed between the receive thread, the shards and the send thread, over every interleaving; what can be lost, and that
  nothing else is.
- **A shard's tables** (`Shard`, `ShardRuns`): three maps that must agree, the token allocator, and the two-phase removal
  of silent flows over whole runs.
- **Session admission** (`Tickets`, `ReplayCache`, `Sessions`, `SessionRuns`, `SessionLeases`, `SessionCounts`,
  `SessionEffects`, `SessionTimes`, `RateLimiter`): tickets and their single use, leases, owners, endpoints, per-source counters and rate windows; as a
  class, and as an interleaving of the receiving thread with cleanup, shards and senders in which inserting, counting,
  the two parts of a decrement and removing are separate steps. `SessionEffects` and `SessionTimes` state what must happen:
  exactly when a hello binds, a frame goes on, data is sent and a session is removed.
- **Account budgets** (`AccountBudget`, `BudgetThreads`, `BudgetBounds`, `BudgetSlack`, `Budgets`, `BudgetHistory`):
  windows, the shared slot counter and eviction; as a class, as an interleaving of atomic steps in which eviction reads
  idleness and references separately, and the theorem that connects the two. `BudgetHistory` holds answers, tracked flows
  and eviction against the history of what was offered.
- **The v1 flow table** (`FlowTable`): generation tokens, handlers, and the session index under concurrency.
- **Destination policy** (`PrefixSet`, `DestPolicy`): sorted, collapsed prefix sets against plain membership.
- **TUN addresses** (`TunMap`, `TunRuns`): two maps that must be inverse to each other; as a class, and as an interleaving
  of the writer thread with cleanup, one map operation a step.
- **Replies and client packets** (`Reply`, `ClientPackets`): the two packet builders against one answer, and the parser
  against packets put together from their parts.

`Bytes` and `Sums` hold shared definitions. Objects the relay updates in place are classes; packets rewritten in place are
arrays; protocols between threads are state machines whose runs are arbitrary sequences of steps, a step that is not
enabled being skipped. Times are natural numbers, nanoseconds where the relay uses `Instant` and seconds where it uses
the Unix clock. Strings are sequences of characters, each taken as one octet.

Where the outcome differs from what one would first expect, the exact condition is proved:

- Patching fragment 0 agrees with recomputing the datagram's checksum if and only if the checksum verified before, or UDP
  carried none, except for TCP with an all-ones checksum and an address changed from 255.255.255.255 to 0.0.0.0
  (`Fragments.RewriteCommutesWithReassembly`, with such fragments in `Fragments.LostCarryFragments`). The relay's own
  rewrites, to and from its TUN addresses, never meet the exception (`TunMap.TunRewriteCommutesWithReassembly`).
- Rewriting an address and then back restores a packet if and only if both checksums verified when it arrived, or UDP
  carried none, and neither the header's nor a TCP checksum was written as all ones
  (`RewriteTheorems.RewriteThereAndBack`).
- After a rewrite a receiver's check passes if and only if UDP carries no checksum, or the declared length covers the
  transport header, lies within the IP payload, and the bytes beyond it, if any, add up to nothing: the relay recomputes
  over the IP payload (`RewriteTheorems.RewriteVerifies`). A receiver refuses a UDP length below eight, the least RFC 768
  allows. `RewriteTheorems.RewriteCanSpoilChecksum` gives a packet that is accepted before and refused after every rewrite.
- A ticket is used at most once in every run exactly for clocks that never fall more than 31 seconds behind, one more than
  the allowed skew (`ReplayCache.SingleUseExactlyUpToSkew`).
- A budget window can be spent again after an eviction. Every run stays within its budget if and only if accounts are
  created again in a later second, or with a limit on new flows a later minute, than their last charge
  (`BudgetSlack.BudgetExactlyAfterLastCharge`). When no packet is admitted between the two reads of an eviction, that is
  timestamps at most 599 seconds, or 540, before the evicting pass (`BudgetSlack.BudgetExactlyUpToSlack`). When one is, no
  distance is enough (`BudgetSlack.DisturbedEvictionSpendsTwice`): the comment at src/account_budget.rs:250-251 promises that
  no allowance is split while an event holds its account, but the code reads idleness before it counts references, and an
  event can end in between. The model follows the code.
- A source's counter is its number of sessions, but for those in hand, in every state of a run if and only if every
  counter that cleanup removed stood at one (`SessionCounts.CountsExactlyWhenWipesAre`); a session counted between the
  read and the removal is lost (`SessionCounts.CountIsLost`). The equivalence is over all states because a lost count
  can come right again when its session goes.
- A session removed by cleanup just after a frame for it passed the check is created anew without owner or lease
  (`SessionLeases.OrphanedFromTheStart`); sessions are under a lease in every state if and only if that does not happen
  (`SessionLeases.EveryRunLeasedUnlessOrphaned`). In both cases nothing is sent to an endpoint that presented no ticket.
- The two TUN maps are inverse, but for what is in hand, in every state of a run if and only if cleanup never removes a
  session's mapping between the writer's look at its address and its write of the mapping
  (`TunRuns.MapsStayInverseExactlyUnlessOvertaken`). When it does, the mapping outlives its session
  (`TunRuns.OvertakenPacketLeavesStray`), and keeps the address from everyone else until that session sends again
  (`TunRuns.StrayStays`). The branch that refuses another session's mapping is still never reached.
- An answer longer than 65535 bytes cannot be parsed back (`Reply.AnswerParsesBack`).

## Model

| member | source | states |
|---|---|---|
| OnesComplement.FoldLoop | src/main.rs:3768-3770 | the carry loop terminates, stays in 32 bits and yields the representative of the sum modulo 65535 |
| OnesComplement.CalculateIpChecksum | src/main.rs:3754-3774 | for every header up to 128 KiB the loop returns the one's-complement checksum of its words, an odd last byte padded |
| OnesComplement.AdjustChecksumForAddrChange | src/tcp_tun.rs:662-682 | the five-term sum fits 32 bits and its fold is the incremental update of RFC 1624 |
| OnesComplement.AdjustedIsRecomputed | src/tcp_tun.rs:662-682 | the patched checksum equals the recomputed one if and only if the old one verified and the lost-carry case is not met; with UDP's all-ones rule, if and only if the old one verified |
| OnesComplement.ChecksumVerifies | src/main.rs:3754-3774 | a field set to the checksum of the rest makes the whole verify |
| OnesComplement.VerifiesIffNumber | src/main.rs:3754-3774 | a one's-complement sum verifies exactly when the bytes, as one number and padded to even length, are a nonzero multiple of 65535 |
| TunRewrite.RecalculateIpChecksum | src/tcp_tun.rs:687-704 | in place, the header checksum becomes that of the header with a zero field; a packet without a whole header is left alone |
| TunRewrite.TransportChecksum | src/tcp_tun.rs:727-774 | the pseudo-header and segment loops never overflow 32 bits and give the checksum of the transport sum |
| TunRewrite.RecalculateTcpChecksum | src/tcp_tun.rs:710-775 | in place, a TCP packet of sufficient length gets the checksum of its segment; any other is left alone |
| TunRewrite.RecalculateUdpChecksum | src/tcp_tun.rs:781-841 | the same for UDP, a zero field staying zero and a computed zero sent as all ones |
| TunRewrite.UpdateFragmentTcpChecksum | src/tcp_tun.rs:633-643 | in place, fragment 0 with 18 transport bytes gets the patched checksum |
| TunRewrite.UpdateFragmentUdpChecksum | src/tcp_tun.rs:645-660 | the same for UDP, a zero field staying zero |
| TunRewrite.RewriteIpField | src/tcp_tun.rs:564-600 | in place, the packet becomes the rewritten packet the theorems below are about, for every packet, runts included |
| RewriteTheorems.IpFixedVerifies | src/tcp_tun.rs:687-704 | after the header checksum is set the header verifies |
| RewriteTheorems.TransportFixedVerifies | src/tcp_tun.rs:710-841 | after the transport checksum is set the transport sum verifies, or UDP carries none |
| RewriteTheorems.RewriteFrame | src/tcp_tun.rs:564-600 | a rewrite of a whole packet changes the address and the two checksums and nothing else |
| RewriteTheorems.RewriteReachesEveryProtocol | src/tcp_tun.rs:564-600 | for every packet with a whole header, any protocol, fragment or not: the address is the new one, the header verifies, and beside the header checksum and the bytes of a TCP or UDP checksum nothing changes |
| RewriteTheorems.RewriteWithoutHeader | src/tcp_tun.rs:564-600 | a packet without a whole header has only its address changed, unless taken for TCP or UDP; a runt is left alone |
| RewriteTheorems.WholePacketOnBytes | src/tcp_tun.rs:710-809 | which packets the theorems on whole TCP and UDP packets are about, in bytes |
| RewriteTheorems.HeaderVerifiesOnBytes | src/tcp_tun.rs:687-704 | the receiver's header check in bytes: the header as a number is a multiple of 65535 |
| RewriteTheorems.TransportVerifiesOnBytes | src/tcp_tun.rs:710-841 | the receiver's transport check in bytes: UDP without a checksum, or a length that fits and pseudo-header and segment a multiple of 65535 as a number |
| RewriteTheorems.RewriteVerifies | src/tcp_tun.rs:564-600 | for every whole TCP or UDP packet, trailing bytes included, the header and the sum over the IP payload verify after a rewrite, UDP without a checksum stays without, and the receiver's check passes if and only if there is none or the declared length fits and the bytes beyond it add up to nothing |
| RewriteTheorems.RewriteCanSpoilChecksum | src/tcp_tun.rs:781-841 | a packet a receiver accepts, with bytes beyond its UDP length, that after every rewrite of either address no receiver accepts |
| RewriteTheorems.NoTail | src/tcp_tun.rs:781-841 | a UDP length equal to the IP payload length leaves no such bytes |
| RewriteTheorems.ReceiverChecks | src/tcp_tun.rs:797-841 | a checksum right for the IP payload is right for the declared length exactly when the tail vanishes |
| RewriteTheorems.RewriteTwice | src/tcp_tun.rs:564-600 | rewriting twice is rewriting once, to the last address |
| RewriteTheorems.RewriteThereAndBack | src/tcp_tun.rs:564-600 | rewriting an address and then back restores the packet byte for byte if and only if its header and transport sums verified, or UDP carried no checksum, and no field but UDP's was all ones |
| Fragments.LaterFragment | src/tcp_tun.rs:583-592 | a fragment other than the first keeps its payload, its header checksum updated |
| Fragments.FirstFragment | src/tcp_tun.rs:583-592 | fragment 0 gets the new address, the header checksum and the patched transport checksum |
| Fragments.RewriteThenReassemble | src/tcp_tun.rs:564-660 | what reassembling the rewritten fragments gives |
| Fragments.RewriteCommutesWithReassembly | src/tcp_tun.rs:564-682 | rewriting every fragment and reassembling equals reassembling and rewriting, byte for byte, if and only if the checksum verified or was omitted and no carry is lost |
| Fragments.LostCarryFragments | src/tcp_tun.rs:633-682 | two fragments of a TCP datagram with a verifying checksum whose rewriting does not commute with reassembly |
| Fragments.RewriteKeepsFragmentation | src/tcp_tun.rs:564-600 | the rewritten fragments are again all fragments of one datagram, offsets and lengths unchanged |
| Datapath.ApplyKeepsCount | src/datapath_v2.rs:204-217 | every step of every thread leaves the number of places each buffer index is in unchanged |
| DatapathRuns.ExclusiveOwnership | src/datapath_v2.rs:182-184 | a buffer a thread holds is held by no other thread, queued nowhere and not free |
| DatapathRuns.ReleaseNeverBlocks | src/datapath_v2.rs:209-217 | the bounded free list always has room for a buffer given back |
| DatapathRuns.EveryRunConserves | src/datapath_v2.rs:186-217 | in every interleaving each pool index is in exactly one place, held buffers are exclusive, and release never overflows |
| DatapathRuns.IdlePoolIsFull | src/datapath_v2.rs:186-217 | with no buffer in hand or queued, all are back in the free list |
| DatapathRuns.UsedFromEntered | src/datapath_v2.rs:804-808 | what a queue's reader sends out is a subsequence of what was put in, byte for byte |
| DatapathRuns.EnteredFromReceived | src/datapath_v2.rs:1806-1839 | what enters a shard's inbox is a subsequence of what was received for that shard |
| DatapathRuns.EveryRunKeepsFlowOrder | src/datapath_v2.rs:686-808 | in every interleaving the payloads handed to a flow's socket are a subsequence, byte for byte and in receive order, of those parsed for it, and only its session's shard sends them |
| DatapathRuns.EveryRunKeepsFrameOrder | src/datapath_v2.rs:1854-1916 | frames sent to clients are a subsequence of the frames queued, per queue |
| DatapathDelivery.LosslessStep | src/datapath_v2.rs:204-217 | a step keeps everything received or queued if and only if it is not a discard, a payload without a free buffer or a full inbox |
| DatapathDelivery.KeptExactlyUnlessLost | src/datapath_v2.rs:1011-1034 | the same for every run, in all its states |
| DatapathDelivery.EverythingIsDelivered | src/datapath_v2.rs:687-842 | without such a step, once nothing is in flight exactly the payloads received for a flow were sent on it, in order |
| DatapathDelivery.EveryFrameIsSent | src/datapath_v2.rs:1011-1034 | and every frame put into a queue of the send thread was sent |
| DatapathDelivery.NoThreadIsStuck | src/datapath_v2.rs:204-217 | a thread with a buffer in hand can always pass it on, use it or give it back, and an idle one can take what is queued for it |
| Shard.Shard.AllocateFlowToken | src/datapath_v2.rs:519-547 | terminates across wraparound with the first free nonzero token, or none exactly when every nonzero token is taken |
| Shard.SwapRemoveFacts | src/datapath_v2.rs:508-510 | swap_remove takes out one element of a duplicate-free list and no other |
| Shard.Shard.RemoveFromIndex | src/datapath_v2.rs:501-514 | the flow leaves its session's list, and an emptied list goes |
| Shard.AddedAgrees | src/datapath_v2.rs:786-797 | adding a flow under a free token below the session limit keeps the three tables in agreement |
| Shard.DroppedAgrees | src/datapath_v2.rs:876-882 | taking a flow out of all three tables keeps them in agreement |
| Shard.Shard.ClientPacket | src/datapath_v2.rs:691-808 | the tables agree afterwards; a flow is opened exactly when every limit, socket and token allows it; the flow is refreshed |
| Shard.Shard.Keepalive | src/datapath_v2.rs:826-844 | exactly the session's flows are refreshed, tables in agreement |
| Shard.Shard.RemoveSession | src/datapath_v2.rs:845-857 | exactly the session's flows go, with their tokens and list, tables in agreement |
| Shard.Shard.Response | src/datapath_v2.rs:589-626 | a response touches its token's flow exactly under a current lease |
| Shard.Shard.Cleanup | src/datapath_v2.rs:863-898 | due flows go from all three tables, silent ones are marked, tables in agreement |
| ShardRuns.OneEvent | src/datapath_v2.rs:619-625 | every event either touches a flow, clearing its mark, or leaves its activity and marks it only when silent |
| ShardRuns.EveryFlowTracked | src/datapath_v2.rs:799-802 | over every run a flow's recorded activity is its latest touch, and a mark lies a full timeout later |
| ShardRuns.CleanupRemovesOnlySilentFlows | src/datapath_v2.rs:871-896 | over every run cleanup removes a flow only 210 seconds after every client packet, keepalive or response under a live lease |
| ShardRuns.FlowsStay | src/datapath_v2.rs:845-896 | only a due cleanup or the removal of its session takes a flow away |
| ShardRuns.NothingIsRevived | src/datapath_v2.rs:883-886 | the branch that takes a mark back is never reached |
| ShardRuns.SilentFlowGoes | src/datapath_v2.rs:871-896 | a flow silent at one pass and untouched since is gone after a pass 30 seconds later, over every run |
| ShardRuns.AnswersFollowTheClient | src/datapath_v2.rs:799-802 | over every run a flow's addressing is that of its latest client packet, its client that of the latest packet or keepalive |
| ShardRuns.PacketHasFlow | src/datapath_v2.rs:705-802 | after a client packet its flow is there if and only if it was known or could be opened, and keeps its token |
| ShardRuns.RemovalTakesSession | src/datapath_v2.rs:845-869 | the removal of a session takes all its flows and leaves every other as it was |
| Tickets.HexInjective | src/main.rs:841-844 | two session identifiers with the same 16-digit text are the same |
| Tickets.VerifiedTicket | src/main.rs:782-867 | an accepted ticket names this session and no other, expires in the future but within 930 seconds, and carries a lease |
| Tickets.VerifiesExactly | src/main.rs:782-867 | a token gives a ticket if and only if there is a key, the signature is good and every claim is as it must be, in numbers and characters |
| Tickets.SidTextReadsBack | src/main.rs:841-844 | the sixteen hexadecimal digits of a session identifier read back as it |
| ReplayCache.Cache.PruneExpired | src/main.rs:497-513 | at most every 30 seconds, exactly the entries more than 30 seconds past expiry go |
| ReplayCache.Cache.AcceptOnce | src/main.rs:485-495 | refused exactly when still remembered, otherwise remembered with its expiry |
| ReplayCache.RememberedOrOver | src/main.rs:485-513 | what was accepted stays remembered until a time more than 30 seconds past its expiry was seen |
| ReplayCache.TicketUsedOnce | src/main.rs:869-881 | a ticket is accepted at most once in every run whose clock never falls more than 31 seconds behind |
| ReplayCache.SingleUseExactlyUpToSkew | src/main.rs:485-513 | 31 seconds is the largest such lag |
| ReplayCache.UnusedIsAccepted | src/main.rs:485-495 | a ticket that has not expired is refused only if one with its identifier was accepted before |
| ReplayCache.AcceptedExactlyOnce | src/main.rs:485-513 | with one ticket to an identifier and a clock within 31 seconds, a ticket is accepted if and only if it has not expired and was not accepted before |
| Sessions.Relay.Increment | src/main.rs:525-531 | one more session for the source, from zero if absent |
| Sessions.Relay.Decrement | src/main.rs:533-544 | run alone, one fewer, absent at zero; its two operations are separate steps in SessionRuns |
| Sessions.Relay.Rebind | src/main.rs:546-557 | run alone, one moves from the old source to the new, nothing if they are the same |
| Sessions.Relay.CheckFrame | src/datapath_v2.rs:1254-1352 | who passes: a fresh valid ticket, or the bound endpoint of a session under a current lease, then the limits; another endpoint is asked to authenticate again |
| Sessions.Relay.Upsert | src/datapath_v2.rs:1354-1395 | the session is created or refreshed, and moved only where authentication is off |
| Sessions.Relay.Receive | src/datapath_v2.rs:1254-1804 | a whole frame, the counters in balance afterwards |
| Sessions.Relay.Cleanup | src/datapath_v2.rs:1113-1148 | exactly the sessions silent for 210 seconds or 60 seconds past their lease go, the counters in balance |
| Sessions.Relay.Carry | src/datapath_v2.rs:615-630 | a response refreshes its session exactly under a current lease |
| Sessions.AuthenticatedEffect | src/datapath_v2.rs:1257-1460 | where authentication is required, a hello either binds its session to the ticket's user and endpoint or changes nothing; another frame at most refreshes its own endpoint's session |
| Sessions.ReplacedBalances | src/datapath_v2.rs:1447-1460 | changing a session and the counters with its endpoint keeps every source's count |
| Sessions.CountersAddUp | src/main.rs:516-557 | counters that agree with the sessions sum to their number |
| SessionEffects.ForwardsExactly | src/main.rs:693-706 | a packet is sent to an address if and only if it is the session's and the session is authenticated under a lease, or with authentication off its lease, if any, is not over |
| SessionEffects.HelloAnsweredExactly | src/datapath_v2.rs:1254-1485 | the answer to every hello, case by case; a fresh valid ticket within the limits binds unless another user owns the session |
| SessionEffects.FrameGoesOnExactly | src/datapath_v2.rs:1286-1490 | with authentication, a frame goes on and refreshes its session if and only if it comes from the holder and is within the packet limit; another endpoint is asked to authenticate |
| SessionEffects.OpenFrameExactly | src/datapath_v2.rs:1322-1412 | without, every frame within the limits goes on, and its session is created or moved to the sender |
| SessionEffects.RemovedExactly | src/datapath_v2.rs:1113-1148 | cleanup removes a session if and only if it was silent for 210 seconds or its lease ran out 60 seconds ago |
| SessionEffects.CleanupStartsExactly | src/datapath_v2.rs:1113-1148 | in the interleaved form cleanup takes hold of a session if and only if it is over in that sense and no thread is changing it |
| SessionEffects.ResponseRefreshes | src/datapath_v2.rs:615-630 | a response refreshes its session and changes nothing else |
| SessionEffects.BoundHelloIsServed | src/main.rs:693-706 | from every reachable state at rest, after a hello answered as bound data goes to its endpoint at every time before the ticket expires, through every run without another hello for the session or the start of its removal |
| SessionTimes.LastActivityIsLastUse | src/datapath_v2.rs:1364-1378 | over every run a session's last activity is its latest accepted frame or carried response |
| SessionTimes.KeptExactlyWhileUsed | src/datapath_v2.rs:1113-1148 | over every run, a pass keeps a session if and only if it was used within 210 seconds and its lease did not run out 60 seconds ago |
| SessionTimes.OnlyCleanupRemoves | src/datapath_v2.rs:1113-1148 | no frame and no response removes a session |
| SessionRuns.EveryRunSendsToPresenter | src/main.rs:693-706 | in every interleaving a data packet sent at time t goes to an endpoint whose ticket for this session and owner verified and expires after t |
| SessionRuns.EveryRunUsesTicketsOnce | src/main.rs:869-881 | in every interleaving no ticket passes twice, for clocks at most 31 seconds behind |
| SessionRuns.OwnerKept | src/datapath_v2.rs:1423-1460 | every step keeps an authenticated session's owner or removes the session |
| SessionRuns.EveryRunKeepsOwner | src/datapath_v2.rs:1414-1460 | from any reachable state on, a session that is not removed keeps its owner |
| SessionLeases.LeaseStep | src/datapath_v2.rs:1306-1460 | a step leaves only leased sessions exactly when it is not the map access of a frame without a ticket whose session is gone |
| SessionLeases.EveryRunLeasedUnlessOrphaned | src/datapath_v2.rs:1306-1460 | in every run every session is authenticated under a lease, but for one being given a ticket, if and only if no frame without a ticket found its session gone at the map |
| SessionLeases.RemovalBehindTheCheck | src/datapath_v2.rs:1306-1395 | a session removed between the check and the map access is created anew without a lease, and nothing is forwarded for it |
| SessionLeases.OrphanedFromTheStart | src/datapath_v2.rs:1117-1395 | a run from the start that does so: a hello, 210 silent seconds under its lease, a frame and the removal |
| SessionLeases.UninterruptedFrame | src/datapath_v2.rs:1254-1804 | the steps of a frame, undisturbed, do what handling it at once does |
| SessionLeases.RemovalRun | src/datapath_v2.rs:1117-1148 | the steps of removing a session, undisturbed, do what removing it at once does |
| SessionCounts.EraseFindsOne | src/main.rs:533-557 | while the counters are right, moving a session removes its old counter only at one |
| SessionCounts.LedgerStep | src/main.rs:516-557 | a step keeps every counter right, but for what is in hand, exactly when it removes no counter that does not stand at one |
| SessionCounts.CountsExactlyWhenWipesAre | src/main.rs:533-544 | in every run and mode the counters are right in every state if and only if every counter cleanup removed stood at one |
| SessionCounts.EveryRunConservesCounts | src/datapath_v2.rs:1117-1395 | at rest the active count is the number of sessions in every run, and under that condition each counter is the number of the source's sessions, absent when zero, summing to all |
| SessionCounts.CalmRunConserves | src/main.rs:525-544 | the condition holds where nothing is counted for a source between cleanup's read and removal of its counter, and no increment is outstanding at the read |
| SessionCounts.CountIsLost | src/main.rs:533-544 | a run from the start after which a session remains with no counter |
| RateLimiter.SourceRateLimiter.PruneIdle | src/main.rs:447-466 | at most every 30 seconds, exactly the sources whose window began 120 seconds ago go |
| RateLimiter.SourceRateLimiter.Allow | src/main.rs:436-445 | prune, refuse unknown sources when full, else judge by the source's window |
| RateLimiter.PruningChangesNoAnswer | src/main.rs:436-466 | no answer differs from a limiter that never prunes, refusals for room aside |
| RateLimiter.RateBound | src/main.rs:365-392 | for nondecreasing times at most twice the limit of a kind is admitted per source in any half-open second |
| RateLimiter.RefusalIsEarned | src/main.rs:365-392 | a source is refused, other than for room, only after the full limit was admitted within the last second |
| RateLimiter.RoomRunsOutLate | src/main.rs:436-441 | an event is refused for room only after 65536 different sources |
| RateLimiter.RoomRunsOutUnderLoad | src/main.rs:447-466 | and only when that many sent something within the last 150 seconds |
| RateLimiter.TableFromRun | src/main.rs:436-445 | the table never holds more than 65536 sources, all of them seen |
| RateLimiter.RefusedExactlyWhenFull | src/main.rs:365-392 | with fewer sources, an event is refused if and only if the full limit of its kind was admitted in the second its source is in |
| BudgetThreads.PacketKeepsSlots | src/account_budget.rs:197-242 | every step of a packet thread keeps slots, tracked flows and debts in balance, slots within the limit |
| BudgetThreads.KeeperKeepsSlots | src/account_budget.rs:249-264 | so does every step of maintenance, the two reads of an eviction apart, and every dropped account |
| BudgetThreads.EveryRunAccountsForSlots | src/account_budget.rs:116-121 | in every interleaving, threads acting between the two reads of an eviction included, tracked flows are at most slots, slots at most the limit and never negative, equal when nothing is owed |
| BudgetBounds.RollCovers | src/account_budget.rs:178-196 | rolling keeps the counts covering what was admitted in the current windows |
| BudgetBounds.DecideCovers | src/account_budget.rs:207-225 | so does charging a packet, which passes only within the limits |
| BudgetBounds.AdmitKeepsBudget | src/account_budget.rs:215-246 | admitting a covered packet stays within every limit |
| BudgetBounds.EveryRunStaysWithinBudget | src/account_budget.rs:145-264 | in enforce mode, in every interleaving and order of timestamps, no account exceeds its packets or bytes per second or new flows per minute, provided accounts are created only when the windows of their earlier charges are over |
| BudgetSlack.BudgetExactlyAfterLastCharge | src/account_budget.rs:145-264 | that proviso is exact: a lead of one second, or minute, over the last charge is enough and none is not |
| BudgetSlack.WithinSlackStaysWithinBudget | src/account_budget.rs:249-255 | with no packet admitted between the two reads of an eviction, stamps at most 599 seconds before the evicting pass, or 540 with a limit on new flows, stay within budget |
| BudgetSlack.BudgetExactlyUpToSlack | src/account_budget.rs:249-255 | and these are the largest such distances |
| BudgetSlack.TwoAllowances | src/account_budget.rs:145-255 | an event, a pass that evicts its account and an event that creates it again are judged by windows of their own |
| BudgetSlack.DisturbedEvictionSpendsTwice | src/account_budget.rs:252-255 | for every distance a run from the start in which a thread is charged between the two reads and the allowance is spent again |
| Budgets.Table.Serve | src/account_budget.rs:178-247 | the part under the lock: new windows, slots and answer, slots and tracked flows changing together |
| Budgets.Table.Event | src/account_budget.rs:171-248 | only the user's account changes, as specified; slots stays the number of tracked flows; without room nothing changes |
| Budgets.Table.EvictIdle | src/account_budget.rs:249-255 | exactly the accounts idle for 600 seconds go, their slots given back |
| Budgets.Table.ForgetIdleFlows | src/account_budget.rs:256-263 | exactly the flows idle for 120 seconds go, their slots given back |
| Budgets.Table.Maintain | src/account_budget.rs:249-264 | a whole pass, slots staying the number of tracked flows |
| Budgets.UndisturbedEventIsSequential | src/account_budget.rs:171-248 | a thread running an event undisturbed ends where the sequential event ends, its charge logged exactly when allowed, no lock left held |
| Budgets.UndisturbedSweep | src/account_budget.rs:256-263 | maintenance of one account, undisturbed, forgets its idle flows and gives back their slots |
| Budgets.UndisturbedEviction | src/account_budget.rs:252-255 | eviction, undisturbed, takes an account idle for 600 seconds with its slots and leaves any other as it was |
| BudgetHistory.ServedOnFields | src/account_budget.rs:178-246 | what one event does to the counts, flows and tallies of its account, and its answer, on fields |
| BudgetHistory.RefusedExactlyWhenOver | src/account_budget.rs:171-246 | over every run an event is refused if and only if the relay enforces and the account has no room, its second's packets or bytes offered are over the limit, or a flow it would begin is over its minute's limit or finds no slot |
| BudgetHistory.EvictedExactlyWhenIdle | src/account_budget.rs:252-255 | a pass keeps exactly the accounts offered something in the last 600 seconds |
| BudgetHistory.TrackedExactly | src/account_budget.rs:197-245 | an account tracks exactly the flows carried and not found idle for 120 seconds since, each with the time it was last carried |
| BudgetHistory.DropsAreRefusals | src/account_budget.rs:219-240 | its count of drops is the number of its events refused |
| FlowTable.HandlerLeavesOtherGenerations | src/main.rs:622-647 | in every run, a step of a handler leaves every other generation's entry as it is and adds none |
| FlowTable.EveryRunAnswersItsOwn | src/main.rs:2657-2694 | every answer went to an address recorded for the handler's own generation |
| FlowTable.NoEntryOutlivesItsHandler | src/main.rs:2726-2732 | no entry outlives its handler, so the receive loop never finds a closed channel |
| FlowTable.CompletedInsertionStaysIndexed | src/main.rs:2450-2463 | a completed insertion stays indexed while its session has not been removed |
| FlowTable.SteadyUntilSessionRemoved | src/main.rs:1775-1811 | what ends that: the removal of the session and nothing else |
| FlowTable.UninterruptedInsertion | src/main.rs:2432-2486 | run alone, an insertion puts the flow in the table under a new generation, at the end of its session's list, and its handler runs |
| FlowTable.RefreshMoves | src/main.rs:2403-2408 | a packet of a known flow moves it to the sender |
| FlowTable.SingleSteps | src/main.rs:1775-1811 | an expired flow leaves the table and not yet its session's list; a session is known from its greeting until cleanup forgets it |
| FlowTable.UninterruptedAnswer | src/main.rs:2657-2694 | a handler that owns its entry answers where the entry says and touches it; one that does not leaves or waits |
| FlowTable.UninterruptedRemoval | src/main.rs:622-647 | a handler's end takes its own entry and every listing of its key, and nothing of another generation |
| FlowTable.UninterruptedSift | src/main.rs:1807-1810 | sifting leaves exactly the listed keys that are in the table |
| PrefixSet.ParsedIsValid | src/dest_policy.rs:136-148 | a parsed prefix is aligned and contains the address it was written with |
| PrefixSet.ParsedExactly | src/dest_policy.rs:136-148 | a length of 8 to 32 is taken and no other, with that many leading ones for a mask |
| PrefixSet.MaskedIsBitAnd | src/dest_policy.rs:145-151 | clearing the bits under a mask's zeros is the bitwise conjunction with it |
| PrefixSet.MaskIsShifted | src/dest_policy.rs:143 | the mask of a length is all ones shifted left in 32 bits |
| PrefixSet.PrefixIsInterval | src/dest_policy.rs:150-152 | a prefix is a run of addresses from its base |
| PrefixSet.CoversAll | src/dest_policy.rs:154-156 | a covering prefix contains every address of the covered one |
| PrefixSet.StartsInsideIsCovered | src/dest_policy.rs:164-175 | in sorted order a prefix that starts inside an earlier one is covered by it |
| PrefixSet.Sort | src/dest_policy.rs:168 | sorted by first address and mask, a permutation |
| PrefixSet.Collapse | src/dest_policy.rs:169-176 | one pass leaves sorted, pairwise disjoint prefixes with the same members |
| PrefixSet.New | src/dest_policy.rs:164-177 | the same from any list of prefixes |
| PrefixSet.PartitionPoint | src/dest_policy.rs:183 | the number of prefixes starting at or before the address |
| PrefixSet.Lookup | src/dest_policy.rs:181-185 | true exactly when some prefix of the set contains the address |
| DestPolicy.Policy.constructor | src/dest_policy.rs:363-375 | the prefix sets stand for the given lists |
| DestPolicy.Policy.Bump | src/dest_policy.rs:509-517 | a sample is counted once, under its key or as overflow, at most 256 keys |
| DestPolicy.Policy.Tally | src/dest_policy.rs:411-435 | every sixteenth unlisted packet is in the tally, under its /24 or its port |
| DestPolicy.Policy.Permits | src/dest_policy.rs:378-409 | refused exactly when enforcing and unlisted by the given prefixes and ports; each unlisted packet counted once, by its reason, and dropped exactly when enforcing |
| TunMap.Handler.AssignSessionIp | src/tcp_tun.rs:525-552 | the first usable byte pair, inside 10.200.0.0/16; none exactly when all four are reserved or taken by others |
| TunMap.UsableOnBytes | src/tcp_tun.rs:530-546 | a byte pair x.y stands for 10.200.x.y and is usable unless it is 0.0, 255.255 or another session's |
| TunMap.Handler.WriterPacket | src/tcp_tun.rs:311-370 | the maps stay inverse; the session keeps its address; answers to it lead back to this session, client and source; the foreign-mapping branch is never reached |
| TunMap.Handler.RemoveExpired | src/tcp_tun.rs:61-72 | exactly the dead sessions leave both maps, which stay inverse |
| TunRuns.NoRunMeetsForeignMapping | src/tcp_tun.rs:346-370 | in every interleaving of the writer with cleanup the foreign-mapping branch is never reached |
| TunRuns.NoRunMisdirectsAnswers | src/tcp_tun.rs:430-448 | in every interleaving, a mapping found under the address of a session cleanup has not taken it from is that session's |
| TunRuns.StepStaysConsistent | src/tcp_tun.rs:61-72 | a step leaves the maps inverse, but for what is in hand, if and only if it does not remove the mapping the writer is about to write |
| TunRuns.MapsStayInverseExactlyUnlessOvertaken | src/tcp_tun.rs:311-370 | the same for all states of a run, if and only if no removal falls between the writer's look and its write |
| TunRuns.InverseAtRest | src/tcp_tun.rs:311-370 | with both at rest after such a run the maps themselves are inverse |
| TunRuns.UninterruptedPacket | src/tcp_tun.rs:311-370 | the writer's steps, uninterrupted, have the effect of one packet of the class |
| TunRuns.UninterruptedRemoval | src/tcp_tun.rs:61-72 | cleanup's steps, uninterrupted, take the session out of both maps |
| TunRuns.OvertakenPacketLeavesStray | src/tcp_tun.rs:311-370 | from any state at rest, a removal within the gap leaves the address mapped to a session that is gone |
| TunRuns.StrayStays | src/tcp_tun.rs:61-72 | and no later step but a packet of that session takes the mapping away |
| TunRuns.StrayFromTheStart | src/tcp_tun.rs:311-370 | such a run from the start, for every session that is assigned an address |
| TunMap.TunRewriteCommutesWithReassembly | src/tcp_tun.rs:564-682 | for rewrites to or from a TUN address, commutation with reassembly holds if and only if the checksum verified or was omitted |
| Reply.BuildResponse | src/main.rs:3688-3751 | the v1 builder makes the answer's bytes |
| Reply.WriteResponseInto | src/datapath_v2.rs:448-498 | the v2 writer puts the same bytes in place, nothing beyond them, and nothing at all when they do not fit |
| Reply.AnswerHeaderVerifies | src/main.rs:3726-3729 | the header checksum of every answer verifies |
| Reply.AnswerIsAccepted | src/main.rs:3688-3751 | every answer of at most 65535 bytes is a whole packet a receiver accepts, without a UDP checksum, with 64 hops to live and addressed from the game server to the client |
| Reply.AnswerParsesBack | src/main.rs:3530-3638 | parsing an answer of at most 65535 bytes returns the payload with addresses and ports swapped whenever its destination is let through, and never the whole payload of a longer one |
| ClientPackets.ForbiddenIsListed | src/main.rs:770-780 | an address is refused if and only if it lies in one of nine prefixes |
| ClientPackets.UdpPacketParses | src/main.rs:3590-3637 | a UDP packet put together from any fields, options, payload and padding parses to its payload and fields, or is refused |
| ClientPackets.TcpPacketParses | src/main.rs:3639-3676 | a TCP packet parses whole if its header fits, or is refused |
| ClientPackets.FragmentParses | src/main.rs:3563-3587 | a fragment of any protocol parses whole, its port checked only where it has one |
| ClientPackets.OtherProtocolsDoNotParse | src/main.rs:3677-3679 | an unfragmented packet of any other protocol does not |
| ClientPackets.ParsedIsWellFormed | src/main.rs:3530-3556 | what parses is IPv4 with lengths and a transport header that fit |

## Left out

- Sockets, polling, tasks, the TUN device and control messages: their outcomes are inputs or free choices of a step.
- Ed25519, base64 and JSON decoding: a token stands for what decoding and verification came to.
- `shard_for_session`: any function from sessions into the shards; its mixing is not modelled.
- Buffer pool, queues and buffers: modelled on values as steps of a protocol, since the claims are about interleavings; `unsafe` access is represented by the steps that read and write a held buffer.
- The global flow cap: it is checked against counts refreshed only at cleanup, so no bound is claimed; the per-session cap is part of the agreement of a shard's tables.
- A cap on sessions per source: it is checked when a session is created and not when it moves, so no bound is claimed.
- v1 soft-delete timing and duplicates in the v1 index: a v1 keepalive refreshes a flow without clearing its mark, and reuse of a key after cleanup can list it twice.
- The rate limiter between threads: its calls run one at a time, so the check for room and the insertion after it are one step.
- Locking inside the concurrent maps: one map operation is one step, and an entry kept across operations is held per key, which allows more interleavings than the maps' shards do. The reads behind a new session's limits can only refuse, and their outcome is left open.
- `Flow::parse`, totals, peaks, samples and snapshots of the account budgets: parsing a flow key is a plain read of header fields, and the rest is only reported.
- The limiter for unauthenticated attempts: its answer is part of a frame; it is the same window as a source's, in a fixed number of shared buckets.
- HTTP, DNS resolution, statistics, configuration and logging: easy members.
- PrefixSet.ParsedIsValid: starts from the address and the length; reading them from text is library code.
- DestPolicy.Policy.Tally: does not model wrap-around of the 64-bit counters.
