# Verified models of the IP stack and three kernel pieces

This project models, in Dafny, the parts of the kernel whose correctness is not
visible from one function at a time, and proves what they are there for:

- the IPv4 routing forest (`ip/iproute.c`): `RouteTree.dfy` (one tree, as a value),
  `RouteTable.dfy` (the 1024 trees as one table), `RouteHeap.dfy` (nodes, slots,
  queue, free list, lookup cache, in memory);
- IL, the reliable message protocol (`ip/il.c`): `IlControl.dfy` (one end, as a
  value), `IlProtocol.dfy` (two ends and a network that loses, duplicates and
  reorders), `IlConnection.dfy` (opening, accepting, closing), `IlMemory.dfy` (the
  control block updated in place);
- the receiving half of TCP (`ip/tcp.c`): `TcpSegment.dfy` (sequence numbers and
  trimming), `TcpReceive.dfy` (window, resequencing queue, delivery loop);
- IPv4 fragmentation and reassembly (`ip/ip.c`): `IpFragment.dfy`,
  `IpReassembly.dfy` (one queue), `IpArrivals.dfy` (one arrival among a hundred
  queues), `IpRoundTrip.dfy` (whole runs), `IpSending.dfy` (from a host's output
  through routers to another host), `IpForwarding.dfy` (what a reassembling router
  sends on), `IpQueues.dfy` (in place);
- the Internet checksum (`ip/ptclbsum.c`, `ip/ipaux.c`, `ip/ip.c`): `Checksum.dfy`;
- the conversation table (`ip/ipaux.c`): `ConvTable.dfy`;
- the replay window (`ip/esp.c`): `SeqWindow.dfy`;
- the physical address map (`k10/adr.c`): `AddressMap.dfy`;
- the audio path search (`k10/audiohda.c`): `AudioPath.dfy`;
- the calendar (`k10/devrtc.c`): `Calendar.dfy`.

`Wrappers.dfy` holds the option type they share.

`dafny verify dfyconfig.toml` verifies all of it.

Code that updates state in place is a class or a method with loops, proved against
functions on values; what the code promises is proved of those functions and of
runs of them. Where a promise does not hold of the code, a lemma exhibits the failure
and another says exactly when the promise is kept:

- routes under crossing masks: `CrossingHides` finds the address that is missed, and
  `CrossingRangesHideRoutes` says that two routes are looked up right everywhere if
  and only if their ranges are nested or disjoint;
- overlapping fragments: `OverlapLengthens` turns 24 bytes into 32, and
  `AssembleExact` says that the payload comes back if and only if its first fragment
  was not cut back; `DeliveredWhenCovered` carries this to every run;
- datagrams put together by a router: `ForwardedNeverArrives` follows one through the
  router's output into the next receiver, where it never comes out, and
  `AssembledMoreIff` says that the header handed up claims more to follow if and only
  if the datagram came in more than one fragment;
- replay numbers: `ReplayAccepted` accepts the first of 2^32-63 consecutive numbers a
  second time, and `AnswerRightIff` and `AnswerRightNearby` say for which numbers
  the answer is right.

## Model

| member | source | states |
|---|---|---|
| RouteRange.CompareMeaning | ip/iproute.c:99-119 | the five answers of rangecompare are exactly before, after, equal, strictly containing, and otherwise, which for nested-or-disjoint ranges is strictly contained |
| RouteTree.BalanceKeeps | ip/iproute.c:193-229 | rotating keeps left and right ordered and disjoint and mid inside its node, whatever the stored depths say |
| RouteTree.BalanceEntries | ip/iproute.c:193-229 | rotating loses and invents no route |
| RouteTree.AddShape | ip/iproute.c:234-286 | inserting a node keeps the tree invariant and leaves each queued subtree well formed |
| RouteTree.AddEntries | ip/iproute.c:234-286 | inserting an absent range: tree and queue together hold exactly the old routes and the new ones |
| RouteTree.AddPresentEntries | ip/iproute.c:267-279 | inserting a present range changes only that route, by the update rule, and queues nothing |
| RouteTree.AddFreesWhenPresent | ip/iproute.c:279-279 | the new node is freed exactly when its range was present |
| RouteTree.WalkAddShape | ip/iproute.c:150-163 | reinserting a whole queued subtree keeps the tree invariant |
| RouteTree.WalkAddEntries | ip/iproute.c:150-163 | reinserting a foreign queued subtree puts back exactly its routes, queues no other node and frees none |
| RouteTree.DisplacedForeign | ip/iproute.c:255-266 | no range in a displaced subtree equals or contains one left in the tree, so the queue loops terminate |
| RouteTree.DrainStep | ip/iproute.c:313-317 | one turn of the queue loop leaves a state in which the remaining queue can be emptied |
| RouteTree.DrainKeeps | ip/iproute.c:313-317 | emptying the queue keeps the invariant and loses no route |
| RouteTree.AddRouteCorrect | ip/iproute.c:290-323 | insertion and draining in one tree is the update rule on the abstract map from range to type, gateway and reference count |
| RouteTree.LookNodeComplete | ip/iproute.c:364-389 | looknode finds every range that is in the tree |
| RouteTree.LookNodeSound | ip/iproute.c:364-389 | what looknode finds has exactly the range asked for |
| RouteTree.DelEntries | ip/iproute.c:410-424 | deleting drops one reference, and the route with the last one; every other route is in the tree or on the queue |
| RouteTree.DelRouteCorrect | ip/iproute.c:392-438 | deletion and draining in one tree is the deletion rule on the abstract map |
| RouteTree.WalkBest | ip/iproute.c:495-505 | the walk's answer lies inside every route that covers the address |
| RouteTree.WalkIsLongestMatch | ip/iproute.c:495-505 | the single downward walk is longest-prefix match (section 5.1 of RFC 4632), and finds nothing exactly when no route covers the address |
| RouteTree.CrossingRangesHideRoutes | ip/iproute.c:99-119 | two routes added to an empty tree are looked up right at every address if and only if their ranges are nested or disjoint |
| RouteTree.CrossingHides | ip/iproute.c:99-119 | for any two crossing ranges an end of the second is covered by it and yet found by no lookup |
| RouteTable.PrefixesLaminar | ip/iproute.c:299-301 | contiguous masks give only nested or disjoint ranges |
| RouteTable.PrefixOfAddress | ip/iproute.c:299-301 | address and mask give the aligned block of 2^(32-len) addresses that contains the address |
| RouteTable.BucketsCoverRange | ip/iproute.c:288-304 | the buckets V4H(sa) to V4H(ea) include the bucket of every address in the range |
| RouteTable.AddHolding | ip/iproute.c:304-319 | a bucket that held its share of the table holds its share of the table after the add |
| RouteTable.DelHolding | ip/iproute.c:405-434 | the same after a delete |
| RouteTable.PartlyDone | ip/iproute.c:304-319 | when the loop over the buckets ends, all 1024 trees hold one and the same updated table |
| RouteTable.LookupIsLongestMatch | ip/iproute.c:495-505 | one walk of bucket V4H(a) is longest-prefix match over the whole table |
| RouteTable.RouteLives | ip/iproute.c:267-279 | after every history of adds and deletes a range has a route exactly while the commands for it keep one alive, and its count is the interfaces left, or one for an ordinary route |
| RouteTable.RouteSource | ip/iproute.c:267-279 | after every history a live route carries the type and the gateway of one add: the last since the range came to life, but none after the first interface |
| RouteTable.InterfaceCounts | ip/iproute.c:267-279 | when a range is added only as an interface and never deleted more often than added, it is live exactly while its adds outnumber its deletes, and its count is the difference |
| RouteHeap.RepIsLinks | ip/iproute.c:169-188 | a memory image of a tree is its links together with the absence of sharing |
| RouteHeap.BalanceTree | ip/iproute.c:193-229 | the rotation in place yields the rotated tree with the same nodes |
| RouteHeap.Fs.AddNode | ip/iproute.c:234-286 | addnode in place: tree, queue and free list become what the tree function says, no node shared |
| RouteHeap.Fs.WalkAdd | ip/iproute.c:150-163 | walkadd in place, with queue and free list unchanged |
| RouteHeap.Fs.DrainQueue | ip/iproute.c:313-317 | the queue loop in place terminates with an empty queue and the drained tree |
| RouteHeap.Fs.DelNode | ip/iproute.c:364-424 | finding and unhooking in place, the three subtrees queued and the node freed |
| RouteHeap.Fs.AllocRoute | ip/iproute.c:36-63 | a cleared node, interface and all, that hangs in no tree, off the free list if there is one |
| RouteHeap.Fs.V4AddRoute | ip/iproute.c:290-323 | the forest in memory becomes the table with the route added, in every bucket it belongs in; the command recorded has exactly the block, type and gateway asked for |
| RouteHeap.Fs.V4DelRoute | ip/iproute.c:392-438 | the forest in memory becomes the table with one reference to exactly the block asked for removed |
| RouteHeap.Fs.V4Lookup | ip/iproute.c:484-526 | after any history the returned node is the longest-prefix match of the table of that history, with the gateway of the add that set it, also through the cached-route shortcut; an answer from a walk has an interface that has not been rebound, looked for by the gateway or, for an interface route, by its own address |
| RouteHeap.Fs.Register | ip/iproute.c:492-493 | a new conversation caches nothing and is coherent |
| IlControl.ReceiveKeeps | ip/il.c:885-984 | accepting a message sends nothing and changes only the two lists and recvd; the out-of-order list stays sorted and ahead of recvd |
| IlControl.PullLoopKeeps | ip/il.c:885-928 | pulling up changes only the out-of-order list and recvd; the list stays sorted with the next message wanted missing from it, and one message goes up for each id that recvd moves on |
| IlProtocol.DropAckedTail | ip/il.c:503-532 | an acknowledgement that claims no more than was accepted removes only accepted messages, and the rest keep consecutive ids ending at next-1 |
| IlProtocol.InsertWaiting | ip/il.c:935-984 | a genuine message keeps the waiting list sorted, genuine and inside the window |
| IlProtocol.PullLoopDelivers | ip/il.c:885-928 | what is pulled up extends the delivered prefix in order |
| IlProtocol.StepSends | ip/il.c:341-417 | every step of an end keeps its unacked list a consecutive tail of what it sent, and sends only genuine packets |
| IlProtocol.StepReceives | ip/il.c:635-800 | every step of the other end keeps what it passed up a prefix of what was sent |
| IlProtocol.NextInv | ip/il.c:635-800 | every step of the connection, with loss, duplication and reordering, keeps the protocol invariant |
| IlProtocol.RunInv | ip/il.c:1213-1290 | the invariant holds at the end of every run from the handshake on |
| IlProtocol.EndToEnd | ip/il.c:885-984 | in every run each end has passed up exactly the peer's messages rstart+1 to recvd, in order, each once |
| IlProtocol.NothingLost | ip/il.c:387-404 | in every run each message not yet passed up by the receiver is on the sender's unacked list under its id, and no acknowledgement in flight exceeds what was passed up |
| IlProtocol.WindowBoundsWaiting | ip/il.c:935-950 | at most 19 messages wait out of order, all beyond the next one wanted |
| IlProtocol.DropAckedExact | ip/il.c:503-532 | acknowledging g messages leaves exactly the others |
| IlProtocol.QueryRecovers | ip/il.c:718-845 | from any reachable established state with undelivered messages one timer query, its answer and one resend deliver at least one more |
| IlConnection.HandshakeEstablishes | ip/il.c:654-716 | from every initial link the steps sync, answering sync, acknowledgement are possible and leave both ends established, each knowing where the other's ids start, with nothing passed up |
| IlConnection.HandshakeRecovers | ip/il.c:1139-1206 | however often the first packets were lost, the caller's timer and three packets establish the connection |
| IlConnection.AckRecovers | ip/il.c:718-724 | a lost acknowledgement of the answer is replaced when the callee's timer sends its sync again |
| IlConnection.CallerHears | ip/il.c:654-677 | a caller is established by exactly the sync that acknowledges its start, and hung up by exactly another sync or a close that acknowledges it |
| IlConnection.CalleeHears | ip/il.c:679-716 | a callee is established by exactly an acknowledgement of its start, and hung up by exactly a foreign sync or a close that acknowledges it |
| IlConnection.ListenerHears | ip/il.c:586-633 | a listener answers a sync that acknowledges nothing and turns away one that does |
| IlConnection.EstablishedHears | ip/il.c:718-775 | an established end is hung up by exactly a foreign sync, and begins to close on exactly a close that acknowledges something it may have sent |
| IlConnection.AckTaken | ip/il.c:726-762 | every packet with an acknowledgement removes exactly the messages it acknowledges, except a message that finds the reader's queue full |
| IlConnection.ReplyResendsIff | ip/il.c:752-763 | a state reply makes an end resend its oldest unacknowledged message exactly if something sent by the time of the query is missing |
| IlConnection.MessageKept | ip/il.c:935-984 | a message inside the window that finds room is passed up or waits, and so does every message that waited |
| IlConnection.NextMessagePassedUp | ip/il.c:728-743 | in every run the next message wanted is passed up as soon as it arrives and finds room, whether first sent or resent |
| IlConnection.CloseCompletes | ip/il.c:764-800 | closing one end of an established connection brings both ends to closed by an exchange of closes, with nothing more passed up |
| IlMemory.Ilcb.AckTo | ip/il.c:503-532 | the removal loop in place |
| IlMemory.Ilcb.OutOfOrder | ip/il.c:935-984 | the sorted insertion in place |
| IlMemory.Ilcb.PullUp | ip/il.c:885-928 | the delivery loop in place |
| IlMemory.Ilcb.Rexmit | ip/il.c:802-838 | the resend of the first unacked message |
| IlMemory.Ilcb.NextQt | ip/il.c:1350-1365 | the highest id sent is recorded in the next of the eight slots |
| IlMemory.Ilcb.Kick | ip/il.c:341-417 | sending a message in place |
| IlMemory.Ilcb.Process | ip/il.c:635-800 | the whole packet state machine in place |
| IlMemory.Ilcb.Tick | ip/il.c:1139-1206 | the timer actions in place |
| IlMemory.Ilcb.Close | ip/il.c:312-338 | closing in place |
| TcpSegment.SeqWithinIsDistance | ip/tcp.c:1820-1832 | seq_within holds exactly when x is no further from low than high is, modulo 2^32 |
| TcpSegment.ComparisonsAreTrue | ip/tcp.c:1834-1856 | within half the number space the four comparisons order the true positions |
| TcpSegment.AcceptedIffMeets | ip/tcp.c:3144-3176 | a segment is accepted exactly when it meets the window, or is empty at rcv.nxt with the window shut |
| TcpSegment.TrimExact | ip/tcp.c:3177-3213 | for every window below 2^31 the bytes kept are exactly those whose sequence numbers lie in it, and the FIN survives exactly when nothing before it was cut |
| TcpReceive.TrimSlice | ip/tcp.c:3144-3213 | a trimmed slice of the peer's stream is the slice of it that fits the window |
| TcpReceive.PlaceKeeps | ip/tcp.c:3075-3121 | inserting by sequence number keeps the queue sorted by true position |
| TcpReceive.WindowStep | ip/tcp.c:613-634 | the right window edge never moves left (section 4.2.2.16 of RFC 1122) and the advertised width ends at it |
| TcpReceive.Tcpctl.constructor | ip/tcp.c:3013-3037 | the peer's SYN fixes where its stream starts |
| TcpReceive.Tcpctl.RcvWin | ip/tcp.c:613-634 | the window update in place: the right edge becomes what the free space allows, and never moves left |
| TcpReceive.Tcpctl.DumpReseq | ip/tcp.c:3039-3053 | dropping the queue resets both counters |
| TcpReceive.Tcpctl.AddReseq | ip/tcp.c:3075-3121 | nreseq and reseqlen equal the queue's count and bytes and stay within window/mss and window |
| TcpReceive.Tcpctl.GetReseq | ip/tcp.c:3123-3142 | the front segment is taken and the counters follow |
| TcpReceive.Tcpctl.TakeText | ip/tcp.c:2416-2460 | text is handed up only at rcv.nxt and advances it by its length |
| TcpReceive.Tcpctl.OnAck | ip/tcp.c:2354-2405 | the state changes that an acknowledgement may bring, and no others |
| TcpReceive.Tcpctl.OnFin | ip/tcp.c:2462-2500 | a FIN moves the state on and is counted once, only in the states that still wait for it |
| TcpReceive.Tcpctl.Process | ip/tcp.c:2339-2500 | resets, missing acknowledgements, text and FIN of one segment: which state follows, what is handed up and how far rcv.nxt moves |
| TcpReceive.TrimFits | ip/tcp.c:3144-3213 | of a slice trimming leaves nothing exactly if it has nothing in common with the window, and otherwise all that is new and fits, with its FIN |
| TcpReceive.Tcpctl.NextDue | ip/tcp.c:2502-2523 | the drain loop takes segments only off the front, and those it gives up hold nothing new; when it ends without one nothing queued is due |
| TcpReceive.Tcpctl.Deliver | ip/tcp.c:2339-2523 | the processing and drain loop terminates, runs to its end when nothing can stop it, and what it takes off the queue of an open connection reaches the reader |
| TcpReceive.Tcpctl.Input | ip/tcp.c:2292-2523 | for every arriving slice, whatever its boundaries, overlap or order, the reader has been given exactly the peer's stream up to rcv.nxt less a consumed FIN; an early segment is queued, or the whole queue dropped at its limits; any other is processed: an established connection hands its text up, moves rcv.nxt at least that far and counts its FIN, and the loop runs to its end unless a reset, a missing acknowledgement or the state stops it, exactly then when neither segment nor queue holds one; when it has, nothing queued starts at or before rcv.nxt, and on an open connection nothing that was queued or arrived inside the window was lost |
| TcpReceive.Tcpctl.UserClose | ip/tcp.c:537-576 | closing changes only the state |
| TcpReceive.Tcpctl.LocalClose | ip/tcp.c:814-840 | the connection is closed with nothing queued |
| TcpReceive.Tcpctl.Raise | ip/tcp.c:578-611 | an open connection is kept and any other closed |
| IpFragment.SplitTiles | ip/ip.c:253-268 | the fragments of a payload are contiguous, start on multiples of eight, and all but the last say that more follows |
| IpFragment.SplitAllTiles | ip/ip.c:235-268 | cutting the fragments again, each to its own size, still tiles the datagram and keeps the more bit right |
| IpFragment.FieldMeaning | ip/ip.c:259-264 | the field written for a piece gives back its offset and more bit, and never DF or the must-be-zero bit |
| IpFragment.FragmentLoop | ip/ip.c:253-292 | the loop emits exactly the pieces of its packet, also when the packet's own more bit rides above its offset |
| IpFragment.Output | ip/ip.c:146-296 | refused for size, for DF or for a small medium exactly when the sizes and the flag say so, and otherwise sent: the packets carry the bytes in order under the same addresses, the id kept by a router and fresh at the source; each fits the medium, and each but the last holds a nonzero multiple of eight bytes to which not eight more could be added |
| IpReassembly.InsertSlices | ip/ip.c:550-597 | inserting any true fragment, however it overlaps, leaves a sorted disjoint queue of true slices that covers exactly what it did and the fragment |
| IpReassembly.CompleteIffCovered | ip/ip.c:601-634 | the completeness walk succeeds exactly when no byte of the datagram is missing |
| IpReassembly.PurgeExpired | ip/ip.c:489-500 | the queues given up are exactly the expired ones |
| IpReassembly.AssembleExact | ip/ip.c:609-627 | what a complete queue returns is the payload if and only if its first fragment was not cut back |
| IpReassembly.OverlapLengthens | ip/ip.c:570-570 | two overlapping fragments of 24 bytes come back as 32 |
| IpArrivals.OtherArrival | ip/ip.c:489-513 | every packet keeps the hundred queues accounted for with one queue to a datagram, and one that neither evicts nor times out ours leaves it alone |
| IpArrivals.OurArrival | ip/ip.c:467-637 | every fragment of our datagram is collected, and the datagram comes out exactly when the fragment supplies the last missing bytes |
| IpArrivals.InsertWithin | ip/ip.c:559-597 | fragments that do not overlap are never trimmed |
| IpRoundTrip.DeliveredWhenCovered | ip/ip.c:467-637 | in every run of arrivals a fragment brings the datagram out exactly when it completes the coverage; it is the payload sent if and only if the first fragment was not cut back, and so whenever no two overlap |
| IpRoundTrip.RoundTrip | ip/ip.c:225-637 | fragments arriving in any order, any number of times, among other datagrams: nothing comes out before the last missing one, and with it exactly the payload |
| IpRoundTrip.GatewayPieces | ip/ip.c:235-268 | from a fragment's header alone a router makes exactly the pieces of its stretch of the datagram |
| IpRoundTrip.GatewayRoundTrip | ip/ip.c:225-637 | the round trip for a datagram cut at its source and cut again by routers |
| IpForwarding.AssembledMoreIff | ip/ip.c:609-627 | the header handed up says more follows if and only if the datagram came in more than one fragment |
| IpForwarding.SentOnMore | ip/ip.c:146-296 | whatever a router makes of a packet at offset 0 that says more follows says so too |
| IpForwarding.NeverOut | ip/ip.c:467-637 | in no run of packets that all say more follows does a datagram come out |
| IpForwarding.ForwardedNeverArrives | ip/ip.c:401-419 | a datagram of several fragments, put together by a router and sent on whole or cut again, never comes out at the next receiver |
| IpSending.Send | ip/ip.c:146-296 | what a host sends is the whole datagram or fragments that tile it, each within the medium |
| IpSending.PassOn | ip/ip.c:146-296 | routers that send every packet on, each cut for its own medium, send on the same datagram |
| IpSending.PiecesComeOut | ip/ip.c:467-637 | packets that make up a datagram, in any order, any number of times, between packets of others: nothing comes out before the last missing one, and with it the payload |
| IpSending.SendThrough | ip/ip.c:121-637 | what one host outputs comes out at another, straight away and through routers |
| IpQueues.InsertBlock | ip/ip.c:550-597 | position search, trimming and linking as loops compute the insertion |
| IpQueues.IP.constructor | ip/ip.c:71-103 | a hundred free queues |
| IpQueues.IP.FragFree | ip/ip.c:642-667 | the queue leaves the list and is free again |
| IpQueues.IP.FragAllo | ip/ip.c:671-688 | a queue at the head of the list, the last one evicted when none is free |
| IpQueues.IP.Search | ip/ip.c:489-500 | the search stops at the datagram's queue, having freed exactly the expired ones before it |
| IpQueues.IP.Reassemble | ip/ip.c:467-637 | ip4reassemble in place is the arrival function |
| Checksum.RfcSumCanon | ip/ptclbsum.c:66-69 | the end-around-carry sum of section 1 of RFC 1071 is the byte sum with its carries folded in |
| Checksum.BsumMeaning | ip/ptclbsum.c:52-67 | odd start address, odd length and either byte order all give the same sum |
| Checksum.Ptclbsum | ip/ptclbsum.c:13-72 | the sum of RFC 1071 for every byte string of up to 65536 bytes, start parity and byte order, with no 32-bit overflow |
| Checksum.NextBlock | ip/ipaux.c:168-171 | adding a block that starts at an odd offset to the high sum is adding its bytes in place |
| Checksum.SkipDrops | ip/ipaux.c:141-147 | skipping whole blocks reaches exactly the byte at offset, and runs off the chain exactly when nothing is left |
| Checksum.SumChain | ip/ipaux.c:160-187 | however the bytes are split into blocks the result is the complement of the flat sum |
| Checksum.Ptclcsum | ip/ipaux.c:132-187 | the complement of the flat sum from offset on over at most len bytes, and 0 when the chain ends first |
| Checksum.Ipcsum | ip/ip.c:691-711 | two folds suffice: the header checksum is the complement of the sum |
| Checksum.RecheckZero | ip/ip.c:205-207 | storing the checksum in its zeroed field makes the recheck 0 |
| Checksum.CheckMeaning | ip/ip.c:345-351 | the recheck is 0 exactly when the words add up to a nonzero multiple of 65535 |
| ConvTable.HashIsLocalPort | ip/ipaux.c:238-242 | only the local port decides the bucket |
| ConvTable.MetInBucket | ip/ipaux.c:300-368 | at each of the five levels whatever matches is in the bucket searched, also an announced conversation with a remote port |
| ConvTable.BucketScan | ip/ipaux.c:300-368 | scanning the bucket finds what scanning everything would |
| ConvTable.BestIsBest | ip/ipaux.c:293-299 | the answer matches at a level than which nothing registered matches better, and there is none exactly when nothing matches |
| ConvTable.BestAnswers | ip/ipaux.c:293-299 | on the raw fields: a connected conversation wants all four, an announced one any remote end and whatever it left open; a local port asks for more than a local address |
| ConvTable.Ipht.Add | ip/ipaux.c:244-273 | the conversation is registered, newest first, in its own bucket |
| ConvTable.Ipht.Remove | ip/ipaux.c:275-291 | its newest registration is taken out and no other |
| ConvTable.Ipht.Look | ip/ipaux.c:300-368 | after any adds and removes the answer is the newest of the registrations that admit the packet and ask for the most, and none exactly when nothing admits it |
| SeqWindow.Window.CkWindow | ip/esp.c:235-254 | for every number and every window the answer and the window left are those of the function Ck |
| SeqWindow.CkMeaning | ip/esp.c:235-254 | a number is read as the one above the base with its low 32 bits; it is accepted exactly when it is then within 64 above the base and not accepted before, and the bits and the base go on meaning that |
| SeqWindow.SlideMeaning | ip/esp.c:248-252 | the shift loop ends with the base past every number accepted without a gap, and within 32 of the number just accepted |
| SeqWindow.AcceptedOnce | ip/esp.c:235-254 | over any run within the sequence space a number is accepted exactly when it lies in the window and was not accepted before, so none is accepted twice (section 3.4.3 of RFC 4303) |
| SeqWindow.AnswerRightIff | ip/esp.c:235-254 | for every number and started window the answer is right if and only if the number lies within one sequence space above the base, or what it is read as is refused |
| SeqWindow.AnswerRightNearby | ip/esp.c:235-254 | within one sequence space of the base the answer is right if and only if the number is not so old that its like one space on is in the window, or that one was accepted |
| SeqWindow.ReplayAccepted | ip/esp.c:235-254 | all of k consecutive numbers are accepted, and the first of them again exactly from k = 2^32-63 on |
| AddressMap.InsertKeeps | k10/adr.c:105-135 | inserting keeps the map in order exactly when the range is clear of every entry, and changes what the map says only there |
| AddressMap.SplitKeeps | k10/adr.c:259-268 | cutting an entry changes nothing that the map says |
| AddressMap.SuitsIffProvides | k10/adr.c:243-294 | the test on the slop at one address is whether any aligned range of that length fits |
| AddressMap.Adr.Insert | k10/adr.c:105-135 | the shifting loop puts the entry behind the last one that starts before it; a full map is unchanged |
| AddressMap.Adr.Look | k10/adr.c:137-156 | the binary search finds what a linear scan would |
| AddressMap.Adr.Claim | k10/adr.c:274-288 | only the first addresses of the entry are relabelled |
| AddressMap.Adr.IntAdrAlloc | k10/adr.c:243-294 | a success is an aligned range of formerly free memory of the type asked for and only it and its slop change use, without a base asked for in the first entry with room; a failure means that no free entry of the type holds an aligned range of that length, and changes nothing |
| AudioPath.WalkStaysExpanded | k10/audiohda.c:731-742 | a walk shorter than the current distance has been searched completely |
| AudioPath.PushShape | k10/audiohda.c:735-741 | each widget is queued at most once, so the 256-entry queue never overflows |
| AudioPath.Expand | k10/audiohda.c:735-741 | the inner loop queues every unseen neighbour one step further out |
| AudioPath.FindPath | k10/audiohda.c:719-746 | null exactly when no converter can be reached; otherwise the from links trace a shortest walk from the pin |
| AudioPath.ConnectPath | k10/audiohda.c:748-768 | following the from links issues the commands of the walk found; once the codec has obeyed them, whatever it was told before, the pin is an output and every widget of the walk takes its signal from the next, unmuted, down to the converter |
| AudioPath.HopObeyed | k10/audiohda.c:757-764 | the commands of one hop make its widget select the next one and leave what every other widget selects |
| AudioPath.WiringCarries | k10/audiohda.c:748-768 | no later hop undoes an earlier one: after all the commands the whole walk is selected |
| Calendar.MonthsFill | k10/devrtc.c:332-339 | the twelve months of the table make up its year, leap or not |
| Calendar.SecondsUnique | k10/devrtc.c:356-383 | no two valid dates have the same count |
| Calendar.DayNumberIsGregorian | k10/devrtc.c:332-339 | the tables number the days as the Gregorian calendar does, by a formula that uses no table |
| Calendar.MonthLasts | k10/devrtc.c:332-339 | each month of the tables lasts to the first of the next in the Gregorian calendar |
| Calendar.FourHundredYears | k10/devrtc.c:345-351 | four hundred years are 146097 days |
| Calendar.ValidIffGregorian | k10/devrtc.c:332-351 | a date is valid exactly when the month lengths and the leap rule of the Gregorian calendar, spelled out, allow it |
| Calendar.Rtc.Rtc2Sec | k10/devrtc.c:356-383 | the seconds since 1970 of the Gregorian date, modulo 2^32 |
| Calendar.Rtc.Sec2Rtc | k10/devrtc.c:391-432 | the loops end in the valid Gregorian date with exactly that count |
| Calendar.CountRoundTrip | k10/devrtc.c:356-432 | sec2rtc and then rtc2sec give back every 32-bit count |
| Calendar.DateRoundTrip | k10/devrtc.c:356-432 | rtc2sec and then sec2rtc give back every valid date whose count fits 32 bits |

## Left out

- Locks, sleeping, error unwinding and processes: each locked section is one step.
- The IPv6 halves of the same algorithms, route tags, printing, `routeflush`, and the interface search, whose answers for each address and type are a parameter of the lookup.
- Non-contiguous route masks beyond two routes.
- RouteHeap.Fs.DelNode: the slot that looknode returns is reached by recursion, so the loop over slots is not modelled as a loop.
- RouteHeap.Fs.AddNode: the queue is a sequence of nodes; the cells that addqueue takes from the free list to link it are not modelled, so "no node shared" says nothing of them.
- RouteHeap.Fs.DrainQueue: nor does it model giving those cells back.
- Memory exhaustion in allocating route nodes.
- IlProtocol.EndToEnd: ids are unbounded naturals within one incarnation of a connection, as the code compares them without wrap-around; timers and round trip estimates only decide when a step may happen; `ilreject` and a second connection between the same ports are not part of this model.
- IlMemory.Ilcb.Tick: which timer has run out is an open choice of action, not computed from clocks; the linked lists of IL are sequence fields of the control block.
- TcpReceive.Tcpctl.Process: urgent data is not modelled.
- TcpReceive.Tcpctl.UserClose: closing a listening or half-open call, and the flush of what the reader has not read, are not modelled.
- TcpReceive.Tcpctl.Input: the sender's half (acknowledgement bookkeeping, retransmission, congestion) is an arbitrary choice of whether everything is acknowledged; urgent data, the SYN exchange and the table of half-open calls are not part of this model, and the window is below 2^28, far more than the largest the code sets. Segments that are not slices of the peer's stream, or half the number space away, keep the counters but end the statement about the stream.
- IpFragment.FragmentLoop: states nothing about a packet whose bytes end beyond 65535, as only a malformed fragment does.
- IpRoundTrip.RoundTrip: our queue is not evicted and not timed out; the clock does not wrap.
- The header beyond addresses, id, fragment field and data; options are not part of this model. The IP length field equals the data present.
- Checksum.Ptclbsum: at most 65536 bytes, beyond which the C accumulators could overflow.
- ConvTable.Ipht.Look: the key of a registered conversation does not change; the hash is computed in unsigned 32-bit arithmetic, and bucket lists are sequences.
- SeqWindow.Window.CkWindow: the 64-bit word is a sequence of 64 bits, zero before the first call.
- AddressMap.Adr.IntAdrAlloc: addresses are unbounded, page counts, locking and the disabled merging are not part of this model; running out of map entries is an outcome of its own.
- AudioPath.ConnectPath: amplifier settings are commands without contents.
- Calendar.Rtc.Sec2Rtc: counts are unsigned, so the branch for negative days is not part of this model.
- Block chains other than in the checksum are byte sequences; padding, pulling up and concatenating blocks are not part of this model.
- The ARP cache, ESP ciphers, the rest of the allocator (`adrfree`, merging, colours), device drivers and system entry: hardware access or easy members.
