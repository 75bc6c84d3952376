# Halo in Dafny

A model of the stateful parts of Halo, a user-space network stack, with proofs of what they promise. Every locked method
of the program is one atomic step. A network is the set of packets ever sent: any of them may arrive at any time, any
number of times, or never.

## What is modelled

- **Lightweight TCP.** `TcpConn` is the connection as a function from state and event to state and segments;
  `TcpInvariant` is what every event keeps true of one connection; `TcpEndpoint`, `TcpLocal`, `TcpArrival` and `TcpStream`
  add unbounded sequence numbers and the streams written and read, and prove the two-endpoint theorems.
  `TcpConnection` is the object with its fields, each method proved equal to the function, over the two
  circular buffers of `TcpBuffer`. `StackBooks` and `TcpStack` are the accounting of connections, listeners, port
  counts and backlogs.
- **KCP.** `Kcp` is the state machine; `KcpWindow` its windows under any input; `KcpEndpoint`, `KcpProtocol`, `KcpMessages`
  and `KcpRuns` two ends over a network, up to whole messages. `KcpWire` is the byte format and the packing into packets.
  `KcpQueue`, `KcpHeap` and `KcpMachine` are the ring queue, the heap and the KCP object
  over three such queues and the heap.
- **Packet ring.** `SpscRing` is the lock-free ring as interleaved byte-sized steps, `SpscSafety` its safety
  proof and `SpscCalls` what each call does as a whole. One model covers the Go and the C side.
- **Static allocator.** `Pool` is the block list and the free list as values, `StaticAllocator` the headers and links in
  memory.
- **Engine tables.** `Nat` and `NatInterface` (NAT flows), `Dhcp` and `DhcpServer` (leases), `RouteTrie` and `RouteTable`
  (routes).
- **Hash map.** `Chains` and `HashMap`.
- **Packets.** `Checksum`, `NatRewrite` and `PacketRewriter` (NAT), `PacketCodec` (building and parsing) and `PacketReceiver`
  (what a receiver makes of a rewritten packet).
- **Hole punching.** `Punch` and `PunchCodec`.

`Words`, `Rings`, `Sequences` and `Options` hold fixed-width arithmetic, circular layout and small shared notions.

## How it is modelled

- Time enters as a choice. The TCP clock is a set of deadlines that may have passed, the KCP clock decides which segments
  are due, so the theorems hold for any timing.
- Allocation enters as a choice: the address an allocation returns, 0 for failure. What it returns is not in use, which is
  what the allocator's own proof provides.
- Memory that the program links by pointers (allocator blocks, hash entries, trie nodes, flows) is a map from addresses to
  records, written one field at a time; 0 is nil.
- Sequence numbers are 32-bit words everywhere. The proofs carry the unbounded numbers behind them. The two-endpoint
  theorems assume that no segment arrives 2^31 or more numbers late, as comparison modulo 2^32 requires.
- Hash functions, initial sequence numbers and transaction ids are arbitrary.

## Where the program does not do what one would expect

- **Route lookup.** Deleting the last route of a prefix leaves an empty list that is not nil, and a lookup that ends there
  divides by its length. `RouteTable.Table.FindRoute` gives the exact condition, `RouteTable.DeletedRouteFails` the
  failing family.
- **Rewriting a packet with bytes after its message.** A rewrite sums the transport checksum over everything after the
  IPv4 header and under the IPv4 length; the receivers of TCP and ICMP stop at the total length, that of UDP at the
  datagram's own length. `PacketReceiver.RewriteDelivered` gives the exact condition, for all three protocols.
  `PacketReceiver.PaddedLost`, `PacketReceiver.ShortDatagramLost` and `PacketReceiver.SilentEchoLost` are failing
  families: padding, a datagram shorter than its packet, and an echo of zeros.
- **Rounding a huge request.** A request within seven of 2^64 wraps when it is rounded to eight. `Pool.RoundedCovers` gives
  the exact condition, and `StaticAllocator.Allocator.Malloc` says that it then hands out less than was asked.
- **Acceptable segments.** The acceptance test of TCP is wider than that of RFC 9293. `TcpArrival.AcceptableIs` says by
  what.
- **Replacing a route by one of another prefix.** The new route is filed under the old one's prefix.
  `RouteTable.MisfiledRouteChosen` says which addresses it then answers for. `AddRoute` and `DeleteRoute` keep every route
  under its own prefix, which is when `RouteTrie.BestRoutesAreLongest` applies.
- **Protocols and types.** Building accepts any IPv4 protocol and any ICMP type, parsing three of each.
  `PacketCodec.Ipv4RoundTrip` and `PacketCodec.IcmpRoundTrip` say when the round trips hold.

## Model

| member | source | states |
|---|---|---|
| TcpStream.StreamSafety | protocol/tcp/tcp.go:113-324 | In every run of two endpoints over a network that drops, duplicates, delays and reorders, with resets injected at will, each side has read a prefix of what the other wrote, and end of file is reported only once everything written before the close has been read |
| TcpStream.ProbeSafety | protocol/tcp/tcp.go:363-383 | In every run a byte that was never written at its place, which only a zero-window probe puts on the wire, lies below what its receiver expects next, so it cannot enter the stream |
| TcpStream.StepHolds | protocol/tcp/tcp.go:148-395 | Every action of the network or of either application keeps the two-endpoint invariant that both theorems follow from |
| TcpArrival.ArriveOwn | protocol/tcp/tcp.go:148-324 | A segment the peer really sent, at most 2^31 numbers stale, leaves the receiver with a longer prefix of the peer's stream, and whatever the receiver then sends is true of its own history |
| TcpArrival.DeliverOwn | protocol/tcp/tcp.go:291-324 | The bytes taken from a segment continue the stream received so far; a FIN is counted only at the end of the peer's stream |
| TcpLocal.LocalOwn | protocol/tcp/tcp.go:113-146 | Ticks, writes, reads and closes keep the history: what is unacknowledged is the tail of what was written, and every segment sent carries bytes of the stream at their true place |
| TcpEndpoint.PumpOwn | protocol/tcp/tcp.go:113-146 | pump sends the next unsent bytes, or the FIN after the last byte, at the number the stream gives them |
| TcpInvariant.StepInv | protocol/tcp/tcp.go:113-395 | Every locked method, on any segment and any clock, keeps sndNxt - sndUna equal to what is outstanding, inflight within tx, an empty tx after the FIN, and the state's agreement with finSent and recvFin |
| TcpInvariant.InputInv | protocol/tcp/tcp.go:148-324 | The same for input alone, whatever the segment |
| TcpInvariant.AdvancingAck | protocol/tcp/tcp.go:224-243 | An acknowledgement that moves sndUna acknowledges at least one outstanding number and none that was not sent, and splits the distance exactly |
| TcpInvariant.TickInv | protocol/tcp/tcp.go:326-395 | tick keeps the connection invariant for every combination of deadlines passed |
| Words.DiffOfWraps | protocol/tcp/tcp.go:25-26 | seqLess and int32 subtraction agree with the order and the distance of unbounded numbers less than 2^31 apart |
| TcpConnection.Connection.Dial | protocol/tcp/stack.go:164-167 | A dialled connection starts in SYN_SENT with one number outstanding and its SYN queued |
| TcpConnection.Connection.Accept | protocol/tcp/stack.go:223-235 | A passive connection starts in SYN_RECEIVED with the peer's numbers, window and MSS, and its SYN-ACK queued |
| TcpConnection.Connection.Fail | protocol/tcp/tcp.go:74-103 | Closes once, drops the send buffer, and queues a reset at sndNxt exactly where the source does |
| TcpConnection.Connection.Pump | protocol/tcp/tcp.go:113-146 | One segment in flight at a time: data bounded by both MSS values and the window, or the FIN, or nothing |
| TcpConnection.Connection.InputSynSent | protocol/tcp/tcp.go:149-177 | The active side's handshake: reset for a wrong acknowledgement, refusal, or establishment |
| TcpConnection.Connection.InputTimeWait | protocol/tcp/tcp.go:182-192 | What TIME_WAIT answers |
| TcpArrival.AcceptableIs | protocol/tcp/tcp.go:197-209 | On the numbers behind the words, the acceptance test takes what section 3.10.7.4 of RFC 9293 takes and, beyond it, the segments that start before the window and end after it: exactly the segments of which some number lies in the window |
| TcpConnection.Connection.TakeAck | protocol/tcp/tcp.go:250-289 | An advancing acknowledgement discards what it covers and moves the closing states |
| TcpConnection.Connection.Fill | protocol/tcp/tcp.go:291-305 | The in-order bytes that fit are written into the circular receive buffer and rcvNxt moves by as many |
| TcpConnection.Connection.TakeFin | protocol/tcp/tcp.go:306-319 | A FIN in the window, once all data before it has arrived, is counted once and moves the state |
| TcpConnection.Connection.Input | protocol/tcp/tcp.go:148-324 | input on the object's fields is the pure step function, state and queued segments alike |
| TcpConnection.Connection.Tick | protocol/tcp/tcp.go:326-395 | tick on the object's fields is the pure step function: timeouts, probes, retransmission, pump |
| TcpConnection.Connection.Write | protocol/tcp/conn.go:105-147 | One pass of Write takes what fits and pumps; refused after a close or a failure |
| TcpConnection.Connection.Read | protocol/tcp/conn.go:59-102 | One pass of Read: bytes first, then the error, then end of file, in that order |
| TcpConnection.Connection.CloseWrite | protocol/tcp/conn.go:150-165 | Marks the write side closed once and pumps |
| TcpConnection.Connection.Close | protocol/tcp/conn.go:168-188 | Resets when unread data is left, otherwise pumps what remains |
| TcpBuffer.ByteBuffer.Write | protocol/tcp/buffer.go:9-17 | Appends the bytes that fit to the contents of the ring |
| TcpBuffer.ByteBuffer.Peek | protocol/tcp/buffer.go:19-26 | A copy of the oldest bytes, across the wrap |
| TcpBuffer.ByteBuffer.Discard | protocol/tcp/buffer.go:28-31 | Drops the oldest bytes |
| TcpBuffer.ByteBuffer.Read | protocol/tcp/buffer.go:33-40 | Returns and drops the oldest bytes |
| StackBooks.OpenedBalanced | protocol/tcp/stack.go:186-253 | Opening a connection under a free key keeps the books: port counts equal connections plus listener, incomplete counts the half-open ones, pending lists the unaccepted ones, backlog at most 128 |
| StackBooks.FailedBalanced | protocol/tcp/tcp.go:74-103 | fail keeps the books balanced from any state, also while the connection's listener is being closed |
| StackBooks.EstablishedBalanced | protocol/tcp/tcp.go:228-240 | Completing a handshake moves a connection from incomplete to pending and keeps the backlog bound |
| StackBooks.PendingOpen | protocol/tcp/listener.go:65-75 | Every connection waiting to be accepted is open, so the skip in Accept never fires |
| StackBooks.AcceptedBalanced | protocol/tcp/listener.go:65-75 | Accepting keeps the books |
| StackBooks.ClosingBalanced | protocol/tcp/listener.go:87-92 | A listener taken out of the table still counts for its port until it releases it |
| StackBooks.GoneBalanced | protocol/tcp/listener.go:93-100 | Once its connections have failed, releasing the port balances the books without the listener |
| TcpStack.Stack.Reserve | protocol/tcp/stack.go:113-119 | Succeeds exactly when nothing is counted against the address |
| TcpStack.Stack.Release | protocol/tcp/stack.go:121-126 | Counts one down and forgets an address at zero |
| TcpStack.Stack.PickPort | protocol/tcp/stack.go:149-159 | The search round the dynamic ports finds a free one exactly when there is one |
| TcpStack.Stack.Dial | protocol/tcp/stack.go:129-167 | Succeeds exactly under the source's conditions; the new key overwrites no connection; the books stay balanced |
| TcpStack.Stack.Listen | protocol/tcp/listener.go:21-54 | Succeeds exactly when the address is usable, the stack open, the limit not reached and the port free or findable |
| TcpStack.Stack.Arrive | protocol/tcp/stack.go:186-237 | Which segments are invalid, meet a closed stack, find a connection, are refused, ignored, or create one: exactly a bare SYN to a listener with room |
| TcpStack.Stack.Establish | protocol/tcp/tcp.go:228-240 | The handshake's effect on the listener's books |
| TcpStack.Stack.Accept | protocol/tcp/listener.go:57-80 | Fails on a closed listener; otherwise hands out the connection that has waited longest, if any |
| TcpStack.Stack.Fail | protocol/tcp/tcp.go:74-103 | A connection leaves conns, its listener and its port count, once |
| TcpStack.Stack.CloseListener | protocol/tcp/listener.go:83-101 | Closes the listener's own connections and no others, and releases its port once |
| TcpStack.Stack.Close | protocol/tcp/stack.go:332-351 | Leaves no connection, no listener and no port counted |
| TcpStack.Removed | protocol/tcp/tcp.go:84-94 | The loop removes a connection from the pending list and keeps the order |
| KcpRuns.NoLoss | protocol/kcp/kcp.go:501-709 | In every joint run each number a sender has used is either still in its snd_buf, unacknowledged and with its original data, or delivered or held by the receiver with that data |
| KcpRuns.InOrderDelivery | protocol/kcp/kcp.go:369-474 | In every joint run, both directions: the bytes received are a prefix of the bytes sent; in message mode the messages received are a prefix of the messages sent |
| KcpRuns.NextRecv | protocol/kcp/kcp.go:341-378 | In message mode, after any run, Recv gives the next message exactly when all its fragments are queued and the buffer has room, and otherwise says which of the two is missing |
| KcpRuns.StepAtA | protocol/kcp/kcp.go:613-1003 | Every send, receive, flush and delivery at one end keeps the joint invariant |
| KcpProtocol.InputGood | protocol/kcp/kcp.go:662-706 | A segment the peer sent, less than 2^31 numbers stale, keeps the agreement of the two ends and changes the state as Input does |
| KcpProtocol.RecvGood | protocol/kcp/kcp.go:369-418 | Recv keeps the agreement of the two ends |
| KcpProtocol.FlushGoodWorld | protocol/kcp/kcp.go:770-946 | Everything a flush puts on the wire is true of its sender, now and later |
| KcpEndpoint.RefillHistory | protocol/kcp/kcp.go:400-409 | Moving segments to rcv_queue delivers exactly the next numbers, in order, and forgets nothing held |
| KcpEndpoint.UnaCounts | protocol/kcp/kcp.go:553-566 | A cumulative acknowledgement drops the segments below it and no others |
| KcpEndpoint.MarkAt | protocol/kcp/kcp.go:514-528 | A selective acknowledgement marks the one segment of that number, drops its data and changes no other |
| KcpEndpoint.TookPushOwn | protocol/kcp/kcp.go:678-693 | A data segment is delivered or held at most once, and acknowledged only if it is held |
| KcpEndpoint.FlushEndOwn | protocol/kcp/kcp.go:770-946 | Flush numbers queued fragments consecutively and sends only what the end can vouch for |
| KcpWindow.InputKeeps | protocol/kcp/kcp.go:613-709 | For any segment: snd_buf stays the run from snd_una to snd_nxt of at most 65535, and rcv_buf stays inside the receive window with nothing deliverable held back |
| KcpWindow.FlushKeeps | protocol/kcp/kcp.go:853-875 | Flush keeps both windows |
| KcpWindow.RecvKeeps | protocol/kcp/kcp.go:369-418 | Recv keeps both windows |
| KcpWindow.WindowOpen | protocol/kcp/kcp.go:853-864 | The signed test of the sliding window is a comparison of sizes |
| KcpWindow.WindowTest | protocol/kcp/kcp.go:574-579 | The two signed tests of parse_data accept exactly the numbers of the receive window |
| KcpMessages.FragmentsJoin | protocol/kcp/kcp.go:449-474 | The pieces of a buffer join to the buffer and none exceeds the segment size |
| KcpMessages.FragmentsCount | protocol/kcp/kcp.go:449-474 | In message mode the first piece counts those that follow, never more than 254 |
| KcpMessages.FirstMessageEnds | protocol/kcp/kcp.go:341-362 | The first message of a queue ends where its fragments end, whatever follows |
| KcpMessages.QueueHolds | protocol/kcp/kcp.go:341-398 | On a queue that starts a sequence of sent messages, Recv returns the first of them, or says that it is incomplete or too long |
| KcpHeap.LessIsRank | protocol/kcp/kcp.go:112-114 | Within half the number circle the heap's signed comparison is the order of distances from the window's base |
| KcpHeap.RootLeast | protocol/kcp/kcp.go:158-181 | The root of the heap is nearest to the base |
| KcpHeap.SegmentHeap.Push | protocol/kcp/kcp.go:184-200 | Sift-up keeps heap order, distinct numbers and the marks, and adds exactly the new segment |
| KcpHeap.SegmentHeap.Pop | protocol/kcp/kcp.go:203-236 | Returns the segment nearest to the base and removes exactly that one; sift-down restores heap order |
| KcpQueue.RingQueue.constructor | protocol/kcp/ring_buffer.go:20-25 | A new queue is empty, with the capacity asked for or the minimum |
| KcpQueue.RingQueue.Push | protocol/kcp/ring_buffer.go:33-44 | Appends to the contents, growing when full |
| KcpQueue.RingQueue.Pop | protocol/kcp/ring_buffer.go:47-64 | Removes and returns the oldest element |
| KcpQueue.RingQueue.Peek | protocol/kcp/ring_buffer.go:67-72 | The oldest element |
| KcpQueue.RingQueue.Last | protocol/kcp/ring_buffer.go:75-85 | The youngest element, across the wrap |
| KcpQueue.RingQueue.SetLast | protocol/kcp/kcp.go:428-443 | Writing through the pointer to the youngest element changes that element only |
| KcpQueue.RingQueue.SetItem | protocol/kcp/kcp.go:514-528 | Writing through the pointer to an element handed out on the way changes that element only |
| KcpQueue.RingQueue.Discard | protocol/kcp/ring_buffer.go:88-108 | Removes the oldest elements, as many as asked or as there are |
| KcpQueue.RingQueue.ForEach | protocol/kcp/ring_buffer.go:111-123 | Visits the elements in order, up to the first that is turned down |
| KcpQueue.RingQueue.Grow | protocol/kcp/ring_buffer.go:131-144 | A larger array, the same contents |
| KcpWire.ParseEncoded | protocol/kcp/kcp.go:134-155 | Decoding an encoded segment gives it back, whatever follows it, with or without the payload check |
| KcpWire.DecodeEncodings | protocol/kcp/kcp.go:624-709 | The header loop of Input decodes exactly the segments encoded, in order |
| KcpWire.MakeSpacePacks | protocol/kcp/kcp.go:784-790 | Making room outputs only a packet that holds whole segments, is within the mtu and not empty |
| KcpWire.EncodePacks | protocol/kcp/kcp.go:800-806 | Encoding into the room made keeps the packet within the mtu and the segments in order |
| KcpMachine.Machine.constructor | protocol/kcp/kcp.go:283-310 | A new object is a new state machine |
| KcpMachine.Machine.PeekSize | protocol/kcp/kcp.go:341-362 | The size of the next message, or -1 |
| KcpMachine.Machine.Recv | protocol/kcp/kcp.go:369-418 | Returns the joined fragments or the right error, and leaves the state of the state machine |
| KcpMachine.Machine.Move | protocol/kcp/kcp.go:588-602 | Popping and pushing back moves exactly what is in order and fits |
| KcpMachine.Machine.ParseData | protocol/kcp/kcp.go:574-605 | Holds a new segment of the window once and reports repeats |
| KcpMachine.Machine.ParseUna | protocol/kcp/kcp.go:553-566 | Counts and drops what a cumulative acknowledgement covers |
| KcpMachine.Machine.ParseAck | protocol/kcp/kcp.go:509-529 | Marks one segment acknowledged in place and drops its data |
| KcpMachine.Machine.Take | protocol/kcp/kcp.go:662-706 | One segment of a packet, on the fields, is one step of the state machine |
| KcpMachine.Machine.Receive | protocol/kcp/kcp.go:613-709 | Processes the segments before the first malformed one and returns its code |
| KcpMachine.Machine.Send | protocol/kcp/kcp.go:421-474 | Extends the last segment in stream mode, cuts up the rest, and refuses more than 255 fragments in message mode |
| KcpMachine.Machine.FillWindow | protocol/kcp/kcp.go:859-875 | Numbers queued segments while the window is open |
| KcpMachine.Machine.Flush | protocol/kcp/kcp.go:770-949 | Every packet output is within the mtu, not empty and starts with the reserved bytes, and what the peer decodes from them, in order, is what the state machine sends |
| SpscSafety.RingSafety | mem/ring_buffer.go:203-352 | Under every interleaving of producer and consumer steps, with stale cached cursors and 64-bit cursor wrap, the packets read are a prefix of the packets written |
| SpscCalls.WriteCall | mem/ring_buffer.go:249-295 | WritePacket under any interleaving with the consumer ends within its length plus four steps of its own, and has published exactly its data, or nothing: refused as empty or too long, or because the record did not fit when the call began |
| SpscCalls.ReadCall | mem/ring_buffer.go:298-352 | ReadPacket under any interleaving with the producer ends within half the ring's size plus four steps of its own, and has delivered exactly the next packet, or nothing: the buffer was too small, or nothing was pending when the call began |
| SpscCalls.WriteUnderInterference | mem/ring_buffer.go:249-295 | A consumer step changes nothing about a write under way; a producer step brings it nearer its end |
| SpscCalls.ReadUnderInterference | mem/ring_buffer.go:298-352 | The same for a read and the producer's steps |
| SpscSafety.StepInv | mem/ring_buffer.go:249-352 | Every single step keeps the invariant that the bytes between published tail and head are the records not yet read, so none of them is overwritten |
| SpscSafety.AttachInv | mem/ring_buffer.go:203-246 | Attaching a producer or a consumer to a ring in use keeps the invariant |
| SpscSafety.LoadStepInv | mem/ring_buffer.go:258-277 | After loading the tail the producer gives up exactly when the record does not fit in the space that is free |
| SpscSafety.PublishInv | mem/ring_buffer.go:290-294 | Publishing the head adds exactly one whole record |
| SpscSafety.ConsumerLoadInv | mem/ring_buffer.go:307-330 | After loading the head the consumer gives up exactly when the ring is empty |
| SpscSafety.ConsumerPublishInv | mem/ring_buffer.go:347-351 | Publishing the tail removes exactly the record copied out |
| SpscRing.SlotOfWord | mem/ring_buffer.go:279-281 | A cursor that has wrapped at 2^64 indexes the same slot as the unbounded cursor, since the size divides 2^64 |
| SpscRing.SlotAligned | mem/ring_buffer.go:46-50 | A record header never wraps round the end of the buffer |
| Pool.TakenInv | mem/static_allocator.go:95-118 | Malloc keeps the tiling of the region, the exactness of the free list and the separation of free blocks |
| Pool.FreedInv | mem/static_allocator.go:129-157 | Free with its merges keeps the same three |
| Pool.Disjoint | mem/static_allocator.go:62-158 | Payloads of different blocks never overlap and lie inside the region |
| Pool.FreeingAllRestores | mem/static_allocator.go:123-158 | After any sequence of allocations and frees in any order, once nothing is live the pool is the one block it started as |
| Pool.RunInv | mem/static_allocator.go:85-158 | The invariant over every run |
| Pool.CarvedLive | mem/static_allocator.go:116-116 | Malloc adds the block and its header to the bytes in use |
| Pool.FreedLive | mem/static_allocator.go:134-134 | Free takes the same away, however the block merges |
| Pool.RoundedCovers | mem/static_allocator.go:92-93 | Rounding to eight covers the request, and by less than eight, exactly when the 64-bit addition does not wrap; above that it gives less than was asked |
| Pool.CarvedAligned | mem/static_allocator.go:92-111 | Splitting keeps every block at a multiple of eight from the first |
| Pool.FreedAligned | mem/static_allocator.go:136-156 | Merging keeps that alignment |
| StaticAllocator.HeaderParts | mem/static_allocator.go:12-36 | The free bit and the size share a word without disturbing each other, for sizes below 2^63 and only those |
| StaticAllocator.NewStaticAllocator | mem/static_allocator.go:62-83 | Nothing for a nil region or one too small for the two headers; otherwise one free block over the rest of it |
| StaticAllocator.Allocator.constructor | mem/static_allocator.go:70-83 | A new pool is one free block over the whole region |
| StaticAllocator.Allocator.InsertFree | mem/static_allocator.go:161-168 | The linked free list in memory gains the block at its head; nothing else in memory changes |
| StaticAllocator.Allocator.RemoveFree | mem/static_allocator.go:171-182 | The linked free list loses the block, wherever it is |
| StaticAllocator.Allocator.Malloc | mem/static_allocator.go:86-120 | Fails exactly for size 0 or when no free block can hold the rounded size; otherwise takes the first listed block that fits and changes nothing else, and the block holds the request exactly when the request is at most 2^64 - 8 |
| StaticAllocator.Allocator.SplitOff | mem/static_allocator.go:99-112 | The pointer updates of a split produce the split block list and list the remainder |
| StaticAllocator.Allocator.Free | mem/static_allocator.go:123-158 | Refuses nil and a block already free; otherwise releases the block and merges it with its free neighbours |
| StaticAllocator.Allocator.Join | mem/static_allocator.go:136-144 | The pointer updates of a merge produce the merged block list |
| Nat.WanInvertsLan | engine/ipv4_engine.go:561-622 | The LAN and WAN tables are a one-to-one correspondence on the same flows: either lookup inverts the other |
| Nat.AddedAgrees | engine/ipv4_engine.go:717-752 | Adding a flow with a free port keeps both tables, the port sets and the static mappings in agreement |
| Nat.DroppedAgrees | engine/ipv4_engine.go:806-827 | Dropping a flow keeps them in agreement and leaves no empty port set |
| Nat.TouchedAgrees | engine/ipv4_engine.go:584-588 | Refreshing a flow is seen through both tables and disturbs nothing |
| NatInterface.NetIf.GetFlowByHash | engine/ipv4_engine.go:561-590 | Finds and refreshes the flow of a normalised LAN key |
| NatInterface.NetIf.GetFlowByWan | engine/ipv4_engine.go:593-622 | Finds and refreshes the flow of a normalised WAN key |
| NatInterface.NetIf.ReplyFindsHost | engine/ipv4_engine.go:561-622 | The reply to a translated packet finds the flow that translated it, and so the host |
| NatInterface.NetIf.CheckMapping | engine/ipv4_engine.go:756-780 | Finds a static mapping exactly when there is one, for TCP and UDP only |
| NatInterface.NetIf.FindPort | engine/ipv4_engine.go:684-713 | The first dynamic port that is not used, not a service and not mapped; 0 exactly when there is none |
| NatInterface.NetIf.Claim | engine/ipv4_engine.go:684-752 | Every failed allocation is rolled back to exactly the tables before |
| NatInterface.NetIf.AddFlow | engine/ipv4_engine.go:625-753 | Succeeds exactly when the ports are valid and the flow exists, or a port is open and every allocation succeeds; any failure leaves all tables unchanged |
| NatInterface.NetIf.Clear | engine/ipv4_engine.go:796-833 | The sweep drops exactly the flows idle for more than 60 seconds |
| Dhcp.StepBindings | engine/dhcp_engine.go:60-257 | Every server step keeps the current leases an injective map from MAC to usable address |
| Dhcp.RunBindings | engine/dhcp_engine.go:60-257 | The same in every reachable state, at every later time |
| Dhcp.AckedAddressIsSafe | engine/dhcp_engine.go:60-257 | In every run an acknowledged address is not offered or acknowledged to another MAC before the lease expires, unless its holder released it in between |
| Dhcp.HolderKeeps | engine/dhcp_engine.go:60-257 | While a lease runs, a step that concerns its address is its holder's |
| DhcpServer.Server.FindLease | engine/dhcp_engine.go:64-85 | Finds a current lease of the client exactly when there is one, in whatever order the table is walked |
| DhcpServer.Server.Search | engine/dhcp_engine.go:86-111 | The search round the host addresses finds one exactly when one is free, and the first from the client's starting point |
| DhcpServer.Server.Discover | engine/dhcp_engine.go:61-131 | Offers exactly when the client has an address or a free one can be recorded: its own, or the first free one from where its MAC hashes |
| DhcpServer.Server.Request | engine/dhcp_engine.go:148-239 | Acknowledges exactly the requests that confirm the client's own lease; stays silent exactly for another server's request, a malformed one, an offer of another transaction and an unknown client; refuses the rest |
| DhcpServer.Server.Release | engine/dhcp_engine.go:240-251 | Removes exactly the releasing client's own confirmed lease |
| DhcpServer.Server.Clear | engine/dhcp_engine.go:406-425 | The sweep removes exactly the leases whose term and offer have both run out |
| DhcpServer.CycleCovers | engine/dhcp_engine.go:91-97 | Every host address comes up once, and only once, in the wrapping search |
| RouteTrie.BestFiled | engine/ipv4_engine.go:386-420 | The linear scan gives the routes filed under the longest prefix in use that the address has, all of them, and none exactly when no prefix in use fits |
| RouteTrie.BestRoutesAreLongest | engine/ipv4_engine.go:386-420 | When every route is filed under its own prefix, the linear scan is longest-prefix match: the matching routes that no matching route beats, and all of them |
| RouteTrie.MaskSizeContiguous | engine/ipv4_engine.go:342-351 | The shift loop gives a contiguous mask its number of ones |
| RouteTrie.SelectRemoved | engine/ipv4_engine.go:366-378 | Removing a route touches its own prefix only |
| RouteTable.CountMask | engine/ipv4_engine.go:342-351 | The loop computes the mask size for every mask |
| RouteTable.Filter | engine/ipv4_engine.go:366-378 | The loop removes the routes with the same fields and keeps the order of the others |
| RouteTable.Table.Descend | engine/ipv4_engine.go:352-365 | Walking down a prefix adds the missing nodes and changes no route |
| RouteTable.Table.UpdateRoute | engine/ipv4_engine.go:338-383 | For any old and new route, the trie stays equal to the list of routes and the prefixes they are filed under: the new one goes where the old one was, whatever its own prefix |
| RouteTable.Table.AddRoute | engine/ipv4_engine.go:328-330 | Adding files a route under its own prefix, and keeps a trie whose prefixes all have routes that way |
| RouteTable.Table.DeleteRoute | engine/ipv4_engine.go:333-335 | Deleting removes the route from the list the trie represents |
| RouteTable.Table.FindRoute | engine/ipv4_engine.go:386-420 | Chooses among the routes filed under the longest matching prefix, none exactly when no prefix in use matches; divides by zero exactly when a prefix of the address longer than the longest match was updated but has no route left |
| RouteTable.MisfiledRouteChosen | engine/ipv4_engine.go:338-383 | A route filed by an update under another prefix than its own answers for exactly the addresses of that prefix |
| RouteTable.DeletedRouteFails | engine/ipv4_engine.go:366-419 | A route added and deleted again makes the lookup of any address it matched divide by zero |
| HashMap.Find | hashmap/hashmap.go:63-80 | Walking the chain finds the key's entry exactly when the table has it |
| HashMap.Put | hashmap/hashmap.go:83-128 | Enters a pair in a well-formed table; fails only for a new key without memory |
| HashMap.HashMap.constructor | hashmap/hashmap.go:41-60 | A new map is empty, with at least eight buckets |
| HashMap.HashMap.Get | hashmap/hashmap.go:63-80 | Get on the finite map, for any hash function |
| HashMap.HashMap.Set | hashmap/hashmap.go:83-128 | Set on the finite map; fails only when a new key finds no memory, and then changes nothing; len is the number of pairs, and the buckets double exactly past three quarters, memory permitting |
| HashMap.HashMap.Grow | hashmap/hashmap.go:131-202 | Whether it succeeds or fails midway, the map is the same; it succeeds when every allocation does |
| HashMap.HashMap.Del | hashmap/hashmap.go:205-237 | Del on the finite map; every other entry keeps its key and value |
| HashMap.HashMap.For | hashmap/hashmap.go:240-255 | Visits no pair twice, and every pair unless stopped, also when the callback deletes the pair it is given |
| HashMap.HashMap.Clear | hashmap/hashmap.go:263-279 | Leaves the empty map |
| Chains.AppendedShape | hashmap/hashmap.go:109-119 | Linking a new entry keeps every chain, its links and its place |
| Chains.UnlinkedShape | hashmap/hashmap.go:211-231 | Unlinking an entry, first, middle or last, keeps every chain |
| Checksum.VerifiesIff | protocol/utils.go:18-38 | A sum verifies exactly when it is a positive multiple of 65535 |
| Checksum.FoldRem | protocol/utils.go:33-35 | Folding changes nothing modulo 65535 and keeps zero apart from its multiples |
| Checksum.SealedVerifies | protocol/ipv4.go:169-182 | A checksum written at an even place over its zeroed field makes the whole verify |
| Checksum.GetCheckSum | protocol/utils.go:18-38 | The loop with its 32-bit accumulator computes that checksum for up to 128 KiB |
| NatRewrite.RewriteVerifies | protocol/ipv4.go:269-323 | After a rewrite the header checksum verifies when checksums are on, and the transport checksum over all that follows the header whenever it is brought up to date, which for ICMP is always |
| NatRewrite.RewriteTouches | protocol/ipv4.go:269-323 | A rewrite changes one address, one port and the two checksums, and no other byte |
| NatRewrite.LastRewriteCounts | protocol/ipv4.go:269-323 | Of two rewrites of the same side only the last counts |
| NatRewrite.RewriteBack | protocol/ipv4.go:269-323 | Rewriting a packet with current checksums there and back restores it byte for byte |
| PacketReceiver.RewriteDelivered | protocol/ipv4.go:269-323 | For every packet, side, address, port and switch: the program's own parsers get from the rewritten packet what it said before with that side's address and port replaced, exactly when the packet is well formed and the bytes a rewrite sums but a receiver does not come to a multiple of 65535 (and, for ICMP, do not cancel the checksum of an echo of zeros); otherwise nothing |
| PacketReceiver.RewrittenSaid | protocol/ipv4.go:269-323 | Checksums aside, a rewrite changes nothing of what a packet says but one address and one port or echo identifier |
| PacketReceiver.CoveredSplit | protocol/udp.go:38-53 | What a rewrite sums is what the receiver sums plus the difference of the two lengths and the bytes after the message; a datagram ends where its own length field says |
| PacketReceiver.WholeDelivered | protocol/ipv4.go:197-247 | A well-formed packet with nothing after its message, inside or outside, always gets through a rewrite |
| PacketReceiver.PaddedLost | protocol/ipv4.go:184-247 | A packet the receiver gets, padded with the bytes 0 1, is still got as it is, and lost once rewritten; an echo even with checksums off |
| PacketReceiver.ShortDatagramLost | protocol/udp.go:38-53 | With checksums on, every datagram shorter than the packet around it with zeros after it is lost by a rewrite |
| PacketReceiver.ShortDatagramDelivered | protocol/udp.go:29-60 | Such datagrams are received when they are not rewritten: any datagram built, with bytes after it |
| PacketReceiver.SilentEchoLost | protocol/ipv4.go:184-195 | An echo of zeros padded with two bytes 255 is lost when a rewrite makes its identifier 0, though the padding sums to a multiple of 65535 |
| PacketRewriter.ReCalcIpv4CheckSum | protocol/ipv4.go:169-182 | The in-place code computes the header checksum function |
| PacketRewriter.ReCalcIcmpCheckSum | protocol/ipv4.go:185-195 | The same for ICMP, which ignores the switch |
| PacketRewriter.ReCalcTcpCheckSum | protocol/ipv4.go:198-221 | The same for TCP with its pseudo header |
| PacketRewriter.ReCalcUdpCheckSum | protocol/ipv4.go:224-247 | The same for UDP with its pseudo header |
| PacketRewriter.Change | protocol/ipv4.go:270-323 | NatChangeSrc and NatChangeDst in place are the rewrite function |
| PacketRewriter.HandleTtl | protocol/ipv4.go:155-166 | Decrements a TTL above one, keeps the header checksum verifying, and touches nothing else |
| PacketCodec.UdpRoundTrip | protocol/udp.go:29-103 | Parsing undoes building for every payload that fits, with checksums on or off |
| PacketCodec.TcpRoundTrip | protocol/tcp.go:49-173 | Parsing undoes building for every packet that can be built, with and without the MSS option |
| PacketCodec.ScanReads | protocol/tcp.go:68-90 | On any well-formed option list, ended by the header or an end mark, the option scan yields the last MSS on a SYN and 0 otherwise |
| PacketCodec.ScanAccepts | protocol/tcp.go:68-90 | The option scan fails on everything that is not such a list |
| PacketCodec.ScanOptions | protocol/tcp.go:68-90 | The loop over the options computes that scan |
| PacketCodec.IcmpRoundTrip | protocol/icmp.go:42-102 | Parsing undoes building exactly for requests, replies and time exceeded |
| PacketCodec.Ipv4RoundTrip | protocol/ipv4.go:68-152 | Parsing undoes building exactly for ICMP, TCP and UDP |
| PacketCodec.BuiltTcpRestored | protocol/ipv4.go:269-323 | A TCP packet built by both layers, rewritten and rewritten back, is the packet built |
| PacketCodec.BuiltUdpRestored | protocol/ipv4.go:269-323 | The same for UDP |
| PacketCodec.BuiltIcmpRestored | protocol/ipv4.go:269-323 | The same for ICMP and its identifier |
| Punch.Agreement | p2p/punch.go:133-254 | In every run of two peers with disjoint transaction ids, when one side succeeds its peer has recorded and acknowledged that side's transaction, has itself selected a path and sent CONFIRM, and has been confirmed |
| Punch.StepHolds | p2p/punch.go:145-246 | Probes, repeated CONFIRMs and deliveries, also reflected ones, keep the joint invariant |
| Punch.HeardOwn | p2p/punch.go:198-246 | A packet reflected to its sender changes nothing |
| Punch.Puncher.Burst | p2p/punch.go:145-157 | A burst sends one CHECK a candidate, each with its own recorded transaction id |
| Punch.Puncher.Receive | p2p/punch.go:197-246 | The switch on the packet type, on the loop's variables, is the reaction function |
| PunchCodec.ParseBuilt | p2p/punch.go:258-285 | Parsing undoes building |
| PunchCodec.BuildParsed | p2p/punch.go:269-285 | Nothing else parses: an accepted packet is the one its fields build |

## Left out

- TcpStream.StreamSafety: one incarnation of a connection, and no segment 2^31 or more numbers stale; segments of an earlier connection with the same addresses are not in the network.
- TcpStream.ProbeSafety: under the same two assumptions.
- TcpConnection.Connection.Write: one pass of the blocking loop; waiting and write deadlines are not modelled.
- TcpConnection.Connection.Read: one pass of the blocking loop; waiting and read deadlines are not modelled.
- TcpConnection.Connection.Tick: deadlines are given as passed or not; the retransmission queue's pending segment is covered by the network, which may deliver any segment again.
- TcpConnection.Connection.Fail: the listener and port side of fail is in StackBooks and TcpStack; the reset is queued as if the stack were not closing.
- TcpStack.Stack.Accept: returns when nothing waits, instead of blocking.
- TcpStack.Stack.Arrive: what an existing connection makes of the segment is in TcpConnection.
- KcpRuns.NoLoss: windows of at most 65535, settings fixed for the run, no segment 2^31 or more numbers stale, and segments arrive one at a time.
- KcpRuns.InOrderDelivery: under the same assumptions.
- KcpMachine.Machine.Receive: stops after the header loop; the round-trip estimate, the congestion window and the flush that Input may end with are left to the caller, which may flush at any time.
- KcpMachine.Machine.Flush: which segments are due, their timestamps, the probe and the congestion window are inputs.
- SpscCalls.WriteCall: under the assumptions of SpscSafety.RingSafety.
- SpscCalls.ReadCall: under the same assumptions.
- SpscSafety.RingSafety: atomic loads and stores are sequentially consistent steps, and index masking is remainder by the power of two.
- StaticAllocator.Allocator.Free: for nil or the payload of a block of the pool, as the source demands; other pointers are not modelled.
- StaticAllocator.NewStaticAllocator: the region lies below 2^63.
- StaticAllocator.Allocator.Malloc: the lock and address arithmetic at the machine level are not modelled; the region lies below 2^63.
- Dhcp.AckedAddressIsSafe: the clock is monotone and does not wrap; the server's address and mask do not change.
- DhcpServer.Server.Discover: host names, logging and the option fields of the reply are not modelled.
- DhcpServer.Server.Request: the destination of the reply is not modelled.
- HashMap.HashMap.For: the callback may delete the pair it is given and change nothing else.
- PacketRewriter.Change: packets of at most 65535 bytes.
- Punch.Agreement: a write error, the time limits and the context end a punch without success and are not modelled.
- Go's NAT forwarding path, ARP, ICMP replies, the switch and Ethernet framing: plumbing around the tables.
- The DHCP client, the KCP session layer and its sockets, the p2p relay: clients of the modelled parts.
- Congestion control, round-trip estimation and liveness of TCP and KCP: the safety theorems hold for any choice of when to send.
- The byte-check hash functions and the flow hash: any function of their input.
- Device access, logging, JSON and text parsing: no state to reason about.
