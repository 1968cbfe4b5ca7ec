# Verified model of music-remote-control

music-remote-control relays media keys from a desktop controller through a Rust server to an Android client. The
client stands on yasio, a C++ networking library, and the third-party code it carries. This project models the parts
where correctness is hardest to see, in Dafny, and proves what they promise:

- **Lock-free queue** (`Spsc*.dfy`, `Semaphore.dfy`, `BlockingQueue.dfy`). The single-producer, single-consumer block
  queue as a machine of atomic steps with every program point of both threads, its semaphore, and the blocking queue
  made of the two. The theorems are about all interleavings.
- **Framing** (`FrameCodec.dfy`, `Transport.dfy`, `FrameAgreement.dfy`). The Rust decoder of the server and the
  controller, yasio's incremental decoder, and their agreement on every stream and every cutting.
- **WebSocket** (`WebSocket*.dfy`). The parser, byte by byte and as the object with its callbacks, and the frame builder.
- **Half precision** (`Half*.dfy`). Conversion from double and square root against correct rounding as IEEE 754-2019
  defines it, by comparison with every half and every midpoint.
- **Binary streams** (`Stream*.dfy`). Writer and reader, and the exact condition for a round trip.
- **Shared mutex** (`SharedMutex.dfy`). Any number of threads, two condition variables, spurious wake-ups.
- **Timers** (`Timers.dfy`). The timer queue of the service loop.
- **Heartbeat** (`Heartbeat.dfy`). The controller's ping task and its reader in timed runs.
- **Registry** (`Registry*.dfy`). Session numbers, the map of players, and the relay of requests.

Concurrent code is a state machine whose actions are the atomic steps or critical sections of its threads. Code that
works in place is a class or works on an array, and is proved to do what a function on values does; the properties are
then proved of that function. `PowersOfTwo.dfy` and `Bytes.dfy` hold the arithmetic of shifts and byte orders.

Some promises hold only under a condition. The model keeps the code as it is and proves the condition exact, with a
breaking input or run where that is not plain from the condition itself: a semaphore signal of zero, a payload that is
empty or too long for its length field, a value too wide for its bytes, a closed receiver during a relay, more threads
than a shared mutex can wake, a header that decodes to zero in a full buffer, ticks and answers that are too slow
together.

`dafny verify dfyconfig.toml` checks the whole project.

## Model

| member | source | states |
|---|---|---|
| `SpscTheorems.RunKeeps` | mrc-client/app/src/main/cpp/yasio-4.3.1/3rdparty/moodycamel/readerwriterqueue.h:286-645 | In every interleaving of one producer and one consumer, from construction on, every state satisfies the queue invariant: blocks form one circle, block contents are consecutive parts of the enqueue order, every slot outside them is empty, and each thread's stale cached indices are safe |
| `SpscTheorems.StepKeeps` | mrc-client/app/src/main/cpp/yasio-4.3.1/3rdparty/moodycamel/readerwriterqueue.h:286-645 | Each atomic step of either thread, at every program point of enqueue, dequeue, pop and peek, keeps that invariant |
| `SpscTheorems.Fifo` | mrc-client/app/src/main/cpp/yasio-4.3.1/3rdparty/moodycamel/readerwriterqueue.h:286-377 | In every run the sequence handed out is a prefix of the sequence put in, and the calls that have returned lag either by one element at most: nothing lost, duplicated or reordered |
| `SpscTheorems.StepRefinesFifo` | mrc-client/app/src/main/cpp/yasio-4.3.1/3rdparty/moodycamel/readerwriterqueue.h:536-645 | Every step of every run is, on an abstract queue, no change, an append of the element being enqueued, or the removal of the head, which is what the call returns |
| `SpscTheorems.MemoryHoldsQueue` | mrc-client/app/src/main/cpp/yasio-4.3.1/3rdparty/moodycamel/readerwriterqueue.h:696-726 | In every state, walking the blocks from the front block to the tail block finds exactly the elements put in and not yet handed out, in order, the first slot being empty while the consumer has taken its element and not yet moved the front index |
| `SpscTheorems.SlotSafety` | mrc-client/app/src/main/cpp/yasio-4.3.1/3rdparty/moodycamel/readerwriterqueue.h:309-370 | In no reachable state does the producer write a slot that holds an element or the consumer read one that holds none, also on stale localFront and localTail; pointers and indices stay in range |
| `SpscTheorems.AssertsHold` | mrc-client/app/src/main/cpp/yasio-4.3.1/3rdparty/moodycamel/readerwriterqueue.h:553-602 | The source's assertions hold in every run: the block moved to by the producer is empty and that moved to by the consumer is not |
| `SpscTheorems.EmptyReport` | mrc-client/app/src/main/cpp/yasio-4.3.1/3rdparty/moodycamel/readerwriterqueue.h:299-374 | A dequeue, pop or peek reports empty only if the queue was empty at some instant inside that very call |
| `SpscTheorems.RefusalReport` | mrc-client/app/src/main/cpp/yasio-4.3.1/3rdparty/moodycamel/readerwriterqueue.h:557-573 | A call is refused, or comes to allocate a block, only if the queue held at least the size it was built for at some instant inside that call |
| `SpscCalls.RefusedEnqueue` | mrc-client/app/src/main/cpp/yasio-4.3.1/3rdparty/moodycamel/readerwriterqueue.h:557-640 | Judged by the call's own arguments: an enqueue that may allocate is refused only if memory was refused to it, and a try_enqueue never comes to allocate |
| `SpscCalls.EnqueueAccepted` | mrc-client/app/src/main/cpp/yasio-4.3.1/3rdparty/moodycamel/readerwriterqueue.h:259-275 | With every allocation succeeding, an enqueue that may allocate is accepted |
| `SpscCalls.EnqueueEnds` | mrc-client/app/src/main/cpp/yasio-4.3.1/3rdparty/moodycamel/readerwriterqueue.h:536-645 | However the threads interleave, an enqueue takes at most eight atomic steps of its own |
| `SpscCalls.DequeueEnds` | mrc-client/app/src/main/cpp/yasio-4.3.1/3rdparty/moodycamel/readerwriterqueue.h:286-490 | A dequeue, pop or peek takes at most ten atomic steps of its own |
| `SpscCalls.PeekReport` | mrc-client/app/src/main/cpp/yasio-4.3.1/3rdparty/moodycamel/readerwriterqueue.h:385-422 | What peek returns is the element that the next dequeue hands out, and it is not removed |
| `SpscCalls.BlocksDouble` | mrc-client/app/src/main/cpp/yasio-4.3.1/3rdparty/moodycamel/readerwriterqueue.h:604-612 | Every further block is twice as large as the last, until the maximum block size is reached |
| `SpscSizing.CeilToPow2` | mrc-client/app/src/main/cpp/yasio-4.3.1/3rdparty/moodycamel/readerwriterqueue.h:655-667 | The least power of two not below the argument, for every 64-bit size up to 2^63 |
| `SpscSizing.BlockCount` | mrc-client/app/src/main/cpp/yasio-4.3.1/3rdparty/moodycamel/readerwriterqueue.h:118-125 | The initial block count leaves room for size elements in all blocks but one |
| `SpscSizing.Construct` | mrc-client/app/src/main/cpp/yasio-4.3.1/3rdparty/moodycamel/readerwriterqueue.h:105-162 | The constructor builds a circle of empty blocks that satisfies what the run theorems start from |
| `SpscSizing.MaskIsWrap` | mrc-client/app/src/main/cpp/yasio-4.3.1/3rdparty/moodycamel/readerwriterqueue.h:309-370 | In every run all block sizes are powers of two, and masking an index after adding one is one step round the ring buffer |
| `Semaphore.StepKeeps` | mrc-client/app/src/main/cpp/yasio-4.3.1/3rdparty/moodycamel/atomicops.h:585-663 | Every step of the waiter and the signaller keeps the balance between count, kernel signals and outstanding waits, if signals are positive |
| `Semaphore.WaitsNeverExceedSignals` | mrc-client/app/src/main/cpp/yasio-4.3.1/3rdparty/moodycamel/atomicops.h:585-663 | In every run with one waiter and one signaller, successful waits never exceed signals, oldCount >= -1 holds at every signal, and a wait that timed out has neither consumed nor lost one |
| `Semaphore.NoLostWakeup` | mrc-client/app/src/main/cpp/yasio-4.3.1/3rdparty/moodycamel/atomicops.h:585-626 | A sleeping waiter has a kernel signal there or on its way exactly if signals are left |
| `Semaphore.FailedWait` | mrc-client/app/src/main/cpp/yasio-4.3.1/3rdparty/moodycamel/atomicops.h:585-652 | In every run a wait or try reports failure only if at an instant of that call every signal had been waited for; one that may sleep, only after its kernel wait timed out; one that may not sleep never does |
| `Semaphore.SignalSafeIff` | mrc-client/app/src/main/cpp/yasio-4.3.1/3rdparty/moodycamel/atomicops.h:654-663 | Wherever waiter and count are: after a call of signal every run with positive further signals keeps waits at most signals, and the assertions, exactly if its count is positive |
| `Semaphore.AddSafeIff` | mrc-client/app/src/main/cpp/yasio-4.3.1/3rdparty/moodycamel/atomicops.h:654-663 | The same at the instant of the addition: safe exactly if the count added is positive or no waiter has taken m_count below zero |
| `Semaphore.ZeroSignalBreaks` | mrc-client/app/src/main/cpp/yasio-4.3.1/3rdparty/moodycamel/atomicops.h:654-663 | A run in which a signal of zero wakes a sleeper, so that waits exceed signals |
| `BlockingQueue.RunKeeps` | mrc-client/app/src/main/cpp/yasio-4.3.1/3rdparty/moodycamel/readerwriterqueue.h:760-974 | Queue and semaphore stay in step in every run of the blocking queue: one signal per successful enqueue, one wait per element handed out |
| `BlockingQueue.GrantedWaitsSucceed` | mrc-client/app/src/main/cpp/yasio-4.3.1/3rdparty/moodycamel/readerwriterqueue.h:862-944 | After a granted wait the inner dequeue or pop finds an element, so every assert(success) holds; elements taken, waits, signals and elements put in are ordered by size in every state |
| `BlockingQueue.NoConsumerForgotten` | mrc-client/app/src/main/cpp/yasio-4.3.1/3rdparty/moodycamel/readerwriterqueue.h:877-904 | In every run a consumer asleep in its wait while the queue holds an element has a kernel signal there or on its way, at the latest when the producer ends the call that put it in |
| `BlockingQueue.DequeueOutcome` | mrc-client/app/src/main/cpp/yasio-4.3.1/3rdparty/moodycamel/readerwriterqueue.h:862-904 | In every run a dequeue that has returned handed out one more element, or may fail and had an instant inside the call at which every element signalled had been handed out; wait_dequeue never fails, a timed one only after its kernel wait timed out |
| `BlockingQueue.EnqueueOutcome` | mrc-client/app/src/main/cpp/yasio-4.3.1/3rdparty/moodycamel/readerwriterqueue.h:785-840 | In every run an enqueue that has returned put in one more element and signalled it, or was refused; one that may allocate was refused only if memory was |
| `FrameCodec.Receiver.Read` | rmc-server/src/net/net_session.rs:137-173 | One turn of the read loop terminates and leaves frames, rest and verdict as parsing the whole buffer does |
| `FrameCodec.Receiver.TryExtractFrame` | rmc-server/src/peer.rs:49-76 | Takes exactly one complete frame off the buffer, waits, or refuses a length of 0 or at least 2 MiB |
| `FrameCodec.CuttingDoesNotMatter` | rmc-control/src-tauri/src/control_service.rs:175-217 | However a stream is cut into reads, the same frames come out and the same verdict |
| `FrameCodec.ParseAppend` | rmc-control/src-tauri/src/control_service.rs:186-217 | Bytes that arrive later never change the frames already found |
| `FrameCodec.RestIsStable` | rmc-control/src-tauri/src/control_service.rs:197-214 | What the loop leaves in the buffer holds no complete frame |
| `FrameCodec.FramingInvertsIff` | rmc-server/src/player.rs:136-138 | Decoding undoes the sender's framing exactly for payloads that are not empty and below the limit |
| `FrameCodec.RefusedIff` | rmc-server/src/peer.rs:58-65 | A header is refused as soon as it is complete exactly if it announces 0 bytes or at least 2097152 |
| `FrameCodec.ExtractedWasEncoded` | rmc-server/src/peer.rs:58-75 | Only what the encoder writes is ever extracted |
| `FrameCodec.StreamRoundTrip` | rmc-control/src-tauri/src/control_service.rs:271-288 | A stream of framed messages is read back as exactly these messages, with nothing left over, if and only if each is neither empty nor at the limit |
| `Transport.StepConserves` | mrc-client/app/src/main/cpp/yasio-4.3.1/yasio/io_service.cpp:1774-1853 | A read keeps all bytes: fired frames, then the incomplete one, then the pending bytes are what was received, in order |
| `Transport.RunConserves` | mrc-client/app/src/main/cpp/yasio-4.3.1/yasio/io_service.cpp:1774-1853 | The same for any number of reads in any cutting |
| `Transport.RoomLeftIff` | mrc-client/app/src/main/cpp/yasio-4.3.1/yasio/io_service.cpp:379-382 | A read leaves room for the next one exactly unless the buffer is full of an undecided header |
| `Transport.RunLeavesRoom` | mrc-client/app/src/main/cpp/yasio-4.3.1/yasio/io_service.cpp:379-382 | Over any run in which no complete header decodes to 0 there is always room for the next read |
| `Transport.Int32Wraps` | mrc-client/app/src/main/cpp/yasio-4.3.1/yasio/io_service.cpp:350-354 | The length arithmetic keeps a number modulo 2^32 |
| `Transport.LengthDecoded` | mrc-client/app/src/main/cpp/yasio-4.3.1/yasio/io_service.cpp:341-361 | For every channel setting: nothing is decided before the length field is complete; then the number in it, in the channel's byte order and with the adjustment, is the frame length unless it exceeds the maximum |
| `Transport.ReadsArePackets` | mrc-client/app/src/main/cpp/yasio-4.3.1/yasio/io_service.cpp:341-361 | Without a length field every read is a packet of its own, less what is stripped |
| `Transport.IoTransport.DoRead` | mrc-client/app/src/main/cpp/yasio-4.3.1/yasio/io_service.cpp:1774-1829 | The in-place buffer code, memmove included, does what the value model does, and says when the connection closes |
| `Transport.IoTransport.UnpackInPlace` | mrc-client/app/src/main/cpp/yasio-4.3.1/yasio/io_service.cpp:1830-1853 | Moves the head of the buffer to the packet and the rest to the front of the buffer |
| `Transport.IoTransport.MoveDown` | mrc-client/app/src/main/cpp/yasio-4.3.1/yasio/io_service.cpp:1842-1846 | The overlapping move keeps the bytes |
| `FrameAgreement.AppLength` | mrc-client/app/src/main/cpp/yasio_client.cpp:48-50 | With the app's settings a complete header gives the frame length, or one that the Rust side refuses |
| `FrameAgreement.ClosesIff` | mrc-client/app/src/main/cpp/yasio_client.cpp:48-50 | Between frames, the client closes at a header exactly if it announces more than 10485756 bytes, except 2^32 - 4 |
| `FrameAgreement.DeliversFrame` | mrc-client/app/src/main/cpp/yasio-4.3.1/yasio/io_service.cpp:1774-1853 | Up to that size a frame is delivered as soon as all of it is there, and what follows is kept |
| `FrameAgreement.DecodersAgree` | mrc-client/app/src/main/cpp/yasio-4.3.1/yasio/io_service.cpp:341-361 | For every stream and any two cuttings: after boundedly many further reads for what the client holds, the Rust decoder has delivered the client's payloads up to the first length it refuses; if it refuses none, the client is open and has delivered the same |
| `FrameAgreement.ClosedMeansRefused` | mrc-client/app/src/main/cpp/yasio-4.3.1/yasio/io_service.cpp:1774-1829 | When the client closes over a length, the Rust decoder refuses the same stream |
| `FrameAgreement.RunClosedMeansRefused` | mrc-client/app/src/main/cpp/yasio-4.3.1/yasio/io_service.cpp:1774-1829 | The same for any number of reads that end with the client closing |
| `FrameAgreement.UndecidedIff` | mrc-client/app/src/main/cpp/yasio_client.cpp:48-50 | With the app's settings a complete header decodes to 0 exactly if it announces 2^32 - 4 bytes |
| `FrameAgreement.ZeroHeaderSticks` | mrc-client/app/src/main/cpp/yasio-4.3.1/yasio/io_service.cpp:1774-1829 | Wherever that header follows the frames delivered so far, no cutting of what comes after delivers anything: every byte stays pending until the buffer is full, while the Rust side refuses the stream |
| `FrameAgreement.Settles` | mrc-client/app/src/main/cpp/yasio-4.3.1/yasio/io_service.cpp:1774-1853 | After boundedly many reads that bring nothing, the client has delivered every complete packet it holds |
| `WebSocket.CuttingDoesNotMatter` | mrc-client/app/src/main/cpp/yasio-4.3.1/3rdparty/websocket-parser/websocket_parser.c:53-171 | The parser reports the same headers, payload bytes and frame ends, and ends in the same state, however the input is cut |
| `WebSocketObject.WebsocketParser.Execute` | mrc-client/app/src/main/cpp/yasio-4.3.1/3rdparty/websocket-parser/websocket_parser.c:53-171 | The parser object consumes every byte and tells its callbacks what the byte-at-a-time format says; at each body callback offset is the number of payload bytes of that frame already delivered |
| `WebSocketObject.WebsocketParser.Deliver` | mrc-client/app/src/main/cpp/yasio-4.3.1/3rdparty/websocket-parser/websocket_parser.c:124-160 | Any piece of a body, the last one ending the frame, is what its bytes one by one would be |
| `WebSocketObject.WebsocketParser.Decode` | mrc-client/app/src/main/cpp/yasio-4.3.1/3rdparty/websocket-parser/websocket_parser.c:173-180 | Unmasks a piece and carries the place in the mask to the next |
| `WebSocketObject.WebsocketParser.constructor` | mrc-client/app/src/main/cpp/yasio-4.3.1/3rdparty/websocket-parser/websocket_parser.c:42-47 | A new parser awaits a frame |
| `WebSocket.XorAt` | mrc-client/app/src/main/cpp/yasio-4.3.1/3rdparty/websocket-parser/websocket_parser.c:182-189 | Masking a byte is the exclusive or: every bit is the sum of the two bits without carry |
| `WebSocket.XorTwice` | mrc-client/app/src/main/cpp/yasio-4.3.1/3rdparty/websocket-parser/websocket_parser.c:182-189 | Masking twice with the same byte gives the byte back |
| `WebSocket.MaskPlaceIsRemainder` | mrc-client/app/src/main/cpp/yasio-4.3.1/3rdparty/websocket-parser/websocket_parser.c:182-189 | The place in the mask is the payload position modulo 4 |
| `WebSocketBuilder.BuiltFrameParses` | mrc-client/app/src/main/cpp/yasio-4.3.1/3rdparty/websocket-parser/websocket_parser.c:207-249 | A built frame of any flags, mask and payload length below 2^64, parsed in any chunks and unmasked piecewise, reports the flags, the length and the payload it was built from |
| `WebSocketBuilder.MaskedBytes` | mrc-client/app/src/main/cpp/yasio-4.3.1/3rdparty/websocket-parser/websocket_parser.c:173-189 | Every byte of a piece is the exclusive or of the received byte and the mask byte at its place in the payload modulo 4 |
| `WebSocketBuilder.BodyOnTheWire` | mrc-client/app/src/main/cpp/yasio-4.3.1/3rdparty/websocket-parser/websocket_parser.c:207-249 | The end of a built frame is the payload, or the mask and then, byte by byte, the exclusive or of payload byte i and mask byte i modulo 4 |
| `WebSocketBuilder.FrameSizeIsLength` | mrc-client/app/src/main/cpp/yasio-4.3.1/3rdparty/websocket-parser/websocket_parser.c:191-205 | The calculated size is the length of the frame |
| `WebSocketBuilder.BuildFrame` | mrc-client/app/src/main/cpp/yasio-4.3.1/3rdparty/websocket-parser/websocket_parser.c:207-249 | The builder writes exactly the frame of RFC 6455 into the array and returns its calculated size; without a mask argument the bytes already in place are the mask |
| `WebSocketBuilder.XorInto` | mrc-client/app/src/main/cpp/yasio-4.3.1/3rdparty/websocket-parser/websocket_parser.c:182-189 | Masks into the array and returns the place in the mask where it stopped |
| `HalfRounding.RoundedCorrectly` | mrc-client/app/src/main/cpp/yasio-4.3.1/3rdparty/half/half.hpp:820-839 | From truncated magnitude, guard and sticky bit, the result is correctly rounded in the sense of section 4.3 of IEEE 754-2019 in each of four modes, carries into the exponent and to infinity included |
| `HalfRounding.OverflowCorrect` | mrc-client/app/src/main/cpp/yasio-4.3.1/3rdparty/half/half.hpp:784-795 | The overflow result is the correctly rounded one for everything from 2^16 on |
| `HalfRounding.UnderflowCorrect` | mrc-client/app/src/main/cpp/yasio-4.3.1/3rdparty/half/half.hpp:800-809 | The underflow result is the correctly rounded one for everything below half the smallest half |
| `HalfRounding.CorrectUnique` | mrc-client/app/src/main/cpp/yasio-4.3.1/3rdparty/half/half.hpp:820-839 | There is only one correctly rounded result |
| `HalfRounding.RepresentableUnchanged` | mrc-client/app/src/main/cpp/yasio-4.3.1/3rdparty/half/half.hpp:820-839 | A number that is a half already is its own rounding in every mode |
| `HalfConvert.Float2Half` | mrc-client/app/src/main/cpp/yasio-4.3.1/3rdparty/half/half.hpp:995-1021 | Every finite double, subnormals and zeros included, becomes the correctly rounded half with its sign in each mode; infinities stay, NaNs become quiet NaNs |
| `HalfSqrt.FixedSqrt` | mrc-client/app/src/main/cpp/yasio-4.3.1/3rdparty/half/half.hpp:1480-1497 | For every even F the loop leaves the integer square root of the shifted radicand and its remainder, and halves the exponent |
| `HalfSqrt.WithinRoot` | mrc-client/app/src/main/cpp/yasio-4.3.1/3rdparty/half/half.hpp:3206-3218 | The remainder exceeds the root exactly if the square root lies above the midpoint to the next half, on which it never falls |
| `HalfSqrt.Sqrt` | mrc-client/app/src/main/cpp/yasio-4.3.1/3rdparty/half/half.hpp:3206-3218 | The square root of every positive half, subnormals included, correctly rounded in each mode; zeros and infinity are their own roots, negative arguments invalid, NaNs quiet |
| `StreamFormat.SevenBitRoundTrip` | mrc-client/app/src/main/cpp/yasio-4.3.1/yasio/obstream.hpp:50-62 | Every number that fits is read back from its seven-bit form, whatever follows it |
| `StreamFormat.SevenBitFits` | mrc-client/app/src/main/cpp/yasio-4.3.1/yasio/ibstream.hpp:39-117 | A seven-bit number that is accepted fits the integer: the check of the last byte excludes overflow |
| `StreamFormat.VarintBytes` | mrc-client/app/src/main/cpp/yasio-4.3.1/yasio/endian_portable.hpp:189-195 | The swapped and shifted integer leaves its low bytes in network order in memory |
| `StreamFormat.VarintNumber` | mrc-client/app/src/main/cpp/yasio-4.3.1/yasio/endian_portable.hpp:196-202 | Swapping and shifting back gives the number that the bytes spell |
| `StreamItems.ItemReadsBack` | mrc-client/app/src/main/cpp/yasio-4.3.1/yasio/ibstream.hpp:166-180 | A typed write is read back, using exactly its own bytes, if and only if its value fits its width |
| `StreamItems.RoundTripIff` | mrc-client/app/src/main/cpp/yasio-4.3.1/yasio/obstream.hpp:302-410 | Any sequence of typed writes, nested regions included, is read back by the same sequence of reads up to the last byte exactly if all values fit |
| `StreamItems.NarrowNegativeLost` | mrc-client/app/src/main/cpp/yasio-4.3.1/yasio/obstream.hpp:374-380 | A negative number written in two bytes is read back as 65535 |
| `StreamItems.VarintSize` | mrc-client/app/src/main/cpp/yasio-4.3.1/yasio/obstream.hpp:374-380 | A size of 1 to 4 gives that many low bytes in network order; smaller sizes give one byte, larger ones four |
| `StreamItems.SevenBitRange` | mrc-client/app/src/main/cpp/yasio-4.3.1/yasio/obstream.hpp:64-73 | Every 32-bit, or 64-bit, number written in seven-bit form is read back |
| `StreamItems.SevenBitAccepted` | mrc-client/app/src/main/cpp/yasio-4.3.1/yasio/ibstream.hpp:39-117 | What is accepted is a 32-bit number from at most five bytes, or a 64-bit number from at most ten |
| `StreamItems.MinusOneLength` | mrc-client/app/src/main/cpp/yasio-4.3.1/yasio/obstream.hpp:50-62 | Minus one takes five bytes as a 32-bit number and ten as a 64-bit number |
| `StreamWriter.Writer.WriteAll` | mrc-client/app/src/main/cpp/yasio-4.3.1/yasio/obstream.hpp:302-410 | Appends the concatenated encodings, the lengths of regions patched in place |
| `StreamWriter.Writer.WriteIx` | mrc-client/app/src/main/cpp/yasio-4.3.1/yasio/obstream.hpp:50-62 | The loop appends the seven-bit form of the unsigned number with the same bytes |
| `StreamWriter.Writer.WriteVarint` | mrc-client/app/src/main/cpp/yasio-4.3.1/yasio/obstream.hpp:374-380 | Appends the low bytes of an int in network order, as many as the size says between one and four |
| `StreamWriter.Writer.Pop` | mrc-client/app/src/main/cpp/yasio-4.3.1/yasio/obstream.hpp:309-313 | Patches the length of what was written since the push and nothing else |
| `StreamReader.Reader.ReadAll` | mrc-client/app/src/main/cpp/yasio-4.3.1/yasio/ibstream.hpp:160-262 | Reads what the format says is at the cursor and moves the cursor over it, or fails as the format says |
| `StreamReader.Reader.ReadIx` | mrc-client/app/src/main/cpp/yasio-4.3.1/yasio/ibstream.hpp:39-117 | The accumulating loop reads a seven-bit integer, refuses one that would overflow and reports the end of the data |
| `StreamReader.Reader.ReadVarint` | mrc-client/app/src/main/cpp/yasio-4.3.1/yasio/ibstream.hpp:166-173 | Reads as many bytes as the size says between one and four, exactly if they are there, as the low bytes of an int |
| `StreamReader.Reader.Consume` | mrc-client/app/src/main/cpp/yasio-4.3.1/yasio/ibstream.hpp:271-280 | Moves over n bytes or fails without moving |
| `StreamRoundTrip.WriteThenRead` | mrc-client/app/src/main/cpp/yasio-4.3.1/yasio/ibstream.hpp:264-264 | A reader over what a writer wrote returns the same values exactly if they fit, and is then at the end of the data |
| `SharedMutex.StepKeeps` | mrc-client/app/src/main/cpp/yasio-4.3.1/yasio/shared_mutex.hpp:72-139 | Every critical section of any thread keeps the invariant that ties the word to the threads |
| `SharedMutex.Safety` | mrc-client/app/src/main/cpp/yasio-4.3.1/yasio/shared_mutex.hpp:43-139 | For any number of threads in any interleaving, state_ is the number of shared holders plus the writer bit, an exclusive holder is alone, the reader count does not overflow, and the unlock assertions hold |
| `SharedMutex.TryLockIff` | mrc-client/app/src/main/cpp/yasio-4.3.1/yasio/shared_mutex.hpp:79-88 | In every run try_lock succeeds exactly if no thread holds the lock shared and none has entered as writer; a refused call changes nothing |
| `SharedMutex.TryLockSharedIff` | mrc-client/app/src/main/cpp/yasio-4.3.1/yasio/shared_mutex.hpp:110-121 | In every run try_lock_shared succeeds exactly if no writer has entered and fewer than 2147483647 threads hold the lock shared; a refused call changes nothing |
| `SharedMutex.CallsGoToGate` | mrc-client/app/src/main/cpp/yasio-4.3.1/yasio/shared_mutex.hpp:72-109 | A thread that calls lock or lock_shared, or wakes for no reason, tests its condition next |
| `SharedMutex.WriterProceeds` | mrc-client/app/src/main/cpp/yasio-4.3.1/yasio/shared_mutex.hpp:72-78 | A writer awake at the first gate sleeps there exactly if another has entered; else it enters and holds the lock as soon as it finds no reader |
| `SharedMutex.ReaderProceeds` | mrc-client/app/src/main/cpp/yasio-4.3.1/yasio/shared_mutex.hpp:102-109 | A reader awake at the first gate gets the lock exactly if no writer has entered and there is room, else it sleeps |
| `SharedMutex.UnlockFrees` | mrc-client/app/src/main/cpp/yasio-4.3.1/yasio/shared_mutex.hpp:89-98 | After an unlock nobody has the lock and everyone asleep at the first gate is awake |
| `SharedMutex.LastReaderWakesWriter` | mrc-client/app/src/main/cpp/yasio-4.3.1/yasio/shared_mutex.hpp:122-139 | When a reader leaves, a writer waiting for the last one is woken exactly if that was the last |
| `SharedMutex.NoReaderPassesWriter` | mrc-client/app/src/main/cpp/yasio-4.3.1/yasio/shared_mutex.hpp:102-121 | In every run from a state where a writer has entered, the shared holders only become fewer until an unlock |
| `SharedMutex.NobodyForgotten` | mrc-client/app/src/main/cpp/yasio-4.3.1/yasio/shared_mutex.hpp:72-139 | With at most one thread more than can read at once, no thread sleeps at either gate on a condition that holds |
| `SharedMutex.LostWakeupIff` | mrc-client/app/src/main/cpp/yasio-4.3.1/yasio/shared_mutex.hpp:122-139 | Some run leads to a thread that sleeps on a condition that holds, with no thread awake to pass it on, exactly if there are two threads more than can read at once |
| `SharedMutex.StrandedSleepsOn` | mrc-client/app/src/main/cpp/yasio-4.3.1/yasio/shared_mutex.hpp:122-139 | A reader left asleep so sleeps on in every run, even after all readers have left, until a writer unlocks, the maximum is reached again or it wakes spuriously |
| `Timers.TimerQueue.ScheduleTimer` | mrc-client/app/src/main/cpp/yasio-4.3.1/yasio/io_service.cpp:1866-1882 | Enters or replaces the timer, keeps the others, restores the order whatever it was, and asks for a wake-up only if no timer expires earlier |
| `Timers.TimerQueue.RemoveTimer` | mrc-client/app/src/main/cpp/yasio-4.3.1/yasio/io_service.cpp:1883-1896 | Removes the timer and nothing else, in order, with a wake-up exactly if it was queued and others are left |
| `Timers.TimerQueue.SortTimers` | mrc-client/app/src/main/cpp/yasio-4.3.1/yasio/io_service.hpp:1138-1142 | Sorted with the earliest at the back, the same entries |
| `Timers.TimerQueue.ExpiresFromNow` | mrc-client/app/src/main/cpp/yasio-4.3.1/yasio/io_service.hpp:433-437 | Sets period and expiry; the order is kept unless the timer is queued |
| `Timers.TimerQueue.ProcessTimers` | mrc-client/app/src/main/cpp/yasio-4.3.1/yasio/io_service.cpp:1928-1957 | A pass fires what the pass function says, re-arms at most one timer and leaves the queue ordered and without duplicates |
| `Timers.FiredAt` | mrc-client/app/src/main/cpp/yasio-4.3.1/yasio/io_service.cpp:1936-1953 | What a pass fires is expired and comes off the back one by one, and every callback but the last is done, so at most one timer is re-armed |
| `Timers.FiredInOrder` | mrc-client/app/src/main/cpp/yasio-4.3.1/yasio/io_service.cpp:1936-1953 | Timers fire in the order of their expiry, and a pass that fires none had none expired |
| `Timers.NothingLeft` | mrc-client/app/src/main/cpp/yasio-4.3.1/yasio/io_service.cpp:1936-1955 | A pass that re-arms no timer leaves no expired timer behind |
| `Timers.NoneLost` | mrc-client/app/src/main/cpp/yasio-4.3.1/yasio/io_service.cpp:1936-1955 | Every timer is still queued after a pass, or was fired and is done |
| `Timers.OrderedAt` | mrc-client/app/src/main/cpp/yasio-4.3.1/yasio/io_service.hpp:1138-1142 | In an ordered queue no entry expires before one behind it, and no timer has two entries |
| `Timers.TimerQueue.GetTimeout` | mrc-client/app/src/main/cpp/yasio-4.3.1/yasio/io_service.cpp:1963-1979 | The poll timeout is at most the given one and at most the remaining wait of any timer, and is one of these |
| `Heartbeat.TimeoutMeansSilence` | rmc-control/src-tauri/src/control_service.rs:184-195 | In every timed run the stored activity time lags the last read by less than 1 s, a ping timeout means more than 14 s without one, and a dead peer is noticed within one tick of 15 s |
| `Heartbeat.AnsweredNeverTimesOut` | rmc-control/src-tauri/src/control_service.rs:290-321 | If ticks follow within gap, every ping is answered within the given time and the two are not too slow together, the timeout never fires |
| `Heartbeat.GivenUpIff` | rmc-control/src-tauri/src/control_service.rs:290-321 | With a sleep of at least 1 s before every tick, some run gives up a peer that answers every ping in time exactly if gap is at least 1 s, gap and answer time add up to 10 s and 2 ns, and so does gap times one more than the whole seconds of the answer time |
| `Heartbeat.OneSecondTicks` | rmc-control/src-tauri/src/control_service.rs:290-321 | With ticks of 1 s a peer can be given up exactly if its answers may take 10 s |
| `Heartbeat.SlowTicksTimeOut` | rmc-control/src-tauri/src/control_service.rs:290-321 | A run with slower ticks in which a peer that answers in time is given up |
| `Heartbeat.StampsApart` | rmc-control/src-tauri/src/control_service.rs:192-195 | In every run two different stored activity times are at least a second apart |
| `Heartbeat.ActivityTime.OnRead` | rmc-control/src-tauri/src/control_service.rs:192-195 | A read moves the stored time forward so that it lags by less than a second, and leaves it alone unless it is a second old |
| `Registry.SessionCounter.CreateSessionId` | rmc-server/src/net/net_session.rs:17-25 | Hands out the counter's value, never zero, with 32-bit wrap-around |
| `Registry.IdsRepeatIff` | rmc-server/src/net/net_session.rs:17-25 | Two sessions get the same number exactly if the number of creations between them is a multiple of 2^32 - 1 |
| `Registry.BroadcastReaches` | rmc-server/src/player.rs:68-77 | In any order of the map walk, exactly the other sessions before the first closed receiver get the push, once each |
| `Registry.RequestDelivers` | rmc-server/src/player.rs:58-95 | An authorised request is pushed to every other session exactly if all their receivers are open; its sender gets the response exactly if its own is open too, and never the push |
| `RegistryRuns.KeysAreLive` | rmc-server/src/peer.rs:21-43 | In every run with distinct live numbers, the registered sessions are exactly those started and not closed |
| `RegistryRuns.PushesJustified` | rmc-server/src/player.rs:58-78 | In every run each queued push stems from an earlier request with the right code by another session |
| `RegistryRuns.QueueWithinInbox` | rmc-server/src/player.rs:46-100 | In every run, closed receivers included, a session has been queued a subsequence of what the events since its start promise it: no push twice for one request |
| `RegistryRuns.QueueIsInbox` | rmc-server/src/player.rs:46-100 | If no authorised request met a closed receiver, a session whose own receiver is open has been queued exactly what the events since its start promise it, whoever else came and went and in whatever walk orders |
| `RegistryRuns.ClosedReceiverCostsSession` | rmc-server/src/net/net_session.rs:154-172 | In every run an authorised request ends its sender's session exactly if its relay meets a closed receiver: no response is queued and no further message of that session is handled |
| `RegistryServer.Server.OnRecvMessage` | rmc-server/src/player.rs:46-100 | The handler with its loop and early exits changes the registry as the step function says |
| `RegistryServer.Server.HandleMessage` | rmc-server/src/net/net_session.rs:159-166 | A message in the read loop, an error ending the session, changes the registry as the step function says |
| `RegistryServer.Server.PushToOthers` | rmc-server/src/player.rs:68-77 | The loop pushes along the walk and ends at the first error |
| `RegistryServer.Server.OnSessionStart` | rmc-server/src/peer.rs:21-36 | The session can be reached and nothing waits for it; every other session keeps registration, queue and receiver |
| `RegistryServer.Server.CloseReceiver` | rmc-server/src/net/net_session.rs:73-134 | Once writing has ended, sending to the session fails while it is still registered; every other session is untouched |
| `RegistryServer.Server.OnSessionClose` | rmc-server/src/peer.rs:39-43 | The session is neither registered nor reached; every other session keeps registration, queue and receiver |
| `Registry.CloseUndoesStart` | rmc-server/src/peer.rs:21-43 | A session that is started and closed leaves no trace in the registry |

## Left out

- Memory fences and weak memory order: each atomic load or store of the queue and the semaphore is one sequentially consistent step.
- Allocation failure in the queue's constructor, its move operations and destructor.
- `size_approx` and `max_capacity` of the queue.
- Kernel semaphores: a post adds one, a wait takes one or times out; interrupted waits that the source repeats are one wait.
- Semaphore.StepKeeps: requires positive signals, because a signal of zero breaks the balance; `SignalSafeIff` gives the exact condition.
- JSON and UTF-8 errors of a complete message: a message is taken as already parsed.
- Sockets, polling, TLS, KCP, UDP and multicast: a read is an arbitrary chunk.
- yasio's packet forwarding mode and custom length decoders: only the built-in decoder is modelled; its signed 32-bit additions wrap.
- WebSocket callbacks that return a value other than zero, and sizes at which `p + require` overflows a pointer.
- The rest of half.hpp: conversion from float, other operations, `round_indeterminate`, and floating-point exception flags.
- HalfConvert.Float2Half: the bit operations `|` on disjoint fields are written as additions.
- Binary streams over fixed-size buffers and with the built-in offset stack, floating-point items, and `seek` and `advance`.
- Shared mutex: the library's mutex and condition variables are taken to behave as the C++ standard says; fairness between waiters is not stated.
- Timers.TimerQueue.ProcessTimers: callbacks leave the timer queue alone, and a timer that waits again has a positive period; a period of zero could keep one pass going for ever.
- Timers.TimerQueue.SortTimers: the order of timers that expire at the same time is left open, as `std::sort` leaves it.
- Heartbeat: the server's own ping schedule, which closes nothing, appears in the registry as an event without times.
- The controller's status machine and its bridge to the user interface, the Android media-key injection, and the client's connection queue.
