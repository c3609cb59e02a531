# tcp_to_can: a verified model

This project models the parts of tcp_to_can in which bytes and frames can get lost, reordered or
misread, and proves what the code keeps:

- the lock-free byte ring between the command thread and the socket thread of the TCP client;
- the 13-byte frames, commands and identifiers that travel through it;
- the doubly linked list, its iterators, and the mutex-protected CAN receive queue built on it;
- the telemetry record that received messages update;
- the line echo server written in Rust.

Code that works in place is modelled in place: `RingBuffer.RingBuf`, `CanList.List`,
`CanList.ListIterator`, `CanClient.Client` and `Telemetry.Device` are classes whose methods follow the
C functions. What runs concurrently is modelled as a state machine over its steps, and the results are
about every run of it. Platform: little-endian GCC, 32-bit `unsigned int`, sequentially consistent
memory.

| file | what it holds |
|---|---|
| Machine.dfy | fixed-width integers, masks, arithmetic modulo 2^32 |
| RingBuffer.dfy | the ring as a class, as a function on values, and as a bounded byte queue |
| SharedRing.dfy | one producer and one consumer on the ring, access by access |
| Codec.dfy | identifier bit-fields, frames, identifier rewriting, big-endian values |
| Commands.dfy | the encoders, `ll_socket_send`, and what each command puts on the wire |
| ClientLoop.dfy | `pthread_loop` and `thread_client` over the shared ring: framing and the start-up script |
| CanList.dfy | the list as heap nodes, refining a sequence; iterating while removing |
| CanClient.dfy | insert, read and send on the two queues of the CAN client |
| ListPrograms.dfy | list push and pop as programs of single loads and stores |
| ReceiveQueue.dfy | the receive thread and any number of readers on one memory, access by access |
| QueueCalls.dfy | what one whole call of the receive thread or of a reader does, in any run |
| Telemetry.dfy | the record, the dispatcher, and the record as a function of history |
| EchoPipeline.dfy | the echo server's reader, channel and writer |

Where the code departs from what one would expect, the model follows the code and the result says
exactly when the expectation holds:

- Framing on the send ring survives exactly the runs in which every send found 13 bytes of room
  (`ClientLoop.FramingIffRoom`). 2048 is 157 * 13 + 7, and `ll_socket_send` does not check, so the
  158th queued frame is stored as 7 bytes and later taken as a frame; a run from the start state that does
  this is given (`ClientLoop.TornFrame`).
- `get_send_frame` returns holding its lock exactly when the receive list has something and the send
  list has nothing (`CanClient.Client.GetSendFrame`).
- `read_can_frame` reads a stored 12-byte frame as a 13-byte one (`CanClient.ReadAs13Shifts`). The identifier
  comes out right exactly when its four bytes and the first data byte are equal, the data exactly when all
  eight bytes equal the byte behind the frame (`CanClient.ReadAs13Exact`); identifier 0x123 with data 1 to 8
  comes out wrong in both (`CanClient.MisreadFrame`).
- Battery parameter 0x0C has no `break` and also sets the two current limits; it commutes with 0x0D
  exactly when both carry the same two words (`Telemetry.LimitsCommuteIffEqual`).
- `ring_buf_init` also accepts length 0; that ring is a queue of capacity 0. For every other length the
  slots are distinct exactly when it is a power of two (`RingBuffer.OnlyPowersOfTwoWork`).
- The order of the receive queue depends on its mutex: with it every run is first-in first-out although each
  list operation takes several stores (`ReceiveQueue.QueueIsFifo`); without it one read between two stores of
  a push leaves a list whose next read goes through NULL (`ReceiveQueue.WithoutMutex`).
- The decoded power is within 9 of the power asked for exactly for arguments in [-327689, 327679]
  (`Commands.PowerQuantised`).
- The echo server replaces the last character of the input by a newline, so what it hands to its buffered
  writer is the input exactly when that is empty or ends in a newline (`EchoPipeline.EchoComplete`). The
  comment at r_tcp_to_can/src/main.rs:39 says that the end of either half aborts the other; the code joins
  both and aborts only when one panics, and the model follows the code.

## Model

| member | source | states |
|---|---|---|
| RingBuffer.RingBuf.Init | c_tcp_to_can/src/ringbuffer.c:34-40 | true exactly for a non-null buffer whose length is 0 or a power of two; the ring is then an empty queue |
| RingBuffer.RingBuf.Clear | c_tcp_to_can/src/ringbuffer.c:47-50 | leaves an empty queue |
| RingBuffer.RingBuf.Len | c_tcp_to_can/src/ringbuffer.c:56-59 | the number of bytes put and not yet taken, also after the counters wrap |
| RingBuffer.RingBuf.FreeSpace | c_tcp_to_can/src/ringbuffer.c:65-68 | capacity minus the bytes queued |
| RingBuffer.RingBuf.Put | c_tcp_to_can/src/ringbuffer.c:76-88 | appends the first min(len, free) bytes to the queue, in place, and returns that count |
| RingBuffer.RingBuf.Get | c_tcp_to_can/src/ringbuffer.c:96-107 | moves the oldest min(len, used) bytes into the caller's buffer in order and leaves the rest of both alone |
| RingBuffer.SlotAfter | c_tcp_to_can/src/ringbuffer.c:82-84 | advancing a counter by k moves its masked slot k places around the ring, also across 2^32 |
| RingBuffer.OnlyPowersOfTwoWork | c_tcp_to_can/src/ringbuffer.c:31-39 | the masked slots of a window are distinct if and only if the length is a power of two |
| RingBuffer.PutAppends | c_tcp_to_can/src/ringbuffer.c:76-88 | the two split copies append to the queue and change no byte already queued |
| RingBuffer.GetRemoves | c_tcp_to_can/src/ringbuffer.c:96-107 | the two split copies read the front of the queue, which then loses just those bytes |
| RingBuffer.RunRefinesQueue | c_tcp_to_can/src/ringbuffer.c:34-107 | any sequence of init, clear, put and get calls answers and leaves what a bounded byte queue does |
| SharedRing.NextInv | c_tcp_to_can/src/ringbuffer.c:76-107 | every single access by either thread keeps the ring invariant |
| SharedRing.ConcurrentSafety | c_tcp_to_can/src/ringbuffer.c:76-107 | in every interleaving the bytes taken, also within a running get, are a prefix of the bytes accepted; no unread slot is overwritten; all accesses are in bounds |
| SharedRing.ExecutionRefinesAtomic | c_tcp_to_can/src/ringbuffer.c:76-107 | every interleaving is a run of atomic puts and gets on one byte queue; ExactCounts says how much each moves |
| SharedRing.ExactCounts | c_tcp_to_can/src/ringbuffer.c:80-101 | in every interleaving a put moves the smaller of its length and the room free, and a get, also one that finds nothing, the smaller of its length and the bytes queued, at the step in which that same call loaded the other counter |
| SharedRing.StaleIsCautious | c_tcp_to_can/src/ringbuffer.c:80-101 | a stale counter never over-states room or data, and is exact if and only if the other side has not moved it |
| SharedRing.PutAloneIsSequential | c_tcp_to_can/src/ringbuffer.c:76-88 | the steps of a put that no get step interrupts, bytes copied in any order, do exactly what ring_buf_put does |
| SharedRing.GetAloneIsSequential | c_tcp_to_can/src/ringbuffer.c:96-107 | the steps of a get that no put step interrupts do exactly what ring_buf_get does |
| SharedRing.NeitherWaits | c_tcp_to_can/src/ringbuffer.c:76-107 | in every interleaving each thread can begin any call and go on with it, whatever the other does, and each own step brings the call nearer to its end |
| Codec.IdRoundTrip | c_tcp_to_can/inc/can_msg.h:28-40 | the seven bit-fields are read back from the 32-bit identifier they make up |
| Codec.FieldsLie | c_tcp_to_can/inc/can_msg.h:28-40 | the fields lie at bits 0, 6, 10, 14, 20, 24 and 25 |
| Codec.FieldsRoundTrip | c_tcp_to_can/inc/can_msg.h:28-40 | every 32-bit identifier is made up again from its bit-fields |
| Codec.FrameRoundTrip | c_tcp_to_can/src/main.c:62-93 | a message packed into 13 bytes and decoded as thread_client does is the same message |
| Codec.FrameLies | c_tcp_to_can/src/main.c:62-74 | the place of every byte of the frame: head 0x88, identifier low byte first, parameter, frame byte, data |
| Codec.ParseRoundTrip | c_tcp_to_can/src/main.c:190-191 | a received frame is what would have been sent for its message if and only if it starts with 0x88 |
| Codec.RewriteKeepsHeader | c_tcp_to_can/src/dev_can.c:82-209 | marking an identifier as extended and storing it keeps all fields, the class modulo 16; it is idempotent, and the identity if and only if the class is below 16 |
| Codec.StandardFrameLosesHeader | c_tcp_to_can/src/dev_can.c:203-209 | without the extended flag only 11 bits of the header are stored |
| Codec.WrittenIdIs | c_tcp_to_can/src/dev_can.c:82-83 | a written identifier is its low 29 bits with the top bit set |
| Codec.FormsAgree | c_tcp_to_can/src/fml_can_device.c:159-163 | the shift form and the byte-swap form of a big-endian word decode alike |
| Codec.Words16 | c_tcp_to_can/src/ll_es_can_pro.c:189-195 | a 16-bit value, signed or unsigned, encoded high byte first is decoded to itself |
| Codec.Words32 | c_tcp_to_can/src/fml_can_device.c:177-187 | a signed 32-bit value sent as two big-endian words is decoded to itself |
| Codec.Bytes16 | c_tcp_to_can/src/fml_can_device.c:160-161 | decoding a signed word and encoding it again gives the same two bytes |
| Commands.CommandRoundTrip | c_tcp_to_can/src/ll_es_can_pro.c:79-298 | the frame of every command means that command (power in whole tens). `Decode` is the specification's own decoder, of head, addresses, class, parameter and all data bytes; the repository has the sending side only |
| Commands.DecodeIsExact | c_tcp_to_can/src/ll_es_can_pro.c:79-298 | the decoder's tests of received fields and bytes pass if and only if the frame is, byte for byte, one that some encoder builds, and then it is the frame of the command read |
| Commands.CommandsDistinct | c_tcp_to_can/src/ll_es_can_pro.c:79-298 | two different commands never share a frame, except powers that narrow to the same word |
| Commands.WireBytes | c_tcp_to_can/src/ll_es_can_pro.c:79-298 | the thirteen bytes of every command's frame, written out |
| Commands.HeaderWord | c_tcp_to_can/src/main.c:75-93 | the identifier as a number: each argument cut to its field, the monitor as source |
| Commands.PowerQuantised | c_tcp_to_can/src/ll_es_can_pro.c:244-256 | the decoded power is within 9 of the argument and not larger in size if and only if the argument lies in [-327689, 327679] |
| Commands.PackMsgToFrame | c_tcp_to_can/src/main.c:62-74 | fills the 13 bytes that FrameRoundTrip reads back |
| Commands.ReceiveMessage | c_tcp_to_can/src/main.c:174-191 | the decoding half of thread_client for every positive read: a short one overwrites the front of the buffer and is decoded as a whole frame |
| Commands.LlSocketSend | c_tcp_to_can/src/main.c:75-98 | queues the first min(13, free) bytes of the frame whose header holds each argument modulo its field width |
| Commands.LlEsCanSync | c_tcp_to_can/src/ll_es_can_pro.c:79-97 | queues the time-sync broadcast with the six bytes given |
| Commands.LlEsCanPowerOnOff | c_tcp_to_can/src/ll_es_can_pro.c:107-116 | queues the power command of the wire table |
| Commands.LlEsCanFaultClear | c_tcp_to_can/src/ll_es_can_pro.c:125-133 | queues the fault-clear command of the wire table |
| Commands.LlEsCanEnableDcModule | c_tcp_to_can/src/ll_es_can_pro.c:170-178 | queues the enable command of the wire table |
| Commands.LlEsCanBatChgVset | c_tcp_to_can/src/ll_es_can_pro.c:189-202 | queues a signed voltage, also a negative one, that CommandRoundTrip reads back |
| Commands.LlEsCanDcPower | c_tcp_to_can/src/ll_es_can_pro.c:244-256 | queues the truncated and narrowed power |
| Commands.LlEsCanOnOffGrid | c_tcp_to_can/src/ll_es_can_pro.c:142-152 | queues the grid switch command of the wire table |
| Commands.LlEsCanOffGirdVset | c_tcp_to_can/src/ll_es_can_pro.c:160-169 | queues the off-grid voltage |
| Commands.LlEsCanEnableBmsModule | c_tcp_to_can/src/ll_es_can_pro.c:180-188 | queues the battery module enable command |
| Commands.LlEsCanMaxChgCurrent | c_tcp_to_can/src/ll_es_can_pro.c:204-212 | queues the charge current limit |
| Commands.LlEsCanMaxDischCurrent | c_tcp_to_can/src/ll_es_can_pro.c:214-222 | queues the discharge current limit |
| Commands.LlEsCanUpLimitedVset | c_tcp_to_can/src/ll_es_can_pro.c:224-232 | queues the signed upper voltage limit |
| Commands.LlEsCanDownLimitedVset | c_tcp_to_can/src/ll_es_can_pro.c:234-242 | queues the signed lower voltage limit |
| Commands.LlEsCanEod | c_tcp_to_can/src/ll_es_can_pro.c:258-266 | queues the end-of-discharge value |
| Commands.LlEsCanOnGridDod | c_tcp_to_can/src/ll_es_can_pro.c:268-276 | queues the on-grid depth of discharge |
| Commands.LlEsCanOffGridDod | c_tcp_to_can/src/ll_es_can_pro.c:278-286 | queues the off-grid depth of discharge and answers -1 whatever went in |
| Commands.LlEsCanSetSysState | c_tcp_to_can/src/ll_es_can_pro.c:287-298 | queues the system state |
| ClientLoop.LoopBody | c_tcp_to_can/src/main.c:129-140 | one turn queues nothing, one sync, or the four set-up commands in order, and sets init_flag exactly after the latter |
| ClientLoop.StepKeepsInv | c_tcp_to_can/src/main.c:121-217 | every step of the two threads keeps the ring, script and framing invariants |
| ClientLoop.RoomyIsWhole | c_tcp_to_can/src/main.c:95-97 | in every run all sends so far saw 13 bytes of room if and only if all frames so far went in whole |
| ClientLoop.SessionScript | c_tcp_to_can/src/main.c:121-217 | with room at each send, across any disconnects, whole frames come out in order, byte for byte as written out in ScriptBytes: power-off, enable, power 100, fault clear, then only syncs |
| ClientLoop.TakesOnlyConnected | c_tcp_to_can/src/main.c:205-212 | in every run no get is under way while the client is disconnected |
| ClientLoop.NothingTakenOffline | c_tcp_to_can/src/main.c:129-212 | in every run, from a disconnect to the next connect nothing is taken, and a loop that sleeps sleeps on and queues nothing |
| ClientLoop.EachItsOwn | c_tcp_to_can/src/main.c:121-217 | only the client thread connects, disconnects and takes; only the loop thread queues and sets init_flag |
| ClientLoop.TurnQueues | c_tcp_to_can/src/main.c:126-140 | in every run a whole turn of the loop starts connected and queues one sync, or, init_flag being clear, the four set-up commands and sets it |
| ClientLoop.BothGoOn | c_tcp_to_can/src/main.c:121-217 | in every run the client can go on, if need be by reconnecting, and so can the loop unless it sleeps while disconnected |
| ClientLoop.FramingIffRoom | c_tcp_to_can/src/main.c:95-97 | the accepted bytes stay frame-aligned if and only if every send found 13 bytes of room |
| ClientLoop.TornFrame | c_tcp_to_can/src/main.c:95-97 | a run from the start state: the reader idle, set-up and syncs queue 157 whole frames, the 158th is stored as 7 bytes, and the reader then takes those 7 bytes as a frame |
| CanList.List.RPush | c_tcp_to_can/src/can_msg_list.c:50-67 | appends the node; a null node changes nothing |
| CanList.List.RPop | c_tcp_to_can/src/can_msg_list.c:72-88 | removes and returns the last node unlinked, null exactly when empty |
| CanList.List.LPop | c_tcp_to_can/src/can_msg_list.c:93-109 | removes and returns the first node unlinked, null exactly when empty |
| CanList.List.LPush | c_tcp_to_can/src/can_msg_list.c:114-131 | prepends the node; a null node changes nothing |
| CanList.List.Find | c_tcp_to_can/src/can_msg_list.c:136-161 | the first matching node, null exactly when nothing matches or no iterator could be allocated |
| CanList.List.At | c_tcp_to_can/src/can_msg_list.c:166-191 | for every int: element i, element len + i for negative i, null exactly when there is none |
| CanList.List.Remove | c_tcp_to_can/src/can_msg_list.c:196-208 | deletes the node at its position, keeps the other nodes in order, and frees it |
| CanList.List.Bypassed | c_tcp_to_can/src/can_msg_list.c:197-199 | bypassing a node in both directions leaves a valid list of the others |
| CanList.List.Destroy | c_tcp_to_can/src/can_msg_list.c:30-45 | frees every node of the list, each once and in order, reading no freed node |
| CanList.ListIterator.Next | c_tcp_to_can/src/can_msg_list.c:236-242 | hands out the nodes one by one in its direction, already moved past the one handed out |
| CanList.Advance | c_tcp_to_can/src/can_msg_list.c:196-242 | freeing the node just handed out does not disturb what the iterator hands out next |
| CanList.SweepForward | c_tcp_to_can/src/can_msg_list.c:196-242 | iterating from the head while removing any of the nodes visits all in order, frees exactly those, leaves exactly the others, and changes no value |
| CanList.SweepBackward | c_tcp_to_can/src/can_msg_list.c:196-242 | the same from the tail, in exactly the reverse order |
| CanList.DoAll | c_tcp_to_can/src/can_msg_list.c:50-208 | any sequence of pushes, pops and removals by index leaves the elements, and gives the answers, of a deque |
| CanClient.ReadAs13Shifts | c_tcp_to_can/src/dev_can.c:172-178 | the copied-out frame holds the stored bytes shifted by one field; the stored frame can be recovered from it |
| CanClient.ReadAs13Exact | c_tcp_to_can/src/dev_can.c:172-178 | the identifier read is the stored one if and only if its four bytes equal the first data byte, the data if and only if all eight bytes equal the byte behind the frame, and both if and only if all thirteen bytes are equal |
| CanClient.MisreadFrame | c_tcp_to_can/src/dev_can.c:147-229 | identifier 0x123 with data 1 to 8, inserted into a fresh client and read, comes out with another identifier and other data |
| CanClient.StoredKeeps | c_tcp_to_can/src/dev_can.c:203-216 | what is stored of every frame: all data, and 29 bits of the identifier when its top bit is set, else 11 |
| CanClient.Client.InsertCanFrameRecvList | c_tcp_to_can/src/dev_can.c:189-229 | appends that form of the frame, counts and posts; a failed node allocation counts but loses it |
| CanClient.Client.ReadCanFrame | c_tcp_to_can/src/dev_can.c:147-186 | takes the oldest frame or answers -2, and the lock is free again on every path |
| CanClient.Client.GetSendFrame | c_tcp_to_can/src/dev_can.c:98-135 | takes the oldest send frame; returns with the lock held if and only if the receive list is not empty and the send list is |
| CanClient.StuckSender | c_tcp_to_can/src/dev_can.c:98-135 | the state with the lock held is reached from a fresh client |
| ListPrograms.RPushAppends | c_tcp_to_can/src/can_msg_list.c:50-67 | the push program, run alone on a proper list, touches allocated nodes only and appends its frame |
| ListPrograms.LPopRemoves | c_tcp_to_can/src/can_msg_list.c:93-109 | the pop program, run alone on a proper list, touches allocated nodes only, hands out the first node and leaves the others |
| ReceiveQueue.MutualExclusion | c_tcp_to_can/src/dev_can.c:159-225 | in every run at most one thread is past the lock, and only that thread's steps change the list or its nodes |
| ReceiveQueue.NoBadAccess | c_tcp_to_can/src/dev_can.c:159-225 | in every run no access goes through a null or freed node, none is freed twice, and with the mutex free the links are right both ways and just the list's nodes are allocated |
| ReceiveQueue.QueueIsFifo | c_tcp_to_can/src/dev_can.c:147-229 | in every run, with list operations interleaved store by store, frames leave in insertion order and with the mutex free walking the list finds exactly the rest; the counter leads the posts by at most one and equals the insertions if and only if no node allocation failed |
| ReceiveQueue.NothingLost | c_tcp_to_can/src/dev_can.c:189-262 | with the mutex free the frames taken, listed and in flight are all frames received, in order, if and only if no allocation failed; without failures the frames taken are at every moment the first ones received |
| ReceiveQueue.MutexIsReleased | c_tcp_to_can/src/dev_can.c:159-225 | whoever holds the mutex can move, gets nearer to its release with each own step, and is neither delayed nor interfered with by others |
| ReceiveQueue.WithoutMutex | c_tcp_to_can/src/dev_can.c:159-219 | a read between two stores of a push on a one-node list leaves length 1 and no first node, and the next read goes through NULL |
| QueueCalls.ReadTakesHead | c_tcp_to_can/src/dev_can.c:147-186 | in every run a whole call of read_can_frame takes exactly the frame at the head of the list when it took the mutex, and nothing from an empty list |
| QueueCalls.TurnAddsOne | c_tcp_to_can/src/dev_can.c:189-262 | in every run a whole turn of the receive thread takes in one frame, inserts its stored form, counts and posts once; lost, counted and posted if only the node allocation fails, lost uncounted if the message allocation does |
| QueueCalls.OnlyTheMutexBlocks | c_tcp_to_can/src/dev_can.c:159-262 | in every run a thread is held up if and only if it is about to take the mutex and another has it |
| QueueCalls.Delivered | c_tcp_to_can/src/dev_can.c:147-262 | whatever frames arrive there is a run in which a reader takes all of them, in order |
| QueueCalls.AnyAllocation | c_tcp_to_can/src/dev_can.c:197-221 | either allocation may fail, and a node may get any unused address |
| Telemetry.FieldsArePacked | c_tcp_to_can/src/fml_can_device.c:72-257 | the fields a message fills lie one after the other from the first word and fit its three words |
| Telemetry.FieldReadsBack | c_tcp_to_can/inc/ll_es_can_pro.h:21-86 | every field, its C type written out, reads back the value whose big-endian bytes the payload carries at the field's place |
| Telemetry.EveryFieldHasType | c_tcp_to_can/inc/ll_es_can_pro.h:21-86 | the uint16_t, int16_t and int32_t lists are together just the fields that messages fill |
| Telemetry.Device.RemoteSignalMsgParse | c_tcp_to_can/src/fml_can_device.c:66-130 | each field takes its table value if this message writes it and keeps its value otherwise |
| Telemetry.Device.RemoteMeterMsgParse | c_tcp_to_can/src/fml_can_device.c:132-264 | the same for metering messages, including 0x0C falling into 0x0D |
| Telemetry.SignalTable | c_tcp_to_can/src/fml_can_device.c:66-130 | parameter by parameter, which fields a signal message sets and from which bytes |
| Telemetry.DcdcMeterTable | c_tcp_to_can/src/fml_can_device.c:137-213 | the same for metering messages of the converter, with signs and 32-bit values |
| Telemetry.BmsMeterTable | c_tcp_to_can/src/fml_can_device.c:214-263 | the same for metering messages of the battery |
| Telemetry.Device.CanDeviceMsgParse | c_tcp_to_can/src/fml_can_device.c:265-297 | the same for every message; control, setup and unknown classes change nothing |
| Telemetry.Device.ReceiveAll | c_tcp_to_can/src/main.c:174-193 | after any run of reads, short ones included, each field holds the value of the latest message that writes it, else its old value |
| Telemetry.FullReads | c_tcp_to_can/src/main.c:174-193 | full reads are decoded to the messages of their frames, whatever was in the buffer before |
| Telemetry.BufferByte | c_tcp_to_can/src/main.c:175-191 | after any reads, byte i of what is decoded is that of the latest read long enough to reach it |
| Telemetry.LatestFromLastWriter | c_tcp_to_can/src/fml_can_device.c:66-297 | the latest value is the one carried by the last message in the history that writes the field |
| Telemetry.FindLastWriter | c_tcp_to_can/src/fml_can_device.c:66-297 | there is such a message, or no message writes the field and it keeps its initial value |
| Telemetry.LatestIsWhatWasSent | c_tcp_to_can/src/fml_can_device.c:66-297 | after any history a field holds the very value that the last message writing it was sent with |
| Telemetry.ReorderKeepsRecord | c_tcp_to_can/src/fml_can_device.c:66-297 | any reordering that keeps the order of messages sharing a field leaves the same record |
| Telemetry.DisjointMessagesCommute | c_tcp_to_can/src/fml_can_device.c:66-297 | neighbouring messages that share no field may be exchanged anywhere in a history |
| Telemetry.OnlyLimitsOverlap | c_tcp_to_can/src/fml_can_device.c:249-258 | messages of different kinds share a field if and only if they are battery 0x0C and 0x0D |
| Telemetry.LimitsCommuteIffEqual | c_tcp_to_can/src/fml_can_device.c:249-258 | battery 0x0C and 0x0D may be exchanged if and only if they carry the same first two words |
| Telemetry.CurrentLimitsFollowVoltage | c_tcp_to_can/src/fml_can_device.c:249-258 | after a 0x0C message the current limits hold its voltage limits |
| Telemetry.ExtendedFrameIgnored | c_tcp_to_can/src/dev_can.c:82-83 | an identifier marked by write_can_frame dispatches to nothing in can_device_msg_parse |
| EchoPipeline.EchoOfLine | r_tcp_to_can/src/main.rs:62-67 | the echo of an input is the echo of its first line followed by the echo of the rest |
| EchoPipeline.EchoConserved | r_tcp_to_can/src/main.rs:48-89 | at every moment output, line being written, channel, line in flight and unread input account for the whole input; at most 100 lines are queued, none after the writer stopped; with errors the output is still a prefix of the answer |
| EchoPipeline.LinesInOrder | r_tcp_to_can/src/main.rs:52-88 | in every run, until a write fails, n whole lines of the input have been handed over and the line being written, the channel, the line being sent and the lines not yet read are the next ones, one message per line |
| EchoPipeline.LinesSplit | r_tcp_to_can/src/main.rs:52-70 | those lines contain no newline and joined give the echo of the input |
| EchoPipeline.LinesAreUnique | r_tcp_to_can/src/main.rs:52-70 | no other list does both |
| EchoPipeline.MessagesAreLines | r_tcp_to_can/src/main.rs:52-70 | in every run, with or without errors, no message contains a newline |
| EchoPipeline.SenderWaits | r_tcp_to_can/src/main.rs:27-70 | with a line to send the reader waits if and only if 100 lines are queued and the writer is still there |
| EchoPipeline.EchoComplete | r_tcp_to_can/src/main.rs:48-89 | a finished run without errors has handed to the writer the input with its last character replaced by a newline, which is the input if and only if it is empty or ends in one |
| EchoPipeline.StepDecreases | r_tcp_to_can/src/main.rs:52-88 | every step brings both tasks nearer to their end |
| EchoPipeline.RunsEnd | r_tcp_to_can/src/main.rs:52-88 | every run has at most five steps per input character and two more |
| EchoPipeline.NeverBlocked | r_tcp_to_can/src/main.rs:27-88 | until both tasks have stopped one of them can go on without an error |
| EchoPipeline.WriterDrains | r_tcp_to_can/src/main.rs:82-88 | once the reader has stopped, the writer has at most a receive and a write per queued line and two more steps left |
| EchoPipeline.ReaderStopsAtNextSend | r_tcp_to_can/src/main.rs:70-73 | in every run, once the writer has stopped nothing more is written or queued and the reader stops within two steps, one if it had a line to send |

## Left out

- CanList.List.RPush: asks for fewer than 2^32 - 1 nodes; a list long enough to wrap the unsigned length is not modelled. The same holds for LPush, DoAll and InsertCanFrameRecvList, and for the length in ListPrograms, which wraps below 0 but not above 2^32 - 1.
- ReceiveQueue.QueueIsFifo: allocating or freeing a node, copying its frame out, and `frame_cnt += 1` are one step each; loads and stores of the list header and of node links are not merged.
- CanList.List.Remove: takes the position of the node as a ghost argument and asks that the node is in the list, as the C code silently does.
- Callers of the iterator: SweepForward, SweepBackward and Advance are how a caller uses it together with list_remove; no function of the repository contains that loop.
- CanClient.Client.ReadCanFrame: the byte read past the 12 stored ones is an arbitrary argument.
- Telemetry.Device.ReceiveAll: the record is a map from fields to values, a field not yet written being zero; addresses and padding of the C struct are not modelled.
- ReceiveQueue.MutexIsReleased: speaks of the holder's own steps; fairness of the scheduler and of the mutex is not modelled.
- Sockets, connect, reconnect timing, sleeps, thread creation and the result of send: reads, disconnects and scheduling are arbitrary steps.
- The free callback of a list, memory exhaustion outside the allocation arguments, and the NULL client checks.
- Weak memory: SharedRing assumes that both threads see stores in one order; the C source has no barriers.
- ring_buf_init is not run while the other thread uses the ring, and ring_buf_clr has no caller there; SharedRing has neither.
- ringbuffer.h is not part of this model; its fields are taken as 32-bit unsigned integers.
- Logging, print counters, can_msg.c, can_custom_lib.c, utility.c, log.c, my_alg.c and the user interface.
- The accept loop of the echo server, UTF-8 decoding errors other than as read errors, panics, and flushing of its buffered writer.
