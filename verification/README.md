# libbidib in Dafny

A model of the library's five hard parts and proofs about them. libbidib is a
host library for the BiDiB protocol: threads send messages to the nodes of a
model railway over one serial line, a receiver thread takes the answers, and the
library keeps track of nodes, occupancy and trains.

| file | contents |
|---|---|
| `Bytes.dfy` | bytes, bit patterns, exclusive-or |
| `Crc.dfy` | the checksum table, its algebra, burst detection |
| `Messages.dfy` | building, dissecting and splitting messages |
| `SendBuffer.dfy` | the send buffer and the chunked encoder against a pure one |
| `Receiver.dfy` | the receive loop against a byte machine; resynchronisation |
| `Wire.dfy` | sender and receiver end to end |
| `Responses.dfy` | the response table |
| `NodeStates.dfy` | flow control per node: the functions and the class with the loops |
| `FlowControl.dfy` | window and stall safety over all runs |
| `Stalling.dfy` | who is stalled over all runs, what that holds back, and who waits for it |
| `Wakeups.dfy` | no lost wakeup, where it holds and where it fails |
| `Answers.dfy` | which message an answer belongs to, and the action id it yields |
| `Answering.dfy` | a node that answers gets all its messages |
| `Interleaving.dfy` | threads, receiver and flusher as one transition system |
| `Ordering.dfy` | conservation, order and delivery under every interleaving |
| `Packets.dfy` | packets against the capacity announced, alone and under every interleaving |
| `SeqNums.dfy` | sequence numbers sent and received |
| `Tracks.dfy` | boards, segments, trains and the searches on them |
| `Occupancy.dfy` | occupancy reports and the derived train index |
| `Reports.dfy` | what one report changes, and what the position query makes of it |
| `TrainFunctions.dfy` | setting one decoder function through packed bits, and a speed |
| `TrainMotion.dfy` | what any drive message stores, and speeds there and back |
| `NodeTree.dfy` | addresses, subnodes, nodes lost and new |
| `BoardHistory.dfy` | the boards over all arrivals, losses and table reads |
| `NodeTables.dfy` | trees of nodes and what reading one node table does to the boards |
| `DiscoveryQueue.dfy` | what reading puts into the queue, and exactly when the queue runs empty |
| `Discovery.dfy` | breadth-first discovery with restarts |

`dafny verify dfyconfig.toml` checks everything.

## How it is modelled

Code that changes state in loops is modelled by methods and classes with the
same loops, each proved against a function from old to new state; the properties
are proved about those functions and about all runs of them.

- A region under a mutex is one step. A send is three steps, as in the library:
  take a sequence number, ask flow control, add to the send buffer. The receiver
  keeps the node table locked while it makes the send buffer calls a region owes,
  so these calls are steps of their own, and until they are made no other thread
  enters the node table.
- Time is a parameter of each region; an expected response is expired
  from 2 seconds of age on. One clock reading serves a whole region.
- The node table is keyed by C strings, so a key is the address up to its first
  zero byte.
- The wake queue search compares an unsigned byte with a signed char and so never
  finds an address with a byte above 127; `Found` says the same, duplicates included
  (`Stalling.WaitersOnce`, `Stalling.HighAddressWaitsTwice`).
- `Take` steps with `numbered` false are sends while numbering is switched off.
- Setting a train function holds the train lock for writing from reading the
  current bits to storing the new ones, so it is one step.
- A store past the read buffer is an outcome of the receive methods; what C does
  then is undefined and not modelled.
- Masks and shifts on single bytes are written as division and remainder where
  only one field is taken, and with `bv8` where bits are combined.
- What the configuration parser guarantees enters as a predicate: unique ids,
  addresses and bits, function bits below 32, states aligned with mappings
  (`TrainFunctions.Configured`), unique numbers and segments per board
  (`Occupancy.MappingsOk`). Every drive message keeps the first
  (`TrainFunctions.SendKeepsConfigured`); node changes leave the mappings of the
  second alone.

## Where the code falls short of the obvious property

- Dropping an expired response frees window room without trying the held
  messages again. `Wakeups.UpdateSettlesExactly` gives the exact condition for one
  message, `Wakeups.NeverLostExactly` for whole runs, `Wakeups.LostWakeup` an
  example, and `Wakeups.AbandonedForever` says that the node may never send again.
- README.md:217-219 of the library calls concurrent sends safe. Messages of one
  thread keep their order, and none is lost; but two threads that send to one
  node can swap their sequence numbers (`SeqNums.OvertakingBreaksOrder`). Order is
  safe exactly as long as no two sends to the node are under way together
  (`Ordering.OrderSafeExactly`, `SeqNums.SerialisedExactly`).
- Every restart of discovery skips a number towards the interface, though only one
  reset precedes them (`SeqNums.SkipIsReported`).
- The receive loop stores into its 256 bytes without a bound check. It stays inside
  exactly if no stretch between delimiters is longer (`Receivers.FitsExactly`,
  `Receivers.LongStretchOverruns`).
- A delimiter in front of an empty packet is skipped without clearing a pending
  escape, so the frame behind it is dropped (`Receivers.Resynchronises`);
  `Receivers.SpoiltExactly` says after which bytes, `Receivers.SpoiltFrame` gives two.
- A function at bit 5, 6 or 7 can be configured but never set: the call returns 0
  and sends either nothing or a message that leaves it out
  (`TrainFunctions.SetExactly`, `TrainFunctions.UnreachedExample`). A state other than
  0 or 1 can switch on other functions of the group;
  `TrainFunctions.OthersChangeExactly` says which, and `TrainFunctions.SpillExample`
  gives an input.
- A drive message is stored for the train whose address is left after masking the
  high byte, so a train configured above 0x3F is never changed
  (`TrainFunctions.HighAddressIsMissed`), and another may be changed instead
  (`TrainFunctions.HighAddressExample`).
- The parser's message asks for bits smaller than 31, but its test accepts 31
  (src/parser/bidib_config_parser_train.c:194-198); the model follows the test.
- An interface three levels below the root ends at its parent's address, and nodes
  below it at no address of their own. Discovery is complete exactly if none of
  these is configured (`Discovery.Discoverer.InitAllocationTable`). Interfaces
  further down have no address of their own: their numbers lead to other nodes three
  levels down. Where those are interfaces, discovery ends exactly if none of them leads
  back to itself (`DiscoveryQueue.EndsExactly`); five interfaces in a chain, each known
  as number 1, are a tree on which it never ends (`DiscoveryQueue.LoopingTreeExists`).
- A stall of the root itself never holds anything back
  (`FlowControl.RootStallIgnored`).

## Model

| member | source | states |
|---|---|---|
| NodeStates.NodeStateTable.NodeQuery | src/transmission/bidib_transmission_node_states.c:82-100 | The entry of a node is found, or created with both counters at 1, empty queues and no stall. |
| FlowControl.BlockerIsNearest | src/transmission/bidib_transmission_node_states.c:120-149 | What the walk towards the root finds is stalled, on the way, and the nearest such node. |
| NodeStates.NodeStateTable.StallReady | src/transmission/bidib_transmission_node_states.c:120-149 | The byte-zeroing loop on a copy of the address answers ready exactly if the walk meets no stalled node, and otherwise enters the node in the wake queue of the first one it meets. |
| NodeStates.ShortenedKey | src/transmission/bidib_transmission_node_states.c:140-147 | Zeroing the last non-zero byte shortens the key by one byte, or leaves it as it is behind an inner zero; so the walk visits prefixes only and ends. |
| NodeStates.NodeStateTable.NodeTrySend | src/transmission/bidib_transmission_node_states.c:151-175 | A message passes if the node is ready, holds nothing and has window room; else it joins the end of the held queue. The whole new table is given. |
| NodeStates.NodeStateTable.TryQueuedMessages | src/transmission/bidib_transmission_node_states.c:177-216 | The drain loop sends held messages front first while node and window allow, asks for readiness before each, and flushes once if anything went out. |
| NodeStates.NodeStateTable.NodeStateUpdate | src/transmission/bidib_transmission_node_states.c:218-274 | The scan of the answers of the front entry: a match frees its bytes, drains and yields its action id; an expired entry is dropped and the scan goes on at the next answer index of the entry behind it. |
| NodeStates.NodeStateTable.ReleaseAffected | src/transmission/bidib_transmission_node_states.c:284-296 | The wake queue of a released node is popped front first and every woken node drained, until it is empty. |
| NodeStates.NodeStateTable.NodeUpdateStall | src/transmission/bidib_transmission_node_states.c:276-303 | A stall report sets the flag; its end clears the flag and releases the wake queue. |
| NodeStates.NodeStateTable.GetAndIncrSendSeqnum | src/transmission/bidib_transmission_node_states.c:305-327 | Yields the counter and moves it on, 255 to 1. |
| NodeStates.NodeStateTable.GetAndIncrReceiveSeqnum | src/transmission/bidib_transmission_node_states.c:305-319 | Yields the awaited number and moves it on, 255 to 1. |
| NodeStates.NodeStateTable.SetReceiveSeqnum | src/transmission/bidib_transmission_node_states.c:329-334 | Sets the awaited number of the node and nothing else. |
| Responses.SizesAreSmall | src/transmission/bidib_transmission_responses.c:34-178 | No table size exceeds 40 bytes, and bytes are reserved exactly for the types that have an answer. |
| FlowControl.EmptyWindowAdmits | src/transmission/bidib_transmission_node_states.c:157-160 | A node with no response outstanding has room for any message. |
| FlowControl.PassesExactly | src/transmission/bidib_transmission_node_states.c:151-175 | A message passes if and only if no non-root node on its way is stalled, its node holds nothing, and the bytes awaited and its own are at most 48. |
| FlowControl.ScanOk | src/transmission/bidib_transmission_node_states.c:232-263 | The answer scan only takes entries off the front, keeps the byte count exact, and frees room exactly when it matches or drops one. |
| FlowControl.DrainOk | src/transmission/bidib_transmission_node_states.c:177-216 | Draining keeps every node's window and queues in order and sends messages of that node only. |
| FlowControl.WakeOk | src/transmission/bidib_transmission_node_states.c:276-303 | Releasing a node leaves its wake queue empty and every table invariant intact. |
| FlowControl.EnterOk | src/transmission/bidib_transmission_node_states.c:151-334 | Every region under the table mutex keeps the table invariant. |
| FlowControl.WindowSafety | src/transmission/bidib_transmission_node_states.c:53-63 | In every run, expiry included: each byte count is the sum of table sizes over the response queue and at most 48, counters are never 0, queues belong to their node, and only stalled non-root nodes have others waiting. |
| FlowControl.BlockerMeaning | src/transmission/bidib_transmission_node_states.c:120-149 | The walk finds nobody if and only if no node on the way, the root apart, is stalled. |
| FlowControl.StallSafety | src/transmission/bidib_transmission_node_states.c:120-216 | Whatever passes flow control in any region, directly or from a held queue, goes to a node that is neither stalled nor below a stalled non-root node. |
| FlowControl.RootStallIgnored | src/transmission/bidib_transmission_node_states.c:124-147 | A stall of the root holds nothing back: no walk consults it. |
| Stalling.StallReported | src/transmission/bidib_transmission_node_states.c:276-303 | After a stall report the node is stalled if and only if the status is not 0; such a report makes no calls and changes nothing but the flag; no other node's flag changes. |
| Stalling.StalledExactly | src/transmission/bidib_transmission_node_states.c:276-303 | Over every run: a node is stalled if and only if the last stall report for it had a status other than 0. |
| Stalling.NothingPassesStalled | src/transmission/bidib_transmission_node_states.c:120-303 | Over every run: while the last report for a node other than the root says stalled, no message passes to it or to a node below it, from any region. |
| Stalling.SendIsHeld | src/transmission/bidib_transmission_node_states.c:151-175 | What is sent to a stalled node or below one joins the end of the held messages, and its node waits in the queue of a stalled one above it or its own. |
| Stalling.WaitersOnce | src/transmission/bidib_transmission_node_states.c:102-149 | Over every run: no node is in a wake queue twice, unless its address has a byte above 127. |
| Stalling.HighAddressWaitsTwice | src/transmission/bidib_transmission_node_states.c:102-109 | A node at address 200 that waits already is queued again by its next message. |
| Stalling.WakeServesInOrder | src/transmission/bidib_transmission_node_states.c:284-296 | The end of a stall sends the held messages of the nodes that wait in the order of the wake queue, and of nobody else. |
| Wakeups.NoRoomMeansResponseDue | src/transmission/bidib_transmission_node_states.c:157-160 | If a message does not fit the window, a response is outstanding. |
| Wakeups.ScanIs | src/transmission/bidib_transmission_node_states.c:232-263 | The outcome of the scan read off the response queue: the entries dropped are those that lapse one after the other, each tested at its own answer index, and the entry behind them is taken, and its action id yielded, exactly if it has the answer from there on. |
| Wakeups.DropsExpiredExactly | src/transmission/bidib_transmission_node_states.c:242-263 | An entry is dropped if and only if, before the message is handled, the front entry has expired and its first answer is not the message. |
| Answers.LapsedExactly | src/transmission/bidib_transmission_node_states.c:242-263 | Entry by entry: those that lapse are at least 2 seconds old and do not have the answer at their place in turn; the one behind them is younger, or has it there, or has no answer left. |
| Answers.QueueIsRest | src/transmission/bidib_transmission_node_states.c:53-63 | Over every run: a node's response queue holds the messages that passed to it and expect an answer, each with its type, time and action id, in the order they passed, less those answered or lapsed. |
| Answers.AnswerYieldsId | src/transmission/bidib_transmission_node_states.c:218-274 | Over every run: a message from a node yields the action id of the message it answers, the first still awaited that does not lapse, and 0 if it answers none. |
| Answers.AnswerComesBack | src/transmission/bidib_transmission_node_states.c:151-274 | There and back: the first answer to a message that passes while nothing else is awaited yields the action id that message was sent with. |
| Wakeups.DrainSettles | src/transmission/bidib_transmission_node_states.c:177-216 | A drained node ends with nothing held, with no room for its first held message, or in the wake queue of a stalled node above it; all other nodes only gain wake queue entries. |
| Wakeups.TrySendSettles | src/transmission/bidib_transmission_node_states.c:151-175 | A send never leaves a node forgotten. |
| Wakeups.UpdateSettlesExactly | src/transmission/bidib_transmission_node_states.c:232-263 | A message from a node keeps the no-lost-wakeup property if and only if, beforehand, its front entry does not lapse, or the entry behind those that lapse is answered, or nothing is held, or the bytes of those that lapse do not make room for it, or the node waits on a stalled one. |
| Wakeups.ReleaseSettles | src/transmission/bidib_transmission_node_states.c:276-303 | Releasing a stall ends with an empty wake queue, every woken node settled, and nobody waiting on the released node. |
| Wakeups.EnterKeepsWakeups | src/transmission/bidib_transmission_node_states.c:151-334 | Every region keeps the no-lost-wakeup property, unless it is a message on which the front entry of its sender lapses. |
| Wakeups.EnterSettlesExactly | src/transmission/bidib_transmission_node_states.c:151-334 | Every region keeps the property if and only if it is not a message that frees, by entries that lapse, the room its sender's first held message needs. |
| Wakeups.NoWakeupIsLost | src/transmission/bidib_transmission_node_states.c:120-303 | In every state reached without a message on which a front entry lapses, a node with held messages lacks room for the first or is queued at a stalled node that is itself or above it. |
| Wakeups.NeverLostExactly | src/transmission/bidib_transmission_node_states.c:120-303 | Over a whole run: no wakeup is lost at any point, if and only if every message meets that condition where it arrives. |
| Answering.AnsweringNodeGetsAll | src/transmission/bidib_transmission_node_states.c:177-274 | A node that keeps answering, with nothing on the way to it stalled, gets all its messages: after as many answers as are outstanding, those held have been sent, all, in order and once each, and no response is due. |
| Wakeups.LostWakeup | src/transmission/bidib_transmission_node_states.c:242-263 | A concrete run through the expiry branch: a node ends with a held message that fits, no stall anywhere, and no response due. |
| Wakeups.AbandonedForever | src/transmission/bidib_transmission_node_states.c:120-274 | From such a state on, over every run without stall reports, none of the node's messages passes: the loss is for good. |
| Interleaving.BytesOf | src/transmission/bidib_transmission_send.c:210-284 | The bytes of every issued message form a frameable message of at most 255 bytes. |
| Interleaving.BytesTell | src/transmission/bidib_transmission_send.c:210-284 | The far end reads node, number, type and data of a message off its bytes. |
| Interleaving.DrainConserves | src/transmission/bidib_transmission_node_states.c:177-216 | What a drain takes out of a held queue is what it sends, in order; all other held queues stay. |
| Interleaving.WakeSelected | src/transmission/bidib_transmission_node_states.c:276-303 | A release moves messages from held queues to the send buffer calls without losing, copying or reordering those of one sender and node. |
| Interleaving.LockedConserves | src/transmission/bidib_transmission_node_states.c:218-303 | The same for every region the receiver runs. |
| Interleaving.TrySendHeld | src/transmission/bidib_transmission_node_states.c:151-175 | A message that passes finds the held queue empty; one that does not is the new last element. |
| Ordering.StepInOrder | src/transmission/bidib_transmission_send.c:198-208 | Each step of any thread keeps the order of a sender's messages to a node while at most one of them is under way. |
| Ordering.ThreadAlone | src/transmission/bidib_transmission_send.c:198-284 | A thread has at most one send under way, so the condition always holds for a single thread. |
| Ordering.NothingStuck | src/transmission/bidib_transmission_send.c:198-208 | No send and no owed buffer call is ever blocked by a message that cannot be built. |
| Ordering.AlwaysSound | src/transmission/bidib_transmission_send.c:87-284 | The system invariant, table, threads, send buffer and line together, holds after every legal run. |
| Ordering.IssuedAsAsked | src/transmission/bidib_transmission_send.c:198-284 | Under any interleaving the messages issued are those asked for, call by call, each with its thread, node, type, data and action id, and number 0 exactly where numbering is off. |
| Ordering.ProgramOrder | src/transmission/bidib_transmission_send.c:198-284 | Under any interleaving a thread's messages to a node enter the send buffer in program order; the missing rest is, in order, owed by the receiver, held, or in the thread's hands. |
| Ordering.NothingLostOrDuplicated | src/transmission/bidib_transmission_send.c:198-208 | Every message issued is in exactly one place (written or buffered, owed, held at its own node, in a sender's hands), as often as it was issued. |
| Ordering.WireDelivers | src/transmission/bidib_transmission_send.c:169-184 | Under any interleaving the far end gets exactly the messages added to the send buffer, in order, less those of the unfinished packet, and neither packet buffer is overrun. |
| Packets.PacketsAlwaysKeepCapacity | src/transmission/bidib_transmission_send.c:169-184 | Under any interleaving every packet on the line has at most the capacity in force when its last message was added, or holds that message alone. |
| Packets.ReleasedGoesOut | src/transmission/bidib_transmission_node_states.c:177-216 | Under any interleaving: when the receiver has made the last call a region owes, the send buffer is empty and the far end has everything added so far. |
| Ordering.OrderBreaks | src/transmission/bidib_transmission_send.c:198-208 | As soon as two sends to a node are under way together, some continuation without a new send to it puts one thread's message in front of an older one of another thread. |
| Ordering.OrderSafeExactly | src/transmission/bidib_transmission_send.c:198-284 | All messages to a node are in order and at most one send to it is under way, if and only if they stay in order in every continuation that starts no further send to it. |
| SeqNums.AdvanceCloses | src/transmission/bidib_transmission_node_states.c:305-311 | The numbering visits 1 to 255 in a cycle and never 0. |
| SeqNums.FlowKeepsNumbers | src/transmission/bidib_transmission_node_states.c:151-303 | Flow control never moves a counter of any node. |
| SeqNums.CheckedMeans | src/transmission/bidib_transmission_receive.c:734-745 | Whatever other threads do before and between the two regions of the check: a numbered message is right exactly if it carries the awaited number, afterwards its successor is awaited, and no other node is affected. |
| SeqNums.NoneWrongExactly | src/transmission/bidib_transmission_receive.c:734-745 | A stream of messages is accepted without a sequence error if and only if each node's numbers run on from the one awaited from it. |
| SeqNums.OneMessageRepairs | src/transmission/bidib_transmission_receive.c:736-744 | After any losses, one numbered message brings the tracking back: what follows is accepted exactly if it runs on from there. |
| SeqNums.CheckNumber | src/transmission/bidib_transmission_receive.c:734-745 | The receiver's check in place, when no other thread interferes. |
| SeqNums.TakenInSequence | src/transmission/bidib_transmission_send.c:235-238 | Over any run the numbers taken for a node are successive values of its counter. |
| SeqNums.GlobalOrder | src/transmission/bidib_transmission_send.c:198-284 | If no two sends to a node are ever under way together, the numbers in the send buffer run on without a gap or swap, so a node that awaits the first finds none wrong. |
| SeqNums.SerialisedExactly | src/transmission/bidib_transmission_send.c:198-284 | No two sends to a node are ever under way together in a run, if and only if from every point of it, however it goes on without a new send to the node, the numbers in line for the node stay in sequence. |
| SeqNums.OvertakingBreaksOrder | src/transmission/bidib_transmission_send.c:198-284 | A concrete legal run of two threads whose messages to one node reach the send buffer numbered 2, 1. |
| SeqNums.SkippedNumber | src/state/bidib_state.c:107-113 | The deliberate extra increment after a reset: the next message to the interface carries 2. |
| SeqNums.SkipIsReported | src/state/bidib_state.c:107-113 | The same increment at a later restart of discovery: the number skipped is missing, and a node that awaited it reports the next message wrong. |
| Messages.KeyOfStackOf | src/transmission/bidib_transmission_node_states.c:82-100 | Every node key is the key of its own zero-filled address. |
| Messages.StackOfKeyOf | src/transmission/bidib_transmission_node_states.c:82-100 | An address is recovered from its hash key if and only if no zero stands before a non-zero byte. |
| Messages.BuildMessage | src/transmission/bidib_transmission_send.c:210-284 | Filling the message buffer field by field yields length byte, address with terminator, number, type, data. |
| Messages.ExtractMsgType | src/transmission/bidib_transmission_util.c:41-47 | The loop yields the type field. |
| Messages.ExtractAddress | src/transmission/bidib_transmission_util.c:49-59 | The loop fills the four address bytes, zeros behind the terminator. |
| Messages.ExtractSeqNum | src/transmission/bidib_transmission_util.c:61-67 | The loop yields the sequence number field. |
| Messages.FirstDataByteIndex | src/transmission/bidib_transmission_util.c:69-78 | The index is -1 exactly if there is no data, and otherwise the data is everything from there on. |
| Messages.DissectBuilt | src/transmission/bidib_transmission_send.c:210-284 | The extractors return what a message was built from; the address comes back whole if and only if no zero stands before a non-zero byte. |
| Messages.RebuildDissected | src/transmission/bidib_transmission_util.c:41-78 | Building from the extracted fields gives back any well-formed message of at most 255 bytes. |
| Messages.SplitPartitions | src/transmission/bidib_transmission_receive.c:711-727 | The slices a packet is cut into are non-empty and concatenate to the packet. |
| Messages.SplitConcat | src/transmission/bidib_transmission_receive.c:711-727 | Cutting the concatenation of messages returns the messages. |
| Messages.SplitPacket | src/transmission/bidib_transmission_receive.c:711-727 | The loop cuts every buffer, also a malformed one, into those slices and ends. |
| Crc.TableIsBitwise | src/transmission/bidib_transmission_crc.c:35-68 | Each of the 256 entries equals eight steps of the reflected CRC-8 with polynomial 0x8C. |
| Crc.TableLinear | src/transmission/bidib_transmission_crc.c:35-68 | The table is linear over exclusive-or. |
| Crc.TableInjective | src/transmission/bidib_transmission_crc.c:35-68 | No two bytes have the same entry. |
| Crc.CheckByteUnique | src/transmission/bidib_transmission_receive.c:809-832 | A packet with a byte appended checks to zero if and only if that byte is its checksum. |
| Crc.CrcLinear | src/transmission/bidib_transmission_crc.c:35-68 | The checksum of an exclusive-or is the exclusive-or of the checksums. |
| Crc.CrcOfBurst | src/transmission/bidib_transmission_crc.c:35-68 | An error pattern of at most 8 consecutive bits, also across a byte boundary, never checks to zero. |
| Crc.BurstsAreDetected | src/transmission/bidib_transmission_receive.c:809-832 | A packet that checks to zero never does so after such a corruption. |
| SendBuffers.SendBuffer.StatePacketCapacity | src/transmission/bidib_transmission_send.c:59-69 | Capacities up to 64 count as 64. |
| SendBuffers.SendBuffer.MakeRoom | src/transmission/bidib_transmission_send.c:97-121 | Cutting a chunk changes nothing about the bytes written or waiting, and leaves the room needed. |
| SendBuffers.SendBuffer.Put | src/transmission/bidib_transmission_send.c:106-111 | One byte goes to the chunk buffer, escaped if it must be, inside the 312 bytes. |
| SendBuffers.SendBuffer.EncodeContent | src/transmission/bidib_transmission_send.c:92-112 | The loop emits the delimiter and the escaped content wherever chunks are cut, and computes the checksum. |
| SendBuffers.SendBuffer.Flush | src/transmission/bidib_transmission_send.c:87-137 | The concatenated writes equal the pure encoding of the buffer: delimiter, escaped content, escaped checksum, delimiter; an empty buffer writes nothing. |
| SendBuffers.SendBuffer.AddToBuffer | src/transmission/bidib_transmission_send.c:169-184 | A message that does not fit the capacity flushes first; one that leaves fewer than 4 bytes flushes after; every store is inside the 256 bytes. |
| Receivers.ReceiveFirstPktMagic | src/transmission/bidib_transmission_receive.c:837-857 | Skipping to the first delimiter loses nothing that counts. |
| Receivers.ReceivePacket | src/transmission/bidib_transmission_receive.c:779-834 | The packet loop refines the byte machine on every input: unescaping, checksum, acceptance; it ends early exactly where a byte would go past the read buffer. |
| Receivers.AutoReceive | src/transmission/bidib_transmission_receive.c:862-870 | The whole loop, on every input: it runs past the read buffer exactly if the input does not fit, and otherwise delivers exactly the messages of the packets the byte machine accepts. |
| Receivers.FitsExactly | src/transmission/bidib_transmission_receive.c:779-834 | The read buffer holds if and only if no stretch of the input between delimiters has more than 256 bytes that are not escapes. |
| Receivers.LongStretchOverruns | src/transmission/bidib_transmission_receive.c:785-823 | 257 plain bytes behind a delimiter run past the 256 bytes: the loop has no bound check. |
| Receivers.ReceiveConcat | src/transmission/bidib_transmission_receive.c:779-834 | Receiving in two portions is receiving the whole. |
| Receivers.ReceiveEscaped | src/transmission/bidib_transmission_receive.c:802-819 | Unescaping undoes escaping. |
| Receivers.ReceiveFlipped | src/transmission/bidib_transmission_receive.c:802-832 | A frame whose first byte is unescaped by mistake fails its checksum. |
| Receivers.Resynchronises | src/transmission/bidib_transmission_receive.c:779-834 | A frame after any receiver state is delivered intact, except when an escape is pending in front of an empty packet and the first byte needs no escape; then it is dropped, never altered. |
| Receivers.AfterGarbage | src/transmission/bidib_transmission_receive.c:779-857 | The same after any garbage bytes from the start of reception, with the read buffer bound carried over. |
| Receivers.EndingMeans | src/transmission/bidib_transmission_receive.c:779-857 | The input alone tells where the receiver stands: at an empty packet exactly if it ends in a delimiter with only delimiters and escapes from there on, with an escape pending exactly if one of them is an escape. |
| Receivers.SpoiltExactly | src/transmission/bidib_transmission_receive.c:779-857 | On the bytes: a frame behind garbage is lost if and only if its first byte needs no escape and the garbage has a delimiter, an escape somewhere behind it, and nothing else than delimiters and escapes from that delimiter on; otherwise it is delivered. |
| Receivers.SpoiltFrame | src/transmission/bidib_transmission_receive.c:803-819 | A delimiter and an escape in front of a frame whose first byte is not escaped: the frame is lost. |
| Receivers.ReceiveFrame | src/transmission/bidib_transmission_receive.c:779-834 | An idle receiver takes a frame whole and is idle again. |
| Wire.PerformInStep | src/transmission/bidib_transmission_send.c:87-184 | Adding, flushing and changing the capacity each keep line and buffer in step with what was submitted. |
| Wire.EndToEnd | src/transmission/bidib_transmission_send.c:87-184 | For every run of add, flush and capacity steps on messages of at most 255 bytes, the receive loop returns exactly the messages, in order, less those still buffered, and neither 256-byte buffer is overrun. |
| Packets.PacketsKeepCapacity | src/transmission/bidib_transmission_send.c:169-184 | For every run of add, flush and capacity steps: each packet written has at most the capacity in force when its last message was added, the last reported and at least 64, or holds that message alone; what waits leaves at least 4 bytes of it. |
| Packets.PacketsAreFilled | src/transmission/bidib_transmission_send.c:169-184 | For every run without flushes from outside no packet ends early: each leaves less than 4 bytes of the capacity, or no room for the message that came next. |
| Wire.CorruptedIsDropped | src/transmission/bidib_transmission_receive.c:809-832 | A packet in which up to 8 consecutive bits were flipped before escaping is dropped whole, and the receiver stands as before. |
| Wire.AllArriveAfterFlush | src/transmission/bidib_transmission_send.c:151-155 | After a flush nothing is missing. |
| Wire.FrameFits | src/transmission/bidib_transmission_receive.c:779-834 | A packet fits the read buffer if and only if its content has at most 255 bytes. |
| Tracks.Search | src/state/bidib_state_getter.c:45-55 | The linear search returns the first match, or the length. |
| Occupancy.Track.CountHits | src/highlevel/bidib_highlevel_getter.c:1234-1246 | The counting pass counts the address entries of the train on all segments. |
| Occupancy.Track.FillHits | src/highlevel/bidib_highlevel_getter.c:1247-1265 | The filling pass writes exactly the counted entries, in segment order and inside the array, and ends with the direction of the last. |
| Occupancy.Track.GetTrainPosition | src/highlevel/bidib_highlevel_getter.c:1221-1268 | The two passes together: segments in order, direction of the last entry, left if there is none. |
| Occupancy.Track.GetSegmentStateRefByNodeAddr | src/state/bidib_state_getter.c:322-340 | A segment is found through the connected board at the address and its number. |
| Occupancy.Track.UpdateTrainAvailable | src/state/bidib_state.c:719-751 | Each train's flag and orientation are recomputed from its entries; a lost train keeps its orientation. |
| Occupancy.Track.BmOcc | src/state/bidib_state_setter.c:602-635 | Occupied keeps the addresses, free empties them, unknown segments change nothing; then the cache is recomputed. |
| Occupancy.Track.BmMultiple | src/state/bidib_state_setter.c:637-679 | The loop over the report bits marks the segments found and recomputes the cache once. |
| Occupancy.Track.BmAddress | src/state/bidib_state_setter.c:797-846 | The segment's address list is replaced by the decoded one; the single all-zero address stands for none. |
| Occupancy.Track.Reset | src/state/bidib_state.c:816-865 | All segments are cleared and all trains put off the track, heading left, halted, functions off. |
| Occupancy.LastHit | src/highlevel/bidib_highlevel_getter.c:1247-1265 | The entries are empty exactly if no segment lists the train, and the last one is the last listing in segment order. |
| Occupancy.UpdateAgrees | src/state/bidib_state.c:719-751 | Recomputing makes the cache agree with the segments whatever it held before. |
| Occupancy.CacheAlwaysAgrees | src/state/bidib_state.c:719-751 | In every state reachable from a reset, a train is on track exactly if some segment lists its address, and its orientation is that of the last listing. |
| Occupancy.MappedSegmentFound | src/state/bidib_state_getter.c:322-340 | With unique numbers and segments per board, every mapped segment is found under its number. |
| Occupancy.MultipleExactly | src/state/bidib_state_setter.c:637-679 | A multiple report makes each mapped segment number+i below 255 as occupied as bit i, empties the lists of those it frees, keeps those of the others, and touches no other segment. |
| Occupancy.DecodedMeans | src/state/bidib_state_setter.c:815-831 | The list after an address report holds one entry for each reported address with bit 6 clear, in the order reported, with the flag bits split off. |
| Occupancy.DecodedHolds | src/state/bidib_state_setter.c:815-831 | An address is listed if and only if it was reported with bit 6 clear. |
| Occupancy.FreedSegment | src/state/bidib_state_setter.c:602-635 | After freeing a segment a train is on track exactly if another segment lists it; a train that is not keeps everything else. |
| Reports.SegmentAtExactly | src/state/bidib_state_getter.c:322-340 | A number stands for a segment if and only if a board connected at the address maps the one to the other. |
| Reports.OccupiedExactly | src/state/bidib_state_setter.c:602-635 | A single report makes its segment exactly as occupied as it says, takes the addresses off a free one and keeps them on an occupied one, and touches no other segment. |
| Reports.AddressesExactly | src/state/bidib_state_setter.c:797-846 | After an address report its segment lists an address if and only if it was reported with bit 6 clear and the report is not the single address 0; the rest of it and all other segments stay. |
| Reports.AddressesInOrder | src/state/bidib_state_setter.c:815-831 | The segment lists them in the order reported, one entry each, with the flag bits split off. |
| Reports.UnknownIgnored | src/state/bidib_state_setter.c:602-635 | A report for a number that stands for no segment changes nothing. |
| Reports.ReportsChangeOnlyCache | src/state/bidib_state.c:719-751 | Whatever is reported, every train keeps speed, direction and functions, and one off the track its orientation; no board, train or segment comes or goes. |
| Reports.PositionExactly | src/highlevel/bidib_highlevel_getter.c:1221-1268 | The position query names, for each place that lists the train, in order, none left out and none twice, the segment of that place, and gives the direction of the last. |
| Reports.UnknownIsNowhere | src/highlevel/bidib_highlevel_getter.c:1231-1233 | A train that is not configured or has no state has an empty position, heading left. |
| Reports.ResetExactly | src/state/bidib_state.c:816-865 | After a reset every segment is free and lists nobody, no train has a position, and every train stands, heads left and forwards, with all functions off. |
| TrainFunctions.TrainControl.GetTrainPeripheralStateByBit | src/state/bidib_state_getter.c:423-449 | A function state is found through the train's mapping for the bit. |
| TrainFunctions.TrainControl.GetTrainStateByDccAddr | src/state/bidib_state_getter.c:410-421 | A train is found by address with the two upper bits of the high byte masked off. |
| TrainFunctions.TrainControl.GetCurrentTrainPeripheralBits | src/highlevel/bidib_highlevel_setter.c:570-583 | The loop or-es the current states of one range of functions. |
| TrainFunctions.TrainControl.GatherGroup | src/highlevel/bidib_highlevel_setter.c:645-665 | Group flag, byte and range for each bit; bits 5 to 7 fall into the group of bits 8 to 11. |
| TrainFunctions.TrainControl.DriveParameters | src/highlevel/bidib_highlevel_setter.c:629-671 | The parameters of the drive message for one function. |
| TrainFunctions.TrainControl.SetTrainPeripheral | src/highlevel/bidib_highlevel_setter.c:585-691 | Errors and effect of setting one function, loops and calls included. |
| TrainFunctions.TrainControl.SendCsDriveIntern | src/lowlevel/bidib_lowlevel_track.c:59-92 | A drive message with a parameter out of range is neither sent nor stored. |
| TrainFunctions.TrainControl.StateCsDrive | src/state/bidib_state_setter.c:329-404 | The stored effect of any drive message: halt, speed, and the five function groups. |
| TrainMotion.DriveExactly | src/state/bidib_state_setter.c:329-404 | A drive message in range changes the train that has its address and no other. Without flags the train stands, heads forwards, with all functions off. With the speed flag it is forwards if and only if the code is 128 or more, stands if and only if the lower 7 bits are 0 or 1, and else has the step one less with the sign of the direction; without it speed and direction stay. Each function is as told if the flag of its group is set and stays if not, bits 5 to 7 always. Place and orientation stay. |
| TrainMotion.SentExactly | src/lowlevel/bidib_lowlevel_track.c:59-92 | A drive message goes to the address given if and only if its format is 0, 2 or 3, no flag above 5 is set, and the first function byte is at most 31. |
| TrainMotion.MessageForFunction | src/highlevel/bidib_highlevel_setter.c:629-671 | The message for a function names format 2 for 28 speed steps, 3 for 126, 0 for others, and carries no bits outside the byte of the group and that of the function. |
| TrainFunctions.TrainControl.SetTrainSpeed | src/highlevel/bidib_highlevel_setter.c:363-446 | Errors and effect of setting a speed, searches and calls included; speed 0 keeps the direction the train has. |
| TrainMotion.SpeedThereAndBack | src/state/bidib_state.c:413-430 | The code for a speed is stored as that speed and direction, and no speed has the code of the emergency stop. |
| TrainMotion.SpeedSetExactly | src/highlevel/bidib_highlevel_setter.c:363-446 | Setting a speed from -126 to 126 stores exactly that speed with the direction of its sign, keeps the direction for 0, sends one message to the track output, and changes no function and no other train; a train above address 0x3F is missed. |
| TrainMotion.SpeedErrors | src/highlevel/bidib_highlevel_setter.c:363-404 | Setting a speed fails, and changes nothing, exactly if it is out of range, the train is unknown, or the board found is missing, not connected or without track output. |
| TrainFunctions.UnpackedExactly | src/state/bidib_state_setter.c:354-403 | Unpacking sets exactly the functions whose bits lie in the range, each to its bit. |
| TrainFunctions.GatheredBit | src/highlevel/bidib_highlevel_setter.c:570-583 | A gathered bit is the current state of the function at that bit. |
| TrainFunctions.SentBits | src/highlevel/bidib_highlevel_setter.c:666-671 | The bit sent for a function of the group: the new state's lowest bit for the function set, and for another its current state with what spills onto it or-ed in; for any state. |
| TrainFunctions.AcceptedExactly | src/lowlevel/bidib_lowlevel_track.c:62-77 | The message for a function is sent if and only if its bit is 8 or more, or the shifted state stays below bit 5. |
| TrainFunctions.SetIs | src/highlevel/bidib_highlevel_setter.c:585-691 | Without an error, setting a function is sending one drive message to the address of the track output. |
| TrainFunctions.DriveKeepsTrain | src/state/bidib_state_setter.c:329-404 | After any drive message every function of the train is on or off. |
| TrainFunctions.SendKeepsConfigured | src/lowlevel/bidib_lowlevel_track.c:59-92 | Every drive message, whatever its parameters, keeps the configuration: states in line with mappings, functions on or off. |
| TrainFunctions.SetExactly | src/highlevel/bidib_highlevel_setter.c:585-691 | Setting a function leaves the position and speed of all trains alone, and all of the other trains unless one has the address left after masking; an unreached bit changes no function; it sets that function and no other if and only if the state is 0 or 1, the bit not 5 to 7 and the address high byte at most 0x3F, or the function has that state already. |
| TrainFunctions.OthersChangeExactly | src/highlevel/bidib_highlevel_setter.c:585-691 | Setting a function changes another of the train if and only if the message is sent and stored, both are in one group that is reached, the other is off, and the new state has a bit that falls on it. |
| TrainFunctions.SpillExample | src/highlevel/bidib_highlevel_setter.c:585-691 | Setting the light at bit 0 to 2 sounds the horn at bit 1 and leaves the light off. |
| TrainFunctions.UnreachedExample | src/highlevel/bidib_highlevel_setter.c:585-691 | Setting the bell at bit 5 to 1 returns 0 and changes nothing. |
| TrainFunctions.MessageTellsStates | src/highlevel/bidib_highlevel_setter.c:666-682 | For any state and bit: whether a message is sent, and that it carries the train's address, no speed, and, if the library can store it, for each function of the group the state stored from then on. |
| TrainFunctions.SetErrors | src/highlevel/bidib_highlevel_setter.c:605-623 | The error is 1, and nothing changes, exactly if no train has the id, no board has the id of the output, the board found is not connected or has no track output, or the train has no such function. |
| TrainFunctions.HighAddressIsMissed | src/state/bidib_state_getter.c:410-421 | A train configured with a high address byte above 0x3F is changed by no drive message. |
| TrainFunctions.HighAddressExample | src/highlevel/bidib_highlevel_setter.c:585-691 | Setting the hook of a train whose high address byte is 64 leaves the hook off and switches on the light of the train at the masked address. |
| NodeTree.AddressOfPath | src/state/bidib_state_getter.c:45-55 | An address is determined by its path if and only if no zero stands before a non-zero byte. |
| NodeTree.IsSubnode | src/state/bidib_state_setter.c:224-239 | The loop finds the first difference and tests that byte of the upper address for zero. |
| NodeTree.SubnodeIsStrictPrefix | src/state/bidib_state_setter.c:224-239 | The test is the strict prefix order on paths for all upper addresses, if and only if the lower address has no zero before a non-zero byte. |
| NodeTree.MessageAddressIsTidy | src/transmission/bidib_transmission_util.c:49-59 | The address taken out of a message never has an inner zero. |
| NodeTree.UntidySubnode | src/state/bidib_state_setter.c:224-239 | With an inner zero in the lower address the test and the order differ: 1.0.5 counts as below 1.0.0 though both have the same path. |
| NodeTree.WalkVisitsSubnodeOrder | src/transmission/bidib_transmission_node_states.c:120-149 | Flow control consults exactly the node itself and those it is a subnode of, the root apart. |
| NodeTree.ReadyMeansNoneAboveStalled | src/transmission/bidib_transmission_node_states.c:120-149 | A node is ready exactly if neither it nor any non-root node it is a subnode of is stalled. |
| NodeTree.BoardList.NodeNew | src/state/bidib_state_setter.c:199-222 | The board of the id is connected at the first free byte of the address. |
| NodeTree.BoardList.NodeLost | src/state/bidib_state_setter.c:241-265 | The loop disconnects the board and, if it is an interface, all its subnodes. |
| NodeTree.LostExactly | src/state/bidib_state_setter.c:241-265 | Losing a node disconnects exactly its board and, for an interface, the boards whose paths strictly extend its own. |
| BoardHistory.BoardsStayTidy | src/state/bidib_state_setter.c:199-265 | Whatever nodes come, go and are read from node tables, a connected board never has an address with an inner zero. |
| BoardHistory.LostAlwaysExactly | src/state/bidib_state_setter.c:241-265 | So in every reachable state the loss of an interface disconnects exactly it and the boards whose paths strictly extend its own. |
| NodeTree.ChildPath | src/state/bidib_state.c:175-182 | A table entry lands at the parent's path extended by the local number, while one byte is free; the last level overwrites the third byte. |
| Discovery.Discoverer.QueryNodetab | src/state/bidib_state.c:105-210 | The rows of a table are taken until a change is announced: boards connected, interfaces except the first row queued. |
| NodeTables.RowsSettle | src/state/bidib_state.c:153-207 | Reading the table of a node less than three levels down, up to any row, settles the node and the children read and unsettles nobody. |
| NodeTables.ReadingSettlesExactly | src/state/bidib_state.c:153-207 | Reading the table of any interface that has an address unsettles no node that is not deep, and leaves the interface and its children settled if and only if it is less than three levels down or no board is configured for them. |
| NodeTables.RowsMiss | src/state/bidib_state.c:153-207 | Reading any table leaves the boards of all nodes but that node and its children as they were. |
| Discovery.ReadKeepsMisplaced | src/state/bidib_state.c:175-182 | Reading the front of the queue puts the board of an interface three levels down at its parent's address, and moves none of those misplaced before. |
| DiscoveryQueue.PushedExactly | src/state/bidib_state.c:199-204 | For any interface that has an address: the queue receives exactly the addresses of the interfaces among the children read, each once. |
| Discovery.ReadKeepsProgress | src/state/bidib_state.c:212-237 | Reading the front of the queue keeps: everything that can be is settled and asked, or the queue leads there; only addresses of interfaces are asked; deep interfaces asked are misplaced. |
| DiscoveryQueue.ReadingEndsSooner | src/state/bidib_state.c:217-222 | Without loops every table read takes one off the number of reads the queue still leads to, deep interfaces asked again included. |
| Discovery.Discoverer.Attempt | src/state/bidib_state.c:216-222 | In a tree in which discovery asks interfaces only and no deep one leads back to itself, one attempt ends, and if not interrupted leaves nothing to do; whenever it stops, only boards of the tree's nodes are touched. |
| Discovery.Discoverer.InitAllocationTable | src/state/bidib_state.c:212-237 | However often the tree changes, the last attempt asks every interface of the tree it found that has an address, and nobody else, and none twice but those three levels down that are led to. It connects every configured board of that tree, deep ones apart, at its path; all nodes end so if and only if no deep one is configured; each attempt skips one number; boards of unknown nodes are untouched. |
| NodeTables.DeepInterfaceMisplaced | src/state/bidib_state.c:175-182 | An interface at depth three is put at its parent's address: row 0 of its own table clears the third byte. |
| DiscoveryQueue.DeepInterfaceAskedAgain | src/state/bidib_state.c:199-204 | The smallest loop: an interface below one at depth three, known by the same number as that one, puts the upper one's own address into the queue. |
| DiscoveryQueue.DiscoveryGoesOn | src/state/bidib_state.c:217-222 | If an interface three levels down leads back to itself through the numbers of interfaces below, then over every run from the root, whatever answers at other addresses, the queue is never empty. |
| DiscoveryQueue.EndsExactly | src/state/bidib_state.c:216-222 | An uninterrupted attempt that asks interfaces only ends if and only if no interface three levels down leads back to itself. |
| DiscoveryQueue.ShallowLeadsNowhere | src/state/bidib_state.c:175-204 | Where no interface lies below the third level, nothing leads anywhere: discovery asks interfaces only, and ends. |
| DiscoveryQueue.DeepTreeExists | src/state/bidib_state.c:175-222 | Four interfaces in a chain: the last lies deep, and discovery ends. |
| DiscoveryQueue.LoopingTreeExists | src/state/bidib_state.c:175-222 | Five interfaces in a chain, all with number 1: the fourth leads to itself, and no run from the root empties the queue. |

## Left out

- Serial port, baud rate detection, waiting, logging, time measurement, starting and stopping threads: the bytes read and the clock are parameters.
- The flags that stop reception or discard input, and what is lost while they are set.
- Mutexes and read-write locks as objects: each locked region is one step, and calls made under a lock the comments ask for are taken to be made under it.
- Resetting the node table and the send queues during a run: the runs are those between two resets.
- The YAML parsers: what they guarantee is stated as predicates on the configuration.
- Memory management and string copies; identifiers are compared as strings.
- The uplink queues (128 entries each) and the dispatch of received messages to them.
- Malformed received messages: the extractors require a terminated address within four bytes followed by number and type, as the C code does without checking; splitting a packet is modelled for every buffer.
- Messages of more than 255 bytes, for which the length byte wraps, and message types from 0x80 on, which index past the response table: sends are restricted to messages within both bounds.
- In-place change of list elements through pointers: a list is a `seq` field that the methods reassign, so aliasing between lists is not captured.
- A train that has a configuration but no state entry, which the gathering loop and setting speed 0 would not survive: the parser always adds both.
- Boosters, reversers, accessories, vendor data, current and confidence decoding, calibrated speeds: single-branch or finite-domain facts.
- Sending the node table requests of discovery as messages: the rows a node answers are a parameter, the nodes asked are recorded in order, and the numbers skipped are counted. Rows of an interrupted attempt that arrive late are not modelled.
- Discovery.Discoverer.InitAllocationTable: asks for trees in which discovery asks interfaces only and no interface leads back to itself. In others the library asks an address where no interface is, whose answer is not part of the model, or does not end (`DiscoveryQueue.EndsExactly`, `DiscoveryQueue.DiscoveryGoesOn`).
- Discovery.Discoverer.Attempt: asks for the same trees, for the same reason.
