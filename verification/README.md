# viu, verified

`viu` is a user-space USB/IP device: a daemon reads USB/IP commands from a socket, runs them on
a real or a mock USB device, and writes the replies. This project models its four demanding
parts in Dafny and proves what they promise.

**The engine.** `Engine` is class `basic` as a concurrent system. Every thread (one reader, one
executor, sixteen pairing threads, the completion thread, one writer) is cut into the steps that
others can observe, with the gaps between them as state: the transfer started before the command
is queued, the command in a pairing thread's hand, the reply that was let through under the lock
and is written after it. A run is any interleaving. `EngineInvariants` and `EngineProofs` hold
the invariants and show that each of the 17 steps keeps them; `EngineTheorems` says what follows
for every run, and `EngineRuns` gives runs that show what does not. `EngineInput` takes a host's
byte stream into it. `Replies` says what a reply must tell the host, byte by byte.
`EnginePairing` says whose data a reply carries, and exactly when the host can tell where it
ends; `EngineRoom` says exactly when it can carry more data than its read offered to take.
`Basic.Device` is the class itself, with its queues and its set as fields; each method does to
that state exactly what the step does. `Vhci` frames commands and replies, `Proxy` turns
commands into transfers, transfers into data and control requests into replies, and `Iso`
gathers isochronous packets. `MockTransfer` is a transfer that a mock device fills.

**Transfer ownership.** `PendingMap` is `pending_map` over all interleavings of attach, both
halves of submit, completion and cancel.

**The descriptor codec.** `Json` gives the device that a JSON document denotes; `JsonCompiler`
is the compiler to decimal tokens and `JsonParser` its loops over the stream. `JsonDocument`
says, member by member, when a document describes a device, and `JsonWriting` that every device
has one. `Text`, `Descriptors`, `DescriptorStream` and `Tree` print and read descriptor trees
down to the characters of the file. `Packing` packs trees, `LibusbPacking` packs and rebuilds
libusb's own structures, and `WirePacker` is class `packer`. `Layout` gives the packed bytes by
their offsets, and `Serving` what a host reads that asks a device for them.

**Byte codecs.** `RecordLog`, `Recording`, `ControlRecording`, `Recorder` and `Playback` are the
recording example, from the bytes appended to the timeline replayed. `Argv` is the argument
codec.

Where a loop or an object in C++ changes state, the Dafny is a method or a class proved against
a function; the lemmas about that function carry the properties.

Assumed of the environment: the host is little-endian; command sequence numbers are distinct,
directions are IN or OUT, a buffer length is not negative and `number_of_packets` is at least
-1; an unlink names a submit sent before. Endpoint numbers are below 16, every endpoint that is
addressed exists and is not a second control endpoint, and a command asks for packets only if
its endpoint is isochronous. libusb reports no more bytes than there is room for, and its arrays
are as long as their counts say. A plugin fills only transfers to the host, moves no more than a
transfer's length (src/transfer_impl.cpp:273-274, 294), completes a transfer once, and not after
cancel has swept it.

`viu::_assert` only logs in release builds (src/assert_impl.cpp:42-52), and no proof relies on
one. These can fail under the assumptions above:

- src/usb_basic_impl.cpp:308, for a read that offers no room;
- src/usb_basic_impl.cpp:313, when reads complete out of order or a read is cancelled, next
  exactly if `EngineRoom.RoomFor` does not hold (`EngineRoom.OverrunsNextIff`);
- src/usb_basic_impl.cpp:345, exactly when a failed packet reports bytes (`Iso.SizesAgree`);
- src/usb_device_proxy_impl.cpp:209, when a read stalls or fails, because its callback runs all
  the same (src/transfer_impl.cpp:41-50); src/usb_device_proxy_impl.cpp:210, when it brings
  nothing; and src/usb_device_proxy_impl.cpp:221, when a write is carried out in part;
- src/usb_device_proxy_impl.cpp:453 and 556, when the device refuses SET_CONFIGURATION or
  SET_INTERFACE;
- src/usb_impl.cpp:334, when the host asks for a configuration by an index that there is not;
- src/usb_impl.cpp:977, when a control OUT carries a payload that is not `wLength` bytes long;
- src/usb_device_proxy_impl.cpp:264, for an isochronous OUT with descriptors but no data;
- src/transfer_impl.cpp:156, when the map has been cleared under a thread that is yet to submit
  (`PendingMap.LateSubmitFrees`);
- src/transfer_impl.cpp:43, exactly when a plugin completes a mock transfer that a clear has lost
  (`PendingMap.CompletionFindsIff`, in the run of `PendingMap.LateAttachLeaks`). The one in
  src/transfer_impl.cpp:37 never fails: only libusb reports a timeout or a cancellation, and its
  transfers are always found.

Where code and documentation differ the model follows the code. An unlink that comes after its
target's reply should be answered with status 0 according to the Linux kernel's USB/IP protocol
document (section "Message Format"); the engine answers -ECONNRESET
(`EngineRuns.LateUnlinkSaysReset`). A configuration says that it is self-powered in bit 6 of its
attributes, and bit 7 is always set, by section 9.6.3 of the USB 2.0 specification; the code
looks at bit 7 (`Serving.StatusIsHighBit`). A device descriptor is 18 bytes by section 9.6.1; a
host that asks for more is sent the configuration behind it (`Serving.DeviceIsReadIff`).

## Model

| member | source | states |
|---|---|---|
| EngineTheorems.NoReplyAfterItsUnlink | src/usb_basic_impl.cpp:63-105 | in every run, no reply to a submit is written behind the answer to its unlink, although the writer checks under the lock and writes after it; only replies to submits that an unlink named are dropped |
| EngineTheorems.UnlinkOutcome | src/usb_basic_impl.cpp:240-263 | what an unlink achieves, exactly: if the writer had not let the target's reply through (or had already dropped it) when the unlink ran, that reply never reaches the wire; otherwise nothing is dropped any more and the number stays in the set; the status is 0 only for a number already in the set |
| EngineTheorems.OutcomeRun | src/usb_basic_impl.cpp:71-93 | a number on its way to being suppressed stays so, and one that was let through stays in the set, along every run |
| EngineTheorems.OutcomeOfCheck | src/usb_basic_impl.cpp:71-80 | the writer's decision under the lock respects both outcomes |
| EngineTheorems.OutcomeOfWrite | src/usb_basic_impl.cpp:82-93 | so does its write outside the lock |
| EngineTheorems.OutcomeStep | src/usb_basic_impl.cpp:63-263 | so does every step of every thread |
| EnginePairing.AnswersAreZipped | src/usb_basic_impl.cpp:226-238 | in every run, the i-th reply of an IN endpoint is the i-th command executed there with the i-th data completed there, byte for byte: all that was received, or what was gathered from the packets and zeros up to what they claim, then what became of each |
| EnginePairing.WrittenIsAnswer | src/usb_basic_impl.cpp:305-323 | a reply on the wire to a read is an answer of that read's endpoint, in the slot in which the read was started |
| EnginePairing.OwnDataOnWire | src/usb_basic_impl.cpp:305-323 | in every run, every reply on the wire to a read carries that read's own data, byte for byte and no larger than the buffer the host offered, announced truly, with status 0 and the number of its failed packets, if the device completed that one read in its turn; the order of all others does not matter |
| EnginePairing.OwnAnswer | src/usb_basic_impl.cpp:305-323 | the same of every reply the pairing thread ever produced |
| EnginePairing.OneAtATimeIsOwn | src/usb_basic_impl.cpp:226-238 | it is so for every reply of an endpoint in every run in which a read is started there only when none is with the device, and none is cancelled |
| EnginePairing.EveryReplyMeans | src/usb_basic_impl.cpp:176-371 | in every run, every reply on the wire tells what was done for its command: to a read the data in its slot, to a write how its own transfer ended, to a control request what its setup bytes ask for or the device answered, to an unlink 0 or -ECONNRESET |
| EnginePairing.SerialStep | src/usb_basic_impl.cpp:226-238 | because each step then leaves what is completed in the order it was started |
| EnginePairing.WireDecodesIff | src/usb_basic_impl.cpp:281-321 | in every run, whatever the order of completion and whatever is cancelled, the bytes written decode, by headers alone, to exactly the replies written, if and only if every answer among them pairs a read that asks for packets with data of as many packets |
| EnginePairing.PairedIsFramedIff | src/usb_basic_impl.cpp:281-321 | a pairing announces exactly its payload if and only if the numbers of packets agree |
| EnginePairing.AlikeDecodes | src/usb_basic_impl.cpp:281-321 | so the wire decodes in every run of a host that asks for one number of packets in all reads of an endpoint |
| EnginePairing.WireDecodesInOrder | src/usb_basic_impl.cpp:281-321 | and in every run in which every endpoint's reads complete in the order of their start |
| EngineTheorems.EveryCommandOnce | src/usb_basic_impl.cpp:176-303 | in every run each command read is in exactly one place, or its reply is; no reply is written twice, or both written and dropped |
| EngineTheorems.AllAnsweredIff | src/usb_basic_impl.cpp:176-303 | when the system has come to rest, every command read was answered once or suppressed once if and only if no transfer was cancelled |
| EngineTheorems.RestTally | src/usb_basic_impl.cpp:176-371 | at rest each command is settled, cancelled, or waiting for data, exactly once |
| EngineTheorems.EndpointAtRest | src/usb_basic_impl.cpp:305-323 | a pairing thread at rest waits for just as many commands as reads were cancelled |
| EngineTheorems.ExecutorNeverStuck | src/usb_basic_impl.cpp:176-238 | some branch of the executor applies to whatever it has pulled |
| EngineTheorems.DeviceDone | src/usb_device_proxy_impl.cpp:94-99 | at rest the device holds no transfer |
| EngineTheorems.FlyingIsRead | src/usb_basic_impl.cpp:226-231 | what an endpoint's transfers were started for are reads of that endpoint |
| EngineTheorems.DeviceCanComplete | src/usb_device_proxy_impl.cpp:198-228 | a transfer started for any admissible command can be completed |
| EngineRuns.OutOfOrderOverruns | src/usb_basic_impl.cpp:312-313 | the assertion on the data size fails in a run in which the device completes two reads out of order: the first reply carries more than its read had room for |
| EngineRuns.CancelledReadShifts | src/usb_basic_impl.cpp:307-310 | a run in which a cancelled read's command is answered with the data of the read behind it, more than it had room for |
| EngineRuns.CancelledWriteIsLost | src/transfer_impl.cpp:33-40 | a run in which a write is cancelled: nothing holds it any more, and no reply was written or dropped |
| EngineRuns.MixedPacketsDoNotDecode | src/usb_basic_impl.cpp:281-321 | a run with reads of one and of two packets on an endpoint, completed in the other order, after which the bytes written do not decode to the reply written |
| EngineRoom.OverrunsNextIff | src/usb_basic_impl.cpp:312-313 | from any reachable state, some read in flight can complete so that the reply its data goes into overruns its own read, if and only if some read in flight can bring more than the read in the next slot has room for |
| EngineRoom.RoomForIff | src/usb_basic_impl.cpp:312-313 | every completion that may come next fits, if and only if the most that each read in flight can bring fits: the sum of its packets, or its buffer |
| EngineRoom.RoomyNeverOverruns | src/usb_basic_impl.cpp:305-323 | in every run whose completions came when there was room, in any order, no reply overruns its read |
| EngineRoom.OneSizeNeverOverruns | src/usb_basic_impl.cpp:305-323 | so it is in every run in which no read of the endpoint can bring more than any other has room for |
| EngineRoom.AtMostMostData | src/usb_impl.cpp:947-948 | no completion brings more than that |
| EngineRoom.MostDataIsReached | src/usb_impl.cpp:947-948 | and some completion brings it |
| EngineRoom.CatchUp | src/usb_basic_impl.cpp:305-323 | while there is data the pairing thread can go on, up to any read that data has come for |
| EngineRuns.LateUnlinkSaysReset | src/usb_basic_impl.cpp:245-255 | a run in which an unlink that comes after its target's reply is answered -ECONNRESET and leaves the number in the set |
| EngineInput.HostStreamIsQueued | src/usb_basic_impl.cpp:44-61 | whatever a host sends that keeps to the protocol, message by message, a run of the engine leads to exactly those commands waiting in their order, as the reading loop finds them in the bytes |
| EngineInput.OneMore | src/usb_basic_impl.cpp:44-61 | because each such message may be received after those before it |
| EngineProofs.RunKeeps | src/usb_basic_impl.cpp:44-371 | all invariants hold in every reachable state |
| EngineProofs.StepKeeps | src/usb_basic_impl.cpp:44-371 | each of the 17 steps keeps all invariants |
| EngineProofs.ReceiveKeeps | src/usb_basic_impl.cpp:44-61 | reading a command keeps the invariants |
| EngineProofs.PullKeeps | src/usb_basic_impl.cpp:176-192 | so does pulling it |
| EngineProofs.ControlKeeps | src/usb_basic_impl.cpp:213-224 | so does executing a control command, in every branch of the dispatch |
| EngineProofs.StartReadKeeps | src/usb_basic_impl.cpp:226-230 | so does starting an IN transfer |
| EngineProofs.PushReadKeeps | src/usb_basic_impl.cpp:231 | so does queueing its command, later |
| EngineProofs.StartWriteKeeps | src/usb_basic_impl.cpp:232-234 | so does starting an OUT transfer |
| EngineProofs.RecordUnlinkKeeps | src/usb_basic_impl.cpp:245-255 | so does recording an unlinked number under the lock |
| EngineProofs.ReplyUnlinkKeeps | src/usb_basic_impl.cpp:257-262 | so does answering the unlink after it |
| EngineProofs.PairPullKeeps | src/usb_basic_impl.cpp:307 | so does a pairing thread taking a command in hand |
| EngineProofs.PairReplyKeeps | src/usb_basic_impl.cpp:309-322 | so does pairing it with data |
| EngineProofs.AnsweredEndpoint | src/usb_basic_impl.cpp:305-323 | the pairing thread holds the next unanswered command, and pairing it extends the zip |
| EngineProofs.CompleteReadKeeps | src/usb_device_proxy_impl.cpp:198-213 | so does the completion of a read |
| EngineProofs.CompleteWriteKeeps | src/usb_device_proxy_impl.cpp:179-228 | so does the completion of a write |
| EngineProofs.CancelReadKeeps | src/transfer_impl.cpp:33-40 | so does a read's transfer ending cancelled or timed out |
| EngineProofs.CancelWriteKeeps | src/transfer_impl.cpp:33-40 | so does a write's |
| EngineProofs.WriterPullKeeps | src/usb_basic_impl.cpp:68-69 | so does the writer taking a reply |
| EngineProofs.WriterCheckKeeps | src/usb_basic_impl.cpp:71-80 | so does its decision under the lock |
| EngineProofs.WriterWriteKeeps | src/usb_basic_impl.cpp:82-93 | so does its write after the lock |
| Basic.Device.constructor | src/usb_basic.cppm:53-67 | empty queues and an empty set satisfy the invariants |
| Basic.Device.PushCommand | src/usb_basic_impl.cpp:44-61 | the queue gains the command; the whole state is that after step Receive, invariants included |
| Basic.Device.PullCommand | src/usb_basic_impl.cpp:176-192 | the executor takes the first command, as step Pull says |
| Basic.Device.QueueReplyToHost | src/usb_basic_impl.cpp:265-303 | the reply queue gains the message that the request stands for, and the copy stays inside the data |
| Basic.Device.ExecuteControlCommand | src/usb_basic_impl.cpp:213-224 | step Control; the one reply queued is what the setup bytes ask for, or what the device answered |
| Basic.Device.ReadDataFromDevice | src/usb_basic_impl.cpp:226-230 | step StartRead |
| Basic.Device.PushInCommand | src/usb_basic_impl.cpp:231 | step PushRead |
| Basic.Device.SendDataToDevice | src/usb_basic_impl.cpp:232-234 | step StartWrite; the device is given the first bytes of the payload, as many as the host says its buffer has |
| Basic.Device.RecordUnlinkedSeqnum | src/usb_basic_impl.cpp:245-255 | step RecordUnlink: the number is in the set, and the status is -ECONNRESET if it was new |
| Basic.Device.ReplyToUnlink | src/usb_basic_impl.cpp:257-262 | step ReplyUnlink |
| Basic.Device.PullInCommand | src/usb_basic_impl.cpp:305-310 | step PairPull |
| Basic.Device.SendDataToHost | src/usb_basic_impl.cpp:305-323 | step PairReply; the reply queued delivers the data of the completion in this slot byte for byte; that the command in hand is a read and the data well formed follows from the invariants |
| Basic.Device.CollectData | src/usb_basic_impl.cpp:342-358 | gathered bytes, zeros for what failed packets claim, descriptors |
| Basic.Device.QueueDataForHost | src/usb_basic_impl.cpp:325-371 | step CompleteRead |
| Basic.Device.OnOutTransferComplete | src/usb_device_proxy_impl.cpp:179-228 | step CompleteWrite; the reply queued reports how much was carried out, and each packet if there are any |
| Basic.Device.PullReply | src/usb_basic_impl.cpp:68-69 | step WriterPull |
| Basic.Device.CheckUnlinked | src/usb_basic_impl.cpp:71-80 | step WriterCheck: a reply whose number is in the set is dropped and the number forgotten |
| Basic.Device.WriteReply | src/usb_basic_impl.cpp:82-93 | step WriterWrite |
| Vhci.InboundRoundTrip | src/usb_basic_impl.cpp:153-174 | whatever well-formed messages the host concatenates, the reading loop recovers exactly those commands |
| Vhci.ReadEncodedCommand | src/vhci_impl.cpp:204-252 | one encoded message is read back as its command, leaving what follows |
| Vhci.WellFormedPayloadSize | src/vhci.cppm:120-137 | the size computed from the header is that of the payload sent |
| Vhci.HostReadsHeader | src/vhci_impl.cpp:151-163 | a host reads back every header field of a reply, and as many payload bytes as the header announces |
| Vhci.OutboundRoundTrip | src/vhci_impl.cpp:254-280 | a reader that uses only headers recovers the replies if and only if each carries the payload its header announces |
| Vhci.CommandBytes | src/vhci.cppm:26-67 | the 48 bytes of a command header by their offsets, type 1 or 2 in network order, and setup and payload behind |
| Vhci.ReplyBytes | src/vhci.cppm:26-67 | those of a reply, type 3 or 4, and zeros in all that is unused |
| Vhci.Connection.Read | src/vhci_impl.cpp:284-287 | a blocking read takes exactly that many bytes or fails at the end of the stream |
| Vhci.Connection.ReadCommand | src/usb_basic_impl.cpp:153-174 | header, then payload: the result and what is left are those of the specified parser |
| Vhci.Connection.ProduceCommands | src/usb_basic_impl.cpp:44-61 | the loop pushes every command up to the end of the stream, or to an invalid request |
| Iso.GatherIsoData | src/transfer_impl.cpp:168-201 | the loop computes the specified gathering |
| Iso.DescribePackets | src/transfer_impl.cpp:203-242 | the loop computes offsets, lengths, statuses, the total and the error count |
| Iso.SizesAgree | src/transfer_impl.cpp:121-140 | all size computations agree if and only if no failed packet reports bytes; the announced size is never smaller than the data and never overruns the buffer |
| Iso.GathersOwnBytesIff | src/transfer_impl.cpp:189-198 | the completed packets' own bytes are gathered, whatever the buffer holds, if and only if no packet with data follows a failed packet that takes up room |
| Iso.AlignedGathersOwnBytes | src/transfer_impl.cpp:189-198 | the positive half, from any offset |
| Iso.MisalignedShiftsData | src/transfer_impl.cpp:189-198 | the negative half: a buffer, zero but for one byte, that shows the shift |
| Iso.GatherThenScatter | src/transfer_impl.cpp:168-242 | scattering the gathered data by the descriptors restores every packet's bytes, in particular when every packet completed |
| Iso.DescribedAt | src/transfer_impl.cpp:211-229 | each packet is described at the sum of the lengths before it, failed ones included, with its own length, actual length and status |
| Iso.DescribedPackets | src/transfer_impl.cpp:203-242 | every packet is told of by its offset, its length, its actual length and 0 or -22, and the error count is the number of packets that failed |
| Iso.FailuresAre | src/transfer_impl.cpp:226-229 | that count, as the size of the set of failed packets |
| Iso.DescriptorsDecode | src/transfer_impl.cpp:215-225 | a host reads the descriptors back from their sixteen bytes each |
| Proxy.HostRestoresPackets | src/usb_basic_impl.cpp:342-355 | a host that splits the data queued for it by the announced size, decodes the descriptors and scatters, has every packet's bytes back, if every packet completed, and also if those that failed are empty and the packets aligned |
| Proxy.PreparedBuffers | src/usb_device_proxy_impl.cpp:237-274 | the transfer's buffer is as long as the host's: zeros for a read, the host's own bytes for a write, and the payload of an isochronous write is that buffer and the descriptors, in this order and nothing else |
| Proxy.PrepareTransferBuffer | src/usb_device_proxy_impl.cpp:237-251 | copying and cutting makes that buffer |
| Proxy.FillIso | src/usb_impl.cpp:914-951 | as many packets as asked for, all of length size / count |
| Proxy.UniformPacketsFit | src/usb_impl.cpp:947-948 | such packets never overrun the buffer |
| Proxy.CompletedIsValid | src/usb_impl.cpp:914-951 | what the device hands back is as long as the host's buffer and has its packets inside it |
| Proxy.OwnDataIsFramed | src/usb_device_proxy_impl.cpp:179-228 | a transfer's own data fits the host's buffer, and the reply with it announces exactly its payload, IN or OUT |
| Proxy.ControlReplyIsFramed | src/usb_device_proxy_impl.cpp:366-575 | in every branch of the control dispatch the copy stays inside the data, the reply names its command and announces exactly its payload, and an OUT request gets none |
| Proxy.ControlReplyFitsIff | src/usb_device_proxy_impl.cpp:366-448 | no reply to a control IN request is larger than wLength, exactly when it asks for a descriptor, or for at least the two bytes of a status, or else the device keeps to wLength |
| Replies.ReadReplyDelivers | src/usb_basic_impl.cpp:305-358 | the reply to a read, whichever transfer it is paired with, echoes the command and brings exactly the bytes received, or those gathered from the packets with zeros behind them up to what they claim; then sixteen bytes for each packet that decode to its offset, length, actual length and status |
| Replies.WriteReplyReports | src/usb_device_proxy_impl.cpp:179-228 | the reply to a write has no data: it tells how much was carried out, and of an isochronous one what became of each packet |
| Replies.ControlReplyAnswers | src/usb_device_proxy_impl.cpp:366-575 | every branch of the control dispatch by the bytes of the setup packet: whose data is sent, how much of it, with which status and length |
| Replies.DescriptorAnswers | src/usb_device_proxy_impl.cpp:101-177 | GET_DESCRIPTOR by type byte and index byte: device, configuration, BOS and report, strings by language with the first one for index 0, cut to wLength; status 1 if there is none; any other type as the device answers it |
| Replies.AnyCompletion | src/usb_impl.cpp:914-951 | a transfer may come back with any bytes, any lengths that fit and any packets failed |
| MockTransfer.FillReachesHost | src/transfer_impl.cpp:270-286 | what a mock device fills in is exactly what the host is sent; for isochronous packets, up to where they reach, and none is reported failed |
| MockTransfer.Control.Fill | src/transfer_impl.cpp:270-286 | the loop over the packets, the copy and the length |
| MockTransfer.Control.Read | src/transfer_impl.cpp:288-309 | the first bytes of the buffer; an OUT transfer counts as carried out |
| PendingMap.OwnershipIsLinear | src/transfer_impl.cpp:15-166 | over every run each attached transfer is in exactly one hand; it is freed at most once, its callback runs at most once, and not if it was freed without; only a mock transfer can be lost |
| PendingMap.CompletionFindsIff | src/transfer_impl.cpp:29-51 | in every run a completion, from libusb or from a plugin, finds its transfer in the map if and only if no clear has lost it; one from libusb always does |
| PendingMap.CallbackIff | src/transfer_impl.cpp:29-51 | over every run the callback of a transfer runs, or is running, if and only if a completion found it that was neither a timeout nor a cancellation; it is freed without if and only if one of those found it, or its submit was refused, or cancel swept it; never both |
| PendingMap.FateIsFinal | src/transfer_impl.cpp:29-51 | so from any step of any run on, whatever else is interleaved |
| PendingMap.EndsWithIts | src/transfer_impl.cpp:33-50 | a run for each status, in which the callback runs after a finished transfer only |
| PendingMap.AllCanBeFreed | src/transfer_impl.cpp:29-166 | from every reachable state the threads and libusb can go on to one in which every transfer for the device has been freed |
| PendingMap.StepKeepsLinear | src/transfer_impl.cpp:15-166 | every step keeps each transfer in one hand |
| PendingMap.StepKeepsTracked | src/transfer_impl.cpp:15-166 | every step keeps the map in line with the threads: what libusb has or is about to get is in it, and what is in it is a mock's or a thread's |
| PendingMap.StepKeepsHolding | src/transfer_impl.cpp:15-166 | every step keeps it in line with the plugins: they hold every mock transfer that is in it, and besides those only lost ones |
| PendingMap.EveryTransferFreed | src/transfer_impl.cpp:68-93 | when the threads are done, every transfer was freed exactly once but for mock ones still with a plugin or lost; a transfer for the device always; and nothing was lost if and only if no final clear found a mock transfer in the map |
| PendingMap.ClearLosesIff | src/transfer_impl.cpp:89-92 | the clear loses a transfer if and only if it is a mock one, attached since the wait ended and not completed since |
| PendingMap.LateAttachLeaks | src/transfer_impl.cpp:89-92 | a run in which a mock transfer attached so late leaks, and after which its plugin can still complete it and finds nothing in the map |
| PendingMap.LateSubmitFrees | src/transfer_impl.cpp:154-160 | a run in which a transfer for the device, attached as late, is not found in the map by its submit, and is freed all the same |
| PendingMap.DrainingStep | src/transfer_impl.cpp:142-166 | while cancel waits, each refusal, hand-over or completion takes one piece of work away, each attach adds one, and nothing else changes it |
| PendingMap.DrainingNeverStuck | src/transfer_impl.cpp:95-106 | while a transfer is in the map there is such a step to take |
| PendingMap.CancelTerminates | src/transfer_impl.cpp:68-106 | in every run of the wait, whatever is interleaved, the draining steps taken and the work left add up to the work there was and what was attached meanwhile; when none is left to take the wait ends |
| PendingMap.PendingTransfers.constructor | src/transfer.cppm:57-82 | an empty map satisfies the invariants |
| PendingMap.PendingTransfers.AttachTransfer | src/transfer_impl.cpp:53-66 | step Attach: the map gains the transfer with its callback |
| PendingMap.PendingTransfers.CheckSubmit | src/transfer_impl.cpp:142-162 | the locked half of submit: refused and given away once cancelled, in the map or not |
| PendingMap.PendingTransfers.HandOver | src/transfer_impl.cpp:164-165 | the unlocked half |
| PendingMap.PendingTransfers.TakeCompleted | src/transfer_impl.cpp:29-51 | the transfer is found if and only if no clear has lost it, and leaves the map; the callback attached with it is to run, and the transfer counts as being called back, exactly if it was found and neither timed out nor was cancelled |
| PendingMap.PendingTransfers.EraseMocks | src/transfer_impl.cpp:73-84 | the loop erases exactly the mock transfers and asks libusb to cancel all others |
| PendingMap.PendingTransfers.SweepTransfers | src/transfer_impl.cpp:68-87 | step Sweep, flag included |
| PendingMap.PendingTransfers.EndWait | src/transfer_impl.cpp:95-106 | the wait ends when the map is seen empty |
| PendingMap.PendingTransfers.ClearTransfers | src/transfer_impl.cpp:91-92 | step Clear: the map is empty, and what was mock in it is lost |
| Text.ParseDecimal | src/io.cppm:16-36 | a number printed in decimal is read as that number |
| Text.TokensOfRender | src/io.cppm:16-36 | words printed with a space behind each are read back as those words, whatever follows |
| Text.InFieldDecimal | src/io.cppm:26-36 | a printed field of one or two bytes is read back, and only it |
| Text.InSizeDecimal | src/io.cppm:26-36 | so is a printed size |
| Text.RangesAre | src/io.cppm:26-36 | every number has its outcome: a byte is cut from 31 bits, 16 and 64 bits must fit |
| Text.ParseNatIff | src/io.cppm:26-36 | a word is a number if and only if it is all digits |
| Text.BlankSeparates | src/io.cppm:26-29 | six characters end a word, and no other |
| Text.Stream.Out | src/io.cppm:16-24 | the number and a space are appended |
| Text.Stream.NextToken | src/io.cppm:26-29 | white space is skipped and the next word taken, character by character |
| Text.Stream.ReadField | src/io.cppm:26-36 | a byte goes through 32 bits and is cut, a 16-bit field must fit |
| Text.Stream.ReadSize | src/io.cppm:26-36 | a size must fit 64 bits |
| Descriptors.InOut | src/descriptors/usb_descriptors_impl.cpp:228-293 | at each nesting level, reading the printed form with anything behind it returns the value and what is behind it |
| Descriptors.InOutAll | src/descriptors/usb_descriptors_impl.cpp:270-288 | so for a whole vector of nodes |
| Descriptors.InOutFields | src/descriptors/usb_descriptors_impl.cpp:70-103 | so for the fields of a wrapped structure |
| Descriptors.InOutList | src/descriptors/usb_descriptors_impl.cpp:170-193 | so for extra bytes behind their count |
| DescriptorStream.StreamOut | src/descriptors/usb_descriptors_impl.cpp:228-260 | the text gains exactly the printed node |
| DescriptorStream.StreamOutChildren | src/descriptors/usb_descriptors_impl.cpp:242-255 | the loop over the vector, behind its size |
| DescriptorStream.StreamIn | src/descriptors/usb_descriptors_impl.cpp:262-293 | the node, the tokens left, and every error are those of the specified reader |
| DescriptorStream.StreamInFields | src/descriptors/usb_descriptors_impl.cpp:88-103 | so for the fields |
| DescriptorStream.StreamInBytes | src/descriptors/usb_descriptors_impl.cpp:170-182 | so for counted bytes |
| DescriptorStream.StreamInChildren | src/descriptors/usb_descriptors_impl.cpp:274-288 | so for the loop over a vector |
| Tree.SaveThenLoad | src/descriptors/usb_descriptors_impl.cpp:619-637 | saving a device and loading the file gives the same device, down to the text |
| Tree.InOutTree | src/descriptors/usb_descriptors_impl.cpp:455-637 | the tokens printed for a device are read back as it, and nothing behind them |
| Tree.InOutStrings | src/descriptors/usb_descriptors_impl.cpp:475-562 | maps survive: printed in key order, inserted one by one |
| Tree.SortedKeysAre | src/descriptors/usb_descriptors_impl.cpp:486-491 | iteration visits every key once, in ascending order |
| Tree.SaveTree | src/descriptors/usb_descriptors_impl.cpp:619-627 | the file holds the printed device |
| Tree.LoadTree | src/descriptors/usb_descriptors_impl.cpp:629-637 | the device, or the first error, of the specified reader |
| Tree.StreamOutStrings | src/descriptors/usb_descriptors_impl.cpp:475-492 | the loops over languages and strings |
| Tree.StreamInStrings | src/descriptors/usb_descriptors_impl.cpp:528-562 | and back; of two entries for a language the first stays |
| Packing.PackIsChain | src/descriptors/usb_descriptors_impl.cpp:295-326 | if each node states its own length and extras are chains, stepping by bLength visits exactly the nodes' descriptors and their extras, lands on the end, and the total is the sum of the stated lengths |
| Packing.TotalLengthIsTrue | src/descriptors/usb_descriptors_impl.cpp:295-326 | a wTotalLength that is that sum tells the host the true number of bytes |
| Packing.EndpointSizes | src/descriptors/usb_descriptors_impl.cpp:27-30 | an endpoint takes nine bytes if it states nine, and seven otherwise |
| Packing.HeaderDecodes | src/descriptors/usb_descriptors_impl.cpp:40-55 | a little-endian decode recovers every field on the wire |
| Packing.ChainAppend | src/descriptors/usb_descriptors_impl.cpp:309-325 | chains appended are a chain |
| LibusbPacking.PackersAgreeOnConfig | src/descriptors/usb_descriptors_impl.cpp:333-338 | packing a configuration directly equals building its tree and packing that |
| LibusbPacking.PackersAgreeOnBos | src/descriptors/usb_descriptors_impl.cpp:345-359 | so for a BOS descriptor |
| LibusbPacking.PacksSameEndpoint | src/descriptors/usb_descriptors_impl.cpp:105-118 | so for an endpoint, seven bytes or nine |
| LibusbPacking.PacksSameAltsetting | src/descriptors/usb_descriptors_impl.cpp:392-408 | so for an alternate setting with its endpoints |
| LibusbPacking.PacksSameInterface | src/descriptors/usb_descriptors_impl.cpp:410-421 | so for an interface with its settings |
| LibusbPacking.PacksSameDevCap | src/descriptors/usb_descriptors_impl.cpp:433-453 | so for a device capability |
| LibusbPacking.BuiltIsWellFormed | src/descriptors/usb_descriptors_impl.cpp:644-754 | every tree built fits the tree types, so it can be saved and loaded |
| LibusbPacking.DirectPackIsChain | src/descriptors/usb_descriptors_impl.cpp:333-431 | the direct packer's bytes are a chain of the same descriptors |
| Layout.ConfigLayout | src/descriptors/types.cppm:46-57 | a packed configuration by its offsets: nine bytes, each member where the USB tables have it, the extras at byte 9, the interfaces behind |
| Layout.AltsettingLayout | src/descriptors/types.cppm:59-71 | so for an alternate setting |
| Layout.EndpointLayout | src/descriptors/types.cppm:73-112 | so for an endpoint of seven bytes, or nine if it says nine |
| Layout.DevCapLayout | src/descriptors/usb_descriptors_impl.cpp:433-453 | so for a device capability: three bytes, and as many of its data as its length says |
| Layout.BosLayout | src/descriptors/usb_descriptors_impl.cpp:345-359 | so for a BOS descriptor |
| Layout.DeviceLayout | src/descriptors/types.cppm:27-44 | so for the eighteen bytes of a device descriptor |
| Layout.BuiltNodes | src/descriptors/usb_descriptors_impl.cpp:644-754 | the nodes built from libusb's structures hold their members in that order, their extras, and a child for each element |
| Layout.AnyConfig | src/descriptors/usb_descriptors_impl.cpp:333-421 | this is for any structures whose counts are those of their arrays |
| Layout.AnyAltsetting | src/descriptors/usb_descriptors_impl.cpp:392-408 | so for an alternate setting and its endpoints |
| Layout.AnyBos | src/descriptors/usb_descriptors_impl.cpp:345-359 | so for a BOS descriptor whose capabilities are no shorter than their headers |
| Layout.HonestIff | src/descriptors/usb_descriptors_impl.cpp:295-326 | exactly which trees pack to a chain: nodes that state 9, 7, 5 or 3 bytes and their data by kind, with extras that are chains |
| Serving.ConfigIsRead | src/usb_device_proxy_impl.cpp:101-177 | a host that asks for nine bytes of a configuration learns its length, and asking for that many gets exactly the packed tree, which it can step through |
| Serving.DeviceIsReadIff | src/usb_impl.cpp:287-293 | a host gets the device descriptor and nothing else if and only if it asks for 18 bytes; for more, the configuration follows |
| Serving.StatusIsHighBit | src/descriptors/descriptor_classes.cppm:136-141 | the status says self-powered exactly if the highest bit of the attributes is set |
| WirePacker.Packer.PackNumber | src/descriptors/usb_descriptors_impl.cpp:45-51 | the loop over the bytes of a number, low byte first |
| WirePacker.Packer.PackDescribed | src/descriptors/usb_descriptors_impl.cpp:40-55 | the loop over the fields |
| WirePacker.Packer.PackDesc | src/descriptors/usb_descriptors_impl.cpp:295-326 | fields, extras, vector, appended in that order |
| WirePacker.Packer.PackDescs | src/descriptors/usb_descriptors_impl.cpp:309-325 | the loop over a vector of nodes |
| WirePacker.Packer.PackEndpointDescriptor | src/descriptors/usb_descriptors_impl.cpp:384-390 | fields by the endpoint's own length, then extras |
| WirePacker.Packer.PackInterfaceDescriptor | src/descriptors/usb_descriptors_impl.cpp:392-408 | fields, extras and the loop over endpoints |
| WirePacker.Packer.PackUsbInterface | src/descriptors/usb_descriptors_impl.cpp:410-421 | the loop over alternate settings |
| WirePacker.Packer.PackLibusbConfig | src/descriptors/usb_descriptors_impl.cpp:333-338 | the loops append the bytes of the packed tree |
| WirePacker.Packer.PackLibusbBos | src/descriptors/usb_descriptors_impl.cpp:345-359 | so for the BOS descriptor |
| WirePacker.BuildAltsettingTree | src/descriptors/usb_descriptors_impl.cpp:652-671 | the loop over endpoints builds the specified node |
| WirePacker.BuildInterfaceTree | src/descriptors/usb_descriptors_impl.cpp:673-693 | so for alternate settings |
| WirePacker.BuildConfigTree | src/descriptors/usb_descriptors_impl.cpp:695-713 | so for interfaces |
| WirePacker.BuildBosTree | src/descriptors/usb_descriptors_impl.cpp:733-754 | so for device capabilities; without a descriptor the tree keeps the empty one it starts with |
| JsonCompiler.CompiledIsDenoted | src/json/json_impl.cpp:214-248 | the tokens compiled from a document are read exactly by `tree::load`, and what is read is the device that the document denotes |
| JsonCompiler.ConfigIsPrinted | src/json/json_impl.cpp:96-121 | a configuration compiles to its printed tree |
| JsonCompiler.InterfaceIsPrinted | src/json/json_impl.cpp:73-94 | so does an interface, with the extras of its inner object |
| JsonCompiler.EndpointIsPrinted | src/json/json_impl.cpp:56-71 | so does an endpoint, with the extras of its outer object |
| JsonCompiler.ExtraIsPrinted | src/json/json_impl.cpp:16-54 | the count in front of extras is the count of the companion bytes and raw bytes behind it |
| JsonCompiler.CompanionIsPrinted | src/json/json_impl.cpp:32-43 | a companion compiles to six bytes, the 16-bit field low byte first |
| JsonCompiler.BosIsPrinted | src/json/json_impl.cpp:162-212 | the BOS descriptor compiles to its printed tree |
| JsonCompiler.CapabilityIsPrinted | src/json/json_impl.cpp:179-210 | capabilities split into four or seven bytes by type, or are copied, behind their true count |
| JsonCompiler.StringsCompile | src/json/json_impl.cpp:123-160 | the languages, in any order, are read back as the map |
| JsonCompiler.StringIsPrinted | src/json/json_impl.cpp:139-158 | a string whose length is true compiles to a counted vector |
| JsonCompiler.StringIsFramedIff | src/json/json_impl.cpp:142-145 | what follows a string is read from the right place if and only if its bLength is two more than its text |
| Json.ReadHex | src/json/json_impl.cpp:250-261 | a number written in hexadecimal is read as that number, cut to 32 bits, whatever ends it; more than 64 bits are an error |
| Json.ReadDecimal | src/json/json_impl.cpp:250-261 | so in decimal, with or without a plus; with a minus, modulo 2^64 first |
| Json.ReadOctal | src/json/json_impl.cpp:250-261 | so in octal, behind a zero |
| Json.DigitsRead | src/json/json_impl.cpp:250-261 | a digit has its value in either case, and in every base that has it |
| Json.ReadBehindBlank | src/json/json_impl.cpp:250-261 | white space in front is skipped |
| Json.ReadInt | src/json/json_impl.cpp:250-261 | an integer is read as its residue modulo 2^32, so as itself if it fits |
| JsonDocument.DescribedIsDenoted | src/json/json_impl.cpp:16-248 | a document whose members, by their names, are the numbers, bytes, strings and lists of a device denotes exactly that device; members that are zero may be left out, companions and capabilities be given as structures, strings as characters; of two entries for a language the first counts |
| JsonWriting.EveryTreeIsWritten | src/json/json_impl.cpp:16-248 | every device whose lists are counted in 32 bits, and whose strings start with their length, has such a document |
| Json.DeviceFits | src/descriptors/types.cppm:27-143 | whatever a document denotes fits the tree types, so it can be saved and loaded |
| Json.BareDeviceDenotes | src/json/json_impl.cpp:263-274 | numbers may be left out, and lists be empty: such a document denotes a device of zeros |
| JsonParser.Parser.Parse | src/json/json_impl.cpp:276-280 | the text written makes `tree::load` yield the device denoted, and so the device that the document describes |
| JsonParser.Parser.BuildDescriptor | src/json/json_impl.cpp:214-248 | the loops write exactly the specified tokens, or fail as specified |
| JsonParser.Parser.BuildExtra | src/json/json_impl.cpp:16-54 | so for extras |
| JsonParser.Parser.BuildEndpoint | src/json/json_impl.cpp:56-71 | so for endpoints |
| JsonParser.Parser.BuildInterface | src/json/json_impl.cpp:73-94 | so for interfaces |
| JsonParser.Parser.BuildConfiguration | src/json/json_impl.cpp:96-121 | so for configurations |
| JsonParser.Parser.BuildStringDescriptors | src/json/json_impl.cpp:123-160 | so for the languages |
| JsonParser.Parser.BuildString | src/json/json_impl.cpp:139-158 | so for a string, given as bytes or as characters |
| JsonParser.Parser.BuildBos | src/json/json_impl.cpp:162-212 | so for the BOS descriptor |
| JsonParser.Parser.BuildCapability | src/json/json_impl.cpp:179-210 | so for a capability |
| JsonParser.Parser.WriteNum | src/json/json_impl.cpp:9 | one more word, and a space behind it |
| JsonParser.Parser.WriteDa | src/json/json_impl.cpp:11-14 | the loop over an array of numbers |
| Recording.RecordThenLoad | examples/playback/playback_device.cpp:117-160 | over any number of sessions on the same files, what is loaded is exactly what was recorded, in order: endpoints, data, packet descriptors, and the whole milliseconds of the nanoseconds recorded |
| Recording.AppendThenLoad | examples/playback/recording_proxy.cpp:140-176 | an appended record is loaded behind all earlier ones, and those are unchanged: their offsets stay valid |
| Recording.AppendAllThenLoad | examples/playback/recording_proxy.cpp:114-180 | so for a whole session on top of any log |
| Recording.LineIsRead | examples/playback/playback_device.cpp:219-267 | the expression matches a written line and captures its fields |
| Recording.LineParses | examples/playback/playback_device.cpp:245-264 | and the record parsed from them is the one written, with or without packets |
| Recording.AnyLineParses | examples/playback/playback_device.cpp:245-264 | what is made of any numbers in a line: 64 bits are read, the size is cut to 32, without a count there is no offset |
| Recording.FoundBehind | examples/playback/playback_device.cpp:219-243 | a record is found wherever in its line it begins |
| Recording.BadLinesAddNothing | examples/playback/playback_device.cpp:132-160 | a line without a record is passed over, and so is one whose bytes are not all in the payload |
| Recording.UnpackPacked | examples/playback/playback_device.cpp:190-217 | packet descriptors survive as twelve little-endian bytes each |
| RecordLog.LinesAppend | examples/playback/playback_device.cpp:132-136 | a line appended to complete lines is the next one read |
| Text.HexDigitsRead | examples/playback/playback_device.cpp:219-243 | hexadecimal digits are read in either case, and nothing else is one |
| RecordLog.BehindBlank | examples/playback/playback_device.cpp:219-243 | blanks before a word or a number are skipped |
| Recorder.TransferRecorder.constructor | examples/playback/recording_proxy.cpp:75-85 | a recorder starts with the files as it finds them |
| Recorder.TransferRecorder.RecordTransfer | examples/playback/recording_proxy.cpp:104-111 | the history gains the record and the files do not change |
| Recorder.TransferRecorder.OnTransferComplete | examples/playback/recording_proxy.cpp:367-399 | exactly the transfers to the host that have a buffer are recorded, each with the whole of it, however much was received |
| Recorder.TransferRecorder.Take | examples/playback/recording_proxy.cpp:122-137 | under the lock, one record leaves the queue for the writer's hand; the history stays |
| Recorder.TransferRecorder.WriteTaken | examples/playback/recording_proxy.cpp:139-176 | without the lock, it is appended to the files; the history stays |
| Recorder.TransferRecorder.Finish | examples/playback/recording_proxy.cpp:87-97 | the drained writer has lost none and kept the order, and a player loads what was found and then what was recorded |
| ControlRecording.LookupIsLast | examples/playback/playback_device.cpp:304-352 | after any recording on top of any log a request is answered from the last record of it, or as before if there is none |
| ControlRecording.AppendThenLoad | examples/playback/recording_proxy.cpp:297-315 | an appended record replaces the one for its request and nothing else |
| ControlRecording.LineIsRead | examples/playback/playback_device.cpp:382-406 | the expression matches a written line and captures its fields |
| ControlRecording.AnyLineParses | examples/playback/playback_device.cpp:382-406 | what is made of any numbers in a line |
| ControlRecording.FoundBehind | examples/playback/playback_device.cpp:382-406 | a record is found wherever in its line it begins |
| ControlRecording.BadLinesChangeNothing | examples/playback/playback_device.cpp:315-352 | a line without a record changes nothing, nor does one whose bytes are not all in the payload |
| Recorder.ControlRecorder.OnControlSetup | examples/playback/recording_proxy.cpp:403-429 | exactly the requests that ask for data are recorded |
| Recorder.ControlRecorder.Take | examples/playback/recording_proxy.cpp:279-294 | under the lock, one record leaves the queue for the writer's hand; the history stays |
| Recorder.ControlRecorder.WriteTaken | examples/playback/recording_proxy.cpp:296-315 | without the lock, it is appended to the files; the history stays |
| Recorder.ControlRecorder.Finish | examples/playback/recording_proxy.cpp:242-252 | the drained writer has lost none, and a player answers from the last record |
| Playback.PlaysOnTime | examples/playback/playback_device.cpp:80-114 | for times in order, every record is played at its recorded distance from the first, in every round, and all rounds take the same time: 100 ms more than the recording, or 100 ms for a single record |
| Playback.IntervalsTelescope | examples/playback/playback_device.cpp:100-114 | before the records repeat, the waits add up to the recorded time |
| Playback.Engine.constructor | examples/playback/playback_device.cpp:66-71 | the engine starts at the first record of what is loaded |
| Playback.Engine.LoadTransfers | examples/playback/playback_device.cpp:117-160 | the loop over the lines computes the specified records |
| Playback.Engine.GetNextRecord | examples/playback/playback_device.cpp:80-91 | after k advances it is record k modulo their number |
| Playback.Engine.Advance | examples/playback/playback_device.cpp:93-98 | one more advance |
| Playback.Engine.GetIntervalMs | examples/playback/playback_device.cpp:100-114 | the wait is what the timeline adds at this point |
| Playback.LoadControlSetups | examples/playback/playback_device.cpp:315-352 | the loop over the lines computes the specified table |
| Argv.ArgvRoundTrip | src/cli/cli_impl.cpp:9-66 | deserializing a serialized argument list returns it, whatever follows |
| Argv.AcceptedIff | src/cli/cli_impl.cpp:34-66 | a byte string decodes to an argument list if and only if that list's serialization is in front of it, with fewer than 2^31 - 1 arguments of fewer than 2^32 bytes |
| Argv.SerializeArgv | src/cli/cli_impl.cpp:9-32 | the loop computes the serialization, which decodes to the arguments |
| Argv.DeserializeArgv | src/cli/cli_impl.cpp:34-66 | every access is in bounds; the result's serialization is a prefix of the input, and failure means that no list's is |

## Left out

- Sockets, sysfs, systemd and the file system: the socket is a byte sequence, a file its contents; opening and flushing can fail in the original.
- Stopping: closing the queues in `basic::~basic` ends the threads; runs here go on. An invalid request, an invalid direction, or a language without strings ends the process, by an exception nobody catches.
- libusb and the plugin tables: only what a completed transfer may look like, and that a submitted one completes once. A failing `libusb_submit_transfer` is not modelled, nor a plugin that completes a transfer already swept.
- Allocation: the original can run out of memory for large counts.
- `set_interface` keeps the first alternate setting recorded for an interface, because it inserts into a map (src/usb_impl.cpp:640); control requests see the map as given.
- EnginePairing.OwnDataOnWire: says nothing of a slot that another read completed in, because what is in it is then that read's data (EngineRuns.OutOfOrderOverruns, EngineRuns.CancelledReadShifts). When it still fits is EngineRoom.OverrunsNextIff, and when it is still announced truly is EnginePairing.WireDecodesIff.
- PendingMap.CompletionFindsIff: when a completion finds nothing, the original goes on with an iterator that is at the end; the model ends there and only records the miss.
- JSON text and schemas: documents start as values. What a failed compilation leaves in the stream, and documents with several configurations, are not modelled.
- Signed numbers and trailing characters in token streams: nothing prints them, so they are refused here.
- Regular expressions: the two used to read log lines are written as matchers, with the search for the first place that matches.
- Recorded packet descriptors that a player copies over a transfer's packets, and the player's delivery of bytes to waiting requests.
- Fetching descriptors from a device, HID reports, enumeration, daemon and client command lines, usage texts: no deep property.
