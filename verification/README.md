# A model of the native capability library

The native layer of this repository talks across threads, processes and sockets. This project models the parts of
it that carry a protocol or exact arithmetic and proves what they keep. Two shapes occur.

* Where several parties interleave (the event bridge, the telemetry page, the module table, the sensor table) a
  state machine on values has one step for each atomic action, and theorems range over every run. A class in the
  form of the C code then shows that each of its calls is such a run, whatever the other parties do in between.
* Where one party computes (the broker, the ADB client, the Bluetooth list, the dumpsys parser, the PCM frame)
  methods in the form of the C code are proved against a specification on byte sequences, and lemmas say what the
  specification means.

A socket is two byte queues and two scripts (`Sockets.Connection`): every `read` and `write` takes the next outcome
of its script, which may be a short transfer, EINTR or a hard error; an empty script means full transfers. A theorem
for every script is a theorem for every chunking. Both ends of an RPC run in phases: the server's turn comes where
the client waits for the reply.

| file | what it holds |
|---|---|
| `EventRing.dfy`, `EventBridge.dfy` | the eventfd bridge: 256-slot ring, wrapping 32-bit indices, eventfd counter, re-entrant drain |
| `Wire.dfy`, `Sockets.dfy`, `Options.dfy`, `BrokerProtocol.dfy` | little-endian words, connections, the broker's frames |
| `BrokerDaemon.dfy`, `BrokerClient.dfy` | the privilege broker's two sides |
| `BrokerFrames.dfy`, `BrokerScans.dfy` | the same conversation byte by byte, and scan commands in a row |
| `BleDevices.dfy`, `BleClient.dfy` | the Bluetooth daemon's device list and its client |
| `TelemetryPage.dfy`, `CopyProvenance.dfy` | the shared telemetry page: writer, polling reader, where copied fields come from |
| `TelemetryPolling.dfy`, `SharedState.dfy` | what the polling loop prints for each schedule of the daemon, and the page in memory |
| `BitFlips.dfy`, `AdbCodec.dfy`, `AdbRemote.dfy`, `AdbSessions.dfy` | exclusive or with all ones, ADB packets, the remote as a packet list, the session |
| `ShellStream.dfy`, `CommandChain.dfy`, `ScriptBinding.dfy` | the two loops that collect shell output, and commands in a row |
| `TextScan.dfy`, `CellParser.dfy`, `CellText.dfy` | strstr, `%d`, the dumpsys cell parser, and the documented text written out |
| `PcmFrame.dfy` | energy, peak and envelope of a PCM block |
| `ModuleRegistry.dfy`, `ModuleContext.dfy` | the module table under its mutex |
| `SensorStream.dfy`, `SensorsDaemon.dfy` | the sensors daemon's streaming table |

`dafny verify dfyconfig.toml` checks everything.

## What the proofs found

* A `post_event` whose eventfd write fails with anything but EAGAIN returns false after its event became visible
  (`LostWakeupExists`). Whatever has failed, once the dispatchers have finished one more dispatch delivers every
  published event if and only if the eventfd was positive, the ring empty, or some dispatcher still to load the tail
  (`DispatchDeliversIff`, `DrainThenDispatchDeliversIff`, `FailedWriteLosesWakeupIff`).
* A Bluetooth scan start or stop that succeeds through the broker carries 65536 stray bytes, so the caller sees
  `STATUS_ERROR` unless it offers that much room (`ScanCommandNeedsFullBuffer`).
* The telemetry client prints the zeroed page of a daemon that has made no update, as sequence 0; and it takes
  sequence 0xFFFFFFFF for stale if that is the first one it sees (`WatchIdle`, `UpdatesPrinted`).
* A reader of the telemetry page can copy a mixture of two updates (`MixedCopyExists`); every field is still fresh. A
  complete copy is the update current at the flag check, in every field, if and only if the daemon stored no field
  ahead of the copy (`CopyProvenance.SnapshotIff`).
* The shell loop stops at an empty data packet, and at a first packet that is not data; any other packet that is not
  data makes it copy the last payload again. Up to where it stops, the output is what was sent to the channel if and
  only if only data came; it reads on to the close if and only if no data is empty and data comes first; so output and
  close are both right exactly for non-empty data and nothing else (`ShellStream.OutputExactIff`). When it stops early
  the session stays in the shell state and every later command is refused (`ShellStream.ExecuteShell`,
  `CommandChain.RunCommands`). The script binding's loop differs: it reads past leading stray packets and empty data
  (`ScriptBinding.OutputExactIff`).
* A shell command reaches the remote up to its 505th byte; two commands that agree so far look alike
  (`AdbSessions.DestinationsDiffer`).
* In the parser, a key missing from one cell is read from the next cell that prints it (`ParseInvertsPrint`).
* Sample -32768 keeps its sign in the 16-bit absolute value, so a block at full negative scale reports a silent peak
  (`FullScaleReportsSilence`); the peak is right exactly when no sample is -32768 (`PeakIsLoudestIff`). The
  envelope leaves out the last n % 32 samples (`EnvelopeShowsPeakIff`).
* A symbol lookup that loads a module releases the mutex before it searches; another thread's unload in that gap makes
  it search with a null handle (`SearchHitsLoadedIff`, `UnloadInGapMisses`).
* A client that started a stream twice keeps a slot after it disconnects (`StaleAfterDisconnectIff`). The sensor runs
  for nobody if and only if the last clients went by a hang-up or a failed write and no start or stop came since
  (`RunIdlesOnIff`).

## Model

| member | source | states |
|---|---|---|
| EventRing.FifoExactlyOnce | sdk/src/quickjs_eventfd_bridge.c:103-247 | in every reachable interleaving, delivered events, then the one in the consumer's hands, then the memory between the two wrapped indices, equal the published events, in order and once each; at most 256 are queued |
| EventRing.PostResultsTruthful | sdk/src/quickjs_eventfd_bridge.c:129-149 | the events whose post returned true, and the one still in its post, are the published ones if and only if no eventfd write has failed hard |
| EventRing.NoLiveSlotOverwritten | sdk/src/quickjs_eventfd_bridge.c:111-123 | the slot being filled is not the slot of any event still to be consumed |
| EventRing.NoUnpublishedSlotRead | sdk/src/quickjs_eventfd_bridge.c:189-205 | every word the consumer copies belongs to the oldest published event, so no event is torn |
| EventRing.NoLostWakeup | sdk/src/quickjs_eventfd_bridge.c:129-193 | with the producer not between tail store and eventfd write, no dispatcher still draining and no hard write failure, a non-empty ring implies a positive eventfd counter |
| EventRing.RunKeepsInv | sdk/src/quickjs_eventfd_bridge.c:97-251 | every interleaving of single loads, stores, word copies and eventfd calls keeps the invariant behind the theorems, re-entrant dispatchers included |
| EventRing.WrapKeepsSlot | sdk/include/quickjs_eventfd_bridge.h:27-29 | a free-running index keeps its slot across the 32-bit wrap |
| EventRing.WrapDistance | sdk/src/quickjs_eventfd_bridge.c:111 | the 32-bit difference of the indices is the occupancy while that is at most 256 |
| EventRing.QueuedIsLive | sdk/src/quickjs_eventfd_bridge.c:119-129 | the ring memory between the indices holds the published and not yet popped events |
| EventRing.DispatchDeliversIff | sdk/src/quickjs_eventfd_bridge.c:157-251 | from every reachable state with no dispatcher running, whatever writes have failed, one undisturbed dispatch delivers all that is published if and only if the eventfd is positive or nothing is queued |
| EventRing.DispatchDeliversAll | sdk/src/quickjs_eventfd_bridge.c:157-251 | so with both threads outside and no lost signal it always does |
| EventRing.FinishDrain | sdk/src/quickjs_eventfd_bridge.c:179-249 | left alone, any stack of dispatchers finishes; it has then taken everything if one of them still had to load the tail, and otherwise changed nothing |
| EventRing.DrainThenDispatchDeliversIff | sdk/src/quickjs_eventfd_bridge.c:129-251 | from every reachable state: finish the dispatchers, dispatch once, and everything is delivered if and only if the eventfd was positive, the ring empty, or a dispatcher still to load the tail |
| EventRing.FailedWriteLosesWakeupIff | sdk/src/quickjs_eventfd_bridge.c:129-145 | the same from the state a failing eventfd write leaves, in terms of the state before it: also when it fails in the middle of a drain |
| EventRing.LostWakeupExists | sdk/src/quickjs_eventfd_bridge.c:137-145 | such a run exists: false returned, event in the ring, counter zero |
| EventBridge.EventfdBridge.PostEvent | sdk/src/quickjs_eventfd_bridge.c:97-151 | for any consumer steps between its operations: true publishes exactly the event and leaves the eventfd positive, a refusal publishes nothing and means 256 events were queued, and a call that finds room publishes |
| EventBridge.EventfdBridge.DispatchPending | sdk/src/quickjs_eventfd_bridge.c:157-251 | for any producer steps and re-entrant callbacks: when the eventfd is positive at the call, everything published before it is delivered on return; when it is zero and the producer rests, nothing is; the call is a run of the machine |
| EventBridge.EventfdBridge.Callback | sdk/src/quickjs_eventfd_bridge.c:233-247 | the callback dispatches again as often as its schedule says and leaves the outer dispatcher's frame as it was |
| EventBridge.EventfdBridge.FindRoom | sdk/src/quickjs_eventfd_bridge.c:103-115 | refuses if and only if 256 events are queued when the head is loaded, which are then the 256 of the start |
| EventBridge.EventfdBridge.CopyEvent | sdk/src/quickjs_eventfd_bridge.c:119-123 | the slot copy, word by word under interference |
| EventBridge.EventfdBridge.TakeEvent | sdk/src/quickjs_eventfd_bridge.c:197-205 | takes the oldest published event out and releases its slot |
| EventBridge.EventfdBridge.LookForEvent | sdk/src/quickjs_eventfd_bridge.c:181-193 | ends the drain only when everything published before the look has been delivered |
| EventBridge.EventfdBridge.WriteEventfd | sdk/src/quickjs_eventfd_bridge.c:135-145 | adds one to the counter, or nothing when it is saturated, and reports failure only for a hard error |
| EventBridge.EventfdBridge.ReadEventfd | sdk/src/quickjs_eventfd_bridge.c:163-173 | empties a positive counter or returns at once |
| EventBridge.EventfdBridge.ValidReachable | sdk/src/quickjs_eventfd_bridge.c:97-251 | every state of the bridge object is reached by some interleaving, so all theorems hold of it |
| Wire.DecodeEncode | sdk/include/ipc_common.h:105-127 | a number that fits n little-endian bytes survives encoding |
| Wire.EncodeDecode | sdk/include/ipc_common.h:105-127 | n bytes survive decoding |
| Wire.FourBytes | sdk/include/ipc_common.h:105-127 | the four bytes of a word, least significant first, as quotients and remainders |
| Wire.FourBytesValue | sdk/include/ipc_common.h:105-127 | the value of four bytes, unsigned and in two's complement, as a weighted sum |
| Sockets.Connection.ReadFull | sdk/src/privilege_broker_daemon.c:20-30 | for every schedule of short reads and EINTR: success exactly when enough bytes come, which then fill the buffer and leave the stream; nothing past the requested length is written |
| Sockets.Connection.WriteFull | sdk/src/privilege_broker_daemon.c:32-42 | success means exactly the data went out; without hard errors it always succeeds |
| Sockets.Connection.Drain | sdk/src/privilege_broker.c:142-148 | reads exactly the announced bytes off the stream, in pieces of 256 |
| BrokerProtocol.HeaderRoundTrip | sdk/src/privilege_broker.c:120-129 | the 20-byte header decodes to what was encoded |
| BrokerProtocol.EnvelopeDecodes | sdk/src/privilege_broker.c:187-214 | the client's envelope decodes in the daemon to the same version, capability, backend, command and data, and passes its length check |
| BrokerProtocol.EnvelopeEncodes | sdk/src/privilege_broker_daemon.c:210-222 | every payload that passes the daemon's length checks is the encoding of exactly what was decoded |
| BrokerProtocol.BackendReportRoundTrip | sdk/src/privilege_broker_daemon.c:200-206 | the 12-byte report decodes to the status, backend and zero length that were encoded |
| BrokerDaemon.WifiDispatch | sdk/src/privilege_broker_daemon.c:45-116 | on a sound connection the service gets the 20-byte request for command 200 or 201, byte for byte, and the answer is the status and payload it replies with, or an error when the payload exceeds the room, is cut short or is announced above 65536 |
| BrokerDaemon.BtDispatch | sdk/src/privilege_broker_daemon.c:118-138 | status, length and the Bluetooth daemon's state after each command: a start leaves it scanning, with its list cleared if it was idle, a stop leaves it idle with the list it had, a list request changes nothing; start and stop leave the length at its capacity, the list reports whole records; every error case leaves the state alone |
| BrokerDaemon.DispatchCapability | sdk/src/privilege_broker_daemon.c:140-155 | answers within the capacity; data or an unknown capability is unsupported and changes nothing; the rest is the back end's answer and its change of state |
| BrokerDaemon.Serve | sdk/src/privilege_broker_daemon.c:185-252 | the status and body of every branch, with the capability called, and the Bluetooth daemon changed, exactly for a well-formed dispatch |
| BrokerDaemon.HandleClient | sdk/src/privilege_broker_daemon.c:157-260 | for every input stream without hard errors the bytes written are the response determined by the input and the back end's answer; when only the writes are without hard errors, that response or nothing |
| BrokerDaemon.AtMostOneFrame | sdk/src/privilege_broker_daemon.c:163-256 | that response is empty or one frame that echoes magic, transaction, subsystem and command and announces exactly the bytes that follow, at most 65536 |
| BrokerClient.ReceiveReply | sdk/src/privilege_broker.c:133-160 | the reply frame reaches the caller's buffer, or is drained completely and reported as an error when it does not fit; of any other bytes, short, oversized or cut, the caller sees an error |
| BrokerClient.Exchange | sdk/src/privilege_broker.c:110-161 | one request against the daemon over any schedule of transfers gives what the daemon's judgement gives in process |
| BrokerClient.Dispatch | sdk/src/privilege_broker.c:180-221 | RPC refinement: for every capability, backend, command, payload up to 65516 bytes, back end and schedule without hard errors, the caller gets the status and bytes of validating and dispatching locally, and the Bluetooth daemon is left as the local call leaves it, except that a reply beyond the caller's buffer is drained and becomes an error; larger or missing payloads are refused unsent |
| BrokerClient.EnvelopeJudged | sdk/src/privilege_broker_daemon.c:188-223 | the daemon judges a client's envelope as the local call does, and calls the capability exactly when validation passes |
| BrokerClient.GetBackend | sdk/src/privilege_broker.c:167-178 | the backend is reported exactly when the daemon runs as uid 2000 |
| BrokerClient.Ping | sdk/src/privilege_broker.c:163-165 | OK exactly when the daemon runs as uid 2000 |
| BrokerClient.ScanCommandNeedsFullBuffer | sdk/src/privilege_broker_daemon.c:119-124 | a successful scan start or stop reaches the caller as success if and only if it offers 65536 bytes |
| BrokerClient.DevicesThroughBroker | sdk/src/privilege_broker_daemon.c:125-136 | through three layers, when the Bluetooth service moves its headers whole and its list fits 32 bits of bytes, the caller gets the first min(n, 728) records whole and in order, and a length of 90 bytes each, and the daemon's state is unchanged |
| BrokerClient.WifiThroughBroker | sdk/src/privilege_broker_daemon.c:86-116 | a whole reply of the Wi-Fi service with status 0 reaches the caller byte for byte if and only if its payload fits the caller's buffer; nothing else changes |
| BrokerFrames.ClientSends | sdk/src/privilege_broker.c:110-129 | the bytes of a ping, a backend query and a dispatch, with every field and number written out |
| BrokerFrames.DaemonReplies | sdk/src/privilege_broker_daemon.c:157-260 | for every byte stream the daemon's response equals a second account of it by offsets and numbers: twelve bytes repeated, status, length, body |
| BrokerFrames.VerdictBytes | sdk/src/privilege_broker_daemon.c:185-223 | the status of every branch, and the capability call, read off the request's bytes |
| BrokerScans.ScanCall | sdk/src/privilege_broker_daemon.c:118-138 | one scan command through the broker with room for 65536 bytes: -3 for a start while scanning, 0 for every other start, stop or list request, -2 for any other command; the daemon's state afterwards; and the first 728 devices for a list request |
| BrokerScans.ScanCalls | sdk/src/bluetooth_svc.cpp:383-417 | over any number of calls, with devices found in between: a start is busy exactly when the last start or stop before it was a start, the scan runs on exactly when the last one is, and the list is what was found since the last start that found the daemon idle |
| BrokerScans.TwoCalls | sdk/src/bluetooth_svc.cpp:383-417 | stop then start answers 0 and 0 and clears the list, start then start answers -3, whatever came before |
| BleDevices.BluetoothDaemon.Execute | sdk/src/bluetooth_svc.cpp:375-457 | reply and new scanning state for every command; the announced length is that of the payload |
| BleDevices.BluetoothDaemon.HandleClientRequest | sdk/src/bluetooth_svc.cpp:423-469 | the header goes out whole and the payload as far as one write takes it |
| BleDevices.RepliesByBytes | sdk/src/bluetooth_svc.cpp:367-457 | for every 18 bytes that reach the daemon, the reply bytes and the new state, with the command numbers and statuses written out |
| BleDevices.FlattenAt | sdk/src/bluetooth_svc.cpp:425-435 | record i of the serialised list is bytes 90i to 90i+90 |
| BleClient.Transact | sdk/src/libbluetooth_client.c:183-227 | one header exchange with the daemon: what came back is its reply to this request, and a request that fails was served whole or not at all |
| BleClient.ScanCommand | sdk/src/libbluetooth_client.c:65-171 | start is refused as busy while scanning, else status 0; a start leaves the daemon scanning and clears the list if it was idle, a stop leaves it idle with the same list; a failing call does that or nothing |
| BleClient.GetDiscoveredDevices | sdk/src/libbluetooth_client.c:177-281 | with status 0, headers moved whole, and both the byte limit and the daemon's list within 32 bits, the buffer holds exactly the first min(n, max_count) records; for every input nothing past the (wrapped) limit is written, a failure writes nothing, and the daemon's state never changes |
| BleClient.FetchRecords | sdk/src/libbluetooth_client.c:233-273 | all announced bytes must arrive, then the target prefix is copied and whole records counted |
| BleClient.ReadPayload | sdk/src/libbluetooth_client.c:243-255 | the read loop: a full count means the buffer is the stream's prefix |
| BleClient.FetchedAll | sdk/src/libbluetooth_client.c:235-263 | the byte arithmetic of the truncation yields the first min(n, capacity) whole records |
| TelemetryPage.RunKeepsInv | sdk/src/shm_daemon.c:383-417 | every interleaving of single field accesses keeps the page invariant |
| TelemetryPage.FieldsAreFresh | sdk/src/shm_client.c:191-217 | every copied field was written by an update numbered between the loaded sequence and the current one plus one, also when writes overlap the copy |
| TelemetryPage.QuietCopyIsSnapshot | sdk/src/shm_client.c:199-217 | if no update begins after the flag check, all fields belong to one update, numbered as the sequence at the check or one more |
| CopyProvenance.NotesAreTrue | sdk/src/shm_daemon.c:391-411 | every copied field is what the update noted as its writer stored there, and that update is not older than the one at the flag check |
| CopyProvenance.SnapshotIff | sdk/src/shm_client.c:201-217 | over every run, a complete copy is in every field the update current at the flag check if and only if the daemon stored no field ahead of the copy |
| CopyProvenance.QuietCopyNotOvertaken | sdk/src/shm_client.c:201-217 | no update begun since the check means no such store, at any point of the copy |
| TelemetryPage.SamplesIncrease | sdk/src/shm_client.c:183-225 | accepted samples carry strictly increasing update numbers, at most ten of them |
| TelemetryPage.StaleIff | sdk/src/shm_client.c:191-197 | a poll is taken for stale exactly when a multiple of 2^32 updates passed, so exactly when none did if fewer than 2^32 did |
| TelemetryPage.MixedCopyExists | sdk/src/shm_client.c:201-217 | a reachable complete copy that matches no single update |
| SharedState.SharedStateBuffer.PublishUpdate | sdk/src/shm_daemon.c:383-417 | one update leaves the page whole, flag clear, sequence one higher |
| SharedState.SharedStateBuffer.Monitor | sdk/src/shm_client.c:183-233 | for any writer activity between accesses the memory, the records and the schedule left are those of the polling specification; the loop ends after ten records or with the schedule; an idle daemon's page is printed once if its sequence is new and the flag clear, else not at all; records are fresh and increasing |
| SharedState.SharedStateBuffer.MonitorUpdates | sdk/src/shm_client.c:183-233 | with updates finished before each of n polls and none overlapping one, min(n, 10) records are printed, each the whole update finished last |
| SharedState.SharedStateBuffer.PollOnce | sdk/src/shm_client.c:189-225 | one pass of the loop with the daemon running before each access |
| TelemetryPolling.PollQuiet | sdk/src/shm_client.c:189-225 | a poll during which the daemon rests prints the whole page if the sequence is new and the flag clear, and otherwise nothing |
| TelemetryPolling.WatchIdle | sdk/src/shm_client.c:189-225 | with an idle daemon a schedule of any length prints the page once in that case, and otherwise leaves everything as it was |
| TelemetryPolling.WatchRuns | sdk/src/shm_client.c:189-225 | the loop ends only with ten records or the schedule, and the daemon has then run exactly the turns used |
| TelemetryPolling.UpdatesPrinted | sdk/src/shm_client.c:189-225 | from every state between updates: min(n, polls left) records, record j being the update finished last before poll j, when each block leads to a sequence not printed last |
| TelemetryPolling.FreshPagePrinted | sdk/src/shm_client.c:183-225 | on a fresh page with one to 2^32 - 2 updates before each poll |
| TelemetryPolling.RecordValues | sdk/src/shm_daemon.c:391-411 | the nine values of a printed record by the daemon's formulas |
| SharedState.SharedStateBuffer.CopyFields | sdk/src/shm_client.c:203-217 | the field-by-field copy under interference |
| SharedState.SharedStateBuffer.WholePage | sdk/src/shm_daemon.c:383-417 | outside the store phase the page holds exactly the newest update |
| AdbCodec.CalculateChecksum | sdk/src/adb_client.c:27-39 | the loop computes the byte sum modulo 2^32 |
| AdbCodec.ChecksumExact | sdk/include/adb_client.h:51-53 | up to the 1 MiB packet limit the sum does not wrap |
| AdbCodec.SubstitutionDetected | sdk/src/adb_client.c:27-39 | any single-byte substitution changes the checksum, at any length |
| AdbCodec.ComplementIsXor | sdk/src/adb_client.c:147 | on every 32-bit vector, the complement the codec uses is the exclusive or with all ones |
| AdbCodec.ComplementIsXorOf | sdk/src/adb_client.c:147 | the same for every 32-bit number, through its vector |
| BitFlips.FlippedVector | sdk/src/adb_client.c:207 | exclusive or with all ones is subtraction from all ones |
| AdbCodec.CommandsSpell | sdk/include/adb_client.h:25-35 | on the wire each command spells its four letters |
| AdbCodec.PacketBytes | sdk/src/adb_client.c:133-147 | the 24 header bytes of a packet, word by word: bytes 20 to 24 are all ones minus the command, bytes 16 to 20 the byte sum modulo 2^32 |
| AdbCodec.ParsesIff | sdk/src/adb_client.c:185-273 | a stream is read as a packet if and only if its sixth word is all ones minus its first, the length fits the room and the stream, and a non-empty payload has the announced sum; and the packet is those words |
| AdbCodec.AdbHeaderRoundTrip | sdk/src/adb_client.c:135-147 | the 24-byte header decodes to what was encoded |
| AdbCodec.PacketRoundTrip | sdk/src/adb_client.c:133-273 | a packet put on the stream is read back unchanged and the rest of the stream is untouched |
| AdbCodec.CorruptPayloadRefused | sdk/src/adb_client.c:255-265 | with any one payload byte replaced it is refused |
| AdbCodec.SendPacket | sdk/src/adb_client.c:133-181 | success means exactly the encoded packet went out |
| AdbCodec.ReadPacket | sdk/src/adb_client.c:185-273 | a success is the packet the stream starts with, its sixth word all ones minus its first, and its checksum right; it does succeed when the header comes whole and the payload in any pieces; every other stream gives -1 |
| AdbCodec.ReadPayload | sdk/src/adb_client.c:233-249 | the payload loop against the stream and the read schedule |
| AdbRemote.NextReady | sdk/src/adb_client.c:185-273 | a remote's packet list is read one packet at a time |
| AdbRemote.ReadHeard | sdk/src/adb_client.c:185-273 | one read takes exactly the first packet off that list and keeps the buffer behind it |
| AdbSessions.AdbSession.constructor | sdk/src/adb_client.c:43-71 | a new session is disconnected, without socket, with channel 1 |
| AdbSessions.AdbSession.Connect | sdk/src/adb_client.c:75-129 | success opens a socket and forgets any welcome and channel; failure is the error state |
| AdbSessions.AdbSession.Handshake | sdk/src/adb_client.c:447-591 | against any packet list that ends in CNXN or CLSE: final state, consumed packets and every byte sent are those of the handshake specification; success always means connected after a CNXN |
| AdbSessions.AdbSession.AnswerToken | sdk/src/adb_client.c:497-559 | sends the signature, or the public key with its NUL when signing fails, or gives up |
| AdbSessions.ConnectsIff | sdk/src/adb_client.c:473-589 | the handshake connects if and only if a CNXN comes before any CLSE and every token before it can be answered |
| AdbSessions.EveryTokenAnswered | sdk/src/adb_client.c:497-561 | one answer for every token read, except a last one that nothing could answer |
| AdbSessions.RepliesInOrder | sdk/src/adb_client.c:497-561 | reply j is an AUTH of kind 2 with signature j, or of kind 3 with the public key file and a NUL |
| AdbSessions.ConnectedAtLast | sdk/src/adb_client.c:473-495 | a handshake that connects has read exactly up to the CNXN that welcomes it |
| AdbSessions.AdbSession.OpenShell | sdk/src/adb_client.c:595-667 | skips packets to the first OKAY for this channel or CLSE and follows it: active with its remote id, or error; exactly one OPEN is sent, with "shell:", the command up to its 505th byte and a NUL |
| AdbSessions.DestinationBytes | sdk/src/adb_client.c:601-613 | the payload of the OPEN byte by byte: whole up to 505 command bytes, else 512 bytes with a NUL at the end |
| AdbSessions.DestinationsDiffer | sdk/src/adb_client.c:601-613 | two commands give the same payload if and only if they agree in their first 505 bytes, so shorter ones only when they are equal |
| AdbSessions.OpenParses | sdk/src/adb_client.c:601-613 | a remote that parses those bytes reads OPEN, the local id, 0 and that payload |
| AdbSessions.FirstAnswer | sdk/src/adb_client.c:627-665 | the first packet that accepts or rejects the OPEN, with none before it |
| AdbSessions.AdbSession.WriteShell | sdk/src/adb_client.c:671-677 | one WRTE on the channel, only while active |
| AdbSessions.AdbSession.ReadShell | sdk/src/adb_client.c:681-725 | data is copied, counted and acknowledged once, CLSE falls back to connected, anything else overwrites the buffer and leaves the count |
| AdbSessions.AdbSession.Close | sdk/src/adb_client.c:729-751 | an active channel is closed on the wire, then the session is disconnected without socket |
| ScriptBinding.Drive | sdk/src/adb_client.c:123-749 | over every sequence of calls and every remote: each call moves the session only to the states it may, with the result that goes with it; states from connecting on have a socket, connected and later states follow a CNXN on it, and every WRTE, OKAY and CLSE in the log of sent packets carries the local id and the remote id of the OPEN accepted last |
| ScriptBinding.ExecuteFromScript | sdk/src/quickjs_adb_binding.c:43-115 | output, acknowledgements and the final CLSE for any scripted remote; the session always falls back to connected |
| ScriptBinding.OutputExactIff | sdk/src/quickjs_adb_binding.c:83-95 | the gathered output is never shorter than what was sent to the channel, and is exactly that if and only if other packets come only before data or after empty data |
| ShellStream.CleanRemote | sdk/src/connectivity_automation.c:47-61 | for non-empty data and a close: all payloads in order, one acknowledgement each, everything up to the close consumed and nothing after it |
| ShellStream.CollectsToStop | sdk/src/connectivity_automation.c:47-61 | up to the packet that stops the loop the output is never shorter than what was sent to the channel, and equal exactly when only data came |
| ShellStream.ReadsToStop | sdk/src/connectivity_automation.c:47-61 | the packets read are those up to the stop, and each data packet among them is acknowledged once |
| ShellStream.ReadsToCloseIff | sdk/src/connectivity_automation.c:49 | the loop reads on to the close if and only if no data is empty and the first packet is data |
| ShellStream.OutputExactIff | sdk/src/connectivity_automation.c:47-61 | for every list of packets before a close: exact up to the stop if and only if only data came before it; closed if and only if no data is empty and data comes first; both over the whole list if and only if it is non-empty data only |
| ShellStream.StrayPacketRepeatsData | sdk/src/connectivity_automation.c:49-57 | one OKAY behind one data packet doubles its payload |
| ShellStream.LeadingStrayCollectsNothing | sdk/src/connectivity_automation.c:43-49 | a first packet that is neither data nor close ends the loop with no output |
| ShellStream.Append | sdk/src/connectivity_automation.c:51-59 | the buffer holds the first min(total, max_out_len-1) bytes and nothing beyond is touched |
| ShellStream.Accumulate | sdk/src/connectivity_automation.c:39-61 | the loop's buffer, acknowledgements, consumed packets and final state for any packet list ending in a close |
| ShellStream.ExecuteShell | sdk/src/connectivity_automation.c:17-75 | buffer with NUL, bytes sent, session state and everything the remote is still to say, for any scripted remote; a rejected OPEN is an error and leaves the buffer alone; a session that is not connected is told so and left as it is |
| CommandChain.NextScript | sdk/src/connectivity_automation.c:47-61 | with several commands' packets to come, one command takes exactly its own |
| CommandChain.RunOne | sdk/src/connectivity_automation.c:17-75 | one command against the first script sends its own OPEN and acknowledgements, gets that script's output and leaves the session ready for the others |
| CommandChain.RunCommands | sdk/src/connectivity_automation.c:83-143 | any number of commands in a row each go out in their turn and get their own output, cut to the buffer; a session that is not connected refuses them all |
| TextScan.Find | sdk/src/telephony_client.c:187-209 | the first occurrence, or none exists |
| TextScan.ScanDecimal | sdk/src/telephony_client.c:213-223 | "%d" reads back every printed 32-bit value, negatives included, whatever non-digit follows |
| TextScan.DecimalForm | sdk/src/telephony_client.c:175-177 | printed numbers have digits only, no leading zero, and a minus sign exactly when negative |
| TextScan.ScanForms | sdk/src/telephony_client.c:213-223 | white space, a sign or none, and digits of any length are read as that number, whatever non-digit follows |
| TextScan.NarrowExact | sdk/src/telephony_client.c:213-223 | a value within 64 bits is stored modulo 2^32; beyond, -1 or 0 |
| TextScan.NoNumber | sdk/src/telephony_client.c:213-223 | a sign without a digit behind it is no number |
| CellParser.ReadAttribute | sdk/src/telephony_client.c:199-223 | the number behind the key's first occurrence, else the previous value |
| CellParser.MarkersAscend | sdk/src/telephony_client.c:187 | marker positions are visited in ascending order |
| CellParser.MarkersComplete | sdk/src/telephony_client.c:187 | every occurrence of the marker is among them |
| CellParser.NoOverlap | sdk/src/telephony_client.c:241 | no occurrence of the marker begins inside another |
| CellParser.NextMarker | sdk/src/telephony_client.c:187-241 | searching and stepping over 15 characters visits the next occurrence and misses none |
| CellParser.ParseRegistryDumpsys | sdk/src/telephony_client.c:165-251 | on every text: the first max_cells markers fill the first slots, other slots are untouched, the count and status agree, invalid arguments change nothing, and the scan ends |
| CellParser.FillCell | sdk/src/telephony_client.c:189-235 | one slot filled, the others untouched |
| CellParser.MarkersOfText | sdk/src/telephony_client.c:175-187 | in a printed list the markers are its cells, one each, in order |
| CellParser.CellsRead | sdk/src/telephony_client.c:199-223 | from a cell's marker on, a key reads the first value listed from there |
| CellParser.ParseInvertsPrint | sdk/src/telephony_client.c:175-249 | for any printed list with any text between: each attribute is its own cell's value if listed, else the next later one, else what was there |
| CellParser.CompleteCellRecovered | sdk/src/telephony_client.c:175-249 | a cell that lists all six keys is recovered exactly, for all 32-bit values |
| CellText.CellsRecovered | sdk/src/telephony_client.c:175-249 | of any number of cells printed in the documented text, with the marker and the six keys written out, each comes back field by field with the constants assumed beside it |
| CellText.LineSpelt | sdk/src/telephony_client.c:175-177 | the documented text of a cell is the marker and what the parser's printer gives |
| PcmFrame.ProcessPcmFrame | sdk/include/audio_waveform_common.h:49-145 | window size, energy, peak and bands of any block |
| PcmFrame.Envelope | sdk/include/audio_waveform_common.h:113-139 | each band is the peak of its stride |
| PcmFrame.BandAtMostPeak | sdk/include/audio_waveform_common.h:117-135 | no band exceeds the peak, wrapped samples included |
| PcmFrame.EnvelopeShowsPeakIff | sdk/include/audio_waveform_common.h:113-139 | some band equals the peak if and only if the peak is zero or is reached before the last n % 32 samples |
| PcmFrame.WholeBlockShowsPeak | sdk/include/audio_waveform_common.h:113-139 | so it always does when 32 divides the sample count |
| PcmFrame.PeakIsLoudestIff | sdk/include/audio_waveform_common.h:75-81 | the peak is the largest magnitude if and only if no sample is -32768 |
| PcmFrame.EnergyBounds | sdk/include/audio_waveform_common.h:65-71 | loudest squared at most the energy, at most the count times that, on every block |
| PcmFrame.RmsAtMostPeak | sdk/include/audio_waveform_common.h:89-93 | without -32768: mean square at most peak squared, and peak below 1 |
| PcmFrame.FullScaleReportsSilence | sdk/include/audio_waveform_common.h:75-93 | a block of -32768 reports peak 0 and mean square 1 |
| ModuleRegistry.RunKeepsInv | sdk/src/android_core.c:199-347 | every interleaving of mutex sections keeps table and linker calls in agreement |
| ModuleRegistry.OpensBalanceCloses | sdk/src/android_core.c:227-285 | properly paired calls leave opens minus closes at one or zero |
| ModuleRegistry.OpensMinusCloses | sdk/src/android_core.c:101-297 | in every interleaving and for every dlopen outcome: opens minus closes is one exactly when loaded, loaded exactly when the handle is set, and the core stays loaded and is never opened or closed |
| ModuleRegistry.LoadedAfterIff | sdk/src/android_core.c:199-297 | whether a module is loaded after a run is decided by the last section that loads or unloads it |
| ModuleRegistry.SearchHitsLoadedIff | sdk/src/android_core.c:315-333 | a lookup that loads finds the module still loaded if and only if the sections in the gap leave it so |
| ModuleRegistry.SearchUsesHeld | sdk/src/android_core.c:315-341 | every search uses the handle that the linker's account says the module holds, RTLD_DEFAULT for the core, and a null handle only when a loaded module has been unloaded in between |
| ModuleRegistry.UnloadInGapMisses | sdk/src/android_core.c:319-333 | an unload in the gap makes it search a null handle |
| ModuleRegistry.ShutdownClosesAll | sdk/src/android_core.c:127-159 | from every reachable state shutdown closes each remaining library once and leaves nothing open |
| ModuleContext.NaclContext.constructor | sdk/src/android_core.c:101-121 | only the core is loaded |
| ModuleContext.NaclContext.LoadModule | sdk/src/android_core.c:199-253 | success exactly when the module is loaded afterwards; an invalid type changes nothing |
| ModuleContext.NaclContext.UnloadModule | sdk/src/android_core.c:257-297 | the module is not loaded afterwards; the core cannot be unloaded |
| ModuleContext.NaclContext.GetSymbol | sdk/src/android_core.c:301-347 | a run of sections with other threads in both gaps; a symbol only when the search took place |
| ModuleContext.NaclContext.Shutdown | sdk/src/android_core.c:127-159 | every module has as many closes as opens |
| SensorStream.StepRefinesBag | sdk/src/sensors_daemon.c:113-279 | each event acts on the table as on a bag of at most eight clients |
| SensorStream.RunRefinesBag | sdk/src/sensors_daemon.c:113-279 | every run of the table is a run of the bag |
| SensorStream.VisitedDropsDead | sdk/src/sensors_daemon.c:157-221 | clearing slots while walking them touches none still to be visited and takes away exactly the failed clients |
| SensorStream.CountIsOccupancy | sdk/src/sensors_daemon.c:113-279 | over every run of positive descriptors the count is the number of occupied slots, from 0 to 8, and positive only while the sensor is on |
| SensorStream.StaleAfterDisconnectIff | sdk/src/sensors_daemon.c:577-587 | a disconnected client is still in the table if and only if it had two slots |
| SensorStream.StepIdlesOnIff | sdk/src/sensors_daemon.c:135-279 | one event leaves the sensor on for nobody if and only if it was on, the event is no request, and it leaves no client |
| SensorStream.RunIdlesOnIff | sdk/src/sensors_daemon.c:113-279 | over every run, the sensor is on for nobody if and only if the last clients went by a hang-up or a failed write and no request came since |
| SensorStream.DisconnectLeavesSensorOn | sdk/src/sensors_daemon.c:577-587 | the shortest such run |
| SensorsDaemon.Daemon.AddStreamingClient | sdk/src/sensors_daemon.c:113-131 | the first free slot is taken, a full table is left alone |
| SensorsDaemon.Daemon.RemoveStreamingClient | sdk/src/sensors_daemon.c:135-153 | the first slot with the descriptor is freed, if any |
| SensorsDaemon.Daemon.BroadcastSensorEvent | sdk/src/sensors_daemon.c:157-221 | every client in the table when it began is written to once per slot, the event only behind a header that went out |
| SensorsDaemon.AttemptsCount | sdk/src/sensors_daemon.c:157-221 | each client is sent as many headers as it has slots, and an event for each of them whose header was not lost |
| SensorsDaemon.EventsFollowHeaders | sdk/src/sensors_daemon.c:171-199 | nothing is sent to an empty slot, and an event only right behind its header |
| SensorsDaemon.Daemon.HandleClientRequest | sdk/src/sensors_daemon.c:225-311 | response and table for every header; a start into a full table still answers OK |
| SensorsDaemon.Daemon.ClientDisconnected | sdk/src/sensors_daemon.c:577-587 | one slot freed, sensor untouched |
| SensorsDaemon.Daemon.CountIsRight | sdk/src/sensors_daemon.c:69-153 | in every state of the daemon the count is that of the bag and a positive count means the sensor is on |

## Left out

- Memory order: acquire and release are interleavings of sequentially consistent steps; reorderings they would still allow are not modelled.
- Bridge creation, destruction racing with a post, the `is_running` flag, several producers: the code is written for one producer and does not synchronise destruction.
- Socket set-up, accept loops, epoll, file-descriptor passing, directory modes: a connection begins where the first byte can flow.
- Shell commands are the bytes before their NUL.
- Null pointers and failed allocation: pointers the code checks for NULL are options where a caller can pass NULL, and allocation always succeeds.
- Descriptor 0 as a streaming client: the server socket is opened before any client is accepted (sdk/src/sensors_daemon.c:391), so 0 is taken by then.
- Hard write failures inside a frame: with one, the broker's reply may be cut; the frame theorem is for writes that complete.
- Interleaving of the two broker processes: the daemon's turn comes where the client waits, which a strict request and reply permits.
- Several clients of one Bluetooth daemon at a time, and devices found during a list request, which its list mutex excludes; devices found between requests are in `BrokerScans`.
- The Wi-Fi service is a function from the request's bytes to its reply.
- Transaction ids kept in static counters are parameters of the Bluetooth client calls.
- BleClient.GetDiscoveredDevices: the records are claimed only while `max_count` times 90 and the daemon's list fit in 32 bits, because both lengths wrap beyond that, and while the daemon's single reads and writes move its 18-byte headers whole, because it does not retry them.
- BrokerClient.DevicesThroughBroker: under the same conditions on the Bluetooth daemon.
- CopyProvenance.SnapshotIff: compares with the update at the flag check; a copy overtaken as a whole may be one later update's.
- Telemetry values are exact reals; the daemon computes them in single precision and the client prints three or four digits.
- Token signing, key files and the text of messages: the signing library is an oracle that may fail for each token.
- The handshake and the OPEN are determined for remotes whose packets fit the reader's buffer and arrive; other remotes are covered by `ScriptBinding.Drive`.
- The script binding turns its output into a JavaScript string, which ends at the first NUL; the model keeps the bytes.
- "%d" beyond 64 bits saturates and is cut to 32 in the model, as the common C libraries do; the standard leaves it open.
- The square root, the logarithm and floating-point rounding of the PCM frame: amplitudes are integers or exact reals.
- The module table's error text, `is_module_loaded` (which reads without the mutex) and use after shutdown.
- RTLD_DEFAULT is the null handle, as on 64-bit Android.
- Sensor requests whose header arrives in pieces, which the daemon drops, and the payload that follows a header.
- `ipc_crypto.c`, the Vulkan, camera, NFC, USB and JNI sources, the other service mocks, QuickJS stubs and all user interfaces: driver calls, or weaker versions of what is here.
