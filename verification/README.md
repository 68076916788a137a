# A verification model of SynCE

SynCE connects a Linux host to Windows Mobile devices.  This project models the parts of it where the state
is hardest to keep in one's head, in Dafny, and proves what they are for.  `dafny verify dfyconfig.toml`
checks everything.

**RNDIS driver** (`kmod/rndis-activesync/rndis_host.c`).  `Skb.dfy` is the socket buffer: one allocation,
four indices.  `RndisFraming.dfy` has the receive loop over a batch and the transmit path with its three
buffer strategies; `RndisBatch.dfy` says what a batch is without mentioning the loop, proves that the loop
delivers the longest well-formed prefix of any standard input, that transmit and receive are inverse, and
exactly when the loop fails to end.  `RndisControl.dfy` is the request/reply protocol with its transaction
ids, `RndisMtu.dfy` the size negotiation.

**The daemon's devices** (`dccm/`).  `InfoPacket.dfy` parses the packet a device introduces itself with.
`ControlChannel.dfy` (RNDIS devices) and `LegacyControl.dfy` (older ones) are the control connections:
handshake, packet, password exchange, and the ways a login can get stuck.  `Connections.dfy` matches the connections a device makes to the
callers that asked for them, and `Device.dfy` puts the two together.  `DeviceManager.dfy` is the list of
devices with its timers.  Each callback of the single-threaded main loop is one step of a transition system;
invariants are proved over all runs.  `DeviceRndis.dfy`, `DeviceLegacy.dfy` and `ManagerCallbacks.dfy` are
the callbacks themselves, as classes that update their fields, proved to do what the steps say.

**The client library** (`lib/rapi/rapi2_api.c`).  `DeviceSignals.dfy` relates the daemon's signals to its set of
ready devices.  `ClientMirror.dfy` runs daemon, bus and client as processes with an in-order queue between them,
signals about the daemon's name included, and says exactly when the client's device list mirrors the daemon's.
`RapiObjects.dfy` and `RapiRuns.dfy` account for every reference among desktop, devices, enumerators, sessions and
the program, and for the signal handlers the library leaves connected; `RapiHoldings.dfy` says what each call gives
and takes, `RapiEnums.dfy` what enumerators hand out; `RapiMirror.dfy` shows that the client's
handlers are those of the mirror; `RapiLibrary.dfy` is the class.  `SinkRegistry.dfy` hands out listener numbers,
`Guid.dfy` prints and scans device ids.

**Data movers.**  `FuseIO.dfy` (`fuse/synce-fuse.c`) reads and writes in chunks under every schedule of short
transfers; `MirrorBackup.dfy` (`tools/pbackup.c`) copies a device's tree.

`Bytes.dfy`, `Basics.dfy` and `Wrappers.dfy` hold what several of these share.

## Where the code falls short

The model follows the code.  These properties hold only under a condition, which is proved exact:

- The receive loop does not end by itself when a turn leaves the buffer as it found it (`EndsIffNoStall`).  The
  headers that do this are given in closed form (`StallingHeader`); it takes one accepted though its data offset and
  length wrap around 32 bits (`StallNeedsWrap`, `WrapCanStall`).
- When memory for a clone is short, the rest of the batch goes up as one packet, headers and all, and no error is
  reported (`RunsOutOfClones`).
- A device that is to be unlocked on its own screen is taken for unlocked also when the read of its report falls
  short over a buffer that happens to hold zeros: the number of bytes read is not looked at
  (`EntersConnectedIff`, `UnlockedUnheard`).  A report that leaves anything but a zero word is the last one read
  (`AbandonedIff`).
- Once a password is wanted, a login is locked out for good, with a caller recorded and every later one refused,
  exactly if a password could not be written or the read of the device's verdict brought something else than two
  bytes (`LockedOutIff`, `LegacyLockedOutIff`).  In the second case the recorded caller is never answered
  (`LostVerdictStrands`).  Both can happen (`LockOutsReachable`).
- A connection stalls before that, callers being refused for good, exactly if a handshake message or length is not
  whole or not known, or the packet is not whole or cannot be read (`StalledIff`).
- The parser of the information packet reads past the packet exactly if it comes to a string whose count it accepts
  and that has no terminator up to the packet's end (`ReadsPastIff`, `ReadsPast`).  No packet it gets a password key
  from is read past (`KeyMeansInside`).
- A caller's request for a connection is answered twice exactly if the message for it could not be written and a
  connection later carries its id, its broker having been kept (`AnsweredTwiceIff`, `AnsweredTwice`).
- A connection to port 990 is cast to the wrong kind of device exactly if the entry's device came by port 5679
  (`MiscastIff`).
- The client mirrors the daemon from some quiet moment on exactly if no device became ready between its latest proxy
  and snapshot, and it did not ask in the race: the daemon took its name after the client began to listen for that and
  before it asked whether the name has an owner (`MirrorExact`).  In the first case a device is listed twice
  (`TwiceIff`, `ListedTwice`); in the second the client connects twice, takes two snapshots into one list, and from
  then on handles each signal once per handler (`ConnectedTwice`, `NextListedTwice`).
- The library uses a desktop that does not exist, or frees one in use, in three cases only (`FaultIff`).  The daemon
  is lost while the program holds no reference to the desktop and only the list keeps any device (`OfflineFaultIff`,
  `LossFaults`).  A signal runs a handler that was left connected; such a handler exists exactly if a desktop was
  freed after it had connected a second time (`StaleIff`, `StaleSignalFaults`).  Or the last device goes of an orphan,
  a desktop whose making failed when it listened for the daemon's name already: what is freed then is not the orphan
  but the desktop of the program, if there is one.  Signals can lead to this exactly if the making of a desktop has
  failed so (`OrphanFaultIff`, `OrphanFreesDesktop`).
- A backup that reports success has the device's files exactly if no read brought nothing before the end of its file,
  which is taken for the end, and closing each file flushed it (`SuccessMirrorsIff`); a failed copy can leave an empty
  file, or a part that could not be removed (`LeavesExpected`, `LeftBehind`).
- Writing a file ends exactly if no transfer is reached from which on nothing moves, though all report success
  (`WriteEndsIff`).

Two comments in the source say something else than its code.  `rndis_rx_fixup` does not stop at "at most one
packet left": for fields that do not wrap, its unsigned test is true only when the payload ends the buffer, so
stray zero bytes after a batch make it report an error (`ZerosAfterBatch`).  `IRAPIEnumDevices_Clone` does not copy
the enumeration state: the copy starts at the first device.

## Model

The methods of `DeviceRndis.dfy`, `DeviceLegacy.dfy`, `ManagerCallbacks.dfy` and `RapiLibrary.dfy` are each proved to do
to the fields what a step of the transition systems says; only those whose loops take an argument have rows.

| member | source | states |
|---|---|---|
| SocketBuffer.Skb.Pull | kmod/rndis-activesync/rndis_host.c:524-536 | pulling moves the data pointer within the data or, asked for too much, not at all; the allocation stays |
| SocketBuffer.Skb.Trim | kmod/rndis-activesync/rndis_host.c:528-537 | trimming only ever shortens the data, at its end |
| SocketBuffer.Skb.Slide | kmod/rndis-activesync/rndis_host.c:567-573 | the overlapping memmove keeps the contents and the order head, data, tail, end |
| SocketBuffer.Skb.Clone | kmod/rndis-activesync/rndis_host.c:532-535 | a clone is a second descriptor over the same bytes |
| RndisFraming.UsbNet.ReceiveFixup | kmod/rndis-activesync/rndis_host.c:494-549 | packets handed up, what is left in the buffer, the result and the error counter are those of the loop's specification, for every buffer and every point at which cloning fails |
| RndisFraming.UsbNet.TransmitFixup | kmod/rndis-activesync/rndis_host.c:553-597 | all three buffer strategies send the same bytes, header and payload; nothing is sent exactly when a needed copy fails; a cloned buffer is left alone |
| RndisFraming.RxTurn | kmod/rndis-activesync/rndis_host.c:505-547 | one turn of the loop: a bad header ends it with one error counted, the last packet stays in the buffer, others go up |
| RndisBatch.ParsesBatch | kmod/rndis-activesync/rndis_host.c:505-549 | on a list of packet messages, padding allowed, then nothing or a message that is refused, the loop delivers all payloads, keeps the last in the buffer if it ends it, and counts one error if something was refused |
| RndisBatch.SegmentsAreLongest | kmod/rndis-activesync/rndis_host.c:505-549 | no list of messages at the front of a buffer goes further than the prefix the driver is said to parse |
| RndisBatch.DeliversLongestPrefix | kmod/rndis-activesync/rndis_host.c:505-549 | for every standard input the outcome is that of its longest well-formed prefix |
| RndisBatch.FramedWords | kmod/rndis-activesync/rndis_host.c:588-597 | the bytes sent, word by word: type 1, the whole length, data offset 36, the payload's length, seven words of zeros, the payload |
| RndisBatch.RoundTrip | kmod/rndis-activesync/rndis_host.c:494-598 | frames transmitted one after the other and received as one batch come out unchanged and in order, the last one left in the buffer |
| RndisBatch.ZerosAfterBatch | kmod/rndis-activesync/rndis_host.c:525-549 | stray zero bytes after a batch: all its payloads are delivered, then an error is returned |
| RndisBatch.ShortRefused | kmod/rndis-activesync/rndis_host.c:498-500 | a buffer shorter than the device's header is refused untouched, with no error counted |
| RndisBatch.RunsOutOfClones | kmod/rndis-activesync/rndis_host.c:532-549 | when cloning fails at some message of a batch but the last, the payloads before it have gone up, and the rest from its payload on, later headers included, is returned as one packet without an error |
| RndisBatch.StallSpins | kmod/rndis-activesync/rndis_host.c:505-549 | once a turn leaves the buffer as it was, the loop goes on as long as clones can be made |
| RndisBatch.NoStallEnds | kmod/rndis-activesync/rndis_host.c:505-549 | otherwise it ends after at most as many turns as there are bytes |
| RndisBatch.EndsIffNoStall | kmod/rndis-activesync/rndis_host.c:505-549 | the loop ends by itself exactly when no turn stalls |
| RndisBatch.StallingHeader | kmod/rndis-activesync/rndis_host.c:516-547 | the headers that keep the loop in place, in terms of their fields and the bytes left: both pulls change nothing and the packet is not the last |
| RndisBatch.StallNeedsWrap | kmod/rndis-activesync/rndis_host.c:509-517 | whatever the data offsets, only a header whose fields wrap around 32 bits can stall the loop |
| RndisBatch.WrapCanStall | kmod/rndis-activesync/rndis_host.c:509-517 | such a header exists and is accepted |
| RndisBatch.CursorLandsOnMessageEnd | kmod/rndis-activesync/rndis_host.c:525-547 | for fields that do not wrap, the cursor ends up behind the message just handed over exactly for data offset 36, or when the data pointer already stands at the end of the message and the second pull is refused, the message being shorter than a header, or fewer bytes being left behind it than its length less a header |
| RndisControl.RndisHost.Command | kmod/rndis-activesync/rndis_host.c:91-208 | after at most ten reads: success only with a completion of the request's own type and id in the buffer, and a status of success unless it completes a reset; every ping before it answered, and each failure with its code |
| RndisControl.RndisHost.Query | kmod/rndis-activesync/rndis_host.c:227-275 | the first message sent is the query for the object asked for, word by word; the call succeeds exactly when the answer's reply region lies inside the control buffer and has the length asked for, then it is that region, and otherwise the code says which step failed |
| RndisControl.XidCycle | kmod/rndis-activesync/rndis_host.c:105-114 | ids run through 1 to 2^32-1 in a cycle, over any mix of commands |
| RndisControl.XidsRepeatByCycle | kmod/rndis-activesync/rndis_host.c:105-114 | ids are never zero, and two commands share one exactly when whole cycles lie between them |
| RndisControl.StaleRepliesRejected | kmod/rndis-activesync/rndis_host.c:150-170 | in a run of fewer than 2^32 commands a reply to one is never taken for the reply to another |
| RndisControl.AnswerBringsItsId | kmod/rndis-activesync/rndis_host.c:141-161 | what is taken for a reply has brought its id with it: every byte of the id that is not zero is one of those read, and there is one |
| RndisControl.PongEchoesId | kmod/rndis-activesync/rndis_host.c:175-193 | the answer to a ping names that ping and reports success |
| RndisControl.EveryPingAnswered | kmod/rndis-activesync/rndis_host.c:175-193 | of the reads before the answer, exactly those that bring a ping are answered, each with its own pong, in order |
| RndisMtu.NetDevice.Bind | kmod/rndis-activesync/rndis_host.c:334-372 | binding succeeds exactly when init does and the device takes the limit or more than a header, for all 32-bit sizes, and fails with the code of the step that failed; if no sum wraps around, the frame limit is within the device's, the receive size the one multiple of the packet size in the packet-long stretch above it, and every frame within the MTU fits once framed |
| RndisMtu.MaskRoundsDown | kmod/rndis-activesync/rndis_host.c:345-346 | masking with the complement of 2^k-1 rounds down to a multiple of 2^k |
| RndisMtu.UrbSizeIsNextMultiple | kmod/rndis-activesync/rndis_host.c:345-346 | for a power-of-two packet size the receive size is a multiple of it, and above the frame limit exactly if the sum does not wrap around |
| InfoPacket.InfoReceived | dccm/synce-device-rndis.c:33-184 | every read of a fixed width is inside the buffer, whatever the bytes; the result is the specified parse, password key included where parsing gets that far, and the farthest read, those of the strings included, is the specified one |
| InfoPacket.RoundTrip | dccm/synce-device-rndis.c:47-184 | parsing the encoding of any record with strings within the limits gives back every field and the key |
| InfoPacket.ParsedIff | dccm/synce-device-rndis.c:47-165 | a packet is accepted exactly if the parser comes to its key and nothing, or extra data whose size fits, follows; the key is stored once the parser has come to it |
| InfoPacket.UnicodeText | dccm/utils.c:152-178 | a name is refused exactly if its count exceeds the buffer or the limit; else it takes what the count says, and its text is what stands there up to the first zero |
| InfoPacket.AsciiText | dccm/utils.c:180-206 | the same for strings of bytes |
| InfoPacket.ReadsPastIff | dccm/utils.c:152-206 | the parser reads past the packet exactly if it comes to a string whose count is accepted and not zero and that has no zero unit or byte up to the packet's end |
| InfoPacket.KeyMeansInside | dccm/synce-device-rndis.c:126-156 | a packet from which a password key is taken is never read past: its component count ends every string |
| InfoPacket.ReadsPast | dccm/utils.c:152-178 | a packet of thirty bytes whose name is accepted and read past the end |
| ControlChannel.StreamDiscipline | dccm/synce-device-rndis.c:201-450 | in every reachable state at most one control read is in flight, of the size the stage expects; no ProvidePassword call is answered twice, and all are answered but the one being checked, which is never answered once the read for its verdict is over |
| ControlChannel.KeepsInv | dccm/synce-device-rndis.c:258-451 | every callback keeps that discipline and what each stage says about flags, key, recorded caller, answers and last message sent |
| ControlChannel.SentIsCalledFor | dccm/synce-device-rndis.c:270-450 | over any run exactly this is written to the device, in order: 3 for a whole word 0 of the handshake, 7, 8, 4, 5 for 6, 8 for a packet with the key of a device to be unlocked on its own screen, 0 and then 12 for its zero report, and each password that is wanted and can be written |
| ControlChannel.ToldIff | dccm/synce-device-rndis.c:385-400 | a caller is told that its password is accepted, or rejected, exactly if that is the verdict the device gave while the caller was recorded |
| ControlChannel.LogsIn | dccm/synce-device-rndis.c:258-400 | with any device that has a password of the older kind a run of seven steps logs in |
| ControlChannel.StageNeverDecreases | dccm/synce-device-internal.h:17-31 | in any run the stage never goes back and an answer given stays given |
| ControlChannel.EntersConnectedIff | dccm/synce-device-rndis.c:370-450 | CONNECTED is entered exactly when the packet says there is no password, the device accepts the password last sent for the recorded caller, it reports being unlocked, or the read of that report falls short over zeros |
| ControlChannel.ConnectedHasReason | dccm/synce-device-rndis.c:201-450 | so whenever a run is CONNECTED one of these has happened |
| ControlChannel.UnlockedUnheard | dccm/synce-device-rndis.c:403-450 | the short read is reachable: over a zero buffer, a connection that breaks while the host waits makes a device still to be unlocked count as CONNECTED |
| ControlChannel.SentIffReady | dccm/synce-device.c:135-169 | a password goes to the device exactly when one is wanted, none is being checked and it can be written; any other caller is refused at once |
| ControlChannel.LockedOutIff | dccm/synce-device-rndis.c:372-400 | in any run a caller stays recorded with no answer of the device awaited exactly if some wanted password could not be written or some read of a verdict brought other than two bytes |
| ControlChannel.LockOutStays | dccm/synce-device.c:109-186 | nothing ends this: each later caller is refused at once and nothing is read or sent any more |
| ControlChannel.LostVerdictStrands | dccm/synce-device-rndis.c:377-382 | after such a read its caller, and no other, is never answered |
| ControlChannel.FailedWriteLocksOut | dccm/synce-device.c:142-163 | after a password that could not be written the login never completes, and everyone is answered |
| ControlChannel.LockOutsReachable | dccm/synce-device-rndis.c:372-400 | against any device with a password of this kind both ways can be taken, the second with every password written |
| ControlChannel.AbandonedIff | dccm/synce-device-rndis.c:403-450 | a device to be unlocked on its own screen is given up exactly when a read leaves anything but a zero word in the buffer |
| ControlChannel.StalledIff | dccm/synce-device-rndis.c:258-368 | in any run the connection is stalled before a password is wanted, no read in flight, exactly if a handshake message or length was not whole or not known, or the packet was not whole or could not be read |
| ControlChannel.StallStays | dccm/synce-device.c:109-140 | nothing ends this: each caller is refused at once |
| ControlChannel.AbortsIff | dccm/synce-device-rndis.c:336-352 | the process stops for want of memory exactly on a whole length of 2^31 or more, or one whose buffer cannot be had |
| LegacyControl.LegacyRunInv | dccm/synce-device-legacy.c:224-355 | in every reachable state before CONNECTED at most one read, of the expected size; the key is the low byte of the last challenge; no caller is answered twice |
| LegacyControl.LegacyStageNeverDecreases | dccm/synce-device-legacy.c:237-326 | in any run the stage never goes back |
| LegacyControl.LegacyEntersConnectedIff | dccm/synce-device-legacy.c:199-210 | CONNECTED is entered exactly on a readable packet with no challenge, or one with low byte zero, or on an accepted password |
| LegacyControl.LegacyConnectedHasReason | dccm/synce-device-legacy.c:237-326 | so whenever a run is CONNECTED one of these has happened |
| LegacyControl.LegacyLockedOutIff | dccm/synce-device-legacy.c:295-326 | a legacy login is locked out exactly if a wanted password could not be written or a verdict read brought other than two bytes |
| LegacyControl.LegacySentIsCalledFor | dccm/synce-device-legacy.c:52-80 | over any run exactly the passwords that are wanted and can be written, and the pings, are written to the device |
| LegacyControl.LegacyToldIff | dccm/synce-device-legacy.c:295-326 | a caller is told that its password is accepted, or rejected, exactly if that is the device's verdict |
| LegacyControl.LegacyStalledIff | dccm/synce-device-legacy.c:237-292 | the connection is stalled before a password is wanted exactly if a header was not whole or too small, or the packet not whole or not readable |
| LegacyControl.LegacyLogsIn | dccm/synce-device-legacy.c:237-326 | with any challenge and any packet of a possible size a run of six steps logs in |
| LegacyControl.LegacyIdle | dccm/synce-device-legacy.c:328-355 | once CONNECTED the host pings, and after each ping reads on as long as empty headers come; nothing else changes |
| Connections.RequestsMatch | dccm/synce-device-rndis.c:455-590 | in every reachable state each table key is its broker's id, a connection is with the broker whose id it carried, a caller whose message was written is answered once its broker has a connection and never twice, and no descriptor or connection is passed twice |
| Connections.AnsweredTwiceIff | dccm/synce-device-rndis.c:499-512 | over any run no caller is answered more than twice, and twice exactly if its message could not be written and a connection later carries its id while the broker is open |
| Connections.AnsweredTwice | dccm/synce-connection-broker.c:291-300 | the second answer is reachable |
| Connections.KeepsInv | dccm/synce-device-rndis.c:455-590 | every callback, a request whose message cannot be written included, keeps the table, the answers and the connections in order |
| Connections.PassedToItsCaller | dccm/synce-connection-broker.c:197-323 | a descriptor passed to a client goes back to a request by the caller its id was issued to, then a connection that carried the id while the request was open, then a client that came for it; one connection per id, one id per connection |
| Connections.PassedIff | dccm/synce-connection-broker.c:197-249 | over any run a connection's descriptor is passed exactly if the connection carried the id of an open request and a client that could be reached came for that id after it |
| Connections.IncomingRemoves | dccm/synce-connection-broker.c:244-247 | once a client has come for an id, reached or not, the id is out of the table for good |
| Connections.TwoPassed | dccm/synce-connection-broker.c:197-249 | a run in which two callers get one descriptor each |
| Connections.AssertionFiresIff | dccm/synce-connection-broker.c:261-263 | the assertion fails exactly when the device repeats an id whose broker has a connection and is still in the table |
| Connections.FreshIdsNeverAbort | dccm/synce-connection-broker.c:261-263 | a device that uses each id once never makes it fail |
| Connections.RepeatedIdAborts | dccm/synce-connection-broker.c:261-263 | the failing assertion is reachable |
| Device.KeepsInv | dccm/synce-device-rndis.c:455-475 | no request is open unless the control connection is CONNECTED |
| Device.NothingBeforeLetIn | dccm/synce-device-rndis.c:468-491 | no broker exists, nothing is asked of the device and no descriptor passed before the device has let the host in |
| DeviceManager.KeepsInv | dccm/synce-device-manager.c:69-417 | every callback keeps entries and timers in step |
| DeviceManager.TimersMatchEntries | dccm/synce-device-manager.c:69-417 | in every reachable state a pending interface has the check timer, a retry timer is live for an entry exactly when its id says so, none is left of an entry that is gone, and a device gets at most eleven triggers |
| DeviceManager.RetryProgress | dccm/synce-device-manager.c:239-255 | a retry timer that fires finds its entry, and either ends or has sent one more of ten retries |
| DeviceManager.WalkKeeps | dccm/synce-device-manager.c:330-367 | the walk over all entries keeps entries and timers in step, wherever it breaks off |
| DeviceManager.PlugAdds | dccm/synce-device-manager.c:385-417 | a new interface is listed last and pending, and the check timer runs |
| DeviceManager.WalkSetsUp | dccm/synce-device-manager.c:258-367 | the walk sets up each entry it comes to whose address is free, with first trigger and retry timer for an RNDIS device, leaves all others as they were, and breaks off exactly if there is no socket for one |
| DeviceManager.CheckEndsIff | dccm/synce-device-manager.c:367-381 | the check timer ends exactly when the walk has come to every entry and none is pending any more |
| DeviceManager.ConnectMakes | dccm/synce-device-manager.c:194-235 | the first connection to one of the two ports makes the device if it can be made, and on port 990 ends the retries; no other changes either |
| DeviceManager.OthersStay | dccm/synce-device-manager.c:69-417 | a callback that concerns one entry leaves all others as they were, and a lost device takes its entry out |
| DeviceManager.MiscastIff | dccm/synce-device-manager.c:194-219 | over any run an entry's device is of the kind of the port whose connection made it, and a connection to port 990 after that is handed to it if it is an RNDIS device and cast to the wrong kind if it is a legacy one |
| ManagerCallbacks.SynceDeviceManager.ProbeAll | dccm/synce-device-manager.c:339-367 | the walk over the list as specified, from its first entry |
| ManagerCallbacks.SynceDeviceManager.GetConnectedDevices | dccm/synce-device-manager.c:467-508 | the paths of the exported devices, in list order |
| ManagerCallbacks.PathsAreReady | dccm/synce-device-manager.c:467-508 | those are the ready paths and no others |
| DeviceSignals.ReadyStep | dccm/synce-device-manager.c:92-151 | a signal is emitted exactly when the set of ready paths changes, and says how; each path belongs to one device |
| DeviceSignals.SnapshotOnce | dccm/synce-device-manager.c:467-508 | the snapshot lists each ready path once |
| ClientMirror.HistoryInv | lib/rapi/rapi2_api.c:1823-2397 | over every interleaving of daemon, bus, queue and client, what the queue will make of the client's list is known path by path as long as it has one handler; it has, or is about to have, more exactly if it asked for the daemon's name in the race |
| ClientMirror.MirrorExact | lib/rapi/rapi2_api.c:1823-2397 | whenever no signal is on its way, a client that did not ask in the race lists each ready device once, and once more those that became ready between proxy and snapshot; it mirrors the daemon then and at every later such moment exactly if there were none of these and it did not ask in the race |
| ClientMirror.TwiceIff | lib/rapi/rapi2_api.c:1949-2016 | those listed twice are the devices ready at the snapshot but not when the proxy was made; none, if none was exported in between |
| ClientMirror.NextListedTwice | lib/rapi/rapi2_api.c:1957-1973 | a client with more than one handler has a continuation in which it lists a device more than once |
| ClientMirror.ListedTwice | lib/rapi/rapi2_api.c:1949-2016 | a run in which a device becomes ready between proxy and snapshot |
| ClientMirror.ConnectedTwice | lib/rapi/rapi2_api.c:2236-2397 | a run through the race that lists a device twice though none became ready since before the client asked |
| ClientMirror.OfflineEmpties | lib/rapi/rapi2_api.c:1926-1946 | when the client hears that the daemon has gone its list is empty |
| RapiMirror.SignalsMirrored | lib/rapi/rapi2_api.c:1823-1923 | the library's handlers do to its list of objects what the mirror does to its list of paths |
| RapiMirror.ConnectMirrored | lib/rapi/rapi2_api.c:1949-2016 | connecting appends the snapshot's paths in order, whether or not a proxy is overwritten |
| RapiMirror.GetMirrored | lib/rapi/rapi2_api.c:2293-2473 | a desktop that has to be made lists the snapshot's devices in order; one that exists stays as it is |
| RapiMirror.OrphanMirrored | lib/rapi/rapi2_api.c:1833-2016 | an orphan does with its own list what the mirror does |
| RapiMirror.OfflineMirrored | lib/rapi/rapi2_api.c:1926-1946 | losing the daemon without a fault keeps exactly the devices of others, in order |
| RapiObjects.ReleaseKeeps | lib/rapi/rapi2_api.c:1466-1479 | releasing a reference one holds keeps every count right, through the freeing of device and desktop |
| RapiObjects.DesktopReleaseKeeps | lib/rapi/rapi2_api.c:2405-2505 | the last reference to the desktop goes only when no device is left, so there is none to take off its list |
| RapiObjects.EnumHoldsDevices | lib/rapi/rapi2_api.c:1724-1734 | what Next hands out without a reference of its own is alive as long as the enumerator is |
| RapiObjects.DisconnectKeeps | lib/rapi/rapi2_api.c:1875-1920 | the disconnect signal keeps every count right, with a reference for each listener told |
| RapiObjects.EnumReleaseKeeps | lib/rapi/rapi2_api.c:1648-1663 | freeing an enumerator gives back exactly its references |
| RapiObjects.CloneKeeps | lib/rapi/rapi2_api.c:1675-1698 | a copy takes a reference to each device |
| RapiObjects.OfflineFaultIff | lib/rapi/rapi2_api.c:1926-1946 | the desktop is used after it is freed exactly when the program holds no reference to it and only the list keeps any device, all of them dccm's |
| RapiObjects.OrphanDropIff | lib/rapi/rapi2_api.c:2405-2505 | when the last reference to an orphan goes, the desktop freed does not exist or is still referred to |
| RapiRuns.KeepsInv | lib/rapi/rapi2_api.c:1453-2635 | every function and signal handler, a failed making of the desktop and the handlers of orphans included, keeps all counts right |
| RapiRuns.CountsMatch | lib/rapi/rapi2_api.c:1453-2594 | in every reachable state a device's count is one if listed, plus enumerators, sessions and the program's references; the desktop's the program's and the live devices; an object is alive exactly while its count is not zero |
| RapiHoldings.HeldStep | lib/rapi/rapi2_api.c:1453-2635 | each call gives the program one reference to each object it hands out or adds a reference to, and takes those it releases; listeners get one to each device they are told of; no other call or signal changes what the program holds |
| RapiEnums.EnumeratesAll | lib/rapi/rapi2_api.c:2571-2594 | whatever happens in between, Next called on a new enumerator hands out the devices listed when it was made, in order, each once, and says there are no more exactly when it has handed out all; a copy starts at the first |
| RapiEnums.StartsOver | lib/rapi/rapi2_api.c:1724-1770 | after Reset it starts over, and after Skip goes on behind what was skipped |
| RapiRuns.FaultIff | lib/rapi/rapi2_api.c:1823-1946 | the library uses a desktop that does not exist, or frees one in use, in three cases only: the daemon is lost while only the list keeps the desktop, a signal runs a handler left over from a freed desktop, or the last device goes of a desktop whose making had failed |
| RapiRuns.OrphanStep | lib/rapi/rapi2_api.c:2293-2380 | what happens to an orphan changes no object of the program until its last device goes |
| RapiRuns.WiringStep | lib/rapi/rapi2_api.c:1957-2380 | a step leaves one more handler without a proxy that the desktop knows exactly if it connects a second time, these are left over when the desktop is freed, and one more orphan is left exactly if the making of a desktop fails |
| RapiRuns.StaleIff | lib/rapi/rapi2_api.c:2406-2440 | over any run a handler is left over exactly if a desktop was freed after it had connected a second time |
| RapiRuns.OrphanFaultIff | lib/rapi/rapi2_api.c:2340-2380 | at any time of a run, signals to orphans alone can lead to a fault exactly if the bus did not answer when a desktop was made |
| RapiRuns.LossFaults | lib/rapi/rapi2_api.c:1926-1946 | a run of three steps into the first fault |
| RapiRuns.StaleSignalFaults | lib/rapi/rapi2_api.c:1823-1846 | a run of four steps into the second, without losing the daemon |
| RapiRuns.OrphanFreesDesktop | lib/rapi/rapi2_api.c:2405-2437 | a run of four steps into the third: an orphan's last device frees the desktop to which the program holds a reference |
| RapiRuns.FreedOnce | lib/rapi/rapi2_api.c:97-115 | an object once freed stays freed: each is freed once, when its last reference goes |
| RapiLibrary.Rapi.UdevDisconnect | lib/rapi/rapi2_api.c:1926-1946 | the walk that starts over after each removal releases what one pass would |
| RapiLibrary.Rapi.IRAPIEnumDevicesSkip | lib/rapi/rapi2_api.c:1760-1770 | skips as many as there are, and succeeds exactly when there were enough |
| SinkRegistry.Registry.Advise | lib/rapi/rapi2_api.c:2518-2540 | the number given is the first free one going round from the cursor; no live registration is touched; the search ends if any number is free |
| SinkRegistry.Registry.UnAdvise | lib/rapi/rapi2_api.c:2552-2559 | that registration goes, the others and the cursor stay |
| SinkRegistry.EndsIffFree | lib/rapi/rapi2_api.c:2524-2534 | the search ends exactly when one of 1 to 2^32-2 is free, and otherwise never finds one |
| SinkRegistry.FirstFreeUnique | lib/rapi/rapi2_api.c:2524-2534 | which number is the first free one is determined |
| SinkRegistry.TableIsActive | lib/rapi/rapi2_api.c:2518-2559 | over any run the table holds exactly the registrations not yet undone |
| Guid.ScansWhatIsPrinted | lib/rapi/rapi2_api.c:51-82 | for every format of literals and hexadecimal fields, scanning what was printed gives the values back |
| Guid.RoundTrip | lib/rapi/rapi2_api.c:51-82 | a GUID prints as 38 characters that scan to the same GUID |
| Guid.FromStringIsGuid | lib/rapi/rapi2_api.c:51-64 | whatever text is scanned, a value found is a GUID: every field fits |
| Guid.FromBytesOnto | dccm/utils.c:138-150 | every GUID is the value of an id |
| Guid.DaemonTextFaithful | dccm/utils.c:138-150 | reading the daemon's text and printing it again gives the same text, and equal texts mean equal ids |
| Guid.DaemonTextIs | dccm/utils.c:138-150 | the text of an id byte by byte: braces, the first three groups little-endian, the rest in order |
| Guid.LowerCaseSame | lib/rapi/rapi2_api.c:51-64 | a GUID in lower case is read as the same one |
| Guid.FindDevice | lib/rapi/rapi2_api.c:2613-2635 | comparing texts finds the first device with an equal id, and fails only if there is none |
| FuseIO.Read | fuse/synce-fuse.c:287-309 | whatever the short transfers, the buffer gets what one read would give, up to the size or the end of the file, or to a transfer that succeeds with no bytes; failure is -EIO, from the seek or a transfer |
| FuseIO.Write | fuse/synce-fuse.c:311-332 | whatever the short transfers, the file becomes what one write would make it; a failure leaves a prefix written |
| FuseIO.WriteEndsIff | fuse/synce-fuse.c:323-329 | for every sequence of transfers that succeed, the loop ends exactly if none is reached from which on nothing moves |
| FuseIO.SeekExactIff | fuse/synce-fuse.c:295-298 | the offset asked for is the one used exactly below 2^31 |
| FuseIO.ReadsWhatIsWritten | fuse/synce-fuse.c:287-332 | a read gives back what a write put there, and the write changes nothing else |
| FuseIO.WriteTwice | fuse/synce-fuse.c:323-329 | writing in two parts is writing the whole |
| FuseIO.ReadTwice | fuse/synce-fuse.c:299-306 | reading in two parts is reading the whole |
| MirrorBackup.CleanMirrors | tools/pbackup.c:103-167 | when everything succeeds, each file is read to its end and flushed, the local tree has at each path what the device has there and elsewhere what it had before, and the totals are the number and size of the device's files |
| MirrorBackup.TotalsExact | tools/pbackup.c:56-167 | whatever was there before and whatever fails, the result is true exactly when no directory and no copy that was reached failed or clashed with what was there, and the totals count the files copied and the bytes moved |
| MirrorBackup.LeavesExpected | tools/pbackup.c:56-167 | path by path, a backup leaves of a file whose copy succeeded what closing it flushed of the bytes read; of a failed copy nothing, but for an empty file when there was no buffer and for the part written when it cannot be removed; and what was there before where it did not reach |
| MirrorBackup.SuccessMirrorsIff | tools/pbackup.c:75-100 | a backup that reports success, all directories listed, has the device's tree over what was there before exactly if no read brought nothing before the end of its file and closing each file flushed all of it |
| MirrorBackup.LeftBehind | tools/pbackup.c:68-100 | the empty file, the part that stays, the file that was not flushed and the one that was not read to its end, the last two reported as copied, and the loss of an old file are reachable |
| MirrorBackup.Pbackup.Copy | tools/pbackup.c:56-100 | the chunk loop leaves, reports and counts what is specified, whatever the short reads, an early one of no bytes included |
| MirrorBackup.Pbackup.BackupDir | tools/pbackup.c:103-167 | the walk visits every entry, also after a failure |

## Left out

- The rewriting of the destination address of received frames (`usbnet_cdc_zte_rx_fixup`, `dst_mac_fixup`).
- In `generic_rndis_bind`, the queries for medium and address and the packet filter: one parameter says how the rest of binding goes.
- RndisMtu.UrbSizeIsNextMultiple: only for power-of-two packet sizes; for others the mask is no rounding.
- RndisControl.StaleRepliesRejected: speaks of fewer than 2^32 commands, as ids repeat after that.
- RndisControl.RndisHost.Command: of a request whose length word goes beyond the control buffer the model sends what is in the buffer; no caller makes one.
- USB transfers: what each returned is a parameter.
- InfoPacket.RoundTrip: conversion of the name to UTF-8 is one yes-or-no parameter; the text itself is not converted.
- InfoPacket.ReadsPastIff: what is read past the end of a packet is not known; the model takes the text to end there.
- Connections.RequestsMatch: fewer than 2^32 requests per device, after which ids repeat.
- Brokers, device entries and the RAPI objects are table entries addressed by number, not heap objects with pointers: aliasing is not captured, use of something freed is a lookup that fails.
- DeviceManager.TimersMatchEntries: assumes that binding an address fails while the entry's own service listens on it, and that listening is set up once the service object exists.
- DeviceManager.KeepsInv: the build with gudev, where the disconnect signal of the control interface is ignored.
- The legacy devices' connections to the RAPI port, their second password check and the counting of unanswered pings; for them the one-read rule holds only up to CONNECTED.
- LegacyControl.LegacyRunInv: whether the strings of the information packet are in bounds is a parameter.
- ClientMirror.MirrorExact: one desktop, whose making succeeds, whose proxies can always be had and whose snapshot fails only if the daemon is gone; freed desktops and orphans are in `RapiRuns.dfy`.
- RapiRuns.FaultIff: listeners that call back into the library while they are being told are not modelled, nor is the lifetime of the device's info record in sessions, nor a bus that cannot be connected to at all; after a fault a run ends.
- RapiObjects.OrphanDropIff: orphans and what happens to them are values, outside the class in `RapiLibrary.dfy`.
- SinkRegistry.Registry.Advise: the caller must leave a number free, since the code then loops for ever; a listener that is a null pointer is not modelled.
- Guid.FromStringIsGuid: blanks, signs and a `0x` prefix, which sscanf also takes, are not modelled; a missing closing brace is.
- FuseIO.Read: sizes below 2^31, as the result is an int, and a device that reports no more bytes read or written than it was asked for; so in `MirrorBackup.dfy`.
- FuseIO.Write: the same; what a device puts between the old end of a file and a write beyond it is taken to be zeros.
- MirrorBackup.LeavesExpected: the building of paths and patterns is not modelled.
- MirrorBackup.CleanMirrors: an entry whose name cannot be decoded is skipped by the program without an error; such trees are not clean.
- Password encoding, string conversions, sockets, D-Bus, udev and the main loop's scheduling are steps and parameters.
- Memory allocation failing, but for clones, copies, the packet buffer and the copy buffer, where the code has a path for it or stops the process.
- Renaming, file times and attributes, `statfs`, status tables, path completion, the graphical tools and the language bindings: only easy claims.
