# KMP Electronics ProDino firmware core, modelled in Dafny

This project models the parts of the KMP Electronics ProDino Arduino
firmware that have logic worth stating, and proves properties of that model.

- **ICMP echo ("ping") engine** of the KMPDinoEthernet library:
  - the RFC 792 Echo Request built in a 24-byte buffer;
  - the RFC 1071 Internet checksum written into it in place;
  - the scan for a free W5100 socket;
  - the retry loop that sends and polls for the send interrupt flag;
  - the 1000 ms receive loop that matches the reply by type, identifier and sequence number.

  The W5100 chip is a class (`W5100.Chip`). It holds:
  - a status and a TTL register per socket;
  - the sequence of interrupt-register values the program will read;
  - the received bytes with their read pointer;
  - a script of clock steps and arrivals that `millis()` consumes;
  - a log of every command and register write.
- **ProDino WatchDog**:
  - the per-host supervisor (`operationPing`, `operationRestart`, `processOperaions`);
  - the request-line reader and request parsers it shares with ProDino IntRelay;
  - the settings and user/IP form readers with their validation rules;
  - the `Structures.cpp` defaults.
- **ProDino IntRelay**:
  - the same request reader;
  - the relay-switch POST;
  - the settings and user/IP forms (names with '+' turned into spaces in the received line);
  - the save-only-if-all-valid rule;
  - the `processRequest` dispatch;
  - the `Structures.cpp` defaults.
- **MqttTopicHelper** of ProDinoMKRZero: it builds '/'-separated topic names and splits off their first level. The split is proved to undo the build.
- **MCP23S08** expander driver of ProDinoESP32: the SPI frames it sends, and the read-modify-write of single bits in IODIR and OLAT.
- **FanCoilBypass** of the Wi-Fi fan-coil example: a two-phase bypass valve change that commits after a 10 s interval.
- **HtmlPages output buffer**: the 128-byte buffer of both web apps (`addHtml`/`flush`) and `CheckValidData`. The two copies are the same code.

About the modules:
- Each module follows one source component.
- `Common` holds what several components use:
  - the NUL-terminated string view `CStr`;
  - `Find` (strstr);
  - the KMPCommon helpers `startsWith`, `endsWith`, `strNCopy`, `strReplace`;
  - the `ValidationData` record.
- The request-line reader, `GetRequestType`, `GetRequestPage`, `FindParameter`, `GetPostParameterLine` and `CheckRequestIsAuthorized` are the same code in both web apps. Only the page links differ, and they are a parameter. They are modelled once, in `HttpRequest`. The rows below cite the IntRelay copy; the WatchDog copy is ProDinoWatchDog/Processing.cpp:207-381.

Source paths below are abbreviated by their first directories as written.

## Model

| member | source | states |
|---|---|---|
| IcmpChecksum.OnesSumResidue | KMPDinoEthernet/src/KMPDinoEthernet/ICMPProtocol.cpp:60-63 | The end-around-carry sum is congruent to the plain sum modulo 0xFFFF and is 0 only when the plain sum is 0. |
| IcmpChecksum.FoldIsOnesSum | KMPDinoEthernet/src/KMPDinoEthernet/ICMPProtocol.cpp:60-63 | Folding a 32-bit sum high-into-low and adding the carry gives the ones'-complement sum of the words. |
| IcmpChecksum.Fold | KMPDinoEthernet/src/KMPDinoEthernet/ICMPProtocol.cpp:60-63 | The folded value keeps the sum's residue modulo 0xFFFF and is 0 only for 0. |
| IcmpChecksum.WithChecksum | KMPDinoEthernet/src/KMPDinoEthernet/ICMPProtocol.cpp:33-66 | Only bytes 2-3 change, and they hold the checksum. |
| IcmpChecksum.ChecksumInputUnchanged | KMPDinoEthernet/src/KMPDinoEthernet/ICMPProtocol.cpp:40-58 | The words summed skip the checksum slot, so writing the checksum does not change them. |
| IcmpChecksum.WithChecksumIgnoresSlot | KMPDinoEthernet/src/KMPDinoEthernet/ICMPProtocol.cpp:43-45 | The result does not depend on what bytes 2-3 held before. |
| IcmpChecksum.ChecksumVerifies | KMPDinoEthernet/src/KMPDinoEthernet/ICMPProtocol.cpp:33-66 | After the checksum is written, the ones'-complement sum of all twelve native (little-endian) words is 0xFFFF (section 1 of RFC 1071). |
| IcmpChecksum.OnesSumSwap | KMPDinoEthernet/src/KMPDinoEthernet/ICMPProtocol.cpp:38-40 | Byte-swapping every word byte-swaps the ones'-complement sum (section 2(B) of RFC 1071). |
| IcmpChecksum.ChecksumVerifiesOnTheWire | KMPDinoEthernet/src/KMPDinoEthernet/ICMPProtocol.cpp:33-66 | The packet also verifies when read as big-endian (network order) words, as a receiver reads it. |
| IcmpChecksum.SumAppend | KMPDinoEthernet/src/KMPDinoEthernet/ICMPProtocol.cpp:36-58 | The running sum of a concatenation is the sum of the parts. |
| IcmpChecksum.SumZero | KMPDinoEthernet/src/KMPDinoEthernet/ICMPProtocol.cpp:36-58 | The plain sum is 0 exactly when every word is 0. |
| IcmpProtocol.WordFromBytes | KMPDinoEthernet/src/KMPDinoEthernet/ICMPProtocol.cpp:20-27 | `Uint16From2Uint8(h, l)` has h as its high byte and l as its low byte. |
| IcmpProtocol.RequestFields | KMPDinoEthernet/src/KMPDinoEthernet/ICMPProtocol.cpp:147-172 | The request carries type, code, identifier and sequence (big-endian), and the 16 payload bytes 32..47. |
| IcmpProtocol.EchoRequestFormat | KMPDinoEthernet/src/KMPDinoEthernet/ICMPProtocol.cpp:147-175 | An echo request has type 8, code 0, the identifier and sequence in network order, the payload 32..47, and a valid checksum. |
| IcmpProtocol.BuildEchoRequest | KMPDinoEthernet/src/KMPDinoEthernet/ICMPProtocol.cpp:149-175 | The in-place fill of the 24-byte buffer yields exactly the echo request packet. |
| IcmpProtocol.CalcChecksum | KMPDinoEthernet/src/KMPDinoEthernet/ICMPProtocol.cpp:33-66 | The buffer afterwards is the packet with its checksum written in bytes 2-3 and nothing else changed. |
| IcmpProtocol.AddWords | KMPDinoEthernet/src/KMPDinoEthernet/ICMPProtocol.cpp:36-58 | The loop's 32-bit sum is the sum of the header words (less the checksum slot) and the payload words. |
| IcmpProtocol.PayloadWordSum | KMPDinoEthernet/src/KMPDinoEthernet/ICMPProtocol.cpp:55-58 | Each round of the payload loop adds exactly the next word. |
| IcmpProtocol.FoldedChecksum | KMPDinoEthernet/src/KMPDinoEthernet/ICMPProtocol.cpp:60-65 | The fold, carry add and complement of the loop's sum give the checksum. |
| IcmpProtocol.FirstFreeSocket | KMPDinoEthernet/src/KMPDinoEthernet/ICMPProtocol.cpp:72-85 | The result is the lowest socket that is CLOSED, FIN_WAIT or CLOSE_WAIT, or the socket count when none is. |
| IcmpProtocol.GetFreeSocket | KMPDinoEthernet/src/KMPDinoEthernet/ICMPProtocol.cpp:72-85 | The loop returns the lowest free socket, or MAX_SOCK_NUM, and changes nothing. |
| IcmpProtocol.SendWait | KMPDinoEthernet/src/KMPDinoEthernet/ICMPProtocol.cpp:188-196 | The send wait reads the interrupt register at least once. |
| IcmpProtocol.SendWaitOutcome | KMPDinoEthernet/src/KMPDinoEthernet/ICMPProtocol.cpp:188-196 | The wait ends on SEND_OK (success) or on a TIMEOUT seen in the second read of a round (timeout), and no earlier read showed the flag that ends it. |
| IcmpProtocol.SendEchoRequest | KMPDinoEthernet/src/KMPDinoEthernet/ICMPProtocol.cpp:147-201 | It writes the destination, TTL 255, port 0 and the packet, then issues SEND. It returns SEND_TIMEOUT exactly when the wait times out, then clears both flags; otherwise it clears SEND_OK. |
| IcmpProtocol.WaitForSend | KMPDinoEthernet/src/KMPDinoEthernet/ICMPProtocol.cpp:188-198 | The polling loop consumes the reads `SendWait` predicts and acknowledges the flag(s) it saw. |
| IcmpProtocol.PollSend | KMPDinoEthernet/src/KMPDinoEthernet/ICMPProtocol.cpp:188-196 | One round of the wait: two reads, or the read that ends the wait. |
| IcmpProtocol.HeaderBytesRead | KMPDinoEthernet/src/KMPDinoEthernet/ICMPProtocol.cpp:225-231 | The `uint8_t dataLen`: the low byte of the data length, clamped to the 8 header bytes, so never more than the packet holds. |
| IcmpProtocol.LongReplyHeaderUnread | KMPDinoEthernet/src/KMPDinoEthernet/ICMPProtocol.cpp:225-248 | A 256-byte reply has a length whose low byte is 0: no header byte is read, and it decodes as type 0 with identifier and sequence 0. |
| IcmpProtocol.DecodeReply | KMPDinoEthernet/src/KMPDinoEthernet/ICMPProtocol.cpp:214-248 | The 6-byte W5100 header gives the 4-byte source address and the 16-bit data length. Only `HeaderBytesRead` bytes of the ICMP header are read for type, identifier and sequence, and the bytes not read count as 0. |
| IcmpProtocol.NextReadSkipsWholePacket | KMPDinoEthernet/src/KMPDinoEthernet/ICMPProtocol.cpp:225-236 | The corrected advance moves past the whole packet, so the next packet is decoded from its own header. |
| IcmpProtocol.AsWrittenMissesNextReply | KMPDinoEthernet/src/KMPDinoEthernet/ICMPProtocol.cpp:225-257 | With a stale reply queued before the answer, the corrected pointer finds the answer and the as-written pointer does not. |
| IcmpProtocol.AsWrittenStopsInsidePacket | KMPDinoEthernet/src/KMPDinoEthernet/ICMPProtocol.cpp:225-236 | As written, for every packet longer than the 8 header bytes, the read pointer stops after the raw header but before the packet's end. |
| IcmpProtocol.ReadReply | KMPDinoEthernet/src/KMPDinoEthernet/ICMPProtocol.cpp:213-237 | It decodes the packet at the read pointer, writes the advanced pointer and issues RECV. |
| IcmpProtocol.ReadNext | KMPDinoEthernet/src/KMPDinoEthernet/ICMPProtocol.cpp:211-237 | Reading one more packet extends the record of packets read, and the log, by that packet. The packet is decoded at the corrected offset: the pointer has moved past every earlier packet whole (see Findings). |
| IcmpProtocol.Tick | KMPDinoEthernet/src/KMPDinoEthernet/ICMPProtocol.cpp:209 | A `millis()` call in the receive loop only advances time and adds arrivals; what was read stays read. |
| IcmpProtocol.Poll | KMPDinoEthernet/src/KMPDinoEthernet/ICMPProtocol.cpp:211-257 | Reading the queued packets stops at the first one that answers the request; the packets before it do not answer. Queued packets are delimited by the corrected read-pointer advance (see Findings), not the source's 6 + min(length mod 256, 8). |
| IcmpProtocol.ReceiveEchoReply | KMPDinoEthernet/src/KMPDinoEthernet/ICMPProtocol.cpp:203-261 | The result is SUCCESS exactly when the last packet read has type 0 and the request's identifier and sequence, and none before it did. SUCCESS carries the socket's TTL. Otherwise it is NO_RESPONSE, only after the 1000 ms deadline, with address and sequence overwritten by the last packet read. Queued packets are decoded at the corrected offsets (see Findings): with a stale reply queued before the answer this gives SUCCESS where the source's advance gives NO_RESPONSE. |
| IcmpProtocol.AwaitReply | KMPDinoEthernet/src/KMPDinoEthernet/ICMPProtocol.cpp:127-130 | The receive after a successful send logs only pointer-write/RECV pairs; a success carries the request's sequence and TTL 255. |
| IcmpProtocol.Attempt | KMPDinoEthernet/src/KMPDinoEthernet/ICMPProtocol.cpp:126-130 | One retry sends; it receives only if the send succeeded; the status is SUCCESS, SEND_TIMEOUT or NO_RESPONSE. |
| IcmpProtocol.RecvLogPairs | KMPDinoEthernet/src/KMPDinoEthernet/ICMPProtocol.cpp:235-237 | Every packet read adds exactly a read-pointer write and a RECV command. |
| IcmpProtocol.LogRound | KMPDinoEthernet/src/KMPDinoEthernet/ICMPProtocol.cpp:124-136 | Appending a round keeps the per-attempt log structure and the all-failed record. |
| IcmpProtocol.Round | KMPDinoEthernet/src/KMPDinoEthernet/ICMPProtocol.cpp:124-136 | One iteration of the retry loop appends exactly one attempt and its log block. |
| IcmpProtocol.SendUntilAnswered | KMPDinoEthernet/src/KMPDinoEthernet/ICMPProtocol.cpp:124-136 | There are 1..nRetries attempts, all before the last failed, and it stops early only on SUCCESS. The status is the last attempt's, and the socket status is untouched. |
| IcmpProtocol.OpenSocket | KMPDinoEthernet/src/KMPDinoEthernet/ICMPProtocol.cpp:113-118 | CLOSE, IR=0xFF, IPRAW mode, ICMP protocol, port 0, OPEN: the socket ends in IPRAW state. |
| IcmpProtocol.CloseSocket | KMPDinoEthernet/src/KMPDinoEthernet/ICMPProtocol.cpp:141-142 | CLOSE then IR=0xFF: the socket ends closed. |
| IcmpProtocol.Pinger.constructor | KMPDinoEthernet/src/KMPDinoEthernet/ICMPProtocol.cpp:87-90 | The sequence counter starts at 0. |
| IcmpProtocol.Pinger.Ping | KMPDinoEthernet/src/KMPDinoEthernet/ICMPProtocol.cpp:92-145 | With no free socket: NO_FREE_SOCKET, no chip access, and the sequence counter is unchanged. Otherwise:<br>- the counter is incremented (mod 2^16) and used for every retry;<br>- the log is open, attempts, close;<br>- there are at most nRetries attempts and it stops at the first SUCCESS;<br>- the status is the last attempt's;<br>- the socket is closed on return;<br>- the time is at most the elapsed clock. |
| IcmpProtocol.Pinger.PingOn | KMPDinoEthernet/src/KMPDinoEthernet/ICMPProtocol.cpp:112-144 | The part of `Ping` after a socket is found: the same log, retry and close guarantees. |
| W5100.Chip.Millis | KMPDinoEthernet/src/KMPDinoEthernet/ICMPProtocol.cpp:206-209 | `millis()` takes the next step of the environment script: time advances and arriving bytes are queued (1 ms when the script is spent). |
| W5100.Chip.ReadIR | KMPDinoEthernet/src/KMPDinoEthernet/ICMPProtocol.cpp:188-191 | `readSnIR` returns the next scripted value, or TIMEOUT once the script is spent. |
| W5100.Chip.ExecCmd | KMPDinoEthernet/src/KMPDinoEthernet/ICMPProtocol.cpp:113-118 | `execCmdSn` is logged. OPEN puts the socket in IPRAW and empties its receive queue, CLOSE closes it, and RECV frees what was read. |
| W5100.Chip.Write | KMPDinoEthernet/src/KMPDinoEthernet/ICMPProtocol.cpp:177-184 | A register write is logged. A TTL write sets Sn_TTL, an RX_RD write sets the read pointer, and nothing else changes. |
| WatchdogStructures.DefDeviceSetting | KMPDinoEthernet/Releases/Last/KMPDinoEthernet/projects/ProDinoWatchDog/Structures.cpp:36-56 | User and password read "admin"; IP 192.168.0.103, mask 255.255.255.0, gateway 192.168.0.1. |
| WatchdogStructures.DefDogSetting | KMPDinoEthernet/Releases/Last/KMPDinoEthernet/projects/ProDinoWatchDog/Structures.cpp:58-71 | The dog is inactive with IP 0.0.0.0 and timings 30/3/10/60. The defaults pass the settings form's rules: all > 0 and HostLostAfter <= 10. |
| WatchdogStructures.Globals.SetListsDefAsWritten | KMPDinoEthernet/Releases/Last/KMPDinoEthernet/projects/ProDinoWatchDog/Structures.cpp:73-84 | As written: every DogList entry gets its defaults, and ProcessList is left exactly as it was. |
| WatchdogStructures.SetListsDefAsWrittenKeepsHistory | KMPDinoEthernet/Releases/Last/KMPDinoEthernet/projects/ProDinoWatchDog/Structures.cpp:79-82 | Calling the as-written reset on a ProcessList with an entry not in its reset state (such as a host with lost pings and a pending restart) leaves such an entry behind. |
| WatchdogStructures.Globals.SetListsDef | KMPDinoEthernet/Releases/Last/KMPDinoEthernet/projects/ProDinoWatchDog/Structures.cpp:73-84 | Corrected: DogList is defaulted and every ProcessList entry has LostTimes 0, Restarts 0, next operation PING. |
| WatchdogStructures.SetListsDefResetsAll | KMPDinoEthernet/Releases/Last/KMPDinoEthernet/projects/ProDinoWatchDog/Structures.cpp:73-84 | Calling the corrected reset leaves every ProcessList entry in its reset state, whatever the list held. |
| WatchdogProcessing.Board.SetRelay | KMPDinoEthernet/src/KMPDinoEthernet/examples/projects/ProDinoWatchDog/Processing.cpp:160 | `SetRelayStatus` sets one relay and nothing else. |
| WatchdogProcessing.Board.PingIp | KMPDinoEthernet/src/KMPDinoEthernet/examples/projects/ProDinoWatchDog/Processing.cpp:133-139 | `PingIP` reports the outcome and takes its time. |
| WatchdogProcessing.Inc | KMPDinoEthernet/src/KMPDinoEthernet/examples/projects/ProDinoWatchDog/Processing.cpp:155 | `++` on a uint8_t counter wraps 255 to 0. |
| WatchdogProcessing.AfterPing | KMPDinoEthernet/src/KMPDinoEthernet/examples/projects/ProDinoWatchDog/Processing.cpp:141-168 | A reply clears LostTimes, leaves relay and Restarts alone, and sets the next ping TestPeriod s after now. A loss increments LostTimes. Once it exceeds HostLostAfter, the relay goes ON, LostTimes is reset to 0, Restarts is incremented, the next operation is RESTART, and it is due RestartWaitTime s later. |
| WatchdogProcessing.AfterRestart | KMPDinoEthernet/src/KMPDinoEthernet/examples/projects/ProDinoWatchDog/Processing.cpp:170-178 | Relay OFF, next operation PING, due WaitAfterRestart s later, counters unchanged. |
| WatchdogProcessing.LossesAreCounted | KMPDinoEthernet/src/KMPDinoEthernet/examples/projects/ProDinoWatchDog/Processing.cpp:155-167 | Up to HostLostAfter consecutive losses are just counted, and none of them touches the relay. |
| WatchdogProcessing.RestartAfterTooManyLosses | KMPDinoEthernet/src/KMPDinoEthernet/examples/projects/ProDinoWatchDog/Processing.cpp:155-167 | Loss number HostLostAfter+1 switches the relay on and schedules the restart. |
| WatchdogProcessing.OutageCycle | KMPDinoEthernet/src/KMPDinoEthernet/examples/projects/ProDinoWatchDog/Processing.cpp:141-178 | A full outage: HostLostAfter+1 losses power-cycle the host once, after which it is pinged again with counters cleared and Restarts one higher. |
| WatchdogProcessing.Visit | KMPDinoEthernet/src/KMPDinoEthernet/examples/projects/ProDinoWatchDog/Processing.cpp:184-203 | One host's turn touches only that host. An inactive or not-yet-due host is left alone. |
| WatchdogProcessing.Pass | KMPDinoEthernet/src/KMPDinoEthernet/examples/projects/ProDinoWatchDog/Processing.cpp:180-205 | A pass over the first n hosts keeps the state well formed. |
| WatchdogProcessing.PassTouchesEachHostOnce | KMPDinoEthernet/src/KMPDinoEthernet/examples/projects/ProDinoWatchDog/Processing.cpp:180-205 | Each host is changed only by its own turn, hosts after the pass are untouched, and inactive hosts are never changed. |
| WatchdogProcessing.SetNextTimeToOperate | KMPDinoEthernet/src/KMPDinoEthernet/examples/projects/ProDinoWatchDog/Processing.cpp:93-97 | Only that host's NextTimeToOperate changes, to now + time*1000. |
| WatchdogProcessing.OperationPing | KMPDinoEthernet/src/KMPDinoEthernet/examples/projects/ProDinoWatchDog/Processing.cpp:141-168 | The in-place update equals `AfterPing` applied to that host at the time the ping ends. |
| WatchdogProcessing.OperationRestart | KMPDinoEthernet/src/KMPDinoEthernet/examples/projects/ProDinoWatchDog/Processing.cpp:170-178 | The in-place update equals `AfterRestart` applied to that host. |
| WatchdogProcessing.VisitHost | KMPDinoEthernet/src/KMPDinoEthernet/examples/projects/ProDinoWatchDog/Processing.cpp:184-203 | The loop body equals `Visit`. |
| WatchdogProcessing.ProcessOperations | KMPDinoEthernet/src/KMPDinoEthernet/examples/projects/ProDinoWatchDog/Processing.cpp:180-205 | The loop over DOG_COUNT hosts equals `Pass` over all of them. |
| WatchdogForms.WithTiming | KMPDinoEthernet/src/KMPDinoEthernet/examples/projects/ProDinoWatchDog/Processing.cpp:449-489 | Storing a timing field sets only that field. |
| WatchdogForms.SettingsCell | KMPDinoEthernet/src/KMPDinoEthernet/examples/projects/ProDinoWatchDog/Processing.cpp:404-491 | A cell appends one record to ValidDataSettings, and its validity is the cell's rule. |
| WatchdogForms.SettingsCellStep | KMPDinoEthernet/src/KMPDinoEthernet/examples/projects/ProDinoWatchDog/Processing.cpp:412-491 | Each cell's rule, in full:<br>- status (cb): always valid, Active iff the value starts with '1';<br>- IP: valid iff found and `atoip` succeeds, stored whenever `atoip` succeeds;<br>- TestPeriod, RestartWaitTime, WaitAfterRestart: valid iff found, converted and > 0;<br>- HostLostAfter: valid iff found, converted and 1..10;<br>- timings are stored whatever the verdict;<br>- other hosts and other fields are kept. |
| WatchdogForms.SettingsUpTo | KMPDinoEthernet/src/KMPDinoEthernet/examples/projects/ProDinoWatchDog/Processing.cpp:400-494 | The row-by-row, host-by-host scan yields one record per cell visited. |
| WatchdogForms.SettingsMeaning | KMPDinoEthernet/src/KMPDinoEthernet/examples/projects/ProDinoWatchDog/Processing.cpp:400-494 | After the scan every record and every host's fields mean what their cell's rule says. |
| WatchdogForms.SettingsStep | KMPDinoEthernet/src/KMPDinoEthernet/examples/projects/ProDinoWatchDog/Processing.cpp:402-492 | One more cell keeps the meaning of all earlier cells. |
| WatchdogForms.CellHoldsKept | KMPDinoEthernet/src/KMPDinoEthernet/examples/projects/ProDinoWatchDog/Processing.cpp:404-491 | A later cell does not disturb what an earlier cell established. |
| WatchdogForms.AcceptedSettingsAreSafe | KMPDinoEthernet/src/KMPDinoEthernet/examples/projects/ProDinoWatchDog/Processing.cpp:439-490 | When every record is valid, every host's timings are > 0 and HostLostAfter <= 10, the same ranges the defaults satisfy. |
| WatchdogForms.HostTimingAccepted | KMPDinoEthernet/src/KMPDinoEthernet/examples/projects/ProDinoWatchDog/Processing.cpp:439-490 | Per host: valid timing records imply the timing ranges. |
| WatchdogForms.TimingCellHolds | KMPDinoEthernet/src/KMPDinoEthernet/examples/projects/ProDinoWatchDog/Processing.cpp:445-485 | A valid timing cell's stored value obeys that row's range rule. |
| WatchdogForms.ReadSettings | KMPDinoEthernet/src/KMPDinoEthernet/examples/projects/ProDinoWatchDog/Processing.cpp:400-494 | The nested loops produce the scan's DogListSettings and ValidDataSettings. |
| WatchdogForms.ReadSettingsRow | KMPDinoEthernet/src/KMPDinoEthernet/examples/projects/ProDinoWatchDog/Processing.cpp:402-493 | One row of the outer loop extends the scan by four cells. |
| WatchdogForms.ReadSettingsField | KMPDinoEthernet/src/KMPDinoEthernet/examples/projects/ProDinoWatchDog/Processing.cpp:404-492 | One inner iteration extends the scan by one cell. |
| WatchdogForms.ReadSettingsCell | KMPDinoEthernet/src/KMPDinoEthernet/examples/projects/ProDinoWatchDog/Processing.cpp:404-491 | The switch on the row computes exactly that cell's effect. |
| WatchdogForms.UserIpField | KMPDinoEthernet/src/KMPDinoEthernet/examples/projects/ProDinoWatchDog/Processing.cpp:516-588 | A user/IP field appends one record whose validity is that field's rule. |
| WatchdogForms.UserIpFieldStores | KMPDinoEthernet/src/KMPDinoEthernet/examples/projects/ProDinoWatchDog/Processing.cpp:520-588 | User and password are copied only when valid. A valid address field holds what `atoip` gave. |
| WatchdogForms.UserIpFieldFrame | KMPDinoEthernet/src/KMPDinoEthernet/examples/projects/ProDinoWatchDog/Processing.cpp:520-588 | A field changes only its own setting. |
| WatchdogForms.UserIpUpTo | KMPDinoEthernet/src/KMPDinoEthernet/examples/projects/ProDinoWatchDog/Processing.cpp:514-589 | The scan over the five fields yields one record each. |
| WatchdogForms.UserIpUpToHolds | KMPDinoEthernet/src/KMPDinoEthernet/examples/projects/ProDinoWatchDog/Processing.cpp:514-589 | Every field scanned so far has its meaning. |
| WatchdogForms.UserIpStep | KMPDinoEthernet/src/KMPDinoEthernet/examples/projects/ProDinoWatchDog/Processing.cpp:516-588 | One more field keeps the meaning of the earlier ones. |
| WatchdogForms.UserIpMeaning | KMPDinoEthernet/src/KMPDinoEthernet/examples/projects/ProDinoWatchDog/Processing.cpp:499-591 | Each record is valid iff its rule holds: user and password 3..8 characters, addresses parsed by `atoip`. A valid user or password reads back as the value sent, an invalid one leaves the old one, and a valid address is stored. |
| WatchdogForms.CredentialFits | KMPDinoEthernet/src/KMPDinoEthernet/examples/projects/ProDinoWatchDog/Processing.cpp:525-538 | A valid user or password is 3..8 characters. |
| WatchdogForms.StoredCredential | KMPDinoEthernet/src/KMPDinoEthernet/examples/projects/ProDinoWatchDog/Processing.cpp:527-543 | `strNCopy` of a valid credential reads back as that credential. |
| WatchdogForms.ReadUserAndIp | KMPDinoEthernet/src/KMPDinoEthernet/examples/projects/ProDinoWatchDog/Processing.cpp:514-589 | The loop produces the scan's DeviceDataUserAndIP and ValidUserAndIP. |
| WatchdogForms.ReadUserIpField | KMPDinoEthernet/src/KMPDinoEthernet/examples/projects/ProDinoWatchDog/Processing.cpp:516-588 | The switch on the column computes that field's effect. |
| WatchdogForms.Forms.GetPrivateSettingsData | KMPDinoEthernet/src/KMPDinoEthernet/examples/projects/ProDinoWatchDog/Processing.cpp:383-497 | It skips to the body line. An empty body gives false and changes nothing; otherwise it gives true and the scan's results. |
| WatchdogForms.Forms.GetPrivateUserAndIpData | KMPDinoEthernet/src/KMPDinoEthernet/examples/projects/ProDinoWatchDog/Processing.cpp:499-591 | The same for the user/IP form. |
| HttpRequest.Strip | KMPDinoEthernet/src/KMPDinoEthernet/projects/ProDinoIntRelay/Processing.cpp:159-168 | The characters stored are the input without CR and LF. |
| HttpRequest.LineEnd | KMPDinoEthernet/src/KMPDinoEthernet/projects/ProDinoIntRelay/Processing.cpp:153-174 | A line ends just after the first CR LF, or at the end of input. |
| HttpRequest.ReadLine | KMPDinoEthernet/src/KMPDinoEthernet/projects/ProDinoIntRelay/Processing.cpp:142-179 | The reader succeeds iff input is available and the line's kept characters fit under 253. Then it consumes through CR LF (or to the end) and stores the line without CR/LF, NUL-terminated. An overlong line fails with 253 characters stored and input left over. Empty input fails and stores "". |
| HttpRequest.ReadLineOfPlainLine | KMPDinoEthernet/src/KMPDinoEthernet/projects/ProDinoIntRelay/Processing.cpp:142-179 | A plain line followed by CR LF is read back exactly and consumed with its CR LF. |
| HttpRequest.ReadLineKeepsLast | KMPDinoEthernet/src/KMPDinoEthernet/projects/ProDinoIntRelay/Processing.cpp:142-179 | The buffer's last byte is never written. |
| HttpRequest.Connection.ReadRequestLine | KMPDinoEthernet/src/KMPDinoEthernet/projects/ProDinoIntRelay/Processing.cpp:142-179 | The character loop has exactly the effect `ReadLine` describes. |
| HttpRequest.Connection.TakeChar | KMPDinoEthernet/src/KMPDinoEthernet/projects/ProDinoIntRelay/Processing.cpp:150-172 | One character: it is stored unless CR or LF, and the read ends after CR LF. |
| HttpRequest.Connection.ReadRequestToEnd | KMPDinoEthernet/src/KMPDinoEthernet/projects/ProDinoIntRelay/Processing.cpp:181-195 | The rest of the request is drained. |
| HttpRequest.AfterHeaders | KMPDinoEthernet/src/KMPDinoEthernet/projects/ProDinoIntRelay/Processing.cpp:304-316 | Skipping to the body keeps the buffer's size; `AfterHeadersFindsBody` states what it finds. |
| HttpRequest.Connection.GetPostParameterLine | KMPDinoEthernet/src/KMPDinoEthernet/projects/ProDinoIntRelay/Processing.cpp:304-316 | Lines are read up to the empty one, and then the body line. |
| HttpRequest.AfterHeadersFindsBody | KMPDinoEthernet/src/KMPDinoEthernet/projects/ProDinoIntRelay/Processing.cpp:304-316 | On plain header lines ending in CR LF, then the empty line, then the body (ended by CR LF or by the end of input), the buffer ends up holding exactly the body line, and only the input after the body remains. |
| HttpRequest.ReadBodyLine | KMPDinoEthernet/src/KMPDinoEthernet/projects/ProDinoIntRelay/Processing.cpp:142-179 | The line after the empty line is read whole as the body. |
| HttpRequest.ReadLineOfLastLine | KMPDinoEthernet/src/KMPDinoEthernet/projects/ProDinoIntRelay/Processing.cpp:142-179 | A last line without CR LF is read whole and consumes the rest of the input. |
| HttpRequest.GetRequestType | KMPDinoEthernet/src/KMPDinoEthernet/projects/ProDinoIntRelay/Processing.cpp:197-212 | GET iff the line starts with "GET"; POST iff not GET and it starts with "POST"; otherwise NONE. |
| HttpRequest.PageOf | KMPDinoEthernet/src/KMPDinoEthernet/projects/ProDinoIntRelay/Processing.cpp:214-235 | The page is the first link whose " link " occurs in the line, and no earlier link occurs; none when no link occurs. |
| HttpRequest.GetRequestPage | KMPDinoEthernet/src/KMPDinoEthernet/projects/ProDinoIntRelay/Processing.cpp:214-235 | The loop finds that same first page. |
| HttpRequest.Connection.GetRequestTypeAndPage | KMPDinoEthernet/src/KMPDinoEthernet/projects/ProDinoIntRelay/Processing.cpp:237-253 | True iff the line was read, the type is not NONE and a page was found; the type and page are those of the line. |
| HttpRequest.Authorization | KMPDinoEthernet/src/KMPDinoEthernet/projects/ProDinoIntRelay/Processing.cpp:255-274 | Authorized only with credentials the check accepts; the rest of the input is a suffix. |
| HttpRequest.AuthorizationStep | KMPDinoEthernet/src/KMPDinoEthernet/projects/ProDinoIntRelay/Processing.cpp:255-274 | Each header line: a failed read stops with false; a non-Authorization line goes on; an Authorization line without "Basic " gives false; otherwise the text after "Basic " decides. |
| HttpRequest.Connection.CheckRequestIsAuthorized | KMPDinoEthernet/src/KMPDinoEthernet/projects/ProDinoIntRelay/Processing.cpp:255-274 | The header loop has exactly the effect `Authorization` describes. |
| HttpRequest.ValueLen | KMPDinoEthernet/src/KMPDinoEthernet/projects/ProDinoIntRelay/Processing.cpp:289-296 | A value runs up to the first '&' or the end of the line. |
| HttpRequest.ParameterIsFirst | KMPDinoEthernet/src/KMPDinoEthernet/projects/ProDinoIntRelay/Processing.cpp:276-302 | A parameter is found iff its 4-character name "xxN=" occurs. Its value starts right after the first occurrence and stops before '&' or the end. |
| HttpRequest.FindParameter | KMPDinoEthernet/src/KMPDinoEthernet/projects/ProDinoIntRelay/Processing.cpp:276-302 | True iff the name occurs, with that value. When false, val/len keep what they held. |
| Common.StrReplace | KMPDinoEthernet/src/KMPDinoEthernet/projects/ProDinoIntRelay/Processing.cpp:361 | `strReplace` swaps every '+' in the value for a space in place, and nothing outside the value changes. |
| Common.StrNCopy | KMPDinoEthernet/src/KMPDinoEthernet/projects/ProDinoIntRelay/Structures.cpp:60 | `strNCopy(dst, src, n)` copies n characters and puts NUL after them. |
| Common.StrCpy | ProDinoMKRZero/src/ProDinoMKRZero/src/MqttTopicHelper.cpp:24 | `strcpy` leaves the source string, NUL-terminated, at the front of the buffer. |
| Common.StrCat | ProDinoMKRZero/src/ProDinoMKRZero/src/MqttTopicHelper.cpp:26 | `strcat` appends the source to the string in the buffer. |
| Common.StrLen | ProDinoMKRZero/src/ProDinoMKRZero/src/MqttTopicHelper.cpp:28 | `strlen` is the length of the string in the buffer. |
| Common.Find | KMPDinoEthernet/src/KMPDinoEthernet/projects/ProDinoIntRelay/Processing.cpp:282 | `strstr` finds the first occurrence of the pattern. |
| Common.CStrOfTerminated | KMPDinoEthernet/src/KMPDinoEthernet/projects/ProDinoIntRelay/Structures.cpp:60 | A buffer holding a string and then NUL reads back as that string. |
| HtmlOutput.Writer.Flush | KMPDinoEthernet/src/KMPDinoEthernet/examples/projects/ProDinoWatchDog/HtmlPages.cpp:50-58 | It writes exactly buff[0..pos) when pos > 0 and nothing when pos = 0, and leaves pos 0. |
| HtmlOutput.Writer.AddChar | KMPDinoEthernet/src/KMPDinoEthernet/examples/projects/ProDinoWatchDog/HtmlPages.cpp:60-66 | It flushes a full buffer of exactly 128 bytes first, then appends; afterwards 1 <= pos <= 128. The invariant "sent followed by the buffer = everything added" is kept. |
| HtmlOutput.Writer.AddText | KMPDinoEthernet/src/KMPDinoEthernet/examples/projects/ProDinoWatchDog/HtmlPages.cpp:68-80 | `addHtml(s)`/`addHtmlP(s)` add exactly the characters before NUL. Every write it makes is a full 128-byte block. |
| HtmlOutput.Writer.SendPage | KMPDinoEthernet/src/KMPDinoEthernet/examples/projects/ProDinoWatchDog/HtmlPages.cpp:579-645 | A page built from parts and ended by `flush` leaves the buffer empty, and everything added is sent, in order. Every write of the page except the final flush is a full 128-byte block. |
| HtmlOutput.ConcatAppend | KMPDinoEthernet/src/KMPDinoEthernet/examples/projects/ProDinoWatchDog/HtmlPages.cpp:50-58 | The bytes sent in a sequence of writes concatenate. |
| HtmlOutput.CheckValidData | KMPDinoEthernet/src/KMPDinoEthernet/examples/projects/ProDinoWatchDog/HtmlPages.cpp:487-497 | Valid data gives true and leaves the buffer untouched. Invalid data gives false. If its Length fits with the NUL, Length bytes are copied, NUL after them, and the text is read from the buffer. Otherwise the copy overruns the buffer (`overrun`): the buffer holds the value's first bytes and the text is unknown. |
| HtmlOutput.CheckValidDataBounded | KMPDinoEthernet/src/KMPDinoEthernet/examples/projects/ProDinoWatchDog/HtmlPages.cpp:487-497 | Corrected: at most size - 1 bytes are copied and the NUL always lands inside the buffer. A value that fits is shown whole, as the code as written shows it; a longer one is cut to the buffer. |
| IntRelayStructures.DefDeviceSetting | KMPDinoEthernet/src/KMPDinoEthernet/projects/ProDinoIntRelay/Structures.cpp:31-53 | Name "KMP Device", user and password "admin", IP 192.168.0.100, mask 255.255.255.0, gateway 192.168.0.1. The name passes the 3..32 rule and the credentials pass 3..8. |
| IntRelayStructures.DefRelayData | KMPDinoEthernet/src/KMPDinoEthernet/projects/ProDinoIntRelay/Structures.cpp:55-63 | Active 1 and name "Relay N" (N = relay+1), within 3..16. The buffer after the terminator is untouched. |
| IntRelayStructures.Globals.DefRelayDataList | KMPDinoEthernet/src/KMPDinoEthernet/projects/ProDinoIntRelay/Structures.cpp:65-71 | Every one of the RELAY_COUNT entries gets its default, and nothing else changes. |
| IntRelayForms.Unplus | KMPDinoEthernet/src/KMPDinoEthernet/projects/ProDinoIntRelay/Processing.cpp:361 | The in-place '+'-to-space edit keeps the line's length. |
| IntRelayForms.UnplusAt | KMPDinoEthernet/src/KMPDinoEthernet/projects/ProDinoIntRelay/Processing.cpp:361 | Only '+' characters inside the value become spaces. |
| IntRelayForms.UnplusValue | KMPDinoEthernet/src/KMPDinoEthernet/projects/ProDinoIntRelay/Processing.cpp:361-365 | The edited value is the received value with '+' replaced by ' '. |
| IntRelayForms.UnplusSoftens | KMPDinoEthernet/src/KMPDinoEthernet/projects/ProDinoIntRelay/Processing.cpp:361 | Edits only ever turn '+' into ' ' relative to the received line. |
| IntRelayForms.OccursSoftened | KMPDinoEthernet/src/KMPDinoEthernet/projects/ProDinoIntRelay/Processing.cpp:358 | A field name without '+' or ' ' occurs at the same places in the edited line as in the received one. |
| IntRelayForms.ParameterSoftened | KMPDinoEthernet/src/KMPDinoEthernet/projects/ProDinoIntRelay/Processing.cpp:346-358 | Later fields are found in the edited line exactly as in the received one. |
| IntRelayForms.CopiedReads | KMPDinoEthernet/src/KMPDinoEthernet/projects/ProDinoIntRelay/Processing.cpp:364-365 | A copied valid name reads back as itself. |
| IntRelayForms.StatusCell | KMPDinoEthernet/src/KMPDinoEthernet/projects/ProDinoIntRelay/Processing.cpp:343-352 | A status cell appends one record. |
| IntRelayForms.StatusCellEffect | KMPDinoEthernet/src/KMPDinoEthernet/projects/ProDinoIntRelay/Processing.cpp:343-352 | The status is always valid, and Active is 1 iff "cbN=" is found with a value starting '1'. Nothing else changes. |
| IntRelayForms.NameCell | KMPDinoEthernet/src/KMPDinoEthernet/projects/ProDinoIntRelay/Processing.cpp:355-366 | A name cell appends one record. |
| IntRelayForms.NameCellEffect | KMPDinoEthernet/src/KMPDinoEthernet/projects/ProDinoIntRelay/Processing.cpp:355-366 | The name is valid iff "rnN=" is found with 3..16 characters. It is copied, with '+' made ' ', only when valid. Nothing else changes. |
| IntRelayForms.NameCellName | KMPDinoEthernet/src/KMPDinoEthernet/projects/ProDinoIntRelay/Processing.cpp:358-365 | The same, on the line as currently edited. |
| IntRelayForms.NameCellCopies | KMPDinoEthernet/src/KMPDinoEthernet/projects/ProDinoIntRelay/Processing.cpp:361-365 | The name stored is the value as received with '+' made ' '. |
| IntRelayForms.NameValueAt | KMPDinoEthernet/src/KMPDinoEthernet/projects/ProDinoIntRelay/Processing.cpp:358-365 | The value the edited line shows is the softened received value. |
| IntRelayForms.RelayCell | KMPDinoEthernet/src/KMPDinoEthernet/projects/ProDinoIntRelay/Processing.cpp:336-368 | One cell of the scan appends one record. |
| IntRelayForms.RelaysUpTo | KMPDinoEthernet/src/KMPDinoEthernet/projects/ProDinoIntRelay/Processing.cpp:332-370 | The row-by-row scan yields one record per cell, on a line of unchanged length. |
| IntRelayForms.RelaysUpToNext | KMPDinoEthernet/src/KMPDinoEthernet/projects/ProDinoIntRelay/Processing.cpp:332-370 | The scan of k+1 cells is the scan of k cells followed by cell k. |
| IntRelayForms.RelaysUpToMean | KMPDinoEthernet/src/KMPDinoEthernet/projects/ProDinoIntRelay/Processing.cpp:332-370 | After any number of cells, each visited cell has its meaning. |
| IntRelayForms.RelayStep | KMPDinoEthernet/src/KMPDinoEthernet/projects/ProDinoIntRelay/Processing.cpp:336-368 | One more cell keeps the meaning of the earlier ones. |
| IntRelayForms.RelaySettingsMeaning | KMPDinoEthernet/src/KMPDinoEthernet/projects/ProDinoIntRelay/Processing.cpp:318-373 | For every relay: Active comes from "cbN", and the status record is valid. The name record is valid iff the name has 3..16 characters. A valid name reads back as the value sent with '+' made ' '; an invalid one leaves the old name. |
| IntRelayForms.NameReads | KMPDinoEthernet/src/KMPDinoEthernet/projects/ProDinoIntRelay/Processing.cpp:364-365 | A valid relay name reads back from the relay's buffer. |
| IntRelayForms.ReadRelaySettings | KMPDinoEthernet/src/KMPDinoEthernet/projects/ProDinoIntRelay/Processing.cpp:332-370 | The nested loops produce the scan's relays and records and edit the line in place as the scan says. Bytes past the line are untouched. |
| IntRelayForms.ReadRow | KMPDinoEthernet/src/KMPDinoEthernet/projects/ProDinoIntRelay/Processing.cpp:334-369 | One row extends the scan by four cells. |
| IntRelayForms.ReadNextCell | KMPDinoEthernet/src/KMPDinoEthernet/projects/ProDinoIntRelay/Processing.cpp:336-368 | One inner iteration extends the scan by one cell. |
| IntRelayForms.ReadCell | KMPDinoEthernet/src/KMPDinoEthernet/projects/ProDinoIntRelay/Processing.cpp:340-368 | The switch on the row computes that cell. |
| IntRelayForms.ReadStatusCell | KMPDinoEthernet/src/KMPDinoEthernet/projects/ProDinoIntRelay/Processing.cpp:343-352 | The status case computes `StatusCell`. |
| IntRelayForms.ReadNameCell | KMPDinoEthernet/src/KMPDinoEthernet/projects/ProDinoIntRelay/Processing.cpp:355-366 | The name case computes `NameCell`, editing the line in place. |
| IntRelayForms.DeviceNameField | KMPDinoEthernet/src/KMPDinoEthernet/projects/ProDinoIntRelay/Processing.cpp:396-407 | The device-name field appends one record. |
| IntRelayForms.CredentialField | KMPDinoEthernet/src/KMPDinoEthernet/projects/ProDinoIntRelay/Processing.cpp:410-433 | A user or password field appends one record. |
| IntRelayForms.AddressColumn | KMPDinoEthernet/src/KMPDinoEthernet/projects/ProDinoIntRelay/Processing.cpp:436-475 | An address field appends one record. |
| IntRelayForms.UserIpField | KMPDinoEthernet/src/KMPDinoEthernet/projects/ProDinoIntRelay/Processing.cpp:393-477 | The switch on the column appends one record. |
| IntRelayForms.UserIpUpTo | KMPDinoEthernet/src/KMPDinoEthernet/projects/ProDinoIntRelay/Processing.cpp:390-478 | The scan of the six fields yields one record each. |
| IntRelayForms.DnEdited | KMPDinoEthernet/src/KMPDinoEthernet/projects/ProDinoIntRelay/Processing.cpp:402 | The line after the device-name edit differs from the received one only by '+' made ' '. |
| IntRelayForms.DeviceNameMeaning | KMPDinoEthernet/src/KMPDinoEthernet/projects/ProDinoIntRelay/Processing.cpp:396-407 | The device name is valid iff "DN1=" is found with 3..32 characters; it is copied, softened, only when valid. |
| IntRelayForms.CredentialMeaning | KMPDinoEthernet/src/KMPDinoEthernet/projects/ProDinoIntRelay/Processing.cpp:410-433 | A user/password is valid iff found with 3..8 characters, and is copied only when valid. |
| IntRelayForms.LongCredentialOverruns | KMPDinoEthernet/src/KMPDinoEthernet/projects/ProDinoIntRelay/HtmlPages.cpp:528-570 | A user name or password of more than MAX_IP_STR_LEN characters is rejected, and its record overruns the 17-character buffer `CheckValidData` copies it into. |
| IntRelayForms.LongUserOverruns | KMPDinoEthernet/src/KMPDinoEthernet/projects/ProDinoIntRelay/HtmlPages.cpp:528-570 | The body "US1=" followed by 17 or more characters (no '&') is found whole and reaches that overrun. |
| IntRelayForms.AddressStep | KMPDinoEthernet/src/KMPDinoEthernet/projects/ProDinoIntRelay/Processing.cpp:436-475 | IP ("rn1=" here), mask and gateway are valid iff found and `atoip` succeeds, and are stored whenever `atoip` succeeds. |
| IntRelayForms.UserIpStep | KMPDinoEthernet/src/KMPDinoEthernet/projects/ProDinoIntRelay/Processing.cpp:393-477 | One more field keeps the meaning of the earlier ones. |
| IntRelayForms.UserIpUpToMean | KMPDinoEthernet/src/KMPDinoEthernet/projects/ProDinoIntRelay/Processing.cpp:390-478 | After any number of fields, each has its meaning. |
| IntRelayForms.UserIpSettingsMeaning | KMPDinoEthernet/src/KMPDinoEthernet/projects/ProDinoIntRelay/Processing.cpp:375-481 | The records are valid iff the rules hold. Valid names read back as sent; invalid ones leave the old setting. Valid addresses are stored. |
| IntRelayForms.UserIpRecordsValid | KMPDinoEthernet/src/KMPDinoEthernet/projects/ProDinoIntRelay/Processing.cpp:393-477 | Every record is valid iff its field's rule holds. |
| IntRelayForms.NamesRead | KMPDinoEthernet/src/KMPDinoEthernet/projects/ProDinoIntRelay/Processing.cpp:396-433 | Name, user and password read back as sent when valid, and are unchanged when not. |
| IntRelayForms.AddressesStored | KMPDinoEthernet/src/KMPDinoEthernet/projects/ProDinoIntRelay/Processing.cpp:436-475 | A valid IP, mask or gateway record means that address holds what `atoip` parsed. |
| IntRelayForms.ReadUserAndIp | KMPDinoEthernet/src/KMPDinoEthernet/projects/ProDinoIntRelay/Processing.cpp:390-478 | The loop produces the scan's DeviceDataNew and ValidUserAndIP and edits the line as the scan says. |
| IntRelayForms.ReadDeviceName | KMPDinoEthernet/src/KMPDinoEthernet/projects/ProDinoIntRelay/Processing.cpp:396-407 | Case 0 computes `DeviceNameField`, editing the line in place. |
| IntRelayForms.ReadUserIpValue | KMPDinoEthernet/src/KMPDinoEthernet/projects/ProDinoIntRelay/Processing.cpp:410-475 | Cases 1-5 compute `UserIpField`. |
| IntRelayProcessing.GateOf | KMPDinoEthernet/src/KMPDinoEthernet/projects/ProDinoIntRelay/Processing.cpp:603-613 | An admitted request has a type other than NONE and a known page. |
| IntRelayProcessing.AdmittedMeans | KMPDinoEthernet/src/KMPDinoEthernet/projects/ProDinoIntRelay/Processing.cpp:603-613 | A request is admitted only if its line was read, starts with GET or POST, names that page first, and carries credentials the check accepts. |
| IntRelayProcessing.SwitchFrom | KMPDinoEthernet/src/KMPDinoEthernet/projects/ProDinoIntRelay/Processing.cpp:506-526 | The relay switched is at or after the relay the scan starts from. |
| IntRelayProcessing.SwitchFromIsFirst | KMPDinoEthernet/src/KMPDinoEthernet/projects/ProDinoIntRelay/Processing.cpp:506-526 | The relay switched is the first whose "rnN=" value starts with OFF or ON (OFF checked first), and the earlier relays ask nothing. |
| IntRelayProcessing.NoSwitchAsksNothing | KMPDinoEthernet/src/KMPDinoEthernet/projects/ProDinoIntRelay/Processing.cpp:506-526 | When nothing is switched, no relay's field asks for a switch. |
| IntRelayProcessing.SwitchFromIsFirstUpTo | KMPDinoEthernet/src/KMPDinoEthernet/projects/ProDinoIntRelay/Processing.cpp:506-526 | Relays that ask nothing are passed over. |
| IntRelayProcessing.ButtonSwitches | KMPDinoEthernet/src/KMPDinoEthernet/projects/ProDinoIntRelay/Processing.cpp:506-526 | The body a relay button posts ("rnN=ON"/"OFF") switches exactly that relay. |
| IntRelayProcessing.ButtonOtherField | KMPDinoEthernet/src/KMPDinoEthernet/projects/ProDinoIntRelay/Processing.cpp:511 | A button's body asks nothing of the other relays. |
| IntRelayProcessing.ButtonOwnField | KMPDinoEthernet/src/KMPDinoEthernet/projects/ProDinoIntRelay/Processing.cpp:511-523 | A button's body asks its own relay for its state. |
| IntRelayProcessing.SettingsSavedIff | KMPDinoEthernet/src/KMPDinoEthernet/projects/ProDinoIntRelay/Processing.cpp:541-555 | All VALID_DATA_LEN records are valid iff every relay name has 3..16 characters. |
| IntRelayProcessing.UserIpSavedIff | KMPDinoEthernet/src/KMPDinoEthernet/projects/ProDinoIntRelay/Processing.cpp:574-587 | All user/IP records are valid iff every field's rule holds. |
| IntRelayProcessing.HasError | KMPDinoEthernet/src/KMPDinoEthernet/projects/ProDinoIntRelay/Processing.cpp:541-548 | The error scan is true iff some record is invalid. |
| IntRelayProcessing.ReadSettingsLine | KMPDinoEthernet/src/KMPDinoEthernet/projects/ProDinoIntRelay/Processing.cpp:326-372 | The form read over the received body gives the scan's result, and the edit stays inside the line. |
| IntRelayProcessing.ReadUserAndIpLine | KMPDinoEthernet/src/KMPDinoEthernet/projects/ProDinoIntRelay/Processing.cpp:383-480 | The same for the user/IP form. |
| IntRelayProcessing.IsAuthorized | KMPDinoEthernet/src/KMPDinoEthernet/projects/ProDinoIntRelay/Processing.cpp:483-492 | True iff the headers authorize. Otherwise the request is drained and the unauthorized page is sent. |
| IntRelayProcessing.SwitchRelay | KMPDinoEthernet/src/KMPDinoEthernet/projects/ProDinoIntRelay/Processing.cpp:508-525 | One relay of the loop: it switches (and the loop stops) iff its field asks. |
| IntRelayProcessing.SwitchRelays | KMPDinoEthernet/src/KMPDinoEthernet/projects/ProDinoIntRelay/Processing.cpp:506-526 | The loop sets only the first relay asked for, to the state asked. |
| IntRelayProcessing.IndexPost | KMPDinoEthernet/src/KMPDinoEthernet/projects/ProDinoIntRelay/Processing.cpp:494-530 | With a body, it switches as `SwitchFrom` says. Without one, no relay changes. The index page is sent in both cases. |
| IntRelayProcessing.GetPrivateSettingsData | KMPDinoEthernet/src/KMPDinoEthernet/projects/ProDinoIntRelay/Processing.cpp:318-373 | False iff the body is empty. Otherwise it gives the scan of the received body. |
| IntRelayProcessing.GetPrivateUserAndIpData | KMPDinoEthernet/src/KMPDinoEthernet/projects/ProDinoIntRelay/Processing.cpp:375-481 | The same for the user/IP form. |
| IntRelayProcessing.StoreSettings | KMPDinoEthernet/src/KMPDinoEthernet/projects/ProDinoIntRelay/Processing.cpp:537-562 | The relay list is saved to EEPROM and reloaded only if every record is valid. The page shows error xor success; with no body it shows the stored list and the error. |
| IntRelayProcessing.PrivateSettingsPost | KMPDinoEthernet/src/KMPDinoEthernet/projects/ProDinoIntRelay/Processing.cpp:532-563 | It is saved iff a body was sent and every name is valid. It answers with the settings page, and the stored settings stay equal to EEPROM. |
| IntRelayProcessing.StoreUserAndIp | KMPDinoEthernet/src/KMPDinoEthernet/projects/ProDinoIntRelay/Processing.cpp:570-594 | The device settings are saved and reloaded only if every record is valid, with the same page rule. |
| IntRelayProcessing.PrivateUserAndIpPost | KMPDinoEthernet/src/KMPDinoEthernet/projects/ProDinoIntRelay/Processing.cpp:565-595 | It is saved iff a body was sent and every field's rule holds. It answers with the user/IP page, and the stored settings stay equal to EEPROM. |
| IntRelayProcessing.Admit | KMPDinoEthernet/src/KMPDinoEthernet/projects/ProDinoIntRelay/Processing.cpp:603-613 | An invalid line, type or page drains the request and sends nothing. An unauthorized request gets the unauthorized page. Otherwise the request is admitted with its type and page. |
| IntRelayProcessing.AnswerIndex | KMPDinoEthernet/src/KMPDinoEthernet/projects/ProDinoIntRelay/Processing.cpp:617-627 | Exactly one index page is sent; a GET changes nothing. |
| IntRelayProcessing.AnswerSettings | KMPDinoEthernet/src/KMPDinoEthernet/projects/ProDinoIntRelay/Processing.cpp:628-641 | Exactly one settings page is sent; a GET shows the stored list and changes nothing. |
| IntRelayProcessing.AnswerUserAndIp | KMPDinoEthernet/src/KMPDinoEthernet/projects/ProDinoIntRelay/Processing.cpp:642-654 | Exactly one user/IP page is sent; a GET shows the stored device settings and changes nothing. |
| IntRelayProcessing.AnswerRequest | KMPDinoEthernet/src/KMPDinoEthernet/projects/ProDinoIntRelay/Processing.cpp:615-661 | The switch sends exactly one page, the one requested. GETs change no settings and no relay, and EEPROM and the stored settings stay in step. |
| IntRelayProcessing.ProcessRequest | KMPDinoEthernet/src/KMPDinoEthernet/projects/ProDinoIntRelay/Processing.cpp:597-662 | Every page is served only after authorization. A dropped request sends nothing, a refused one the unauthorized page, and an admitted one exactly its page. Only an admitted POST can change relays or settings. |
| MqttTopic.JoinSnoc | ProDinoMKRZero/src/ProDinoMKRZero/src/MqttTopicHelper.cpp:75-86 | Joining one more level adds a separator and the level. |
| MqttTopic.BuiltIsJoin | ProDinoMKRZero/src/ProDinoMKRZero/src/MqttTopicHelper.cpp:103-120 | `buildTopic` over non-empty parts is the parts joined by '/'. |
| MqttTopic.BuiltGrows | ProDinoMKRZero/src/ProDinoMKRZero/src/MqttTopicHelper.cpp:103-120 | The topic only grows as parts are appended, and has no NUL when the parts have none. |
| MqttTopic.AddCharToStr | ProDinoMKRZero/src/ProDinoMKRZero/src/MqttTopicHelper.cpp:62-68 | Exactly one character is appended: the old string is kept and the length grows by one. |
| MqttTopic.AddTopicSeparator | ProDinoMKRZero/src/ProDinoMKRZero/src/MqttTopicHelper.cpp:70-73 | A '/' is appended. |
| MqttTopic.AppendTopic | ProDinoMKRZero/src/ProDinoMKRZero/src/MqttTopicHelper.cpp:75-86 | The result is `next` for an empty topic, otherwise topic + '/' + next. |
| MqttTopic.BuildTopic | ProDinoMKRZero/src/ProDinoMKRZero/src/MqttTopicHelper.cpp:103-120 | The buffer holds the parts appended in order; with no parts, "". |
| MqttTopic.RunLength | ProDinoMKRZero/src/ProDinoMKRZero/src/MqttTopicHelper.cpp:180-186 | The run is maximal: no '/' inside, and a '/' or the end after it. |
| MqttTopic.ScanStart | ProDinoMKRZero/src/ProDinoMKRZero/src/MqttTopicHelper.cpp:150-178 | The scan starts inside the topic. |
| MqttTopic.NextLevel | ProDinoMKRZero/src/ProDinoMKRZero/src/MqttTopicHelper.cpp:137-196 | A level found is non-empty and inside the topic. |
| MqttTopic.NextLevelIsFirstLevel | ProDinoMKRZero/src/ProDinoMKRZero/src/MqttTopicHelper.cpp:163-189 | Without skip, there is no level iff the topic is "", "/", or has an empty first level. Otherwise one leading '/' is dropped and the level is the maximal non-'/' run. |
| MqttTopic.SkipNeedsMainTopic | ProDinoMKRZero/src/ProDinoMKRZero/src/MqttTopicHelper.cpp:150-161 | With skip, a level is found only if the topic is longer than the main topic, starts with it and has '/' right after it; the level starts after that '/'. |
| MqttTopic.LevelsOfJoin | ProDinoMKRZero/src/ProDinoMKRZero/src/MqttTopicHelper.cpp:137-196 | Splitting level by level a '/'-joined string of non-empty levels returns those levels in order. |
| MqttTopic.BuildThenSplit | ProDinoMKRZero/src/ProDinoMKRZero/src/MqttTopicHelper.cpp:103-196 | Round trip: `getNextTopic` applied repeatedly to what `buildTopic` built returns the parts. |
| MqttTopic.SkipFindsFirstLevel | ProDinoMKRZero/src/ProDinoMKRZero/src/MqttTopicHelper.cpp:137-196 | Round trip with the main topic: with skip, the first level after the main topic is the first part given to `buildTopicWithMT`. |
| MqttTopic.IsTopicSetMeans | ProDinoMKRZero/src/ProDinoMKRZero/src/MqttTopicHelper.cpp:198-201 | True iff the topic is some name followed by "/set". |
| MqttTopic.IsOnlyThisTopic | ProDinoMKRZero/src/ProDinoMKRZero/src/MqttTopicHelper.cpp:203-211 | False when either topic is null; otherwise string equality. |
| MqttTopic.TwoLevels | ProDinoMKRZero/src/ProDinoMKRZero/src/MqttTopicHelper.cpp:24-33 | strcpy, separator and strcat give first + '/' + second. |
| MqttTopic.ScanRun | ProDinoMKRZero/src/ProDinoMKRZero/src/MqttTopicHelper.cpp:180-186 | The scan loop counts the maximal run. |
| MqttTopic.CopyLevel | ProDinoMKRZero/src/ProDinoMKRZero/src/MqttTopicHelper.cpp:191 | `strNCopy` leaves the level, NUL-terminated, in the output buffer. |
| MqttTopic.CopyOverCleared | ProDinoMKRZero/src/ProDinoMKRZero/src/MqttTopicHelper.cpp:146-191 | The NUL written first is overwritten by a non-empty copy. |
| MqttTopic.TopicHelper.Init | ProDinoMKRZero/src/ProDinoMKRZero/src/MqttTopicHelper.cpp:17-36 | mainTopic = base + '/' + device, and isReadyTopic = mainTopic + '/' + "isready". The length of "/set" is recorded. |
| MqttTopic.TopicHelper.BuildTopicWithMainTopic | ProDinoMKRZero/src/ProDinoMKRZero/src/MqttTopicHelper.cpp:213-232 | The main topic followed by '/' and each part. |
| MqttTopic.TopicHelper.FindStart | ProDinoMKRZero/src/ProDinoMKRZero/src/MqttTopicHelper.cpp:150-178 | The start found and the false returns are those of `ScanStart`. |
| MqttTopic.TopicHelper.GetNextTopic | ProDinoMKRZero/src/ProDinoMKRZero/src/MqttTopicHelper.cpp:137-196 | Null or empty input gives false with the output untouched. Otherwise the result is true iff a level exists. Then the output holds the level and otherTopics points just after it; on every later false return the output is "". |
| Mcp23s08.SetBit | ProDinoESP32/src/ProDinoESP32/src/MCP23S08.cpp:66-77 | Bit p of the result is the requested value. |
| Mcp23s08.SetBitOther | ProDinoESP32/src/ProDinoESP32/src/MCP23S08.cpp:66-77 | All other bits are unchanged. |
| Mcp23s08.SetBitIdempotent | ProDinoESP32/src/ProDinoESP32/src/MCP23S08.cpp:66-77 | Setting a bit twice is setting it once, and setting a bit to its own value changes nothing. |
| Mcp23s08.Reply | ProDinoESP32/src/ProDinoESP32/src/MCP23S08.cpp:106-114 | The expander answers a read frame [0x41, addr, x] with the register's value in byte 2. |
| Mcp23s08.Applied | ProDinoESP32/src/ProDinoESP32/src/MCP23S08.cpp:124-131 | A write frame [0x40, addr, data] sets that register; any other frame sets none. |
| Mcp23s08.WriteThenRead | ProDinoESP32/src/ProDinoESP32/src/MCP23S08.cpp:106-131 | A register reads back what was last written to it, and a read changes no register. |
| Mcp23s08.Expander.TransferBytes | ProDinoESP32/src/ProDinoESP32/src/MCP23S08.cpp:133-138 | Three bytes are exchanged: the frame is sent, and the reply lands in the receive buffer. |
| Mcp23s08.Expander.ReadRegister | ProDinoESP32/src/ProDinoESP32/src/MCP23S08.cpp:106-114 | It sends [0x41, addr, stale byte] and returns the register's value, changing no register. |
| Mcp23s08.Expander.WriteRegister | ProDinoESP32/src/ProDinoESP32/src/MCP23S08.cpp:124-131 | It sends [0x40, addr, data], and the register takes data. |
| Mcp23s08.Expander.SetPinState | ProDinoESP32/src/ProDinoESP32/src/MCP23S08.cpp:59-78 | A pin > 7 does nothing: no transfer, and registers and both buffers are unchanged. Otherwise OLAT is read and written back with only bit p changed, no other register changes, and the transmit buffer is left holding the write frame. |
| Mcp23s08.Expander.GetPinState | ProDinoESP32/src/ProDinoESP32/src/MCP23S08.cpp:87-97 | A pin > 7 gives false with no transfer and both buffers unchanged. Otherwise it gives bit p of GPIO (not OLAT), and the transmit buffer is left holding the read frame's command and address. |
| Mcp23s08.Expander.SetPinDirection | ProDinoESP32/src/ProDinoESP32/src/MCP23S08.cpp:148-167 | A pin > 7 does nothing: no transfer, and registers and both buffers are unchanged. Otherwise IODIR bit p is set for INPUT (the ESP32 core's value 0x01) and cleared for any other mode, the other bits and registers are unchanged, and the transmit buffer is left holding the write frame. |
| Mcp23s08.Expander.constructor | ProDinoESP32/src/ProDinoESP32/src/MCP23S08.cpp:33-34 | The transmit and receive buffers and the expander's registers. |
| FanCoilBypass.AddULong | ProDinoWiFiEsp/src/PRODINoESP8266/examples/WiFiFanCoilMqttMng/FanCoilBypass.cpp:61 | `millis() + interval` wraps modulo 2^32. |
| FanCoilBypass.PinOf | ProDinoWiFiEsp/src/PRODINoESP8266/examples/WiFiFanCoilMqttMng/FanCoilBypass.cpp:25-35 | On drives BYPASS_ON_PIN and anything else BYPASS_OFF_PIN, never both. |
| FanCoilBypass.DueIffElapsed | ProDinoWiFiEsp/src/PRODINoESP8266/examples/WiFiFanCoilMqttMng/FanCoilBypass.cpp:61-74 | The corrected comparison commits exactly when more than 10000 ms have passed, wherever the counter stands. |
| FanCoilBypass.AsWrittenAgreesWithoutWrap | ProDinoWiFiEsp/src/PRODINoESP8266/examples/WiFiFanCoilMqttMng/FanCoilBypass.cpp:61-74 | Without a wrap, the comparison as written also commits exactly after 10000 ms. |
| FanCoilBypass.AsWrittenCommitsEarly | ProDinoWiFiEsp/src/PRODINoESP8266/examples/WiFiFanCoilMqttMng/FanCoilBypass.cpp:61-74 | A change started 5000 ms before the wrap commits 1 ms later as written. |
| FanCoilBypass.AsWrittenNeverCommits | ProDinoWiFiEsp/src/PRODINoESP8266/examples/WiFiFanCoilMqttMng/FanCoilBypass.cpp:61-74 | A change whose deadline is 2^32-1 never commits as written. |
| FanCoilBypass.Bypass.constructor | ProDinoWiFiEsp/src/PRODINoESP8266/examples/WiFiFanCoilMqttMng/FanCoilBypass.cpp:7-10 | Initially: state Off, no change in progress, pins released. |
| FanCoilBypass.Bypass.State | ProDinoWiFiEsp/src/PRODINoESP8266/examples/WiFiFanCoilMqttMng/FanCoilBypass.cpp:20-23 | `state()` returns the committed state. |
| FanCoilBypass.Bypass.SetBypassPin | ProDinoWiFiEsp/src/PRODINoESP8266/examples/WiFiFanCoilMqttMng/FanCoilBypass.cpp:25-35 | Only the pin of the state is driven. |
| FanCoilBypass.Bypass.SetBypassState | ProDinoWiFiEsp/src/PRODINoESP8266/examples/WiFiFanCoilMqttMng/FanCoilBypass.cpp:47-64 | Unforced, the same state or a change in progress is a no-op. Otherwise it records the state, marks the change, sets deadline = now + 10000 (mod 2^32) and energises that state's pin. The committed state is never changed. A forced reversal mid-change leaves both pins energised. |
| FanCoilBypass.Bypass.ProcessByPassState | ProDinoWiFiEsp/src/PRODINoESP8266/examples/WiFiFanCoilMqttMng/FanCoilBypass.cpp:66-85 | It does nothing unless a change is in progress and its deadline has passed. Then it commits the new state, clears the flag, releases the pin, and publishes once if a callback is set. |

## Left out

- I/O and hardware: Ethernet, SPI, `delay`, `wdt_reset`, serial debug output (`#ifdef DEBUG`, `printTopicAndPayload`) and the HTML markup of the pages. The pages a handler sends are recorded as values (`IntRelayProcessing.Page`). The bytes sent by the output buffer are recorded as a sequence of writes.
- EEPROM: `ReadEEPROMData`/`WriteEEPROM*` are an EEPROM image in `IntRelayProcessing.Board`; a save writes the image and reloads the settings from it.
- KMPCommon, which is not shown:
  - `startsWith`, `endsWith`, `strNCopy` and `strReplace` are given their evident meaning;
  - `strNCopy(dst, src, n)` is taken to copy n characters and put NUL at dst[n];
  - `atoip`, `atoUint8` and the base64 credential check (`base64UserPassIsValid`, `baUserPassIsValid`) are function parameters, with no assumption made about them;
  - `W_ON`/`W_OFF` are taken as "ON"/"OFF";
  - the value `val` of a failed `atoUint8` is the parameter `undefined`.
- `Processing::init`, `resetSettings`, `IsAddressesChanged`/`SetAddressesChanged` as functions (the flag itself is modelled), and `encodeUserPass`: EEPROM start-up and the base64 library.
- The WatchDog's `IsAuthorized`, `PrivateSettingsPOST` and `PrivateUserAndIpPOST`: they repeat the IntRelay code modelled in `IntRelayProcessing`, with the WatchDog's pages.
- The WatchDog's `processRequest` (ProDinoWatchDog/Processing.cpp:683-731). It is not modelled, and it differs from the IntRelay one in three ways:
  - it ignores the result of `GetRequestTypeAndPage`, so a request line that cannot be read or is neither GET nor POST leaves `wp` uninitialised, and the switch then runs on that value, which is undefined behaviour in C++;
  - a known type with an unknown page (WP_NONE) reaches its `default:` branch and gets the not-found page;
  - WP_INDEX is served without `IsAuthorized`, whatever the method, and there is no `IndexPOST`.
- The `default:` branch of IntRelay `processRequest` (not found page): it cannot be reached, because `GetRequestTypeAndPage` already rejects WP_NONE.
- `MqttTopicHelper` `getMainTopic`, `getIsReadyTopic`, `startsWithMainTopic`, `isBaseTopic`, `isMainTopic` and `isReadyTopic`. Each is one call to `startsWith`/`isOnlyThisTopic` on a stored topic, and those calls are modelled.
- MCP23S08 `init` and the SPI bus: the expander's register file stands for the chip, and GPIO is read as a stored register.
- FanCoilBypass `init` (expander directions) and the expander pins: the pins are the levels last given. The publish callback is modelled as a count of calls.
- The ICMP engine is not composed with the WatchDog: each ping's outcome and duration are inputs (`WatchdogProcessing.PingOutcome`).
- HttpRequest.Unset: the forms declare `paramVal`/`paramLen` without a value (IntRelay Processing.cpp:327-328, 384-385 and 502-503, WatchDog Processing.cpp:392-393 and 508-509), and `FindParameter` writes them only when a field is found, so before the first match they are uninitialised. The model points them at the end of the line with length 0. When the first field looked for is missing (no "DN1=" in a user/IP body, or no "cb1=" and no "rn1=" in a settings body), the source runs `strReplace` (IntRelay Processing.cpp:402 and 361) and `CheckValidData` on that garbage pointer and length, which is undefined behaviour. The model then edits nothing and shows an empty value. So `IntRelayForms.DnEdited`, `IntRelayForms.ReadRelaySettings`, `IntRelayProcessing.ReadSettingsLine` and `IntRelayProcessing.ReadUserAndIpLine` promise that bytes past the line are untouched, and the source does not promise that in this case.
- IcmpProtocol.DecodeReply: bytes of the 8-byte ICMP header buffer that a short packet leaves unread, and bytes past the data received, are taken as 0. In C they are whatever the stack or chip buffer held.
- IcmpProtocol.ReceiveEchoReply: the 32-bit wrap of `millis()` in the 1000 ms deadline is not modelled; the clock is unbounded.
- IcmpProtocol.Pinger.Ping: only bounds the reported time by the elapsed clock, because the exact value depends on when the first `millis()` step of the environment script lands.
- WatchdogProcessing.DueAt: NextTimeToOperate is an unbounded number, so the wrap of `millis()` after 49 days is not modelled.
- FanCoilBypass.Bypass.ProcessByPassState: uses the corrected deadline comparison (see Findings); the as-written comparison is modelled by `FanCoilBypass.DueAsWritten`.
- IcmpProtocol.ReadReply: advances the read pointer past the whole packet, as corrected (see Findings); the as-written advance is `IcmpProtocol.NextReadAsWritten`.
- IcmpProtocol.ReadNext, IcmpProtocol.Poll, IcmpProtocol.ReceiveEchoReply: they read through `ReadReply`, so every queued packet after the first is decoded at the corrected offset. On a queue holding a packet with more than 8 data bytes before another (every echo reply has 16), the source reads the later packet from inside the earlier one's payload; the model does not. `IcmpProtocol.AsWrittenMissesNextReply` shows the difference.
- The receive path of the W5100 library (`getRXReceivedSize`, `read_data`) is the class's received-byte queue. A packet whose bytes arrive in several pieces is read once its first byte is there, as the source does.
- Buffer capacities: the request line (254), the topic buffers (64) and the expander buffers are preconditions; overflow is not modelled. The form pages' overrun of their 17-character scratch buffer is listed under Findings.
- IcmpProtocol.AddWords: the two `*(icmpPacket++)` arguments of `Uint16From2Uint8` are unsequenced in C++. The model assumes the second is evaluated first, which makes each word little-endian like the native reads of identifier and sequence. With the other order the type/code and payload words would be big-endian, and the checksum would not verify.

## Findings

| source | as written | input that shows it | evidently intended | confidence | as-written member | corrected member |
|---|---|---|---|---|---|---|
| KMPDinoEthernet/src/KMPDinoEthernet/ICMPProtocol.cpp:225-236 | The data length is kept in a `uint8_t`, clamped to 8, and the read pointer moves only 6 + that many bytes, so the echo payload stays in the receive buffer. | A stale reply (sequence 1, 24 data bytes) queued before the answer (sequence 2): the next read starts inside the stale payload, and the answer is never decoded. | Move the read pointer past the whole packet: 6 + the full 16-bit length. | not executed | IcmpProtocol.NextReadAsWritten, IcmpProtocol.AsWrittenStopsInsidePacket, IcmpProtocol.AsWrittenMissesNextReply | IcmpProtocol.NextRead, IcmpProtocol.NextReadSkipsWholePacket, IcmpProtocol.ReadReply, IcmpProtocol.ReadNext, IcmpProtocol.Poll, IcmpProtocol.ReceiveEchoReply |
| KMPDinoEthernet/Releases/Last/KMPDinoEthernet/projects/ProDinoWatchDog/Structures.cpp:79-82 | The reset values are written into `pd`, a local copy, so ProcessList is never reset. | ProcessList[0] = {LostTimes 2, Restarts 1, NextOpertion OT_RESTART} is the same after `SetLists_DEF`. | Reset the ProcessList entry itself (a reference, `ProcessInfo& pd`). | not executed | WatchdogStructures.Globals.SetListsDefAsWritten, WatchdogStructures.SetListsDefAsWrittenKeepsHistory | WatchdogStructures.Globals.SetListsDef, WatchdogStructures.SetListsDefResetsAll |
| KMPDinoEthernet/src/KMPDinoEthernet/projects/ProDinoIntRelay/HtmlPages.cpp:516-526 | A rejected value is copied with its full Length, with a NUL after it, into `str`, which holds MAX_IP_STR_LEN + 1 = 17 characters. Nothing bounds the copy by the buffer. The settings page makes the same unbounded copy of a rejected relay name into its own 17-character `str` (HtmlPages.cpp:451 and 475-476). | A POST of the user/IP page whose body is "US1=" followed by 17 or more characters: the user name is rejected (more than 8 characters) and its 17+ characters and NUL are written into the 17-character buffer. | Copy at most the buffer's size less one, or size `str` for the longest value a field can carry. | not executed | HtmlOutput.CheckValidData, IntRelayForms.LongCredentialOverruns, IntRelayForms.LongUserOverruns | HtmlOutput.CheckValidDataBounded |
| ProDinoWiFiEsp/src/PRODINoESP8266/examples/WiFiFanCoilMqttMng/FanCoilBypass.cpp:61-74 | The deadline `millis() + 10000` is compared with `deadline < millis()` on wrapping 32-bit values. | Start at 2^32-5000: the deadline wraps to 5000 and the change commits 1 ms later. Start at 4294957295: the deadline is 2^32-1 and the change never commits. | Commit once more than 10000 ms have passed: compare `millis() - deadline` as a signed difference. | not executed | FanCoilBypass.DueAsWritten, FanCoilBypass.AsWrittenCommitsEarly, FanCoilBypass.AsWrittenNeverCommits | FanCoilBypass.Due, FanCoilBypass.DueIffElapsed, FanCoilBypass.Bypass.ProcessByPassState |
