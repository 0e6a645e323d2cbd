# Verified models of a Realtek Bluetooth and WiFi driver pair

This project models the parts of the two Linux drivers that decide something:
tables, stream parsers, protocols and counters. Everything that only talks to
hardware or to the kernel is an event, a parameter or a nondeterministic result.
`dafny verify dfyconfig.toml` checks it all.

| files | what they model |
|---|---|
| Nat25Spec, Nat25Runs, Nat25Table | the NAT2.5 bridge database: a chained hash table with back pointers, proved to be a map; its ageing, and the lives of its entries |
| PppoeRelay, PppoeFrames | the PPPoE relay tag put into and taken out of discovery packets, on tag lists and in the packet bytes |
| DhcpChecksum | the DHCP broadcast flag and the incremental UDP checksum |
| HciFraming, HciPackets, HciReceivers | HCI packet framing, the packets octet by octet, the three host receivers and the coexistence snooper's second receiver |
| TxProtocol, TxHistory, TxDriver | the transmit, suspend and resume protocol over all interleavings, what its state says about the past, and the driver methods that follow it |
| CoexState, CoexCounts, CoexMachine, CoexProfiles | profile reference counts and bitmaps, the snooper as a machine on values, and the event handlers that follow it |
| ConfigMerge, ConfigFile | merging configuration items, parsing and writing the configuration file |
| Firmware | cutting firmware into download fragments |
| StationMarks, StationRuns, StationAccounting | what a soft access point notes about its stations: counters, HT operation mode, ERP bits |
| Tim | the compressed traffic indication map |
| BeaconElements, BeaconBuffer | adding and removing beacon elements, on lists and in the buffer |
| SoundingLists, Sounding | the beamforming sounding state machine |
| Octets, Buffers | octets and 16-bit words; copying into a buffer |

Build choices: kernel 5.15 or newer for the NAT2.5 hash, 3.18 or newer for the
receivers; `CONFIG_80211N_HT` and `RTW_BEAMFORMING_VERSION_2` on; 32-bit
`unsigned long` and `HZ` 250 for the ageing arithmetic. `rtw_get_ie` is the
first element with an ID in a well-formed list. Kernel lists and anchors are
sequences, except in NAT2.5, whose links are modelled one by one.

## What turned out differently than expected

- The PPPoE tag is added with the right length exactly on a big-endian host:
  the driver adds the network-order length field as it is (`AddedLengthRight`).
- The UDP checksum survives the DHCP rewrite exactly when the old flags word was
  zero (`ChecksumKept`); a datagram without checksum gets one exactly unless its new flags
  word is all ones (`UnusedBecomesUsed`).
- Reassembly depends on how a stream is cut into buffers exactly when octets stand
  behind its first oversize header (`CutsAgreeIff`), which event buffers rule out and
  ACL buffers below 65539 octets do not (`ChunkingNeverMattersIff`).
- A suspend is quiet exactly when the counter it finds stands for failed submissions
  alone; only an auto suspend looks (`SuspendQuietIff`, with the instance
  `SystemSuspendIsNotQuiet`). One failed submission prevents every later auto suspend
  (`OneFailureIsEnough`, with the instance `FailedThenBusy`).
- When resume clears the flag, a transfer can be left in the queue exactly if one is there
  or a refused sender has still to queue it (`StrandsIff`, `RefusedSenderCanBeStranded`).
- `sounding_running` stays 0 or 1 exactly until a late timer tick stops a period whose
  start command is still queued (`Step`, `RunAccounted`); after such a tick it can become
  -1 (`OvertakenUnderflows`, `StaleStartUnderflows`). Ticks alone then lower it through
  -128 and 127 to 0, where sounding starts again (`TicksUntilZero`).
- A station is asked to leave at the 31st sounding failure in a row, and again every 32
  failures later, because the counter has five bits (`LeavesAtThirtyFirst`).
- The merge of configuration lists is an overlay for all extra items exactly if the base
  list has distinct offsets (`OverlayIffDistinct`); the writer overruns its buffer exactly
  from 65536 bytes on (`Save`).
- Firmware indices leave their cycle exactly from 64260 bytes on, and a non-last
  fragment carries the end bit exactly from 64512 bytes on; four chips allow such sizes.
- Three of the seven station marks are never taken back on re-association (`RejoinForgets`).
- The access point also frees station records without the update for leaving stations: when
  a known station fails a new authentication, or its authentication expires. A counter is
  right, scans aside, exactly as long as no record was freed with its mark (`NumExactIff`); after
  that it is too high for good, so one freed non-ERP record keeps protection on (`LostForGood`,
  `FreedNonErp`, `FreedIntolerant`, `Run`).
- New beacon data resets the count of stations without HT although such stations may be
  associated (`ScanExactIff`); when one of them leaves, the count is -1 (`ScanUnderflows`).
- The TIM writer's result is right exactly up to 250 octets sent (`TotalRightIff`), and
  its first octet is not the standard's N1 when octet 0 holds only the group bit (`StartIsN1Iff`).
- Adding a beacon element silently does nothing behind an empty element (`EmptyAnchorBlocks`).
- If the buffer for the rest of the beacon cannot be allocated, the octets are right exactly
  when those to be moved stand in their new place already (`Splice`, `Add`, `Remove`,
  `HarmfulInsertion`).
- A profile count of 127 wraps and breaks the coexistence state, exactly when it is the one an
  event raises (`GainedKeeps`, `Coex.Step`).

## Model

| member | source | states |
|---|---|---|
| Nat25Spec.HasExpiredIsElapsedTime | WIFI/core/rtw_br_ext.c:145-162 | the wrapped jiffies comparison means that the ageing time has passed, for half a wrap of the counter |
| Nat25Spec.ExpiresAfterFiveMinutes | WIFI/core/rtw_br_ext.c:145-162 | and that time is five minutes |
| Nat25Spec.InsertThenLookup | WIFI/core/rtw_br_ext.c:415-524 | a lookup within the ageing time after an insert finds the inserted MAC address; every other key is untouched |
| Nat25Spec.ExpiredOnStep | WIFI/core/rtw_br_ext.c:659-719 | handling one more key in an expire pass changes exactly that key |
| Nat25Spec.AgeingIsExact | WIFI/core/rtw_br_ext.c:425-428 | over every run that does not re-insert, refresh or clean up an expired entry, it lives until exactly its use count of expire passes has run, whatever lookups happen |
| Nat25Spec.AbsentStaysAbsent | WIFI/core/rtw_br_ext.c:489-524 | nothing but an insert brings a freed key back |
| Nat25Spec.AgeingOfCalls | WIFI/core/rtw_br_ext.c:643-728 | the same in terms of calls: an expired entry that no insert, cleanup or frame of its host touches and the short cut does not point at is freed by exactly the expire call its use count says |
| Nat25Spec.CallsRun | WIFI/core/rtw_xmit.c:4663-4683 | which map operation each call performs is determined by the calls before it, short cut included |
| Nat25Runs.LiveRun | WIFI/core/rtw_br_ext.c:415-430 | over every run of operations while an entry is live, it gains one use per lookup of its address, modulo 2^32, and nothing else about it changes |
| Nat25Runs.Lifetime | WIFI/core/rtw_br_ext.c:425-428 | an address inserted anew and looked up n times while live is there for exactly n expire passes after it has expired, and the next one frees it |
| Nat25Runs.Renewed | WIFI/core/rtw_br_ext.c:489-508 | inserting a known address renews its time and MAC address and keeps its uses |
| Nat25Runs.Ipv4KeyOctets | WIFI/core/rtw_br_ext.c:164-172 | the octets of an IPv4 key |
| Nat25Runs.DifferentHosts | WIFI/core/rtw_br_ext.c:164-172 | two hosts have one key exactly if they have one address |
| Nat25Runs.Ipv4Bucket | WIFI/core/rtw_br_ext.c:328-378 | the bucket of an IPv4 host is the low nibble of the exclusive or of its four octets |
| Nat25Runs.BucketMoves | WIFI/core/rtw_br_ext.c:328-378 | for every kind of key, which octets decide the bucket, and by which of their bits |
| Nat25Runs.ScdbRefreshesOne | WIFI/core/rtw_xmit.c:4663-4683 | a frame refreshes the cached entry if its source is the one seen last, otherwise the entry of its own address, and no other; no use count or MAC address changes |
| Nat25Runs.ForgottenWithEntry | WIFI/core/rtw_br_ext.c:614-728 | the short cut is dropped with its source exactly when an expire pass or cleanup frees the entry it points at |
| Nat25Runs.CachedWasSent | WIFI/core/rtw_xmit.c:4663-4683 | over every run the short cut points at a known address that a frame of its source was sent from |
| Nat25Table.Table.HashLink | WIFI/core/rtw_br_ext.c:382-396 | the new entry becomes the head of its bucket's chain; all links, back pointers, buckets and keys stay well formed |
| Nat25Table.Table.PushKeepsStructure | WIFI/core/rtw_br_ext.c:382-396 | these pointer writes and no others keep every chain acyclic, disjoint and reached through its own back pointers |
| Nat25Table.Table.HashUnlink | WIFI/core/rtw_br_ext.c:399-412 | the write through the back pointer takes exactly this entry out of the chain, wherever it stands |
| Nat25Table.Table.RemoveKeepsStructure | WIFI/core/rtw_br_ext.c:399-412 | these pointer writes and no others keep the remaining table well formed |
| Nat25Table.Table.Remove | WIFI/core/rtw_br_ext.c:399-412 | one entry leaves its chain, the index and the set of live nodes; nothing else moves |
| Nat25Table.Table.Find | WIFI/core/rtw_br_ext.c:415-430 | the chain walk finds the one live entry with the key, or none exists |
| Nat25Table.Table.LookupAndReplace | WIFI/core/rtw_br_ext.c:415-486 | a live hit raises the use count of that key by one modulo 2^32 and replaces the destination; a miss or an expired entry changes nothing; every other key stays |
| Nat25Table.Table.CountUse | WIFI/core/rtw_br_ext.c:425-429 | the increment of a live entry is that of the map |
| Nat25Table.Table.Insert | WIFI/core/rtw_br_ext.c:489-524 | a known key gets the MAC address and the time and keeps its uses; a new one comes in with one use, or nothing happens without memory |
| Nat25Table.Table.ScdbRefresh | WIFI/core/rtw_xmit.c:4663-4683 | the short cut keeps its entry for a repeated source, takes the entry of a new source's address or nothing, and refreshes that one key |
| Nat25Table.Table.Expire | WIFI/core/rtw_br_ext.c:643-728 | one pass over all chains ages and frees exactly the entries the map pass does; the short cut never points at a freed node |
| Nat25Table.Table.Cleanup | WIFI/core/rtw_br_ext.c:614-641 | no entry is left, and a short cut to one is cleared |
| Nat25Table.Table.Play | WIFI/core/rtw_br_ext.c:382-728 | every run of calls keeps the table well formed and leaves exactly the map and the short cut that the same run of map operations gives |
| Nat25Table.NewTable | WIFI/core/rtw_br_ext.c:328-378 | the driver's table starts empty and well formed under the driver's hash |
| PppoeRelay.EchoIsStripped | WIFI/core/rtw_br_ext.c:1205-1246 | a reply that echoes the relay tag among any other tags goes to the client that sent the request, with the other tags untouched |
| PppoeRelay.RoundTrip | WIFI/core/rtw_br_ext.c:1134-1246 | stripping what was inserted gives the client address and the restored tag list |
| PppoeRelay.RestoredExactly | WIFI/core/rtw_br_ext.c:1134-1246 | the list is restored as it was exactly when there was no relay tag or a nonempty one in front |
| PppoeRelay.ForeignIsLeftAlone | WIFI/core/rtw_br_ext.c:1205-1246 | a packet is left alone exactly if it has no relay tag or its first one is too short or lacks the magic code, stated in octets |
| PppoeRelay.AddedLengthRight | WIFI/core/rtw_br_ext.c:105-121 | the length added to the packet is the tag's length exactly on a big-endian host |
| PppoeFrames.Skb.FindRelay | WIFI/core/rtw_br_ext.c:87-102 | on any packet, the scan loop gives the place, the absence or the overrun that the octet-wise reading defines |
| PppoeFrames.RelayOfList | WIFI/core/rtw_br_ext.c:87-102 | in a packet that carries a tag list that is the place of its first relay tag, or there is none |
| PppoeFrames.TagOctets | WIFI/core/rtw_br_ext.c:87-121 | the octets of a tag |
| PppoeFrames.RelayTagOctets | WIFI/core/rtw_br_ext.c:1134-1171 | the octets of the relay tag sent for a client: type, length, magic code, address, old data |
| PppoeFrames.PacketOctets | WIFI/core/rtw_br_ext.c:87-102 | eighteen octets of headers, the length of the tags and the tags are a packet that carries them |
| PppoeFrames.Skb.PullAndMerge | WIFI/core/rtw_br_ext.c:124-143 | n octets are cut out with everything around them in place, or the packet is unchanged |
| PppoeFrames.Skb.AddTag | WIFI/core/rtw_br_ext.c:105-121 | on success the packet carries the new tag in front of the old list with its length field right; rejected, with the packet unchanged, exactly without tail room |
| PppoeFrames.Skb.TakeOld | WIFI/core/rtw_br_ext.c:1140-1160 | the client's own relay tag is taken out and its data returned, or the packet is unchanged when the data is too long for the tag buffer |
| PppoeFrames.Skb.InsertRelay | WIFI/core/rtw_br_ext.c:1134-1171 | on success the bytes carry exactly the list `Inserted`, the header unchanged; rejected exactly when the old data exceeds 28 octets or room is missing |
| PppoeFrames.Skb.StripRelay | WIFI/core/rtw_br_ext.c:1205-1246 | the bytes carry exactly what `Strip` gives and are addressed to its client, or are unchanged |
| PppoeFrames.CutCarries | WIFI/core/rtw_br_ext.c:124-143 | cutting the octets of one tag and correcting the length leaves a packet that carries the other tags |
| PppoeFrames.ShortenCarries | WIFI/core/rtw_br_ext.c:1225-1240 | cutting the front of one tag's data and correcting both lengths leaves a packet with that tag shortened |
| DhcpChecksum.Fold | WIFI/core/rtw_br_ext.c:1547-1549 | the folding loop ends in the one's-complement value of the sum |
| DhcpChecksum.FlagBroadcast | WIFI/core/rtw_br_ext.c:1522-1558 | in memory, the top bit of the first flags octet is set and the others are kept; the checksum changes only if it was clear; nothing else changes |
| DhcpChecksum.FlagInOctets | WIFI/core/rtw_br_ext.c:1541-1546 | on either host the flag is the top bit of the first flags octet in memory |
| DhcpChecksum.SumShift | WIFI/core/rtw_br_ext.c:1541-1553 | the rewrite lowers the datagram's sum by the old flags word, modulo 65535 |
| DhcpChecksum.ChecksumKept | WIFI/core/rtw_br_ext.c:1541-1553 | a valid datagram stays valid exactly when the old flags word was zero or the flag was already set |
| DhcpChecksum.NonzeroFlagsBreak | WIFI/core/rtw_br_ext.c:1541-1553 | a valid datagram with a reserved flag bit set that is invalid afterwards |
| DhcpChecksum.ZeroResult | WIFI/core/rtw_br_ext.c:1551-1553 | when the new checksum is zero, which UDP reads as none |
| DhcpChecksum.UnusedBecomesUsed | WIFI/core/rtw_br_ext.c:1541-1553 | a datagram without checksum gets a nonzero one exactly unless its new flags are all ones; when it is valid |
| DhcpChecksum.ByteOrderIrrelevant | WIFI/core/rtw_br_ext.c:1541-1553 | validity does not depend on the host's byte order |
| HciFraming.ParseIsExact | BT/rtk_bt.c:211-376 | delivered packets followed by the partial one are the stream, and each packet is header plus announced length |
| HciFraming.ParseIsUnique | BT/rtk_bt.c:211-376 | there is no other way to cut the stream into packets and a partial one |
| HciFraming.ParseSplit | BT/rtk_bt.c:211-376 | reading one piece and then the next from the kept partial packet is reading both at once |
| HciFraming.ChunkingIrrelevant | BT/rtk_bt.c:211-376 | any two ways to cut a stream without oversize header into buffers deliver the same packets and leave the same partial one |
| HciFraming.PiecesAgree | BT/rtk_bt.c:211-376 | buffer by buffer, reception succeeds exactly when the whole stream is good, with the same result |
| HciFraming.EventsAlwaysFit | BT/rtk_bt.c:211-263 | no event header can be oversize |
| HciFraming.CutsAgreeIff | BT/rtk_bt.c:211-376 | all ways to cut a stream into buffers deliver and leave the same exactly if nothing stands behind its first oversize header |
| HciFraming.ChunkingNeverMattersIff | BT/rtk_bt.c:211-376 | that holds of all streams exactly for a receiver whose buffers hold the longest packet a header can announce |
| HciFraming.OversizeDependsOnChunking | BT/rtk_bt.c:240-249 | any packet behind any oversize header is lost or delivered depending on the cut |
| HciPackets.SentIsReceived | BT/rtk_bt.c:211-376 | round trip: of any packets that fit, encoded octet by octet, exactly these are delivered and nothing is left |
| HciPackets.SentIsReceivedInPieces | BT/rtk_bt.c:211-376 | the same for every cut of the octets into buffers, with the beginning of a further packet kept |
| HciPackets.TooLongIsRefused | BT/rtk_bt.c:240-249 | a packet that does not fit ends the reading at its header, behind all packets before it |
| HciPackets.OutOfMemory | BT/rtk_bt.c:224-231 | with fewer buffers than packets exactly the first ones are delivered and nothing is kept |
| HciReceivers.HciReceiver.Recv | BT/rtk_bt.c:211-376 | the receive loop delivers, keeps and fails exactly as reading kept octets and buffer as one stream, also when allocation fails; what that is in octets say the rows of HciPackets |
| HciReceivers.CoexReceiver.ParseEvent | BT/rtk_coex.c:2507-2577 | the snooper's pointer-and-counter loop delivers and keeps exactly what the stream reading gives |
| HciReceivers.FeedBoth | BT/rtk_bt.c:395-407 | fed the same buffers, snooper and host receiver see the same packets for ever, also after a bad header |
| TxProtocol.InvStep | BT/rtk_bt.c:178-190 | every step of every thread keeps the counter equal to the transfers it stands for, the queue exact and the flag in step |
| TxProtocol.InvRun | BT/rtk_bt.c:1067-1087 | hence every interleaving does |
| TxProtocol.AutoSuspendSafe | BT/rtk_bt.c:1804-1816 | from a successful auto suspend until resume takes the lock, nothing is outstanding or about to be submitted and nothing is submitted |
| TxProtocol.AutoSuspendIffQuiet | BT/rtk_bt.c:1804-1816 | an auto suspend succeeds exactly when no transfer counts |
| TxProtocol.FailureBlocksAutoSuspend | BT/rtk_bt.c:1067-1087 | while a failed transfer stands, no auto suspend succeeds |
| TxHistory.CounterIsTally | BT/rtk_bt.c:178-190 | over every run the counter is what it was plus the transfers accepted and played less those completed |
| TxHistory.OneFailureIsEnough | BT/rtk_bt.c:1067-1087 | after one failed submission in a run, by a sender or from the queue, no suspension is ever automatic again and the counter stays positive |
| TxHistory.AutoSuspendRefused | BT/rtk_bt.c:1804-1816 | so every auto suspend decided after a failure is turned down |
| TxHistory.FailedThenBusy | BT/rtk_bt.c:1067-1087 | an instance: one failed submission, then a refused auto suspend |
| TxHistory.PlaceTells | BT/rtk_bt.c:732-757 | over every run from the start, the place of a transfer tells exactly what has happened to it |
| TxHistory.LockExcludes | BT/rtk_bt.c:1873-1904 | while resume holds the lock nothing is counted or decided but what it plays |
| TxHistory.DrainedSuspend | BT/rtk_bt.c:1804-1824 | what is on the bus between a drained suspend and its resume was submitted since |
| TxHistory.FailedResume | BT/rtk_bt.c:1873-1922 | a resume that cannot receive again plays nothing and drops every queued transfer before it clears the flag |
| TxProtocol.TransfersAdvance | BT/rtk_bt.c:732-757 | transfers only advance: none is submitted or ends twice |
| TxProtocol.LiveByCounter | BT/rtk_bt.c:178-190 | no transfer is live exactly when the counter equals the number of failed submissions |
| TxProtocol.SuspendQuietIff | BT/rtk_bt.c:1804-1816 | after a suspend, automatic or not, no interleaving submits or ends a transfer before resume exactly when the counter it found stands for failed submissions alone; always for an auto suspend |
| TxProtocol.SubmitsWhileSuspendedIff | BT/rtk_bt.c:1067-1087 | some interleaving submits a transfer while suspended exactly when a sender is past the counter |
| TxProtocol.SystemSuspendIsNotQuiet | BT/rtk_bt.c:1804-1816 | an instance: a reachable state with a transfer outstanding during a system suspend |
| TxProtocol.StrandsIff | BT/rtk_bt.c:1901-1918 | when resume clears the flag, on success or failure, some interleaving leaves a transfer queued with nobody to play it exactly if one is queued or refused then |
| TxProtocol.QueueIsFifo | BT/rtk_bt.c:1827-1850 | in every interleaving, senders queueing meanwhile included, transfers are played in the order they were queued and none is lost until the queue is scuttled |
| TxProtocol.RefusedSenderCanBeStranded | BT/rtk_bt.c:1901-1918 | an instance: a reachable state with a queued transfer, the device awake and nobody to play it |
| TxDriver.Btusb.IncTx | BT/rtk_bt.c:178-190 | the method is the protocol's step; it refuses exactly while suspending, and counts otherwise |
| TxDriver.Btusb.SendFrame | BT/rtk_bt.c:1067-1087 | counted and submitted, or refused and queued last; the counter goes up exactly when not suspending, whether or not the submission succeeds |
| TxDriver.Btusb.TxComplete | BT/rtk_bt.c:732-757 | the method is the protocol's completion step and lowers the counter |
| TxDriver.Btusb.Suspend | BT/rtk_bt.c:1800-1825 | busy exactly for an auto suspend with transfers counted; otherwise the flag is set, with none counted if auto |
| TxDriver.Btusb.PlayDeferred | BT/rtk_bt.c:1827-1850 | the loop is a legal run: every queued transfer ends where its own submission puts it, all are counted, no other moves, and the queue is empty |
| CoexState.ProfileOf | BT/rtk_coex.c:247-271 | only HID, A2DP and PAN are tracked by channel |
| CoexState.CountsDecide | BT/rtk_coex.c:733-775 | in consistent states bitmap and status follow from the counts |
| CoexState.GainedKeeps | BT/rtk_coex.c:742-759 | one more user keeps bitmap, status and counts consistent exactly below 127 |
| CoexState.LostKeeps | BT/rtk_coex.c:760-776 | one user less keeps them consistent and lowers exactly that count, never below zero |
| CoexState.LostAfterGained | BT/rtk_coex.c:733-776 | losing a user undoes gaining one |
| CoexState.EarlyBit | BT/rtk_coex.c:1028-1033 | setting the sink bit before its count makes no difference |
| CoexState.LinkDownSubtracts | BT/rtk_coex.c:2020-2096 | a link going down takes one user per channel from each profile, never below zero, and no other but the sink, for which see `LinkDownCounts`; the interval count stays 0 |
| CoexState.RemainingIs | BT/rtk_coex.c:2067-2096 | exactly the channels of other links remain |
| CoexCounts.GainedCounts | BT/rtk_coex.c:742-759 | one user more: that count, its bit, and a first SCO user is busy |
| CoexCounts.ConnGainedCounts | BT/rtk_coex.c:754-759 | the same for the connection's own signed octets |
| CoexCounts.ClosedCounts | BT/rtk_coex.c:946-965 | closing a channel lowers the global count of its profile by one, never below zero, and with A2DP that of the connection's sink; no other |
| CoexCounts.ClosedInConnection | BT/rtk_coex.c:946-965 | the same for the connection's counts, bits and busy bits; the interval goes with the last HID user |
| CoexCounts.HeardCounts | BT/rtk_coex.c:1010-1040 | a first media packet makes A2DP busy and an incoming one brings in the sink, once |
| CoexCounts.LinkDownSink | BT/rtk_coex.c:2020-2096 | exactly how many users of the sink a link takes with it |
| CoexCounts.LinkDownCounts | BT/rtk_coex.c:2020-2096 | every global count after a link has gone down |
| CoexState.IntervalMeans | BT/rtk_coex.c:809-846 | on a connection whose interval count is its interval bit, both count tests succeed: the bit says whether the last interval was below 60, HID turns busy or idle whenever it changes, and nothing else changes |
| CoexState.LastIntervalCounts | BT/rtk_coex.c:809-846 | only the last interval matters for bitmap and counts; the busy status depends on an earlier one exactly if that flips the bit, the last one flips it back, and the status was not what the last one says |
| CoexState.ReleaseKeepsIntervalIff | BT/rtk_coex.c:2046-2062 | the release of a link going down keeps count and bit in step exactly unless it clears the bit |
| CoexProfiles.Coex.Gain | BT/rtk_coex.c:733-759 | whole effect on global state and connection |
| CoexProfiles.Coex.Lose | BT/rtk_coex.c:760-807 | whole effect, none at a zero count |
| CoexProfiles.Coex.SetState | BT/rtk_coex.c:698-731 | the status bit of a profile that exists globally is set exactly if busy; no other bit, field or connection changes |
| CoexProfiles.Coex.SetInterval | BT/rtk_coex.c:809-846 | with HID, the connection's interval bit is set exactly below 60 and HID turns busy or idle whenever it changes; every connection keeps its interval count equal to its bit |
| CoexProfiles.Coex.OnConnReq | BT/rtk_coex.c:848-885 | a channel is recorded last unless ignored, known or without memory; its profile, identifiers and media flag; no count changes |
| CoexProfiles.Coex.OnConnRsp | BT/rtk_coex.c:887-924 | a successful answer fills in the other identifier of the channel of that link and gives its profile one user |
| CoexProfiles.Coex.OnDisconnReq | BT/rtk_coex.c:926-965 | the channel goes; its profile has one user less globally, never below zero, and with A2DP the sink of the connection; no other count changes |
| CoexProfiles.Coex.OnPacket | BT/rtk_coex.c:994-1068 | the first packet on an idle media channel, and no other, makes A2DP busy and may bring in the sink |
| CoexProfiles.Coex.OnConnected | BT/rtk_coex.c:1856-1911 | the connection is found or made and cleared; an SCO link gives SCO one user |
| CoexProfiles.Coex.OnLeConnected | BT/rtk_coex.c:1923-1974 | the same with HID and the interval |
| CoexProfiles.Coex.ReleaseProfile | BT/rtk_coex.c:2020-2065 | whole effect of the saturating variant |
| CoexProfiles.Coex.ReleaseLink | BT/rtk_coex.c:2067-2100 | the loop that deletes from the list it walks releases every channel of the link once and keeps the others |
| CoexProfiles.Coex.OnDisconnected | BT/rtk_coex.c:2120-2146 | what each kind of link gives back; the connection is gone |
| CoexProfiles.Coex.OnA2dpTimeout | BT/rtk_coex.c:1071-1088 | a silent second makes a busy A2DP and the sink of the connection idle, each exactly if it exists globally; no other bit changes |
| CoexProfiles.Coex.OnPanTimeout | BT/rtk_coex.c:1090-1110 | PAN, if it exists globally, is busy exactly from five packets on; no other bit changes |
| CoexProfiles.Coex.Step | BT/rtk_coex.c:848-2146 | every event leaves what the machine on values gives; the global state is consistent exactly unless the count it raises stands at 127, and then every count is what it was, less the users the event takes and plus the one it brings; every connection's interval count equals its bit |
| CoexProfiles.Coex.Run | BT/rtk_coex.c:848-2146 | every run leaves what the same run of the machine on values gives, consistent until an event raises a count that stands at 127; in every connection the interval count is the interval bit, which only HID connections have; runs of at most 127 events always complete |
| CoexMachine.After | BT/rtk_coex.c:848-2146 | every event of the machine on values leaves eight counts everywhere and only channels of HID, A2DP or PAN |
| CoexMachine.OpenedFields | BT/rtk_coex.c:848-885 | the fields of a new channel: the first AVDTP channel of a link is for signalling, later ones for media |
| CoexProfiles.OpenedThenClosed | BT/rtk_coex.c:887-965 | closing undoes opening, globally |
| CoexProfiles.OpenAndClose | BT/rtk_coex.c:848-965 | a channel requested by one side, granted by the other and closed by either leaves channels and global state as they were |
| ConfigMerge.ConfigLists.Absorb | BT/rtk_misc.c:1168-1191 | the inner loop, editing the list it walks, does what `Walk` says, for any list |
| ConfigMerge.ConfigLists.AbsorbAll | BT/rtk_misc.c:1165-1193 | the outer loop leaves the edited list and, in order, the extra items that matched nothing |
| ConfigMerge.ConfigLists.Merge | BT/rtk_misc.c:1148-1206 | the whole merge with both early exits is `Merged`, and the extra list ends empty |
| ConfigMerge.MergeIsOverlay | BT/rtk_misc.c:1148-1206 | for distinct base offsets: base order kept, each item under the extra items that hit it, new offsets appended in order; distinct afterwards exactly if the new ones are |
| ConfigMerge.MergeOfDistinct | BT/rtk_misc.c:1148-1206 | for distinct offsets in both lists: prefix overwritten or whole item replaced, untouched items kept, nothing lost or doubled, offsets distinct |
| ConfigMerge.OverlayIffDistinct | BT/rtk_misc.c:1148-1206 | the merge is an overlay for all lists of extra items exactly if the base offsets are distinct |
| ConfigMerge.RepeatedLosesPlace | BT/rtk_misc.c:1168-1191 | for every repeated base offset, one extra item that costs the list a place |
| ConfigMerge.RepeatedOffsetLosesItem | BT/rtk_misc.c:1168-1191 | an instance: the first of two items at one offset is lost |
| ConfigFile.Parse | BT/rtk_misc.c:1208-1256 | magic, length and entries are judged in this order; a read outside the file is told apart |
| ConfigFile.RefusedWhen | BT/rtk_misc.c:1219-1232 | which files are refused, in their octets |
| ConfigFile.ItemOctets | BT/rtk_misc.c:1714-1735 | the octets of an item |
| ConfigFile.FileOctets | BT/rtk_misc.c:1688-1735 | the octets of the file: magic number and length, low octets first |
| ConfigFile.ParseEntries | BT/rtk_misc.c:1233-1254 | the cursor loop reads the entries, stopping quietly when memory runs out |
| ConfigFile.Lengths | BT/rtk_misc.c:1688-1713 | the two 16-bit lengths are the sums modulo 65536 |
| ConfigFile.Save | BT/rtk_misc.c:1688-1735 | the writer stays in its buffer exactly below 65536 bytes and then produces the encoding |
| ConfigFile.ParseAfterSave | BT/rtk_misc.c:1219-1254 | parsing the written bytes gives the list back, or as much as memory allows |
| ConfigFile.SaveAfterParse | BT/rtk_misc.c:1219-1254 | every file that parses completely is the encoding of its items |
| ConfigFile.LoadConfig | BT/rtk_misc.c:1619-1746 | what is written after the merge parses as the merged list; when the file is refused or a buffer is left |
| Firmware.Download | BT/rtk_misc.c:2159-2209 | the loop sends the fragments in order, all or up to the first refused one, reading only inside the firmware |
| Firmware.PayloadsAreFirmware | BT/rtk_misc.c:2172-2207 | for every length the payloads put together are the firmware; the announced lengths are one and four octets more |
| Firmware.NumberedIff | BT/rtk_misc.c:2177-2187 | indices are 0, then 1 to 127 cyclically, with the end bit on the last, exactly below 64260 bytes |
| Firmware.EndMarksLastIff | BT/rtk_misc.c:2177-2187 | the end bit marks the last fragment and no other exactly below 64512 bytes |
| Firmware.LimitKeepsNumbering | BT/rtk_misc.c:749-787 | on exactly which chips the size limit keeps every download rightly numbered |
| StationMarks.MarksMeanSessions | WIFI/core/rtw_ap.c:3557-3730 | over every run each mark stands exactly when what the station announced since its record was made or cleared calls for it |
| StationMarks.WithMeans | WIFI/core/rtw_ap.c:3557-3730 | some station carries a mark exactly when some station's session calls for it |
| StationMarks.RejoinForgets | WIFI/core/rtw_ap.c:3666-3711 | associating again wipes out the first association exactly when it does not improve on greenfield, width or tolerance |
| StationRuns.DriftIff | WIFI/core/rtw_sta_mgt.c:640-890 | over every run what a counter is off by is never negative, and zero exactly if no record was freed with the mark |
| StationRuns.NumExactIff | WIFI/core/rtw_ap.c:3557-3821 | a counter equals its number of stations exactly if no record was freed with the mark; it is positive exactly if some session calls for the mark or such a record was freed |
| StationRuns.LostForGood | WIFI/core/rtw_ap.c:3557-3821 | once a record is freed with a mark, the counter stays positive whatever happens later |
| StationRuns.FreeLoses | WIFI/core/rtw_sta_mgt.c:640-890 | after any run, freeing a marked record leaves the counter as it is |
| StationRuns.FreedNonErp | WIFI/core/rtw_mlme_ext.c:2592-2750 | a non-ERP station associates and later fails to authenticate: no station is left, and the counter is 1 |
| StationRuns.FreedIntolerant | WIFI/core/rtw_ap.c:479-486 | a station that is only known reports intolerance and expires: the same for its counter |
| StationRuns.ScanExactIff | WIFI/core/rtw_ap.c:1469-1562 | new beacon data leaves the count of stations without HT right exactly if there is none |
| StationRuns.ScanUnderflows | WIFI/core/rtw_ap.c:1560 | when a station without HT leaves right after that, the count is -1 |
| StationRuns.ViewIsCurrent | WIFI/core/rtw_ap.c:3454-3523 | without scans and channel set-ups the last HT update has always seen the counts as they are now |
| StationAccounting.FreeKeepsIff | WIFI/core/rtw_sta_mgt.c:640-890 | exact counters stay exact when a record is freed exactly if it carries no mark |
| StationAccounting.Bss.Raise | WIFI/core/rtw_ap.c:3576-3586 | setting a mark keeps every counter at its number of stations plus its drift |
| StationAccounting.Bss.Lower | WIFI/core/rtw_ap.c:3588-3596 | clearing a mark does too; only the count of stations without HT can go below zero |
| StationAccounting.Bss.UpdateErp | WIFI/core/rtw_ap.c:3046-3068 | the protection bits follow a count of exactly one, the Barker bit the preamble count |
| StationAccounting.Bss.MarkNonErp | WIFI/core/rtw_ap.c:3607-3631 | called on the edges only, that updater keeps the bits set exactly while the non-ERP count is positive |
| StationAccounting.Bss.HtUpdate | WIFI/core/rtw_ap.c:3454-3523 | the mode is mixed with a station without HT, else 20 MHz if the access point has 40 MHz and a station does not, else legacy with such a network about, else pure; the other bits likewise from counters and legacy flag, or kept; the result is zero exactly if nothing changed |
| StationAccounting.Bss.UpdateTwice | WIFI/core/rtw_ap.c:3454-3523 | a second update reports no change |
| StationAccounting.Bss.Join | WIFI/core/rtw_ap.c:3557-3730 | counters, ERP bits and mode stay accounted for through association and re-association |
| StationAccounting.Bss.Leave | WIFI/core/rtw_ap.c:3753-3821 | the same when a station leaves; its record loses all its marks |
| StationAccounting.Bss.Free | WIFI/core/rtw_sta_mgt.c:640-890 | freeing a record adds its marks to the drift, and keeps exact counters exact only without any |
| StationAccounting.Bss.LowerIntolerant | WIFI/core/rtw_ap.c:3810-3816 | the guarded decrement never meets zero |
| StationAccounting.Bss.Intolerant | WIFI/core/rtw_ap.c:3374-3380 | an intolerance report counts once per station |
| StationAccounting.Bss.Check | WIFI/core/rtw_cmd.c:2925-2960 | the periodic check keeps the mode word accounted for and forgets legacy beacons after using them |
| StationAccounting.Bss.Scan | WIFI/core/rtw_ap.c:1469-1562 | legacy networks are noted and the count of stations without HT is zero, whatever stations there are |
| StationAccounting.Bss.Collect | WIFI/core/rtw_mlme_ext.c:11431-11442 | a scan result without HT raises that count |
| StationAccounting.Bss.Switch | WIFI/core/rtw_ap.c:1864-1870 | a channel set-up with legacy networks about overwrites the mode and nothing else of the word |
| StationAccounting.Bss.Run | WIFI/core/rtw_ap.c:3454-3821 | over every run from the start of the access point, freed records, scans and channel set-ups included: each counter is its number of stations plus its drift, and equal to it exactly if no record was freed with the mark; protection is on exactly if a session calls for it or a non-ERP record was freed; the mode word is the one for what the last update found, and the function of the sessions and freed records without scans and set-ups |
| Tim.SetTim | WIFI/core/rtw_ap.c:49-86 | the three scans produce the element; the returned length is its length modulo 256 |
| Tim.WellFormedIff | WIFI/core/rtw_ap.c:77-82 | the length field is right exactly up to 252 octets sent |
| Tim.DecodesBack | WIFI/core/rtw_ap.c:49-86 | a receiver reads back the group bit and every station's bit, for every bitmap of up to 251 octets and every longer one whose length field is right |
| Tim.OctetIsItsBits | WIFI/core/rtw_ap.c:49-86 | the bits read and written are the binary digits of the octets |
| Tim.TotalRightIff | WIFI/core/rtw_ap.c:49-86 | the returned length is right exactly up to 250 octets sent; with up to 251 octets, unless all 251 are |
| Tim.Shortest | WIFI/core/rtw_ap.c:56-69 | no shorter run of octets with an even start holds all set bits |
| Tim.StartIsN1Iff | WIFI/core/rtw_ap.c:56-76 | the first octet is the standard's N1 except when octet 0 holds the group bit alone and octet 1 is zero; with no station waiting one octet is sent from offset 0 |
| BeaconElements.ActsWhen | WIFI/core/rtw_ap.c:176-212 | on sorted nonempty elements adding works exactly when some ID is at or below the new one |
| BeaconElements.AddedSorted | WIFI/core/rtw_ap.c:168-235 | adding keeps the list sorted |
| BeaconElements.AddedContents | WIFI/core/rtw_ap.c:168-235 | exactly one element is replaced or inserted, all others stay |
| BeaconElements.RemoveAfterAdd | WIFI/core/rtw_ap.c:168-269 | removing a freshly added ID restores the list exactly unless it went in empty |
| BeaconElements.AddAfterRemove | WIFI/core/rtw_ap.c:168-269 | an element removed from its sorted place goes back there |
| BeaconElements.EmptyAnchorBlocks | WIFI/core/rtw_ap.c:194-212 | a new element comes in exactly if the one it replaces, or else the one before its place, is there and not empty |
| BeaconBuffer.Beacon.ScanForSlot | WIFI/core/rtw_ap.c:176-192 | the scan ends at the match or the last smaller element, with its place and length |
| BeaconBuffer.Beacon.GetIe | WIFI/core/rtw_ieee80211.c:354-378 | the first element with the ID, or none exists |
| BeaconBuffer.ElementOctets | WIFI/core/rtw_ap.c:176-192 | an element is ID, length, data, and the first stands behind twelve fixed octets |
| BeaconBuffer.Beacon.Splice | WIFI/core/rtw_ap.c:214-235 | octets are exchanged in place with everything around them kept, exactly if the rest could be saved or stands in its new place already; what is left otherwise |
| BeaconBuffer.Beacon.Add | WIFI/core/rtw_ap.c:168-235 | the buffer holds exactly the list `Added`, length exact, exactly if the rest could be saved or stands in its new place; it does at the last element and for equal lengths; untouched when adding does nothing |
| BeaconBuffer.Beacon.Remove | WIFI/core/rtw_ap.c:237-269 | the same with the list `Removed` |
| BeaconBuffer.HarmfulInsertion | WIFI/core/rtw_ap.c:214-235 | an insertion between two elements that is wrong when the rest cannot be saved |
| BeaconBuffer.Beacon.AddThenRemove | WIFI/core/rtw_ap.c:168-269 | the octets are what they were |
| SoundingLists.SuListed | WIFI/core/rtw_beamforming.c:694-779 | single-user listing comes in order, two at most, nobody passed over while there is room |
| SoundingLists.MuListed | WIFI/core/rtw_beamforming.c:694-779 | the same for the multi-user group |
| SoundingLists.SuListIs | WIFI/core/rtw_beamforming.c:704-764 | in the fields: listed is exactly an entry in use and added, not multi-user, single-user capable, with at most one period left, to be deleted or else applying and not suspended, behind fewer than two others |
| SoundingLists.MuListIs | WIFI/core/rtw_beamforming.c:704-747 | in the fields: exactly an entry in use and added, multi-user capable, with at most one period left, applying, behind fewer than six others |
| SoundingLists.WorkIsListed | WIFI/core/rtw_beamforming.c:766-774 | there is something to sound exactly if somebody is listed |
| SoundingLists.DueAfter | WIFI/core/rtw_beamforming.c:718-728 | a count that is not reloaded goes down by one per period to zero; the entry is due exactly when at most one is left |
| SoundingLists.MovedPast | WIFI/core/rtw_beamforming.c:852-885 | deleting the first entry in line leaves everybody else's turn as it was |
| SoundingLists.ListsFit | WIFI/core/rtw_beamforming.c:694-779 | the two lists name different, existing entries |
| SoundingLists.LeavesAtThirtyFirst | WIFI/core/rtw_beamforming.c:1604-1624 | over every sequence of reports the station is asked to leave exactly at the 31st failure in a row and every 32 later, deletions not counting |
| SoundingLists.ReportChangesOnly | WIFI/core/rtw_beamforming.c:1604-1624 | a report changes the failure count and takes back an unmet request to delete, and nothing else |
| Sounding.Beamforming.ResetVars | WIFI/core/rtw_beamforming.c:662-692 | lists, index and the flags of sounded entries are cleared and nothing else |
| Sounding.Beamforming.GetList | WIFI/core/rtw_beamforming.c:694-779 | in the fields: who is listed (no suspended entry unless it is to be deleted), whose count is reloaded, lowered or kept; the three results tell work, waiting and nothing apart |
| Sounding.Beamforming.StartSu | WIFI/core/rtw_beamforming.c:860-890 | a listed unsounded entry becomes current with its time-out flag clear; the measure drops |
| Sounding.Beamforming.StartMu | WIFI/core/rtw_beamforming.c:895-915 | exactly the candidates are marked, and the group is no longer pending |
| Sounding.Beamforming.Handler | WIFI/core/rtw_beamforming.c:781-928 | the mutual recursion terminates; a new period lists its entries; entries in line that are only to be deleted are done with at once, the first other one is sounded, and if there is none the multi-user group or, after it, the period ends with the counter lowered exactly once; no other entry changes |
| Sounding.Beamforming.SoundingDown | WIFI/core/rtw_beamforming.c:1569-1628 | the current entry gets the report and its station is asked to leave if the report says so; then the handler moves on in the period; outside a sounding nothing; the time-out test inside never succeeds |
| Sounding.Beamforming.ReportStatus | WIFI/core/rtw_beamforming.c:1604-1624 | the current entry alone changes, as `LeavesAtThirtyFirst` counts, and only giving up queues a leave command |
| Sounding.Beamforming.PeriodComplete | WIFI/core/rtw_beamforming.c:797-928 | at the end of an undisturbed period exactly the listed entries have been sounded, each once |
| Sounding.Beamforming.ForceStop | WIFI/core/rtw_beamforming.c:930-950 | a sounding under way is asked to end; otherwise the counter is lowered |
| Sounding.Beamforming.TimerTick | WIFI/core/rtw_beamforming.c:952-994 | a period starts exactly at a zero counter; the fourth late tick stops; the counter stays accounted for exactly unless a queued start command is overtaken |
| Sounding.Beamforming.TimeoutTick | WIFI/core/rtw_beamforming.c:996-1026 | only a sounding under way times out, with the flag on the current entry |
| Sounding.Beamforming.Enter | WIFI/core/rtw_beamforming.c:1251-1523 | a beamformee takes its old entry or a free one with every field reset and is counted; sounding is switched on exactly if the station was taken in and some beamformee is counted |
| Sounding.Beamforming.RemoveEntry | WIFI/core/rtw_beamforming.c:1362-1405 | the entry leaves the hardware, one count drops, and the least period is never zero |
| Sounding.Beamforming.LeaveStation | WIFI/core/rtw_beamforming.c:1531-1567 | sounding stops exactly when the last counted beamformee leaves |
| Sounding.Beamforming.Process | WIFI/core/rtw_beamforming.c:1884-1920 | what each queued command does, by phase: which entries change and how, the queue, the counter; a command never leaves the counter unaccounted for |
| Sounding.Beamforming.Step | WIFI/core/rtw_beamforming.c:952-994 | every event of every thread does what its own handler does, and the counter stays the sum of start commands and soundings under way exactly unless a late tick overtakes a queued start command |
| Sounding.Beamforming.Run | WIFI/core/rtw_beamforming.c:650-1026 | over every run of events, each taken in turn, the current index is valid with its time-out flag clear, no entry is sounded twice unless a station entered meanwhile, and no period is divided by zero |
| Sounding.Beamforming.RunAccounted | WIFI/core/rtw_beamforming.c:952-994 | up to the first overtaking tick of any run the counter is 0 or 1, and 1 while a start command waits or a sounding is under way, never both |
| Sounding.OvertakenUnderflows | WIFI/core/rtw_beamforming.c:952-994 | after every overtaking tick there is a continuation without further ticks in which the counter is -1 |
| Sounding.StaleStartUnderflows | WIFI/core/rtw_beamforming.c:952-994 | a run from the driver's start, one station and six ticks, after which the counter is -1 |
| Sounding.TicksUntilZero | WIFI/core/rtw_beamforming.c:952-994 | how many ticks bring any counter to zero, negative ones through -128 and 127, with no period started before |

## Left out

- USB, sockets, work queues, timers, firmware files and the HAL: events, parameters or nondeterministic results.
- Concurrency beyond `txlock`: handlers of the bridge, the snooper, the access point and the sounding machine run one at a time; suspend and resume calls are serialised by the USB core.
- Channel selection, regulatory tables, factory tests, the Bluetooth coexistence wrappers of the WiFi driver, management frames, logging and debug output.
- The rewriting of link-layer addresses inside ICMPv6 neighbour messages (`update_nd_link_layer_addr`, WIFI/core/rtw_br_ext.c:243 and 1349).
- NAT2.5 keys other than IPv4, and the parts of `nat25_db_handle` outside the database and the PPPoE tags.
- PppoeFrames.Skb.AddTag: on a little-endian host the copied length is not the tag's length and the copy reads past the driver's tag buffer; the bytes that result are not described.
- PppoeFrames.Skb.InsertRelay: nor are they here, for the same reason.
- PppoeFrames.Skb.TakeOld: works on packets that carry a tag list; what happens after a scan that left the packet is not followed.
- PppoeFrames.Skb.StripRelay: the same.
- HciFraming.ChunkingIrrelevant: holds without oversize header or allocation failure; `Recv` says what happens with them.
- HciReceivers.CoexReceiver.ParseEvent: the event filter and truncation in `rtk_btcoex_evt_enqueue` are not modelled; frames are the arguments of the call.
- SCO transfers, which `tx_in_flight` does not count; `btusb_resume` as one method, whose steps are events of TxProtocol.
- TxDriver.Btusb.PlayDeferred: as a method it runs with no sender queueing meanwhile; TxProtocol covers the interleaved case.
- CoexProfiles.Coex.OnPacket: packet counters, which only feed the timeouts, are parameters of the timeout events; the bitpool command is output.
- The HOGP and voice timer, for profiles no handler ever adds; per-connection counts equalling a sum, which duplicate events break.
- ConfigFile.Parse: what an out-of-bounds read would return is not modelled, only that it happens.
- ConfigFile.Save: the output buffer can always be allocated.
- Reading extra items and the Bluetooth address from text files; they are the list of extra items.
- The new-format firmware section walk; sending fragments is acceptance or refusal.
- StationAccounting.Bss.Run: HT configuration is fixed, and counters are unbounded where the driver's are `int`; pre-link stations, whose records are kept when freed, are off (`CONFIG_RTW_PRE_LINK_STA`). Association and authentication states are not modelled: an association makes a missing record, and any record can be freed at any time.
- StationAccounting.Bss.Intolerant: the width request and the intolerant-channel report of the same frame, which touch no counter, are not modelled.
- StationAccounting.Bss.UpdateErp: the Barker bit is written only together with the protection bits, so no invariant about it is claimed.
- StationAccounting.Bss.Leave: the TIM bit of the leaving station and the beacon-updated result are not modelled.
- Tim.SetTim: leaves out an empty bitmap, for which the driver would read one octet too many.
- BeaconBuffer.Beacon.Add: takes room in the buffer for granted, as the driver does; the octets left by a harmful failed allocation are stated by `Splice` alone.
- `update_BCNTIM`, which splices like `rtw_add_bcn_ie`.
- Sounding entry counts against the `used` flags, which the hardware layer clears; what it, the traffic statistics and the single-user work-around write into an entry is an arbitrary event, and the work-around's index 0xFF when no single-user entry is in use is not modelled.
