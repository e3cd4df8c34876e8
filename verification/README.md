# Models of the RTL8821CE driver's shared cores

Dafny models of five parts of the driver, and proofs about them. Each part comes as a specification
(values, functions and lemmas) and as the imperative code in the form of the source (classes, fields,
arrays and loops), which is proved to compute what the specification says.

- **Command queue and submit/wait handshake** (`core/rtw_cmd.c`, `core/rtw_xmit.c`): `CmdProtocol`
  is a state machine of atomic steps. Any number of submitters, waiters and the command thread share
  a queue, a semaphore, one mutex per adapter, the command objects and the contexts on the stacks of
  the waiters; memory that is gone is explicit, and following a pointer to it is a fault.
  `CmdSafety` proves safety over every schedule, `CmdStatus` what a waiter learns, `CmdEnds` that nothing
  leaks and that the thread ends; `CmdThread` has the same steps as methods on fields.
- **NAT2.5 database and frame rewriting** (`core/rtw_br_ext.c`): `Nat25Table` is a plain map with
  ageing, `Nat25Buckets` splits it by hash, `Nat25Chain` and `Nat25Db` are the linked chains that are
  proved to behave like the map. `PppoeTags`, `PppoeFrame` and `PppoeRelay` are the PPPoE relay tag,
  `DhcpChecksum` the broadcast flag and the UDP checksum.
- **Beamforming sounding scheduler** (`core/rtw_beamforming.c`, version 2): `SoundingSpec` are the
  handlers as functions, `SoundingPeriod` what a period guarantees, `SoundingTurns` when an entry's turn
  comes, `SoundingFailures` how failures are counted, `Sounding` the mutually recursive methods on fields.
- **Information elements** (`core/rtw_ieee80211.c`): `Elements` are lists of elements and their bytes;
  `InfoElements` search and removal, `RateElements` the cut to CCK rates, `ElementParser` the parser
  and `rtw_set_ie`, `RsnElement` and `RsnFields` the RSN parser, `P2pAttributes`, `P2pSearch`, `P2pWrapped`,
  `P2pDelete` and `P2pBss` the nested deletion of a P2P attribute. `ChannelGroup` and `ChannelSync` are channel and width
  synchronisation.
  `Buffers` has memmove, memcpy and memset on a byte array, described by the parts of the array.
- **Soft AP** (`core/rtw_ap.c`): `StationSpec`, `StationCounters` and `StationRun` are the station
  counters and the HT operation mode, `TimElement` the TIM encoder, `BeaconList` and `BeaconBuffer`
  the edits of the beacon, `Bss` the structure that holds it.

A byte buffer is described by ghost parameters that name the parts it is made of, for instance what
stands before the elements, the elements, and what follows them; a method says of which parts the
buffer is made afterwards.

## Where the code does not do what is expected of it

The models keep what the code does. These are the places where that differs from the code's own
comments or from what its callers expect. The first member named has the exact condition, the second an
input with which it fails.

- `rtw_enqueue_cmd` frees a command that only its size forbids and returns success, so a waiter of
  such a command would write to freed memory (`CmdSafety.SafeExactly`, `CmdSafety.OversizeFaults`).
- A command that is put back because LPS could not be left waits for a wake-up from outside this file
  (`CmdSafety.NoLostWakeup`, `CmdSafety.PutBackStrands`).
- `__nat25_add_pppoe_tag` reads the tag length in host order, so on a little-endian host stamping fails
  in any ordinary buffer, and the frame has lost its old relay tag by then (`PppoeRelay.StampRelay`,
  `PppoeRelay.StampFails`).
- `dhcp_flag_bcast` does not take the old flags out of the checksum, and writes a checksum where there was
  none (`DhcpChecksum.AcceptedAfter`, `DhcpChecksum.RejectedRequest` and `DhcpChecksum.RejectedUnchecked`).
- `rtw_remove_ie_g_rate` is documented to return the size removed but returns that of the last cut
  (`RateElements.ReturnedSize`, `RateElements.FailingLists`), and it stops at an empty element
  (`RateElements.CutsAllExactly`, `RateElements.FailingLists`).
- `rtw_get_p2p_attr` steps by a 16-bit sum that can be zero, and then it never ends
  (`P2pSearch.SpinsExactly`, `P2pSearch.SearchesThatSpin`).
- The count of failed soundings has five bits, so that the failure after the one at which a leave is asked
  for starts it again (`SoundingFailures.RunCounts`, `SoundingFailures.CountWraps`).
- `rtw_rsne_info_parse` accepts a count without items at the end (`RsnElement.Accepted`,
  `RsnElement.CountDropped`).
- `rtw_set_tim_ie` returns a length that wraps for a window of more than 250 octets
  (`TimElement.LengthExact`, `TimElement.LengthWraps`).
- `update_BCNTIM` takes for granted that SSID, rates and a DS parameter set stand in front; elsewhere it
  writes into the middle of an element (`BeaconList.PlacedExactly`, `BeaconList.TimLost`).
- Repeating `update_BCNTIM` does not replace the TIM of the update before if that was put behind an empty
  TIM (`BeaconList.UpdateAgain`, `BeaconList.TimBehindEmpty`) or inside an element
  (`BeaconList.RepeatedExactly`, `BeaconList.TimLostAgain`), so the beacon can grow with every update.
- `rtw_add_bcn_ie` inserts nothing behind a missing or empty predecessor, and `rtw_remove_bcn_ie` does
  not remove an empty element (`BeaconList.RemoveUndoesAdd`, `BeaconList.EmptyStays`).
- The reset of `num_sta_no_ht` after a scan ignores stations that are associated
  (`StationSpec.RunCounted`, `StationSpec.ScanForgets`), so the mode can stay mixed for no station
  (`StationSpec.ModeWhenShort`, `StationSpec.MixedForNobody`).

## Model

| member | source | states |
|---|---|---|
| CmdSafety.NoUseAfterFree | core/rtw_cmd.c:1273-1286 | From any state that satisfies the invariant, every schedule of submitters, waiters, thread and stop requests runs without following a pointer to a freed cmd_obj or to the submit_ctx of a returned waiter, provided that no command that is waited for is larger than MAX_CMDSZ. |
| CmdSafety.OversizeFaults | core/rtw_cmd.c:459-474 | The proviso is needed: rtw_enqueue_cmd frees a command that only its size forbids and still returns success, so for every such command there is a schedule in which its waiter writes to the freed object. |
| CmdSafety.SafeExactly | core/rtw_cmd.c:442-485 | Submissions of one sort (waited for or not, of one kind) are safe under every schedule if and only if they are not both waited for and too large. |
| CmdSafety.CompletedExactlyOnce | core/rtw_cmd.c:680-692 | In every reachable state a waited-for command has been completed at most once and never both completed and detached; once the thread is done with it, or its waiter has returned, exactly one of the two has happened; a completion carries a final status and is signalled before the object is let go. |
| CmdSafety.CommandsConserved | core/rtw_cmd.c:255-374 | In every reachable state the commands processed, then the one in hand, then the queue are exactly the accepted ones in insertion order, without repetition, put-backs at the head included. |
| CmdSafety.NoLostWakeup | core/rtw_cmd.c:552-590 | While the thread waits and did not put a command back before, everything queued is covered by the semaphore and the submitters between insert and up; when there is neither, the queue is non-empty if and only if the thread went back to sleep after putting a command back. |
| CmdSafety.PutBackStrands | core/rtw_cmd.c:632-646 | A concrete reachable state in which a command that was put back because LPS could not be left is queued, the semaphore is zero and nobody is about to up it. |
| CmdSafety.MutexHolderProgresses | core/rtw_cmd.c:680-692 | In every reachable state whoever holds an sctx_mutex has an enabled step that is not a fault, so the mutex cannot deadlock. |
| CmdStatus.StatusTellsFate | core/rtw_cmd.c:600-733 | After any schedule the status in a completed context is CMD_DROP exactly if the drain threw the command away, SUCCESS exactly if its handler ran and returned H2C_SUCCESS, and CMD_ERROR exactly if the handler returned anything else or the checks before it (size, command code, handler, filter) turned the command down. |
| CmdStatus.StepTells | core/rtw_cmd.c:600-733 | Every atomic step keeps what statuses tell, the fate being read off the step. |
| CmdEnds.NothingLeaks | core/rtw_cmd.c:459-474 | After any schedule a refused command has been freed, and one that the thread has finished with has been freed exactly if its callback did not keep it, those of the drain always; the drain has begun exactly if the thread does not run any more. |
| CmdEnds.NothingAccepted | core/rtw_cmd.c:410-440 | When the thread does not run any more no command is accepted under any schedule, except one whose submitter had passed the filter. |
| CmdEnds.ThreadEnds | core/rtw_cmd.c:552-742 | From any reachable state in which the thread leaves its loop and nobody holds a mutex, its own steps complete and retire everything that was accepted, empty the queue and end it; every waiter concerned was answered or has detached itself. |
| CmdEnds.LeavesExactly | core/rtw_cmd.c:552-585 | The thread leaves its loop exactly if the wait on the semaphore fails or it may not run at one of its two checks. |
| CmdEnds.StopWakes | core/rtw_cmd.c:521-528 | A stop request wakes a thread that waits, so that it comes to the check at which it leaves. |
| CmdEnds.WaitsUntil | core/rtw_xmit.c:5798-5818 | A waiter goes on exactly if it is signalled or its time is up. |
| CmdEnds.WaiterReturns | core/rtw_cmd.c:1278-1286 | It then returns within five steps of its own if nobody holds the mutex, and its context is gone. |
| CmdSafety.ReachableInv | core/rtw_cmd.c:530-742 | Every reachable state satisfies the invariant that the other results read off. |
| CmdSafety.StepKeepsInv | core/rtw_cmd.c:442-742 | Every atomic step of every actor is free of faults and keeps the invariant. |
| CmdSafety.SubmitKeepsInv | core/rtw_cmd.c:1265-1276 | Allocating a command and attaching a context keeps the invariant. |
| CmdSafety.FilterKeepsInv | core/rtw_cmd.c:459-474 | The filter step of a submission, refusals included, keeps the invariant. |
| CmdSafety.InsertKeepsInv | core/rtw_cmd.c:476 | The insertion at the tail keeps the invariant. |
| CmdSafety.UpKeepsInv | core/rtw_cmd.c:478-479 | The up of the semaphore keeps the invariant, the wake-up bound included. |
| CmdSafety.WaitKeepsInv | core/rtw_xmit.c:5798-5818 | The return from the wait, by signal or by timeout, keeps the invariant. |
| CmdSafety.CheckKeepsInv | core/rtw_cmd.c:1281-1284 | The waiter's look at the status and the detaching of the object, under the mutex, touch only live memory and keep the invariant. |
| CmdSafety.CompleteKeepsInv | core/rtw_xmit.c:5835-5846 | The signal of a completion reaches a context that is still there and keeps the invariant. |
| CmdSafety.DoneKeepsInv | core/rtw_cmd.c:680-689 | The write of the final status through the pointer in the object keeps the invariant. |
| CmdSafety.PutBackKeepsInv | core/rtw_cmd.c:632-646 | Putting the command in hand back at the head keeps the order of the accepted commands. |
| CmdSafety.FreeKeepsInv | core/rtw_cmd.c:700-712 | Letting go of a finished command, whether or not its callback frees the object, keeps the invariant. |
| CmdSafety.UpKeepsWoken | core/rtw_cmd.c:521-528 | The extra up of rtw_stop_cmd_thread keeps the invariant. |
| CmdThread.CmdPriv.RunSchedule | core/rtw_cmd.c:530-742 | Performing any schedule with the imperative methods ends in exactly the state that the state machine reaches, without a fault. |
| CmdThread.CmdPriv.Perform | core/rtw_cmd.c:442-742 | One action on the fields has the outcome (stepped, blocked or faulted) and the new state that the state machine prescribes. |
| CmdThread.CmdPriv.Enqueue | core/rtw_cmd.c:255-314 | The object is put at the head or at the tail of the queue. |
| CmdThread.CmdPriv.DequeueHead | core/rtw_cmd.c:316-374 | The head of the queue is taken, or nothing if it is empty. |
| CmdThread.CmdPriv.EnqueueFilter | core/rtw_cmd.c:442-474 | On the fields: passed on, refused and freed, or freed with the result success. |
| CmdThread.CmdPriv.WaiterCheck | core/rtw_cmd.c:1281-1284 | On the fields: the context is left alone if completed, otherwise the pointer in the object is cleared. |
| CmdThread.CmdPriv.SctxDone | core/rtw_xmit.c:5835-5851 | On the fields: the first of the three writes of a completion, with the status of the specified step, which tells the fate of the command. |
| CmdThread.CmdPriv.ClassifyHeld | core/rtw_cmd.c:594-648 | On the fields: the checks before the handler, with the put-back at the head when LPS cannot be left. |
| CmdThread.CmdPriv.AdvanceThread | core/rtw_cmd.c:530-742 | On the fields: one step of the thread in any of its places. |
| Nat25Db.Nat25.Insert | core/rtw_br_ext.c:487-522 | The 16 chains stay well formed and, as a map from address to (MAC, age, use count), get the entry: refreshed with its use count kept if there was one, added with use count 1 if memory was available. |
| Nat25Db.Nat25.LookupAndReplace | core/rtw_br_ext.c:413-484 | Finds the entry exactly if the map has it; an unexpired one replaces the destination by its MAC and counts one more use, anything else leaves frame and map unchanged. |
| Nat25Db.Nat25.Expire | core/rtw_br_ext.c:641-726 | The chains become those of the swept map: each expired entry loses one use and goes with the last one; scdb_entry stays null or live. |
| Nat25Db.Nat25.Cleanup | core/rtw_br_ext.c:612-638 | The map is empty afterwards, all chains are well formed, and scdb_entry is null. |
| Nat25Db.Nat25.Find | core/rtw_br_ext.c:1566-1589 | A walk of the one chain that the hash selects finds the entry exactly if the map has it. |
| Nat25Db.Nat25.ScdbRemember | core/rtw_xmit.c:4200-4208 | The entry that is remembered is one of the map or null, and only its age changes. |
| Nat25Db.Nat25.LinkInChain | core/rtw_br_ext.c:380-394 | A new entry at the head of its chain keeps every chain well formed and the others untouched. |
| Nat25Db.Nat25.SweepChain | core/rtw_br_ext.c:641-726 | The sweep of one chain changes that chain as the sweep of the map does and no other. |
| Nat25Chain.Chain.Link | core/rtw_br_ext.c:380-394 | next_hash and pprev_hash of the new head and of the old one are right, and the chain is the old one behind the new entry. |
| Nat25Chain.Chain.Unlink | core/rtw_br_ext.c:397-410 | The chain without that entry, with the neighbours relinked through pprev_hash. |
| Nat25Chain.Chain.Find | core/rtw_br_ext.c:413-484 | The walk ends at the entry with this address, or at null if there is none. |
| Nat25Chain.Chain.Sweep | core/rtw_br_ext.c:641-726 | The loop that unlinks while it walks visits every entry once and leaves the swept list. |
| Nat25Chain.Chain.Clear | core/rtw_br_ext.c:612-638 | The loop that unlinks every entry leaves an empty chain and forgets scdb_entry if it was here. |
| Nat25Buckets.AddSplits | core/rtw_br_ext.c:487-522 | Adding an entry to the bucket of its own hash keeps the split of the map into buckets: right hash, unique keys, use counts of at least 1. |
| Nat25Buckets.StoreSplits | core/rtw_br_ext.c:413-484 | So does rewriting an entry in place. |
| Nat25Buckets.SweptSplits | core/rtw_br_ext.c:641-726 | Sweeping every bucket keeps the split: the swept buckets are those of the swept map. |
| Nat25Table.RemovedByUseCountSweeps | core/rtw_br_ext.c:649-721 | An expired entry that is not inserted again is removed by exactly the use-count-th following sweep, however many lookups hit it in between, and until then only its use count changes. |
| Nat25Table.FreshSurvives | core/rtw_br_ext.c:413-484 | As long as it has not expired, an entry survives every sweep and its use count grows by exactly the lookups that hit it. |
| Nat25Table.InsertIsFound | core/rtw_br_ext.c:487-522 | After an insert of a known address, or of a new one with memory available, and any operations within 300 seconds without another insert of it, a lookup replaces the destination by the MAC that was inserted; the entry carries the time of the insert, and its use count is the one before, or 1 for a new one, plus the lookups. |
| Nat25Table.OthersAreSeparate | core/rtw_br_ext.c:413-726 | Over any run what the map holds for an address depends only on the sweeps and on the inserts and lookups of that address. |
| Nat25Table.AgesOut | core/rtw_br_ext.c:155-163 | An entry expires exactly 300 seconds after the time that it carries. |
| Nat25Table.UsedKept | core/rtw_br_ext.c:508-519 | Over any run of inserts, lookups and sweeps every entry keeps a use count of at least 1. |
| PppoeTags.RoundTrip | core/rtw_br_ext.c:1138-1249 | Stamping a PADI or PADR and restoring the echoed tags gives back the client's MAC and the tags, with a non-empty old Relay-Session-Id value moved to the front. |
| PppoeTags.RestoreUndoesStamp | core/rtw_br_ext.c:1209-1249 | The same for a stamped tag that the server echoes among any other tags, as long as no relay tag precedes it. |
| PppoeTags.RoundTripExact | core/rtw_br_ext.c:1138-1174 | The tags come back as they were if and only if there was no relay tag or the first tag was one with a value. |
| PppoeTags.StampedSize | core/rtw_br_ext.c:1138-1174 | Stamping makes the tags 12 octets longer, or 8 if an old relay tag was replaced. |
| PppoeTags.ForeignTag | core/rtw_br_ext.c:1209-1226 | A first relay tag is taken for a stamped one exactly if it has at least 8 octets that begin with 81 86. |
| PppoeRelay.StampRelay | core/rtw_br_ext.c:1138-1174 | On the frame buffer: an old value of more than 28 octets is refused without a change; otherwise the tags become the stamped ones, with length field, frame length and padding consistent, if and only if the host is big-endian and there is room; if not, -1 is returned and the frame has lost its old relay tag. |
| PppoeRelay.StampFails | core/rtw_br_ext.c:105-122 | A concrete PADI with an old relay tag and 128 octets of room: on a little-endian host the stamping returns -1 and the tag is gone. |
| PppoeRelay.RestoreRelay | core/rtw_br_ext.c:1209-1249 | On the frame buffer: succeeds exactly if the first relay tag has at least 8 octets that begin with the magic code; then the destination is the stamped MAC, the tags are the restored ones and the lengths agree; a refusal changes nothing. |
| PppoeRelay.AddTag | core/rtw_br_ext.c:105-122 | The tag is put in front, exactly if the host is big-endian and there is room: elsewhere the size is taken from a length field in the wrong byte order. |
| PppoeRelay.TakeOldTag | core/rtw_br_ext.c:1141-1159 | The first relay tag is copied and removed, with both lengths adjusted, unless its value does not fit. |
| PppoeRelay.ShortenTag | core/rtw_br_ext.c:1237-1247 | The magic code and the address are cut out of a longer value, and three lengths are adjusted. |
| PppoeFrame.FindTag | core/rtw_br_ext.c:87-102 | Finds the first tag of the type, exactly if there is one. |
| PppoeFrame.PullAndMerge | core/rtw_br_ext.c:124-143 | Cuts the octets out and shortens the frame; fails, without a change, exactly if they are not all inside the frame. |
| PppoeFrame.RemoveTag | core/rtw_br_ext.c:1154-1158 | The tag is gone, the length field and the frame length say so, and everything else is kept. |
| DhcpChecksum.DhcpFlagBcast | core/rtw_br_ext.c:1525-1563 | Exactly the requests that match all conditions and lack the flag are changed, and only in the flags and in the checksum; every other frame, a short one included, is left alone. |
| DhcpChecksum.FlagIsSet | core/rtw_br_ext.c:1546-1550 | The edit sets the broadcast flag, keeps the 15 other flags, and changes nothing else but the checksum. |
| DhcpChecksum.VerifiesAfter | core/rtw_br_ext.c:1544-1557 | The datagram verifies afterwards if and only if the sum before, without the old flags, is a multiple of 65535: the old flags are not taken out. |
| DhcpChecksum.ValidStaysValid | core/rtw_br_ext.c:1544-1557 | So a datagram that verified still verifies if and only if its flags were zero. |
| DhcpChecksum.AcceptedAfter | core/rtw_br_ext.c:1544-1557 | When a checksum of zero is accepted as none: a datagram with a checksum that was accepted still is if and only if its flags were zero or the old checksum equals the new flags; one without is if and only if the checksum that the code writes into it happens to be zero or right. |
| DhcpChecksum.RejectedRequest | core/rtw_br_ext.c:1544-1557 | A concrete request with the checksum that its own pseudo header asks for and a reserved flag set is accepted before the edit and not after it. |
| DhcpChecksum.RejectedUnchecked | core/rtw_br_ext.c:1544-1557 | A concrete request without a checksum and without flags is accepted before the edit and, with its own pseudo header, not after it. |
| DhcpChecksum.Fold | core/rtw_br_ext.c:1554-1555 | The fold loop ends, at the representative modulo 65535 between 1 and 65535 of a positive sum. |
| DhcpChecksum.ZeroCheck | core/rtw_br_ext.c:1552-1556 | The new checksum is zero, which stands for none, exactly if the old one equals the new flags, or was zero while the new flags are all ones. |
| DhcpChecksum.EitherByteOrder | core/rtw_br_ext.c:1552-1556 | Whether a datagram verifies does not depend on the byte order in which the host reads its words. |
| SoundingPeriod.WholePeriod | core/rtw_beamforming.c:712-859 | A period begun in state INIT handles each SU entry on its list exactly once and its MU group exactly once before the state is INIT again, whatever the order of results, timeouts, repeated starts, rate changes, timer ticks, leaves, hardware reports, and joins of entries that are not on the SU list; every event taken up uses up one of those that remained. |
| SoundingPeriod.CurrentAlwaysOk | core/rtw_beamforming.c:1496-1555 | Over every run, joins, leaves of one or of the last beamformee, and hardware reports included, the entry being sounded is a valid index whose timeout flag is clear, and the result of a sounding always goes on to the handler. |
| SoundingPeriod.StepInPeriod | core/rtw_beamforming.c:712-859 | Within a period the measure (unsounded SU entries plus one for a waiting MU group) never grows, drops on every event taken up, and the state leaves the period only when it is complete. |
| SoundingPeriod.RunInPeriod | core/rtw_beamforming.c:712-859 | Over any events of a period the measure plus the number of events taken up is at most the initial measure, and a finished period is complete. |
| SoundingPeriod.AdvanceInPeriod | core/rtw_beamforming.c:783-858 | The mutual recursion of handler and result, entered from any accepting state, uses up the measure or ends a complete period. |
| SoundingSpec.ListsTheDue | core/rtw_beamforming.c:625-710 | The selection loop lists the first two SU and the first six MU beamformees whose turn it is, in order. |
| SoundingSpec.ListsKept | core/rtw_beamforming.c:625-710 | Both lists name distinct entries in use, an SU entry is on no MU list, and the sounding marks are untouched. |
| SoundingSpec.LeastFrom | core/rtw_beamforming.c:548-580 | The minimum that the loop finds after a leave is a lower bound of the periods of the entries in use, and one of them unless it is the initial value. |
| SoundingFailures.RunCounts | core/rtw_beamforming.c:1530-1546 | Over every run the failure count of an entry is, modulo 32, the number of its failures since its last success or join, failures of an entry that is to be deleted not counted; and a leave of the entry is asked for exactly at the 31st of these failures and every 32 after it. |
| SoundingFailures.EventCounts | core/rtw_beamforming.c:1496-1555 | In every single event the counts follow that history, and nothing but a result asks for a leave. |
| SoundingFailures.ResultTouchesOne | core/rtw_beamforming.c:1530-1546 | A result changes the entry that was sounded alone: a success clears its count, the failure of an entry that is to be deleted clears that mark, any other failure changes the count. |
| SoundingFailures.CountWraps | core/rtw_beamforming.c:1542-1546 | If the leave that was asked for is not obeyed, the next failure makes the count 0 and asks for nothing. |
| SoundingTurns.CountsDown | core/rtw_beamforming.c:625-710 | The count of a ready entry drops by one per period, and until it is down to 1 the entry is on no list. |
| SoundingTurns.EveryQth | core/rtw_beamforming.c:625-710 | An entry whose period is q times the minimum is listed at most every q periods: after it was listed it is on no list for q - 1 periods. |
| SoundingTurns.GivesUp | core/rtw_beamforming.c:735-757 | While no entry in use is ready, five periods that are started keep waiting and the sixth ends sounding. |
| SoundingTurns.NobodyUsed | core/rtw_beamforming.c:735-757 | When no entry is in use a period that is started ends sounding. |
| SoundingTurns.IdleStays | core/rtw_beamforming.c:883-925 | After that only a join or a change of a rate begins it again. |
| SoundingTurns.TimeoutGoesOn | core/rtw_beamforming.c:927-957 | A sounding that is overdue is over: the entry is marked, a late result is ignored, and the start that was queued goes on with the rest of the period. |
| SoundingTurns.GroupBegun | core/rtw_beamforming.c:820-850 | When the MU group is begun, every entry on its list is marked as sounded and no other one. |
| SoundingTurns.SwitchedOff | core/rtw_beamforming.c:1975-1995 | An SU entry that is switched off is due once more, to be deleted, and not any more when that is over. |
| SoundingTurns.LeavingIsNotDue | core/rtw_beamforming.c:1293-1335 | An entry that leaves is not due, and the minimum period is none or at most that of every entry in use. |
| SoundingTurns.JoiningIsNotDue | core/rtw_beamforming.c:1182-1230 | An entry that joins is not due before the hardware is ready for it, has no failures, and keeps the minimum period a lower bound. |
| SoundingTurns.NotWhileScanning | core/rtw_beamforming.c:770-782 | While the station scans no period is begun. |
| Sounding.BeamformingInfo.SoundingHandler | core/rtw_beamforming.c:712-859 | On the fields: the whole handler, its recursion included, ends in the state that the specification gives. |
| Sounding.BeamformingInfo.Advance | core/rtw_beamforming.c:783-858 | On the fields: the choice of the next SU entry or of the MU group; terminates by the measure. |
| Sounding.BeamformingInfo.SoundingDown | core/rtw_beamforming.c:1496-1555 | On the fields: the result of a sounding, with the call back into the handler. |
| Sounding.BeamformingInfo.TimeoutTimer | core/rtw_beamforming.c:927-957 | On the fields: the overdue sounding is marked and the state becomes TIMEOUT exactly in the sounding states. |
| Sounding.BeamformingInfo.Leave | core/rtw_beamforming.c:1293-1494 | On the fields: the leaving entry is no longer ready, the minimum period is that of the entries in use, and the last leave resets the scheduler. |
| Sounding.BeamformingInfo.UpdateMinPeriod | core/rtw_beamforming.c:548-580 | On the fields: the loop finds the smallest period in use, or 0. |
| Sounding.BeamformingInfo.ResetVars | core/rtw_beamforming.c:593-616 | On the fields: lists, marks and counts are cleared. |
| Sounding.BeamformingInfo.GetList | core/rtw_beamforming.c:625-710 | On the fields: the loop over the entries builds the specified lists and reports none, not ready or ready. |
| Sounding.BeamformingInfo.Judge | core/rtw_beamforming.c:1510-1545 | On the fields: success clears the count of failures, the failure of an entry that is to be deleted clears that mark, and any other failure counts up and asks for a leave above 30. |
| Elements.DecodeEncode | core/rtw_ieee80211.c:1255-1414 | Decoding the bytes of a list of elements gives back the list. |
| Elements.EncodeDecode | core/rtw_ieee80211.c:1255-1414 | Bytes that consist of complete elements are the encoding of what they decode to. |
| InfoElements.GetIe | core/rtw_ieee80211.c:285-309 | Finds the first element with the ID, at its position and with its length, exactly if there is one. |
| InfoElements.GetIeEx | core/rtw_ieee80211.c:323-356 | Finds the first element with the ID whose body begins with the OUI, exactly if there is one. |
| InfoElements.IesRemoveIe | core/rtw_ieee80211.c:369-400 | In place: the prefix, then all elements that do not match, in order, with the new length; success is reported exactly if something was removed. |
| RateElements.RemoveGRate | core/rtw_ieee80211.c:403-447 | In place: every matching element up to the first empty one is cut to its leading CCK rates, the buffer is shorter by the total of the cuts, and the last cut is returned. |
| RateElements.ReturnedSize | core/rtw_ieee80211.c:402-447 | The returned value is the size removed, as documented, if and only if every matching element that is reached, except for the last of them, consists of CCK rates. |
| RateElements.CutsAllExactly | core/rtw_ieee80211.c:403-447 | Every matching element is cut if and only if none behind the first empty match has a rate that is not CCK. |
| RateElements.FailingLists | core/rtw_ieee80211.c:403-447 | A list of which two octets are removed and one is reported, and a list in which a rate is left behind an empty element. |
| RateElements.CutRatesShorter | core/rtw_ieee80211.c:403-447 | The cut list is shorter by exactly the sum of the cuts. |
| RateElements.GetCckRateSize | core/rtw_ieee80211.c:135-147 | The length of the longest prefix of CCK rates. |
| ElementParser.ParseElems | core/rtw_ieee80211.c:1255-1414 | ParseFailed exactly if the bytes are not a concatenation of complete elements; ParseOK exactly if all are known as well; what is recorded is what the complete elements leave. |
| ElementParser.RecordedIsLast | core/rtw_ieee80211.c:1255-1414 | A destination is set exactly if an element of its kind occurs, and to the body of the last one. |
| ElementParser.SliceInside | core/rtw_ieee80211.c:1255-1414 | Every recorded slice lies inside the input and holds that body. |
| ElementParser.AgreesWithGetIe | core/rtw_ieee80211.c:285-309 | On a list without duplicate IDs the parser and rtw_get_ie find the same body. |
| ElementParser.ParseInvertsSet | core/rtw_ieee80211.c:208-227 | On elements written with distinct known IDs the parser records exactly the body that was written for each. |
| ElementParser.SetIe | core/rtw_ieee80211.c:208-227 | Writes ID and length cut to 8 bits and the whole body, and advances the frame length by 2 plus the body. |
| ElementParser.SetIeWritesElement | core/rtw_ieee80211.c:208-227 | What is written is an element, the one asked for, if and only if the body has fewer than 256 octets. |
| ElementParser.ParseVendorSpecific | core/rtw_ieee80211.c:1150-1245 | A vendor element is recorded under the kind that OUI, type and subtype give, and reported unknown exactly otherwise. |
| ElementParser.VendorOctets | core/rtw_ieee80211.c:1150-1245 | On octets: 00-50-F2 type 1 is WPA, type 2 with subtype 0 or 1 is WME and with subtype 2 its TSPEC, type 4 is WPS, and 00-90-4C type 33 hex is the HT capability; nothing else is known. |
| ElementParser.KnownElements | core/rtw_ieee80211.c:1280-1400 | The other known elements, grouped by what they belong to; those of mesh paths only with mesh. |
| ElementParser.SplitDecode | core/rtw_ieee80211.c:1255-1414 | Nothing is left behind the complete elements exactly if the bytes decode. |
| RsnElement.RoundTrip | core/rtw_ieee80211.c:742-839 | An element built from version and any number of leading fields is accepted, and each slice holds the contents of its field. |
| RsnElement.ParsedInOrder | core/rtw_ieee80211.c:742-839 | On any input the slices lie inside it, in order and without overlap. |
| RsnElement.Accepted | core/rtw_ieee80211.c:742-839 | Accepted exactly are the encodings followed by a tolerated rest: nothing, anything behind the last field, or a count with no items behind it. |
| RsnElement.CountDropped | core/rtw_ieee80211.c:769-776 | A concrete element that announces one pairwise suite, has none, and is accepted with the count lost. |
| RsnElement.ParseIsSplit | core/rtw_ieee80211.c:742-839 | From any position and any field on, the parser finds exactly the complete fields and fails exactly if the rest is not tolerated. |
| RsnElement.RsneInfoParse | core/rtw_ieee80211.c:742-839 | On the buffer: fails on a bad header; otherwise result and info are those of the specified parse, whose info is named field by field below. |
| RsnFields.InfoRoundTrip | core/rtw_ieee80211.c:742-839 | An element built from group suite, pairwise suites, AKM suites, capabilities, PMKIDs and group management suite, and cut after any of them, is accepted, and each named field of the info is set exactly if it was encoded, to a slice that holds exactly its octets. |
| RsnFields.ParseContent | core/rtw_ieee80211.c:742-839 | The same of what the parser returns on the buffer. |
| RsnFields.ValuesEncode | core/rtw_ieee80211.c:742-839 | The named fields, written one after the other with their counts, are the fields that the parser steps through. |
| RsnElement.SplitUnique | core/rtw_ieee80211.c:742-839 | There is only one way to split bytes into complete fields and a rest at which no further field is complete. |
| P2pBss.DelP2pAttrs | core/rtw_ieee80211.c:2240-2296 | In place: the deletion is done on every P2P element, all other elements are unchanged and in order, length bytes and IELength are right, and the freed octets behind the list are zeros. |
| P2pBss.GetP2pIe | core/rtw_ieee80211.c:1988-2031 | Finds the first P2P element, exactly if its header is less than MAX_IE_SZ - 5 octets from the start. |
| P2pDelete.DelP2pAttr | core/rtw_ieee80211.c:2181-2221 | In place on one element, whatever its octets are as long as no search in it runs for ever: what the search finds is cut until it finds nothing, the length byte is right, and the rest is cleared. |
| P2pDelete.GetP2pAttr | core/rtw_ieee80211.c:2043-2088 | The search on any octets, 16-bit step included, finds what the specified walk finds. |
| P2pSearch.DeletedAndKept | core/rtw_ieee80211.c:2181-2221 | If no step wraps at the tail: after the deletion a search for the attribute finds nothing, every other attribute is found with the same data, and an incomplete tail is kept. |
| P2pSearch.FindInElement | core/rtw_ieee80211.c:2043-2088 | On every P2P element the search finds the first attribute with the ID; if there is none it finds nothing, unless the incomplete attribute at the end makes the 16-bit step wrap to 0, 1 or 2, and then it goes on from there. |
| P2pSearch.SpinsExactly | core/rtw_ieee80211.c:2062-2085 | The search in an element never ends if and only if no attribute matches and what is behind them has another ID and declares 65533 octets, which makes the step 0, or one or two more with the same true that many octets further on. |
| P2pSearch.SearchesThatSpin | core/rtw_ieee80211.c:2062-2085 | Two concrete elements, of 9 and of 11 octets, in which the search never ends. |
| P2pSearch.DeletesMatches | core/rtw_ieee80211.c:2181-2221 | With a tail that declares up to 65533 octets the deletion ends if and only if the step does not wrap or the tail has the ID, and then exactly the matching attributes are gone. |
| P2pWrapped.DeletesExactly | core/rtw_ieee80211.c:2181-2221 | On every P2P element, whatever its tail declares: the deletion ends if and only if it ends in the tail, by a recursive condition on the 16-bit steps that wrap there, and then the matching attributes are gone and the tail is what that recursion leaves of it. |
| P2pWrapped.DeletionIs | core/rtw_ieee80211.c:2181-2221 | The repeated cut of the code is that recursion over attributes and tail, on any octets that an element has room for. |
| P2pSearch.NothingLeft | core/rtw_ieee80211.c:2181-2221 | After a deletion that has ended a search finds nothing, or nothing of any size. |
| P2pSearch.DelAttrsPointwise | core/rtw_ieee80211.c:2240-2296 | The deletion works element by element: number and order stay, and elements that are not P2P are unchanged. |
| P2pAttributes.SplitEncode | core/rtw_ieee80211.c:2043-2088 | Splitting a body takes exactly the attributes that were encoded in it. |
| P2pAttributes.OthersFit | core/rtw_ieee80211.c:2181-2221 | The remaining attributes need no more room, and as much only if nothing was deleted. |
| TimElement.SetTimIe | core/rtw_ap.c:49-86 | Writes the element of a tight window of the bitmap; the returned length is that of the octets written modulo 256. |
| TimElement.Lossless | core/rtw_ap.c:49-86 | Read back as the standard says, the element gives every octet of the bitmap, the group bit, and the DTIM count and period. |
| TimElement.LengthExact | core/rtw_ap.c:49-86 | The returned length is the number of octets written if and only if the window has at most 250 octets, and the length octet is right if and only if it has at most 252. |
| TimElement.LengthWraps | core/rtw_ap.c:49-86 | For 251 octets none of which is zero 256 octets are written, so 0 is returned. |
| TimElement.FindWindow | core/rtw_ap.c:57-72 | The window starts at the largest even octet with only zeros before it and ends at the last non-zero octet; for an empty bitmap it is octet 0. |
| TimElement.TightIsUnique | core/rtw_ap.c:57-72 | A bitmap has only one tight window. |
| TimElement.BmpNotEmpty | core/rtw_wlan_util.c:4094-4104 | True exactly if some octet is not zero. |
| BeaconBuffer.UpdateBcnTim | core/rtw_ap.c:88-166 | In place, on any list whose end is not before the computed offset: an existing non-empty TIM is replaced; otherwise the TIM is put at that offset, wherever it is; if an element starts there, or the list ends there, the result is the list with the TIM inserted. IELength is right. |
| BeaconBuffer.AddBcnIe | core/rtw_ap.c:168-232 | In place: the list becomes the one with the element added, replaced or left alone, and IELength is right. |
| BeaconBuffer.RemoveBcnIe | core/rtw_ap.c:234-269 | In place: the first element with the ID is removed unless it is empty. |
| BeaconBuffer.Scan | core/rtw_ap.c:176-193 | The scan stops at the first element whose ID is not smaller and remembers the one before it, or the match. |
| BeaconBuffer.PlaceForTim | core/rtw_ap.c:104-141 | The place is that of an existing TIM, or the offset made of the sizes of SSID and rates, as far as there are any, and 3. |
| BeaconList.UpdatedList | core/rtw_ap.c:101-161 | The bytes after an update decode to the list with the TIM replaced or inserted whenever the place is between two elements. |
| BeaconList.OthersUntouched | core/rtw_ap.c:88-166 | When the TIM is put between two elements the list apart from it is the one before, and rtw_get_ie finds the new TIM if and only if no empty TIM stands in front of its place. |
| BeaconList.UpdateAgain | core/rtw_ap.c:88-166 | When the TIM is put between two elements a second update gives what it would have given alone, so that repeating an update changes nothing, if and only if no empty TIM stands in front of its place; otherwise the second update inserts another TIM. |
| BeaconList.UpdatesAddUp | core/rtw_ap.c:88-166 | Over any run of such updates the last bitmap alone counts, or, with an empty TIM in front, every update makes the list one element longer. |
| BeaconList.RepeatedExactly | core/rtw_ap.c:88-166 | Wherever the TIM was put: if the bytes are a list of elements afterwards, a second update changes nothing if and only if the first TIM in that list is the new one. |
| BeaconList.TimBehindEmpty | core/rtw_ap.c:88-166 | A concrete list with an empty TIM in front of the place, so that every update inserts another one. |
| BeaconList.TimLostAgain | core/rtw_ap.c:88-166 | The concrete list without a DS parameter set: the second update makes the bytes longer by another TIM. |
| BeaconList.InsertedExactly | core/rtw_ap.c:115-161 | The result is the list with the TIM in front of a given element if and only if the octets between the start of that element and the computed offset commute with those of the TIM; between there and the offset there are none if the offset is there. |
| BeaconList.InsertedByChance | core/rtw_ap.c:115-161 | A concrete list in which the offset is inside an element, and the result is the list with the TIM inserted behind it all the same. |
| BeaconList.PlacedExactly | core/rtw_ap.c:115-141 | What stands in front of an inserted TIM consists of complete elements if and only if an element, or the end of the list, is at the computed offset. |
| BeaconList.UsualHead | core/rtw_ap.c:119-134 | On a list that starts with SSID and rates that is so if and only if the third element has a body of one octet, as a DS parameter set has. |
| BeaconList.TimLost | core/rtw_ap.c:119-134 | A concrete list without a DS parameter set: the TIM is written into the third element, and a reader of the result finds other elements and no TIM. |
| BeaconList.AddKeepsSorted | core/rtw_ap.c:168-232 | On a list sorted by ID the addition keeps it sorted. |
| BeaconList.RemoveUndoesAdd | core/rtw_ap.c:168-269 | Removal undoes the addition of a fresh element if and only if its body is not empty or it was not inserted, that is, its predecessor is missing or empty. |
| BeaconList.EmptyStays | core/rtw_ap.c:234-269 | A concrete list in which an empty element that was added stays when it is removed. |
| BeaconList.AddAgain | core/rtw_ap.c:168-232 | A second addition with the same ID replaces the first. |
| BeaconList.ScanIsSearch | core/rtw_ap.c:176-193 | On a sorted list the scan finds exactly the element that rtw_get_ie finds. |
| StationSpec.RunCounted | core/rtw_ap.c:3497-3785 | Over any run of joins, re-joins, leaves, coexistence frames, flushes and resets every counter stays the number of stations with its flag if and only if there was no reset or no non-HT station at the last one. |
| StationSpec.ShortByLastReset | core/rtw_ap.c:3497-3785 | Whatever the counters were before: after a run the counter of non-HT stations is short by their number at the last reset. |
| StationSpec.RunShort | core/rtw_ap.c:3497-3785 | Over any run the other counters, and without a reset all of them, are as far off as before. |
| StationSpec.ModeWhenShort | core/rtw_ap.c:3383-3463 | If that counter is short, the mode says mixed exactly unless it is short by the number of non-HT stations there are. |
| StationSpec.MixedForNobody | core/rtw_ap.c:3497-3785 | When the only non-HT station leaves after a reset, the counter becomes -1 and the mode stays mixed with no such station left. |
| StationSpec.ScanResetCounted | core/rtw_ap.c:1496-1498 | The reset after a scan keeps that if and only if no station has the non-HT flag. |
| StationSpec.ScanForgets | core/rtw_ap.c:1496-1498 | A concrete state with one non-HT station, whose counters count before the reset and not after it. |
| StationSpec.JoinAgain | core/rtw_ap.c:3497-3691 | A second join with the same capabilities changes nothing. |
| StationSpec.JoinsTell | core/rtw_ap.c:3516-3655 | What the flags of a station say that has joined, perhaps repeatedly, since it last left, with HT switched on at some joins and off at others: preamble, ERP and slot time tell about the last join, non-HT about the last one with HT on, the other three about any of those. |
| StationSpec.LeaveAgain | core/rtw_ap.c:3693-3785 | A second leave changes nothing. |
| StationSpec.LeaveUndoesJoin | core/rtw_ap.c:3497-3785 | A leave after a join gives the state of the leave alone: counters and HT operation mode included. |
| StationSpec.FlushZero | core/rtw_ap.c:3889-3948 | A flush brings every counter to zero if and only if no station outside the association list has a flag. |
| StationSpec.ModeTellsStations | core/rtw_ap.c:3383-3463 | Whenever it is brought up to date, bits 0 and 1 of the mode are 3 exactly if a station without HT is there, 2 exactly if none is but the AP supports 40 MHz and a 20 MHz station is there, 1 exactly if neither holds and olbc_ht is set, and 0 otherwise; the other bits follow the stations as well, and an immediate second update changes nothing. |
| StationSpec.ModeFollows | core/rtw_ap.c:3640-3770 | The mode is up to date after every join with HT switched on and after every leave. |
| StationSpec.IntolerantStays | core/rtw_ap.c:3291-3349 | A station that reported to be 40 MHz intolerant keeps the flag over any run until it leaves or is flushed. |
| StationSpec.LegacyIsChange | core/rtw_ap.c:3518-3600 | The beacon is sent again for a change of the presence of stations without ERP, and above 11b without short preamble or short slot time, and for no other change of these counters. |
| StationSpec.ChangesCount | core/rtw_ap.c:3394-3463 | The number of changes that is returned is that of the parts in which the modes differ. |
| StationSpec.LastSeen | core/rtw_ap.c:3383-3463 | Over any run olbc_ht is what was last seen. |
| StationSpec.AnnouncedIsChange | core/rtw_ap.c:3518-3600 | The tests for 1 and 0 that trigger a beacon update are true exactly if the presence of such stations changed. |
| StationSpec.FlaggedIsPositive | core/rtw_ap.c:3744-3750 | When a counter counts it is positive while a station has its flag, so the warning in the leave code is never reached. |
| StationSpec.FlushIsDropped | core/rtw_ap.c:3889-3948 | When the intolerant stations are counted, a flush of distinct stations subtracts on the counters what each of them had, one after the other. |
| StationSpec.FlushFields | core/rtw_ap.c:3889-3948 | A flush keeps the stations and all other fields, and leaves the mode that the final counters ask for. |
| StationSpec.CountedIsPositive | core/rtw_ap.c:3744-3750 | When the intolerant stations are counted, the warning in the leave code is reached by no station of a flush. |
| StationCounters.MlmePriv.HtOperationUpdate | core/rtw_ap.c:3394-3463 | On the fields: the mode asked for by the counters, nothing without ht_option; returned is the number of parts that changed. |
| StationCounters.MlmePriv.OnStaJoin | core/rtw_ap.c:3497-3691 | On the fields: flags, counters and mode of a join; the beacon is updated exactly if an announced presence or the mode changed. |
| StationCounters.MlmePriv.OnStaLeave | core/rtw_ap.c:3693-3785 | On the fields, whatever the counters are: all flags cleared, counters and mode accordingly, the counter of intolerant stations stopping at zero; the returned value tells whether the TIM bit or an announced presence changed. |
| StationCounters.MlmePriv.OnBssCoex | core/rtw_ap.c:3291-3349 | On the fields: the 40 MHz intolerant flag is counted once, the other reports are remembered, and an update follows exactly if something changed. |
| StationCounters.MlmePriv.Flush | core/rtw_ap.c:3889-3948 | On the fields: every station of the list has no flag afterwards, the counters have lost what they had, and the mode is up to date. |
| StationRun.HandleAll | core/rtw_ap.c:3497-3785 | A run of events on the fields of many stations, first joins, unknown stations, flushes and resets at any time included, ends where the run of the specification ends. |
| StationRun.Handle | core/rtw_ap.c:3497-3785 | One event on the fields of many stations follows the specification and leaves the other stations alone; a first join makes a station with no flag. |
| StationRun.HandleFlush | core/rtw_ap.c:3889-3948 | The flush of the association list on the fields is the flush of the specification: counters, mode, and the flags of every station. |
| ChannelGroup.SyncAllExtends | core/rtw_ieee80211.c:1838-1886 | Folding rtw_sync_chbw over any requests keeps the channel of the group, never narrows it, keeps its offset once it has one, and ends at the maximum of the initial and the adjusted widths. |
| ChannelGroup.SyncAllGroups | core/rtw_ieee80211.c:1808-1886 | Every adjusted request is grouped with the final group by rtw_is_chbw_grouped and not wider. |
| ChannelGroup.SyncOne | core/rtw_ieee80211.c:1838-1886 | One call extends the group and leaves the adjusted request within it; a request that stays wide has an offset. |
| ChannelGroup.NoOffsetNoWidth | core/rtw_ieee80211.c:1851-1877 | A wide group without an offset cuts every wide request down to 20 MHz and stays as it is. |
| ChannelGroup.PairedChannels | core/rtw_wlan_util.c:501-537 | The table of 5 GHz channels pairs them: a channel is lower if and only if the one 20 MHz above it is upper. |
| ChannelGroup.WideGetsOffset | core/rtw_wlan_util.c:474-544 | A wide setting on a channel that has an offset gets one whatever was asked for, and asking again does not change it. |
| ChannelGroup.SecondaryExists | core/rtw_wlan_util.c:474-544 | The channel that the offset pairs with exists: in the 2.4 GHz band above up to channel 4, below from channel 10 on, and on the side asked for in between; in the 5 GHz band the two are paired both ways. |
| ChannelGroup.AdjustedExactly | core/rtw_ieee80211.c:1838-1886 | What a request becomes: on the channel of the group, at its own width as far as the band has it, at 20 MHz only if that was asked for or there is no offset, with the offset of the channel or the one asked for. |
| ChannelGroup.UnionCovers | core/rtw_ap.c:4767-4788 | The union of the selected settings is grouped with, and at least as wide as, what each of them was adjusted to. |
| ChannelGroup.UnionMayBe | core/rtw_ap.c:4767-4788 | The union is at most as wide as what is allowed on the channels of all selected settings, and if it is wide it has an offset. |
| ChannelGroup.PreparedExactly | core/rtw_ap.c:4767-4788 | One setting is cut to the width allowed on its channel and no further, and gets an offset if it stays wide. |
| ChannelGroup.FollowGrouped | core/rtw_ap.c:4852-4863 | A setting that follows the union is grouped with it, keeps its width if the union is wide enough, and is unchanged if it was within the union already. |
| ChannelSync.SyncChbw | core/rtw_ieee80211.c:1838-1886 | In place: request and group become the adjusted request and the widened group. |
| ChannelSync.GetOffsetByChbw | core/rtw_wlan_util.c:474-544 | The offset for a channel and a width, left alone where there is none, and the validity returned. |
| ChannelSync.AdjustChbw | core/rtw_mlme.c:5166-5191 | The width becomes the smaller one of what was asked for and what is allowed, and a change is reported exactly if it became smaller. |
| ChannelSync.UnionLoop | core/rtw_ap.c:4767-4788 | The loop computes the union over the selected interfaces. |
| ChannelSync.UpdateBssChbw | core/rtw_ap.c:4852-4863 | The loop makes every selected interface follow the union and leaves the others alone. |
| ChannelSync.DecideOnRequestedChannel | core/rtw_ap.c:4767-4863 | Whatever the checks between the loops make of the union: either nothing is decided and no interface changes, or every selected interface is grouped with the setting decided on, at its own width or that of the setting, and the others are unchanged. |

## Left out

- Register access, HAL calls, frame transmission, logging and real time: they have no effect here, and
  what they decide is a parameter (`Env` of the command protocol, `gotMemory`, `now`, `scanning`, `htOn`).
- The callbacks' own work: a callback frees the object or keeps it, as the environment decides.
- Commands whose submitter passed the filter just before the thread cleared `cmdthd_running`: they stay
  queued; only safety is claimed for them, not that they are processed.
- Restarting the command thread, the event queue, the primary adapter's queue in concurrent mode, and
  the failure of the allocation of a command.
- NAT2.5: the tick counter does not wrap and use counts are unbounded; an entry that is freed is one that
  is on no chain; the encoding of addresses from frames, the IPX forms that share a type octet, and the
  rewriting of IPv6 neighbour discovery.
- PPPoE without the relay tag (`pppoe_connection_in_progress`), session frames, and tags that do not tile
  the length given in the header, past whose end the code reads.
- Enqueue: the intrusive list is a sequence of objects; its links are not modelled.
- DequeueHead: the same.
- StampRelay: on a little-endian host frames are left out that have room for the size read in the wrong byte
  order, 2052 octets or more, because the code then copies from behind its 40-octet buffer.
- AddTag: the same.
- DhcpFlagBcast: the frame reaches as far as the code reads of it without looking at the length: the
  protocol of an IP packet, the ports of a UDP datagram, and the cookie if the ports are those of a request.
- Sounding: forced stops by unseen HAL code, register bitmaps, the exact use of `sounding_running`, the
  counts of beamformees (whether they are zero is a parameter of a leave), and the flags that
  `_beamforming_enter` and `_beamforming_leave` set for the workaround with target SU beamformees.
- Leave: the suspension flags of that workaround and the counts of beamformees.
- A zero minimum sounding period, by which the code would divide.
- Lists of elements that do not end where the buffer says, except for the parsers: the searches read past
  the end of those.
- GetIeEx: an element with the ID has at least as many octets as the OUI that is compared, because the code
  compares them without looking at the length; what it makes of the octets of the following element is not
  modelled.
- IesRemoveIe: the same.
- GetP2pIe: the same.
- DelP2pAttrs: the same of the vendor elements; the list fits in the MAX_IE_SZ octets of the structure; and no
  search in an element runs for ever, because there is no result to state then.
- DelP2pAttr: no search in the element runs for ever.
- GetP2pAttr: the search does not run for ever.
- Deleting whole P2P elements, WPS and WFD attributes, and merging P2P elements: searches and deletions of
  the kinds modelled.
- UpdateBcnTim: a list without a TIM that ends before the computed offset, where the size of the remainder is
  a huge unsigned number and the allocation of its copy fails, is left out. The bitmap has between 1 and 250
  octets and the buffer has room for the largest element of it; an empty bitmap, of which the code sends one
  octet that it does not have, is left out, too.
- PlaceForTim: the list does not end before the computed offset.
- Failure of the allocation of the copy of the remainder in the beacon edits.
- Stations: mesh parts, `num_sta_no_ht` as it is used in station mode (`core/rtw_mlme_ext.c:10998`), the
  clearing of the TIM bit of a leaving station, and the update of clients. The 16-bit mode field is modelled
  by its three parts and the remaining bits.
- OnBssCoex: a body that is not empty reaches as far as the code reads of it without comparing its length,
  that is, five octets if it starts with a coexistence element.
- DecideOnRequestedChannel: the checks of the union and `rtw_ap_choose_chbw` are a parameter.
- Channels: the DFS checks, `rtw_chset_sync_chbw`, MCC and mesh adjustment of
  `rtw_ap_chbw_decision`; the width that registry and hardware allow on a channel is a parameter.
- `tx_beacon_handlder`, channel plans, Bluetooth coexistence, and the ioctl layers.
