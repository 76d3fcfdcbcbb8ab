# coLinux: verified models

This project models the parts of coLinux whose correctness is hard to see, and proves what the code promises about
them. Each model follows the code's branches, constants and error returns. Code that updates things in place is a
class or a method with loops, proved against a specification on values; what the code is for is then proved about that
specification, for all inputs, all runs or all reachable states. What the host decides (whether memory can be had, which
frame is handed out, how many bytes a socket takes) is a parameter or a nondeterministic choice.

| files | what they model |
|---|---|
| `Cksum` | the unrolled, alignment-dependent Internet checksum, against sections 1 and 2 of RFC 1071 |
| `Mbufs`, `IpReass`, `IpInput`, `IpOutput`, `IpRoundTrip` | slirp's fragmentation and reassembly, from `ip_output` through the header bytes and `ip_input` to `ip_reass`, with the table of datagrams under reassembly and its timer (section 3.2 of RFC 791) |
| `IfQueue`, `IfPlace` | slirp's two-queue packet scheduler with its round-robin cursor |
| `Sbuf` | slirp's socket ring buffers under partial sends and receives |
| `InodeStore`, `InodeOps`, `Cofs` | the cofs inode store: one set of inodes in a flat list, hash chains and child lists; subtree deletion with bounded recursion |
| `GuestPages`, `GuestMemory`, `GuestMonitor` | guest memory: the two-level frame map, page-table entries that lie in the memory they describe, the reverse map in host frames, and copies cut at page borders |
| `RefProtocol`, `RefEffects`, `RefDriver` | driver handles and monitors: two kinds of reference counts and the module slots |
| `Passage` | the temporary page tables of the passage page, two-level and PAE |
| `Console`, `ConsoleCells` | the row-major console buffer, and its replay to a new console |
| `Jiffies` | 64-by-32-bit division, and jiffies without drift |
| `DebugLog`, `LogEffects` | the driver's log sections and the reader's walk over type-length-value records |
| `Utf8` | the table-driven UTF-8 codec (section 2 of RFC 2279) |
| `Bytes` | machine integer ranges, `Option`, and sequence operations and lemmas that the others share |

Where a promise turns out to hold only under a condition, the condition is proved to be exact:

* Offsets and lengths of fragments have 16 bits (`src/colinux/user/slirp/ip.h:252-254`), and `ip_reass` adds to them. A
  fragment is linked right into every chain if and only if it ends at byte 65536 or before (`IpReass.LinkedRightIff`),
  and a joined datagram has the right length if and only if that is at most 65535 bytes (`IpReass.JoinIsDatagram`).
  Fragments of 65504, 24 and 100 bytes laid end to end, each in a packet that `ip_input` accepts, are handed up as a
  datagram of 65628 bytes with a length of 92 (`IpReass.LengthCut`, `IpRoundTrip.OversizeArrives`), and a fragment
  trimmed past the border gets offset 4 (`IpReass.TrimmedToFour`).
* `ip_reass` joins a chain through `m_cat`, which grows a block at most once, by `MINCSIZE`. Fragments of at most `l`
  bytes join whatever the room if and only if `l` is at most `MINCSIZE` (`IpReass.JoinIff`); a given chain is delivered
  if and only if 16 bits hold its length and its pieces fit in turn (`IpReass.DeliveredIff`), and so is a datagram that
  goes out through `ip_output` and comes back (`IpRoundTrip.RoundTrip`).
* `ip_input` drops a packet of `ip_output` with one word of its header changed, unless the change is between 0 and
  0xFFFF (`IpOutput.HarmSeenIff`) or makes the header longer (`IpOutput.HarmedDropped`); one that makes it longer goes
  through if the data happen to sum to zero with it (`IpOutput.LongerHeader`).
* Forgetting an inode is safe if and only if it is not the root (`InodeStore.ForgetSafeIff`); a rename keeps the tree if
  and only if its target is outside the moved subtree, of which the moved inode itself is part (`InodeOps.MoveSafeIff`).
* The reverse map has `hostmem_pages / 1024` pages, rounded down. A page that is given a frame beyond it keeps that
  frame, its page-table entry stays as it was, the call fails, and the next request for the page reports success
  (`GuestPages.UncoveredFrameStays`). The three records of a page that gets a frame agree if and only if the reverse map
  covers the frame offered, or the entry happened to be that frame's before (`GuestPages.AllocAgreesIff`). The code does
  not clear the frames that become page tables; if they were clear, coverage alone decides, for one allocation and over
  every run (`GuestPages.AgreeIffCovered`, `GuestMonitor.RunConsistent`). All frames are covered when the host's memory
  is a multiple of 4 MB.
* The guest names pages to allocate and release by any address (`src/colinux/kernel/monitor.c:643-651`). A release keeps
  the records of all pages consistent if and only if its page does not hold page tables of the pseudo RAM
  (`GuestPages.FreeKeepsIff`, and `GuestMonitor.StepKeepsIff` for every request); the page at 0xFEB00000 does
  (`GuestPages.FreeOfTable`). Whatever the addresses, no frame is lost or used twice (`GuestMonitor.RunSafe`). A release
  of a range keeps the records if none of its pages holds such tables, and only then when it does not wrap around
  (`GuestMonitor.Monitor.FreePages`).
* A failed `alloc_pages` also releases pages that were mapped before the call: what was mapped stays so if and only if
  none of the pages before the failing one was (`GuestMonitor.Monitor.AllocPages`).
* The range tests of the guest copies accept, beside the ranges inside the pseudo RAM, those that wrap around the
  address space back into it (`GuestMemory.InBoundsIff`), and these take in all page-table entries
  (`GuestMemory.WrapHitsEntries`). A copy keeps the records consistent if and only if it brings to the entries of
  recorded pages the bytes that are there (`GuestMemory.ToGuestKeepsIff`); one that the tests accept and that gets
  through does if and only if it does not wrap, or happens to carry all of these entries
  (`GuestMemory.HostCopyKeepsIff`).
* A guest page without a frame whose group of 1024 pages has one is copied to and from host frame 0. No copy to a range
  writes to that frame and all of them get through, if and only if every page of the range has a frame
  (`GuestMemory.ToGuestSafeIff`); under the same condition alone what a copy from it returns does not depend on that
  frame (`GuestMemory.FromGuestSafeIff`).
* An ATTACH stays inside the table of module slots and keeps the reference counts exact if and only if the descriptor
  had no monitor, and no listed monitor has the id or at most 16 modules are given, all with numbers that have slots
  (`RefProtocol.AttachSoundIff`); the request tests neither. Module 156 has no slot (`RefProtocol.AttachOverruns`). A
  CLOSE keeps them exact if and only if the descriptor owns the monitor or sits in none of its slots
  (`RefProtocol.LeaveSoundIff`); otherwise its slots go on naming it although it no longer points to the monitor
  (`RefProtocol.SeatedLeaveStays`). An open, a CREATE, an open and an ATTACH of module 0 lead from the loaded driver to
  states in which all three fail (`RefProtocol.RunToTwoOpen`, `RefProtocol.RunToAttached`, `RefProtocol.AllFail`).
* `sbappendsb` appends what fits unless the ring is full and there is something to append (`Sbuf.AppendIff`). `sbcopy`
  clips a slice that reaches past the buffered bytes if and only if it starts with the first of them and they do not
  wrap around; past them it copies nothing only if nothing is asked for, or nothing is buffered and the place lies
  before `sb_wptr` (`Sbuf.CopyIff`).
* A timer tick conserves time if and only if what the cuts to 32 bits drop of the frequency, the quotient and the ticks
  due cancels out (`Jiffies.TickLosslessIff`); with a frequency below 2^32 that is if and only if less than 2^32 jiffies
  have passed since the last one (`Jiffies.TickConservesIff`). For a given frequency every tick in time conserves time
  if and only if the frequency fits the 32-bit parameter of the division (`Jiffies.FrequencyIff`).
* A scroll message that passes the bounds tests of the console stays inside its buffer if and only if its lines fit its
  region and the region ends on the screen, or it is about nothing (`Console.UpInBlockIff`, `Console.DownInBlockIff`).
  Rows 1 to 29 of a screen of 25 rows in a buffer of 50 pass the tests and do not (`Console.ScrollPastTheScreen`). CLEAR
  and BMOVE test nothing; they stay in the rows of the screen if and only if their rectangles are on it
  (`Console.RectInRowsIff`), and in the buffer if and only if the first and the last cells that they address are there
  (`Console.ClearIff`, `Console.MoveIff`).
* Console replay reproduces the screen, the cursor and the buffer from row `config_y` on; the whole buffer if and only
  if the rows before both are still empty (`Console.ReplayExact`).
* The reader of a log buffer that was cut inside a record hands on all records before it, and the start of that one if
  its header is there (`DebugLog.ParsedCut`).
* The DEBUG ioctl stores any bytes of a user. Whatever the driver's index, the reader's walk inside the stored record
  stays in it if and only if these bytes are whole records, or lack just the six bytes of the index record that follows
  (`DebugLog.RecordReadsIff`).
* `co_utf8_mbstowcs` compares a count of characters with a limit in bytes. Decoding undoes encoding if and only if at
  every character the limit less the characters before it allows for the bytes of that one (`Utf8.RoundTripIff`); the
  length in bytes always is enough (`Utf8.RoundTrip`).
* The comment in `resize_section` (`src/colinux/kernel/debug.c:66-80`) speaks of growing and shrinking buffers, but the
  function returns unless the old and new sizes are equal; the model follows the code.

## Model

| member | source | states |
|---|---|---|
| `Cksum.Cksum` | src/colinux/user/slirp/cksum.c:48-141 | for every byte string up to 65535 bytes at either alignment the result is the RFC 1071 checksum, and the signed 32-bit accumulator never overflows |
| `Cksum.RfcSumIsCanon` | src/colinux/user/slirp/cksum.c:48-141 | the ones'-complement word sum is the representative modulo 65535 of the plain integer sum |
| `Cksum.WeighShift` | src/colinux/user/slirp/cksum.c:79-86 | reading one byte later multiplies the sum by 256 modulo 65535, which is why the odd-address path swaps bytes |
| `Cksum.Reduce` | src/colinux/user/slirp/cksum.c:48-49 | REDUCE keeps the sum modulo 65535, gives 16 bits, and gives 0 only for 0 |
| `Cksum.SumBlocks` | src/colinux/user/slirp/cksum.c:91-104 | the unrolled loops add exactly the words they pass and leave fewer than 8 bytes |
| `Cksum.SumTail` | src/colinux/user/slirp/cksum.c:107-110 | the word loop adds the rest but at most one byte |
| `Cksum.FinishSwapped` | src/colinux/user/slirp/cksum.c:112-140 | the ending after an odd start gives the RFC sum of the whole string |
| `Cksum.FinishAligned` | src/colinux/user/slirp/cksum.c:124-140 | the ending after an even start pads a last byte with zero |
| `Cksum.StoredSumVerifies` | src/colinux/user/slirp/ip_output.c:183-184 | storing the checksum of a message in its zeroed field makes the message sum to zero, which is what `ip_input` tests |
| `Cksum.WordDetected` | src/colinux/user/slirp/cksum.c:48-141 | a message that sums to zero no longer does with one word changed, unless 0 becomes 0xFFFF or the other way around |
| `Mbufs.Adj` | src/colinux/user/slirp/mbuf.c:179-196 | a positive count takes that many bytes off the front, a negative one off the end, and the block stays |
| `Mbufs.Cat` | src/colinux/user/slirp/mbuf.c:126-142 | appends exactly the other mbuf's bytes, and goes past the block exactly when they exceed the room plus one growth |
| `Mbufs.Inc` | src/colinux/user/slirp/mbuf.c:144-174 | growing keeps the contents and the window |
| `Mbufs.Copy` | src/colinux/user/slirp/mbuf.c:201-213 | appends exactly the slice asked for, or fails when there is no room |
| `IpReass.TrimTailCovers` | src/colinux/user/slirp/ip_input.c:308-319 | trimming the following fragments removes exactly the bytes the new one provides |
| `IpReass.InsertChain` | src/colinux/user/slirp/ip_input.c:282-326 | up to 65536 bytes, linking a fragment in keeps the chain sorted, without overlap and true to the datagram |
| `IpReass.InsertCovers` | src/colinux/user/slirp/ip_input.c:282-326 | the chain then covers exactly what it covered plus the fragment's range |
| `IpReass.DropAddsNothing` | src/colinux/user/slirp/ip_input.c:292-302 | a dropped fragment brings no new byte |
| `IpReass.LinkedRightIff` | src/colinux/user/slirp/ip_input.c:282-326 | a fragment is linked in order and with all its bytes into every sorted chain if and only if it ends within the 16-bit offsets |
| `IpReass.OffsetWraps` | src/colinux/user/slirp/ip_input.c:292-302 | what a fragment brings beyond the 16-bit offsets comes to lie at the start of the datagram |
| `IpReass.OverlapWins` | src/colinux/user/slirp/ip_input.c:292-326 | for any contents: where fragments overlap, one stored before that begins no later than the new one keeps its bytes, and against all others the new one's win |
| `IpReass.TrimmedToFour` | src/colinux/user/slirp/ip_input.c:292-302 | trimmed behind a predecessor that ends at byte 65540 the fragment gets offset 4 |
| `IpReass.CompleteIffCovered` | src/colinux/user/slirp/ip_input.c:327-335 | the scan says complete exactly when every byte of the datagram has arrived |
| `IpReass.JoinIff` | src/colinux/user/slirp/ip_input.c:340-349 | fragments of at most l bytes can be joined whatever the room, if and only if l is at most MINCSIZE |
| `IpReass.JoinIsDatagram` | src/colinux/user/slirp/ip_input.c:340-385 | a complete chain that fits joins into the datagram behind the header of its first fragment; its length field is right if and only if 16 bits hold it |
| `IpReass.LengthCut` | src/colinux/user/slirp/ip_input.c:369-385 | fragments of 65504, 24 and 100 bytes laid end to end are returned with a length of 92 |
| `IpReass.StepCorrect` | src/colinux/user/slirp/ip_input.c:238-391 | one call returns the datagram if and only if the new fragment closes the last gap and the chain fits; it then keeps nothing, and otherwise adds exactly the bytes of the fragment |
| `IpReass.PendingUntilCovered` | src/colinux/user/slirp/ip_input.c:238-391 | fragments in any order, with duplicates and overlaps: until they cover the datagram nothing is returned and the stored coverage is the union of everything offered |
| `IpReass.DeliveredIff` | src/colinux/user/slirp/ip_input.c:238-391 | the fragment that completes the cover returns the original payload, once, if and only if 16 bits hold its length and the chain fits |
| `IpReass.DeliveredWhenShort` | src/colinux/user/slirp/ip_input.c:238-391 | fragments of at most MINCSIZE bytes of a datagram of at most 65535 bytes always deliver it |
| `IpReass.EveryDeliveryGenuine` | src/colinux/user/slirp/ip_input.c:238-391 | however long the run of fragments of a datagram of at most 65535 bytes, only that datagram is ever returned |
| `IpReass.SearchAfter` | src/colinux/user/slirp/ip_input.c:282-285 | the search loop finds the first fragment that begins after the new one |
| `IpReass.TrimFollowing` | src/colinux/user/slirp/ip_input.c:308-319 | the trimming loop computes the trimmed chain |
| `IpReass.ScanComplete` | src/colinux/user/slirp/ip_input.c:327-335 | the scanning loop decides completeness |
| `IpReass.Concatenate` | src/colinux/user/slirp/ip_input.c:340-349 | the concatenation loop appends all payloads in order |
| `IpReass.Reass` | src/colinux/user/slirp/ip_input.c:238-391 | the whole of `ip_reass` on one chain |
| `IpInput.TableStepLocal` | src/colinux/user/slirp/ip_input.c:264-277 | a fragment acts on the queue of its own datagram as `ip_reass` does alone, and on no other queue, whether or not `m_get` has an mbuf |
| `IpInput.RunProjects` | src/colinux/user/slirp/ip_input.c:71-206 | in any interleaving of packets of any datagrams, timer ticks and missing mbufs, each datagram fares as if no other existed |
| `IpInput.SoloFeeds` | src/colinux/user/slirp/ip_input.c:238-277 | as long as fewer than IPFRAGTTL ticks pass and mbufs last, a datagram is reassembled from its fragments as they arrive |
| `IpInput.AgedLocal` | src/colinux/user/slirp/ip_input.c:445-464 | a tick ages or frees the queue of a datagram whatever other queues there are |
| `IpInput.AgedTwice` | src/colinux/user/slirp/ip_input.c:445-464 | ageing by ticks adds up |
| `IpInput.AgedKeepsInv` | src/colinux/user/slirp/ip_input.c:445-464 | ticks keep the table consistent and never touch a chain they do not free |
| `IpInput.AllExpire` | src/colinux/user/slirp/ip_input.c:445-464 | no queue outlives IPFRAGTTL ticks |
| `IpInput.RunAges` | src/colinux/user/slirp/ip_input.c:445-464 | in every run a queue is freed on tick IPFRAGTTL of its life, whatever fragments came later |
| `IpInput.DroppedIff` | src/colinux/user/slirp/ip_input.c:83-132 | a packet is dropped, with the table as it was, if and only if version, lengths, header sum or hops are wrong |
| `IpInput.TakenFor` | src/colinux/user/slirp/ip_input.c:130-206 | what decides between a fragment, a whole packet and one with only the reserved bit, for headers with options too, and which bytes are its data |
| `IpInput.TrailIgnored` | src/colinux/user/slirp/ip_input.c:118-128 | bytes behind the length in the header change nothing |
| `IpInput.WholeEffect` | src/colinux/user/slirp/ip_input.c:150-206 | a packet that is no fragment goes up at once; only the reserved bit frees a queue, that of its key |
| `IpInput.PieceEffect` | src/colinux/user/slirp/ip_input.c:238-277 | a fragment makes a queue with 60 ticks to live, if there is an mbuf, or goes to its queue, which keeps its time; no other queue changes |
| `IpInput.Tick` | src/colinux/user/slirp/ip_input.c:445-464 | the timer loop frees exactly the queues whose time has come and ages the others by one |
| `IpInput.FragTable.FindQueue` | src/colinux/user/slirp/ip_input.c:166-174 | the walk finds the queue with the same addresses, protocol and id |
| `IpInput.FragTable.Reassemble` | src/colinux/user/slirp/ip_input.c:238-391 | `ip_reass` with its queue made, found or freed |
| `IpInput.FragTable.Input` | src/colinux/user/slirp/ip_input.c:71-206 | `ip_input` on the table: the reaction that `DroppedIff`, `WholeEffect` and `PieceEffect` describe |
| `IpInput.FragTable.SlowTimo` | src/colinux/user/slirp/ip_input.c:445-464 | one tick of every queue |
| `IpOutput.MakePacket` | src/colinux/user/slirp/ip_output.c:136-173 | one pass of the fragment loop makes the packet of its cutting |
| `IpOutput.FragmentRest` | src/colinux/user/slirp/ip_output.c:135-174 | the loop makes the packets of all cuttings after the first, or fails when mbufs run out |
| `IpOutput.Output` | src/colinux/user/slirp/ip_output.c:55-205 | a datagram is sent if and only if it fits the mtu, or DF is clear, the mtu holds 8 bytes of data and there are mbufs for all packets but the first; otherwise nothing is sent and the error is -1. It goes out in as few packets as hold it, each with its part of the data, offset, length and MF, and the header as it was |
| `IpOutput.SentIff` | src/colinux/user/slirp/ip_output.c:92-143 | ... that condition, for the packets of the cuttings |
| `IpOutput.SentCarries` | src/colinux/user/slirp/ip_output.c:119-184 | ... and those packets, without the cuttings |
| `IpOutput.CutsGood` | src/colinux/user/slirp/ip_output.c:119-174 | every cutting is non-empty, starts on 8 bytes and fits the mtu; all but the last are full and have MF set |
| `IpOutput.CutsCover` | src/colinux/user/slirp/ip_output.c:119-184 | every byte of the payload is in some cutting |
| `IpOutput.CutsApart` | src/colinux/user/slirp/ip_output.c:119-184 | no byte is in two cuttings |
| `IpOutput.SealReadsBack` | src/colinux/user/slirp/ip_output.c:168-184 | a header with its checksum sums to zero and reads back as the header it was made from |
| `IpOutput.OffFieldUnpacks` | src/colinux/user/slirp/ip_output.c:154-160 | offset and MF unpack from the 16-bit field they were packed into |
| `IpOutput.PacketAccepted` | src/colinux/user/slirp/ip_input.c:71-206 | `ip_input` accepts a fragment packet and recovers key, offset, flag and data |
| `IpOutput.WholeAccepted` | src/colinux/user/slirp/ip_input.c:71-206 | `ip_input` hands an unfragmented packet up as it was sent |
| `IpOutput.HarmSeenIff` | src/colinux/user/slirp/ip_input.c:99-108 | the header of a packet with one word changed sums to zero if and only if nothing changed, or 0 and 0xFFFF took each other's place |
| `IpOutput.HarmedDropped` | src/colinux/user/slirp/ip_input.c:83-132 | such a packet is dropped, if the word does not make its header longer |
| `IpOutput.LongerHeader` | src/colinux/user/slirp/ip_input.c:92-108 | one that does may go through: with the right four bytes of data |
| `IpRoundTrip.FragmentAccepted` | src/colinux/user/slirp/ip_output.c:109-184 | every packet of a datagram is taken as a piece of that datagram |
| `IpRoundTrip.PermutationCovers` | src/colinux/user/slirp/ip_input.c:238-391 | a permutation of disjoint, covering fragments covers with its last element and not before |
| `IpRoundTrip.FragsLaid` | src/colinux/user/slirp/ip_output.c:119-184 | the fragments of a datagram partition it in order |
| `IpRoundTrip.AnyOrder` | src/colinux/user/slirp/ip_input.c:238-391 | pieces that partition a datagram rebuild it, in whatever order they come, if and only if they fit in turn |
| `IpRoundTrip.RoundTrip` | src/colinux/user/slirp/ip_output.c:55-205 | give a datagram to `ip_output` and let the bytes of its packets arrive in any order, mixed with any other packets and with ticks: the payload goes up exactly once and no queue is left, if and only if its pieces fit, as they always do below an mtu of MINCSIZE + 28 |
| `IpRoundTrip.OversizeArrives` | src/colinux/user/slirp/ip_input.c:71-206 | ... from the bytes of three packets on: 65628 bytes go up with a length of 92 |
| `IfQueue.EnqueueGrown` | src/colinux/user/slirp/if.c:159-252 | `if_output` appends its packet to what its session has queued and touches no other session, downgrades included |
| `IfQueue.EnqueueInv` | src/colinux/user/slirp/if.c:159-252 | counters stay exact, a session has at most one batch list, `next_m` stays on the batch queue |
| `IfPlace.FastPlace` | src/colinux/user/slirp/if.c:197-214 | a low-delay packet of a session without a batch list, not downgraded, ends the fast queue, and leaves the batch queue alone |
| `IfPlace.BatchPlace` | src/colinux/user/slirp/if.c:188-222 | any other packet leaves the fast queue alone |
| `IfPlace.BatchKeepsOrder` | src/colinux/user/slirp/if.c:188-222 | ... and, without a downgrade, ends the list of its session in its place in the rotation, or is a new list at the end |
| `IfPlace.DownPlace` | src/colinux/user/slirp/if.c:224-241 | the list of a downgraded session moves to the front of the batch queue from where it was; all others stay |
| `IfPlace.RunFastIsLow` | src/colinux/user/slirp/if.c:159-322 | in every run the fast queue holds only packets that were given with low delay, for a socket |
| `IfPlace.RunCounts` | src/colinux/user/slirp/if.c:224-241 | in every run so_queued and so_nqueued are the packets queued, and those given since the session last had none |
| `IfPlace.StepCount` | src/colinux/user/slirp/if.c:243-322 | how many packets each call sends: as many as the link takes, none while it is down |
| `IfQueue.SendServed` | src/colinux/user/slirp/if.c:266-322 | a pass of `if_start` sends the oldest packet of its session and removes nothing else |
| `IfQueue.SendInv` | src/colinux/user/slirp/if.c:266-322 | ... and keeps the same invariant |
| `IfQueue.RunFaithful` | src/colinux/user/slirp/if.c:159-322 | in every interleaving, for every session: packets sent followed by packets queued are exactly the packets given, in order |
| `IfQueue.RoundsAreFair` | src/colinux/user/slirp/if.c:288-306 | strict rotation serves one packet of every non-empty session per round |
| `IfQueue.DrainOrder` | src/colinux/user/slirp/if.c:254-322 | without new packets `if_start` empties the fast queue first and then serves the batch sessions in strict rotation |
| `IfQueue.Search` | src/colinux/user/slirp/if.c:188-195 | the backward walk finds the batch list of the session |
| `IfQueue.PlacePacket` | src/colinux/user/slirp/if.c:188-241 | placement of a packet on the queues, as `IfPlace` describes it |
| `IfQueue.Scheduler.Queue` | src/colinux/user/slirp/if.c:159-241 | `if_output` up to its call of `if_start`, as `IfPlace` describes it |
| `IfQueue.Scheduler.SendNext` | src/colinux/user/slirp/if.c:276-318 | one pass of the loop |
| `IfQueue.Scheduler.Output` | src/colinux/user/slirp/if.c:159-252 | `if_output` |
| `IfQueue.Scheduler.Flush` | src/colinux/user/slirp/if.c:254-322 | `if_start` ends, and has sent as much as the link takes |
| `Sbuf.DropIsSuffix` | src/colinux/user/slirp/sbuf.c:25-41 | dropping leaves exactly the rest of the bytes |
| `Sbuf.AppendIff` | src/colinux/user/slirp/sbuf.c:136-167 | the bytes that fit are appended at the end, if and only if the ring is not full or nothing is appended |
| `Sbuf.CopyIsSlice` | src/colinux/user/slirp/sbuf.c:174-200 | `sbcopy` returns the exact slice |
| `Sbuf.CopyIff` | src/colinux/user/slirp/sbuf.c:174-200 | for any place and length: `sbcopy` returns the buffered bytes of the slice if and only if the slice lies in them, or starts with the first of them and they do not wrap around; past them, if and only if nothing is asked for, or nothing is buffered and the place lies before `sb_wptr` |
| `Sbuf.ReadPlanExact` | src/colinux/user/slirp/socket.c:99-145 | `soread` asks for all of the free room, or for whole segments when more than one fits, and never for more |
| `Sbuf.ReadAppends` | src/colinux/user/slirp/socket.c:146-196 | whatever the two receives deliver is appended in order |
| `Sbuf.WriteTakes` | src/colinux/user/slirp/socket.c:292-380 | the two areas hold exactly the buffered bytes, and as many as the two calls took are sent, from the front |
| `Sbuf.AppendOrSendKeepsOrder` | src/colinux/user/slirp/sbuf.c:74-130 | bytes sent directly and bytes buffered are together the old bytes and the new ones, in order; what `send` takes of them is sent, if nothing was buffered before |
| `Sbuf.RunIsQueue` | src/colinux/user/slirp/sbuf.c:25-200 | over every run of appends, partial sends, partial receives and drops the ring is a queue: nothing is lost, duplicated or reordered |
| `Sbuf.Buffer.SbDrop` | src/colinux/user/slirp/sbuf.c:25-41 | `sbdrop` on the block |
| `Sbuf.Buffer.SbAppendSb` | src/colinux/user/slirp/sbuf.c:136-167 | `sbappendsb` on the block, both edges |
| `Sbuf.Buffer.SbCopy` | src/colinux/user/slirp/sbuf.c:174-200 | `sbcopy` for any place and length |
| `Sbuf.Buffer.SbAppend` | src/colinux/user/slirp/sbuf.c:74-130 | `sbappend` without urgent data |
| `Sbuf.Buffer.ReadAreas` | src/colinux/user/slirp/socket.c:99-145 | the areas of `soread` |
| `Sbuf.Buffer.SoRead` | src/colinux/user/slirp/socket.c:92-196 | the ring side of `soread` |
| `Sbuf.Buffer.SoWrite` | src/colinux/user/slirp/socket.c:292-380 | the ring side of `sowrite` |
| `InodeStore.LevelsPartition` | src/colinux/kernel/filesystem.c:112-129 | the levels one pass frees and the subtrees it defers make up the whole forest, and nothing is in both |
| `InodeStore.FreeInCut` | src/colinux/kernel/filesystem.c:97-110 | freeing one inode of a partly freed store unlinks it from all three structures |
| `InodeStore.OrphanInCut` | src/colinux/kernel/filesystem.c:117-122 | deferring one inode takes it off its siblings |
| `InodeStore.NextPass` | src/colinux/kernel/filesystem.c:131-149 | a pass leaves a strictly smaller forest to the next one, so the alternation ends |
| `InodeStore.SubParent` | src/colinux/kernel/filesystem.c:112-149 | every inode of a subtree but its root has its parent there |
| `InodeStore.SiblingsApart` | src/colinux/kernel/filesystem.c:112-149 | subtrees of siblings are disjoint |
| `InodeStore.ForgetKeepsInv` | src/colinux/kernel/filesystem.c:131-157 | without the subtree of a non-root inode all lists, the count and the tree are consistent |
| `InodeStore.ForgetSafeIff` | src/colinux/kernel/filesystem.c:131-157 | forgetting is safe if and only if the inode is not the root |
| `InodeOps.HashAgreesWithScan` | src/colinux/kernel/filesystem.c:14-33 | the hash lookup finds what a scan of the flat list finds |
| `InodeOps.AddKeepsInv` | src/colinux/kernel/filesystem.c:35-76 | a new inode keeps everything consistent |
| `InodeOps.MoveKeepsInv` | src/colinux/kernel/filesystem.c:78-83 | a move outside the own subtree keeps everything consistent |
| `InodeOps.MoveSafeIff` | src/colinux/kernel/filesystem.c:260-288 | a rename leaves a consistent store if and only if the target is outside the moved subtree, of which the moved inode is part |
| `InodeOps.MoveEffect` | src/colinux/kernel/filesystem.c:260-288 | the moved inode keeps number and children and has the new name and parent; every other inode keeps name, number and parent, and its children without the moved one |
| `InodeOps.RenameEffect` | src/colinux/kernel/filesystem.c:260-288 | the new name in the new directory stands for the inode of the old one; every other name in every directory stands for what it stood for, but the old one in the old directory |
| `InodeOps.LookupEffect` | src/colinux/kernel/filesystem.c:458-472 | a lookup makes an inode with the next number for a name that stands for none; every other name stands for what it stood for |
| `InodeOps.ForgetEffect` | src/colinux/kernel/filesystem.c:131-149 | after a forget every name in the directories that are left stands for what it stood for, but that of the forgotten inode |
| `InodeOps.OneTree` | src/colinux/kernel/filesystem.c:78-110 | every inode hangs below the root |
| `InodeOps.RunConsistent` | src/colinux/kernel/filesystem.c:14-149 | after any lookups, creations, renames and forgets: numbers unique, hash and scan agree, count exact, one tree under inode 1 |
| `Cofs.Filesystem.Free` | src/colinux/kernel/filesystem.c:97-110 | `free_inode` |
| `Cofs.Filesystem.FreeChildren` | src/colinux/kernel/filesystem.c:112-129 | frees levels 0 to 5, defers what hangs on level 6, and recurses no deeper |
| `Cofs.Filesystem.Forget` | src/colinux/kernel/filesystem.c:131-149 | for trees of any depth: exactly the subtree is freed, each inode once |
| `Cofs.Filesystem.NumToInode` | src/colinux/kernel/filesystem.c:14-33 | `ino_num_to_inode` |
| `Cofs.Filesystem.FindInode` | src/colinux/kernel/filesystem.c:85-95 | the first child of that name |
| `Cofs.Filesystem.PickNumber` | src/colinux/kernel/filesystem.c:44-48 | the number loop ends, at the first free number |
| `Cofs.Filesystem.AllocInode` | src/colinux/kernel/filesystem.c:35-76 | `alloc_inode` |
| `Cofs.Filesystem.Lookup` | src/colinux/kernel/filesystem.c:458-472 | the child of that name is found or made |
| `Cofs.Filesystem.Rename` | src/colinux/kernel/filesystem.c:260-288 | `inode_rename`, whose effect on names `InodeOps.RenameEffect` states |
| `Cofs.Filesystem.Reparent` | src/colinux/kernel/filesystem.c:78-83 | `reparent_inode` and the new name, whose effect on every inode `InodeOps.MoveEffect` states |
| `GuestPages.AllocKeeps` | src/colinux/kernel/pages.c:341-394 | allocating and mapping, at any address, keeps the invariant whatever the host hands out, and changes nothing recorded about other pages but a new page table, and no byte but of the page table |
| `GuestPages.AllocSucceedsIff` | src/colinux/kernel/pages.c:341-394 | a call succeeds exactly when the page was there or a covered frame was found |
| `GuestPages.AllocEntries` | src/colinux/kernel/pages.c:374-394 | an allocation sets the page-table entry of its page to the new frame if and only if the reverse map covers that frame, and changes no other entry |
| `GuestPages.AllocAgreesIff` | src/colinux/kernel/pages.c:341-394 | a page that gets a frame is recorded alike in all three places if and only if the reverse map covers the frame offered, or the entry was that frame's before |
| `GuestPages.AllocBlank` | src/colinux/kernel/pages.c:341-394 | over clear tables, pages that are not recorded keep empty page-table entries |
| `GuestPages.UncoveredFrameStays` | src/colinux/kernel/pages.c:374-387 | a frame beyond the reverse map makes the call fail and stays, with the page-table entry as it was; the next call succeeds and changes nothing |
| `GuestPages.FreeKeeps` | src/colinux/kernel/pages.c:402-434 | releasing, at any address, leaves no frame to the page and keeps every other page and every byte outside its page table |
| `GuestPages.FreeKeepsIff` | src/colinux/kernel/pages.c:402-434 | ... and the invariant if and only if the page is not a page-table page of the pseudo RAM |
| `GuestPages.FreeOfTable` | src/colinux/kernel/pages.c:402-434 | the release of 0xFEB00000, which the code accepts, takes the frame of the first page-table page |
| `GuestPages.FreeBlank` | src/colinux/kernel/pages.c:402-434 | over clear tables, pages that are not recorded keep empty entries |
| `GuestPages.FreeEntries` | src/colinux/kernel/pages.c:402-434 | a release that keeps the invariant empties the entry of its page and changes no other |
| `GuestPages.AgreeIffCovered` | src/colinux/kernel/reversedpfns.c:121-139 | over clear tables, forward map, page-table entry and reverse map agree on a page if and only if the reverse map covers its frame |
| `GuestPages.AllocFrames` | src/colinux/kernel/pages.c:362-372 | allocation loses no frame and holds none twice |
| `GuestPages.AllocReverse` | src/colinux/kernel/pages.c:374-387 | an allocation writes the page to the reverse entry of its new frame, where there is a cell, and to no other |
| `GuestPages.FreeReverse` | src/colinux/kernel/pages.c:402-434 | a release clears the reverse entry of the frame that it gives back, where there is a cell, and no other; it succeeds if and only if the group of its page is there |
| `GuestPages.EntryMaps` | src/colinux/kernel/pages.c:220-254 | a page-table entry has the frame and the bits present, writable, accessed and dirty |
| `GuestPages.GuestSees` | src/colinux/kernel/pages.c:341-434 | over clear tables the processor finds the frame of every recorded page, and faults at every other |
| `GuestPages.FreeFrames` | src/colinux/kernel/pages.c:426-431 | a release, at any address, loses no frame and gives none back twice |
| `GuestPages.PutEntriesAt` | src/colinux/kernel/pages.c:220-254 | the callback of `co_monitor_create_ptes` writes each entry of its list in place and no other word of memory |
| `GuestPages.PartListed` | src/colinux/kernel/pages.c:220-281 | the part of a list in one page changes exactly its own entries of guest memory |
| `GuestPages.ListedThen` | src/colinux/kernel/pages.c:256-281 | parts one after the other, across pages and around the address space, are the list |
| `GuestMemory.SplitByPages` | src/colinux/kernel/pages.c:69-94 | the chunks lie end to end over the range, which may wrap around; none crosses a page, and only the last may end inside one |
| `GuestMemory.TilesCount` | src/colinux/kernel/pages.c:69-94 | there is one chunk per page that the range touches |
| `GuestMemory.PartSize` | src/colinux/kernel/pages.c:80-82 | the 32-bit rounding gives the rest of the page even on the last page of the address space |
| `GuestMemory.InBoundsIff` | src/colinux/kernel/transfer.c:80-88 | exactly which ranges the tests accept |
| `GuestMemory.ReachIsFirst` | src/colinux/kernel/transfer.c:90-109 | the copy loop gets to the first byte in whose group no page ever had a frame |
| `GuestMemory.ToGuestBytes` | src/colinux/kernel/transfer.c:90-109 | for any range, wrapping or not: every byte of a page with a frame becomes that of the buffer if the loop gets to it and stays otherwise, and the call succeeds exactly if the loop gets to all |
| `GuestMemory.ToGuestKeepsIff` | src/colinux/kernel/transfer.c:66-142 | a copy in keeps the invariant if and only if it brings to the entries of recorded pages what is there |
| `GuestMemory.WrapHitsEntries` | src/colinux/kernel/transfer.c:80-88 | a range that wraps around takes in every page-table entry |
| `GuestMemory.HostCopyKeepsIff` | src/colinux/kernel/transfer.c:80-109 | a copy that the tests accept keeps the invariant if and only if it does not wrap or carries all entries of recorded pages |
| `GuestMemory.ToGuestSafeIff` | src/colinux/kernel/transfer.c:90-109 | copies to a range all get through, past host frame 0, if and only if every page of it has a frame |
| `GuestMemory.FromGuestBytes` | src/colinux/kernel/transfer.c:90-109 | a copy out returns the bytes up to where the loop gets, for any range |
| `GuestMemory.FromGuestSafeIff` | src/colinux/kernel/transfer.c:90-109 | ... and does not depend on host frame 0 if and only if every page of it has a frame |
| `GuestMemory.ToGuestIsFlat` | src/colinux/kernel/transfer.c:90-109 | inside the pseudo RAM a copy in is one write to flat memory, with every other byte and every record unchanged |
| `GuestMemory.FromGuestIsFlat` | src/colinux/kernel/transfer.c:90-109 | a copy out returns exactly the bytes of flat memory if and only if the loop gets to all of them |
| `GuestMemory.HostRoundTrip` | src/colinux/kernel/transfer.c:114-148 | what the host wrote is what it reads back, at any address |
| `GuestMonitor.StepKeepsIff` | src/colinux/kernel/monitor.c:643-651 | one request, at any address, keeps the invariant if and only if it is no release of a page-table page of the pseudo RAM and no harmful copy |
| `GuestMonitor.RunSafe` | src/colinux/kernel/pages.c:341-434 | over every run of any requests at any addresses no frame is lost or backs two pages, and the reverse map stays apart |
| `GuestMonitor.RunClears` | src/colinux/kernel/pages.c:341-434 | over every run of any requests a covered frame that the host may hand out has no reverse entry, if it had none at the start |
| `GuestMonitor.RunConsistent` | src/colinux/kernel/pages.c:341-434 | over every run of requests that keep the invariant the records of every page agree whose frame the reverse map covers, and, if the tables were clear and no copy touched them, those of no other |
| `GuestMonitor.FreeingNext` | src/colinux/kernel/monitor.c:450-460 | the release of the next page of a range: pages released before stay so, pages elsewhere are as they were, and a page-table page that is gone stays gone |
| `GuestMonitor.Monitor.EnsurePage` | src/colinux/kernel/pages.c:109-146 | lookup with allocation of group array and frame |
| `GuestMonitor.Monitor.SetReversedPfn` | src/colinux/kernel/reversedpfns.c:121-139 | one cell of the reverse map |
| `GuestMonitor.Monitor.CreatePtes` | src/colinux/kernel/pages.c:220-281 | a list of page-table entries anywhere in guest memory, over several pages, which are allocated when they are missing; if one cannot be, the entries before it are there |
| `GuestMonitor.Monitor.AllocAndMapPage` | src/colinux/kernel/pages.c:341-394 | `co_monitor_alloc_and_map_page` for any address |
| `GuestMonitor.Monitor.FreeAndUnmapPage` | src/colinux/kernel/pages.c:402-434 | `co_monitor_free_and_unmap_page` for any address, as `FreeKeeps`, `FreeEntries`, `FreeReverse` and `FreeFrames` describe it |
| `GuestMonitor.Monitor.FreePages` | src/colinux/kernel/monitor.c:450-460 | for any range, wrapping or not: its pages are unmapped, page-table pages apart, and all others are as before; the invariant is kept if no page of the range is a page-table page of the pseudo RAM, and only then when it does not wrap around |
| `GuestMonitor.Monitor.AllocPages` | src/colinux/kernel/monitor.c:462-480 | for any range: all pages are mapped and keep what they had, or those before the failing one are released again; all others are as before; a failed call leaves what was mapped intact if and only if none of those released was mapped before |
| `GuestMonitor.Monitor.HostToGuest` | src/colinux/kernel/transfer.c:66-142 | the range tests, and the copy loop for every range they accept |
| `GuestMonitor.Monitor.GuestToHost` | src/colinux/kernel/transfer.c:66-148 | the copy loop in the other direction |
| `GuestMonitor.Monitor.CopyRegion` | src/colinux/kernel/pages.c:285-335 | for any range: pages are allocated as needed, the bytes or zeros are there afterwards, every other byte with a frame is unchanged, page tables apart |
| `GuestMonitor.Monitor.ScanAndCreate` | src/colinux/kernel/pages.c:206-218 | every page that the range touches, wrapping or not, gets a frame, or those before the failing one have |
| `GuestMonitor.Monitor.AllocPpRamMapping` | src/colinux/kernel/monitor.c:856-893 | start-up establishes the invariant, with empty page tables if the host's frames were clear, or gives every frame back |
| `GuestMonitor.Monitor.FreePseudoPhysicalMemory` | src/colinux/kernel/monitor.c:830-854 | every frame goes back to the host exactly once |
| `RefProtocol.OpenKeeps` | src/colinux/kernel/manager.c:180-217 | an open keeps all counts exact |
| `RefProtocol.CreateKeeps` | src/colinux/kernel/manager.c:403-418 | a CREATE does, whether or not it succeeds |
| `RefProtocol.SeatKeeps` | src/colinux/kernel/manager.c:470-478 | taking over one module slot does |
| `RefProtocol.AttachSoundIff` | src/colinux/kernel/manager.c:442-486 | an ATTACH stays in the slot table and keeps the counts if and only if the descriptor has no monitor, and no listed monitor has the id or all modules have slots |
| `RefProtocol.AttachOverruns` | src/colinux/kernel/manager.c:470-478 | module number 156, which the request does not test, lies outside the table |
| `RefProtocol.LeaveSoundIff` | src/colinux/kernel/monitor.c:1506-1511 | a CLOSE does if and only if the descriptor owns the monitor or sits in none of its slots |
| `RefProtocol.SeatedLeaveStays` | src/colinux/kernel/monitor.c:1506-1511 | otherwise its slots go on naming it without a pointer to the monitor |
| `RefProtocol.RunToAttached` | src/colinux/kernel/manager.c:442-486 | open, CREATE, open and ATTACH lead from the loaded driver to a descriptor in a slot |
| `RefProtocol.AllFail` | src/colinux/kernel/monitor.c:1506-1511 | there a CLOSE or another ATTACH breaks the counts, and before the ATTACH one of module 156 leaves the table |
| `RefProtocol.ResetLists` | src/colinux/kernel/monitor.c:1397-1402 | in no reachable state does a RESET list a monitor again: its owner finds it listed |
| `RefProtocol.ReleasedKeeps` | src/colinux/kernel/manager.c:278-302 | closing a handle clears its slots and gives up its reference |
| `RefProtocol.LastPointer` | src/colinux/kernel/monitor.c:1340-1367 | a monitor whose last descriptor goes has all slots empty |
| `RefProtocol.DestroyKeeps` | src/colinux/kernel/manager.c:219-245 | destroying a descriptor, with the end of its monitor, keeps all counts exact |
| `RefProtocol.MessageInKeeps` | src/colinux/kernel/monitor.c:550-568 | a message on its way holds its descriptor |
| `RefProtocol.RunSound` | src/colinux/kernel/manager.c:180-302 | from the loaded driver on, after every run of opens, requests, message halves and closes, reference counts are what they count, slots name only open descriptors of their monitor, owners are listed, and no monitor outlives the descriptors |
| `RefEffects.CreateEffect` | src/colinux/kernel/manager.c:403-418 | a CREATE fails if and only if the descriptor has a monitor or none can be made; otherwise an ATTACH with its id finds the new monitor, and one with another id what it found |
| `RefEffects.AttachEffect` | src/colinux/kernel/manager.c:442-486 | an ATTACH gives its descriptor the pointer and exactly the slots of the modules that it means; all other slots, monitors and descriptors stay |
| `RefEffects.DeliverEffect` | src/colinux/kernel/monitor.c:550-561 | a message goes to the descriptor in the slot of its module |
| `RefEffects.CloseEffect` | src/colinux/kernel/manager.c:278-302 | a close ends its descriptor if no message holds it, and no other; those in a slot of the monitor of an owner are no longer active |
| `RefEffects.CloseMon` | src/colinux/kernel/monitor.c:1294-1367 | ... and its monitor loses the slots of the descriptor, or with its owner all of them, and goes with its last reference |
| `RefEffects.SentEffect` | src/colinux/kernel/monitor.c:563-568 | the last message that holds a closed descriptor ends it |
| `RefEffects.LeaveDesc` | src/colinux/kernel/monitor.c:1506-1511 | a CLOSE takes the pointer from its descriptor; other descriptors are inactive only if its owner leaves their monitor |
| `RefEffects.LeaveMon` | src/colinux/kernel/monitor.c:1340-1367 | ... and its monitor goes with its last reference, and is no longer listed without its owner |
| `RefEffects.RelistEffect` | src/colinux/kernel/monitor.c:1397-1402 | a RESET of a monitor that is not listed puts it where an ATTACH finds it |
| `RefDriver.Manager.CloseRef` | src/colinux/kernel/manager.c:262-276 | `co_manager_close`; the mutual recursion ends |
| `RefDriver.Manager.CloseDesc` | src/colinux/kernel/manager.c:219-245 | `co_manager_close_` |
| `RefDriver.Manager.RefDown` | src/colinux/kernel/monitor.c:1340-1367 | `co_monitor_refdown` |
| `RefDriver.Manager.DestroyMonitor` | src/colinux/kernel/monitor.c:1246-1292 | called only without references and with all slots empty |
| `RefDriver.Manager.SendEnds` | src/colinux/kernel/monitor.c:1294-1311 | every slot is emptied and its reference dropped |
| `RefDriver.Manager.AttachTo` | src/colinux/kernel/manager.c:442-486 | the ATTACH ioctl, with any module numbers and any count |
| `RefDriver.Manager.CreateMonitor` | src/colinux/kernel/manager.c:403-418 | the CREATE ioctl |
| `RefDriver.Manager.CloseHandle` | src/colinux/kernel/manager.c:278-302 | `co_manager_open_desc_deactive_and_close` |
| `RefDriver.Manager.MessageBegin` | src/colinux/kernel/monitor.c:550-561 | `incoming_message` up to the delivery |
| `RefDriver.Manager.MessageEnd` | src/colinux/kernel/monitor.c:563-568 | `incoming_message` after it |
| `RefDriver.Manager.LeaveMonitor` | src/colinux/kernel/monitor.c:1506-1511 | the CLOSE request |
| `RefDriver.Manager.ResetMonitor` | src/colinux/kernel/monitor.c:1397-1402 | what a RESET does to the list of monitors |
| `RefDriver.Manager.Serve` | src/colinux/kernel/manager.c:180-486 | any legal step is carried out as specified and keeps the invariant |
| `Passage.Normal.InitShort` | src/colinux/arch/i386/passage.c:569-608 | the walk maps exactly the two pages to the passage page and faults everywhere else, shared table or not |
| `Passage.Normal.InitNormal` | src/colinux/arch/i386/passage.c:619-641 | the same for the virtual and the physical address |
| `Passage.Pae.InitPae` | src/colinux/arch/i386/passage.c:643-672 | the same for three levels, whatever the two addresses share |
| `Passage.Normal.WalkIsExact` | src/colinux/arch/i386/passage.c:569-641 | the walk over the finished two-level tables |
| `Passage.Pae.WalkIsExact` | src/colinux/arch/i386/passage.c:643-672 | the walk over the finished three-level tables |
| `Jiffies.Div64` | src/colinux/common/common.h:43-74 | exact quotient and remainder for every dividend and non-zero base, with every intermediate value inside its machine word |
| `Jiffies.Double` | src/colinux/common/common.h:58-61 | the doubling loop stops with less than twice the shifted base left |
| `Jiffies.Halve` | src/colinux/common/common.h:63-70 | the halving loop subtracts and counts without loss |
| `Jiffies.TickLosslessIff` | src/colinux/kernel/monitor.c:370-387 | for any frequency, a tick loses nothing if and only if what the cuts to 32 bits drop cancels out |
| `Jiffies.TickConservesIff` | src/colinux/kernel/monitor.c:370-387 | for a frequency below 2^32 that is if and only if less than 2^32 jiffies have passed |
| `Jiffies.FrequencyIff` | src/colinux/kernel/monitor.c:370-387 | every tick in time is exact if and only if the frequency is below 2^32 |
| `Jiffies.NoDrift` | src/colinux/kernel/monitor.c:370-387 | for any frequency and over any run of lossless ticks, backward timestamps included, jiffies times frequency plus the remainder are 100 times the ticks to the latest timestamp plus the first remainder |
| `Jiffies.JiffiesExact` | src/colinux/kernel/monitor.c:370-387 | at any time, if no tick came too late, as many jiffies have been handed out as 100 times the time has whole parts |
| `Jiffies.LongPauseLosesTime` | src/colinux/kernel/monitor.c:386-386 | a pause of 2^32 + 4 jiffies is reported as 4 |
| `Jiffies.Timer.ReturnJiffies` | src/colinux/kernel/monitor.c:370-387 | `callback_return_jiffies`, through the division loops |
| `Console.BlitRows` | src/colinux/common/console.c:83-296 | whole rows written to the row-major buffer change exactly these rows of the grid |
| `Console.BlitInRow` | src/colinux/common/console.c:83-296 | cells written inside a row change that row only |
| `Console.MovedBelow` | src/colinux/common/console.c:247-255 | rows moved one by one downwards never read a row already overwritten when the rectangle moves up |
| `Console.MovedAbove` | src/colinux/common/console.c:256-265 | ... nor upwards when it moves down or sideways |
| `Console.UpInBlockIff` | src/colinux/common/console.c:87-133 | a scroll up that passes the tests keeps its memmove and its blanks in the buffer if and only if the lines fit the region and the region ends on the screen, or it is about nothing |
| `Console.DownInBlockIff` | src/colinux/common/console.c:135-176 | ... and a scroll down likewise |
| `Console.ScrollPastTheScreen` | src/colinux/common/console.c:87-176 | rows 1 to 29 of 25 in a buffer of 50 pass the tests of both and do not |
| `Console.ScrollMoreThanTheRegion` | src/colinux/common/console.c:87-176 | more lines than the region has pass the tests of both and give a negative count |
| `Console.RectInRowsIff` | src/colinux/common/console.c:219-267 | a rectangle of CLEAR or BMOVE stays in the rows of the screen if and only if it is on it |
| `Console.ClearIff` | src/colinux/common/console.c:219-237 | for any coordinates, a CLEAR stays in the buffer if and only if the first cell of its first row and the last cell of its last row are there, or it is of no cell |
| `Console.ClearedCells` | src/colinux/common/console.c:219-237 | ... and then blanks exactly the cells that its rows address, off the screen too |
| `Console.ClearOnScreen` | src/colinux/common/console.c:219-237 | on the screen its cells are those of the rectangle in the grid |
| `Console.ClearedRow` | src/colinux/common/console.c:219-237 | in the grid just the columns of the rectangle in its rows are blank |
| `Console.MoveIff` | src/colinux/common/console.c:238-267 | for any coordinates, a BMOVE stays in the buffer if and only if that holds where it reads and where it writes, or it is of no rows or no columns; with a negative number of columns it never does |
| `Console.DownOnScreen` | src/colinux/common/console.c:247-255 | on the screen the loop that runs down moves the rows of the grid one by one |
| `Console.UpOnScreen` | src/colinux/common/console.c:256-265 | ... and so does the loop that runs up |
| `ConsoleCells.ClearedCell` | src/colinux/common/console.c:219-237 | CLEAR: a cell of the rectangle is blank, every other one as before |
| `ConsoleCells.MovedCell` | src/colinux/common/console.c:238-267 | BMOVE: a cell of the target is the one at its place in the source, as it was before; every other one stays |
| `ConsoleCells.PutCell` | src/colinux/common/console.c:177-197 | PUTCS: its cells side by side up to the right edge; every other one stays |
| `ConsoleCells.UpRow` | src/colinux/common/console.c:87-133 | SCROLL_UP: a row of the region is the one below it by the lines scrolled, or blank; every other one stays |
| `ConsoleCells.DownRow` | src/colinux/common/console.c:135-176 | ... and SCROLL_DOWN likewise |
| `Console.Screen.ScrollUp` | src/colinux/common/console.c:87-133 | refused exactly when it is not of the whole screen, and its region ends past the buffer or its top and its lines together reach the end of the buffer; otherwise it shifts exactly its region, or the whole buffer, and blanks the rest of it, unless it would leave the buffer |
| `Console.Screen.ScrollDown` | src/colinux/common/console.c:135-176 | the same downwards, on the screen |
| `Console.Screen.PutCs` | src/colinux/common/console.c:177-197 | cells at a place of the screen, clipped at the right edge |
| `Console.Screen.InitScrollBuffer` | src/colinux/common/console.c:275-297 | cells at a place of the buffer |
| `Console.Screen.Clear` | src/colinux/common/console.c:219-237 | for any coordinates; on the screen exactly the rectangle of the grid is blank |
| `Console.Screen.BMove` | src/colinux/common/console.c:238-267 | for any coordinates; on the screen a simultaneous copy of the rectangle, however source and target overlap; nothing without rows or columns |
| `Console.Screen.Switch` | src/colinux/common/console.c:298-305 | what has scrolled off is cleared |
| `Console.ReplayExact` | src/colinux/kernel/monitor.c:1455-1494 | replay reproduces the screen and rows from `config_y` on, and the whole buffer if and only if the other rows are empty |
| `Console.GetConsole` | src/colinux/kernel/monitor.c:1426-1494 | the replay loops into a fresh console |
| `DebugLog.WalkJoin` | src/colinux/user/debug/main.c:211-225 | the records of two buffers one after the other are the records of both |
| `DebugLog.ParsedWhole` | src/colinux/user/debug/main.c:211-225 | a buffer of whole records is taken apart into exactly these |
| `DebugLog.ParsedCut` | src/colinux/user/debug/main.c:211-225 | a buffer cut inside its last record gives all records before it, and the start of that one if its header is there |
| `DebugLog.ParseBuffer` | src/colinux/user/debug/main.c:211-225 | the reader's loop on any buffer, whole or cut |
| `DebugLog.RecordReads` | src/colinux/user/debug/main.c:143-209 | the walk inside a record yields the caller's records and then the driver's index |
| `DebugLog.RecordReadsIff` | src/colinux/user/debug/main.c:143-209 | for any bytes of a caller: the walk stays inside the record, whatever the index, if and only if they are whole records or lack just six bytes |
| `DebugLog.LogVector` | src/colinux/kernel/debug.c:243-273 | the nested vector of a log message is its record, whose length fits 8 bits |
| `DebugLog.WriteVKeeps` | src/colinux/kernel/debug.c:180-224 | a write keeps totals, counts and the single reference of every section |
| `DebugLog.WriteVPending` | src/colinux/kernel/debug.c:180-224 | a stored record comes after those pending in its section; no other section changes |
| `DebugLog.FoldKeeps` | src/colinux/kernel/debug.c:320-347 | a fold keeps totals and pending records |
| `DebugLog.ReadDelivers` | src/colinux/kernel/debug.c:275-317 | a read delivers whole sections; walking its bytes gives their records in order; a section is freed exactly when it was folded and delivered |
| `LogEffects.WriteEffect` | src/colinux/kernel/debug.c:180-273 | a message is stored if and only if its length fits, the log is not too full and its section has room; it ends the section, with the next index, and nothing else changes |
| `LogEffects.FoldEffect` | src/colinux/kernel/debug.c:320-347 | a fold marks its section and keeps its bytes; nothing else changes |
| `LogEffects.ReadTakesIff` | src/colinux/kernel/debug.c:275-317 | a section is delivered if and only if its copy succeeds and it fits behind those delivered before |
| `LogEffects.ReadWhole` | src/colinux/kernel/debug.c:275-317 | without failures, and with room for all, all sections are delivered, in order |
| `LogEffects.ReadEmpties` | src/colinux/kernel/debug.c:275-317 | a read with room for the whole log leaves nothing pending |
| `DebugLog.RunAccounts` | src/colinux/kernel/debug.c:109-347 | over every run and for every section: records stored are records delivered followed by records pending, in order; totals and counts stay exact |
| `DebugLog.MemcpyVector` | src/colinux/kernel/debug.c:109-119 | the nested vector is copied leaf by leaf, in one piece |
| `DebugLog.Manager.PutSection` | src/colinux/kernel/debug.c:160-178 | the last reference frees the section |
| `DebugLog.Manager.WriteVec` | src/colinux/kernel/debug.c:180-224 | `co_debug_writev` |
| `DebugLog.Manager.WriteLogEntry` | src/colinux/kernel/debug.c:243-273 | `co_debug_write_log` |
| `DebugLog.Manager.FoldSection` | src/colinux/kernel/debug.c:320-347 | `co_debug_fold` |
| `DebugLog.Manager.ReadSections` | src/colinux/kernel/debug.c:275-317 | `co_debug_read` |
| `Utf8.AcceptsIff` | src/colinux/common/unicode.c:47-76 | the decoder accepts a value and length if and only if the bytes are what the encoder writes for it, so every longer form is refused |
| `Utf8.MbToWc` | src/colinux/common/unicode.c:47-76 | the table walk of the decoder |
| `Utf8.WcToMb` | src/colinux/common/unicode.c:78-101 | the table walk of the encoder, and when it does not fit |
| `Utf8.MbsCompleteIff` | src/colinux/common/unicode.c:180-216 | the encoded string is complete if and only if there is room |
| `Utf8.MbsFitted` | src/colinux/common/unicode.c:180-216 | whatever the room, whole characters are written: those that fit, and a question mark for each that does not, until the room is used up |
| `Utf8.RoundTripIff` | src/colinux/common/unicode.c:145-178 | decoding undoes encoding for every string of 16-bit units if and only if at every character the limit, counted in characters, allows for its bytes |
| `Utf8.RoundTrip` | src/colinux/common/unicode.c:145-178 | a limit of the length in bytes always does |
| `Utf8.ReadsCharacter` | src/colinux/common/unicode.c:145-178 | a character that begins the bytes within the limit is read, cut to 16 bits |
| `Utf8.SkipsByte` | src/colinux/common/unicode.c:145-178 | a byte with which none begins becomes a question mark |
| `Utf8.ThereAndBack` | src/colinux/common/unicode.c:145-216 | through a byte buffer with room for the encoding and back is the identity if and only if the limit is enough |
| `Utf8.NoNul` | src/colinux/common/unicode.c:180-216 | no NUL appears inside an encoded NUL-free string |
| `Utf8.WcsToMbs` | src/colinux/common/unicode.c:180-216 | `co_utf8_wcstombs` |
| `Utf8.MbsToWcs` | src/colinux/common/unicode.c:145-178 | `co_utf8_mbstowcs` |
| `Utf8.EncodedLength` | src/colinux/common/unicode.c:218-244 | `co_utf8_wctowbstrlen` predicts the encoded length |

## Left out

- Mbufs are values: a block that `m_inc` moves and a pointer into the old block, `m_free` and the mbuf lists are not modelled.
- The header bytes that `ip_reass` rewrites while fragments are queued are fields of the fragment; links are sequence positions instead of pointers kept in headers.
- IpRoundTrip.RoundTrip: the packets arrive as they were sent, each once, fewer than IPFRAGTTL ticks after the first, and `m_get` has an mbuf for the queue; loss and duplicates are the subject of `IpReass.PendingUntilCovered` and `IpReass.EveryDeliveryGenuine`.
- IP options, ICMP replies to bad packets, and the protocols above `ip_input`.
- `if_encap` and what the link does with a packet; `slirp_can_output` is a number of credits.
- Urgent data (`sosendoob`, `sorecvoob`), and what `soread` and `sowrite` do when the peer is gone: they leave the ring alone.
- `readv` and `writev`: the ring model has the two calls of `recv` or `send`.
- The host's answers behind cofs operations are parameters; attributes, directory streams and flat-mode path handling are not modelled.
- Inode numbers are unbounded: wrap-around of `next_inode_num` is not modelled. A failed allocation in `inode_lookup`, after which the code follows a null pointer, is not modelled.
- Guest arrays, host frames and the inode structures are values of class fields instead of separately allocated memory.
- GuestMonitor.Monitor.CreatePtes: the address is that of a word and the list shorter than the address space; `guest_address_space_init`, which calls it, is not modelled.
- Building the reverse map (`co_manager_alloc_reversed_pfns`): its pages are given. What the guest itself writes to its page tables is not modelled.
- Host frame 0 is never handed out; as a copy goes to it where a guest page has no frame, it is part of the memory.
- GuestMonitor.Monitor.CopyRegion: the invariant is stated to hold afterwards for ranges without page-table entries; for one chunk `GuestMemory.ToGuestKeepsIff` is exact.
- Jiffies.TickLosslessIff: a frequency whose low 32 bits are 0 divides by zero and is excluded.
- RefProtocol.RunSound: a CLOSE from a descriptor in a slot that does not own the monitor is not a step of the runs, nor is an ATTACH from one that has a monitor, nor one of modules without slots to a listed monitor; each breaks the counts or leaves the slot table, as shown. What the kernel memory behind the table holds is not modelled. Of a RESET only the list of monitors is modelled, and the end messages of a monitor only as what they do to its slots and to the descriptors in them.
- Locks: each ioctl, each close and each half of a message delivery is one atomic step. Failed allocations in `co_manager_open` are not steps.
- Console.Screen.ScrollUp: a message that would leave the buffer changes nothing in the model and is reported as an overrun; one that stays in the buffer but is about no line changes nothing.
- Console.Screen.Clear: a CLEAR or BMOVE that leaves the buffer stops in the model at the first row that does, and is reported. Offsets of cells do not wrap around 32 bits. The coordinates of the other messages are natural numbers.
- PUTC (a PUTCS of one cell) and the messages that the console ignores have no method of their own.
- `co_debug_free`, and the wait for new log data. A log buffer is a byte string; `co_copy_to_user` failures are a set of sections.
- `co_utf8_dup_to_wc`, which passes a character count where a byte limit is expected, and `co_utf8_mbstrlen`.
- Inline assembly of the world switch, TCP, block, network, serial and SCSI devices, consoles, configuration, and the Windows glue.
