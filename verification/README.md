# The aesdchar driver and the aesdsocket server

A character driver keeps the last ten lines written to it; a socket server stores what its
clients send in that device and sends its contents back. This project models both as their C
code has them and proves what they promise, over all inputs, all runs and all interleavings.

**The driver.** `DeviceSpec` says what the device is, without ring, heap or offsets: the commands
committed since the module was loaded, the bytes of the unfinished one, a position per open file,
and what each system call returns. `DeviceLaws` proves the laws a user relies on about that
description. `Rings`, `CircularBuffers`, `KernelHeaps` and `AesdDevices` are the code: an array of
entries with wrapping offsets, a heap of blocks whose allocations fail at will and where freeing
or touching a block that is not live is not possible, and the file operations. Every operation is
proved against `DeviceSpec`, and `AesdRuns` carries that to the whole life of a module.
`DeviceThreads` breaks the calls of any number of threads, on files shared in any way, into single
steps; `DeviceSchedules` proves what every interleaving amounts to, and exactly when it amounts to
whole calls one after another, `DeviceOverlaps` shows schedules where it does not, and
`DeviceProgress` proves that the lock is always given back.

**The server.** `SeekParsers` is `isSeek` with `sscanf` as section 7.21.6.2 of ISO/IEC 9899:2011
describes it. `Stdio` is `fgets` (section 7.21.7.2) over a stream that reads ahead through the
driver's own `Read`. `Servers` is `respond`, `ClientThreads` the receive loop, both over the driver
class; `ServerLaws` and `Sessions` prove what a client can rely on end to end. `StoreThreads` is
the interleaving of many such threads under `file_mutex`; `StoreClients` and `StoreAnswers` are what
it gives many framed clients at once, and `StoreProgress` that every operation ends.
`PointerLists`, `Reapers`, `ReaperLaws` and `ReaperProgress` are the list of client threads at the
level of nodes and links, with the accepting thread, the clients and the reaper interleaved step by
step.

The capacity of the ring is a parameter from 1 to 255, the range of the `uint8_t` offsets; the
code's value is 10. Characters are C characters, positions and lengths are unbounded.

Four places where the code does less than it looks like, each with the exact condition:

* A command number that is not retained gets `-ENOTTY`: `retval -EINVAL;`
  (aesd-char-driver/main.c:297) assigns nothing. It is rejected all the same
  (`DeviceLaws.SeekThenLocate`, `DeviceLaws.IoctlRejects`).
* A read loads its file's position before it takes the lock (aesd-char-driver/main.c:70, 76), and a
  relative seek loads it without any lock (237). So two reads that overlap on one file can both
  return the same bytes, and a read that a control call or a seek overlaps can return bytes from the
  old place and then leave the file past the new one; no order of whole calls explains either
  (`DeviceOverlaps`). Under every schedule the calls made whole, in the order they took effect,
  return what was returned if and only if every position loaded was as good as the one met then:
  for a read, as many bytes to give from both and the same ones, as far as the buffer can take them;
  for a relative seek, the same position, or one that is refused from both
  (`DeviceSchedules.WholeCallsIff`). For a read that takes all there is, that is the same position,
  or both at the end (`DeviceSchedules.GreedyRead`). Callers get it by not overlapping a read or a
  relative seek with another call on the same open file, writes excepted
  (`DeviceSchedules.Atomicity`).
* A packet's bytes from its first NUL on are lost, because it is printed with `%s` and then freed;
  `"a\nb\0c"` is stored as `"a\nb"` (`ServerLaws.NulIsLost`). Every byte received is stored,
  consumed by a seek request or still in the buffer if and only if no packet that is stored holds a
  NUL and storing the last one did not fail (`ServerLaws.EveryByteAccounted`).
* A reply is the stored bytes if and only if they hold no NUL (`Servers.ReplyIsExact`), because
  the server measures each piece with `strlen`. The server never stores a NUL itself, so this takes
  another writer of the device (`ServerLaws.ReplyIsCut`); without one every successful reply is
  exact, whatever clients send (`ServerLaws.RepliesAreExact`).

## Model

| member | source | states |
|---|---|---|
| Streams.LocateIsFlatIndex | aesd-char-driver/aesd-circular-buffer.c:19-28 | A position has a place exactly when it is below the total, whatever entries are empty, and the byte there and all that follows are those of the concatenation |
| Streams.LocateInverse | aesd-char-driver/aesd-circular-buffer.c:67-83 | The place found lies inside an entry, and the sizes before it plus the offset give the position back |
| Rings.AddedContents | aesd-char-driver/aesd-circular-buffer.c:101-124 | Adding keeps the ring valid and is a push on its contents: the newest last, the oldest gone exactly when the ring was full |
| CircularBuffers.CircularBuffer.Init | aesd-char-driver/aesd-circular-buffer.c:129-140 | The buffer is valid and empty |
| CircularBuffers.CircularBuffer.EntryCount | aesd-char-driver/aesd-circular-buffer.c:46-65 | The number computed from the offsets is the number of entries held, wrapped or full |
| CircularBuffers.CircularBuffer.AddEntry | aesd-char-driver/aesd-circular-buffer.c:101-124 | The array and offsets change exactly as the pure ring does |
| CircularBuffers.CircularBuffer.FindEntryOffsetForFpos | aesd-char-driver/aesd-circular-buffer.c:29-92 | Nothing is found exactly at or past the total size, and then the caller's offset is untouched; otherwise the slot and offset are those of the place of that position |
| CircularBuffers.CircularBuffer.SizeOfOldest | aesd-char-driver/main.c:245-250 | The loop over the oldest entries sums their sizes and ends at the slot after them |
| KernelHeaps.KernelHeap.Kmalloc | aesd-char-driver/main.c:146 | A block is fresh and not NULL, or nothing changes |
| KernelHeaps.KernelHeap.Memcpy | aesd-char-driver/main.c:151-153 | Only the bytes written in the one block change |
| KernelHeaps.KernelHeap.Kfree | aesd-char-driver/main.c:156 | Only a live block is freed, and it is recorded |
| KernelHeaps.ReplayIff | aesd-char-driver/main.c:142-214 | A record of allocations and frees is right exactly when after every event each address was allocated as often as freed, or once more, and those are the live ones |
| DriverStates.GrowPending | aesd-char-driver/main.c:142-172 | Replacing the pending buffer by the joined one keeps exact ownership, leaves the commands alone and extends the pending bytes |
| DriverStates.CommitPending | aesd-char-driver/main.c:174-199 | Moving the pending buffer into the ring and dropping the oldest's block keeps exact ownership and is a commit of the device |
| DriverStates.DropPending | aesd-char-driver/main.c:203-214 | Freeing the pending buffer keeps exact ownership and forgets the pending bytes only |
| DriverStates.LookupBytes | aesd-char-driver/main.c:80-90 | The entry a lookup finds is a live block whose bytes from the offset on are the contents from that position on |
| AesdDevices.CopyToUser | aesd-char-driver/main.c:93 | Bytes are copied up to the first that cannot be written, the rest of the buffer is untouched, and the number left over is returned |
| AesdDevices.AesdDevice.constructor | aesd-char-driver/main.c:372-384 | A loaded module is the empty device with nothing allocated |
| AesdDevices.AesdDevice.JoinedBuffer | aesd-char-driver/main.c:142-167 | The new block starts with the pending bytes and the written ones, every other block is as before, and failure changes nothing |
| AesdDevices.AesdDevice.Accumulate | aesd-char-driver/main.c:140-172 | The pending bytes grow by the write and the old buffer is freed once; with no memory nothing changes |
| AesdDevices.AesdDevice.Commit | aesd-char-driver/main.c:177-197 | The pending bytes become the newest command; on a full ring the oldest command's block is freed, otherwise none |
| AesdDevices.AesdDevice.Write | aesd-char-driver/main.c:120-220 | Result and new device are those of the abstract write, failures and zero length included; the block freed by a commit on a full ring is the oldest's |
| AesdDevices.AesdDevice.EntryAt | aesd-char-driver/main.c:80 | An entry is found exactly below the end of the contents, and it is the live one that holds them from there |
| AesdDevices.AesdDevice.NextPiece | aesd-char-driver/main.c:80-93 | The piece copied next is what the read is due next, and none is left when it is empty |
| AesdDevices.AesdDevice.CopyOut | aesd-char-driver/main.c:80-107 | The loop ends for every count and layout; the buffer gets exactly what the read is due, or the writable front of it and a fault, and nothing else in it changes |
| AesdDevices.AesdDevice.Read | aesd-char-driver/main.c:58-118 | The bytes from the position up to the count or the end, the position moved by as many; on a fault the position stays |
| AesdDevices.AesdDevice.Llseek | aesd-char-driver/main.c:226-264 | The new position counts from the front, the position or the total of the contents; a negative one or an unknown origin is refused and changes nothing |
| AesdDevices.AesdDevice.SeekPosition | aesd-char-driver/main.c:293-314 | The position of the place asked for, or the error for a command not retained or an offset outside it |
| AesdDevices.AesdDevice.Ioctl | aesd-char-driver/main.c:266-330 | Result and position are those of the abstract control call for every number, argument and interruption |
| AesdDevices.AesdDevice.FreeRetained | aesd-char-driver/main.c:408-420 | The loop frees the blocks of the retained commands, oldest first, each once, and no other |
| AesdDevices.AesdDevice.Cleanup | aesd-char-driver/main.c:405-431 | After unloading nothing is live, and what was freed is each held buffer once |
| AesdDevices.AllFreed | aesd-char-driver/main.c:408-431 | The retained buffers and the pending one are all there is, so freeing them leaves nothing |
| AesdRuns.DoCall | aesd-char-driver/main.c:332-340 | One call on one of many files is one step of the abstract system, result and data included |
| AesdRuns.RunCalls | aesd-char-driver/main.c:58-330 | Any sequence of calls ends in the abstract run's state with its outcomes, and the live blocks are exactly the held buffers, all distinct, none freed twice |
| AesdRuns.Lifetime | aesd-char-driver/main.c:358-431 | From loading to unloading every outcome is the abstract run's from the empty device, and at the end every allocation was freed exactly once |
| DeviceSpec.PushLastN | aesd-char-driver/aesd-circular-buffer.c:94-100 | Holding the last n commands is pushing each new one on a ring of n |
| DeviceLaws.ContentsAreStreamSuffix | aesd-char-driver/main.c:187-197 | What can be read is the stream of all commands ever with the evicted bytes cut off its front |
| DeviceLaws.CommitMovesEnd | aesd-char-driver/main.c:187-197 | A commit moves the end by the new command's size less the oldest's, if that had to go |
| DeviceLaws.ReadIsStreamSlice | aesd-char-driver/main.c:70-111 | Whatever a read returns is a contiguous slice of the all-time stream at the evicted bytes plus the position |
| DeviceLaws.ReadExact | aesd-char-driver/main.c:79-117 | A read stores exactly the contents from its position up to the count or the end, tells how many and moves past them; on a fault it has stored what fits, returns -14 and stays |
| DeviceLaws.ConsecutiveReads | aesd-char-driver/main.c:70-111 | Between two reads of a file, with any writes and other files' calls between, nothing is delivered twice and exactly the bytes evicted meanwhile are skipped |
| DeviceLaws.WriteConservation | aesd-char-driver/main.c:138-214 | Over every run the accepted bytes in order are the committed commands, the pending bytes and one dropped segment per zero-length write |
| DeviceLaws.WriteResult | aesd-char-driver/main.c:135-201 | A write returns the number of its bytes that were accepted, all of them or 0 without memory, and -512 when interrupted |
| DeviceLaws.AcceptedIsAcknowledged | aesd-char-driver/main.c:138-219 | Over every run the results of the writes add up to the bytes that conservation accounts for |
| DeviceLaws.CommandsAreLines | aesd-char-driver/main.c:174 | Every command ever committed is not empty and ends a line, and what is pending does not |
| DeviceLaws.ChunkedWrite | aesd-char-driver/main.c:138-201 | Cutting a write into non-empty pieces of which none but the last ends a line gives the same device |
| DeviceLaws.ChunkedRead | aesd-char-driver/main.c:80-111 | Any series of reads with no write between delivers what one read of their total does |
| DeviceLaws.SeekThenLocate | aesd-char-driver/main.c:293-318 | The seek is accepted exactly for places inside retained commands, the position it sets is looked up to that very place, and a refusal leaves the position |
| DeviceLaws.LocateThenSeek | aesd-char-driver/main.c:293-318 | Every position below the total is the position of exactly one place |
| DeviceLaws.IoctlRejects | aesd-char-driver/main.c:275-330 | A control call succeeds exactly for the seek command with a readable argument naming a valid place, uninterrupted |
| DeviceLaws.IoctlErrors | aesd-char-driver/main.c:275-314 | Which number each refusal returns, from a wrong type or number to an offset past its command |
| DeviceLaws.SeekNumber | aesd-char-driver/aesd_ioctl.h:37-44 | The number of the seek command, from direction, argument size, type and number |
| DeviceLaws.LlseekResult | aesd-char-driver/main.c:231-263 | A result that is not negative is the new position, whatever the origin; a refused seek returns -22 and stays |
| DeviceLaws.LlseekTells | aesd-char-driver/main.c:231-263 | Seeking by 0 from the position tells it and keeps it, by 0 from the end tells the total |
| DeviceLaws.LlseekAddsUp | aesd-char-driver/main.c:236-263 | A seek from any origin followed by a relative one is one seek by the sum |
| DeviceLaws.LlseekRefuses | aesd-char-driver/main.c:254-259 | A seek is refused exactly when it leads before the front or has no known origin |
| DeviceLaws.SeekThenRead | aesd-char-driver/main.c:232-263 | A read after a seek from any origin returns the contents from where the seek leads |
| DeviceLaws.SeekEndThenRead | aesd-char-driver/main.c:240-263 | Seeking k before the end and reading at least k returns exactly the last k bytes; seeking past the end is accepted, and nothing is read there |
| DeviceThreads.TickKeeps | aesd-char-driver/main.c:76-114 | Every single step inside the critical section keeps what is known of the driver's memory, and none touches memory that is not live |
| DeviceThreads.OnlyOwnerWrites | aesd-char-driver/main.c:135-217 | Ring, pending buffer and blocks change only in steps of the lock's owner |
| DeviceSchedules.EverySchedule | aesd-char-driver/main.c:58-330 | Under every schedule of any threads on any files, however shared, nothing crashes and the lock has one owner; calls take effect one at a time and the log of them tells every outcome, position and the device; every read and relative seek goes by the position its file had at one moment of the call; and each thread's calls are logged and answered as asked, in order, each once |
| DeviceSchedules.SameReads | aesd-char-driver/main.c:80-111 | A read returns and stores the same from two positions exactly when there is as much to read from both, or more than the buffer takes, and the bytes are the same as far as they are stored |
| DeviceSchedules.StaleCall | aesd-char-driver/main.c:70-109 | A read or relative seek that loaded a position acts as the whole call exactly when that position serves it as the present one does |
| DeviceSchedules.GreedyRead | aesd-char-driver/main.c:70-109 | A read that takes all there is acts as the whole call exactly when the position loaded is the present one or nothing is left from either |
| DeviceSchedules.WholeCallsIff | aesd-char-driver/main.c:70-109 | The calls made whole in the order they took effect return what was returned if and only if every position loaded was as good as the one met |
| DeviceSchedules.Atomicity | aesd-char-driver/main.c:70-330 | Under every schedule in which no read or relative seek overlaps another call but a write on the same file, outcomes, positions and device are those of the calls made whole one after another |
| DeviceProgress.OwnerCanStep | aesd-char-driver/main.c:76-217 | Whoever has the lock can always take its next step, whatever the allocator gives |
| DeviceProgress.OnlyTheLockIsWaitedFor | aesd-char-driver/main.c:70-280 | A thread anywhere in any call can go on, unless it waits for the lock while another has it, and then it can be interrupted |
| DeviceProgress.OwnerAdvances | aesd-char-driver/main.c:79-114 | Every step of the owner brings the unlocking nearer, a turn of the read loop by leaving a command behind; the last unlocks and returns |
| DeviceProgress.OthersWait | aesd-char-driver/main.c:76-280 | No step of another thread takes the lock away, moves the owner or touches the memory |
| DeviceProgress.LockIsReleased | aesd-char-driver/main.c:76-329 | From every state of every schedule, whatever the others do: after at most 8 turns of the owner in a write, 2 in a control call, 3 more than the capacity in a read, the lock has been free and the owner has returned the outcome logged for its call |
| DeviceOverlaps.OverlappingReads | aesd-char-driver/main.c:70-109 | Two overlapping reads of one file that both return the same byte, which no order of the calls explains |
| DeviceOverlaps.OverlappingReadAndSeek | aesd-char-driver/main.c:70-109 | A read that a control call on its file overlaps, which no order explains |
| DeviceOverlaps.OverlappingReadAndLlseek | aesd-char-driver/main.c:70-109 | A read that a seek on its file overlaps, which no order explains |
| SeekParsers.IsSeek | server/aesdsocket.c:411-425 | A packet is a seek request exactly when both numbers are read, and the numbers not read stay what the caller had |
| SeekParsers.ParserIsGrammar | server/aesdsocket.c:413-418 | Two numbers are read exactly from the texts of the grammar: the prefix, numerals with white space around a comma, then no further digit |
| SeekParsers.RequestSound | server/aesdsocket.c:413-418 | Whatever is accepted spells a packet for the numbers read |
| SeekParsers.RequestComplete | server/aesdsocket.c:413-418 | Whatever spells a packet is accepted with its numbers |
| SeekParsers.WireRoundTrip | server/aesdsocket.c:411-425 | The decimal wire form of any two numbers is read back to exactly them |
| SeekParsers.SpacedRoundTrip | server/aesdsocket.c:413-418 | With any blanks, tabs and line ends before the numbers and around the comma, any signs and zeros before the digits, and anything but a digit after them, the two numbers are read |
| SeekParsers.OnlyOneRead | server/aesdsocket.c:413-418 | Without a comma after it the first number is the only one read |
| SeekParsers.NumeralIsSigned | server/aesdsocket.c:418 | The numerals are exactly a sign or none, zeros and decimal notation |
| SeekParsers.WhiteSpace | server/aesdsocket.c:418 | The white space skipped is the characters 32 and 9 to 13 |
| SeekParsers.DecimalByTens | server/aesdsocket.c:418 | Decimal notation goes by tens with the usual digits |
| Stdio.CStr | server/aesdsocket.c:331-337 | A C string is the longest front part without a NUL |
| Stdio.ReadStream.Fill | server/aesdsocket.c:327 | Reading ahead through the driver loses and repeats nothing of what the stream has to give |
| Stdio.ReadStream.Fgets | server/aesdsocket.c:327 | One line is taken, or the first 1023 characters of a longer one, and nothing only at the end |
| Servers.SendPiece | server/aesdsocket.c:329-364 | However sends cut it up, a piece is sent whole unless one fails, and then a front part of it |
| Servers.SendAll | server/aesdsocket.c:327-366 | All the stream has to give is sent, each piece up to its first NUL; a failure leaves a front part |
| Servers.ReplyIsExact | server/aesdsocket.c:327-366 | What is sent of a stream is the stream if and only if there is no NUL in it |
| Servers.LineIsSent | server/aesdsocket.c:327-366 | A line of up to 1023 characters is sent up to its first NUL, a longer one in pieces of 1023 |
| Servers.RepliesConcat | server/aesdsocket.c:327-366 | Lines are sent one by one: what a NUL cuts off one line does not touch the next |
| Servers.Respond | server/aesdsocket.c:286-384 | The reply of the current store from the place asked for, or from the front without two numbers; a refused place or a failed open sends nothing and gives -2, a failed send gives -3 after a front part |
| ClientThreads.PiecesAreStored | server/aesdsocket.c:506-519 | However stdio cuts a packet into writes, the store grows by its bytes in order |
| ClientThreads.Append | server/aesdsocket.c:490-530 | The pieces written make up the text, or a front part of it when a file operation fails |
| ClientThreads.Keep | server/aesdsocket.c:483-531 | A seek packet stores nothing and any other all of its C string, and the numbers it gives are passed on |
| ClientThreads.Handle | server/aesdsocket.c:477-542 | Storing and answering one packet: nothing is sent when it was to be stored and was not, or the device does not open; while no send fails the result is 0 exactly when all file operations succeed and a seek is not refused, and -2 otherwise |
| ClientThreads.FramingConserves | server/aesdsocket.c:456-477 | Framing loses, repeats and reorders nothing: the received bytes are the packets, each with a newline before any NUL, and what is left, which has none |
| ClientThreads.FirstPacket | server/aesdsocket.c:456-477 | All bytes received become one packet with the arrival that brings a newline, and not before |
| ClientThreads.NextPackets | server/aesdsocket.c:533-535 | After a packet framing starts anew |
| ClientThreads.ClientThread | server/aesdsocket.c:430-577 | The packets handled are those the arrivals are framed into, each as soon as its newline is there; the exchanges follow one another on the device; the replies are sent in order; the first failure ends the loop and is the result |
| ServerLaws.StoredInOrder | server/aesdsocket.c:456-546 | The store grows by exactly what the exchanges wrote, in the order of the packets |
| ServerLaws.EveryByteAccounted | server/aesdsocket.c:456-546 | Every received byte is once and in order stored, in a seek request or left, if and only if no stored packet has a NUL and storing the last did not fail, whatever became of the replies |
| ServerLaws.NulFreeStream | server/aesdsocket.c:456-546 | A client that sends no NUL has every byte accounted for if and only if storing its last packet did not fail, and no newline waits |
| ServerLaws.StoredBeforeLast | server/aesdsocket.c:490-529 | Storing can have failed only for the last packet, and has not when the result is not -2 |
| ServerLaws.NulIsLost | server/aesdsocket.c:506-535 | An input with a NUL whose packet is stored cut short |
| ServerLaws.StoreStaysNulFree | server/aesdsocket.c:506 | Whatever clients send, the server puts no NUL into the store |
| ServerLaws.RepliesAreExact | server/aesdsocket.c:327-366 | Over a store without NULs every successful reply is exactly the contents from its start on |
| ServerLaws.ReplyIsCut | server/aesdsocket.c:327-366 | A line with a NUL written by another program is sent cut short |
| ServerLaws.LineIsOnePacket | server/aesdsocket.c:456-479 | However recv cuts it up, a line sent alone is one packet and nothing is left |
| ServerLaws.SeekEndToEnd | server/aesdsocket.c:308-366 | The wire form of a seek stores nothing; a valid place gets the rest of its command and all later ones, an invalid one nothing and -2 |
| ServerLaws.SeekExchange | server/aesdsocket.c:308-325 | The same for any packet that gives the two numbers |
| ServerLaws.NumbersGiven | server/aesdsocket.c:411-425 | A packet that spells two numbers, signs included, gives exactly them wherever an `int` can hold them |
| ServerLaws.NegativeRequest | server/aesdsocket.c:308-325 | A request with a negative number stores nothing and is answered with all the contents |
| ServerLaws.NoPlaceNoSeek | server/aesdsocket.c:474-491 | With one number or none a packet is appended, whatever becomes of the reply, and answered with everything or a front part where sending fails; with a negative number nothing is stored |
| Sessions.SeekSession | server/aesdsocket.c:430-582 | Server and driver run together on a seek request give exactly those bytes, or nothing and a request to stop |
| Sessions.LineIsOneCommand | server/aesdsocket.c:506-519 | However stdio cuts a line into writes, it is committed as one command |
| Sessions.LineSession | server/aesdsocket.c:430-582 | Server and driver run together on any other line commit it as one command after what was pending, and send exactly the contents, which end with it |
| StoreThreads.ReadOnKeeps | server/aesdsocket.c:327-366 | A step of reading or taking a line leaves sent, being sent and still to come the same reply |
| StoreThreads.RepliesAreSnapshots | server/aesdsocket.c:295-380 | Under every schedule the store is the appends one after another, each the whole text asked for or a front part where it was given up, and each reply is that of the one store state the operations before it left; every thread has done what it was asked, in order, each once, and stopped at its first failure |
| StoreClients.ClientsInterleave | server/aesdsocket.c:456-546 | Any number of clients framed at once: under every schedule the store is given the appended texts and nothing else, each client's in the order it sent them, and every reply answers its own client's packet from one store state |
| StoreAnswers.AloneIsExchange | server/aesdsocket.c:474-546 | What a thread does for a packet, done alone, is explained by the store exactly when it is a successful exchange for that packet |
| StoreAnswers.ExchangeIsProgram | server/aesdsocket.c:474-546 | Every successful exchange is what the operations for its packet do alone, from the store before it to the store after it, with its reply |
| StoreAnswers.EveryReplyAnswers | server/aesdsocket.c:456-546 | Under every schedule each reply answers the packet its client sent after as many others as were answered before: from the place it spells in the store met to the end, nothing and a failure for a place that is none, else all the contents of a store in which the client put the text just before |
| StoreAnswers.WireFormAnswered | server/aesdsocket.c:308-366 | So the wire form of a place in the store met gets the bytes from there to the end |
| StoreThreads.OnlyHolderWrites | server/aesdsocket.c:490-530 | The store changes only in steps of the thread that appends with the mutex held |
| StoreProgress.HolderCanStep | server/aesdsocket.c:295-380 | Whoever has the mutex can always take a step that brings its operation on |
| StoreProgress.HolderAdvances | server/aesdsocket.c:295-530 | Every step of the holder but a send of nothing ends the operation or brings its end nearer: each byte is read ahead, taken into a line, put out and sent once |
| StoreProgress.MutexIsReleased | server/aesdsocket.c:295-530 | From every state of every schedule, whatever the others do, after boundedly many such steps the mutex has been free with the operation logged |
| StoreProgress.CanEndWell | server/aesdsocket.c:295-530 | An operation that has the mutex can always be brought to a successful end by its own steps, unless it starts with a seek to no place |
| PointerLists.RemoveKeepsOrder | server/aesdsocket.c:620-621 | Removal takes out one node and keeps the order of the others |
| PointerLists.RemoveLater | server/aesdsocket.c:620-621 | Leading the link of the node before past the removed one makes the links spell the list without it |
| Reapers.InsertKeeps | server/aesdsocket.c:389-396 | Inserting at the head keeps the invariant wherever the reaper is |
| Reapers.JoinKeeps | server/aesdsocket.c:606-613 | A flagged node has a thread id, its thread is joined once, and only when it has ended |
| Reapers.RemovalKeeps | server/aesdsocket.c:615-623 | Taking the item out keeps the invariant and what the pass has still ahead |
| Reapers.FreeKeeps | server/aesdsocket.c:625-629 | Freeing the item leaves the next one a live list member |
| Reapers.ClientKeeps | server/aesdsocket.c:444-447 | A client's steps on its own node always find it live |
| ReaperLaws.EveryRunIsSafe | server/aesdsocket.c:588-635 | Under every schedule no dangling access, double free or bad join; the links spell the list, the reaper's item is live, no client is lost, and only ended and joined ones are freed |
| ReaperLaws.ListSteps | server/aesdsocket.c:389-623 | The list changes only by insertion in front under the mutex, or by the reaper taking out, under the mutex, a node flagged, ended and joined, the others keeping their order |
| ReaperLaws.ReaperAdvances | server/aesdsocket.c:601-635 | Every step of the reaper in a pass brings the end of the pass nearer, or goes on along its walk and brings the end of that nearer |
| ReaperLaws.OthersDoNotDelay | server/aesdsocket.c:601-635 | No step of the others puts either off, insertions included, however many |
| ReaperLaws.PassEnds | server/aesdsocket.c:601-635 | Under every endless schedule in which the reaper goes on stepping, however many nodes are inserted meanwhile, a pass comes to its end, and what was flagged as it began is then joined, removed and freed |
| ReaperLaws.FewStepsOutsideWalk | server/aesdsocket.c:601-635 | Walks apart, a pass takes at most twelve steps for each node there was as it began and nine more, whatever is inserted |
| ReaperLaws.ReaperIsHelped | server/aesdsocket.c:613-615 | When the reaper has to wait, the thread it waits for can step and needs at most three steps |
| ReaperProgress.RunningCanStep | server/aesdsocket.c:389-635 | Every running thread can take its next step unless it waits for the mutex, or as the reaper for a client it joins |
| ReaperProgress.HolderAdvances | server/aesdsocket.c:389-623 | Every step of the holder of the mutex unlocks it or brings that nearer |
| ReaperProgress.MutexIsReleased | server/aesdsocket.c:389-623 | Whatever the others do, after at most three turns of its holder more than there are nodes in the list the mutex has been free |
| ReaperProgress.ClientAdvances | server/aesdsocket.c:444-580 | A client that has begun can take its step unless it waits for the mutex, and each brings its end nearer by one |
| ReaperProgress.ClientEnds | server/aesdsocket.c:444-580 | Whatever the others do, a client that has begun ends after exactly five turns in which it does not wait for the mutex, its flag set in its node unless that is freed |
| ReaperLaws.PassIsComplete | server/aesdsocket.c:601-635 | When a pass ends, every node that was flagged as it began has been joined, removed and freed |

## Left out

- Kernel plumbing: device numbers, cdev registration, `aesd_open`, `aesd_release`, `PDEBUG`.
- `copy_from_user` in a write cannot fail in the model, as its result is ignored (aesd-char-driver/main.c:153, 167). The two branches that allocate (142-172) are one, with an empty pending part in the second.
- An interrupted wait for the device's lock is a call that changes nothing; for the unloading the lock is taken to be obtained. In the interleaved model `aesd_llseek` seeks from the front and from the position; from the end it reads the ring without the lock, so that is modelled only when no other call is under way, as is a seek with an unknown origin, which is refused.
- Machine overflow: sizes, totals and positions are unbounded, so wrap-around of `size_t`, `loff_t` or `int` sums is not modelled.
- DeviceProgress.LockIsReleased: who gets the lock next is not modelled, so a thread that waits for it can be passed over for ever; the same holds of the server's two mutexes.
- DeviceThreads.CopyKeeps: the lookup of one turn of a read is a single step, because the lock's owner is alone with the ring.
- DeviceThreads.SeekKeeps: so is all that a control call does under the lock.
- DeviceSchedules.EverySchedule: `*f_pos` is the file's position; the kernel's own handling of it between the system call and the driver is not part of this model.
- SeekParsers.IsSeek: what `sscanf` stores for a number outside the range of `int` is an arbitrary function, because section 7.21.6.2 leaves it undefined.
- Stdio.ReadStream.Fgets: a read that is interrupted or fails under the stream is not modelled; the stream's read-ahead size is an arbitrary positive number.
- ClientThreads.WriteOut: every write finds memory and is not interrupted, because a stream would retry a write of 0 bytes for ever; the pieces are arbitrary, so where commands end inside a long packet is not claimed.
- ClientThreads.ClientThread: one client at a time uses the device; threads sharing it are `StoreThreads`. Chunks from `recv` are sequences, not the fixed array they arrive in (server/aesdsocket.c:438, 456-459).
- ReaperLaws.EveryRunIsSafe: `pthread_create` succeeds and is one step; descriptors and `shutdown(item->fd)` are not part of the model.
- `CleanThreads`, `running` and the hand-over at shutdown (server/aesdsocket.c:638-676): the head is read before the lock is taken, so nothing is claimed about the list at exit.
- `main`'s local `threads_head` (server/aesdsocket.c:703-704) hides the global list and is only initialised; the model's list is the global one.
- Server setup, daemonising, syslog, signals, the timer thread and `unlink`.
- `aesdsocket.c`, `server/aesdsocket.c.org-5-2` and `server/aesdsocket - A8.c`: earlier variants whose fixed table of clients would add only easy members.
- `finder-app`, `examples`, the scripts, build files and student tests.
