# vex-os, proved in Dafny

A Dafny 4.11 model of the parts of vex-os where a fast, incremental or concurrent form has to agree with something
simple, and the proofs that it does. `dafny verify dfyconfig.toml` checks all of it.

| file | models | main result |
|---|---|---|
| `log_ring.dfy` | the byte ring of the kernel log | the ring refines an ever-growing list of records |
| `console_flush.dfy` | the try-lock protocol that drains the log to the consoles | exactly when a record is stranded; each is accounted for once; a flush that is left alone ends |
| `kplog_feed.dfy` | `/dev/kplog` files | the account of delivered and lost records; what a read returns parses back |
| `block_request.dfy`, `block_transfer.dfy` | block requests, segments, chunked and bounced transfers | a transfer that succeeds moved exactly its sectors |
| `partitions.dfy` | GPT and MBR tables, probing, partitions on disks | each partition is its entry, sector by sector; a request stays inside it |
| `serial_port.dfy` | binding, unbinding, exchanges, removal and dispatch of serial ports | a dispatched consumer finds live data of its kind; what is left alone gets done |
| `fb_gate.dfy` | the enter/leave/remove handshake of framebuffers | nobody is inside once the removal goes on; until then calls get in |
| `fb_console.dfy`, `fb_terminal.dfy` | the text console on a framebuffer | the incrementally drawn screen is the full rendering; which text it shows after any lines |
| `dev_units.dfy` | the sorted list of device unit numbers | allocation gives the smallest free number |
| `crc32.dfy` | table-driven CRC-32 | it is the bit-at-a-time CRC, and shows every change of one byte |
| `kconfig_expr.dfy`, `kconfig_parse.dfy`, `kconfig_grammar.dfy` | Kconfig expressions, their printer and parser | the parser takes exactly the sentences, for what they are worth; parsing what was printed keeps the value |
| `kconfig_eval.dfy`, `kconfig_cache.dfy` | lazy, cached evaluation of symbols and choices | every read is what evaluation from scratch gives |
| `kconfig_meaning.dfy` | the attributes of symbols and choices | what evaluation gives, in terms of prompts, selects, defaults and the user's input |
| `kconfig_loops.dfy`, `kconfig_levels.dfy` | the search for dependency loops | it raises exactly if there is a loop; if not, evaluation ends exactly if MODULES depends on no tristate |
| `kconfig_menu.dfy`, `kconfig_shape.dfy` | finalizing the menu tree | each condition is the least of its own and all that encloses it; each item is below the one a simple walk puts it under |
| `arith.dfy`, `wrappers.dfy` | | division facts, `Option` |

Objects that the source changes in place are classes (`Ring`, `Cursor`, `File`, `Machine`, `Table`, `Prefix` and its
linked `Unit`s, `Console`, `Kconfig`, `Search`, `Parser`); the protocols run by several threads are state machines whose
theorems speak of every legal run; what the source computes by recursion and expressions are functions. Concurrency is
modelled as atomic steps in a sequentially consistent order.

## Findings

- The comment at `kernel/core/kplog.c:118` promises that records which drop while the cursor is on its way are still
  counted. They are not: a record dropped between the read at 114 and the seek at 121 is in nobody's count.
  `KplogFeed.GapUndercounts` exhibits it. The account is exact if and only if nothing drops in that gap
  (`KplogFeed.File.NoteLoss`: `slipped` grows by exactly what was dropped there).
- A kplog read can return -EINVAL although the next record would fit: `KplogFeed.FitsYetInvalid` exhibits it. A read
  that ended for want of a record returns -EINVAL if and only if one was appended between the read that found none and
  the comparison at `kernel/core/kplog.c:150`, whatever its size; any other does so only if what comes next is too large
  for the buffer (`KplogFeed.File.ReadLocked`).
- A holder of the console lock that lets it go without a flush or a log entry strands a record that another hart logged
  meanwhile: `ConsoleFlush.ReleaseStrands`, a run from boot. `ConsoleFlush.StrandedExactly` says when: with no hart
  inside, a console that writes is behind if and only if someone came to flush for it while a hart held the lock for
  the list, and no flush has begun since. `ConsoleFlush.NothingStranded` says that it takes such a holder.
- A choice default that is not a member of the choice, which the code only warns about, makes cached attributes go stale:
  `KconfigCache.StrayDefaultGoesStale` has a selection and the value of a member. It takes a default with a prompt that is
  neither a member of the choice nor mentioned by it, whose visibility the selection read. The cache after an assignment
  is consistent, that is right and with all in it that it was computed from, if and only if the invalidation takes no such
  visibility away from a selection that stays; it is right, for now, if and only if the selections it takes one from
  evaluate as before (`KconfigCache.Reassigned`; what an invalidation takes away is `KconfigCache.Gone`). What can be stale
  is such a selection and all that was computed from it (`KconfigCache.StaleOnly`).
- `_expr_depends_on` takes `sym != y` for a dependency on sym, which its comment does not list
  (`contrib/kconfiglib/kconfiglib.py:7003`), so such an item gets into sym's submenu although it is there while sym is n.
  `KconfigMenu.DependsOn` follows the code, and `KconfigMenu.ComparisonNeedsSymbol` says that for a bool or tristate
  symbol this is the only such comparison. The symbols of other types are n whatever they hold, and
  `KconfigMenu.OtherTypesEscape` says which of their comparisons are n then; `KconfigMenu.NumberNeverHides` is one that
  is not.
- `request_valid` adds segment lengths up in 64 bits, so it also takes requests whose segments name 2^64 bytes too many:
  `BlockRequest.OverlongAccepted`. The lengths are right if and only if their true sum is below 2^64
  (`BlockRequest.LengthExactly`), as it is for the requests that transfers build.

## Model

| member | source | states |
|---|---|---|
| LogRing.LittleEndianInverse | kernel/core/kprintf.c:126-140 | a field's bytes in memory read back as the field |
| LogRing.DecodeEncode | kernel/core/kprintf.c:126-140 | a header read back from the ring's bytes is the one that was written, for every value its fields can hold |
| LogRing.Footprint | kernel/core/kprintf.c:70-74 | header and text rounded up to 8 bytes: the least multiple of 8 that holds them |
| LogRing.RoundingBound | kernel/core/kprintf.c:22-27 | because of the rounding, twice the longest header and line is enough for a record and the padding in front of it, also when the line limit is no multiple of 8 |
| LogRing.RoomExactly | kernel/core/kprintf.c:22-27 | a record and its padding fit wherever the head is if and only if the ring holds the rounded record twice but for one unit |
| LogRing.AssertionTight | kernel/core/kprintf.c:22-27 | for half of the line limits the least ring the asserts admit is the least that will do; one unit less is refused, and would be too little |
| LogRing.RoomForLongest | kernel/core/kprintf.c:22-27 | from the static asserts alone, the longest record and its padding fit in an empty ring wherever the head is |
| LogRing.PosMonotone | kernel/core/kprintf.c:70-97 | records lie one after the other: each starts at or after the end of every earlier one |
| LogRing.StartFits | kernel/core/kprintf.c:112-147 | no record wraps around the end of the ring |
| LogRing.PutKeepsRecord | kernel/core/kprintf.c:125-142 | bytes written beyond a live record leave its header and text as they are |
| LogRing.AppendKeeps | kernel/core/kprintf.c:112-147 | an append that has its room changes no byte of any live record |
| LogRing.AppendPlaces | kernel/core/kprintf.c:112-147 | the new record and its padding marker are where a reader will look for them |
| LogRing.AppendAll | kernel/core/kprintf.c:112-147 | after the writes of an append, every live record and the new one are in place |
| LogRing.PeekSize | kernel/core/kprintf.c:78-97 | the header under a cursor says padding exactly if the record starts after the wrap |
| LogRing.CursorSurvives | kernel/core/kprintf.c:217-316 | appends and drops never misplace a cursor |
| LogRing.Ring.constructor | kernel/core/kprintf.c:40-50 | an empty ring holds the empty log |
| LogRing.Ring.Write | kernel/core/kprintf.c:125-142 | the bytes at the offset are the data, all others as before |
| LogRing.Ring.SkipPadding | kernel/core/kprintf.c:78-97 | from a record's position to where it starts, over the padding if there is any |
| LogRing.Ring.DropOldest | kernel/core/kprintf.c:99-110 | exactly the oldest record goes; head, bytes and all other records stay |
| LogRing.Ring.MakeRoom | kernel/core/kprintf.c:121-124 | the drop loop ends with the room it needs, never drops from an empty ring and drops no record more than it must |
| LogRing.Ring.WriteRecord | kernel/core/kprintf.c:125-142 | padding marker, header and text, and no other byte |
| LogRing.Ring.Commit | kernel/core/kprintf.c:125-147 | the log is the old log with the record at its end |
| LogRing.Ring.Append | kernel/core/kprintf.c:112-147 | the log grows by exactly the record with the next number, whatever its text up to the limit; a record is dropped only if the ring cannot hold it beside the newer ones; the newest is always kept |
| LogRing.Ring.SeekFirst | kernel/core/kprintf.c:217-227 | a cursor on the oldest record |
| LogRing.Ring.SeekEnd | kernel/core/kprintf.c:229-239 | a cursor behind the newest record |
| LogRing.Ring.SeekSeq | kernel/core/kprintf.c:241-268 | a cursor on the record with the number, refused exactly for numbers not reached yet, when nothing changes |
| LogRing.Ring.Read | kernel/core/kprintf.c:287-316 | yields exactly the record with the larger of the cursor's number and the oldest one's, with header and text intact, and moves on to the next; false exactly if there is none; the assertion at 306 never fails |
| ConsoleFlush.StepKeeps | kernel/core/console.c:55-195 | every step of every hart keeps the invariant of the protocol |
| ConsoleFlush.RunKeeps | kernel/core/console.c:55-195 | ... and so does every run |
| ConsoleFlush.StepMarks | kernel/core/console.c:159-195 | every step keeps the history right: consoles that are behind with nobody to flush them are those someone came for in vain |
| ConsoleFlush.StrandedExactly | kernel/core/console.c:159-195 | in every run, whenever no hart is inside, a console that writes has all records there are if and only if nobody came to flush for it while a hart held the lock for the list, with no flush begun since |
| ConsoleFlush.StepHeeds | kernel/core/console.c:159-195 | every step but such a release keeps it that someone is on the way to a flush while a console is marked as come for in vain |
| ConsoleFlush.NothingStranded | kernel/core/console.c:159-195 | in every run in which all who take the lock for the list flush or log afterwards, whenever no hart is inside, every console that writes has all records there are |
| ConsoleFlush.ReleaseStrands | kernel/core/console.c:224-237 | with such a release it is real: a run from boot that ends with all harts idle and a record on no console |
| ConsoleFlush.FlushCloser | kernel/core/console.c:55-82 | every step of a hart that is left alone brings it closer to the end of its flush |
| ConsoleFlush.LoneFlushEnds | kernel/core/console.c:159-195 | from every state the protocol can be in, a hart that comes to flush while the lock is free and is left alone ends, idle, with the lock free and every record on every console that writes, within a number of steps given by the consoles and the records they lack |
| ConsoleFlush.ListKept | kernel/core/console.c:84-157 | a console leaves the list or is handed over only by the action that says so, keeps what it has written and moves only forward |
| ConsoleFlush.HandedIsSilent | kernel/core/console.c:224-237 | in every run, a console that was handed over or cannot write gets nothing more |
| ConsoleFlush.StepJudges | kernel/core/console.c:24-31 | every step keeps it that whatever a console was given was judged by the level that applied |
| ConsoleFlush.EveryRecordAccounted | kernel/core/console.c:24-71 | each console has, from where it started to its cursor, every record number once and in order, as written, filtered or counted in a notice; notices count only dropped records; a record is written exactly if its level is within the console's own, or without one within the global level of a time not before the record was logged, these times in order, and filtered exactly if not |
| KplogFeed.FeedFootprint | kernel/core/kplog.c:71-76 | head and text rounded up to 8 bytes |
| KplogFeed.TakeImage | kernel/core/kplog.c:78-94 | a record or a loss report reads back from its bytes, which are as many as its size field says |
| KplogFeed.ParseImages | kernel/core/kplog.c:96-155 | walking from size field to size field through what a read returns lands exactly on its end and gives back the items put in |
| KplogFeed.File.constructor | kernel/core/kplog.c:36-61 | a file starts at the oldest record with nothing lost |
| KplogFeed.File.SeekFirst | kernel/core/kplog.c:251-259 | to the oldest record, with a fresh account |
| KplogFeed.File.SeekEnd | kernel/core/kplog.c:261-269 | behind the newest record, with a fresh account |
| KplogFeed.File.SeekSeq | kernel/core/kplog.c:271-289 | to the record with the number, or refused and nothing changes |
| KplogFeed.File.PutLost | kernel/core/kplog.c:78-94 | reports all that was lost, at the cursor, and nothing stays pending |
| KplogFeed.File.NoteLoss | kernel/core/kplog.c:118-123 | counts what was dropped up to the record that was read; what drops before the seek slips through uncounted, exactly that many |
| KplogFeed.File.Advance | kernel/core/kplog.c:100-143 | one turn of the loop: a report, a loss noticed, the next record, or nothing that fits or is there, each with the account it leaves |
| KplogFeed.File.Fill | kernel/core/kplog.c:96-144 | with appends in between, the cursor's advance is delivered plus reported plus pending plus slipped; the records are the log's, in order, from the old cursor to the new |
| KplogFeed.File.ReadLocked | kernel/core/kplog.c:96-155 | a read returns data that parses back to its items exactly if there are any; with none, after a loop that ended for want of a record, -EINVAL exactly if the log grew since and -EAGAIN otherwise; after any other loop -EINVAL, and what comes next does not fit |
| KplogFeed.FitsYetInvalid | kernel/core/kplog.c:114-154 | a run in which a read is refused although the record it would deliver fits in its buffer |
| KplogFeed.GapUndercounts | kernel/core/kplog.c:114-121 | a run in which two records are dropped under the cursor and one is counted |
| BlockRequest.AddUp | kernel/dev/block_request.c:44-60 | the segments are all within the device's reach, and their lengths add up, in 64 bits |
| BlockRequest.RequestValid | kernel/dev/block_request.c:20-61 | true exactly for what a device takes: the operation, the length, the sectors, the number of segments and each of them |
| BlockRequest.TakenExactly | kernel/dev/block_request.c:20-61 | a flush is taken exactly if it is empty, an unknown operation never; a read or write is refused exactly if it is empty, too long, no whole number of sectors, has no segments or too many, reaches beyond the last sector, has a segment out of reach or does not add up |
| BlockRequest.LengthExactly | kernel/dev/block_request.c:44-60 | the segments of a request that is taken are as long as it says if and only if their true sum is below 2^64 |
| BlockRequest.OverlongAccepted | kernel/dev/block_request.c:44-60 | every device that reaches half of the address space takes a request for one sector whose segments name 2^64 bytes more |
| BlockRequest.AcceptedBelow | kernel/dev/block_ptable.c:28-37 | what a partition takes its disk takes too, moved within the partition's sectors |
| BlockRequest.OnDisk | kernel/dev/block_ptable.c:28-37 | through any depth of partitions, every sector of an interface is on the disk |
| BlockRequest.AddSegment | kernel/dev/block_request.c:87-98 | memory that follows the last segment extends it; otherwise one more, if there may be |
| BlockRequest.MapSegments | kernel/dev/block_request.c:68-106 | succeeds exactly if every page piece is within reach and the joined segments are few enough, and then gives those segments |
| BlockRequest.JoinedCovers | kernel/dev/block_request.c:73-101 | the physical bytes of the segments are the buffer's bytes, in order |
| BlockRequest.JoinedUsable | kernel/dev/block_request.c:73-101 | joined segments keep the alignment and the limit |
| BlockRequest.JoinedParts | kernel/dev/block_request.c:87-98 | memory in one piece is one segment: no segment goes on where the one before it ends |
| BlockRequest.ReachExactly | kernel/dev/block_request.c:73-85 | where the alignment divides pages, all page pieces are within reach exactly if the buffer starts and ends aligned and each of its bytes is mapped and below the limit |
| BlockRequest.FewPieces | kernel/dev/block_request.c:130-134 | a buffer touches at most one page more than its length takes, wherever it starts |
| BlockRequest.NeverShort | kernel/dev/block_request.c:130-134 | with two segments or more and the chunk size of a transfer, mapping fails only for memory out of reach, never for lack of segments |
| BlockTransfer.Machine.Submit | kernel/dev/block_request.c:196-209 | a request reaches the driver exactly if all interfaces down to the disk are present and it is valid, and its status is the driver's then; otherwise it is refused as invalid or for want of a device, with nothing changed; one that succeeds moved memory to or from exactly its sectors of the disk, through any partitions; whatever happens it touches nothing else |
| BlockTransfer.Machine.FindFreeRange | kernel/mm/pdma.c:52-61 | the first run of free frames that starts in the range, or none exactly if there is none |
| BlockTransfer.Machine.AllocPages | kernel/mm/pdma.c:63-91 | frames in a row that were free and are in use now, and none exactly if there are not as many in a row, wherever the search begins |
| BlockTransfer.DirectAcceptable | kernel/dev/block_request.c:148-158 | a request for the buffer itself passes the device's check and names the buffer's bytes in order |
| BlockTransfer.BounceAcceptable | kernel/dev/block_request.c:160-175 | a request for the bounce buffer passes exactly if the bounce buffer is aligned and within the limit |
| BlockTransfer.BounceReached | kernel/dev/block_request.c:160-175 | which it is when the alignment divides pages and sectors and the allocator stays below the limit |
| BlockTransfer.Machine.MoveDirect | kernel/dev/block_request.c:156-183 | a chunk straight to or from the buffer |
| BlockTransfer.Machine.MoveBounced | kernel/dev/block_request.c:160-183 | a chunk through the bounce buffer has the same effect on buffer and disk, and touches nobody else's memory |
| BlockTransfer.Machine.MoveChunk | kernel/dev/block_request.c:142-188 | either way the chunk's sectors and its part of the buffer agree, and at most the one bounce buffer is held; out of memory exactly if the chunk must bounce, there is no bounce buffer yet and no frames for it, or the driver says so |
| BlockTransfer.CarriedOn | kernel/dev/block_request.c:142-188 | chunk after chunk, all sectors so far agree with all of the buffer so far |
| BlockTransfer.Machine.NextChunk | kernel/dev/block_request.c:142-188 | a step of the loop keeps all that the transfer has done |
| BlockTransfer.Machine.MoveAll | kernel/dev/block_request.c:138-193 | the loop, with the bounce buffer given back on every path |
| BlockTransfer.Machine.ChunkSize | kernel/dev/block_request.c:120-140 | as many sectors as the device's limits allow and, with two segments or more, never more than the segments are enough for; none exactly if not one fits |
| BlockTransfer.Machine.Transfer | kernel/dev/block_request.c:108-194 | on success exactly sectors lba to lba+count-1 and the buffer agree, byte for byte in order; on every path the frames in use are those from before, and no other memory or sector changed; the requests tile the sectors in order, and all pass the device's check; an absent device, sectors out of range and a device too small for one sector are refused at once, and any later error is the driver's last answer, or out of memory with no frames for a bounce buffer, or invalid with the bounce buffer out of the device's reach, or no device with one of the interfaces absent |
| BlockTransfer.WriteThenRead | kernel/dev/block_request.c:236-244 | what was written reads back, whichever chunks bounced |
| Partitions.InfosList | kernel/dev/ptable_gpt.c:203-251 | the usable slots, each once, in ascending order |
| Partitions.ListedExactly | kernel/dev/ptable_gpt.c:203-251 | by the entries' own fields: exactly the slots in use are listed, each with exactly its sectors |
| Partitions.OneDescription | kernel/dev/ptable_gpt.c:230-245 | which leaves one description of a slot |
| Partitions.ReadGpt | kernel/dev/ptable_gpt.c:203-251 | the index-th usable entry, or none exactly if there are fewer; a sector is in the partition it describes exactly if it is from the entry's first to its last |
| Partitions.ReadMbr | kernel/dev/ptable_mbr.c:79-113 | the same for the entries of an MBR, whose sectors are given by first and count |
| Partitions.Probe | kernel/dev/block_ptable.c:98-143 | a partition for every usable entry up to the first for which there is no memory, but for those that cannot be added, the last one first; each has the sectors its slot says |
| Partitions.ProbedSectors | kernel/dev/block_ptable.c:98-143 | sector k of each partition is the k-th sector its slot says; with memory and none refused, each slot in use gets one |
| Partitions.ProbedPartition | kernel/dev/block_ptable.c:98-143 | of every partition that probing makes: a request it takes reaches the disk inside its range and is taken there |
| SerialPort.BindShaped | kernel/dev/serial_interface.c:189-215 | a step of a bind keeps consumer, consumer_data, binding and terminals in step |
| SerialPort.UnbindShaped | kernel/dev/serial_interface.c:219-259 | ... and one of an unbind |
| SerialPort.SwapShaped | kernel/dev/serial_interface.c:380-457 | ... and one of an exchange |
| SerialPort.RemoveShaped | kernel/dev/serial_interface.c:901-941 | ... and one of a removal or an interrupt |
| SerialPort.Moves | kernel/dev/serial_interface.c:189-457 | any step of any thread keeps locks, fields and what the other threads rely on |
| SerialPort.StepKeeps | kernel/dev/serial_interface.c:189-457 | every step of every thread keeps the invariant |
| SerialPort.RunKeeps | kernel/dev/serial_interface.c:189-457 | ... and so does every run |
| SerialPort.AlwaysSafe | kernel/dev/serial_interface.c:951-997 | in every run, whoever dispatches to the consumer, triggers an exchange or unbinds a terminal finds live consumer_data of the kind it expects |
| SerialPort.AtMostOne | kernel/dev/tty_serial.c:177-244 | at most one terminal exists, and none beside an exchange |
| SerialPort.ClosedForGood | kernel/dev/serial_interface.c:901-941 | once a removal's unbind loop ends nothing is bound, and whatever runs after it nothing ever is again; once the removal is done the port is shut down and stays so |
| SerialPort.LoneBind | kernel/dev/serial_interface.c:189-215 | a bind that is left alone, on a port that is there and has no consumer, ends with a new terminal bound and dispatched to |
| SerialPort.LoneReceive | kernel/dev/serial_interface.c:951-997 | an interrupt then reaches the consumer in place |
| SerialPort.LoneUnbind | kernel/dev/serial_interface.c:219-259 | an unbind that the terminal agrees to ends with nothing bound |
| SerialPort.LoneRefusal | kernel/dev/serial_interface.c:219-259 | one that it refuses leaves the port as it was |
| SerialPort.LoneSwap | kernel/dev/serial_interface.c:380-457 | an exchange gets its turn as the consumer, and leaves the port as it was |
| SerialPort.LoneRemove | kernel/dev/serial_interface.c:901-941 | a removal takes a bound terminal down without asking it, and ends with the port shut |
| SerialPort.LoneStart | kernel/dev/serial_interface.c:1005-1033 | a port is started and shut down on request, and neither once it is removed |
| FbGate.CountKept | kernel/dev/fb_interface.c:365-385 | in_flight is the number of callers between its increment and decrement |
| FbGate.StepKeeps | kernel/dev/fb_interface.c:365-385 | every step of every thread keeps the invariant |
| FbGate.NoneThrough | kernel/dev/fb_interface.c:576-596 | once a removal has left its wait loop no caller is between a successful enter and its leave, and in no continuation is one ever again |
| FbGate.OneInside | kernel/dev/fb_interface.c:365-385 | the lock lets one caller in at a time |
| FbGate.CallGetsInside | kernel/dev/fb_interface.c:365-385 | while the device is not removed and the lock is free, a call gets inside |
| FbGate.CallGetsOut | kernel/dev/fb_interface.c:365-385 | and out again, with count and lock as they were |
| FbGate.RemovalEnds | kernel/dev/fb_interface.c:576-596 | with nobody in the count, a removal gets past its loop |
| FbGate.FailedRemoval | kernel/dev/fb_interface.c:576-584 | one whose device cannot be taken off the registry returns, and calls are refused from then on |
| FbConsole.FeedInPieces | kernel/core/fbcons.c:400-441 | what a terminal makes of text does not depend on how it is cut into writes |
| FbTerminal.Controls | kernel/core/fbcons.c:402-430 | where each control character leaves the cursor, and that none changes a cell but a form feed, which clears all, and the line ends at the bottom |
| FbTerminal.NewlineMoves | kernel/core/fbcons.c:332-350 | one row down, or at the bottom every row one up and a blank one below |
| FbTerminal.PrintablesFill | kernel/core/fbcons.c:433-440 | printable bytes that stay in the row fill exactly the cells from the cursor on and take the cursor along |
| FbTerminal.TextShows | kernel/core/fbcons.c:400-452 | of any text of printable bytes and line feeds on a clear terminal: the cells show the last rows of the text as wrapped at the width, and the cursor is at its end |
| FbTerminal.LinesShow | kernel/core/fbcons.c:400-452 | of lines shorter than a row, each ended by a line feed: the screen shows the last of them, one a row, padded, with the cursor at the start of the row below |
| FbConsole.Console.PutPixel | kernel/core/fbcons.c:245-263 | the one pixel, and no other |
| FbConsole.Console.Draw | kernel/core/fbcons.c:265-310 | a cell's pixels are its glyph's, or all on for the cursor; no other pixel changes |
| FbConsole.Console.SetCell | kernel/core/fbcons.c:312-330 | the cell's character; every cell whose pixels are out of date stays marked, within the dirty range |
| FbConsole.Console.ScrollUp | kernel/core/fbcons.c:336-349 | copying forward in place is a shift by one row, with a blank row at the bottom |
| FbConsole.Console.DoNewline | kernel/core/fbcons.c:334-350 | down a row, or scrolled at the bottom |
| FbConsole.Console.Clean | kernel/core/fbcons.c:354-362 | a dirty cell is drawn and no longer dirty |
| FbConsole.Console.MoveCursor | kernel/core/fbcons.c:367-373 | the cell under the old cursor shows again, the new cursor is drawn |
| FbConsole.Console.DoRedraw | kernel/core/fbcons.c:352-374 | afterwards the screen is what drawing every cell and then the cursor would make it |
| FbConsole.Console.DoClear | kernel/core/fbcons.c:376-388 | all pixels off, all cells empty |
| FbConsole.Console.DoReset | kernel/core/fbcons.c:390-398 | an empty terminal |
| FbConsole.Console.PutChar | kernel/core/fbcons.c:400-441 | what a terminal without a screen makes of the character; `FbTerminal.Controls`, `NewlineMoves` and `PrintablesFill` say what that is |
| FbConsole.Console.Write | kernel/core/fbcons.c:443-452 | after every write of any bytes, the text is a terminal's and the screen is its full rendering |
| FbConsole.Console.constructor | kernel/core/fbcons.c:478-513 | an attached console starts empty |
| DevUnits.Prefix.Ascending | kernel/dev/dev_name.c:85-102 | the list is strictly ascending |
| DevUnits.Prefix.UnitTaken | kernel/dev/dev_name.c:184-197 | whether a number is taken, and the last unit below it |
| DevUnits.Prefix.LinkUnit | kernel/dev/dev_name.c:85-102 | the list with the unit at its place, doubly linked and ascending |
| DevUnits.Prefix.FreeUnit | kernel/dev/dev_name.c:313-331 | the list without the unit |
| DevUnits.Prefix.Alloc | kernel/dev/dev_name.c:227-280 | the pinned number if it is free, else the smallest number neither taken nor pinned, else no space exactly if there is none; nothing else changes |
| DevUnits.Prefix.Claim | kernel/dev/dev_name.c:282-311 | the number, or the error that is due, in order |
| Crc32.BitLinear | kernel/crypto/crc32.c:28-36 | a step of the register is linear |
| Crc32.ByTable | kernel/crypto/crc32.c:48-49 | eight steps are the table's entry for the low byte, against the rest shifted |
| Crc32.Table.InitReflected | kernel/crypto/crc32.c:23-41 | entry i is eight steps from i |
| Crc32.Table.Update | kernel/crypto/crc32.c:43-52 | the bit-at-a-time CRC, for every polynomial, start and data |
| Crc32.Table.Compute | kernel/crypto/crc32.c:63-66 | the same from the table's initial value |
| Crc32.InPieces | kernel/crypto/crc32.c:43-52 | updating piece by piece is updating once with all of it |
| Crc32.BitInjective | kernel/crypto/crc32.c:28-36 | with the polynomial's top bit set no two registers meet |
| Crc32.WithoutTop | kernel/crypto/crc32.c:28-36 | without it, two do |
| Crc32.OneByteShows | kernel/crypto/crc32.c:43-52 | any change of one byte changes the checksum |
| Crc32.IsoHasTop | kernel/crypto/crc32_iso3309.c:9-9 | the polynomial in use has that bit |
| KconfigParse.Parser.CheckToken | contrib/kconfiglib/kconfiglib.py:3773-3778 | takes the token if it is next |
| KconfigParse.Parser.Expression | contrib/kconfiglib/kconfiglib.py:3736-3778 | the parser that moves through its tokens is the one over lists of tokens, in result, place and refusals |
| KconfigParse.Parser.AndExpression | contrib/kconfiglib/kconfiglib.py:3780-3790 | the same for a chain of conjunctions |
| KconfigParse.Parser.Factor | contrib/kconfiglib/kconfiglib.py:3792-3825 | the same for a factor |
| KconfigParse.AndChain | contrib/kconfiglib/kconfiglib.py:6601-6639 | a printed chain of conjunctions and more of it parse as one chain to the right |
| KconfigParse.OrChain | contrib/kconfiglib/kconfiglib.py:6601-6639 | the same for disjunctions |
| KconfigParse.FactorBack | contrib/kconfiglib/kconfiglib.py:6882-6887 | what the printer puts in parentheses, negates or compares parses back as a factor |
| KconfigParse.RightedValue | contrib/kconfiglib/kconfiglib.py:6523-6583 | associating chains to the right changes no value |
| KconfigParse.RightedIs | contrib/kconfiglib/kconfiglib.py:3736-3778 | and changes the expression exactly if some chain had a chain of its kind on its left |
| KconfigParse.RoundTrip | contrib/kconfiglib/kconfiglib.py:6601-6639 | parsing what was printed consumes every token, gives the same value against anything, and the same expression exactly if it was associated to the right |
| KconfigParse.Reparse | contrib/kconfiglib/kconfiglib.py:3736-3825 | the same of the parser that moves through its tokens |
| KconfigGrammar.SentenceParsed | contrib/kconfiglib/kconfiglib.py:3736-3825 | every sentence of the language is parsed up to its end, for the largest of its alternatives, each the least of its factors |
| KconfigGrammar.SentenceFound | contrib/kconfiglib/kconfiglib.py:3736-3825 | and whatever is parsed is a sentence |
| KconfigGrammar.ParsesExactly | contrib/kconfiglib/kconfiglib.py:3736-3825 | so the parser takes all tokens exactly if they are a sentence, and gives what it is worth, however it is read |
| KconfigGrammar.PrintedMeans | contrib/kconfiglib/kconfiglib.py:6601-6639 | what is printed is a sentence worth what the expression is |
| KconfigEval.RunReads | contrib/kconfiglib/kconfiglib.py:3831-3918 | evaluating an attribute looks only downwards, and only at attributes of items whose dependents include its own, but for stray defaults of a choice |
| KconfigEval.RunAgree | contrib/kconfiglib/kconfiglib.py:4829-4931 | an evaluation depends on nothing but what it read |
| KconfigEval.EvalUnfolds | contrib/kconfiglib/kconfiglib.py:4829-4931 | evaluation from scratch is one evaluation over attributes evaluated from scratch |
| KconfigEval.Unaffected | contrib/kconfiglib/kconfiglib.py:5330-5390 | attributes that read nothing of what changed keep their values |
| KconfigEval.VisibilityFlag | contrib/kconfiglib/kconfiglib.py:5337-5366 | whatever read another item also read the visibility of its own, which is what the invalidation looks at |
| KconfigCache.PruningSuffices | contrib/kconfiglib/kconfiglib.py:5337-5366 | stopping at items without a cached visibility leaves every attribute right, with all it was computed from, if and only if no selection that stays has lost a stray default |
| KconfigCache.Rebased | contrib/kconfiglib/kconfiglib.py:5000-5112 | what is left after an invalidation is also right for the new input |
| KconfigCache.StaleOnly | contrib/kconfiglib/kconfiglib.py:5337-5366 | whatever is left that neither has lost a stray default nor was computed from what has is right for the new input; all is if the selections that have are |
| KconfigCache.Reassigned | contrib/kconfiglib/kconfiglib.py:5368-5390 | it is enough to invalidate changed items that have a prompt: by the cache from before, what is left is consistent with the new input if and only if the invalidation takes no stray default away from a selection it leaves, and right for it if and only if the selections it does take one from evaluate as before |
| KconfigCache.CoveredIsSafe | contrib/kconfiglib/kconfiglib.py:5959-5974 | as it never does where every default is a member, mentioned by the choice or without a prompt |
| KconfigCache.Kconfig.BuildDep | contrib/kconfiglib/kconfiglib.py:3831-3889 | an item is among a symbol's dependents exactly if one of its expressions mentions the symbol |
| KconfigCache.Kconfig.AddChoiceDeps | contrib/kconfiglib/kconfiglib.py:3891-3908 | and a choice and its members are among each other's |
| KconfigCache.Kconfig.constructor | contrib/kconfiglib/kconfiglib.py:1304-1318 | the dependents are complete and the empty cache is right |
| KconfigCache.Kconfig.InvalidateAll | contrib/kconfiglib/kconfiglib.py:3910-3918 | the attributes of all items go |
| KconfigCache.GoneExactly | contrib/kconfiglib/kconfiglib.py:5337-5366 | an invalidation that follows dependents as long as their visibility is cached takes away exactly what can be reached so, or all there is if that is MODULES |
| KconfigCache.Kconfig.RecInvalidate | contrib/kconfiglib/kconfiglib.py:5337-5366 | removes exactly that, however it is reached; nothing is left of the item nor of anything registered as depending on what went; it ends although the graph is cyclic at choices |
| KconfigCache.Kconfig.ReadVisibility | contrib/kconfiglib/kconfiglib.py:4925-4931 | the item's visibility, from the cache or computed and stored |
| KconfigCache.Kconfig.ReadTri | contrib/kconfiglib/kconfiglib.py:4830-4913 | the symbol's tristate value |
| KconfigCache.Kconfig.ReadStr | contrib/kconfiglib/kconfiglib.py:4673-4827 | the symbol's string value |
| KconfigCache.Kconfig.ReadSelection | contrib/kconfiglib/kconfiglib.py:5717-5722 | the choice's selection |
| KconfigCache.Kconfig.Select | contrib/kconfiglib/kconfiglib.py:5913-5957 | the selection as the user's choice, the defaults and what is visible give it |
| KconfigCache.Kconfig.ReadMode | contrib/kconfiglib/kconfiglib.py:5671-5689 | the choice's mode |
| KconfigCache.Kconfig.ReadPrompts | contrib/kconfiglib/kconfiglib.py:6838-6860 | the largest value of the prompt conditions |
| KconfigCache.Kconfig.ReadRel | contrib/kconfiglib/kconfiglib.py:6550-6583 | a comparison of two symbols, as strings or as numbers |
| KconfigCache.Kconfig.Attribute | contrib/kconfiglib/kconfiglib.py:4829-4931 | a read gives what evaluation from scratch gives |
| KconfigCache.Kconfig.SetSymbol | contrib/kconfiglib/kconfiglib.py:5000-5101 | the user's values after an assignment and exactly which attributes stay cached; all are consistent with the new values if and only if no selection that stays loses a stray default, right if and only if those that do evaluate as before, and what comes from no such selection is right anyway |
| KconfigCache.Kconfig.UnsetSymbol | contrib/kconfiglib/kconfiglib.py:5103-5111 | the same for taking an assignment back |
| KconfigCache.Kconfig.SetChoice | contrib/kconfiglib/kconfiglib.py:5725-5771 | the same for the mode of a choice |
| KconfigCache.Kconfig.UnsetChoice | contrib/kconfiglib/kconfiglib.py:5773-5782 | the same for taking mode and selection back |
| KconfigCache.Kconfig.Script | contrib/kconfiglib/kconfiglib.py:5330-5390 | in any interleaving of assignments and reads on symbols and choices, every read gives what evaluation from scratch gives at that moment, if no assignment takes a stray default away from a selection, whatever was read before |
| KconfigCache.StrayDefaultGoesStale | contrib/kconfiglib/kconfiglib.py:5959-5974 | one that does: a selection and the value of a member that were read stay cached across an assignment after which evaluation gives others |
| KconfigMeaning.ExprMeans | contrib/kconfiglib/kconfiglib.py:6535-6549 | a conjunction is the least, a disjunction the largest, a negation the opposite |
| KconfigMeaning.NumbersCompare | contrib/kconfiglib/kconfiglib.py:6550-6583 | symbols that are numbers, tristate values among them, are compared as numbers unless both are strings |
| KconfigMeaning.TextsCompare | contrib/kconfiglib/kconfiglib.py:6550-6583 | any others are compared as texts |
| KconfigMeaning.LexTotal | contrib/kconfiglib/kconfiglib.py:6912-6915 | in a total order in which the first difference decides |
| KconfigMeaning.VisibilityMeans | contrib/kconfiglib/kconfiglib.py:6838-6860 | visibility is the largest prompt condition, with m only for what is a tristate at the moment |
| KconfigMeaning.ChoiceVisibilityMeans | contrib/kconfiglib/kconfiglib.py:6838-6860 | the same for choices |
| KconfigMeaning.FreeMeans | contrib/kconfiglib/kconfiglib.py:4829-4913 | outside of choices a symbol is the larger of what selects it and what the user or its defaults and implies want, with m rounded where there is none |
| KconfigMeaning.SelectForces | contrib/kconfiglib/kconfiglib.py:4887-4895 | never below what selects it |
| KconfigMeaning.UserDecides | contrib/kconfiglib/kconfiglib.py:4855-4861 | not selected, visible and set: the user's value, as far as it is visible |
| KconfigMeaning.DefaultDecides | contrib/kconfiglib/kconfiglib.py:4863-4885 | neither: the first default whose condition holds, raised by an imply if its own dependencies hold |
| KconfigMeaning.NeverHalf | contrib/kconfiglib/kconfiglib.py:4897-4900 | m only for a tristate, with modules on and no imply of y |
| KconfigMeaning.OthersMean | contrib/kconfiglib/kconfiglib.py:4837-4846 | constants are themselves, symbols of other types n |
| KconfigMeaning.ModeMeans | contrib/kconfiglib/kconfiglib.py:5671-5689 | when the mode of a choice is n and when it is y |
| KconfigMeaning.MemberMeans | contrib/kconfiglib/kconfiglib.py:4902-4910 | a member is y exactly if it is visible and the selection, and n otherwise |
| KconfigMeaning.OneMember | contrib/kconfiglib/kconfiglib.py:4902-4910 | so no two members of a choice are y |
| KconfigMeaning.SelectedByUser | contrib/kconfiglib/kconfiglib.py:5929-5932 | the user's selection counts first, if it is visible |
| KconfigMeaning.SelectedByDefault | contrib/kconfiglib/kconfiglib.py:5934-5974 | then the first default that holds and is visible, or the first visible member, unless the user set it to n |
| KconfigMeaning.SelectedUntouched | contrib/kconfiglib/kconfiglib.py:5941-5947 | then the first visible member without a user value |
| KconfigMeaning.SelectedLast | contrib/kconfiglib/kconfiglib.py:5949-5957 | then the last visible member, and none exactly if none is visible |
| KconfigMeaning.NamesMean | contrib/kconfiglib/kconfiglib.py:4680-4690 | the text of a bool or tristate names its value, that of an undefined symbol is its name |
| KconfigMeaning.StringMeans | contrib/kconfiglib/kconfiglib.py:4804-4817 | a string is the user's if it is visible, or the first default that holds, or empty |
| KconfigMeaning.NumberMeans | contrib/kconfiglib/kconfiglib.py:4700-4802 | an int or hex is the user's or the default's text, unless the first range that holds excludes it: then it is the bound |
| KconfigMeaning.SetReads | contrib/kconfiglib/kconfiglib.py:5000-5101 | a visible symbol that nothing selects is what it was set to, by n, m or y or as a value, as far as it is visible |
| KconfigMeaning.SetThenRead | contrib/kconfiglib/kconfiglib.py:5000-5101 | and so is a read of it afterwards |
| KconfigMeaning.MemberChosen | contrib/kconfiglib/kconfiglib.py:5000-5101 | a visible member set to y is the selection |
| KconfigLoops.NoCycle | contrib/kconfiglib/kconfiglib.py:7101-7175 | symbols in the order they were found clear contain no loop |
| KconfigLoops.Search.constructor | contrib/kconfiglib/kconfiglib.py:7106-7107 | all symbols start unvisited |
| KconfigLoops.Search.CheckSym | contrib/kconfiglib/kconfiglib.py:7101-7175 | a symbol found clear comes after all its dependents, which are clear; otherwise the loop so far is a path back to a symbol on the stack, or a loop is raised |
| KconfigLoops.Search.FoundLoop | contrib/kconfiglib/kconfiglib.py:7212-7220 | the symbol goes on the path, or closes the loop |
| KconfigLoops.Search.CheckAll | contrib/kconfiglib/kconfiglib.py:1310-1313 | raises exactly if the dependents graph has a loop, and what it raises is one |
| KconfigLoops.LevelsRise | contrib/kconfiglib/kconfiglib.py:1310-1313 | a clear search gives each symbol a level above all that it depends on |
| KconfigLevels.ClearGivesLevels | contrib/kconfiglib/kconfiglib.py:1310-1313 | with these levels a configuration without choices is well-formed, so evaluation ends, if MODULES depends on no tristate |
| KconfigLevels.LevelsGiveCore | contrib/kconfiglib/kconfiglib.py:1310-1313 | and with any levels MODULES does not: the symbols that are not above it are closed under dependency, and none is a tristate |
| KconfigLevels.LevelsExactly | contrib/kconfiglib/kconfiglib.py:1310-1313 | so after a clear search there are such levels if and only if MODULES depends on no tristate |
| KconfigLevels.LevelsExcludeLoops | contrib/kconfiglib/kconfiglib.py:1310-1313 | and a configuration that is well-formed with any levels has no loop for the search to find |
| KconfigMenu.MakeAndValue | contrib/kconfiglib/kconfiglib.py:3141-3153 | the simplifications of a conjunction change no value |
| KconfigMenu.MakeOrValue | contrib/kconfiglib/kconfiglib.py:3155-3167 | nor those of a disjunction |
| KconfigMenu.DependsExactly | contrib/kconfiglib/kconfiglib.py:6983-7008 | a condition ties an item to a symbol exactly if one of its conjuncts is the symbol or one of eight comparisons with it |
| KconfigMenu.SubmenuNeedsSymbol | contrib/kconfiglib/kconfiglib.py:6983-7008 | a condition that puts an item in the submenu of a bool or tristate symbol is n whenever the symbol is, unless it does so only by comparing the symbol for inequality with y |
| KconfigMenu.ComparisonNeedsSymbol | contrib/kconfiglib/kconfiglib.py:6987-7004 | of a comparison of such a symbol, exactly if it is not that one |
| KconfigMenu.OtherTypesEscape | contrib/kconfiglib/kconfiglib.py:6987-7004 | a comparison that puts an item in the submenu of a symbol of another type is n exactly if the number or text of the symbol says so, though the symbol itself is always n |
| KconfigMenu.NumberNeverHides | contrib/kconfiglib/kconfiglib.py:6987-7004 | such as an int that is none of 0 to 2, compared for inequality with n: in its submenu, and y |
| KconfigMenu.InheritExpected | contrib/kconfiglib/kconfiglib.py:4020-4065 | one child's conditions after propagation are the least of its own, its dependency, its parent's and the visible-ifs |
| KconfigMenu.PropagateMeant | contrib/kconfiglib/kconfiglib.py:4006-4067 | propagating level by level is what one walk down the tree means |
| KconfigMenu.FlattenVals | contrib/kconfiglib/kconfiglib.py:7019-7044 | flattening keeps the items and their order, and leaves no if with children |
| KconfigMenu.RemoveIfsVals | contrib/kconfiglib/kconfiglib.py:7047-7070 | removing ifs removes nothing else |
| KconfigMenu.FinalizeVals | contrib/kconfiglib/kconfiglib.py:3925-3993 | a finalized node holds itself, what went into its submenu and all below, in order, with the conditions meant |
| KconfigMenu.AbsorbVals | contrib/kconfiglib/kconfiglib.py:3950-3969 | so does an implicit submenu, however deep they nest |
| KconfigMenu.FinalizedTree | contrib/kconfiglib/kconfiglib.py:3925-4067 | of the whole tree, against every valuation: the items come out in the order they were parsed in, and each prompt condition is the least of its own condition, its own dependency, every enclosing dependency and every enclosing menu's visible-if |
| KconfigShape.FlattenLifts | contrib/kconfiglib/kconfiglib.py:7019-7044 | flattening puts exactly the nodes below one without a prompt, but for those of a choice, after it, and leaves none to flatten |
| KconfigShape.SubmenuRun | contrib/kconfiglib/kconfiglib.py:3950-3969 | what goes below a symbol is the longest run right after it in which each node that is not below another in it depends on the symbol; the first node left does not |
| KconfigShape.FinalizePlace | contrib/kconfiglib/kconfiglib.py:3925-3993 | a finalized node and all below it are where a walk over the nodes with a stack of open symbols puts them |
| KconfigShape.FinalizedShape | contrib/kconfiglib/kconfiglib.py:3925-4067 | of the whole tree: every item is below the one that walk says |

## Left out

- Panic-time reads that stop a hart between two stores: the ring's claims are about the states between appends.
- User copies, mutex, event and spinlock internals, page tables and hardware: locks are steps of the protocols, the disk's driver is any method that moves the bytes or fails on the way, the page table is a function.
- `kvprintf` formatting, early boot and the recall of old records by a console that is added.
- ConsoleFlush.HandedIsSilent: a panic, which takes consoles back and flushes past the lock, is left out.
- KplogFeed.File.ReadLocked: the time stamp of a loss report is any 64-bit number, as clocks are not modelled.
- LogRing.Ring.Append: requires that the 64-bit head has room for two more turns of the ring, which the source takes for granted.
- BlockTransfer.Machine.Transfer: the alignment is a divisor rather than a mask, the same for masks of the form 2^k-1; a buffer has distinct physical addresses; block_flush and block_read_sector_prefix are left out.
- BlockTransfer.Machine.AllocPages: frame 0 is never free, as the setup of the allocator leaves it out; other users of the allocator do not come in between.
- BlockTransfer.Machine.Submit: the driver moves as many bytes as the request is long, in the order of its segments; what it does with further segments is not modelled, nor what it leaves in memory that two segments share.
- The checks of GPT headers and checksums, labels and types of partitions, and the registries that partitions are entered in.
- SerialPort.AlwaysSafe: the bytes of an exchange, modem lines, breaks and the console of a port are left out; a terminal counts as gone as soon as its removal starts.
- SerialPort.LoneStart: the driver's startup does not fail.
- Blocking and fairness: that loops which wait for other threads end is not claimed; calls and flushes that nobody gets in the way of are shown to end.
- FbConsole.Console.constructor: framebuffers smaller than one character are excluded, for which the source's row and column counts underflow.
- FbConsole.Console.Write: pixels are on or off, whatever their depth; the font is any function whose first glyph is empty.
- Rectangles, mmap and modes of framebuffers.
- DevUnits.Prefix.Alloc: which numbers the command line pins is an arbitrary predicate; claiming whole prefixes is left out.
- `crc32_table_init` (most significant bit first) and the bit-reversed output.
- KconfigCache.Kconfig.constructor: a MODULES that depends on a tristate symbol is excluded, for which evaluation need not end.
- KconfigCache.Kconfig.Script: the levels of the items are given, as the loop search provides them for configurations without choices; the defaults of a choice are not above it, and MODULES lies below every tristate item. `assignable`, origins, warnings and writing of configurations are left out, and int() and its formatting are arbitrary functions.
- KconfigParse.RoundTrip: tokens, not characters; m is not rewritten to m && MODULES.
- KconfigLoops.Search.CheckAll: configurations without choices; dependents are lists in any order.
- KconfigMenu.FinalizedTree: the tree is a value rather than nodes linked by next and parent; the properties copied to symbols and the members registered with choices are left out.
- Macro expansion, file handling, tokenizing and the user interfaces of kconfiglib.
