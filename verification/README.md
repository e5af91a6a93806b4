# AMIX: models and proofs

AMIX is System V for the Amiga.  This project models twelve parts of its kernel, drivers, boot loader and
assembler in Dafny and proves what they are for.  `dafny verify dfyconfig.toml` checks all of it.

A part that works by changing state comes in two pieces.  One module describes what happens, as functions on
values, and proves the properties of every input and every run.  A second module (or a class in the same one)
holds the fields, arrays and loops of the C code as classes and methods, each of them proved to do exactly what
those functions say.

| part | properties | code in place |
|---|---|---|
| SCSI drivers for the WD33C93A: a table-driven interrupt machine over request queues | `Scsi`, `ScsiRuns` | `ScsiDriver` |
| tape driver: a 20-state machine over a buffer queue | `Tape`, `TapeService` | `TapeDriver` |
| remote kernel debugger: a request-reply protocol over links that lose messages | `Kdb`, `KdbCommands` | `KdbParties` |
| Hydra ethernet: a ring of pages with the controller storing behind the driver's back | `Hydra` | `HydraDriver` |
| kernel relocation: the direct and the compact way give the same memory | `Elf`, `ElfLayout` | `ElfTools` |
| LZW decompression of the boot image | `Lzw`, `Decompress`, `Packing` | `Decompressor` |
| 6502 assembler back end: expressions, relaxation of operands and output | `Expr`, `As65`, `As65File` | `Expr`, `Assembler` |
| AmigaDOS floppy format: codec, sectors, the search for sync, whole tracks | `Mfm`, `AmigaFloppy`, `AmigaTrack` | `AmigaFloppy`, `AmigaTrack` |
| MS-DOS floppy format: table-driven codec and CRC | `Crc`, `DosFloppy` | `Crc`, `DosFloppy` |
| floppy track buffers: a write-back cache | `TrackCache` | `TrackBuffers` |
| console: a circular bitmap that scrolls by an offset | `Console` | `Console` |
| SLIP framing (RFC 1055, section "PROTOCOL") and the boot-time memory map | `Slip`, `MainMemory` | `Slip`, `MainMemory` |

`Basics`, `Word32` and `Words` hold what they share; `Words` has machine words as strings of bits, most
significant first, so that shifts and masks of the floppy code are the evident operations on strings.

## What the code does not do

Some properties one would expect do not hold of the code.  The model keeps the code as it is; the lemmas named
here give the exact condition.

- A SLIP packet of SLIP_MAX bytes, all of them special, needs one byte more than the output block has, although
  the comment at usr/sys/amiga/driver/slip.c:456 says that the block is big enough (`Slip.FrameFitsBlock`).  An
  escape that is pending when an END arrives is not forgotten, and spoils a packet that begins with one of the
  two transposed codes (`Slip.Resynchronises`).  A frame whose end comes while there is no room upstream is not lost: it
  becomes one packet with the next (`Slip.FramesMerge`).
- The first request of a debugger is not done if its id, which comes from the clock, is the last one that the
  target answered (`Kdb.FirstIdMatters`); and if the ids come to that one later, before the target has answered
  another, the debugger accepts an answer that was never computed (`Kdb.SafeIff`).
- After a single step that ends otherwise than by its trace trap, or with a stop posted, the machine is left with its
  interrupts masked and traced (`KdbCommands.StepIsUndone`).
- `evaluate` overruns its stack of five values on expressions that need six, which the buffer of tokens does not
  prevent (`Expr.EvaluateIsMeaning`, `Expr.BufferIsNoGuard`); and `compseg` sorts segments wrongly that are half the
  address space apart (`As65File.DifferenceOrders`).
- The residue of the zero-filled tape buffer after a media error is not within the buffer if that is smaller than
  a block (`Tape.NulsResidueFits`).
- A SCSI request of 2^24 bytes or more is not moved from its beginning (`Scsi.FirstDmaIsWhole`).
- COMMON symbols are laid out alike in both ways of loading only if the bind address has their alignment
  (`Elf.AlignmentIsRelative`); and a symbol in a section that is empty gets an address only from the compactor
  (`Elf.SymbolsAgree`, `Elf.EmptyRodataDiffers`).
- Formatting the first block of a track that is cached does not clear the track (`TrackCache.FormatIsPlain`), and
  `getnext` may let a request overtake one that it overlaps, if they begin on different tracks
  (`TrackCache.OverlapCanBeOvertaken`).

## Model

| member | source | states |
|---|---|---|
| `Scsi.OnePlaceEach` | usr/sys/amiga/alien/a3091.c:130-317 | in every state of every run that has not ended DEAD, a unit with requests is in exactly one of three places (once in the start queue, current on the chip, disconnected), a unit without is in none, and IDLE between handlers means an empty start queue |
| `Scsi.CompletedInOrder` | usr/sys/amiga/alien/a2091.c:250-306 | over every run, with callbacks that queue more, what was queued on a unit is what was completed on it, in that order, followed by what is still queued: order kept, each at most once, none lost |
| `Scsi.DmaDisciplined` | usr/sys/amiga/alien/a2091.c:341-393 | at every moment of every run each DMA start is matched by one stop before the next, and a bounce buffer is copied at the right end of its DMA and freed for it; at IDLE nothing is running or held |
| `Scsi.DisciplineMeans` | usr/sys/amiga/alien/a2091.c:359-392 | what that discipline means for a whole log: starts exceed stops by the one that is running, and the buffers freed are the buffers allocated, with the same addresses and sizes, except the one still held |
| `Scsi.DmaStaysInside` | usr/sys/amiga/alien/a3091.c:321-340 | if the transfer counter only counts down, every DMA of every run moves a non-empty tail of its request that is no longer than the request |
| `Scsi.FirstDmaIsWhole` | usr/sys/amiga/alien/a3091.c:208-211 | the first DMA of a request moves all of it if and only if it has fewer than 2^24 bytes |
| `Scsi.InterruptKeepsInv` | usr/sys/amiga/alien/a3091.c:218-317 | each interrupt keeps the invariant of all queues, places and DMA registers, and ends in DEAD if and only if the table says so or a message other than Restore Pointers was read |
| `Scsi.EnqueueKeepsInv` | usr/sys/amiga/alien/a3091.c:148-185 | queueing a request keeps the same invariant |
| `Scsi.FinishKeepsInv` | usr/sys/amiga/alien/a3091.c:230-243 | so does completing one, whatever its callback queues, and it never ends in DEAD |
| `Scsi.ReselectKeepsInv` | usr/sys/amiga/alien/a3091.c:250-267 | so does the resumption of a disconnected unit, also when the current one is put back in the start queue first |
| `Scsi.RunKeepsInv` | usr/sys/amiga/alien/a3091.c:148-317 | and so does every run of queue calls and interrupts |
| `Scsi.StartDmaWatched` | usr/sys/amiga/alien/a2091.c:341-369 | starting DMA leaves the transfer length and the bounce buffer that the discipline expects |
| `Scsi.StopDmaWatched` | usr/sys/amiga/alien/a2091.c:373-393 | stopping it does too, though the length itself is not cleared |
| `ScsiRuns.DoneMeans` | usr/sys/amiga/alien/a3091.c:230-285 | whatever step of whatever run reports a request done, it is an interrupt, with code 0x16 or, while STARTING, 0x42; the request is the first one of the current unit; and it is okay if and only if the code is 0x16 and the command phase 0x60, with the status that the target has given |
| `ScsiRuns.ReportsAreTheChips` | usr/sys/amiga/alien/a3091.c:148-285 | over every run all that is queued and all that is reported done, in that order: what the calls ask for, and at every interrupt that ends a request its report and then what its callback queues |
| `ScsiRuns.ChipIsShared` | usr/sys/amiga/alien/a3091.c:171-215 | in every step of every run the units that wait get the chip first come, first served; what is left of a request is all of it when it begins and what the target had saved when it is resumed; and if that is anything DMA is begun, and moves just that |
| `ScsiRuns.ChipLeads` | usr/sys/amiga/alien/a3091.c:87-140 | the codes of the chip that are expected in each state, what they lead to, and that any other one, or another message, ends in DEAD |
| `ScsiDriver.Driver.Queue` | usr/sys/amiga/alien/a3091.c:148-167 | the queue call, in place, is the step of the model on which the run properties are proved |
| `ScsiDriver.Driver.UnitWaits` | usr/sys/amiga/alien/a3091.c:171-185 | a unit is appended to the start queue, and started if that was empty |
| `ScsiDriver.Driver.StartAny` | usr/sys/amiga/alien/a3091.c:189-215 | the head of the start queue becomes current, with its transfer count and DMA, only when idle |
| `ScsiDriver.Driver.StartDma` | usr/sys/amiga/alien/a3091.c:321-340 | DMA registers and the log after a start |
| `ScsiDriver.Driver.StopDma` | usr/sys/amiga/alien/a3091.c:344-355 | and after a stop |
| `ScsiDriver.Driver.EndRequest` | usr/sys/amiga/alien/a3091.c:230-243 | completion or abort: dequeue, requeue the unit, callback, start another |
| `ScsiDriver.Driver.ReselectUnit` | usr/sys/amiga/alien/a3091.c:250-267 | the reselected unit becomes current, or the driver goes DEAD |
| `ScsiDriver.Driver.YieldUnit` | usr/sys/amiga/alien/a3091.c:294-298 | disconnection |
| `ScsiDriver.Driver.Interrupt` | usr/sys/amiga/alien/a3091.c:218-317 | the handler, in place, is the step of the model, of which ScsiRuns says what it reports and leads to |
| `Tape.TurnDescends` | usr/sys/amiga/alien/ct.c:267-562 | the termination measure: a turn that goes on disposes of the head or lowers the rank of the state, so the loop always ends |
| `Tape.DisposedInOrder` | usr/sys/amiga/alien/ct.c:238-254 | over every run the buffers queued are the buffers disposed of, in that order and once each, followed by those in the queue |
| `Tape.OneCommandOut` | usr/sys/amiga/alien/ct.c:267-562 | between calls the queue is non-empty if and only if one command is out, it is the command the state waits for, and commands and answers have alternated |
| `Tape.NoReadAfterWrite` | usr/sys/amiga/alien/ct.c:274-280 | over every run, once a write has been sent no read is sent until the tape is opened at its beginning |
| `Tape.ResiduesFit` | usr/sys/amiga/alien/ct.c:704-715 | over every run in which buffers hold at least a block, whatever sense data the drive gives, no residue exceeds its buffer |
| `Tape.NulsResidueFits` | usr/sys/amiga/alien/ct.c:359-366 | the residue of the zero-filled block fits if and only if the buffer holds a block |
| `Tape.TurnKeeps` | usr/sys/amiga/alien/ct.c:272-561 | one turn keeps the queue, the log and the outstanding command in agreement |
| `Tape.MachineKeeps` | usr/sys/amiga/alien/ct.c:267-562 | the loop turns a drive with no command out into one with a command out or nothing to do |
| `TapeService.EveryBufferServed` | usr/sys/amiga/alien/ct.c:267-562 | over every run each buffer gets the commands that it calls for at the place where the tape is, and comes back with the residue, the error and the contents that a reference in big steps makes of their answers |
| `TapeService.MovedMeans` | usr/sys/amiga/alien/ct.c:323-355 | a user buffer that comes back without error and with something moved had its own command: if that went well nothing is left, otherwise the residue is the number in the sense bytes |
| `TapeService.RefusedMeans` | usr/sys/amiga/alien/ct.c:497-501 | a user buffer for which no command is sent has nothing moved at a file mark, no space at the end of data or of the medium, another error after a media error or where the driver is lost, and is cleared third after a media error |
| `TapeService.PlaceMeans` | usr/sys/amiga/alien/ct.c:323-355 | where the tape is taken to be after a buffer that had a command |
| `TapeDriver.Unit.Queue` | usr/sys/amiga/alien/ct.c:239-254 | the queue call, in place, is the step of the model |
| `TapeDriver.Unit.Interrupt` | usr/sys/amiga/alien/ct.c:258-263 | so is the interrupt |
| `TapeDriver.Unit.Machine` | usr/sys/amiga/alien/ct.c:267-562 | the loop is the recursive machine of the model |
| `TapeDriver.Unit.OneTurn` | usr/sys/amiga/alien/ct.c:273-561 | each case of the switch is the turn of the model, of which TapeService says what it makes of a buffer |
| `TapeDriver.Unit.PartlyCase` | usr/sys/amiga/alien/ct.c:320-337 | the residue is set from the sense data, and a buffer that got anything is disposed of |
| `TapeDriver.Unit.ReadSenseCase` | usr/sys/amiga/alien/ct.c:314-342 | the decision after a read that went wrong |
| `TapeDriver.Unit.WriteSenseCase` | usr/sys/amiga/alien/ct.c:436-454 | the same for a write |
| `Kdb.DoneAtMostOnce` | usr/sys/amiga/driver/kdb/kdebug.c:205-234 | in every run with retransmissions, losses in both directions and failed allocations, and no more requests than there are ids before the one that the target remembers, each command is done at most once, in request order, and the machine is what doing them once each makes of it |
| `Kdb.AcceptedIsComputed` | usr/sys/amiga/driver/kdb/rkd.c:390-417 | in the same runs a reply that the debugger accepts is the one computed for the request it waits with, and each request gets at most one |
| `Kdb.SafeIff` | usr/sys/amiga/driver/kdb/rkd.c:374-374 | that bound is exact: every run with at most n requests is safe if and only if n is no more than the number of ids from the first one up to the remembered one |
| `Kdb.StaleRun` | usr/sys/amiga/driver/kdb/kdebug.c:205-211 | with one request more there is a run in which the debugger accepts a reply that was never computed, to a command that was never done |
| `Kdb.InTurnIsFresh` | usr/sys/amiga/driver/kdb/rkd.c:374-374 | ids taken in turn, wrapping at 2^32, do not meet one that is still remembered before they have come to the last one of the target |
| `Kdb.StopIsIdempotent` | usr/sys/amiga/driver/kdb/kdebug.c:314-325 | a STOP or WSTOP received any number of times while the machine runs does what it does once |
| `Kdb.FirstIdMatters` | usr/sys/amiga/driver/kdb/kdebug.c:205-211 | the first request of a debugger is ignored if and only if its id is the last one the target answered: why the clock-based first id has to be fresh |
| `Kdb.DuplicateIsHarmless` | usr/sys/amiga/driver/kdb/kdebug.c:205-211 | in every reachable state a repeated request is answered with the saved reply, which is the right one, and changes nothing |
| `Kdb.ArrivingIsNewOrLast` | usr/sys/amiga/driver/kdb/kdebug.c:211-211 | a request that arrives has the last id if and only if it is the last request |
| `Kdb.StepKeepsInv` | usr/sys/amiga/driver/kdb/rkd.c:340-418 | each step of either party or of the links keeps the protocol invariant |
| `Kdb.SessionKeepsInv` | usr/sys/amiga/driver/kdb/rkd.c:340-418 | and so does every run from the opening of the debugger with no more requests than that |
| `KdbCommands.AcceptedReadIsRight` | usr/sys/amiga/driver/kdb/kdebug.c:255-268 | in every session the reply that the debugger accepts to a read shows, byte by byte, what the writes done before it had put there last |
| `KdbCommands.MemoryIsLastWritten` | usr/sys/amiga/driver/kdb/kdebug.c:264-268 | in every session every byte of memory is the one that the last write done to it put there |
| `KdbCommands.WriteWrites` | usr/sys/amiga/driver/kdb/kdebug.c:264-268 | a write puts its bytes where it says, and changes nothing else |
| `KdbCommands.ReadReads` | usr/sys/amiga/driver/kdb/kdebug.c:255-262 | a read gives the bytes from where it says, four at most |
| `KdbCommands.ReadAfterWrite` | usr/sys/amiga/driver/kdb/kdebug.c:255-268 | what has been written is read back |
| `KdbCommands.RegistersRoundTrip` | usr/sys/amiga/driver/kdb/kdebug.c:389-395 | registers that are set are got back, but for the status register, which cannot be set |
| `KdbCommands.RunRuns` | usr/sys/amiga/driver/kdb/kdebug.c:270-312 | Run starts a stopped machine, at a new address if one is given, and a single step with interrupts masked |
| `KdbCommands.HaltHalts` | usr/sys/amiga/driver/kdb/kdebug.c:52-98 | what a stop does to the machine, for each reason; a posted stop is taken to be the reason whatever the trap is |
| `KdbCommands.StepIsUndone` | usr/sys/amiga/driver/kdb/kdebug.c:52-88 | after a single step interrupts are as before, and tracing off, if and only if the trace trap stopped the machine and no stop was posted |
| `KdbCommands.CommandsKeep` | usr/sys/amiga/driver/kdb/kdebug.c:230-415 | what each command may change |
| `KdbCommands.CommandsAnswer` | usr/sys/amiga/driver/kdb/kdebug.c:230-415 | what each command is answered, errors included |
| `KdbCommands.RoundIsDone` | usr/sys/amiga/driver/kdb/kdebug.c:192-421 | a request is done and its answer accepted if neither message is lost |
| `KdbCommands.StopIsAnswered` | usr/sys/amiga/driver/kdb/kdebug.c:161-175 | a request to stop a machine that runs is answered when it stops |
| `KdbParties.TargetSide.HandlePacket` | usr/sys/amiga/driver/kdb/kdebug.c:192-421 | the handler, in place, is the target step of the protocol, of which KdbCommands says what it does to the machine; the id counts as answered even when the frame is dropped |
| `KdbParties.TargetSide.StopMachine` | usr/sys/amiga/driver/kdb/kdebug.c:52-175 | a stop, for whatever reason, takes back what a posted stop, a single step or a breakpoint left behind, and answers the request that waits for it |
| `KdbParties.TargetSide.Debug` | usr/sys/amiga/driver/kdb/kdebug.c:181-184 | packets are handled until one makes the machine run |
| `KdbParties.DebuggerSide.BeginSend` | usr/sys/amiga/driver/kdb/rkd.c:340-398 | a request is numbered and sent |
| `KdbParties.DebuggerSide.AfterSleep` | usr/sys/amiga/driver/kdb/rkd.c:390-417 | after a sleep it is sent again, given up, or its reply accepted, exactly as the protocol step says |
| `KdbParties.DebuggerSide.Receive` | usr/sys/amiga/driver/kdb/rkd.c:88-118 | an arriving reply is kept, or lost for want of memory |
| `Hydra.ArrivalKeepsRing` | usr/sys/amiga/driver/hydra/hydra.c:1705-1741 | a frame stored by the controller leaves a well-formed ring, with the waiting frames intact and the new one last |
| `Hydra.TakingKeepsRing` | usr/sys/amiga/driver/hydra/hydra.c:1237-1244 | giving back the first frame leaves a well-formed ring |
| `Hydra.PartKeepsRing` | usr/sys/amiga/driver/hydra/hydra.c:1705-1741 | so does a frame that is only partly stored, and the waiting frames stay intact |
| `Hydra.FramePlaces` | usr/sys/amiga/driver/hydra/hydra.c:1211-1225 | the header is in one piece at the beginning of its page; the bytes after it are one stretch, or two that meet at the end of the ring, and the reader never leaves the ring |
| `Hydra.CoveredByte` | usr/sys/amiga/driver/hydra/hydra.c:1211-1225 | and there they are those of the frame |
| `Hydra.SizeBytes` | usr/sys/amiga/driver/hydra/hydra.c:1159-1161 | the two size bytes give the size |
| `Hydra.FreePagesAre` | usr/sys/amiga/driver/hydra/hydra.c:1722-1722 | with BNRY one page behind next_pkt, the free pages computed from CURR and BNRY are the ring less one page less what is stored |
| `Hydra.PagesDiffer` | usr/sys/amiga/driver/hydra/hydra.c:1142-1145 | next_pkt equals CURR if and only if the ring is empty |
| `HydraDriver.Board.constructor` | usr/sys/amiga/driver/hydra/hydra.c:1702-1740 | the ring as set up is well formed and empty |
| `HydraDriver.Board.Arrive` | usr/sys/amiga/driver/hydra/ne2000.h:162-165 | the controller: a frame is stored if there are pages for it before BNRY, and lost otherwise |
| `HydraDriver.Board.RamRead` | usr/sys/amiga/driver/hydra/hydra.c:151-185 | the long-word reader gives the bytes of the frame being taken, whatever the controller stores between two long words, touches nothing else, and takes its zero-fill guard if and only if not all is inside the memory |
| `HydraDriver.Board.CopyFrame` | usr/sys/amiga/driver/hydra/hydra.c:1211-1225 | the frame is copied byte for byte, across the wrap, with frames arriving all the while |
| `HydraDriver.Board.Tick` | usr/sys/amiga/driver/hydra/hydra.c:1120-1246 | before each access any number of frames arrive, or are begun; the ring stays well formed and the waiting frames keep their places |
| `HydraDriver.Board.TakeFrame` | usr/sys/amiga/driver/hydra/hydra.c:1147-1246 | one turn, with frames arriving before every access to the board, takes exactly the first frame |
| `HydraDriver.Board.GiveBack` | usr/sys/amiga/driver/hydra/hydra.c:1237-1244 | next_pkt and then BNRY move on, with frames arriving in between |
| `HydraDriver.Board.Advance` | usr/sys/amiga/driver/hydra/hydra.c:1237-1244 | BNRY stays one ring page behind next_pkt |
| `HydraDriver.Board.ReceiveInterrupt` | usr/sys/amiga/driver/hydra/hydra.c:1107-1248 | for every interleaving of arrivals with the accesses of the loop to registers and memory: frames leave in the order in which they got in, the acceptable ones go up once each and byte for byte, the guard is never taken, and with no arrivals the ring is emptied |
| `Elf.SameImage` | usr/sys/amiga/boot/rel.c:385-445 | if no symbol that is used lies in an unbound section, compacting a file and loading the result gives exactly the memory image that loading the file directly does |
| `Elf.SameImageIffBound` | usr/sys/amiga/boot/rel.c:116-154 | of a file that the compactor accepts the direct loader resolves every relocation if and only if no used symbol lies in an unbound section |
| `Elf.EmptyRodataDiffers` | usr/sys/amiga/boot/elf2brel.c:338-340 | a file that the compactor accepts, with an empty .rodata that a relocation uses: the two images differ, unless the section would be at address 0 |
| `Elf.ConvertibleIffResolvable` | usr/sys/amiga/boot/elf2brel.c:381-411 | a relocation is resolved by the direct loader if and only if the compactor accepts it and the section of its symbol is bound |
| `Elf.SymbolsAgree` | usr/sys/amiga/boot/rel.c:156-228 | a symbol, COMMON ones and etext, edata and end included, has the same address either way if its section is bound, and otherwise only the compact way gives it one |
| `Elf.EndsAgree` | usr/sys/amiga/boot/elf2brel.c:325-336 | COMMON symbols are laid out alike (for where, see ElfLayout.CommonsApart), so both ends of .bss agree after any number of symbols |
| `Elf.AlignmentIsRelative` | usr/sys/amiga/boot/elf2brel.c:329-330 | aligning relative to the image agrees with aligning the address if and only if the bind address has that alignment |
| `ElfLayout.AlignUpIsLeast` | usr/sys/amiga/boot/elf2brel.c:329-330 | aligning gives the least multiple of the alignment that is not below |
| `ElfLayout.CommonsApart` | usr/sys/amiga/boot/elf2brel.c:325-336 | in the compact image every COMMON symbol lies at a multiple of its alignment, after .bss and before `end`, and no two overlap |
| `ElfLayout.CommonsApartInMemory` | usr/sys/amiga/boot/rel.c:164-190 | loaded directly they lie at the same places from the bind address on, aligned, apart, after .bss and before `end` |
| `ElfLayout.SymbolMeans` | usr/sys/amiga/boot/elf2brel.c:320-373 | every symbol stands for the place of its section in the image and its value there, etext, edata and end for the ends |
| `ElfLayout.ConvertibleMeans` | usr/sys/amiga/boot/elf2brel.c:381-411 | which relocations make the compactor give up |
| `ElfLayout.LoadedRight` | usr/sys/amiga/boot/rel.c:116-154 | whichever way a kernel is loaded, each word that is relocated holds the address of its symbol and the addend, most significant byte first, and every other byte is that of the file |
| `Elf.SectionAgrees` | usr/sys/amiga/boot/elf2brel.c:443-457 | the entries of a section relocate it inside the combined image as they do by itself |
| `Elf.FlagAndOffset` | usr/sys/amiga/boot/elf2brel.c:404-408 | the absolute flag and an offset below 2^31 do not disturb each other, also after the base is added |
| `Elf.LoadedInParts` | usr/sys/amiga/boot/rel.c:363-372 | loading with one table after another is loading with the joined table |
| `ElfTools.Converter.ProcessSymtab` | usr/sys/amiga/boot/elf2brel.c:310-373 | the table rewritten in place is the compacted symbol table |
| `ElfTools.Converter.LaySymbol` | usr/sys/amiga/boot/elf2brel.c:326-347 | one symbol made relative, or laid out at the end |
| `ElfTools.Converter.SetSpecial` | usr/sys/amiga/boot/elf2brel.c:350-365 | etext, edata and end |
| `ElfTools.Converter.DoRelEntry` | usr/sys/amiga/boot/elf2brel.c:381-411 | an entry is made, or refused, as the model says |
| `ElfTools.Converter.GenRelocTable` | usr/sys/amiga/boot/elf2brel.c:421-459 | the combined table; it gives up if and only if some relocation cannot be converted |
| `ElfTools.Converter.WriteFile` | usr/sys/amiga/boot/elf2brel.c:479-498 | the new file holds the three sections in a row and that table |
| `ElfTools.Converter.Convert` | usr/sys/amiga/boot/elf2brel.c:129-145 | the whole program |
| `ElfTools.CompactReloc` | usr/sys/amiga/boot/rel.c:348-374 | the compact loader, in place, is the loading of the model |
| `ElfTools.Loader.BindSections` | usr/sys/amiga/boot/rel.c:284-325 | section addresses in order |
| `ElfTools.Loader.AllocBss` | usr/sys/amiga/boot/rel.c:156-189 | COMMON symbols laid out in .bss |
| `ElfTools.Loader.SpecialSyms` | usr/sys/amiga/boot/rel.c:191-228 | etext, edata and end made absolute |
| `ElfTools.Loader.SymVaddr` | usr/sys/amiga/boot/rel.c:89-114 | the address of a symbol, or none |
| `ElfTools.Loader.RelocSection` | usr/sys/amiga/boot/rel.c:116-154 | a section relocated in place |
| `Lzw.RoundTrip` | usr/sys/amiga/boot/decompress.c:331-387 | on the codes of a greedy LZW encoder, with CLEARs anywhere, decoding gives back the text; this covers the code that is not yet in the table |
| `Lzw.PickIsUnderstood` | usr/sys/amiga/boot/decompress.c:348-355 | the encoder, one entry ahead, only picks codes that the decoder understands |
| `Lzw.LongestIsLongest` | usr/sys/amiga/boot/decompress.c:374-382 | the encoder picks the longest string that is known |
| `Decompress.ConsecutiveFields` | usr/sys/amiga/boot/decompress.c:405-481 | while the width stays, successive codes are the consecutive little-endian bit fields, across groups |
| `Decompress.CodeIsNextField` | usr/sys/amiga/boot/decompress.c:442-480 | each call gives the next field |
| `Decompress.FieldAt` | usr/sys/amiga/boot/decompress.c:449-478 | field i is bits i*n to i*n+n |
| `Decompress.FirstField` | usr/sys/amiga/boot/decompress.c:415-447 | the first code of a new group, at its new width |
| `Decompress.WidthChanges` | usr/sys/amiga/boot/decompress.c:421-434 | the width stays within 9 to maxbits, and changes only when the table has outgrown it, by one, or after CLEAR |
| `Packing.WidthIsLeast` | usr/sys/amiga/boot/decompress.c:421-434 | over every stream each code has just as many bits as the largest code that may come needs, at least 9 and at most maxbits |
| `Packing.FileUnpacks` | usr/sys/amiga/boot/decompress.c:405-481 | every sequence of codes a decoder can follow, packed into groups of its changing widths, is what the successive calls return: no code too few or too many |
| `Packing.DecompressesToText` | usr/sys/amiga/boot/decompress.c:265-392 | the whole round trip, from text over codes to bytes and back |
| `Decompressor.Link` | usr/sys/amiga/boot/decompress.c:359-363 | prefix chains strictly decrease and each link takes one byte off the string, whose length stays below the stack |
| `Decompressor.EntryMade` | usr/sys/amiga/boot/decompress.c:374-378 | a new entry keeps the tables right |
| `Decompressor.Decoder.GetCode` | usr/sys/amiga/boot/decompress.c:405-481 | the code and the reader state are those of the bit-field model |
| `Decompressor.Decoder.TakeBits` | usr/sys/amiga/boot/decompress.c:449-478 | the bits put together from up to three bytes |
| `Decompressor.Decoder.Refill` | usr/sys/amiga/boot/decompress.c:421-447 | a new group and its width |
| `Decompressor.Decoder.PushString` | usr/sys/amiga/boot/decompress.c:359-363 | the string of a code is stacked backwards without overflowing the table memory |
| `Decompressor.Decoder.Expand` | usr/sys/amiga/boot/decompress.c:351-370 | the string is put out, also for the code about to be entered |
| `Decompressor.Decoder.Enter` | usr/sys/amiga/boot/decompress.c:374-382 | the entry is made, and after CLEAR the stale one for 256 does no harm |
| `Decompressor.Decoder.Turn` | usr/sys/amiga/boot/decompress.c:337-383 | one turn of the loop |
| `Decompressor.Decoder.Run` | usr/sys/amiga/boot/decompress.c:331-387 | what is put out is what the codes of the input stand for |
| `As65.RelaxedIsShort` | usr/sys/amiga/driver/as65/main.c:23-35 | when relaxation ends, every operand that is still short has a one-byte value |
| `As65.RelaxedKeepsLabels` | usr/sys/amiga/driver/as65/symbol.c:113-124 | and every label still equals its segment base plus the sizes of the instructions before it |
| `As65.TurnDescends` | usr/sys/amiga/driver/as65/code.c:137-145 | lengthening an instruction leaves one fewer to lengthen, which is why the fixpoint is reached |
| `As65.LabelMoves` | usr/sys/amiga/driver/as65/symbol.c:119-123 | a label moves by one if and only if it lies beyond the instruction that grows |
| `As65.CheckFindsOverlaps` | usr/sys/amiga/driver/as65/seg.c:71-73 | on a sorted table the check of neighbours passes if and only if no two segments overlap |
| `As65.InstrInFile` | usr/sys/amiga/driver/as65/code.c:153-203 | in the linked file every instruction has its bytes at its own address |
| `As65.SegmentInFile` | usr/sys/amiga/driver/as65/main.c:45-52 | each segment lies at its base in the file |
| `As65.BranchReaches` | usr/sys/amiga/driver/as65/code.c:175-181 | a branch is emitted if and only if its displacement fits, and address plus signed displacement is the value of the operand |
| `As65.BranchLandsOnLabel` | usr/sys/amiga/driver/as65/code.c:175-181 | a branch to a label lands on the instruction before which the label stands |
| `As65.ShortIsEmitted` | usr/sys/amiga/driver/as65/code.c:167-173 | an operand that stayed short is emitted without complaint |
| `As65File.LinkedFileIsRight` | usr/sys/amiga/driver/as65/main.c:12-20 | the file that is written, for whatever order qsort leaves: at the address of every instruction its opcode and its operand, low byte first, and a one-byte operand only for a value that fits; every branch to a label landing where the label stands; zeros between the segments and nothing after them |
| `As65File.EmittedSpells` | usr/sys/amiga/driver/as65/code.c:153-203 | what is put out for an instruction is its opcode and the value of its operand |
| `As65File.EmittedIffEncodable` | usr/sys/amiga/driver/as65/code.c:167-195 | it is put out if and only if its operand has a value that fits it, signed or unsigned |
| `As65File.RelaxedKeepsCode` | usr/sys/amiga/driver/as65/code.c:137-145 | relaxation changes only operands that may be short or long, and gives their instructions the other opcode |
| `As65File.RelaxedByNeed` | usr/sys/amiga/driver/as65/code.c:137-145 | no operand becomes long whose value, with the labels as they then are, fits a byte |
| `As65File.SucceedsIffAssembles` | usr/sys/amiga/driver/as65/main.c:12-20 | with the segments sorted, assembling succeeds if and only if after relaxation no two segments overlap and every instruction can be put out |
| `As65File.DifferenceOrders` | usr/sys/amiga/driver/as65/seg.c:98-106 | compseg compares rightly if and only if the numbers are less than half the address space apart |
| `Expr.EvaluateIsMeaning` | usr/sys/amiga/driver/as65/expr.c:73-121 | the stack machine computes what an expression means if and only if that needs no more than five values on the stack, and the stack is overrun if and only if it needs more and nothing stops it before |
| `Expr.PostfixDoes` | usr/sys/amiga/driver/as65/expr.c:80-121 | every subexpression pushes its value, if there is room for what it needs |
| `Expr.BufferIsNoGuard` | usr/sys/amiga/driver/as65/expr.c:34-54 | 1+(2+(3+(4+(5+6)))) fits the buffer of 20 and overruns the stack of five |
| `Expr.NeedIsHalf` | usr/sys/amiga/driver/as65/expr.c:73-121 | up to nine tokens cannot overrun the stack |
| `Expr.CalculateIsValue` | usr/sys/amiga/driver/as65/expr.c:83-110 | the operations are those of unsigned 32-bit words |
| `Expr.Buffer.Parse` | usr/sys/amiga/driver/as65/as65.proto:63-83 | an expression is taken if and only if its tokens and the end mark fit the buffer |
| `Expr.EvaluateInPlace` | usr/sys/amiga/driver/as65/expr.c:73-121 | the loop on an array of five is that machine |
| `Assembler.Backend.LongCheck` | usr/sys/amiga/driver/as65/main.c:23-35 | the rounds in place reach the fixpoint, if they come to no operand without a value |
| `Assembler.Backend.Expand` | usr/sys/amiga/driver/as65/code.c:127-150 | the loop over a segment |
| `Assembler.Backend.ExpandInstr` | usr/sys/amiga/driver/as65/code.c:137-147 | an instruction is lengthened if and only if its value is more than 255 |
| `Assembler.Backend.Adjust` | usr/sys/amiga/driver/as65/symbol.c:113-124 | labels beyond an address move |
| `Assembler.Backend.Define` | usr/sys/amiga/driver/as65/symbol.c:62-92 | a label for what comes next |
| `Assembler.Backend.NewInstr` | usr/sys/amiga/driver/as65/code.c:207-224 | an instruction is appended, and labels keep their places |
| `Assembler.Backend.SegSelect` | usr/sys/amiga/driver/as65/seg.c:50-60 | selecting a segment changes nothing in the program |
| `Assembler.Backend.SegCreate` | usr/sys/amiga/driver/as65/seg.c:33-46 | a new segment, if there is room |
| `Assembler.Backend.SegCheck` | usr/sys/amiga/driver/as65/seg.c:64-74 | the table is sorted and checked |
| `Assembler.Backend.Assemble` | usr/sys/amiga/driver/as65/main.c:12-20 | if it succeeds the file is right; and it succeeds if and only if the program can be assembled, if its segments lie in the lower half of the address space |
| `Assembler.Backend.Emit` | usr/sys/amiga/driver/as65/code.c:153-203 | the bytes of a segment |
| `Assembler.Backend.EmitInstr` | usr/sys/amiga/driver/as65/code.c:161-200 | the bytes of an instruction, or a complaint |
| `Assembler.Backend.Link` | usr/sys/amiga/driver/as65/main.c:39-53 | the whole file |
| `Mfm.StreamObeysRule` | usr/sys/amiga/floppy/flopf.h:48-49 | a clock bit is 1 if and only if both neighbouring data bits are 0, from the data bit before the stream on |
| `Mfm.SyncBreaksRule` | usr/sys/amiga/floppy/flopf.h:34-35 | no stream that obeys the rule contains 0x4489 at any bit offset |
| `Mfm.StreamConcat` | usr/sys/amiga/floppy/flopf.h:42-49 | streams join: the rule holds across the seam |
| `Mfm.DataOfStream` | usr/sys/amiga/floppy/flopf.h:42-49 | the data bits come out of the stream again |
| `AmigaFloppy.Track.Encode` | usr/sys/amiga/floppy/flopf.c:452-491 | the words written, with the patched first word of the even half, are the stream of the odd and then the even bits, after any previous bit |
| `AmigaFloppy.Track.PutSlop` | usr/sys/amiga/floppy/flopf.c:267-282 | the slop is a stream of zeros |
| `AmigaFloppy.Track.PutMagic` | usr/sys/amiga/floppy/flopf.c:319-330 | the key: zeros that obey the rule after the last bit, then two sync words |
| `AmigaFloppy.Track.PutSec` | usr/sys/amiga/floppy/flopf.c:290-312 | a sector is its key and one stream of its five fields |
| `AmigaFloppy.Track.Header` | usr/sys/amiga/floppy/flopf.c:298-305 | the fields, with both checksums |
| `AmigaFloppy.Chksum` | usr/sys/amiga/floppy/flopf.c:494-508 | the checksum is the folded exclusive or of all words |
| `AmigaFloppy.ChecksumDetects` | usr/sys/amiga/floppy/flopf.c:494-508 | an error in one word is noticed if and only if it does not flip both bits of every pair it touches |
| `AmigaFloppy.Decode` | usr/sys/amiga/floppy/flopf.c:419-440 | the decoder takes the data bits of any stretch at any bit alignment |
| `AmigaFloppy.DecodeUndoesEncode` | usr/sys/amiga/floppy/flopf.c:419-491 | decoding undoes encoding, for every block, previous bit and alignment |
| `AmigaFloppy.FieldInStream` | usr/sys/amiga/floppy/flopf.c:178-182 | a field inside a longer stream decodes to its block |
| `AmigaFloppy.GetHdr` | usr/sys/amiga/floppy/flopf.c:162-194 | a header is accepted if and only if key, values, checksum and track are right |
| `AmigaFloppy.SectorRoundTrip` | usr/sys/amiga/floppy/flopf.c:290-312 | what putsec wrote is accepted at any bit alignment and gives its data back |
| `AmigaTrack.RowsRight` | usr/sys/amiga/floppy/flopf.c:350-375 | each of the sixteen rows of the tables is the sync pattern for its shift, and its mask leaves out what follows |
| `AmigaTrack.Find` | usr/sys/amiga/floppy/flopf.c:343-412 | the search finds the first key after a word, whatever its bit alignment, or nothing if there is none |
| `AmigaTrack.KeyUnique` | usr/sys/amiga/floppy/flopf.c:402-409 | only one row can match |
| `AmigaTrack.KeyHasSync` | usr/sys/amiga/floppy/flopf.c:402-409 | what is found ends in two sync words |
| `AmigaTrack.FindsKey` | usr/sys/amiga/floppy/flopf.c:343-412 | the key of a sector is found at every alignment, if nothing before it holds a pair of sync words |
| `AmigaTrack.RuleIsQuiet` | usr/sys/amiga/floppy/flopf.h:34-35 | bits that obey the clock rule hold no such pair, nor one that overlaps the key |
| `AmigaTrack.Get` | usr/sys/amiga/floppy/flopf.c:115-156 | TRUE if and only if the sectors could be taken one after the other, and then every sector is in its place in the buffer |
| `AmigaTrack.SeenEverySectorOnce` | usr/sys/amiga/floppy/flopf.c:129-155 | success means each of the eleven sectors once, from places that do not overlap, each with right header and data checksums |
| `AmigaTrack.TrackRoundTrip` | usr/sys/amiga/floppy/flopf.c:115-156 | a track whose sectors lie as they were written, at any alignment, from any sector on and with any gap, is read, and the data are what was written |
| `AmigaTrack.PutTrack` | usr/sys/amiga/floppy/flopf.c:222-231 | a track is written as slop, the eleven sectors in order, and one more word of slop after the last data bit |
| `Crc.RegisterIsRemainder` | usr/sys/amiga/floppy/flopf.dos.c:444-468 | the check is the remainder of the message over 16 zero bits, its first 16 bits inverted, divided by 0x11021 |
| `Crc.FeedDivides` | usr/sys/amiga/floppy/flopf.dos.c:462-466 | one register step per bit is that division |
| `Crc.ConstantIs0x11021` | usr/sys/amiga/floppy/flopf.dos.c:486-490 | the generator is the constant in the code |
| `Crc.LookupIsEightSteps` | usr/sys/amiga/floppy/flopf.dos.c:463-465 | one table look-up does eight steps |
| `Crc.CrcTurn` | usr/sys/amiga/floppy/flopf.dos.c:463-465 | one turn of the loop, on the two halves |
| `Crc.StoredCheckGivesZero` | usr/sys/amiga/floppy/flopf.dos.c:677-685 | a block followed by two bytes has residue 0 if and only if they are its check |
| `Crc.BurstChangesRegister` | usr/sys/amiga/floppy/flopf.dos.c:444-468 | any change within 16 consecutive bits changes the check |
| `Crc.CorruptionIsDetected` | usr/sys/amiga/floppy/flopf.dos.c:444-468 | any corruption of two adjacent bytes of a block of any length does |
| `Crc.CorruptedBlockIsRejected` | usr/sys/amiga/floppy/flopf.dos.c:235-265 | a stored block changed in two adjacent bytes is accepted if and only if they are unchanged |
| `Crc.Entry` | usr/sys/amiga/floppy/flopf.dos.c:484-491 | a table entry is the remainder of its byte |
| `Crc.MakeCrc` | usr/sys/amiga/floppy/flopf.dos.c:475-495 | both tables, all 256 entries |
| `Crc.CrcOf` | usr/sys/amiga/floppy/flopf.dos.c:444-468 | the loop over the tables gives the check |
| `DosFloppy.Entry` | usr/sys/amiga/floppy/flopf.dos.c:736-752 | an entry of the encoding table |
| `DosFloppy.EncodedIsStream` | usr/sys/amiga/floppy/flopf.dos.c:698-720 | the encoded words, with the previous word settled, are the stream that obeys the clock rule |
| `DosFloppy.EncodedWordsSnoc` | usr/sys/amiga/floppy/flopf.dos.c:711-719 | a further byte settles the last clock bit of the word before it |
| `DosFloppy.Track.Encode` | usr/sys/amiga/floppy/flopf.dos.c:698-720 | the encoder, in place, appends exactly those words |
| `DosFloppy.Track.Repeat` | usr/sys/amiga/floppy/flopf.dos.c:760-778 | mfmrep leaves exactly the words that mfm leaves for that many copies |
| `DosFloppy.Track.Copy` | usr/sys/amiga/floppy/flopf.dos.c:785-797 | encoded words are pasted and the word before them settled |
| `DosFloppy.Track.PutField` | usr/sys/amiga/floppy/flopf.dos.c:673-687 | a field is its mark, its bytes and their check |
| `DosFloppy.StripEntry` | usr/sys/amiga/floppy/flopf.dos.c:425-437 | both tables of the decoder |
| `DosFloppy.StripsJoin` | usr/sys/amiga/floppy/flopf.dos.c:392-393 | two look-ups give the data byte of a word |
| `DosFloppy.FlatIsRecorded` | usr/sys/amiga/floppy/flopf.dos.c:696-720 | what was written can be found on the track, whatever its last clock bit became |
| `DosFloppy.DecodeUndoesEncode` | usr/sys/amiga/floppy/flopf.dos.c:369-409 | decoding undoes encoding for every string of bytes and every bit position |
| `DosFloppy.FieldRoundTrip` | usr/sys/amiga/floppy/flopf.dos.c:227-266 | a field that was written is read back at every alignment and passes the check |
| `DosFloppy.Reader.Strip` | usr/sys/amiga/floppy/flopf.dos.c:369-409 | the decoder gives the bytes at any alignment, unless too few words are left |
| `DosFloppy.Reader.ReadField` | usr/sys/amiga/floppy/flopf.dos.c:236-265 | a field is accepted if and only if it is there and its check is right |
| `TrackCache.RunRefines` | usr/sys/amiga/floppy/flop.c:549-741 | after every run, cache over disk is what a plain disk would be with everything applied to it |
| `TrackCache.FlushAfterRun` | usr/sys/amiga/floppy/flop.c:624-642 | and a flush then leaves just that on the physical disk of the drive |
| `TrackCache.ReadIsPlain` | usr/sys/amiga/floppy/flop.c:664-692 | a read gives the block a plain disk would give, and changes nothing that can be read |
| `TrackCache.WriteIsPlain` | usr/sys/amiga/floppy/flop.c:695-723 | a write puts its block in its place and changes nothing else; one that fails changes nothing |
| `TrackCache.FormatIsPlain` | usr/sys/amiga/floppy/flop.c:726-741 | formatting clears the track first if and only if the block is its first and the track is not cached |
| `TrackCache.FormattedTrack` | usr/sys/amiga/floppy/flop.c:726-741 | a track formatted block by block is what was asked for although it cannot be read, and no other track changes |
| `TrackCache.FlushMakesPhysical` | usr/sys/amiga/floppy/flop.c:624-642 | after a flush the drive has nothing cached, its disk is what a reader saw, other drives keep their cache |
| `TrackCache.FoundKeepsLogical` | usr/sys/amiga/floppy/flop.c:549-613 | bringing a track in, and putting another out, changes no track that can be read, even when the read fails |
| `TrackCache.EvictsLeastRecent` | usr/sys/amiga/floppy/flop.c:567-594 | after every run the track that goes out next is the one used longest ago |
| `TrackCache.HoldsMostRecent` | usr/sys/amiga/floppy/flop.c:567-594 | as long as tracks can be read and nothing is flushed, the cache holds the tracks used most recently, as many as there is room for |
| `TrackCache.RunKeepsOrder` | usr/sys/amiga/floppy/flop.c:567-586 | the list is in order of last use |
| `TrackCache.SameTrackInOrder` | usr/sys/amiga/floppy/flop.c:474-499 | getnext lets no request overtake one that begins on the same track |
| `TrackCache.SingleBlocksInOrder` | usr/sys/amiga/floppy/flop.c:474-499 | and no single-block request overtakes one that it overlaps |
| `TrackCache.OvertakesIff` | usr/sys/amiga/floppy/flop.c:474-499 | over all states of the cache and all queues, one request can overtake another if and only if it begins on a different track that the drive has |
| `TrackCache.OverlapCanBeOvertaken` | usr/sys/amiga/floppy/flop.c:474-499 | so of any two that overlap the later can overtake the earlier if and only if they begin on different tracks; and there are two that do |
| `TrackCache.OneTrackInOrder` | usr/sys/amiga/floppy/flop.c:474-499 | requests that keep to one track each, and overlap, never do |
| `TrackCache.OvertakenNow` | usr/sys/amiga/floppy/flop.c:482-492 | of two requests the later is chosen if and only if its track is cached and the other one is not |
| `TrackBuffers.Floppies.Search` | usr/sys/amiga/floppy/flop.c:567-582 | the search of the list |
| `TrackBuffers.Floppies.FindTrack` | usr/sys/amiga/floppy/flop.c:549-613 | the list and the disk after findtrk are those of the model |
| `TrackBuffers.Floppies.Refill` | usr/sys/amiga/floppy/flop.c:595-612 | the buffer in front gets the track, or zeros |
| `TrackBuffers.Floppies.Flush` | usr/sys/amiga/floppy/flop.c:624-642 | the loop over the list |
| `TrackBuffers.Floppies.ReadBlock` | usr/sys/amiga/floppy/flop.c:664-692 | a read in place |
| `TrackBuffers.Floppies.WriteBlock` | usr/sys/amiga/floppy/flop.c:695-723 | a write in place |
| `TrackBuffers.Floppies.FormatBlock` | usr/sys/amiga/floppy/flop.c:726-741 | a format in place |
| `TrackBuffers.Floppies.RunRead` | usr/sys/amiga/floppy/flop.c:456-462 | a request to read gives the blocks a plain disk would, up to the first that is not to be had |
| `TrackBuffers.Floppies.GetNext` | usr/sys/amiga/floppy/flop.c:474-499 | the request chosen leaves the queue, the others stay in order |
| `Console.Bitmap.CopyLines` | usr/sys/amiga/console/c1.c:619-680 | a copy of lines in the circular bitmap is a simultaneous copy of virtual lines, for every offset, direction and wrap |
| `Console.Bitmap.InsertLines` | usr/sys/amiga/console/c1.c:683-698 | refines insertion of blank lines in a plain sequence of lines, rotated or copied |
| `Console.Bitmap.DeleteLines` | usr/sys/amiga/console/c1.c:701-715 | refines deletion |
| `Console.Bitmap.ClearLines` | usr/sys/amiga/console/c1.c:721-737 | the lines of the screen become blank, across the wrap |
| `Console.Bitmap.MoveDown` | usr/sys/amiga/console/c1.c:872-904 | the descending, partly four-byte move copies overlapping memory rightly |
| `Console.Bitmap.CopyUpChunk` | usr/sys/amiga/console/c1.c:643-651 | a chunk that does not wrap, towards the top |
| `Console.Bitmap.CopyDownChunk` | usr/sys/amiga/console/c1.c:655-677 | a chunk that does not wrap, towards the bottom |
| `Console.UpwardParts` | usr/sys/amiga/console/c1.c:641-652 | parts copied towards the top make up the simultaneous copy |
| `Console.DownwardParts` | usr/sys/amiga/console/c1.c:653-678 | and those copied towards the bottom |
| `Console.ChunkIsVirtual` | usr/sys/amiga/console/c1.c:631-639 | a physical chunk is a virtual one |
| `Console.CopyBytesIsCopyRows` | usr/sys/amiga/console/c1.c:646-648 | a copy of bytes is a copy of lines |
| `Console.DeleteUndoesInsert` | usr/sys/amiga/console/c1.c:683-715 | deleting undoes inserting, except for the lines pushed off the bottom |
| `Console.RotateBackInserts` | usr/sys/amiga/console/c1.c:692-697 | moving the offset back inserts at the top |
| `Console.RotateOnDeletes` | usr/sys/amiga/console/c1.c:710-714 | moving it on deletes there |
| `Console.CopyThenClearInserts` | usr/sys/amiga/console/c1.c:687-697 | copying and clearing inserts |
| `Console.CopyThenClearDeletes` | usr/sys/amiga/console/c1.c:705-714 | copying and clearing deletes |
| `Slip.FramingIsLossless` | usr/sys/amiga/driver/slip.c:464-749 | a list of packets, encoded and delivered in any chunking, arrives as that list if and only if each has 1 to SLIP_MAX bytes |
| `Slip.ChunkingIsIrrelevant` | usr/sys/amiga/driver/slip.c:658-749 | cutting the bytes into messages anywhere makes no difference |
| `Slip.FrameRoundTrip` | usr/sys/amiga/driver/slip.c:464-488 | one frame delivers one packet and leaves the decoder where it was |
| `Slip.StreamRoundTrip` | usr/sys/amiga/driver/slip.c:464-749 | so do many, and a packet that is too long leaves its tail |
| `Slip.EncodedSize` | usr/sys/amiga/driver/slip.c:466-487 | n bytes become at most 2n, and exactly 2n if and only if all of them are special |
| `Slip.FrameFitsBlock` | usr/sys/amiga/driver/slip.c:456-457 | the frame fits the output block if and only if the packet is not SLIP_MAX special bytes |
| `Slip.Resynchronises` | usr/sys/amiga/driver/slip.c:666-712 | after any noise an END and a frame deliver its packet last, if and only if no escape is pending or the first byte is not a transposed code |
| `Slip.BodyHasNoEnd` | usr/sys/amiga/driver/slip.c:468-486 | no body contains an END |
| `Slip.FramesMerge` | usr/sys/amiga/driver/slip.c:666-695 | a frame whose end comes while there is no room upstream becomes one packet with the frame after it |
| `Slip.FrameLost` | usr/sys/amiga/driver/slip.c:666-695 | without memory for the packet or its header just that frame is lost |
| `Slip.Transmit` | usr/sys/amiga/driver/slip.c:464-488 | the encoder over a chain of blocks |
| `Slip.SlipDevice.Receive` | usr/sys/amiga/driver/slip.c:658-749 | the decoder, in place, with flow control and failed allocations |
| `MainMemory.MemoryMap.Configure` | usr/sys/amiga/kernel/support.c:254-278 | the loop ends, keeps the found range inside one run of touching regions, and ends with a maximal one |
| `MainMemory.SettledIsMaximal` | usr/sys/amiga/kernel/support.c:260-278 | a range on which the loop stops contains every run around end |
| `MainMemory.SettledIsOrderIndependent` | usr/sys/amiga/kernel/support.c:260-278 | so it does not depend on the order of the table |

## Left out

- Device registers, delays, interrupt priorities, sleep and wakeup, timeouts, STREAMS messages, ioctl and printing: their results are inputs of the steps, and allocation, I/O and flow control succeed or fail as those inputs say.
- SCSI: the command bytes and the registers that only tell the chip about the unit; a target that reselects is taken to be one that has disconnected, and status codes to be below 0x90.
- Scsi.DmaStaysInside: assumes that the chip's transfer counter only counts down, because the driver believes whatever it reads back.
- Tape: `ctopen` and `ctclose` are modelled only as far as they set the state; reports are not printed; a buffer that is given back is not queued again from within `iodone`.
- Kdb.AcceptedIsComputed: parts of a reply that the command does not set keep older data in the code; the model has only the part that is set.
- KDB: the prompt on the console, what a stop reports as its reason, the copying of registers and the `/proc` view of the target in `rkdb.c`.
- Hydra: the way out of a ring that is not well formed (it breaks the relation of BNRY to `next_pkt`; `HydraDriver.Board.TakeFrame` shows that it is not taken), statistics, transmission, probing, and the DLPI header of a packet.
- HydraDriver.Board.ReceiveInterrupt: the driver's accesses are taken to be atomic, and a partly stored frame to touch only the pages it will take.
- ELF: finding sections and headers, files that are already executable, COMMON alignments that are not powers of two; what `specialsyms` reads where there is no `.text` or `.data` header is taken to be no address; without a `.rodata` section the number of its relocations, which the program leaves unset, is taken to be 0.
- ElfLayout.CommonsApart: of layouts that end below 2^32.
- Elf.SameImage: of files with at most 2^31 bytes of image, relocations inside their sections, and a `.bss` and an aligned bind address if there are COMMON symbols.
- LZW: the header and its magic number, the buffers around input and output, and files whose codes no decoder could follow; the encoder is not in the repository, so `Lzw.Encoded` and `Packing.Packed` are the format as the decompressor understands it.
- as65: lexer and statements; where an operand has no value (an undefined symbol, a division by 0, a shift by more than 31, a sixth value on the stack) the program croaks or does something undefined, and the model fails; addresses of 2^32 and more.
- Assembler.Backend.QSort: an insertion sort stands for the library's qsort; all that is used of it is that it permutes, and sorts where compseg is an order.
- Assembler.Backend.SegCreate: the segment's base arrives as a number, already evaluated.
- AmigaTrack.TrackRoundTrip: about what the head has read; which bits of a revolution end up in the buffer depends on the drive and is the lemma's hypothesis.
- DosFloppy.Reader.ReadField: starts where `search` has found a mark; the search itself (`search`, `checkeq`) and the loop over a whole MS-DOS track are not modelled.
- Floppy drives: motors, seeking, recalibration and the retries around a track.
- TrackCache.RunRefines: reads of a track may fail, writes of a track do not (the code ignores their errors); a drive keeps one format.
- TrackBuffers.Floppies.RunRead: `rundevice` for requests to read; requests to write and to format differ in the function called.  The ageing of cached drives by `slave` is any flush at any time.
- Console: moves of characters within a line (`insertbits`, `deletebits`), drawing, and the copper list.
- MainMemory.MemoryMap.Configure: without the QUICK_KLUDGE after the loop, which replaces an empty result.
