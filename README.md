# JOS network path, kernel monitor and copy-on-write fork in Dafny

This project models part of the JOS teaching kernel and proves properties about it. The models cover:

- **The E1000 network card driver** (`kern/e1000.c`, module `E1000`):
  - a transmit ring and a receive ring of hardware descriptors;
  - each descriptor is bound to its own packet buffer;
  - one software cursor per ring (`tdr_tail`, `rdr_tail`);
  - the card's register file.

  `Nic` is a class whose methods update the rings, the buffers, the cursors and the registers in place, as the C code does. The card is not a concurrent actor here. Its actions are two methods that a caller interleaves with the driver's calls:
  - `DeviceCompleteTx` marks a sent descriptor done;
  - `DeviceFillRx` stores an incoming frame.
- **The two network pumps** (`net/input.c` and `net/output.c`, modules `NetInput` and `NetOutput`). Each is one pass of its endless loop.
  - The input pump receives a frame, retrying while the receive ring is empty. It copies the frame into one of two request pages, sends that page to the network server, and switches pages.
  - The output pump takes a request page from the network server and refuses, by panicking, a page from anyone else or with the wrong tag. It then transmits the frame, retrying while the transmit ring is full.
  - Each `sys_yield` is the point at which the card acts, given as a sequence of card activities.
- **The kernel monitor's command interpreter** (`kern/monitor.c`, module `Monitor`):
  - the in-place tokenizer of `runcmd`, on an `array<char>`;
  - the table lookup and dispatch;
  - the monitor loop's exit rule;
  - the argument checks and page-table update of `setpermbits`;
  - the argument checks, rounding and listing loop of `showmappings`.
- **User-level copy-on-write fork** (`lib/fork.c`, module `Fork`):
  - the `pgfault` guard and the three calls that give a process its own copy of a faulting page;
  - the permission policy of `duppage`;
  - the walk of `fork` over the user address space and the values `fork` returns.

  The system calls are recorded as a trace of `Syscall` values. What the kernel answers to each call is a function parameter `sys`.

Shared pieces live in small modules:
- `Outcomes` holds a value-or-panic result and `Option`.
- `Bits` holds the C bit test and 32-bit conversions.
- `Mmu` holds the page size, the PTE bits, `ROUNDDOWN`, `PGNUM` and `PDX`.
- `Ns` holds the IPC tags and the request-page size.

The header `kern/e1000.h` is not part of this model. Ring sizes, the packet buffer size, the multicast table size, every register bit, both error numbers and `PADDR` are fields of `E1000.Config`. `Config.Valid` constrains them as follows:
- both rings are non-empty and hold fewer than 2^28 descriptors, so a ring's byte size fits its 32-bit length register;
- a packet buffer is non-empty and fits the 16-bit descriptor length field;
- the transmit DD mask is non-zero and lies within the 8-bit status byte (0 < `E1000_TXD_STAT_DD` < 0x100), and the receive DD mask is non-zero;
- both error numbers are positive;
- `PADDR` is injective on the objects the driver programs into the card.

The comment at `kern/e1000.c:62` states what the ring-full test of `tx_send_packet` is for: a descriptor with RS set has been used before, so the driver must check whether it is free. The card reports that a descriptor is free by setting DD in its status byte. The code reads DD from the command byte instead (`kern/e1000.c:63-65`), so the test never sees the card's report (see Findings).
- `E1000.Nic.SendPacket` models the code as written.
- `E1000.TxBusy` is the test the comment describes, and `E1000.Nic.SendPacketChecked` uses it.
- The output pump is composed with `SendPacketChecked` (see "Left out").
- `tx_send_packet` has no step that reclaims completed slots beyond this test.

## Model

| member | source | states |
|---|---|---|
| `Bits.ToUint32` | kern/monitor.c:99 | a `(uint32_t)` conversion yields a value below 2^32 that is congruent to the input modulo 2^32 |
| `Bits.ToInt32` | kern/monitor.c:94-103 | a `uint32_t` stored into an `int` lies in the signed 32-bit range and converts back to the same unsigned value |
| `Mmu.RoundDown` | lib/fork.c:37 | `ROUNDDOWN(a, PGSIZE)` is page aligned and is the start of the page that contains `a` |
| `Mmu.PageNumber` | lib/fork.c:119 | `PGNUM(a)` is the page whose byte range contains `a` |
| `Mmu.DirIndex` | lib/fork.c:119 | `PDX(a)` is the directory entry whose 4 MB range contains `a` |
| `E1000.TipgFields` | kern/e1000.c:51-53 | the TIPG value built from IPGT, IPGR1 and IPGR2 gives each gap back from its own 10-bit field, and the top two bits stay clear |
| `E1000.ClearMta` | kern/e1000.c:90-91 | after clearing the multicast table, its first `NMTAENTRIES` words are 0, every other register keeps its value, and no other register appears |
| `E1000.WriteTxDesc` | kern/e1000.c:69-70 | the descriptor written for a frame holds the frame length in its length field and the command byte of `RS` and `EOP`; its buffer binding and status word are kept |
| `E1000.MarkTxDone` | kern/e1000.c:62-65 | the card's completion sets DD in the status byte and keeps the binding, command and length |
| `E1000.TxGuardIgnoresCompletion` | kern/e1000.c:63-65 | as written, the ring-full verdict on a descriptor is the same before and after the card marks it done |
| `E1000.SentSlotNeverFull` | kern/e1000.c:63-70 | as written, a descriptor that a send just wrote is never seen as full, under either usual definition of the command bits |
| `E1000.WriteTxDescChecked` | kern/e1000.c:69-70 | the corrected write leaves DD clear in the status byte and is otherwise the write as coded |
| `E1000.CheckedWriteKeepsOtherStatus` | kern/e1000.c:69-70 | the corrected write changes no status bit other than DD |
| `E1000.SubmittedIsBusy` | kern/e1000.c:62-70 | with the corrected test, a freshly submitted descriptor is busy |
| `E1000.CompletedIsFree` | kern/e1000.c:62-65 | with the corrected test, a descriptor the card marked done is free, and so is a never-used one |
| `E1000.ClearRxDone` | kern/e1000.c:114 | handing a receive slot back clears DD and keeps every other status bit and field |
| `E1000.FillRx` | kern/e1000.c:106-111 | a frame stored by the card sets DD and the declared length and changes no other field |
| `E1000.FillThenClear` | kern/e1000.c:106-116 | a slot the card fills is seen as done; once the driver hands it back it is not done, and it keeps its binding and length |
| `E1000.CopyToRow` | kern/e1000.c:68 | `memcpy` into a packet buffer writes the first `n` bytes of the frame into that buffer and changes no other byte |
| `E1000.CopyFromRow` | kern/e1000.c:111 | `memcpy` out of a packet buffer gives the caller the first `n` bytes of that buffer and keeps the rest of the caller's buffer |
| `E1000.Nic.TxBindingsDistinct` | kern/e1000.c:39-41 | after `tx_init`, two distinct transmit descriptors designate distinct packet buffers |
| `E1000.Nic.RxBindingsDistinct` | kern/e1000.c:81-82 | after `rx_init`, two distinct receive descriptors designate distinct packet buffers |
| `E1000.Nic.constructor` | kern/e1000.c:8-17 | the static rings start zero-filled with both cursors at 0, and no slot is seen as full |
| `E1000.Nic.TxInit` | kern/e1000.c:37-54 | `tx_init` binds every transmit descriptor to its buffer, zeroes the cursor, and writes exactly the listed transmit registers with their values |
| `E1000.Nic.BindTxRing` | kern/e1000.c:39-41 | every transmit descriptor gets its own buffer's address and nothing else changes |
| `E1000.Nic.SendPacket` | kern/e1000.c:57-76 | as written, `tx_send_packet` panics on an oversized frame, returns `-E_TXDR_FULL` and changes nothing when its test says full, and otherwise submits the frame at the cursor and advances the cursor modulo the ring size |
| `E1000.Nic.SendPacketChecked` | kern/e1000.c:57-76 | the same operation with the intended busy test: the ring-full result exactly when the cursor's slot is submitted and not done |
| `E1000.Nic.Submit` | kern/e1000.c:68-75 | the frame is in the cursor's buffer and no other byte changed; the slot holds the new descriptor; the cursor moved on modulo the ring size and TDT shows it |
| `E1000.Nic.RxInit` | kern/e1000.c:79-100 | `rx_init` binds every receive descriptor, puts the cursor on the last slot, and writes the station address, a cleared multicast table and the receive registers with their values |
| `E1000.Nic.BindRxRing` | kern/e1000.c:81-82 | every receive descriptor gets its own buffer's address and nothing else changes |
| `E1000.Nic.ClearMulticastTable` | kern/e1000.c:90-91 | the loop leaves the register file that `ClearMta` describes |
| `E1000.Nic.RecvPacket` | kern/e1000.c:103-117 | only the slot after the cursor is examined; without DD it returns `-E_RXDR_EMPTY` and changes nothing, otherwise it delivers that slot's frame |
| `E1000.Nic.Deliver` | kern/e1000.c:110-116 | the cursor moves to the slot and RDT shows it; the caller's buffer receives exactly the declared length; DD is cleared; the length is returned |
| `E1000.Nic.DeviceCompleteTx` | kern/e1000.c:63-64 | the card marks one transmit slot done; as written, this never makes a slot look full |
| `E1000.Nic.DeviceFillRx` | kern/e1000.c:106-111 | the card stores a frame in one receive slot's buffer and sets its length and DD; every other slot and byte is kept |
| `NetInput.FlipLowBit` | net/input.c:30 | `s ^= 1` flips the page index between 0 and 1 |
| `NetInput.InputPump.constructor` | net/input.c:15-17 | the pump starts with page 0 and nothing sent |
| `NetInput.InputPump.PageInRange` | net/input.c:16-30 | the page index is always 0 or 1 |
| `NetInput.InputPump.ConsecutiveSendsAlternate` | net/input.c:29-30 | two consecutive sends hand over different request pages, each to the network server with tag `NSREQ_INPUT` and permissions `PTE_P` and `PTE_U` |
| `NetInput.InputPump.ReceiveRetrying` | net/input.c:22-23 | receives until the result is not negative: a frame already waiting in the slot after the cursor is received at once, and a negative result means the card stored nothing in that slot during any yield and the slot is still not done, with the cursor and registers unchanged; a non-negative result is exactly the frame of the slot after the old cursor, and the cursor moved exactly one slot on, so no frame is skipped |
| `NetInput.InputPump.Pass` | net/input.c:25-30 | the length and bytes go into page `s` only, that page is sent, and `s` flips |
| `NetInput.InputPump.Step` | net/input.c:19-31 | one pass: a failed receive means no frame was waiting or stored in the awaited slot, and writes and sends nothing and leaves the receive cursor and registers alone; a received frame is the one in the slot after the old cursor, the cursor moves one slot on, the frame goes into page `s`, that page is sent, and the pump switches pages |
| `NetOutput.SizeT` | net/output.c:27 | `jp_len` passed as a 32-bit `size_t` keeps a non-negative length, and a negative one becomes at least 2^31 |
| `NetOutput.OutputPump.constructor` | net/output.c:3-12 | the pump starts with the network server's id and an empty request page |
| `NetOutput.OutputPump.Send` | net/output.c:27 | one transmit attempt panics on an oversized frame; an in-range frame is queued exactly when the cursor's slot is not busy, at the cursor with every other descriptor's command, length and buffer kept, and is refused as ring full with nothing queued exactly when that slot is busy |
| `NetOutput.OutputPump.Retry` | net/output.c:27-28 | after a yield in which the card may complete a slot, the same frame is tried again with the same two outcomes; when the card completed the cursor's slot, the retry is accepted |
| `NetOutput.OutputPump.SendRetrying` | net/output.c:27-28 | the same bytes and length are retried while the ring is full: an in-range frame never panics, is accepted at once when the cursor's slot is free, and ends ring full only if the card completed the cursor's slot during no yield; a negative length wraps to an oversized one and panics |
| `NetOutput.OutputPump.Step` | net/output.c:14-28 | a failed `ipc_recv`, a foreign sender or a wrong tag panics without touching the card; an accepted in-range frame never panics, is sent at once when the cursor's slot is free, and ends ring full only if the card completed the cursor's slot during no yield |
| `Monitor.CString` | kern/monitor.c:229-241 | the C string at `i` is the longest NUL-free run from `i`, ended by a NUL in a terminated buffer |
| `Monitor.LineOfTerminated` | kern/monitor.c:268-270 | a line read without NULs, followed by its terminator, reads back as the line itself |
| `Monitor.SeparatorsAreExactlyFour` | kern/monitor.c:214 | tab, carriage return, newline and space separate arguments, and nothing else does |
| `Monitor.StartsFromSound` | kern/monitor.c:227-242 | every recorded argument start is a non-separator at the start of the line or after a separator, in increasing order |
| `Monitor.StartsFromComplete` | kern/monitor.c:227-242 | every argument start in the line is recorded |
| `Monitor.WordAt` | kern/monitor.c:239-241 | an argument is the longest run of non-separators from its start |
| `Monitor.ArgumentsAreWords` | kern/monitor.c:235-241 | a parsed line has at most 15 arguments, each non-empty and without separators |
| `Monitor.BlankLineHasNoArguments` | kern/monitor.c:229-232 | a line of separators only has no arguments |
| `Monitor.NoStartsInBlank` | kern/monitor.c:229-232 | no argument starts in a run of separators |
| `Monitor.Blanked` | kern/monitor.c:229-230 | overwriting separators with NUL keeps the buffer's length |
| `Monitor.BlankedWords` | kern/monitor.c:229-241 | once every separator of the line is NUL, the C string at an argument start is exactly that argument |
| `Monitor.StartsAfterSeparators` | kern/monitor.c:228-232 | skipping separators skips no argument start |
| `Monitor.StartsAfterArgument` | kern/monitor.c:239-241 | scanning past an argument skips no other argument start |
| `Monitor.SkipSeparators` | kern/monitor.c:229-230 | the gobbling loop zeroes the separators it passes and stops at the line's end or at a non-separator |
| `Monitor.SkipArgument` | kern/monitor.c:240-241 | the scan stops at the first separator or at the line's end and changes nothing |
| `Monitor.NextArgument` | kern/monitor.c:228-232 | either no argument is left, or the next argument start is where the scan stopped |
| `Monitor.PassArgument` | kern/monitor.c:239-241 | passing an argument passes no other argument start |
| `Monitor.Tokenize` | kern/monitor.c:224-243 | with more than 15 arguments it reports too many; otherwise `argv` holds a pointer to each argument start in order, `argv[argc]` is 0, and every separator of the line is 0 |
| `Monitor.LookupFrom` | kern/monitor.c:248-251 | the lookup finds the first command with that name, or reports that no command has it |
| `Monitor.CommandNamesAreDistinct` | kern/monitor.c:26-33 | each command name selects its own table entry |
| `Monitor.TooManyArgumentsRunNothing` | kern/monitor.c:235-238 | a line with 16 or more arguments returns 0 and runs nothing |
| `Monitor.BlankLineRunsNothing` | kern/monitor.c:246-247 | a blank line returns 0 and runs nothing |
| `Monitor.UnknownCommandRunsNothing` | kern/monitor.c:252-253 | an unknown command returns 0 and runs nothing |
| `Monitor.NamedCommandRuns` | kern/monitor.c:248-250 | a known command runs with all the arguments, and its result is returned |
| `Monitor.Arguments` | kern/monitor.c:239-243 | the NUL-terminated strings behind `argv` are exactly the parsed arguments |
| `Monitor.Dispatch` | kern/monitor.c:246-253 | an unknown first argument returns 0; a known one returns the result of its command |
| `Monitor.RunCmd` | kern/monitor.c:217-254 | `runcmd` on a buffer returns what the parsed line's dispatch returns |
| `Monitor.RunLineOf` | kern/monitor.c:268-270 | a line read by `readline` is run as its own C string |
| `Monitor.Monitor` | kern/monitor.c:267-272 | the loop stops at the first line whose result is negative, and at no earlier line |
| `Monitor.PageArgumentRange` | kern/monitor.c:136-141 | the address argument is rounded down to its page, and it is refused exactly from 0xf8000000 on |
| `Monitor.PlusSetsBits` | kern/monitor.c:151-152 | `+` sets the named bits and keeps every other bit of the entry |
| `Monitor.MinusClearsBits` | kern/monitor.c:153-154 | `-` clears the named bits and keeps every other bit of the entry |
| `Monitor.OtherSignKeepsEntry` | kern/monitor.c:150-155 | any other first character leaves the entry unchanged |
| `Monitor.SetPermBits` | kern/monitor.c:123-160 | the result is 1 with no entry changed unless there are exactly two arguments, the page is below 0xf8000000 and is mapped; then the result is 0 and only that page's entry is updated |
| `Monitor.UpdatePte` | kern/monitor.c:150-154 | the entry becomes `NewPte` of its old value, and no other entry changes |
| `Monitor.ShowMappingsRange` | kern/monitor.c:88-108 | the range is accepted only with one or two addresses, both below 0xf8000000, each rounded down to its page; otherwise the result is 1 |
| `Monitor.PagesBetweenExact` | kern/monitor.c:111 | the listed pages are exactly the page addresses from `begin` to `end` |
| `Monitor.Walk` | kern/monitor.c:111-119 | the unsigned listing loop looks up each page from `begin` to `end` once, in order |
| `Monitor.ShowMappings` | kern/monitor.c:85-121 | corrected: the argument checks and results as written, with the unsigned walk; the result is 1 with nothing listed for refused arguments, otherwise it is 0 and every page of the range is listed once, in order (as written the signed loop differs, see Findings) |
| `Monitor.WalkAsWritten` | kern/monitor.c:94-111 | the loop on `int begin, end` lists the rows of the signed walk |
| `Monitor.StraddlingRangeListsNothing` | kern/monitor.c:111 | as written, a range from 0x7ffff000 to 0x80000000 lists nothing, where two pages are intended |
| `Monitor.SignedWalkLength` | kern/monitor.c:94-111 | as written, a signed walk that does not wrap lists exactly the pages from `begin` to `end` |
| `Monitor.DecreasingRangeListsPages` | kern/monitor.c:111 | as written, the range from 0xf0000000 to 0x1000 starts with 0xf0000000 and lists 0x10002 pages (0xf0000000 to 0xfffff000, then 0 and 0x1000), where nothing is intended |
| `Monitor.WalkToLastLowPageNeverEnds` | kern/monitor.c:111 | as written, and with the two's-complement wrap for the undefined signed overflow, a walk ending at 0x7ffff000 never stops, where one page is intended |
| `Fork.Issue` | lib/fork.c:68-78 | the issued calls are a prefix of the calls: all of them succeed except possibly the last, which ends the prefix early only when it fails |
| `Fork.IssuedAreCalls` | lib/fork.c:68-78 | only the routine's own calls are issued |
| `Fork.IssueStopsAtFirstFailure` | lib/fork.c:68-79 | either every call succeeds and the result is 0, or the calls stop at the first failure and its result is returned |
| `Fork.PgfaultRemapsFaultingPage` | lib/fork.c:37-48 | the copy is mapped writable and not copy-on-write over the whole page holding the fault, and the scratch page is unmapped last |
| `Fork.Pgfault` | lib/fork.c:14-49 | anything but a write to a present copy-on-write page panics with no call issued; otherwise the allocate, map and unmap calls are issued, and a failed one panics |
| `Fork.SharedPageKeepsItsBits` | lib/fork.c:67-69 | a shared page goes to the child with its own bits masked by `PTE_SYSCALL` |
| `Fork.WritablePageBecomesCow` | lib/fork.c:71-75 | a private writable or copy-on-write page is mapped copy-on-write and not writable, first in the child and then in the parent |
| `Fork.ReadOnlyPageGoesToChildOnly` | lib/fork.c:77-78 | any other page is mapped `PTE_P` and `PTE_U` into the child only |
| `Fork.DupCallsMapThePage` | lib/fork.c:62-80 | every call maps the page at the same address from the parent, and only a shared page can be mapped writable |
| `Fork.DuppageResult` | lib/fork.c:62-80 | `duppage` returns 0 when all its calls succeed, and otherwise the result of the first call that failed |
| `Fork.PageNumberOfPage` | lib/fork.c:119-120 | the page number of the page at `pn * PGSIZE` is `pn` |
| `Fork.DirectoryOfPage` | lib/fork.c:116-119 | the page at `pn * PGSIZE` lies under directory entry `pn / 1024`, and it is the exception stack exactly when `pn` is its page number |
| `Fork.WalkSuffix` | lib/fork.c:116-123 | a walk without error ends with the whole walk from any later page |
| `Fork.WalkUnfold` | lib/fork.c:116-123 | a failing page ends the walk with its result; any other page is followed by the rest of the walk |
| `Fork.WalkAdvance` | lib/fork.c:116-123 | after one more page, the calls issued so far still lead to the whole walk, or the walk is over with that page's error |
| `Fork.WalkCallsComeFromPickedPages` | lib/fork.c:116-123 | every call of the walk belongs to a page it picked, and the walk returns 0 or a negative result |
| `Fork.DupFromMapsOnlyDuplicatedPages` | lib/fork.c:116-123 | every call of the fork walk maps a present page below `UTOP`, other than the exception stack, onto itself, writable only if the page is shared; the walk returns 0 or a negative error |
| `Fork.DupFromVisitsEveryPage` | lib/fork.c:116-123 | unless a `duppage` failed, every present page below `UTOP` other than the exception stack is shared with the child: each call `duppage` makes for it is issued and succeeds |
| `Fork.WalkStopsAtFirstFailure` | lib/fork.c:116-123 | a failing walk returns the result of the first picked page whose run failed, ends with that run's calls, and every picked page before it ran without error |
| `Fork.DupFromStopsAtFirstFailure` | lib/fork.c:116-123 | when the walk fails, its result is the error of the first duplicated page whose `duppage` failed, and every duplicated page before it had all its calls succeed |
| `Fork.ForkFrom` | lib/fork.c:106-135 | a negative `sys_exofork` result panics; the child gets 0; the parent gets the first failing `duppage` error, or else the child's id after the three finishing calls, each of which panics on failure |
| `Fork.DupAll` | lib/fork.c:116-123 | the loop issues exactly the calls of the fork walk and returns its result |
| `Fork.DupPages` | lib/fork.c:116-123 | the address loop issues exactly the calls of the walk over the duplicated pages and returns its result |
| `Fork.DupTurn` | lib/fork.c:117-121 | one turn either ends the walk with the page's error or leaves the rest of the walk to do |
| `Fork.DupPageAt` | lib/fork.c:117-120 | the exception stack is skipped; a page runs through `duppage` exactly when it is present under a present directory entry |
| `Fork.Finish` | lib/fork.c:125-135 | the exception-stack allocation, the upcall and the status change are issued in that order; a failure panics, and success returns the child's id |
| `Fork.ForkReturns` | lib/fork.c:108-135 | in the parent, `fork` returns the child's id or a negative error, never another value |

## Left out

- Printing (`cprintf`), `readline`, `strtol`, `str2pageperm`, `pageperm2str`, `page_lookup`, `page2pa` and `KADDR` are left out. The values they produce are parameters; what they print is not modelled.
- The commands of the monitor table are the function parameter `run`. `mon_help`, `mon_kerninfo`, `mon_backtrace` and `mon_dumpmem` are not modelled; they print and read memory.
- `pci_e1000_attach` is not modelled. It enables the PCI function and maps the register window. The `volatile` register accesses and the card's DMA are modelled as explicit `Device*` calls between driver operations; real concurrency with the card is not modelled.
- `PADDR` is an abstract injective function. The constants of `kern/e1000.h` are fields of `E1000.Config`, because that header is not part of this model.
- `NetOutput.OutputPump.Send` is composed with the corrected driver operation `E1000.Nic.SendPacketChecked`, not with `tx_send_packet` as written. As written, the ring-full test never fires for a written slot (`E1000.SentSlotNeverFull`). So in the program the retry loop of `net/output.c:27-28` never runs, and a send on a full ring overwrites a frame the card has not sent yet. The model states the pump's behaviour on the intended driver; the as-written driver is `E1000.Nic.SendPacket`.
- `NetInput.InputPump.Step` and `NetOutput.OutputPump.Step` require the packet buffer size (`PACKETBUFSIZE`) to be at most `PGSIZE - 4`, the capacity of `jp_data`. `net/input.c:25-26` copies up to a packet buffer's worth of bytes into `jp_data` without checking this, so the model assumes the header's sizes respect it.
- `E1000.Nic.Valid` assumes the card never declares a received frame longer than a packet buffer. `rx_recv_packet` copies the declared length without checking it.
- The endless `while (1)` loops of `input`, `output` and `monitor` are left out. The pumps are one pass each, and the monitor runs over a finite sequence of lines.
- `NetInput.InputPump.ReceiveRetrying`: the retry loop is bounded by the card activity given. When that runs out with the awaited slot still not done, it stops with a negative result where the C code would yield again; its contract states that the card stored nothing in that slot during any of the given yields.
- `NetOutput.OutputPump.SendRetrying`: bounded in the same way by the card activity given. When that runs out with the ring still full, it stops with the ring-full result where the C code would yield again; its contract states that the card completed the cursor's slot during none of the given yields.
- `Monitor.WalkAsWritten`: bounded by `maxRows`, because the signed loop as written need not terminate.
- `sys_yield`, the scheduler and the semantics of `ipc_send`/`ipc_recv` are left out. A send is recorded in a trace, and a receive is given as its outcome.
- `kern/syscall.c` is not part of this model. The pumps call the driver's operations directly.
- The system calls of `fork` and `pgfault` are recorded as `Syscall` values, and their results are the parameter `sys`. Their effect on the page tables is not modelled.
- `Fork.ForkFrom`: `uvpd`/`uvpt` are a snapshot taken at the start of the walk. The parent's own copy-on-write remaps during the walk do not change what later turns read. The C code never reads an entry after remapping it.
- The `memcpy` from the faulting page into `PFTEMP` in `pgfault` is not modelled; it copies memory, not page-table state.
- `set_pgfault_handler` before `sys_exofork`, and the child's update of `thisenv`, are not modelled.
- `sfork` is not modelled. It only panics.
- The fork loop's address `addr` and the page number `pn` are kept in step (`addr == pn * PGSIZE`), so the walk is stated over page numbers.

## Findings

| source | as written | input that shows it | evidently intended | confidence | as-written member | corrected member |
|---|---|---|---|---|---|---|
| kern/e1000.c:63-65 | the ring-full test reads DD from the command byte (`lower.flags.cmd`), not from the status byte the card writes; the card's completion never changes the verdict (`E1000.TxGuardIgnoresCompletion`), and a slot written by a send is never seen as full | `NTDRENTRIES` sends with no completion in between: the next send succeeds on the first slot again and overwrites a frame the card has not yet sent | a slot is busy when RS is set in the `lower` word and DD is not set in the status byte; the submit clears DD (`E1000.TxBusy`, `E1000.WriteTxDescChecked`, proved busy after submission by `E1000.SubmittedIsBusy` and free after completion by `E1000.CompletedIsFree`) | not executed | `E1000.SentSlotNeverFull` | `E1000.Nic.SendPacketChecked` |
| kern/monitor.c:94-111 | `begin` and `end` are `int`, so the loop's `begin <= end` is a signed comparison; a `begin += PGSIZE` past the largest `int` is undefined, and the model takes the usual two's-complement wrap for it, on which only the `0 7ffff000` input depends | `showmappings 7ffff000 80000000` lists nothing; `showmappings f0000000 1000` lists 0x10002 pages; `showmappings 0 7ffff000` never ends (`Monitor.DecreasingRangeListsPages`, `Monitor.WalkToLastLowPageNeverEnds`) | unsigned addresses: every page from `begin` to `end` is listed once, in order (`Monitor.Walk`, `Monitor.PagesBetweenExact`) | not executed | `Monitor.StraddlingRangeListsNothing` | `Monitor.ShowMappings` |
