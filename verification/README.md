# A model of hbootdbg

hbootdbg is a debugger that lives inside a phone's boot loader. A host script sends it commands;
on the phone it patches `BKPT` words into running ARM code, is entered through the prefetch-abort
vector when one is hit, serves commands while the target is halted, and resumes the target through
a copy of the overwritten word kept in its own table. This project models that machinery in Dafny
and proves what it keeps, what it undoes and where it does not.

The target's memory is one array of 2^32 bytes, and the debugger's static table lies in it: the
slots have addresses, and two words of each slot are code. Words are integers below 2^32 and every
wrap is written out. A routine that updates memory, registers or a buffer in place is a method; it
is proved against a function on values, and the theorems are about those functions.

| files | what they hold |
|---|---|
| Words, Memory, Branch | 32-bit words, the flat memory and its frame facts, the `b` instruction |
| Table, Debugger | the breakpoint table as it lies in memory; the class with the routines and commands of dbg.c |
| Commands, Session | the commands as values; one session as a state machine over host commands, halts and the debuggee's own stores |
| Overlay, Overlap, Trampoline, Resume, ContinueTarget | theorems over whole runs: nothing is lost under the patches, what unaligned overlaps do, where a slot's branch leads, that a continue is transparent, where it goes |
| Replies | what every command answers and which bytes it changes, in literal bytes |
| Cpu, Transition | the abort handler's assembly on banked registers; hit, save, dispatch, restore as one method |
| Mmu, HbootLib | section probes, cache-line ranges, the memory loops |
| Armv7, Armv7Tables, Armv7Lookup, Armv7Decode | the ARM disassembler |
| Armv7Encode, Armv7Forms, Armv7Members, Armv7Unique | the encodings as an independent reference for it, the members each instruction has, and that a word stands for one instruction only |
| Reloc, Vectors, RegList | moving branches, using them as vectors, printing register lists |
| Base64, Wire, Serial, Gdb | the way of a command from host to device and of its reply back; GDB's packets |

## What holds

* **Overlay.** Take any run of host commands, halts and stores of the debuggee in which breakpoints
  are on aligned words outside the table and the saved frames, stores and write commands miss the
  table and the live patches, and attach comes only while nothing is patched. Then memory with every
  live `BKPT` replaced by its saved word is the memory of a debuggee without debugger, except in
  the table, on the frames and at the vector that an attach installs (`Overlay.RunConserves`). The table is a map of at most 64 patches
  with exactly the coded errors, and removing all of them in any order gives the code back.
* **Trampoline.** An entry now in slot i that was inserted in slot h branches back to
  address + 4 + 20 * (i - h), over every run (`Trampoline.ReturnTarget`).
* **Resume.** Hit, any quiet commands, continue: the slot has the core and makes the store of one
  step of the original instruction, the overlay holds with exactly the stored bytes no longer the
  debugger's, and the program counters agree iff the entry is in its home slot
  (`Resume.TransparentResume`). The store may hit the stack where the frame lay, as that of a push
  does. `Resume.FirstBreakpointResumes` is the case of a single breakpoint, with premises that can
  be checked beforehand and the two memories compared byte by byte.
* **Context.** From every privileged mode but abort, the frame is exact and the whole transition
  gives every register back and jumps to the frame's pc (`Transition.HandleAbort`). Together with
  the resume theorem: `Transition.HitAndContinue`.
* **Delivery.** What the host packs, encodes, prefixes and sends is what the device decodes and
  reads from its packed struct (`Wire.ReceiveCommand`); base64 decoding is resumable at every cut.
* **Disassembler.** A word is decoded iff it is not in an explicit list of refused encodings, and
  then the result accounts for every bit of the word that the instruction reads
  (`Armv7Decode.Disasm`). No other instruction does: what that contract says of a word determines
  the label and every member of the result, the blank ones included (`Armv7Unique.Determined`).

## Where the code does less than it says

* free_breakpoint copies a PC-relative branch to another address without encoding it again
  (src/hbootdbg/dbg.c:133). Insert a, insert b, remove a: b's branch then goes to b - 16
  (`Trampoline.EntryLeavesHome`). One event keeps a table at home iff it removes no other entry than
  the last (`Trampoline.StaysHome`), and a variant that encodes again is proved right for all runs
  (`Trampoline.EncodingRunKeepsTargets`). Nor is the copied slot's line invalidated afterwards: the
  two code words of the slot stay stale (`Debugger.Debugger.RemoveBreakpoint`).
* cmd_attach clears the table without restoring memory (src/hbootdbg/dbg.c:275):
  `Overlay.AttachWhileLive` says exactly when nothing is lost.
* It clears the cached continue address with the table: an attach while the target is halted makes
  the next continue jump to address 0 instead of the slot's code or pc + 4
  (`ContinueTarget.ContinueGoesTo`).
* cmd_detach leaves the frame's pc on the patched address (src/hbootdbg/dbg.c:280-285): the next
  fetch is the debuggee's own word iff the breakpoint was removed before or had been set on a BKPT
  (`Resume.DetachFetches`).
* Overlapping breakpoints come out right in the opposite order of insertion and, in the same order,
  iff the shared bytes were the patch's already (`Overlap.RemovalOrder`).
* darm_armv7_update stores a byte offset where the instruction holds words
  (src/hbootdbg/reloc.c:49,54): `Reloc.RelocationAsWritten`, with `Reloc.RelocationMisses` as a case.
* cmd_write asks mmu_probe_read about the range it writes (src/hbootdbg/dbg.c:321). That is enough
  iff neither protection bit is set (`Mmu.ReadProbeSufficesForWrite`); otherwise it writes without
  permission and reports success (`Wire.WritesWithoutPermission`).
* The loops over cache lines do not end for a range that reaches the last line of memory
  (`Mmu.LoopStopsExactly`).
* GDBServer.unpack compares an integer with `b'}'`, so nothing is ever unescaped
  (scripts/gdbproxy.py:223), and a checksum character between '9' and 'a' that is no digit raises
  instead of being refused (`Gdb.Unpack`).
* get_branch_instr raises for a target less than 8 bytes above the start (scripts/hbootdbg.py:310-312).
* In save_context the comments speak of disabled interrupts where the caller's own control byte is
  installed (src/hbootdbg/int.c:79-80); the model does what the instruction does.
* The disassembler calls every ldm with write-back a pop, takes smlsd for smusd by Rn where its
  comment says Ra (src/hbootdbg/darm/armv7.c:769-773), and finds ubfx of more than 16 bits in the
  row of udf. All of it is visible in the predicates of Armv7Encode.
* The base64 decoder skips foreign characters only if `char` is signed; the build does not say
  (src/Makefile:8-10), so both are modelled.

## Model

| member | source | states |
|---|---|---|
| Overlay.RunConserves | src/hbootdbg/dbg.c:113-196 | over every admissible run, memory with the patches undone is the memory of a debuggee that never met the debugger, outside the table and the saved frames and but for the vector branch that each attach also stores there |
| Overlay.NextConserves | src/hbootdbg/dbg.c:202-258 | every single command, halt or store of the debuggee keeps that invariant |
| Overlay.TableRefinesMap | src/hbootdbg/dbg.c:113-196 | insert and remove on the table are insert and remove on a map of at most 64 patches, with exactly the coded errors and memory unchanged on error |
| Overlay.InsertConserves | src/hbootdbg/dbg.c:151-180 | an insertion keeps the overlay and every other patch |
| Overlay.RemoveConserves | src/hbootdbg/dbg.c:182-196 | a removal keeps the overlay and every other patch |
| Overlay.HaltConserves | src/hbootdbg/dbg.c:68-70 | so does a halt, which pushes a frame and caches the continue address |
| Overlay.ContinueConserves | src/hbootdbg/dbg.c:364-373 | a continue writes into the frame only |
| Overlay.AttachConserves | src/hbootdbg/dbg.c:271-278 | an attach with no live patch keeps the overlay; the debuggee's vector is then the debugger's branch |
| Overlay.AttachWhileLive | src/hbootdbg/dbg.c:275-276 | an attach with live patches keeps it iff each of them lies on the vector or had saved a BKPT |
| Overlay.RemoveAllRestores | src/hbootdbg/dbg.c:182-196 | removing all breakpoints in any order succeeds each time and gives back the original bytes |
| Overlay.FreshSessionConserved | src/hbootdbg/dbg.c:46-54 | a cleared table starts a session in which the invariant holds |
| Overlap.RemovalOrder | src/hbootdbg/dbg.c:151-196 | two possibly overlapping breakpoints: last in, first out always restores; first in, first out iff the shared bytes were the first patch's own |
| Trampoline.RunKeepsHomes | src/hbootdbg/dbg.c:127-138 | over every run each live entry's branch is the one encoded for the slot of its insertion, however often it was moved |
| Trampoline.ReturnTarget | src/hbootdbg/dbg.c:165-170 | the branch of an entry in slot i lands at address + 4 + 20 * (i - home), hence behind the patch iff the entry is at home |
| Trampoline.LastOnlyStaysHome | src/hbootdbg/dbg.c:127-138 | runs that free only the last slot keep every entry at home |
| Trampoline.EncodingKeepsTargets | src/hbootdbg/dbg.c:127-138 | on the table alone, any insertions and removals with the branch encoded again on every move keep every target right |
| Trampoline.EncodingRunKeepsTargets | src/hbootdbg/dbg.c:127-138 | so do whole sessions of commands, halts and stores with that removal, and they keep the overlay |
| Trampoline.StaysHome | src/hbootdbg/dbg.c:127-138 | one event keeps a table at home iff it removes no other entry than the last |
| Trampoline.EntryLeavesHome | src/hbootdbg/dbg.c:133 | insert a, insert b, remove a: b's branch goes to b - 16 instead of b + 4 |
| Resume.QuietRunKeepsSlot | src/hbootdbg/dbg.c:72-93 | halted commands that leave slot and frame alone keep its code, the continue address, the frame and the debuggee's own word |
| Resume.ContinueEntersSlot | src/hbootdbg/dbg.c:364-373 | after hit, quiet commands and continue the frame is as pushed but for its pc, which is the slot's code |
| Resume.SlotSimulates | src/hbootdbg/dbg.c:163-170 | the slot's two words on patched memory and the original word on bare memory have the same core and make the same store, and the overlay holds afterwards with the stored bytes no longer the debugger's |
| Resume.TransparentResume | src/hbootdbg/dbg.c:68-93 | the whole resume has core and store of one uninstrumented step, keeps the overlay, and is at the same pc iff the entry is in its home slot |
| Resume.FirstBreakpointResumes | src/hbootdbg/dbg.c:68-93 | in a fresh session, insert, hit and continue lead to the core, pc and memory of one uninstrumented step, but for the table, the patched word and the unoverwritten stack bytes of the halt |
| Resume.DetachHitsAgain | src/hbootdbg/dbg.c:280-285 | after a detach right behind the halt the frame's pc points at a BKPT |
| Resume.DetachFetches | src/hbootdbg/dbg.c:280-285 | after any halted commands that spare the frame and a detach, the next fetch is the debuggee's own word iff the breakpoint is gone or had saved a BKPT |
| Resume.WordShown | src/hbootdbg/dbg.c:163-176 | an aligned word shows what the debuggee has there iff it is unpatched or was patched over a BKPT |
| Resume.BareWord | src/hbootdbg/dbg.c:163 | the saved word is the one the debuggee would have at the patched address |
| ContinueTarget.ContinueGoesTo | src/hbootdbg/dbg.c:68-93 | halt, any halted commands, continue: the target goes on in the slot that patched its pc at the halt or at pc + 4, but at 0 once there was an attach |
| ContinueTarget.CachedRun | src/hbootdbg/dbg.c:271-278 | over any halted commands the continue address stays as the halt cached it, or is 0 after an attach |
| Replies.DispatchReplies | src/hbootdbg/dbg.c:202-400 | the reply to every command in literal bytes, those of insert and remove from the table as a map |
| Replies.DispatchMemory | src/hbootdbg/dbg.c:271-373 | each byte of memory after a command that is neither insert nor remove |
| Replies.InsertedBytes | src/hbootdbg/dbg.c:151-180 | where in the struct an insertion puts type, address, word, branch, flag and count |
| Replies.RemovedBytes | src/hbootdbg/dbg.c:127-196 | which slot's fields a removal moves where, and the word it restores |
| Table.InsertEffect | src/hbootdbg/dbg.c:151-180 | a successful insertion appends one entry with word and branch, patches one word and touches nothing else |
| Table.FreeEffect | src/hbootdbg/dbg.c:127-138 | freeing moves the last entry, all fields of it, into the freed place and changes nothing outside the table |
| Table.RemoveEffect | src/hbootdbg/dbg.c:182-196 | a removal restores the saved word and moves the last entry |
| Table.ClearEffect | src/hbootdbg/dbg.c:51-54 | clearing empties the table and leaves the rest of memory alone |
| Table.TableUntouched | src/hbootdbg/dbg.h:63-79 | a store that misses the struct leaves every field of every slot alone |
| Table.FillSlotInside | src/hbootdbg/dbg.c:160-170 | the stores of an insertion leave a complete entry, the word read before the patch included |
| Debugger.Debugger.constructor | src/hbootdbg/dbg.c:46 | the debugger over given memory, nothing sent and nothing stale |
| Debugger.Debugger.DbgInit | src/hbootdbg/dbg.c:51-54 | the table's bytes become zero |
| Debugger.Debugger.GetBreakpoint | src/hbootdbg/dbg.c:140-149 | finds the first entry for the address, or none |
| Debugger.Debugger.AllocBreakpoint | src/hbootdbg/dbg.c:113-121 | takes the next slot, or refuses the sixty-fifth |
| Debugger.Debugger.FreeBreakpoint | src/hbootdbg/dbg.c:127-138 | frees by swap with the last slot; the copied code words stay stale in the caches |
| Debugger.Debugger.InsertBreakpoint | src/hbootdbg/dbg.c:151-180 | memory and error as specified, and neither the patched word nor the slot's code is left stale |
| Debugger.Debugger.RemoveBreakpoint | src/hbootdbg/dbg.c:182-196 | memory and error as specified, the restored word not stale, the moved slot's code stale |
| Debugger.Debugger.InvalidateCacheRange | src/hbootdbg/mmu.c:135-139 | no byte of a non-wrapping range is stale in either cache |
| Debugger.Debugger.CmdRead | src/hbootdbg/dbg.c:287-311 | the chunks of at most 1024 bytes concatenate to the status and exactly the requested range |
| Debugger.Debugger.CmdWrite | src/hbootdbg/dbg.c:313-331 | writes iff the read probe passes, replies accordingly, and leaves nothing written stale |
| Debugger.Debugger.CmdAttach | src/hbootdbg/dbg.c:271-278 | clears the table and installs the vector, which is not left stale, replying success |
| Debugger.Debugger.InstallExceptionHandlers | src/hbootdbg/int.c:43-63 | the vector holds a branch to the handler's low 24 bits and is not left stale |
| Debugger.Debugger.CmdGetRegisters | src/hbootdbg/dbg.c:353-362 | sends the 68 bytes of the frame, or the error without one |
| Debugger.Debugger.CmdContinue | src/hbootdbg/dbg.c:364-373 | stores the cached continue address into the frame's pc, or replies the error |
| Debugger.Debugger.Dispatcher | src/hbootdbg/dbg.c:202-258 | every command takes memory where the session's transition says and sends the literal reply of Replies; with aligned patches and writes that do not wrap, nothing is newly stale but the table and the frame's pc |
| Debugger.Debugger.EnterBreakpoint | src/hbootdbg/dbg.c:68-70 | caches the slot's code address, or pc + 4 without a breakpoint |
| Debugger.Debugger.BreakpointHandler | src/hbootdbg/dbg.c:61-94 | serves commands up to and including the first continue or detach; with the same commands nothing is newly stale but the table and the frame's pc |
| Transition.HandleAbort | src/hbootdbg/int.c:118-134 | hit, save, dispatch, restore: all registers, the status and both stack pointers come back, pc is what the frame then holds |
| Transition.ServeIsRun | src/hbootdbg/dbg.c:72-93 | the command loop and the session's run do the same |
| Transition.HitAndContinue | src/hbootdbg/int.c:118-134 | hit, quiet commands and continue on processor and debugger: registers back, pc on the slot's code, and from there the core, store and, at home, pc of one uninstrumented step |
| Cpu.Cpu.SaveContext | src/hbootdbg/int.c:73-104 | leaves the 17-word frame of status, r0-r12, sp, lr and faulting pc on the aborted mode's stack |
| Cpu.Cpu.EnterHandler | src/hbootdbg/int.c:118-124 | from the abort to after the save: exact frame, abort stack balanced, caller's mode and status |
| Cpu.Cpu.RestoreContext | src/hbootdbg/int.c:106-116 | takes the frame apart into status, r0-r12, lr and pc and drops the saved sp |
| Cpu.PushJoins | src/hbootdbg/int.c:81-96 | pushes in several steps build one contiguous frame |
| Cpu.FramePieces | src/hbootdbg/int.c:108-116 | the pops see the words of the frame in order |
| Mmu.MmuProbeRead | src/hbootdbg/mmu.c:209-252 | the loop computes the probe over the visited sections |
| Mmu.MmuProbeWrite | src/hbootdbg/mmu.c:259-297 | so does the write probe's |
| Mmu.DescriptorBits | src/hbootdbg/mmu.h:91-112 | from the bit-field layout: a section is mapped iff its type is not 0, accessible iff its AP bits are not |
| Mmu.ControlBits | src/hbootdbg/mmu.h:45-46 | unprotected means that bits 8 and 9 of the control register are clear |
| Mmu.ProbeReadByFields | src/hbootdbg/mmu.c:209-252 | for a translation table of given fields at the 16 KB boundary of TTBR0: the probe succeeds iff every section met is mapped and has AP bits or a protection bit is set |
| Mmu.ProbeWriteByFields | src/hbootdbg/mmu.c:259-297 | the write probe succeeds iff every section met is mapped and has AP bits |
| Mmu.SectionsVisited | src/hbootdbg/mmu.c:219-239 | the visited sections are exactly those that hold a byte of the range, the last section of memory included |
| Mmu.ProbeReadExact | src/hbootdbg/mmu.c:209-252 | true iff every byte of the range is readable |
| Mmu.ProbeWriteExact | src/hbootdbg/mmu.c:259-297 | true iff every byte of the range is writable |
| Mmu.ProbeReadSplits | src/hbootdbg/mmu.c:209-252 | a probe of a concatenated range is the conjunction of the probes of its parts |
| Mmu.WriteProbeImpliesRead | src/hbootdbg/mmu.c:209-297 | writable implies readable |
| Mmu.ReadProbeSufficesForWrite | src/hbootdbg/mmu.c:209-297 | every range that passes the read probe passes the write probe iff neither protection bit is set |
| Mmu.InvalidateRange | src/hbootdbg/mmu.c:83-121 | touches each line that meets the range once and in order, and no other |
| Mmu.LoopStopsExactly | src/hbootdbg/mmu.c:88-90 | the loop ends iff the end of the range is not in the last line of memory |
| HbootLib.MemMove | src/hbootdbg/hbootlib.c:63-79 | the destination gets the old source bytes whatever the overlap, and nothing else changes |
| HbootLib.InBoundsMovable | src/hbootdbg/hbootlib.c:67-76 | ranges that do not wrap can always be moved |
| HbootLib.MemCpy | src/hbootdbg/hbootlib.c:81-84 | the same for memcpy |
| HbootLib.MemSet | src/hbootdbg/hbootlib.c:86-92 | exactly the n bytes are set |
| HbootLib.StrLen | src/hbootdbg/hbootlib.c:94-102 | the first NUL |
| Branch.BranchRoundTrip | src/hbootdbg/cpu.c:86-89 | the encoded offset is right modulo 2^26 and the branch lands on its target iff that is in reach |
| Branch.BranchMoved | src/hbootdbg/dbg.c:133 | a copied branch lands as much further as it was moved |
| Vectors.DisasmEncoded | src/hbootdbg/darm/armv7.c:513-529 | disassembling an encoded branch gives b, always, with the right offset modulo 2^26 and equal iff in reach |
| Vectors.VectorTarget | src/hbootdbg/int.c:43-50 | the installed branch goes to the handler's low 24 bits, hence to the handler iff it lies below 2^24 |
| Vectors.HostBranchAgrees | scripts/hbootdbg.py:310-312 | agrees with cpu_get_branch on the low 24 bits of the addresses, or raises when the difference is below 8 |
| Vectors.HostBranchInRegion | scripts/hbootdbg.py:310-312 | agrees on the addresses themselves iff bits 24 and 25 of them are equal |
| Armv7Decode.Disasm | src/hbootdbg/darm/armv7.c:856-881 | a word is decoded iff it is not refused; then label, ranges, operands, blank members and aliases are right and no empty shift is left |
| Armv7Unique.Determined | src/hbootdbg/darm/armv7.c:856-881 | what Disasm promises of a word holds of one darm_t only, so that it fixes the label and every member |
| Armv7Unique.EncodingOf | src/hbootdbg/darm/armv7.c:201-854 | the encoding of a conditional word by bits 20 to 27 and 4 to 7 alone, the order of the special cases included |
| Armv7Members.BranchMiscKind | src/hbootdbg/darm/armv7.c:531-557 | bkpt, msr, bx, bxj and blx are the words with bits 4 to 7 at 7, 0, 1, 2 and 3, no other label occurs, and what the operands are |
| Armv7Members.MiscKind | src/hbootdbg/darm/armv7.c:672-739 | which words are mvn, smc, clz, pkh and sel, and that no other label occurs |
| Armv7Members.SmKind | src/hbootdbg/darm/armv7.c:741-814 | which rows the signed multiplications are in, and that no other label occurs |
| Armv7Members.SmFields | src/hbootdbg/darm/armv7.c:741-814 | their operands and flag bits |
| Armv7Members.FieldKind | src/hbootdbg/darm/armv7.c:489-511 | which words are sbfx, ubfx, bfi and bfc |
| Armv7Members.FieldSize | src/hbootdbg/darm/armv7.c:489-511 | the width of the field from the word |
| Armv7Members.UncondKind | src/hbootdbg/darm/armv7.c:103-199 | which unconditional words are setend, barriers, preloads, blx and coprocessor instructions |
| Armv7Members.PreloadFields | src/hbootdbg/darm/armv7.c:134-159 | which of pld, pldw and pli a preload is, and its operands |
| Armv7Members.PusrLabels | src/hbootdbg/darm/armv7.c:389-450 | which media words are ssat, usat, ssat16, usat16 and extensions |
| Armv7Members.CoprocessorFields | src/hbootdbg/darm/armv7.c:831-846 | which words are cdp, mcr and mrc, and their operands |
| Armv7Members.UdfField | src/hbootdbg/darm/armv7.c:848-851 | the label udf and its sixteen bits |
| Armv7Members.Stack0Fields | src/hbootdbg/darm/armv7.c:330-372 | label code, base, register, mode bits and offset of a word or byte transfer |
| Armv7Members.HalfFields | src/hbootdbg/darm/armv7.c:249-304 | the same for half-word transfers |
| Armv7Members.MulFields | src/hbootdbg/darm/armv7.c:213-248 | the operands of the multiplications |
| Armv7Members.SyncFields | src/hbootdbg/darm/armv7.c:306-326 | the operands of the synchronization primitives |
| Armv7Members.DataFields | src/hbootdbg/darm/armv7.c:458-472 | opcode, operands and shift of a data-processing instruction |
| Armv7Members.DstSrcFields | src/hbootdbg/darm/armv7.c:602-637 | operands and shift of the shift instructions |
| Armv7Members.BlockFields | src/hbootdbg/darm/armv7.c:639-654 | mode, base and list of a block transfer |
| Armv7Members.ReverseFields | src/hbootdbg/darm/armv7.c:656-670 | which words are rev, rev16, rbit and revsh |
| Armv7Members.ParallelFields | src/hbootdbg/darm/armv7.c:816-829 | the two label codes and the operands |
| Armv7Decode.DisasmConditional | src/hbootdbg/darm/armv7.c:201-854 | the priority of the special cases over the table never yields a wrong instruction or a wrong refusal |
| Armv7Decode.DisasmUnconditional | src/hbootdbg/darm/armv7.c:103-199 | the same for words without a condition, the fall-through from barriers to preloads included |
| Armv7Decode.DisasmExceptions | src/hbootdbg/darm/armv7.c:210-327 | multiplications, half-word transfers and synchronization, and which words go on to the table |
| Armv7Decode.Multiply | src/hbootdbg/darm/armv7.c:213-248 | the operands stand for the word; umaal and mls with the S bit are refused |
| Armv7Decode.Unprivileged | src/hbootdbg/darm/armv7.c:249-276 | the operands stand for the word; stores of signed data are refused |
| Armv7Decode.ExtraTransfer | src/hbootdbg/darm/armv7.c:277-304 | never refused, and the operands stand for the word |
| Armv7Decode.Synchronization | src/hbootdbg/darm/armv7.c:306-326 | which words are synchronization primitives, and their operands |
| Armv7Decode.SingleTransfer | src/hbootdbg/darm/armv7.c:330-372 | operands and addressing mode stand for the word; push and pop are exactly the transfers by four through sp |
| Armv7Decode.Saturating | src/hbootdbg/darm/armv7.c:378-386 | the operands stand for the word |
| Armv7Decode.PackUnpack | src/hbootdbg/darm/armv7.c:389-450 | which media words extend or saturate, and their operands |
| Armv7Decode.Preload | src/hbootdbg/darm/armv7.c:134-159 | the operands of pld, pldw and pli stand for the word |
| Armv7Decode.BranchExchange | src/hbootdbg/darm/armv7.c:161-178 | the offset with its H bit stands for the word |
| Armv7Decode.NoShift | src/hbootdbg/darm/armv7.c:874-878 | blanking the type of a shift by nothing changes neither the meaning nor the label |
| Armv7Decode.Distinguishes | src/hbootdbg/darm/armv7.c:856-881 | two words are never taken for the same instruction of an encoding that reads every bit |
| Armv7Lookup.LookUp | src/hbootdbg/darm/armv7.c:452-854 | what the table says of a word that no earlier check took |
| Armv7Lookup.ArithShift | src/hbootdbg/darm/armv7.c:458-472 | register operand, shift and S bit stand for the word |
| Armv7Lookup.ArithImm | src/hbootdbg/darm/armv7.c:474-487 | the expanded immediate, and adr exactly for add or sub of pc without S |
| Armv7Lookup.BitField | src/hbootdbg/darm/armv7.c:489-511 | lsb and width stand for the word, bfc exactly when Rn is 15 |
| Armv7Lookup.BranchOrCall | src/hbootdbg/darm/armv7.c:513-529 | b and bl with the sign-extended offset, svc with its number |
| Armv7Lookup.BranchMisc | src/hbootdbg/darm/armv7.c:531-557 | bkpt, bx, bxj, blx and msr; every other word of the row is refused |
| Armv7Lookup.MovImm | src/hbootdbg/darm/armv7.c:559-576 | mov and mvn expand their immediate, movw and movt take sixteen bits |
| Armv7Lookup.CmpOp | src/hbootdbg/darm/armv7.c:578-590 | the operands stand for the word, but bit 7 of a register shift is not looked at |
| Armv7Lookup.DstSrc | src/hbootdbg/darm/armv7.c:602-637 | shifts, and mov, nop and rrx exactly as the shifts by zero |
| Armv7Lookup.LoadStoreMultiple | src/hbootdbg/darm/armv7.c:639-654 | base, write-back and list stand for the word; push and pop as the table and the checks make them |
| Armv7Lookup.ByteReverse | src/hbootdbg/darm/armv7.c:656-670 | rev and rbit exactly when bits 4 to 7 are 0011 |
| Armv7Lookup.Miscellaneous | src/hbootdbg/darm/armv7.c:672-739 | mvn, smul, smc, clz, sel and pkh, and which words of the smc row are refused |
| Armv7Lookup.SignedMultiply | src/hbootdbg/darm/armv7.c:741-814 | the operands stand for the word and the label is chosen by bit 6, Ra and Rn |
| Armv7Lookup.Parallel | src/hbootdbg/darm/armv7.c:816-829 | the label is the one of the two codes, and the gaps are refused |
| Armv7Lookup.Coprocessor | src/hbootdbg/darm/armv7.c:831-846 | cdp, mcr and mrc with all their operands |
| Armv7.ExpandImmRotates | src/hbootdbg/darm/armv7.c:41-46 | a modified immediate is its byte rotated right by two bits as many times as its upper digit says |
| Armv7.WholeOfWord | src/hbootdbg/darm/armv7.c:860-862 | nothing of a word is lost by taking it apart |
| Reloc.DisasmBranch | src/hbootdbg/darm/armv7.c:856-881 | the label is b or bl iff the word has a condition and bits 24 to 27 are 1010 or 1011, with the offset the processor adds |
| Reloc.Update | src/hbootdbg/reloc.c:40-62 | writes back b and bl only |
| Reloc.RelocateInstruction | src/hbootdbg/reloc.c:64-90 | accepts exactly b and bl, and leaves every other word as it was |
| Reloc.HeaderKept | src/hbootdbg/reloc.c:44-54 | condition and link bit are kept |
| Reloc.RelocationAsWritten | src/hbootdbg/reloc.c:77 | the target is kept iff it is the new address plus 8 |
| Reloc.RelocationInWords | src/hbootdbg/reloc.c:48-54 | with the offset in words it is kept iff it is in reach of the new address |
| Reloc.RelocationMisses | src/hbootdbg/reloc.c:49 | a branch for which the stored byte offset goes astray |
| RegList.ParsePrinted | src/hbootdbg/darm/darm.c:61-100 | an independent reader that refuses a range of fewer than three registers and items out of order gets back exactly the mask, for any width and any distinct names without a comma or a hyphen |
| RegList.HyphenExact | src/hbootdbg/darm/darm.c:86-89 | a hyphen is printed iff some three neighbouring registers are listed |
| RegList.RunsAreMaximal | src/hbootdbg/darm/darm.c:69-95 | what is printed is the increasing list of the maximal runs |
| RegList.Reglist | src/hbootdbg/darm/darm.c:61-100 | the loops end, print that text with its NUL, and return its length or -1 |
| RegList.LengthBound | src/hbootdbg/darm/darm.c:97-99 | at most 36 characters for the sixteen registers |
| Base64.DecodeBlock | src/hbootdbg/base64.c:53-117 | output, count and state of a block are those of the fold; writes stay within count + 1 bytes |
| Base64.Decode | src/hbootdbg/base64.c:119-131 | decodes the text up to its NUL into floor(3n/4) bytes and a closing zero, and touches nothing else |
| Base64.Resumable | src/hbootdbg/base64.c:54-117 | the text may be cut into blocks anywhere |
| Base64.FoldLength | src/hbootdbg/base64.c:61-113 | n accepted characters complete floor(3n/4) bytes |
| Base64.FoldEncoded | src/hbootdbg/base64.c:61-113 | decoding inverts the encoding of section 4 of RFC 4648 |
| Base64.TestVectors | scripts/hboot.py:81 | the encoding of "f", "fo" and "foo", from section 10 of RFC 4648 |
| Base64.DecodeEncodedPrefix | src/hbootdbg/base64.c:119-131 | for either `char` and whatever follows, the output begins with the data |
| Base64.DecodeInterleaved | src/hbootdbg/base64.c:30-44 | with a signed `char` it is the data, with characters from outside the alphabet anywhere |
| Base64.AcceptLetter | src/hbootdbg/base64.c:30-44 | on the alphabet both kinds of `char` decode alike; a signed one skips all else, an unsigned one nothing |
| Wire.Pack | scripts/hbootdbg.py:122-154 | the bytes of a command, field by field |
| Wire.PackedBytes | scripts/hbootdbg.py:122-154 | a read, a write and a continue byte by byte, with the write's value in the other order |
| Wire.SentBytes | scripts/hboot.py:81-85 | the literal prefixes and the newline around the encoding |
| Wire.StructUndoesPack | src/hbootdbg/dbg.h:111-153 | the packed struct reads back the command the host meant, whatever follows in the buffer; a write of more than four bytes goes on into what follows |
| Wire.LineDecodes | scripts/hboot.py:78-85 | prefix, base64, newline: the device decodes the packed command first, also with characters of an older line directly behind it |
| Wire.ReceiveCommand | src/hbootdbg/dbg.c:72-88 | strip, decode and read yield the host's command, in both modes, for either `char` and whatever the reused buffers hold |
| Wire.WriteThenRead | src/hbootdbg/dbg.c:287-331 | a write of four bytes and a read of them return the host's value in big-endian order |
| Wire.WritesWithoutPermission | src/hbootdbg/dbg.c:321-330 | with a protection bit set, a state in which cmd_write writes a byte that mmu_probe_write refuses, and reports success |
| Serial.StripFindsPayload | scripts/hboot.py:96-104 | of echo, payload and prompt exactly the payload is kept |
| Serial.StripEchoOnly | scripts/hboot.py:96-104 | of an echo and a payload that does not end in a prompt the payload is kept |
| Serial.StripPromptOnly | scripts/hboot.py:96-104 | of a payload that does not begin with an echo and a prompt the payload is kept |
| Serial.StripOneLine | scripts/hboot.py:96-104 | a single line is dropped iff it begins with "keytest" or ends in "hboot>" |
| Serial.EchoFirst | scripts/hboot.py:103 | an echo is seen iff the response begins with "keytest" |
| Serial.PromptLast | scripts/hboot.py:104 | a prompt is seen iff the response ends in "hboot>" |
| Serial.StripRaw | scripts/hboot.py:97-104 | a raw response is unchanged iff no echo or prompt is seen in it |
| Gdb.Pack | scripts/gdbproxy.py:233-248 | the packet of a word list, escaped and with its checksum |
| Gdb.Unpack | scripts/gdbproxy.py:205-231 | the words iff the checksum is two hexadecimal digits with the value of the byte sum modulo 256, the ValueError of int() iff two characters in its span are no number, else a refusal |
| Gdb.ChecksumDecides | scripts/gdbproxy.py:205-213 | the same of the specification, with digits and byte sum defined independently |
| Gdb.ChangedByteRefused | scripts/gdbproxy.py:211 | data with one byte changed is refused with the old checksum |
| Gdb.CutsAtSeparators | scripts/gdbproxy.py:218-231 | as written, the words contain no separator and give back the data with the separators between them |
| Gdb.PacketBytes | scripts/gdbproxy.py:233-248 | the special characters, the separators, the escape mask, and two packets byte by byte |
| Gdb.Run | scripts/gdbproxy.py:250-292 | what the read loop unpacks from a stream, and whether it is left waiting inside a packet |
| Gdb.StreamRecovered | scripts/gdbproxy.py:250-292 | from any packets with any acks between them each list comes back in order: escaped as written, exact with an integer comparison |
| Gdb.PayloadWords | scripts/gdbproxy.py:218-231 | the payload splits into the escaped words, or the words |
| Gdb.UnpackPayload | scripts/gdbproxy.py:205-231 | the checksum of a packed payload is accepted |
| Gdb.EscapeChanges | scripts/gdbproxy.py:238-242 | a word survives as written iff nothing in it needs escaping |

## Left out

- USB, serial and TCP transport, waiting and polling: reads return what was asked for, and sends are appended to a list.
- The preloader and its upload script: bootstrapping by fixed addresses.
- Code of the boot loader itself that is called: __usb_send, __usb_recv, __fastboot_reboot, __turn_on_flashlight.
- cmd_call, cmd_fastboot_reboot and the nested bkpt of cmd_breakpoint: they run foreign code; of break and flashlight only the reply is modelled.
- The event dispatch of dbg_event_handler: breakpoint is the only event the handler raises.
- The C stack of the debugger below the saved frame: the routines are assumed to stay off the table and the patches there.
- Setting the abort mode's stack pointer in int_install_exception_handlers: the abort stack is a premise of the context theorems.
- Interrupts between the `msr` instructions of save_context.
- Cache timing and speculative fetches: a byte is stale from its store until its line is invalidated in both caches.
- Reading the coprocessor registers: TTBR0, the control register and the line sizes are parameters.
- The sizes that the C compiler picks for enumerations: the struct's own offsets are used, with the breakpoint type as one byte.
- Instruction semantics: the resume theorem is about any instruction whose effect does not involve the pc, given as a function.
- Wire.StructUndoesPack: of a write whose size reaches beyond the decode buffer only that fact is stated; HbootDbg.flashlight, which puts its value into the error parameter, is not modelled.
- Debugger.Debugger.CmdWrite: a range that ends in the last cache line of memory is excluded, because the source's loop never ends on it.
- Wire.ReceiveCommand: a receive buffer without any NUL is excluded, because strlen then reads past it.
- Mmu.ProbeReadExact: ranges that wrap past 2^32 are not stated; the probe itself is modelled on them.
- Resume.TransparentResume: covers continue, not detach; what detach does is stated by Resume.DetachFetches.
- HbootLib.MemMove: moves between ranges that wrap past 2^32 into each other are excluded, where a pointer comparison picks no safe direction; darm's and the host's own library calls are not modelled.
- The mnemonic, format and condition name tables, darm_immshift_decode and the Thumb decoders of darm.
- Armv7.ExpandImmRotates: a rotation by 0 shifts a C word by 32 bits, which C leaves undefined; it is taken as no rotation.
- Gdb.Run: the handlers behind the dispatcher and the acks that are sent are not modelled; after a ValueError the run ends.
- The console, its argument parsing, and the register, pattern and unhexlify helpers.
