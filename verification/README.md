# A verified model of the teaching kernel

The kernel runs three text terminals on one screen. Each terminal has a base shell and a stack of
processes started from it, a timer switches between the terminals in turn, a keyboard edits a line
for the terminal shown, and a small read-only file system supplies the programs. One of those
programs is a blinker written in assembly around a linked list. The model follows this structure:

- `Terminals.dfy`, `Arithmetic.dfy`: what the other modules share.
- `Processes.dfy`, `Handlers.dfy`: the process table and the scheduler. The handlers tick, execute
  and halt are methods over the kernel's globals, equal to functions of the kernel state; these are
  shown to simulate a simple machine with one stack of calls and one saved context per terminal,
  for a kernel booted from any disk that holds a shell.
- `Paging.dfy`: the page tables and the translation they define (Intel SDM volume 3A, section 4.3).
- `Bytes.dfy`, `FileSystem.dfy`, `DiskImage.dfy`, `Descriptors.dfy`, `Loader.dfy`: the image as bytes,
  the block walk against the file's blocks laid end to end, name lookup, a writer of images whose
  files the reader finds again, descriptors, and loading a program (ELF header as in chapter 4 of the
  System V gABI).
- `Screen.dfy`, `Keyboard.dfy`, `Console.dfy`, `KeyLaws.dfy`, `Drivers.dfy`: one text page against an unbounded
  text, the key tables, the console with its three screens and line buffers, shown terminal by
  terminal to refine three independent texts and lines, and what the keys do by their scan codes.
- `Views.dfy`: scheduler and console as two views of one kernel, joined in every run.
- `Blinker.dfy`: the list in its arena, what every operation does to memory, and the phase of each
  slot over any run.
- `Rtc.dfy`: the per-terminal clock counters.
- `Numbers.dfy`: `itoa`, `strrev` and the padded hexadecimal format.

`dafny verify dfyconfig.toml` checks the whole project.

## Reading the model

Each handler is one step, as its `cli` intends. The code opens some windows in which an interrupt
could come before the handler is done; they are taken as closed: after the `sti` in the base-shell
branch of halt (system_call.c:144); after the one that ends `terminal_write` (terminal.c:94), which
the keyboard handler calls before it counts the character and execute when it refuses a command;
after the one that ends `remapB8` (PIT.c:103), in both branches of the timer handler; after the one
that ends `terminal_swap` (system_call.c:117), and those before it in the keyboard handler
(keyboard.c:163-178); and the whole of the delivery part of `terminal_read`
(terminal.c:478-498), whose wait for Enter ends with interrupts on. A saved stack is an opaque pair
of pointers, and the jump into a parent's execute is the frame pointer that is loaded.
`base_shell_initialized` is never set, so only the `current_terminal` branches appear. The timer
handler is split in two views: its process part is in `Processes`, the part that moves virtual page
B8 is in `Processes` (as page table entries) and in `Console` (as the page output goes to); `Views`
shows that the two agree. A halt appears three times for the same reason: the slots in `Processes`,
the line in `Console`, the descriptors in `Descriptors`. What depends on hardware or on another
program enters as a parameter: interrupted stacks, scan codes, the bytes a stack buffer held, what a
device driver returns. The run lemmas of `Processes` and `Views` take the loader as a function from
command lines to programs that always finds the shell; `Loader.LoadsOf` gives it for every disk with
a shell, and `BootedFromDisk` states the result for disks. `SmallDisk` is one.

Where the code falls short of what it is for, the exact condition is a lemma: an image with no shell
(`RestartNeedsShell`), anything run during boot (`BootSave`), a tab at the bottom-right corner
(`TabExact`), a line that looks like a prompt (`InsertExact`, `StaleBufferPrompts`), output between
a swap and a tick (`InStepExactly`, `OutputBeforeTick`), a blinker node at location 0
(`AddKeepsGood`, `ZeroLocationMakesCycle`), a refused clock frequency (`BoundedExactly`). The
comments in the code promise otherwise in two places: the terminal reset in `terminal_read` clears
four bytes, the size of a pointer, and not the buffer; and caps lock with a shift key uses the plain
table, so the table written for that case is never used.

## Model

| member | source | states |
|---|---|---|
| Processes.FirstUnusedIs | student-distrib/system_call.c:213-218 | in a coherent state the slot search of execute finds exactly the slot above the terminal's newest process |
| Processes.HighestUsedIs | student-distrib/PIT.c:172-183 | in a coherent state the timer's downward search finds exactly the newest process |
| Processes.AtMostFour | student-distrib/system_call.c:226-230 | with a total of at most six and every terminal in use, no terminal has more than four processes, so the per-terminal limit is never met |
| Processes.LaunchSimulates | student-distrib/system_call.c:282-331 | starting a process keeps all coherence (slots a prefix holding their own numbers, running process on top, PCB pointer, kernel stack, user page, count) and pushes a call with this execute's frame and the program's entry point, which with the parent stand in the new PCB, although the saved pair is copied from the parent |
| Processes.RestartSimulates | student-distrib/system_call.c:141-147 | restarting a base shell keeps coherence and the count, and replaces the terminal's only call |
| Processes.ExecuteSimulates | student-distrib/system_call.c:197-340 | execute pushes a call or changes nothing, and there is room exactly when fewer than six processes are live |
| Processes.ReturnSimulates | student-distrib/system_call.c:149-172 | halting a process above the base shell pops the terminal's call and keeps coherence |
| Processes.HaltSimulates | student-distrib/system_call.c:133-186 | any halt keeps coherence, and the frame pointer it loads is that of the execute that started the halting process; a base shell is started again by the kernel's loader, which always finds one (`Loader.LoadsOf`: that of any disk with a shell) |
| Processes.TickSimulates | student-distrib/PIT.c:157-194 | a tick saves the interrupted pair for its terminal and restores for the next terminal the pair that terminal was last preempted with |
| Processes.BootAdvances | student-distrib/PIT.c:129-155 | each boot tick that finds the shell leaves exactly one more base shell running, each resumable from the pair of the following tick |
| Processes.BootSimulates | student-distrib/PIT.c:129-155 | after three boot ticks, each starting the disk's shell, with nothing else run in between, the kernel is coherent |
| Processes.BootSave | student-distrib/PIT.c:130-139 | a boot tick reaches the newest process's PCB if and only if that process is the base shell; otherwise its pair stays stale |
| Processes.StepSimulates | student-distrib/PIT.c:157-194 | every step after boot (tick, command, halt, swap) does what the simple per-terminal stack machine does, with the same visible result |
| Processes.RunSimulates | student-distrib/system_call.c:133-340 | the same over any interleaving of ticks, command lines, halts and swaps: every reachable state is coherent and answers the next step as the simple machine does |
| Processes.Coherence | student-distrib/system_call.c:282-331 | in every reachable state, in numbers: each terminal's used slots are a non-empty prefix of its six holding their own numbers; the running process is the highest of the current terminal; its PCB is at 8 MB - 8 KB (pid + 1), its kernel stack at 8 MB - 8 KB pid; address 128 MB + x is 8 MB + 4 MB pid + x, for user writes too |
| Processes.SlotsAfter | student-distrib/system_call.c:141-177 | an accepted command takes the free slot above the running process, a halt frees the running one unless it is a base shell, which keeps its slot, a tick moves to the next terminal, and nothing else changes a slot or the count |
| Processes.RoundRobin | student-distrib/PIT.c:168 | the running terminal, and the next one, depend on the number of ticks only |
| Processes.NoStaleContext | student-distrib/PIT.c:157-194 | after any events since boot the next tick restores the pair saved at the latest preemption of the terminal whose turn it is |
| Processes.ThreeTicks | student-distrib/PIT.c:166-168 | any three consecutive ticks visit the three terminals, whatever happens between them |
| Processes.ReturnsToCaller | student-distrib/system_call.c:167-182 | from an accepted execute on: whatever children and other terminals do in between, the halt of the process it started resumes that execute's frame |
| Processes.UsedIsTotal | student-distrib/system_call.c:30 | the number of used slots is the number of live calls |
| Processes.CountConserved | student-distrib/system_call.c:212-230 | in every reachable state the count is the number of used slots and at most 6, no terminal has more than four, room means fewer than 6, and a command that is not accepted changes nothing (`Handlers.System.Execute` shows this of the code, late error returns included) |
| Processes.RestartNeedsShell | student-distrib/system_call.c:141-147 | after a base shell halts the count is sure to match the slots, whatever the stack held, if and only if the image names a shell |
| Processes.LoadsAway | student-distrib/system_call.c:315-320 | in every reachable state what the loader writes, for an accepted execute or a restarted base shell, is in no frame of another live process |
| Processes.Isolation | student-distrib/paging.c:62-64 | in every reachable state a user read or write faults or lands in the running process's frame or the video pages, and the kernel page stays mapped onto itself |
| Processes.EntryPoints | student-distrib/system_call.c:273-324 | in every run from a disk, the PCB of a process just started, by a command or as a restarted base shell, has as entry point the 32-bit value whose bytes, lowest first, are bytes 24 to 27 of the file the command names |
| Processes.BootEntries | student-distrib/system_call.c:602 | the same for the base shells started at boot |
| Processes.BootedFromDisk | student-distrib/system_call.c:133-340 | all of this for a kernel booted from any well-formed disk that holds a shell, with commands as bytes: coherent in every run, same answers as the simple machine, count equal to the used slots, and the next tick restores the pair of the latest preemption |
| Handlers.System.constructor | student-distrib/system_call.c:547-554 | initial tables and PCBs form the state the boot lemmas start from |
| Handlers.System.SearchSlot | student-distrib/system_call.c:214-218 | the loop returns the first unused slot of the current terminal, or six |
| Handlers.System.TakeSlot | student-distrib/system_call.c:282-295 | takes the base slot on a restart and the first free slot otherwise, and nothing else |
| Handlers.System.StartProcess | student-distrib/system_call.c:592-607 | the new PCB has the parent's saved pair, this execute's frame and the entry point; stack and count follow |
| Handlers.System.FillFrame | student-distrib/system_call.c:312-321 | second open, page and copy, with both error returns: it fails exactly when the file is missing or unreadable |
| Handlers.System.LoadAndStart | student-distrib/system_call.c:312-331 | for a file that the header check has accepted the late error returns are never reached, so the taken slot is never leaked |
| Handlers.System.Launch | student-distrib/system_call.c:282-331 | slot, frame, PCB with the entry point, stack and count of the new process, in source order |
| Handlers.System.Execute | student-distrib/system_call.c:197-340 | from the command bytes, in source order: the whole new state is that of the execute function of the program the image holds, the new PCB's entry point is bytes 24 to 27 of the named file, the frame of the slot taken is filled, memory and state are untouched when nothing is launched, and the result is 0, -1 or launched by case |
| Handlers.System.ReturnToParent | student-distrib/system_call.c:149-182 | page, stack, slot, PCB and count of the parent, and the frame saved in the halting process's PCB |
| Handlers.System.Halt | student-distrib/system_call.c:133-186 | the whole new state is that of the halt function, a base shell being loaded again from the image |
| Handlers.System.ChooseNewest | student-distrib/PIT.c:174-183 | the downward loop selects the highest used slot, or leaves the selection alone |
| Handlers.System.ResumeDestination | student-distrib/PIT.c:185-194 | user page, virtual page B8, kernel stack and restored pair of the chosen process |
| Handlers.System.SwitchToNext | student-distrib/PIT.c:166-194 | the tail of the handler moves to the next terminal and restores its newest process's pair |
| Handlers.System.BeginBootTick | student-distrib/PIT.c:129-154 | the boot branch up to its execute |
| Handlers.System.TimerInterrupt | student-distrib/PIT.c:115-202 | a boot tick, loading the shell from the image, or a scheduling tick, including the fall through when a boot execute fails |
| Paging.WithUserPageMaps | student-distrib/paging.c:62-64 | set_user_page changes the running frame and nothing else of the map |
| Paging.WithScreenMaps | student-distrib/PIT.c:89-104 | remapB8 changes where virtual page B8 points, in both tables, and nothing else |
| Paging.UserAccess | student-distrib/paging.c:20-46 | for every address, what a user read or write reaches: the same offset in the running frame, one of the four video pages, or a fault |
| Paging.UserFrame | student-distrib/paging.c:46 | 128 MB + x is 8 MB + 4 MB pid + x, also for user writes |
| Paging.VideoPages | student-distrib/paging.c:24-33 | the kernel's pages B8 to BC by address: B8 as remapped, B9 to BB onto themselves, BC always physical B8; users fault there |
| Paging.KernelAccess | student-distrib/paging.c:24 | the kernel page maps onto itself for the kernel and faults for users |
| Paging.Disjoint | student-distrib/system_call.c:45-52 | frames of distinct processes, the kernel page and video memory are disjoint; the 18 kernel stacks are disjoint and inside the kernel page |
| Paging.InitEmptyPdt | student-distrib/paging.c:74-79 | every directory entry is absent afterwards |
| Paging.InitEmptyPtt | student-distrib/paging.c:89-94 | every table entry is absent afterwards |
| Paging.InitDirectory | student-distrib/paging.c:21-46 | the directory maps the low table, the kernel page, the video table and frame 0, and nothing else |
| Paging.InitLow | student-distrib/paging.c:27-33 | the low table maps B8 to BB onto themselves and BC onto B8, for the kernel only |
| Paging.InitVideo | student-distrib/paging.c:38-43 | the video table maps B8 to BB for users |
| Paging.PageTables.constructor | student-distrib/paging.c:14-52 | the tables map process 0 with its screen on page B8 |
| Paging.PageTables.SetUserPage | student-distrib/paging.c:62-64 | exactly one directory entry changes |
| Paging.PageTables.Remap | student-distrib/PIT.c:89-104 | virtual B8 points at B8 for the shown terminal and at the terminal's own page otherwise |
| Bytes.StrLen | student-distrib/lib.c:495-500 | the distance to the first NUL |
| Bytes.StrNCmp | student-distrib/lib.c:668-682 | zero exactly when the two strings agree up to n bytes |
| Bytes.WordOfLe32 | student-distrib/filesys.c:337 | the four bytes of a word read are those in memory, lowest first |
| Bytes.Le32OfWord | student-distrib/filesys.c:337 | a 32-bit value written as four bytes, lowest first, is read back |
| FileSystem.FileByteAt | student-distrib/filesys.c:341-350 | the byte at position q of block b is byte q past where block b starts in the blocks laid end to end |
| FileSystem.StartIs | student-distrib/filesys.c:16-20 | block b starts at byte 4096 b of its file |
| FileSystem.FileByte | student-distrib/filesys.c:341-350 | byte k of the blocks laid end to end is byte k mod 4096 of block k / 4096 |
| FileSystem.WalkBlocks | student-distrib/filesys.c:331-359 | the loop with its running negative correction copies min(length, rest of file) bytes, the file's slice from the offset, and changes nothing else |
| FileSystem.ReadData | student-distrib/filesys.c:315-359 | exact result codes; otherwise min(length, rest of file) bytes are copied and they are the file's slice from the offset; nothing else in the buffer changes; within the file -1 only for an empty one (`DiskImage.ReadsBack` says which bytes are the file) |
| FileSystem.NameOverrun | student-distrib/filesys.c:249-254 | strlen of a full 32-byte name runs at most one byte into the type word |
| FileSystem.SameName | student-distrib/filesys.c:249-256 | whichever comparison is chosen, it is zero exactly when the entry's name cut at 32 bytes is the wanted name |
| FileSystem.LookUp | student-distrib/filesys.c:230-276 | the first of the 63 entries with that name, or -1, for every terminated name including the empty one and those too long |
| DiskImage.ReadsBack | student-distrib/filesys.c:18-20 | round trip: in the image written for any directory of up to 63 files of up to 1023 blocks, every name is found with its type, and its inode gives back the file's bytes |
| DiskImage.ImageWellFormed | student-distrib/filesys.c:18-20 | every such image is well formed |
| DiskImage.BlockReads | student-distrib/filesys.c:341-350 | each block of a file is found where its inode's entry puts it |
| DiskImage.EntryReads | student-distrib/filesys.c:249-276 | name, type and inode of each directory entry are read as written |
| Descriptors.Process.constructor | student-distrib/system_call.c:592-599 | a fresh table has stdin and stdout only |
| Descriptors.Process.Open | student-distrib/system_call.c:407-445 | opens exactly when the name is listed and a slot is free, in the lowest free slot of 2 to 7, at offset 0: as the clock, the directory or the regular file in the named entry's inode by type 0, 1 or 2; otherwise -1 and no change |
| Descriptors.Process.Read | student-distrib/system_call.c:352-368 | a regular-file read delivers the next bytes of the file, never -1, and advances the offset by as many; -1 on descriptor 1 and inactive ones; no other descriptor changes |
| Descriptors.Process.Close | student-distrib/system_call.c:455-472 | succeeds exactly on an active descriptor of at least 2, which is inactive afterwards, so that reading it gives -1; no other descriptor changes |
| Descriptors.Process.CloseAll | student-distrib/system_call.c:157-163 | after the loop of halt exactly descriptors 0 and 1 are active |
| Descriptors.Process.Cat | syscalls/ece391cat.c:22-29 | reading in chunks until a read returns zero yields the whole file |
| Descriptors.Process.CatFile | syscalls/ece391cat.c:17-29 | opening a regular file by its name and reading it so yields the bytes of the file of that name; fails exactly when the name is not listed or no slot is free |
| Descriptors.ReadKeeps | student-distrib/filesys.c:90-102 | appending a read's bytes keeps what was read a front of the named file of length min(asked, length) |
| Descriptors.StepFaithful | student-distrib/system_call.c:352-472 | every open, read or close keeps that for all descriptors |
| Descriptors.Run | student-distrib/filesys.c:90-102 | over any interleaving, every active descriptor is of the type and inode of the name it was opened by, and all bytes read through it since, if that is a regular file, are the first min(sum asked, length) bytes of the file of that name, the offset their number |
| Loader.CopyParts | student-distrib/system_call.c:243-262 | the copying loop, byte for byte, including the read past the terminator |
| Loader.Split | student-distrib/system_call.c:237-262 | name and arguments rebuild the command, cut at its first space |
| Loader.CheckHeader | student-distrib/system_call.c:266-279 | accepts exactly a readable file with the ELF magic; the entry point has bytes 24 to 27 of the file, lowest first |
| Loader.IsChat | student-distrib/system_call.c:205-207 | a command is taken for the chat command by its first four bytes |
| Loader.ChatCommand | student-distrib/system_call.c:205-207 | it is the first four characters that make a chat command |
| Loader.Inspect | student-distrib/system_call.c:237-279 | what a command loads, decided by splitting, first open and header check; with the name for the second open |
| Loader.CopyProgram | student-distrib/system_call.c:319-321 | fails exactly on a file that cannot be read; otherwise the frame holds the file's first min(length, 4 MB - 0x48000) bytes from 0x48000 on and all other memory is unchanged |
| Loader.FrameBytes | student-distrib/system_call.c:319-321 | byte by byte: the file's first min(length, 4 MB - 0x48000) bytes stand at 8 MB + 4 MB pid + 0x48000, all other memory is unchanged |
| Loader.EntryPoint | student-distrib/system_call.c:269-279 | a file of at least 28 bytes loads if and only if it starts with 7F 45 4C 46, whatever the stack held, and its entry point is the value whose bytes, lowest first, are its bytes 24 to 27 |
| Loader.ShortProgram | student-distrib/system_call.c:266-279 | a shorter file is completed by what the stack buffer held: both decide |
| Loader.AlwaysLoads | student-distrib/system_call.c:266-279 | a command loads whatever the stack held if and only if it names a file that starts with the magic |
| Loader.WrittenProgram | student-distrib/system_call.c:264-279 | a program written to a disk is found by a command of its name, as the very bytes written |
| Loader.LoadsOf | student-distrib/system_call.c:145 | a disk with a shell loads the same program every time a command is given with the same stack, and always loads the shell |
| Loader.OnlyOwnFrame | student-distrib/system_call.c:320 | no other process's frame is in the range written |
| Screen.ReadyShows | student-distrib/lib.c:312-326 | the lazy scroll at row 25 keeps the window |
| Screen.ShowsColumn | student-distrib/lib.c:221-275 | the cursor's column is where the text ends |
| Screen.PaintedShows | student-distrib/lib.c:305-367 | after any character the 2000 cells are the matching 25 rows of an unbounded page wrapping at column 80, and the cursor is at the end of the text |
| Screen.PaintedCells | student-distrib/lib.c:305-367 | in characters: a printable one is in the cell before the new cursor with attribute 7, a backspace and a tab leave spaces, a break goes to column 0 of the next row |
| Screen.BlankCells | student-distrib/lib.c:313-325 | scrolling moves rows up by 80 cells; the new last row, and a cleared page, are spaces with attribute 7 |
| Screen.WritesVisible | student-distrib/lib.c:312-366 | every write lands in the 2000 visible cells |
| Screen.StreamShows | student-distrib/lib.c:210-275 | the same for any stream of printable characters and line breaks |
| Screen.StreamSpells | student-distrib/lib.c:210-275 | the text laid out by a stream, cell by cell: the character printed at that position of an 80-column layout, or a space |
| Screen.ScreenSpells | student-distrib/lib.c:210-275 | hence on the screen: every printed character that has not scrolled away is in its cell, the other cells up to the cursor are spaces |
| Screen.TabExact | student-distrib/lib.c:237-251 | a tab keeps the window if and only if it does not run past the bottom-right corner |
| Screen.SplitTabLosesColumns | student-distrib/lib.c:221-251 | after a tab that does, the next character goes back to the first column |
| Screen.Scroll | student-distrib/lib.c:313-325 | the overlapping ascending copy moves every row up and blanks the last |
| Screen.PutBlanks | student-distrib/lib.c:328-342 | the tab loop |
| Screen.Put | student-distrib/lib.c:305-367 | page and cursor after any character, and a printable character in the cell before the cursor |
| Screen.Clear | student-distrib/lib.c:43-50 | the visible cells are blank |
| Keyboard.KeyCharPrintable | student-distrib/keyboard.c:112-131 | no key but Enter and Backspace has a control character or NUL in any table used |
| Keyboard.TabIsSpace | student-distrib/keyboard.c:112-131 | the tab key's own entry is a space |
| Keyboard.ShiftedFlags | student-distrib/keyboard.c:75-108 | press and release codes of each modifier, by number |
| KeyLaws.ModifierKeys | student-distrib/keyboard.c:75-108 | after any events ctrl, each shift and alt are on exactly if their press code came after their release code, and caps lock exactly if 0x3A came an odd number of times |
| KeyLaws.ShownIsLastAsked | student-distrib/keyboard.c:160-179 | after any events the terminal shown is the one last asked for with alt held and F1, F2 or F3 |
| KeyLaws.AltFunctionKey | student-distrib/keyboard.c:160-179 | 0x38 and then 0x3B + t shows terminal t, in whatever state |
| KeyLaws.SymbolKey | student-distrib/keyboard.c:112-131 | the two symbols of each symbol key, by code: the upper one with shift and without caps lock only |
| KeyLaws.LetterKey | student-distrib/keyboard.c:112-131 | the letter of each letter key, by code: a capital with caps lock or shift but not both |
| KeyLaws.TypedKey | student-distrib/keyboard.c:233-286 | a typing key adds its character to the line shown while that has fewer than 128 |
| KeyLaws.EditingKeys | student-distrib/keyboard.c:186-232 | backspace drops the last character, tab adds four spaces below 125 characters and one below 128, Enter keeps the line, control-L empties it |
| KeyLaws.OtherLines | student-distrib/keyboard.c:144-307 | no key touches the line of a terminal that is not shown |
| KeyLaws.EnterFlag | student-distrib/keyboard.c:199-202 | in every run the flag a read waits for is up exactly if Enter was pressed while its terminal was shown and no read or halt of that terminal began since |
| KeyLaws.AfterRead | student-distrib/terminal.c:496-498 | the end of a read clears the count and four bytes of the buffer, and nothing else |
| KeyLaws.AfterHalt | student-distrib/system_call.c:135-138 | a halt clears the current terminal's line, buffer and flag, and nothing else |
| Console.StepFit | student-distrib/keyboard.c:140-311 | every event keeps 0 <= numchar <= 128, no NUL in the line, and numchar at most the cells before the cursor, so a backspace never takes the cursor above row 0 |
| Console.InsertRefines | student-distrib/keyboard.c:233-286 | a typed character appends to line and text of the shown terminal and to nothing else (one terminal, whatever the other pages hold) |
| Console.EraseRefines | student-distrib/keyboard.c:186-198 | a backspace removes the last character of line and text, across row wraps and scrolls (one terminal, whatever the other pages hold) |
| Console.EnterRefines | student-distrib/keyboard.c:199-202 | Enter breaks the line on screen and raises the flag, keeping the line (one terminal, whatever the other pages hold) |
| Console.ClearRefines | student-distrib/keyboard.c:203-207 | control-L empties text and line, and makes the shown screen a window on its text whatever it held before |
| Console.TypeRefines | student-distrib/keyboard.c:209-286 | tabs and characters, with the limits 125 and 128 |
| Console.SwapRefines | student-distrib/system_call.c:85-118 | a swap changes only which terminal is shown (one terminal, whatever the other pages hold) |
| Console.StepRefines | student-distrib/keyboard.c:140-311 | every allowed event is the corresponding step of three independent texts and lines (one terminal, whatever the other pages hold) |
| Console.ReadDelivers | student-distrib/terminal.c:478-498 | a read delivers the first min(nbytes, numchar) bytes of the current terminal's line, whatever the screens hold |
| Console.RunRefines | student-distrib/system_call.c:85-118 | over any allowed run a terminal's screen that is the window on its text stays it: output reaches only the current terminal, echo only the shown one; nothing is asked of the other terminals' pages, so it holds of terminal 0 from boot |
| Console.RunRefinesAll | student-distrib/system_call.c:85-118 | the same for the three terminals together |
| Console.ClearThenRefines | student-distrib/keyboard.c:203-207 | a terminal whose page held anything becomes the window on its text when its screen is first cleared, and stays it |
| Console.ScreensConserved | student-distrib/system_call.c:85-118 | whatever the screens hold, a step changes no other terminal's screen, and a swap none |
| Console.RunLines | student-distrib/keyboard.c:184-307 | lines follow the simple line editor in every run, whatever is printed |
| Console.LineStep | student-distrib/keyboard.c:184-307 | what each event does to each terminal's line |
| Console.LineIsFold | student-distrib/keyboard.c:184-307 | a line is the fold of the editing actions typed while its terminal was shown since its last reset |
| Console.KeyRouting | student-distrib/keyboard.c:144-307 | in any interleaving the buffer prefix is that fold, at most 128 characters, without NUL |
| Console.EchoStep | student-distrib/keyboard.c:184-307 | every event keeps the end of the text spelling the line, unless it prints or breaks the line while the line is not empty |
| Console.EchoRun | student-distrib/keyboard.c:184-307 | the same over runs |
| Console.EchoOnScreen | student-distrib/keyboard.c:184-307 | on the real page the numchar cells before the cursor show the characters of the buffer, for any terminal that starts as a window on its text, terminal 0 from boot |
| Console.InsertExact | student-distrib/terminal.c:71-73 | the echo is faithful on the current terminal if and only if terminal_write does not take the buffer for a prompt |
| Console.StaleBufferPrompts | student-distrib/terminal.c:71-73 | keys that get there from an empty line: X91O, control-L, one character of output; the buffer then still holds 91O and the first 3 typed completes a prompt |
| Console.InStepExactly | student-distrib/PIT.c:89-104 | a tick puts the mapping of B8 in step; a swap keeps it so exactly when neither terminal involved is the current one |
| Console.OutputBeforeTick | student-distrib/PIT.c:89-104 | output between a swap and the next tick lands on the terminal now shown |
| Console.EmptyRefines | student-distrib/lib.c:43-50 | at boot, with only page B8 cleared, terminal 0 stands for an empty text and all lines are empty |
| Drivers.Video.constructor | student-distrib/system_call.c:62-75 | the state at boot: page B8 cleared, the other pages as they were, all lines empty |
| Drivers.Video.PutTo | student-distrib/lib.c:305-367 | one character on a given page at a given terminal's cursor |
| Drivers.Video.Putc | student-distrib/lib.c:210-275 | on the page virtual B8 denotes, at the current terminal's cursor |
| Drivers.Video.PutcForKeyboard | student-distrib/lib.c:305-367 | on physical page B8, at the shown terminal's cursor |
| Drivers.Video.TypeChar | student-distrib/keyboard.c:233-241 | store, echo, count |
| Drivers.Video.CapCtrlShift | student-distrib/keyboard.c:75-108 | which codes are modifiers, and each flag by press and release code |
| Drivers.Video.CopyPage | student-distrib/system_call.c:113-116 | the page copy |
| Drivers.Video.TerminalSwap | student-distrib/system_call.c:85-118 | both page copies; the terminal asked for is shown |
| Drivers.Video.ClearForKeyboard | student-distrib/lib.c:43-50 | page B8 blank and the cursor home |
| Drivers.Video.PressBackspace | student-distrib/keyboard.c:186-198 | the backspace branch |
| Drivers.Video.PressEnter | student-distrib/keyboard.c:199-202 | the Enter branch |
| Drivers.Video.PressClear | student-distrib/keyboard.c:203-208 | the control-L branch |
| Drivers.Video.PressTab | student-distrib/keyboard.c:209-232 | the tab branch: four spaces typed |
| Drivers.Video.PressKey | student-distrib/keyboard.c:233-286 | the table chosen by each combination of shift and caps lock |
| Drivers.Video.Press | student-distrib/keyboard.c:184-307 | the chain of branches equals decoding the key and acting on it |
| Drivers.Video.KeyboardInterrupt | student-distrib/keyboard.c:140-311 | the whole handler, for every scan code; with alt, F1 to F3 show terminals 0 to 2 |
| Drivers.Video.TimerRemap | student-distrib/PIT.c:168-187 | the next terminal, with virtual B8 on its screen |
| Drivers.Video.ResetLine | student-distrib/system_call.c:135-138 | the line of the current terminal is empty |
| Drivers.Video.BeginRead | student-distrib/terminal.c:469 | the flag is lowered |
| Drivers.Video.EndRead | student-distrib/terminal.c:478-498 | delivers the first min(nbytes, numchar) bytes of the line, resets the count, clears four bytes of the buffer |
| Views.StepJoined | student-distrib/PIT.c:157-194 | scheduler and console agree on the current and the shown terminal and on where virtual page B8 points, after every kind of step |
| Views.Run | student-distrib/PIT.c:89-104 | the same over any interleaving of ticks, calls, halts, keys, output and reads |
| Views.VideoWrites | student-distrib/PIT.c:89-104 | at any point of such a run a kernel write to 0xB8000 + x reaches the physical page the console model writes, one to 0xBC000 + x always physical 0xB8000 + x, and right after a tick the former is the current terminal's screen |
| Views.BootJoined | student-distrib/PIT.c:129-155 | after boot the two views are joined, whatever the pages hold: the state the runs start from |
| Numbers.ParseNumeral | student-distrib/lib.c:440-470 | parsing the numeral of v gives v; digits are below the radix; no leading zero |
| Numbers.NumeralParse | student-distrib/lib.c:440-470 | conversely a numeral without leading zeros is the numeral of its value |
| Numbers.NumeralAppend | student-distrib/lib.c:440-470 | one more digit at the low end of a numeral |
| Numbers.DigitValues | student-distrib/lib.c:440-470 | the digit characters in order of value |
| Numbers.HexLength | student-distrib/lib.c:115-125 | a 32-bit value has at most eight hexadecimal digits |
| Numbers.StrLen | student-distrib/lib.c:495-500 | the length of the string at a position of a buffer |
| Numbers.StrRev | student-distrib/lib.c:476-489 | the string is reversed in place, its length and everything around it kept |
| Numbers.DigitsLowFirst | syscalls/ece391support.c:69-74 | the digit loop writes the numeral backwards |
| Numbers.Itoa | syscalls/ece391support.c:49-81 | writes the numeral and its terminator and nothing else |
| Numbers.PadZeros | student-distrib/lib.c:119-122 | the padding loop stores zeros below position 8 only |
| Numbers.HexPadded | student-distrib/lib.c:115-125 | always exactly eight digits that parse to the value |
| Blinker.AddAgrees | fish/blink.S:140-162 | list and arena still agree after an add if and only if the location is not zero |
| Blinker.ZeroLocationMakesCycle | fish/fish.c:160-170 | after adding location 0 the next add is given the same slot and links it to itself: following the pointers from the head never reaches NULL |
| Blinker.FullWhenNoneFree | fish/fish.c:160-170 | no slot is free exactly when the list has 2000 nodes |
| Blinker.RemoveAgrees | fish/blink.S:214-222 | unlinking any node and clearing its slot keeps the agreement |
| Blinker.UpdateAgrees | fish/blink.S:267-275 | so does rewriting a node's lengths, countdown and status |
| Blinker.TickAgrees | fish/blink.S:60-90 | so does ticking every node of the list |
| Blinker.NextSlotIsFirstFree | fish/fish.c:160-170 | the slot handed out is the lowest one the list does not use |
| Blinker.ActIsStep | fish/blink.S:105-300 | every operation with a non-zero location keeps memory good (acyclic, ending in NULL, its nodes exactly the slots in use) and does to the list read from memory what the list operation says |
| Blinker.AddKeepsGood | fish/blink.S:140-162 | memory stays good after an add if and only if the add fails or its location is not zero |
| Blinker.AddedInFront | fish/blink.S:140-162 | an add at locations 1 to 1999 puts the node, on and with its full countdown, in front, in the lowest free slot |
| Blinker.RemovedFromList | fish/blink.S:187-237 | a remove takes out the most recent node of its location, keeps the others in order, and frees its slot |
| Blinker.SyncCopies | fish/blink.S:260-275 | a sync copies lengths, countdown and status between the most recent nodes of two locations and nothing else |
| Blinker.NodesAre | fish/blink.S:351-379 | memory determines the list |
| Blinker.RunStaysGood | fish/blink.S:105-300 | after any sequence of adds at non-zero locations, removes, syncs and ticks the list is acyclic and its nodes are exactly the slots in use |
| Blinker.TickedOncePerTick | fish/blink.S:49-99 | in any run of such operations on memory, a node that is not removed or overwritten is ticked exactly once per tick, in its slot |
| Blinker.Phase | fish/blink.S:64-86 | n ticks after its add a node is on exactly when n mod (on + off) < on, with the matching countdown |
| Blinker.PhaseOverRun | fish/blink.S:49-162 | the same for the slot a node was given, in any run on memory, whatever else is added at non-zero locations, removed or synced |
| Blinker.SyncedStayTogether | fish/blink.S:240-275 | in any such run the slots of two synced nodes keep equal status and countdown until one is removed or overwritten |
| Blinker.Arena.constructor | fish/fish.c:28 | an empty list agrees with a zeroed arena |
| Blinker.Arena.Malloc | fish/fish.c:160-170 | the lowest slot with location 0, or NULL |
| Blinker.Arena.FindHelper | fish/blink.S:351-379 | the most recently added node of that location, or NULL; the walk ends |
| Blinker.Arena.FindPredecessor | fish/blink.S:206-212 | the search for the pointer that leads to a node of the list ends, at its predecessor |
| Blinker.Arena.Add | fish/blink.S:105-184 | memory as the first free slot and new head say, the list prepended; fails only on a bad location or a full arena; memory stays good exactly when it fails or the location is not zero |
| Blinker.Arena.Unlink | fish/blink.S:200-222 | the pointer to a node skips it and its slot is cleared |
| Blinker.Arena.Remove | fish/blink.S:187-237 | deletes the most recent node of that location and keeps the rest in order |
| Blinker.Arena.Sync | fish/blink.S:240-300 | copies phase and lengths between the two most recent nodes, or fails |
| Blinker.Arena.TickNode | fish/blink.S:60-90 | one node's countdown and status, its pointer kept |
| Blinker.Arena.Tick | fish/blink.S:49-99 | every node of the list is ticked once, in place |
| Rtc.Saturates | student-distrib/rtc.c:87-89 | while a terminal waits, its counter is the number of interrupts, capped at its interval, whatever the others do |
| Rtc.IntervalKept | student-distrib/rtc.c:185-204 | only a terminal's own write changes its interval |
| Rtc.OthersLeaveAlone | student-distrib/rtc.c:168-204 | a call of another terminal leaves a terminal's timer alone |
| Rtc.Deadline | student-distrib/rtc.c:168-173 | after a write of f in 2..1024 each later read is ready from its (1024/f)th interrupt on and not before |
| Rtc.BoundedExactly | student-distrib/rtc.c:185-204 | counter <= interval is kept except exactly by a refused frequency above 32768 with a counter above zero |
| Rtc.RefusedWriteIsHarmless | student-distrib/rtc.c:168-197 | even then the next read is ready at once |
| Rtc.Clock.constructor | student-distrib/system_call.c:62-75 | all counters and intervals zero |
| Rtc.Clock.InterruptHandler | student-distrib/rtc.c:77-101 | every terminal's saturating step |
| Rtc.Clock.Open | student-distrib/rtc.c:122-140 | the current terminal's counter is 0, its interval and the other terminals as before |
| Rtc.Clock.BeginRead | student-distrib/rtc.c:168-170 | the same |
| Rtc.Clock.Write | student-distrib/rtc.c:185-206 | the interval is 1024 / f in every case, the counter 0 for f in 2..32768 and as before otherwise |

## Left out

- Processes.BootSimulates: for a disk that holds a shell; without one the kernel has nothing to run, and `RestartNeedsShell` says that a halt then goes wrong.
- Console.RunRefines: for runs with no output between a swap and the next tick, no tab split at the corner and no echo taken for a prompt; `InStepExactly`, `TabExact` and `InsertExact` say exactly where these matter.
- Drivers.Video.Putc: not for backspace, which on this path puts the cursor at column 80.
- Console.StepFit: not for a backspace printed by a process, for the same reason.
- Drivers.Video.TypeChar: the other branch of `terminal_write`, a process writing a string, is a sequence of single output events, its prompt line break among them.
- Drivers.Video.EndRead: a terminal's 128-byte buffer is a string in a record that is replaced on each write, so aliasing of the buffer is not captured.
- Descriptors.Process.Read: what a terminal, clock or directory read returns is a parameter; the entry and bytes `read_dir` copies are not modelled.
- Descriptors.Process.CatFile: for regular files, for the same reason.
- Blinker.Arena.Sync: the characters poked to video memory, here and in add and tick, are not modelled; the poke made by sync does not match the phase.
- Rtc.Clock.Write: frequencies of zero or below, a division by zero or a negative interval, are excluded.
- Loader.CopyParts: commands of 150 bytes or more overrun the buffers and are excluded.
- Loader.Split: the same.
- The chat mode of the terminal and its flag, which is taken as off: canned text.
- `sys_vidmap` and writes through it, `sys_getargs`, signals: no invariant to keep.
- Port input and output, the interrupt controller, descriptor tables and boot code; the cursor registers.
- Descriptors outside 0 to 7 and negative byte counts, which the code does not check.
- `putc_for_files`, the plain and signed printf formats, and the user programs other than `cat` and the blinker: easy or unused.
