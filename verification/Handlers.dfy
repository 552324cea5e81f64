/** The handlers of system_call.c and PIT.c as they update the kernel's globals in place, each
    proved to have the effect of the corresponding function of module Processes. */
module Handlers {
  import opened Bytes
  import opened FileSystem
  import opened Loader
  import opened Paging
  import opened Processes
  import opened Terminals

  /** "shell" with its terminator, as the kernel passes it to sys_execute. */
  const SHELL_COMMAND: seq<byte> := SHELL + [0, 0]

  lemma ShellCommand()
    ensures IsCommand(SHELL_COMMAND) && CStr(SHELL_COMMAND, 0) == SHELL
  {
    CStrIs(SHELL_COMMAND, 0, SHELL);
  }

  class System {
    const terminalPid: array<int>
    const tables: PageTables
    var currentPid: int
    var currentTerminal: nat
    var terminalShown: nat
    var globalProcessCount: int
    var isBaseShell: bool
    var currPcb: int
    var pcbs: map<int, Pcb>
    var esp0: int
    var bootCount: nat
    var afterThreeExecutes: bool
    var destinationPid: int

    function State(): Kernel
      reads this, terminalPid, tables.pd, tables.low, tables.video
    {
      Kernel(terminalPid[..], currentPid, currentTerminal, terminalShown, globalProcessCount, isBaseShell,
             currPcb, pcbs, esp0, tables.State(), bootCount, afterThreeExecutes, destinationPid)
    }

    ghost predicate Valid()
      reads this, terminalPid, tables.pd, tables.low, tables.video
    {
      tables.Valid() && Shaped(State())
    }

    /** init_processes, and init_pcb_start for the three base shells.  `stack` is what the
        kernel stacks held, and `shown` the terminal on the screen. */
    constructor (tables: PageTables, stack: map<int, Pcb>, shown: nat, now: seq<Context>, calls: seq<Frame>)
      requires tables.Valid() && MapsFor(tables.State(), 0, VIDEO) && shown < TERMINALS
      requires |now| == |calls| == TERMINALS
      ensures Valid() && this.tables == tables && fresh(terminalPid)
      ensures Booting(State(), 0, now, calls)
    {
      terminalPid := new int[MAX_PROCESSES](_ => 0);
      this.tables := tables;
      currentPid, currentTerminal, terminalShown, globalProcessCount := 0, 0, shown, 0;
      isBaseShell, bootCount, afterThreeExecutes, destinationPid := false, 0, false, 0;
      esp0 := PidStack(0);
      currPcb := PcbAddress(0);
      pcbs := stack[PcbAddress(12) := Pcb(12, 11, 0, 0, Context(0, 0))]
                   [PcbAddress(6) := Pcb(6, 5, 0, 0, Context(0, 0))]
                   [PcbAddress(0) := Pcb(0, -1, 0, 0, Context(0, 0))];
      new;
      for i := 0 to MAX_PROCESSES
        invariant forall k :: 0 <= k < i ==> terminalPid[k] == UNUSED
        modifies terminalPid
      {
        terminalPid[i] := UNUSED;
      }
    }

    method SetContext(now: Context)
      modifies `pcbs
      ensures pcbs == WithContext(old(pcbs), currPcb, now)
    {
      pcbs := pcbs[currPcb := PcbAt(pcbs, currPcb).(sched := now)];
    }

    /** The loop that looks for a free slot of the current terminal. */
    method SearchSlot() returns (i: nat)
      requires Valid()
      ensures i == FirstUnused(terminalPid[..], currentTerminal)
    {
      i := 0;
      while i < MAX_PCB
        invariant i <= MAX_PCB
        invariant FirstUnused(terminalPid[..], currentTerminal) == FirstUnused(terminalPid[..], currentTerminal, i)
      {
        if terminalPid[currentTerminal * PER_TERMINAL + i] == UNUSED { break; }
        i := i + 1;
      }
    }

    /** The new process's slot: the base slot when a base shell restarts, else the first free. */
    method TakeSlot()
      requires Valid() && HasRoom(State())
      modifies `currentPid, `isBaseShell, terminalPid
      ensures currentPid == NewPid(old(State())) && !isBaseShell
      ensures terminalPid[..] == old(terminalPid[..])[currentPid := currentPid]
    {
      if isBaseShell {
        currentPid := currentTerminal * PER_TERMINAL;
        terminalPid[currentTerminal * PER_TERMINAL] := currentPid;
        isBaseShell := false;
      } else {
        var i := SearchSlot();
        currentPid := currentTerminal * PER_TERMINAL + i;
        terminalPid[currentTerminal * PER_TERMINAL + i] := currentPid;
      }
    }

    /** init_pcb and the steps around it, for the process `currentPid` just chosen. */
    method StartProcess(eip: nat, ebp: int)
      modifies `currPcb, `pcbs, `esp0, `globalProcessCount
      ensures currPcb == PcbAddress(currentPid) && esp0 == PidStack(currentPid)
      ensures pcbs == old(pcbs)[currPcb := Pcb(currentPid, currentPid - 1, eip, ebp, PcbAt(old(pcbs), old(currPcb)).sched)]
      ensures globalProcessCount == old(globalProcessCount) + 1
    {
      var pcb := Pcb(currentPid, currentPid - 1, eip, 0, PcbAt(pcbs, currPcb).sched);
      currPcb := PcbAddress(currentPid);
      pcbs := pcbs[currPcb := pcb];
      pcbs := pcbs[currPcb := pcbs[currPcb].(ebp := ebp)];
      esp0 := PidStack(currentPid);
      globalProcessCount := globalProcessCount + 1;
    }

    /** From the second open of the file to the end of the copy into the frame of the slot just
        taken.  It fails exactly when there is no such file or it cannot be read. */
    method FillFrame(img: Image, name: seq<byte>, memory: array<byte>) returns (ok: bool)
      requires tables.Valid() && WellFormed(img) && Terminated(name, 0)
      requires 0 <= currentPid < PIDS && memory.Length >= FrameAt(PIDS)
      modifies tables.pd, memory
      ensures ok <==> Find(img, CStr(name, 0)) >= 0 && Readable(img, EntryInode(img, Find(img, CStr(name, 0))))
      ensures ok ==> tables.State() == WithUserPage(old(tables.State()), currentPid)
      ensures ok ==> FrameHolds(img, EntryInode(img, Find(img, CStr(name, 0))), old(memory[..]), memory[..], currentPid)
    {
      var entry := LookUp(img, name);
      if entry == -1 { return false; }
      tables.SetUserPage(currentPid);
      assert memory[..] == old(memory[..]);
      ok := CopyProgram(img, EntryInode(img, entry), memory, currentPid);
    }

    /** The part of sys_execute after the slot has been taken.  Its two error returns, in
        FillFrame, would leave the slot taken; the assertion says that they are never reached. */
    method LoadAndStart(img: Image, name: seq<byte>, eip: nat, memory: array<byte>, ebp: int)
      requires tables.Valid() && WellFormed(img) && Terminated(name, 0)
      requires 0 <= currentPid < PIDS && memory.Length >= FrameAt(PIDS)
      requires Find(img, CStr(name, 0)) >= 0 && Readable(img, EntryInode(img, Find(img, CStr(name, 0))))
      modifies `currPcb, `pcbs, `esp0, `globalProcessCount, tables.pd, memory
      ensures tables.State() == WithUserPage(old(tables.State()), currentPid)
      ensures FrameHolds(img, EntryInode(img, Find(img, CStr(name, 0))), old(memory[..]), memory[..], currentPid)
      ensures currPcb == PcbAddress(currentPid) && esp0 == PidStack(currentPid)
      ensures pcbs == old(pcbs)[currPcb := Pcb(currentPid, currentPid - 1, eip, ebp, PcbAt(old(pcbs), old(currPcb)).sched)]
      ensures globalProcessCount == old(globalProcessCount) + 1
    {
      var ok := FillFrame(img, name, memory);
      assert ok;
      StartProcess(eip, ebp);
    }

    /** The part of sys_execute after the header check. */
    method Launch(img: Image, name: seq<byte>, eip: nat, memory: array<byte>, ebp: int)
      requires Valid() && HasRoom(State()) && WellFormed(img) && Terminated(name, 0)
      requires memory.Length >= FrameAt(PIDS) && memory as object != terminalPid
      requires Find(img, CStr(name, 0)) >= 0 && Readable(img, EntryInode(img, Find(img, CStr(name, 0))))
      modifies this, terminalPid, tables.pd, memory
      ensures Valid()
      ensures State() == Processes.Launch(old(State()), eip, ebp)
      ensures FrameHolds(img, EntryInode(img, Find(img, CStr(name, 0))), old(memory[..]), memory[..], currentPid)
    {
      LaunchShaped(State(), eip, ebp);
      TakeSlot();
      assert memory[..] == old(memory[..]);
      LoadAndStart(img, name, eip, memory, ebp);
    }

    /** sys_execute.  On success control goes to the new program and comes back only when it
        halts, so `r` is the return value of the other cases.  `left` is what the header buffer
        held. */
    method Execute(img: Image, cmd: seq<byte>, left: Leftover, memory: array<byte>, ebp: int)
      returns (launched: bool, r: int)
      requires Valid() && WellFormed(img) && IsCommand(cmd)
      requires memory.Length >= FrameAt(PIDS) && memory as object != terminalPid
      modifies this, terminalPid, tables.pd, memory
      ensures Valid()
      ensures State() == Processes.Execute(old(State()), ProgramOf(img, CStr(cmd, 0), left), ebp)
      ensures launched == (ProgramOf(img, CStr(cmd, 0), left).Loadable? && HasRoom(old(State())))
      ensures launched ==> Filled(img, CStr(cmd, 0), old(memory[..]), memory[..], currentPid)
      ensures launched && LongEnough(img, CStr(cmd, 0)) ==>
        IsEntry(PcbAt(pcbs, currPcb).eip, NamedFile(img, CStr(cmd, 0)))
      ensures !launched ==> memory[..] == old(memory[..])
      ensures !launched ==> r == if IsChatText(CStr(cmd, 0)) then 0 else -1
    {
      var chat := IsChat(cmd);
      if chat { return false, 0; }
      var i := SearchSlot();
      if i == MAX_PCB || globalProcessCount == MAX_PCB { return false, -1; }
      var name, program := Inspect(img, cmd, left);
      if program.NotLoadable? { return false, -1; }
      Launch(img, name[..], program.eip, memory, ebp);
      if LongEnough(img, CStr(cmd, 0)) { EntryPoint(img, CStr(cmd, 0), left); }
      return true, 0;
    }

    /** The rest of sys_halt, for a process with a parent. */
    method ReturnToParent() returns (resume: int)
      requires Valid() && currentPid % PER_TERMINAL != 0
      modifies this, terminalPid, tables.pd
      ensures Valid()
      ensures forall shell, ebp :: State() == Processes.Halt(old(State()), shell, ebp)
      ensures resume == HaltResumes(old(State()))
    {
      tables.SetUserPage(currentPid - 1);
      esp0 := PidStack(currentPid - 1);
      terminalPid[currentPid] := UNUSED;
      resume := PcbAt(pcbs, currPcb).ebp;
      currPcb := PcbAddress(currentPid - 1);
      currentPid := currentPid - 1;
      globalProcessCount := globalProcessCount - 1;
    }

    /** sys_halt.  `resume` is the frame pointer loaded before the jump back into execute. */
    method Halt(img: Image, left: Leftover, memory: array<byte>, ebp: int) returns (resume: int)
      requires Valid() && WellFormed(img)
      requires memory.Length >= FrameAt(PIDS) && memory as object != terminalPid
      modifies this, terminalPid, tables.pd, memory
      ensures Valid()
      ensures State() == Processes.Halt(old(State()), ProgramOf(img, SHELL, left), ebp)
      ensures old(currentPid) % PER_TERMINAL != 0 ==> resume == HaltResumes(old(State())) && memory[..] == old(memory[..])
    {
      if currentPid % PER_TERMINAL == 0 {
        isBaseShell := true;
        globalProcessCount := globalProcessCount - 1;
        ShellCommand();
        var launched, r := Execute(img, SHELL_COMMAND, left, memory, ebp);
        return -1;
      }
      resume := ReturnToParent();
    }

    /** The search for the newest process of the current terminal. */
    method ChooseNewest()
      requires Valid()
      modifies `destinationPid, `currentPid, `currPcb
      ensures var i := HighestUsed(terminalPid[..], currentTerminal); var pid := PER_TERMINAL * currentTerminal + i;
        if i >= 0 then destinationPid == currentPid == pid && currPcb == PcbAddress(pid)
        else destinationPid == old(destinationPid) && currentPid == old(currentPid) && currPcb == old(currPcb)
    {
      var base := PER_TERMINAL * currentTerminal;
      var i: int := base + 5;
      while i >= base
        invariant base - 1 <= i <= base + 5
        invariant destinationPid == old(destinationPid) && currentPid == old(currentPid) && currPcb == old(currPcb)
        invariant HighestUsed(terminalPid[..], currentTerminal)
               == HighestUsed(terminalPid[..], currentTerminal, i + 1 - base)
      {
        if terminalPid[i] != UNUSED {
          destinationPid := i;
          currentPid := i;
          currPcb := PcbAddress(destinationPid);
          return;
        }
        i := i - 1;
      }
    }

    /** PIT_interrupt_handler from the new page to the stack it switches to. */
    method ResumeDestination() returns (resume: Context)
      requires Valid()
      modifies `esp0, tables.pd, tables.low, tables.video
      ensures tables.State()
           == WithScreen(WithUserPage(old(tables.State()), destinationPid), ScreenPage(currentTerminal, terminalShown))
      ensures esp0 == PidStack(destinationPid) && resume == PcbAt(pcbs, currPcb).sched
    {
      tables.SetUserPage(destinationPid);
      tables.Remap(currentTerminal, terminalShown);
      esp0 := PidStack(destinationPid);
      resume := PcbAt(pcbs, currPcb).sched;
    }

    /** PIT_interrupt_handler from the choice of the next terminal on. */
    method SwitchToNext() returns (resume: Context)
      requires Valid()
      modifies this, tables.pd, tables.low, tables.video
      ensures Valid()
      ensures State() == SwitchTo(old(State()), NextTerminal(old(currentTerminal)))
      ensures resume == Resumes(State())
    {
      currentTerminal := (currentTerminal + 1) % TERMINALS;
      ChooseNewest();
      resume := ResumeDestination();
    }

    /** The boot branch of the handler, up to its execute. */
    method BeginBootTick(now: Context)
      requires Valid() && !afterThreeExecutes
      modifies this, tables.low, tables.video
      ensures Valid() && State() == BootSwitch(old(State()), now)
    {
      if bootCount != 0 {
        currPcb := PcbAddress(currentTerminal * PER_TERMINAL);
        SetContext(now);
      }
      if bootCount == 2 { afterThreeExecutes := true; }
      currentTerminal := bootCount;
      currPcb := PcbAddress(currentTerminal * PER_TERMINAL);
      bootCount := bootCount + 1;
      tables.Remap(currentTerminal, terminalShown);
    }

    /** PIT_interrupt_handler.  `now` is the interrupted stack; `switched` tells whether the
        handler returned, into `resume`, or left for a new shell. */
    method TimerInterrupt(now: Context, img: Image, left: Leftover, memory: array<byte>, ebp: int)
      returns (switched: bool, resume: Context)
      requires Valid() && WellFormed(img)
      requires memory.Length >= FrameAt(PIDS) && memory as object != terminalPid
      modifies this, terminalPid, tables.pd, tables.low, tables.video, memory
      ensures Valid()
      ensures State() == if old(afterThreeExecutes) then Tick(old(State()), now)
                         else BootTick(old(State()), now, ProgramOf(img, SHELL, left), ebp)
      ensures var s := old(State());
        switched <==> s.booted || !(ProgramOf(img, SHELL, left).Loadable? && HasRoom(BootSwitch(s, now)))
      ensures switched ==> resume == Resumes(State()) && memory[..] == old(memory[..])
    {
      if !afterThreeExecutes {
        BeginBootTick(now);
        ShellCommand();
        var launched, r := Execute(img, SHELL_COMMAND, left, memory, ebp);
        if launched { return false, now; }
      } else {
        currPcb := PcbAddress(currentPid);
        SetContext(now);
      }
      switched := true;
      resume := SwitchToNext();
    }
  }
}
