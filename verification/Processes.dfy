/** The process table and the round-robin scheduler (system_call.c, PIT.c): eighteen slots,
    six for each of three terminals, and the handlers tick, execute and halt, each of
    which is one step here, as its `cli` intends. */
module Processes {
  import opened Terminals
  import opened Paging
  import opened FileSystem
  import opened Loader

  const PER_TERMINAL := 6
  const MAX_PROCESSES := 18
  const MAX_PCB := 6
  const UNUSED := -1

  /** A saved stack and frame pointer pair. */
  datatype Context = Context(esp: int, ebp: int)

  datatype Pcb = Pcb(pid: int, parent: int, eip: nat, ebp: int, sched: Context)

  /** The globals of the kernel that these handlers use.  `boots` counts the boot ticks and
      `booted` is After_Three_Execute_Flag. */
  datatype Kernel = Kernel(
    slots: seq<int>, pid: int, terminal: nat, shown: nat, count: int, baseShell: bool,
    currPcb: int, pcbs: map<int, Pcb>, esp0: int, mmu: Mmu, boots: nat, booted: bool, dest: int)

  const BLANK := Pcb(0, 0, 0, 0, Context(0, 0))

  function PcbAt(pcbs: map<int, Pcb>, address: int): Pcb {
    if address in pcbs then pcbs[address] else BLANK
  }

  predicate Shaped(k: Kernel) {
    && |k.slots| == MAX_PROCESSES && k.terminal < TERMINALS && k.shown < TERMINALS
    && |k.mmu.pd| == |k.mmu.low| == |k.mmu.video| == ENTRIES
    && 0 <= k.pid < MAX_PROCESSES && 0 <= k.dest < MAX_PROCESSES && k.boots <= TERMINALS
    && (!k.booted ==> k.boots < TERMINALS)
  }

  // ----- the handlers as functions of the kernel state

  /** The first unused of a terminal's six slots, or six. */
  function FirstUnused(slots: seq<int>, terminal: nat, from: nat := 0): (i: nat)
    requires |slots| == MAX_PROCESSES && terminal < TERMINALS && from <= PER_TERMINAL
    ensures from <= i <= PER_TERMINAL
    decreases PER_TERMINAL - from
  {
    if from == PER_TERMINAL || slots[PER_TERMINAL * terminal + from] == UNUSED then from
    else FirstUnused(slots, terminal, from + 1)
  }

  /** The highest used of a terminal's first `upTo` slots, or -1. */
  function HighestUsed(slots: seq<int>, terminal: nat, upTo: nat := PER_TERMINAL): (i: int)
    requires |slots| == MAX_PROCESSES && terminal < TERMINALS && upTo <= PER_TERMINAL
    ensures -1 <= i < upTo
  {
    if upTo == 0 then -1
    else if slots[PER_TERMINAL * terminal + upTo - 1] != UNUSED then upTo - 1
    else HighestUsed(slots, terminal, upTo - 1)
  }

  function WithContext(pcbs: map<int, Pcb>, address: int, c: Context): map<int, Pcb> {
    pcbs[address := PcbAt(pcbs, address).(sched := c)]
  }

  /** The slot sys_execute takes: the base slot when restarting a base shell. */
  function NewPid(k: Kernel): nat
    requires Shaped(k)
  {
    PER_TERMINAL * k.terminal + if k.baseShell then 0 else FirstUnused(k.slots, k.terminal)
  }

  /** The part of sys_execute after the checks.  `ebp` is the frame it will be resumed at;
      the saved pair is copied from the PCB current so far. */
  function Launch(k: Kernel, eip: nat, ebp: int): Kernel
    requires Shaped(k) && FirstUnused(k.slots, k.terminal) < PER_TERMINAL
  {
    var pid := NewPid(k);
    k.(slots := k.slots[pid := pid], pid := pid, baseShell := false,
       mmu := WithUserPage(k.mmu, pid),
       pcbs := k.pcbs[PcbAddress(pid) := Pcb(pid, pid - 1, eip, ebp, PcbAt(k.pcbs, k.currPcb).sched)],
       currPcb := PcbAddress(pid), esp0 := PidStack(pid), count := k.count + 1)
  }

  predicate HasRoom(k: Kernel)
    requires Shaped(k)
  {
    FirstUnused(k.slots, k.terminal) != PER_TERMINAL && k.count != MAX_PCB
  }

  function Execute(k: Kernel, program: Program, ebp: int): Kernel
    requires Shaped(k)
  {
    if program.Loadable? && HasRoom(k) then Launch(k, program.eip, ebp) else k
  }

  /** Halting a base shell starts another in its place; any other process gives way to its
      parent, whose frame pointer saved at the matching execute is the result. */
  function Halt(k: Kernel, shell: Program, ebp: int): Kernel
    requires Shaped(k)
  {
    if k.pid % PER_TERMINAL == 0 then Execute(k.(baseShell := true, count := k.count - 1), shell, ebp)
    else k.(mmu := WithUserPage(k.mmu, k.pid - 1), esp0 := PidStack(k.pid - 1), slots := k.slots[k.pid := UNUSED],
            currPcb := PcbAddress(k.pid - 1), pid := k.pid - 1, count := k.count - 1)
  }

  function HaltResumes(k: Kernel): int { PcbAt(k.pcbs, k.currPcb).ebp }

  /** The tail of the timer handler: on to the next terminal and its newest process. */
  function SwitchTo(k: Kernel, terminal: nat): Kernel
    requires Shaped(k) && terminal < TERMINALS
  {
    var i := HighestUsed(k.slots, terminal);
    var pid := PER_TERMINAL * terminal + i;
    var dest := if i >= 0 then pid else k.dest;
    k.(terminal := terminal, dest := dest, pid := if i >= 0 then pid else k.pid,
       currPcb := if i >= 0 then PcbAddress(pid) else k.currPcb,
       mmu := WithScreen(WithUserPage(k.mmu, dest), ScreenPage(terminal, k.shown)), esp0 := PidStack(dest))
  }

  function NextTerminal(t: nat): nat { (t + 1) % TERMINALS }

  /** One timer interrupt after boot; the context restored is that of `Resumes`. */
  function Tick(k: Kernel, now: Context): Kernel
    requires Shaped(k)
  {
    var address := PcbAddress(k.pid);
    SwitchTo(k.(currPcb := address, pcbs := WithContext(k.pcbs, address, now)), NextTerminal(k.terminal))
  }

  function Resumes(k: Kernel): Context { PcbAt(k.pcbs, k.currPcb).sched }

  /** What a boot tick does before it executes the shell of terminal number `boots`. */
  function BootSwitch(k: Kernel, now: Context): Kernel
    requires Shaped(k) && !k.booted
  {
    var address := PcbAddress(PER_TERMINAL * k.terminal);
    var pcbs := if k.boots != 0 then WithContext(k.pcbs, address, now) else k.pcbs;
    k.(pcbs := pcbs, booted := k.boots == 2, terminal := k.boots, boots := k.boots + 1,
       currPcb := PcbAddress(PER_TERMINAL * k.boots),
       mmu := WithScreen(k.mmu, ScreenPage(k.boots, k.shown)))
  }

  /** The whole boot tick: control leaves the handler for the new shell unless the execute
      fails, and then the handler goes on to its tail. */
  function BootTick(k: Kernel, now: Context, shell: Program, ebp: int): Kernel
    requires Shaped(k) && !k.booted
  {
    var s := BootSwitch(k, now);
    if shell.Loadable? && HasRoom(s) then Launch(s, shell.eip, ebp) else SwitchTo(s, NextTerminal(s.terminal))
  }

  // ----- the simple machine: per terminal a stack of calls and the context last preempted

  /** A live process: the frame pointer of the execute that started it, and where it starts. */
  datatype Frame = Frame(ebp: int, entry: nat)

  /** `calls` holds the terminal's live processes, oldest first. */
  datatype Terminal = Terminal(calls: seq<Frame>, saved: Context)

  datatype Machine = Machine(terminals: seq<Terminal>, current: nat, shown: nat, page: nat)

  ghost function Total(m: Machine): nat
    requires |m.terminals| == TERMINALS
  {
    |m.terminals[0].calls| + |m.terminals[1].calls| + |m.terminals[2].calls|
  }

  ghost predicate Sound(m: Machine) {
    && |m.terminals| == TERMINALS && m.current < TERMINALS && m.shown < TERMINALS && IsScreenPage(m.page)
    && (forall t :: 0 <= t < TERMINALS ==> m.terminals[t].calls != [])
    && Total(m) <= MAX_PCB
  }

  ghost function Now(m: Machine): Terminal
    requires |m.terminals| == TERMINALS && m.current < TERMINALS
  {
    m.terminals[m.current]
  }

  ghost function WithCalls(m: Machine, calls: seq<Frame>): Machine
    requires |m.terminals| == TERMINALS && m.current < TERMINALS
  {
    m.(terminals := m.terminals[m.current := Now(m).(calls := calls)])
  }

  ghost function Called(m: Machine, program: Program, ebp: int): Machine
    requires Sound(m)
  {
    if program.Loadable? && Total(m) < MAX_PCB then WithCalls(m, Now(m).calls + [Frame(ebp, program.eip)]) else m
  }

  /** `shell` is the call that replaces a base shell. */
  ghost function Returned(m: Machine, shell: Frame): Machine
    requires Sound(m)
  {
    var calls := Now(m).calls;
    if |calls| == 1 then WithCalls(m, [shell]) else WithCalls(m, calls[..|calls| - 1])
  }

  ghost function Preempted(m: Machine, now: Context): Machine
    requires Sound(m)
  {
    var next := NextTerminal(m.current);
    Machine(m.terminals[m.current := Now(m).(saved := now)], next, m.shown, ScreenPage(next, m.shown))
  }

  // ----- the kernel state that stands for a machine state

  ghost function Top(m: Machine, t: nat): int
    requires |m.terminals| == TERMINALS && t < TERMINALS
  {
    PER_TERMINAL * t + |m.terminals[t].calls| - 1
  }

  /** Slot `i` of terminal `t`: used slots are a prefix, hold their own number, and their PCB
      keeps the parent, the entry point and the frame pointer of the execute. */
  ghost predicate SlotOk(k: Kernel, m: Machine, t: nat, i: nat)
    requires |k.slots| == MAX_PROCESSES && |m.terminals| == TERMINALS && t < TERMINALS && i < PER_TERMINAL
  {
    var pid := PER_TERMINAL * t + i;
    if i < |m.terminals[t].calls| then
      var pcb, call := PcbAt(k.pcbs, PcbAddress(pid)), m.terminals[t].calls[i];
      k.slots[pid] == pid && pcb == Pcb(pid, pid - 1, call.entry, call.ebp, pcb.sched)
    else k.slots[pid] == UNUSED
  }

  /** A terminal that is not running can be resumed from its newest process's PCB. */
  ghost predicate Waiting(k: Kernel, m: Machine, t: nat)
    requires |m.terminals| == TERMINALS && t < TERMINALS
  {
    t != m.current ==> PcbAt(k.pcbs, PcbAddress(Top(m, t))).sched == m.terminals[t].saved
  }

  ghost predicate Represents(k: Kernel, m: Machine) {
    && Shaped(k) && Sound(m) && k.booted
    && (forall t: nat, i: nat :: t < TERMINALS && i < PER_TERMINAL ==> SlotOk(k, m, t, i))
    && (forall t: nat :: t < TERMINALS ==> Waiting(k, m, t))
    && k.terminal == m.current && k.shown == m.shown
    && k.pid == Top(m, m.current) && k.currPcb == PcbAddress(k.pid) && k.esp0 == PidStack(k.pid)
    && MapsFor(k.mmu, k.pid, m.page)
    && k.count == Total(m) && !k.baseShell
  }

  lemma {:induction false} FirstUnusedIs(k: Kernel, m: Machine, t: nat, from: nat)
    requires |k.slots| == MAX_PROCESSES && |m.terminals| == TERMINALS && t < TERMINALS
    requires forall t: nat, i: nat :: t < TERMINALS && i < PER_TERMINAL ==> SlotOk(k, m, t, i)
    requires from <= |m.terminals[t].calls| < PER_TERMINAL
    ensures FirstUnused(k.slots, t, from) == |m.terminals[t].calls|
    decreases PER_TERMINAL - from
  {
    assert SlotOk(k, m, t, from);
    if from < |m.terminals[t].calls| { FirstUnusedIs(k, m, t, from + 1); }
  }

  lemma {:induction false} HighestUsedIs(k: Kernel, m: Machine, t: nat, upTo: nat)
    requires |k.slots| == MAX_PROCESSES && |m.terminals| == TERMINALS && t < TERMINALS
    requires forall t: nat, i: nat :: t < TERMINALS && i < PER_TERMINAL ==> SlotOk(k, m, t, i)
    requires 0 < |m.terminals[t].calls| <= upTo <= PER_TERMINAL
    ensures HighestUsed(k.slots, t, upTo) == |m.terminals[t].calls| - 1
    decreases upTo
  {
    assert SlotOk(k, m, t, upTo - 1);
    if upTo > |m.terminals[t].calls| { HighestUsedIs(k, m, t, upTo - 1); }
  }

  /** No terminal ever has more than four live processes, so the search for a free slot
      always finds one: only the global limit can refuse an execute. */
  lemma AtMostFour(m: Machine, t: nat)
    requires Sound(m) && t < TERMINALS
    ensures 1 <= |m.terminals[t].calls| <= 4
  {
    assert m.terminals[0].calls != [] && m.terminals[1].calls != [] && m.terminals[2].calls != [];
  }

  // ----- every handler does what the simple machine does

  lemma TopIsPid(m: Machine, t: nat)
    requires Sound(m) && t < TERMINALS
    ensures PER_TERMINAL * t <= Top(m, t) < PER_TERMINAL * t + 4 && Top(m, t) < MAX_PROCESSES
  {
    AtMostFour(m, t);
  }

  lemma TopsDiffer(m: Machine, t: nat, pid: nat)
    requires Sound(m) && t < TERMINALS && t != m.current
    requires PER_TERMINAL * m.current <= pid < PER_TERMINAL * (m.current + 1)
    ensures PcbAddress(Top(m, t)) != PcbAddress(pid)
  {
    TopIsPid(m, t);
  }

  /** A new process on top of the current terminal's, or in place of its base shell. */
  lemma LaunchSimulates(k: Kernel, m: Machine, eip: nat, ebp: int)
    requires Represents(k, m) && Total(m) < MAX_PCB
    ensures FirstUnused(k.slots, k.terminal) < PER_TERMINAL
    ensures Represents(Launch(k, eip, ebp), WithCalls(m, Now(m).calls + [Frame(ebp, eip)]))
  {
    var depth := |Now(m).calls|;
    AtMostFour(m, m.current);
    FirstUnusedIs(k, m, m.current, 0);
    var k', m' := Launch(k, eip, ebp), WithCalls(m, Now(m).calls + [Frame(ebp, eip)]);
    var pid := PER_TERMINAL * m.current + depth;
    assert k'.pid == pid == Top(m', m.current);
    forall t: nat, i: nat | t < TERMINALS && i < PER_TERMINAL ensures SlotOk(k', m', t, i) {
      assert SlotOk(k, m, t, i);
    }
    forall t: nat | t < TERMINALS ensures Waiting(k', m', t) {
      assert Waiting(k, m, t);
      if t != m.current { TopsDiffer(m, t, pid); }
    }
    WithUserPageMaps(k.mmu, k.pid, m.page, pid);
  }

  lemma RestartSimulates(k: Kernel, m: Machine, eip: nat, ebp: int)
    requires Represents(k, m) && |Now(m).calls| == 1
    ensures var k1 := k.(baseShell := true, count := k.count - 1);
      && HasRoom(k1) && FirstUnused(k1.slots, k1.terminal) < PER_TERMINAL
      && Represents(Launch(k1, eip, ebp), WithCalls(m, [Frame(ebp, eip)]))
  {
    FirstUnusedIs(k, m, m.current, 0);
    var k1 := k.(baseShell := true, count := k.count - 1);
    var k', m' := Launch(k1, eip, ebp), WithCalls(m, [Frame(ebp, eip)]);
    var pid := PER_TERMINAL * m.current;
    assert k'.pid == pid == Top(m', m.current);
    forall t: nat, i: nat | t < TERMINALS && i < PER_TERMINAL ensures SlotOk(k', m', t, i) {
      assert SlotOk(k, m, t, i);
    }
    forall t: nat | t < TERMINALS ensures Waiting(k', m', t) {
      assert Waiting(k, m, t);
      if t != m.current { TopsDiffer(m, t, pid); }
    }
    WithUserPageMaps(k.mmu, k.pid, m.page, pid);
  }

  lemma ExecuteSimulates(k: Kernel, m: Machine, program: Program, ebp: int)
    requires Represents(k, m)
    ensures HasRoom(k) <==> Total(m) < MAX_PCB
    ensures Represents(Execute(k, program, ebp), Called(m, program, ebp))
  {
    AtMostFour(m, m.current);
    FirstUnusedIs(k, m, m.current, 0);
    if program.Loadable? && Total(m) < MAX_PCB {
      LaunchSimulates(k, m, program.eip, ebp);
    }
  }

  lemma ReturnSlots(k: Kernel, m: Machine, shell: Program, ebp: int, restarted: Frame, t: nat, i: nat)
    requires Represents(k, m) && |Now(m).calls| > 1 && t < TERMINALS && i < PER_TERMINAL
    ensures SlotOk(Halt(k, shell, ebp), Returned(m, restarted), t, i)
  {
    TopIsPid(m, m.current);
    assert SlotOk(k, m, t, i);
  }

  lemma ReturnSimulates(k: Kernel, m: Machine, shell: Program, ebp: int, restarted: Frame)
    requires Represents(k, m) && |Now(m).calls| > 1
    ensures k.pid % PER_TERMINAL == |Now(m).calls| - 1
    ensures Represents(Halt(k, shell, ebp), Returned(m, restarted))
  {
    TopIsPid(m, m.current);
    var k', m' := Halt(k, shell, ebp), Returned(m, restarted);
    forall t: nat, i: nat | t < TERMINALS && i < PER_TERMINAL ensures SlotOk(k', m', t, i) {
      ReturnSlots(k, m, shell, ebp, restarted, t, i);
    }
    forall t: nat | t < TERMINALS ensures Waiting(k', m', t) {
      assert Waiting(k, m, t);
    }
    WithUserPageMaps(k.mmu, k.pid, m.page, k.pid - 1);
  }

  lemma HaltWithShell(k: Kernel, m: Machine, shell: Program, ebp: int)
    requires Represents(k, m) && shell.Loadable?
    ensures Represents(Halt(k, shell, ebp), Returned(m, Frame(ebp, shell.eip)))
    ensures HaltResumes(k) == Now(m).calls[|Now(m).calls| - 1].ebp
  {
    TopIsPid(m, m.current);
    assert SlotOk(k, m, m.current, |Now(m).calls| - 1);
    if |Now(m).calls| == 1 {
      RestartSimulates(k, m, shell.eip, ebp);
    } else {
      ReturnSimulates(k, m, shell, ebp, Frame(ebp, shell.eip));
    }
  }

  /** A halt resumes the execute that started the process; a base shell is started
      again. */
  lemma HaltSimulates(load: Loads, k: Kernel, m: Machine, left: Leftover, ebp: int)
    requires Represents(k, m)
    ensures Represents(Halt(k, load(SHELL, left), ebp), Returned(m, Frame(ebp, load(SHELL, left).eip)))
    ensures HaltResumes(k) == Now(m).calls[|Now(m).calls| - 1].ebp
  {
    HaltWithShell(k, m, load(SHELL, left), ebp);
  }

  /** A tick resumes the next terminal from the context it was last preempted with. */
  lemma TickSimulates(k: Kernel, m: Machine, now: Context)
    requires Represents(k, m)
    ensures Represents(Tick(k, now), Preempted(m, now))
    ensures Resumes(Tick(k, now)) == m.terminals[NextTerminal(m.current)].saved
  {
    var next := NextTerminal(m.current);
    TopIsPid(m, m.current);
    TopIsPid(m, next);
    HighestUsedIs(k, m, next, PER_TERMINAL);
    var k', m' := Tick(k, now), Preempted(m, now);
    assert k'.pid == Top(m', next);
    forall t: nat, i: nat | t < TERMINALS && i < PER_TERMINAL ensures SlotOk(k', m', t, i) {
      assert SlotOk(k, m, t, i);
    }
    forall t: nat | t < TERMINALS ensures Waiting(k', m', t) {
      assert Waiting(k, m, t);
      if t != m.current { TopsDiffer(m, t, k.pid); }
    }
    assert Waiting(k, m, next);
    TopsDiffer(m, next, k.pid);
    WithUserPageMaps(k.mmu, k.pid, m.page, k'.pid);
    WithScreenMaps(WithUserPage(k.mmu, k'.pid), k'.pid, m.page, m'.page);
  }

  // ----- boot

  ghost function LastBooted(n: nat): nat { if n == 0 then 0 else n - 1 }

  ghost predicate BootedShell(k: Kernel, t: nat, n: nat, now: seq<Context>, calls: seq<Frame>)
    requires t < n <= TERMINALS == |now| == |calls|
  {
    var pid := PER_TERMINAL * t;
    var pcb := PcbAt(k.pcbs, PcbAddress(pid));
    pcb == Pcb(pid, pid - 1, calls[t].entry, calls[t].ebp, pcb.sched) && (t + 1 < n ==> pcb.sched == now[t + 1])
  }

  /** The state after `n` boot ticks. */
  ghost predicate Booting(k: Kernel, n: nat, now: seq<Context>, calls: seq<Frame>)
    requires n <= TERMINALS == |now| == |calls|
  {
    && Shaped(k) && k.boots == n && (k.booted <==> n == TERMINALS) && k.count == n && !k.baseShell
    && (forall s :: 0 <= s < MAX_PROCESSES ==>
          k.slots[s] == if s % PER_TERMINAL == 0 && s / PER_TERMINAL < n then s else UNUSED)
    && (forall t: nat :: t < n ==> BootedShell(k, t, n, now, calls))
    && k.terminal == LastBooted(n) && k.pid == PER_TERMINAL * LastBooted(n)
    && (n > 0 ==> k.currPcb == PcbAddress(k.pid) && k.esp0 == PidStack(k.pid))
    && MapsFor(k.mmu, k.pid, if n == 0 then VIDEO else ScreenPage(n - 1, k.shown))
  }

  lemma BootAdvances(k: Kernel, n: nat, now: seq<Context>, calls: seq<Frame>, shell: Program, ebp: int)
    requires n < TERMINALS == |now| == |calls| && Booting(k, n, now, calls)
    requires shell.Loadable? && calls[n] == Frame(ebp, shell.eip)
    ensures Booting(BootTick(k, now[n], shell, ebp), n + 1, now, calls)
    ensures BootTick(k, now[n], shell, ebp).shown == k.shown
  {
    var k1 := BootSwitch(k, now[n]);
    assert k1.slots[PER_TERMINAL * n] == UNUSED;
    var k2 := Launch(k1, shell.eip, ebp);
    var done := n + 1;
    forall t: nat | t < done ensures BootedShell(k2, t, done, now, calls) {
      if t < n { assert BootedShell(k, t, n, now, calls); }
    }
    var page := if n == 0 then VIDEO else ScreenPage(n - 1, k.shown);
    WithScreenMaps(k.mmu, k.pid, page, ScreenPage(n, k.shown));
    WithUserPageMaps(k1.mmu, k.pid, ScreenPage(n, k.shown), PER_TERMINAL * n);
  }

  /** The base shells that boot starts. */
  ghost function ShellCalls(load: Loads, left: seq<Leftover>, ebp: seq<int>): (calls: seq<Frame>)
    requires |left| == |ebp| == TERMINALS
    ensures |calls| == TERMINALS
    ensures forall t :: 0 <= t < TERMINALS ==> calls[t] == Frame(ebp[t], load(SHELL, left[t]).eip)
  {
    seq(TERMINALS, t requires 0 <= t < TERMINALS => Frame(ebp[t], load(SHELL, left[t]).eip))
  }

  /** The kernel after the first `n` boot ticks, each of which starts the shell. */
  ghost function Booted(load: Loads, k: Kernel, n: nat, now: seq<Context>, left: seq<Leftover>, ebp: seq<int>): (r: Kernel)
    requires n <= TERMINALS == |now| == |left| == |ebp| && Booting(k, 0, now, ShellCalls(load, left, ebp))
    ensures Booting(r, n, now, ShellCalls(load, left, ebp)) && r.shown == k.shown
  {
    if n == 0 then k
    else
      var before := Booted(load, k, n - 1, now, left, ebp);
      BootAdvances(before, n - 1, now, ShellCalls(load, left, ebp), load(SHELL, left[n - 1]), ebp[n - 1]);
      BootTick(before, now[n - 1], load(SHELL, left[n - 1]), ebp[n - 1])
  }

  ghost function BootedMachine(shown: nat, now: seq<Context>, calls: seq<Frame>): (m: Machine)
    requires shown < TERMINALS == |now| == |calls|
    ensures Sound(m) && m.current == 2 && m.shown == shown && m.page == ScreenPage(2, shown)
    ensures forall t :: 0 <= t < TERMINALS ==> m.terminals[t].calls == [calls[t]]
  {
    Machine([Terminal([calls[0]], now[1]), Terminal([calls[1]], now[2]), Terminal([calls[2]], Context(0, 0))],
            2, shown, ScreenPage(2, shown))
  }

  lemma BootedRepresents(k: Kernel, m: Machine, now: seq<Context>, calls: seq<Frame>)
    requires TERMINALS == |now| == |calls| == |m.terminals| && Booting(k, 3, now, calls)
    requires forall t :: 0 <= t < TERMINALS ==> m.terminals[t].calls == [calls[t]]
    requires forall t :: 0 <= t < 2 ==> m.terminals[t].saved == now[t + 1]
    requires m.current == 2 && m.shown == k.shown && m.page == ScreenPage(2, k.shown)
    ensures Represents(k, m)
  {
    forall t: nat, i: nat | t < TERMINALS && i < PER_TERMINAL ensures SlotOk(k, m, t, i) {
      assert BootedShell(k, t, 3, now, calls);
      assert k.slots[PER_TERMINAL * t + i] == if i == 0 then PER_TERMINAL * t else UNUSED;
    }
    forall t: nat | t < TERMINALS ensures Waiting(k, m, t) {
      assert BootedShell(k, t, 3, now, calls);
    }
  }

  /** After three boot ticks, with nothing but a shell started by each, the kernel is in a
      state of the simple machine. */
  lemma BootSimulates(load: Loads, k: Kernel, now: seq<Context>, left: seq<Leftover>, ebp: seq<int>)
    requires |now| == |left| == |ebp| == TERMINALS && Booting(k, 0, now, ShellCalls(load, left, ebp))
    ensures Represents(Booted(load, k, TERMINALS, now, left, ebp), BootedMachine(k.shown, now, ShellCalls(load, left, ebp)))
  {
    var calls := ShellCalls(load, left, ebp);
    BootedRepresents(Booted(load, k, TERMINALS, now, left, ebp), BootedMachine(k.shown, now, calls), now, calls);
  }

  /** Why nothing else may run during boot: a boot tick saves into the base shell's PCB, so
      the newest process's saved pair is the new one if it is the base shell, and is left
      stale if it is not. */
  lemma BootSave(k: Kernel, now: Context)
    requires Shaped(k) && !k.booted && k.boots != 0 && HighestUsed(k.slots, k.terminal) >= 0
    ensures var newest := PcbAddress(PER_TERMINAL * k.terminal + HighestUsed(k.slots, k.terminal));
      PcbAt(BootSwitch(k, now).pcbs, newest).sched ==
        if HighestUsed(k.slots, k.terminal) == 0 then now else PcbAt(k.pcbs, newest).sched
  {}

  // ----- any run after boot

  /** `left` is what the header buffer held, `ebp` the frame of the execute. */
  datatype Event = TimerTick(now: Context) | Call(command: Text, left: Leftover, ebp: int)
                 | Exit(left: Leftover, ebp: int) | Swap(t: TerminalId)

  /** What the outside sees of a step: the context loaded into the registers, the frame a
      halt returns to, whether an execute was refused. */
  datatype Output = Restored(context: Context) | ResumedAt(ebp: int) | Restarted | Accepted | Refused | Silent

  /** The result of an execute with or without room for one more process. */
  ghost function Verdict(program: Program, room: bool): Output {
    if program.Chat? then Silent else if program.Loadable? && room then Accepted else Refused
  }

  ghost function KernelStep(load: Loads, k: Kernel, e: Event): (Kernel, Output)
    requires Shaped(k)
  {
    match e
    case TimerTick(now) => (Tick(k, now), Restored(Resumes(Tick(k, now))))
    case Call(command, left, ebp) =>
      var program := load(command, left);
      (Execute(k, program, ebp), Verdict(program, HasRoom(k)))
    case Exit(left, ebp) =>
      (Halt(k, load(SHELL, left), ebp), if k.pid % PER_TERMINAL == 0 then Restarted else ResumedAt(HaltResumes(k)))
    case Swap(t) => (k.(shown := t), Silent)
  }

  ghost function MachineStep(load: Loads, m: Machine, e: Event): (Machine, Output)
    requires Sound(m)
  {
    match e
    case TimerTick(now) => (Preempted(m, now), Restored(m.terminals[NextTerminal(m.current)].saved))
    case Call(command, left, ebp) =>
      var program := load(command, left);
      (Called(m, program, ebp), Verdict(program, Total(m) < MAX_PCB))
    case Exit(left, ebp) =>
      (Returned(m, Frame(ebp, load(SHELL, left).eip)),
       if |Now(m).calls| == 1 then Restarted else ResumedAt(Now(m).calls[|Now(m).calls| - 1].ebp))
    case Swap(t) => (m.(shown := t), Silent)
  }

  lemma SwapSimulates(k: Kernel, m: Machine, shown: TerminalId)
    requires Represents(k, m)
    ensures Represents(k.(shown := shown), m.(shown := shown))
  {
    var k', m' := k.(shown := shown), m.(shown := shown);
    forall t: nat, i: nat | t < TERMINALS && i < PER_TERMINAL ensures SlotOk(k', m', t, i) {
      assert SlotOk(k, m, t, i);
    }
    forall t: nat | t < TERMINALS ensures Waiting(k', m', t) { assert Waiting(k, m, t); }
  }

  lemma StepSimulates(load: Loads, k: Kernel, m: Machine, e: Event)
    requires Represents(k, m)
    ensures Represents(KernelStep(load, k, e).0, MachineStep(load, m, e).0)
    ensures KernelStep(load, k, e).1 == MachineStep(load, m, e).1
  {
    match e
    case TimerTick(now) => TickSimulates(k, m, now);
    case Call(command, left, ebp) => ExecuteSimulates(k, m, load(command, left), ebp);
    case Exit(left, ebp) =>
      TopIsPid(m, m.current);
      HaltSimulates(load, k, m, left, ebp);
    case Swap(t) => SwapSimulates(k, m, t);
  }

  lemma LaunchShaped(k: Kernel, eip: nat, ebp: int)
    requires Shaped(k) && HasRoom(k)
    ensures Shaped(Launch(k, eip, ebp))
  {}

  lemma ExecuteShaped(k: Kernel, program: Program, ebp: int)
    requires Shaped(k)
    ensures Shaped(Execute(k, program, ebp))
  {
    if program.Loadable? && HasRoom(k) { LaunchShaped(k, program.eip, ebp); }
  }

  lemma HaltShaped(k: Kernel, shell: Program, ebp: int)
    requires Shaped(k)
    ensures Shaped(Halt(k, shell, ebp))
  {
    ExecuteShaped(k.(baseShell := true, count := k.count - 1), shell, ebp);
  }

  lemma StepShaped(load: Loads, k: Kernel, e: Event)
    requires Shaped(k)
    ensures Shaped(KernelStep(load, k, e).0)
  {
    match e
    case Call(command, left, ebp) => ExecuteShaped(k, load(command, left), ebp);
    case Exit(left, ebp) => HaltShaped(k, load(SHELL, left), ebp);
    case _ =>
  }

  lemma StepSound(load: Loads, m: Machine, e: Event)
    requires Sound(m)
    ensures Sound(MachineStep(load, m, e).0)
  {
    assert forall t :: 0 <= t < TERMINALS ==> m.terminals[t].calls != [];
  }

  ghost function KernelRun(load: Loads, k: Kernel, es: seq<Event>): (k': Kernel)
    requires Shaped(k)
    ensures Shaped(k')
    decreases |es|
  {
    if es == [] then k
    else
      var before := KernelRun(load, k, es[..|es| - 1]);
      StepShaped(load, before, es[|es| - 1]);
      KernelStep(load, before, es[|es| - 1]).0
  }

  ghost function MachineRun(load: Loads, m: Machine, es: seq<Event>): (m': Machine)
    requires Sound(m)
    ensures Sound(m')
    decreases |es|
  {
    if es == [] then m
    else
      var before := MachineRun(load, m, es[..|es| - 1]);
      StepSound(load, before, es[|es| - 1]);
      MachineStep(load, before, es[|es| - 1]).0
  }

  /** Every reachable state after boot is coherent, and whatever comes next the kernel and
      the simple machine give the same answer. */
  lemma {:induction false} RunSimulates(load: Loads, k: Kernel, m: Machine, es: seq<Event>, e: Event)
    requires Represents(k, m)
    ensures Represents(KernelRun(load, k, es), MachineRun(load, m, es))
    ensures KernelStep(load, KernelRun(load, k, es), e).1 == MachineStep(load, MachineRun(load, m, es), e).1
    decreases |es|
  {
    if es != [] {
      var init := es[..|es| - 1];
      RunSimulates(load, k, m, init, e);
      StepSimulates(load, KernelRun(load, k, init), MachineRun(load, m, init), es[|es| - 1]);
    }
    StepSimulates(load, KernelRun(load, k, es), MachineRun(load, m, es), e);
  }

  /** The context of the tick that last preempted terminal `t`; before any, the initial one. */
  ghost function LastSaved(load: Loads, m: Machine, es: seq<Event>, t: nat): Context
    requires Sound(m) && t < TERMINALS
    decreases |es|
  {
    if es == [] then m.terminals[t].saved
    else
      var init, e := es[..|es| - 1], es[|es| - 1];
      if e.TimerTick? && MachineRun(load, m, init).current == t then e.now else LastSaved(load, m, init, t)
  }

  lemma StepSaves(load: Loads, m: Machine, e: Event, t: nat)
    requires Sound(m) && t < TERMINALS
    ensures var m' := MachineStep(load, m, e).0;
      && |m'.terminals| == TERMINALS
      && m'.terminals[t].saved == if e.TimerTick? && m.current == t then e.now else m.terminals[t].saved
  {}

  lemma {:induction false} SavedIsLast(load: Loads, m: Machine, es: seq<Event>, t: nat)
    requires Sound(m) && t < TERMINALS
    ensures MachineRun(load, m, es).terminals[t].saved == LastSaved(load, m, es, t)
    decreases |es|
  {
    if es != [] {
      var init := es[..|es| - 1];
      SavedIsLast(load, m, init, t);
      StepSaves(load, MachineRun(load, m, init), es[|es| - 1], t);
    }
  }

  ghost function TickCount(es: seq<Event>): nat
    decreases |es|
  {
    if es == [] then 0 else TickCount(es[..|es| - 1]) + if es[|es| - 1].TimerTick? then 1 else 0
  }

  /** The terminal running after these events. */
  ghost function Running(load: Loads, m: Machine, es: seq<Event>): nat
    requires Sound(m)
  {
    MachineRun(load, m, es).current
  }

  lemma StepMoves(load: Loads, m: Machine, e: Event)
    requires Sound(m)
    ensures MachineStep(load, m, e).0.current == if e.TimerTick? then NextTerminal(m.current) else m.current
  {}

  /** `n` turns on from terminal `t`. */
  ghost function Turns(t: nat, n: nat): nat { if n == 0 then t else NextTerminal(Turns(t, n - 1)) }

  lemma NextResidue(x: nat)
    ensures NextTerminal(x % TERMINALS) == (x + 1) % TERMINALS
  {}

  lemma {:induction false} TurnsIsMod(t: nat, n: nat)
    requires t < TERMINALS
    ensures Turns(t, n) == (t + n) % TERMINALS
  {
    if n > 0 {
      TurnsIsMod(t, n - 1);
      NextResidue(t + n - 1);
    }
  }

  lemma {:induction false} RunningTurns(load: Loads, m: Machine, es: seq<Event>)
    requires Sound(m)
    ensures Running(load, m, es) == Turns(m.current, TickCount(es))
    decreases |es|
  {
    if es != [] {
      var init := es[..|es| - 1];
      RunningTurns(load, m, init);
      StepMoves(load, MachineRun(load, m, init), es[|es| - 1]);
    }
  }

  /** Ticks, and only ticks, move on to the next terminal in turn. */
  lemma RoundRobin(load: Loads, m: Machine, es: seq<Event>)
    requires Sound(m)
    ensures Running(load, m, es) == (m.current + TickCount(es)) % TERMINALS
    ensures NextTerminal(Running(load, m, es)) == (m.current + TickCount(es) + 1) % TERMINALS
  {
    var n := TickCount(es);
    RunningTurns(load, m, es);
    TurnsIsMod(m.current, n);
    NextResidue(m.current + n);
  }

  /** No stale context is ever loaded: whatever happened since boot, the tick that comes next
      restores the context saved at the latest preemption of the terminal whose turn it is. */
  lemma NoStaleContext(load: Loads, k: Kernel, m: Machine, es: seq<Event>, now: Context)
    requires Represents(k, m)
    ensures KernelStep(load, KernelRun(load, k, es), TimerTick(now)).1
         == Restored(LastSaved(load, m, es, (m.current + TickCount(es) + 1) % TERMINALS))
  {
    RunSimulates(load, k, m, es, TimerTick(now));
    RoundRobin(load, m, es);
    SavedIsLast(load, m, es, NextTerminal(MachineRun(load, m, es).current));
  }

  lemma AllVisited(t: nat)
    requires t < TERMINALS
    ensures {t, NextTerminal(t), NextTerminal(NextTerminal(t))} == {0, 1, 2}
  {}

  lemma {:induction false} NoTicksBetween(es: seq<Event>, a: nat, b: nat)
    requires a < b < |es| && forall i :: a < i < b ==> !es[i].TimerTick?
    ensures TickCount(es[..b]) == TickCount(es[..a + 1])
    decreases b
  {
    if a + 1 < b {
      NoTicksBetween(es, a, b - 1);
      assert es[..b][..b - 1] == es[..b - 1];
    }
  }

  lemma StaysCurrent(load: Loads, m: Machine, es: seq<Event>, a: nat, b: nat)
    requires Sound(m) && a < b < |es|
    requires forall i :: a < i < b ==> !es[i].TimerTick?
    ensures Running(load, m, es[..b]) == Running(load, m, es[..a + 1])
  {
    NoTicksBetween(es, a, b);
    RunningTurns(load, m, es[..b]);
    RunningTurns(load, m, es[..a + 1]);
  }

  lemma NextVisited(load: Loads, m: Machine, es: seq<Event>, a: nat, b: nat)
    requires Sound(m) && a < b < |es| && es[b].TimerTick?
    requires forall i :: a < i < b ==> !es[i].TimerTick?
    ensures Running(load, m, es[..b + 1]) == NextTerminal(Running(load, m, es[..a + 1]))
  {
    StaysCurrent(load, m, es, a, b);
    assert es[..b + 1][..b] == es[..b];
  }

  /** Any three consecutive ticks, whatever lies between them, visit the three terminals. */
  lemma ThreeTicks(load: Loads, m: Machine, es: seq<Event>, a: nat, b: nat, c: nat)
    requires Sound(m) && a < b < c < |es|
    requires es[a].TimerTick? && es[b].TimerTick? && es[c].TimerTick?
    requires forall i :: a < i < c && i != b ==> !es[i].TimerTick?
    ensures {Running(load, m, es[..a + 1]), Running(load, m, es[..b + 1]), Running(load, m, es[..c + 1])} == {0, 1, 2}
  {
    NextVisited(load, m, es, a, b);
    NextVisited(load, m, es, b, c);
    AllVisited(Running(load, m, es[..a + 1]));
  }

  // ----- calls and returns

  ghost function Depth(load: Loads, m: Machine, es: seq<Event>, t: nat): nat
    requires Sound(m) && t < TERMINALS
  {
    |MachineRun(load, m, es).terminals[t].calls|
  }

  /** The process at depth `d` of terminal `t` stays alive throughout. */
  ghost predicate StaysAlive(load: Loads, m: Machine, es: seq<Event>, t: nat, d: nat)
    requires Sound(m) && t < TERMINALS
    decreases |es|
  {
    d < Depth(load, m, es, t) && (es != [] ==> StaysAlive(load, m, es[..|es| - 1], t, d))
  }

  lemma StepKeepsCall(load: Loads, m: Machine, e: Event, t: nat, d: nat)
    requires Sound(m) && t < TERMINALS && 0 < d < |m.terminals[t].calls|
    ensures var m' := MachineStep(load, m, e).0;
      |m'.terminals| == TERMINALS && (d < |m'.terminals[t].calls| ==> m'.terminals[t].calls[d] == m.terminals[t].calls[d])
  {}

  lemma {:induction false} CallsKept(load: Loads, m: Machine, es: seq<Event>, t: nat, d: nat)
    requires Sound(m) && t < TERMINALS && d > 0 && StaysAlive(load, m, es, t, d)
    ensures d < Depth(load, m, es, t) && d < |m.terminals[t].calls|
    ensures MachineRun(load, m, es).terminals[t].calls[d] == m.terminals[t].calls[d]
    decreases |es|
  {
    if es != [] {
      var init := es[..|es| - 1];
      CallsKept(load, m, init, t, d);
      StepKeepsCall(load, MachineRun(load, m, init), es[|es| - 1], t, d);
    }
  }

  lemma TopReturns(load: Loads, k: Kernel, m: Machine, es: seq<Event>, exit: Event, d: nat)
    requires Represents(k, m) && exit.Exit? && d > 0
    requires var t := Running(load, m, es); StaysAlive(load, m, es, t, d) && Depth(load, m, es, t) == d + 1
    ensures var calls := m.terminals[Running(load, m, es)].calls;
      d < |calls| && KernelStep(load, KernelRun(load, k, es), exit).1 == ResumedAt(calls[d].ebp)
  {
    RunSimulates(load, k, m, es, exit);
    CallsKept(load, m, es, Running(load, m, es), d);
  }

  /** Whatever children a process starts and whatever else runs in between, its own halt
      resumes the execute that started it. */
  lemma ReturnsToCaller(load: Loads, k: Kernel, m: Machine, call: Event, es: seq<Event>, exit: Event)
    requires Represents(k, m) && call.Call? && exit.Exit?
    requires KernelStep(load, k, call).1 == Accepted
    requires Sound(MachineStep(load, m, call).0)
    requires var m1 := MachineStep(load, m, call).0; var d := |Now(m).calls|;
      StaysAlive(load, m1, es, m.current, d) && Running(load, m1, es) == m.current && Depth(load, m1, es, m.current) == d + 1
    ensures Shaped(KernelStep(load, k, call).0)
    ensures KernelStep(load, KernelRun(load, KernelStep(load, k, call).0, es), exit).1 == ResumedAt(call.ebp)
  {
    StepSimulates(load, k, m, call);
    var k1, m1 := KernelStep(load, k, call).0, MachineStep(load, m, call).0;
    TopReturns(load, k1, m1, es, exit, |Now(m).calls|);
  }

  // ----- counting, and what a process can reach

  ghost function Used(slots: seq<int>): nat
    decreases |slots|
  {
    if slots == [] then 0 else Used(slots[..|slots| - 1]) + if slots[|slots| - 1] != UNUSED then 1 else 0
  }

  ghost function UsedIn(m: Machine, t: nat, i: nat): nat
    requires |m.terminals| == TERMINALS && t < TERMINALS
  {
    if i <= |m.terminals[t].calls| then i else |m.terminals[t].calls|
  }

  lemma {:induction false} UsedUpTo(k: Kernel, m: Machine, t: nat, i: nat)
    requires |k.slots| == MAX_PROCESSES && |m.terminals| == TERMINALS && t < TERMINALS && i <= PER_TERMINAL
    requires forall t: nat, i: nat :: t < TERMINALS && i < PER_TERMINAL ==> SlotOk(k, m, t, i)
    ensures Used(k.slots[..PER_TERMINAL * t + i]) == Used(k.slots[..PER_TERMINAL * t]) + UsedIn(m, t, i)
    decreases i
  {
    if i > 0 {
      UsedUpTo(k, m, t, i - 1);
      assert SlotOk(k, m, t, i - 1);
      assert k.slots[..PER_TERMINAL * t + i][..PER_TERMINAL * t + i - 1] == k.slots[..PER_TERMINAL * t + (i - 1)];
    }
  }

  lemma UsedIsTotal(k: Kernel, m: Machine)
    requires |k.slots| == MAX_PROCESSES && Sound(m)
    requires forall t: nat, i: nat :: t < TERMINALS && i < PER_TERMINAL ==> SlotOk(k, m, t, i)
    ensures Used(k.slots) == Total(m)
  {
    forall t: nat | t < TERMINALS ensures |m.terminals[t].calls| <= 4 { AtMostFour(m, t); }
    UsedUpTo(k, m, 0, PER_TERMINAL);
    UsedUpTo(k, m, 1, PER_TERMINAL);
    UsedUpTo(k, m, 2, PER_TERMINAL);
    assert k.slots[..18] == k.slots;
  }

  /** In every reachable state the process count is the number of used slots, at most six, no
      terminal has more than four, and an execute that is refused changes nothing. */
  lemma CountConserved(load: Loads, k: Kernel, m: Machine, es: seq<Event>, call: Event)
    requires Represents(k, m) && call.Call?
    ensures var k' := KernelRun(load, k, es);
      && k'.count == Used(k'.slots) <= 6
      && FirstUnused(k'.slots, k'.terminal) <= 4
      && (HasRoom(k') <==> Used(k'.slots) < 6)
      && (KernelStep(load, k', call).1 != Accepted ==> KernelStep(load, k', call).0 == k')
  {
    RunSimulates(load, k, m, es, call);
    var k', m' := KernelRun(load, k, es), MachineRun(load, m, es);
    UsedIsTotal(k', m');
    AtMostFour(m', m'.current);
    FirstUnusedIs(k', m', m'.current, 0);
  }

  lemma RestartCounts(k: Kernel, m: Machine, shell: Program, ebp: int)
    requires Represents(k, m) && k.pid % PER_TERMINAL == 0
    ensures var k' := Halt(k, shell, ebp); k'.count == Used(k'.slots) <==> shell.Loadable?
  {
    TopIsPid(m, m.current);
    UsedIsTotal(k, m);
    if shell.Loadable? {
      HaltWithShell(k, m, shell, ebp);
      UsedIsTotal(Halt(k, shell, ebp), Returned(m, Frame(ebp, shell.eip)));
    }
  }

  /** Why the disk must hold a shell: the count is decremented before a base shell is started
      again, and it is sure to match the slots afterwards if and only if the image has one. */
  lemma RestartNeedsShell(img: Image, k: Kernel, m: Machine, ebp: int)
    requires WellFormed(img) && Represents(k, m) && k.pid % PER_TERMINAL == 0
    ensures (forall left: Leftover ::
        var k' := Halt(k, ProgramOf(img, SHELL, left), ebp); k'.count == Used(k'.slots))
      <==> NamesProgram(img, SHELL)
  {
    AlwaysLoads(img, SHELL);
    forall left: Leftover { RestartCounts(k, m, ProgramOf(img, SHELL, left), ebp); }
  }

  lemma NewPidIs(k: Kernel, m: Machine)
    requires Represents(k, m)
    ensures HasRoom(k) ==> NewPid(k) < MAX_PROCESSES && k.slots[NewPid(k)] == UNUSED
    ensures NewPid(k.(baseShell := true)) == PER_TERMINAL * k.terminal < MAX_PROCESSES
    ensures k.pid % PER_TERMINAL == 0 ==> k.pid == PER_TERMINAL * k.terminal
  {
    AtMostFour(m, m.current);
    TopIsPid(m, m.current);
    FirstUnusedIs(k, m, m.current, 0);
    assert SlotOk(k, m, m.current, |Now(m).calls|);
  }

  /** The range the loader may write for slot `pid`. */
  predicate LoadedTo(a: nat, pid: nat) {
    FrameAt(pid) + PROGRAM_OFFSET <= a < FrameAt(pid) + PROGRAM_OFFSET + PROGRAM_LIMIT
  }

  /** In every reachable state what the loader writes, for an accepted execute and for a base
      shell started again, stays out of the frames of all other live processes. */
  lemma LoadsAway(load: Loads, k: Kernel, m: Machine, es: seq<Event>, a: nat, pid: nat)
    requires Represents(k, m) && pid < MAX_PROCESSES && InFrame(a, pid)
    requires KernelRun(load, k, es).slots[pid] != UNUSED
    ensures var k' := KernelRun(load, k, es);
      && (HasRoom(k') ==> !LoadedTo(a, NewPid(k')))
      && (k'.pid % PER_TERMINAL == 0 && LoadedTo(a, NewPid(k'.(baseShell := true))) ==> pid == k'.pid)
  {
    RunSimulates(load, k, m, es, Swap(0));
    var k', m' := KernelRun(load, k, es), MachineRun(load, m, es);
    NewPidIs(k', m');
    if HasRoom(k') && LoadedTo(a, NewPid(k')) { OnlyOwnFrame(NewPid(k'), pid, a); }
    var base := PER_TERMINAL * k'.terminal;
    if LoadedTo(a, base) { OnlyOwnFrame(base, pid, a); }
  }

  /** In every reachable state a user-mode access, read or write, faults or stays in the running
      process's frame or the video pages, and the kernel page is untouched by scheduling. */
  lemma Isolation(load: Loads, k: Kernel, m: Machine, es: seq<Event>, va: nat, write: bool)
    requires Represents(k, m) && va < 0x1_0000_0000
    ensures var k' := KernelRun(load, k, es); var a := Translate(k'.mmu, va, Mode(true, write));
      a == Fault || (a.Physical? && (InFrame(a.address, k'.pid) || InVideo(a.address)))
    ensures FOUR_MB <= va < EIGHT_MB ==> Translate(KernelRun(load, k, es).mmu, va, KERNEL) == Physical(va)
  {
    RunSimulates(load, k, m, es, Swap(0));
    var k', m' := KernelRun(load, k, es), MachineRun(load, m, es);
    UserAccess(k'.mmu, k'.pid, m'.page, va, write);
    if FOUR_MB <= va < EIGHT_MB { KernelAccess(k'.mmu, k'.pid, m'.page, va, true); }
  }

  /** The state of the kernel by slot numbers and addresses. */
  ghost predicate Coherent(k: Kernel)
    requires |k.slots| == 18
  {
    && k.terminal < 3 && 6 * k.terminal <= k.pid < 6 * k.terminal + 6
    // each terminal's used slots are a non-empty prefix of its six and hold their own numbers
    && (forall s :: 0 <= s < 18 ==> k.slots[s] == -1 || k.slots[s] == s)
    && (forall s :: 0 <= s < 18 && s % 6 == 0 ==> k.slots[s] == s)
    && (forall s :: 0 < s < 18 && s % 6 != 0 && k.slots[s] == s ==> k.slots[s - 1] == s - 1)
    // the running process is the highest of the current terminal
    && k.slots[k.pid] == k.pid && (k.pid + 1 < 6 * k.terminal + 6 ==> k.slots[k.pid + 1] == -1)
    && k.currPcb == 0x80_0000 - 0x2000 * (k.pid + 1) && k.esp0 == 0x80_0000 - 0x2000 * k.pid
  }

  lemma RepresentsCoherent(k: Kernel, m: Machine)
    requires Represents(k, m)
    ensures Coherent(k)
  {
    TopIsPid(m, m.current);
    AtMostFour(m, m.current);
    forall s: nat | s < 18
      ensures k.slots[s] == -1 || k.slots[s] == s
      ensures s % 6 == 0 ==> k.slots[s] == s
      ensures s % 6 != 0 && k.slots[s] == s ==> k.slots[s - 1] == s - 1
    {
      var t, i := s / 6, s % 6;
      AtMostFour(m, t);
      assert SlotOk(k, m, t, i);
      if i > 0 { assert SlotOk(k, m, t, i - 1); }
    }
    assert SlotOk(k, m, m.current, |Now(m).calls| - 1) && SlotOk(k, m, m.current, |Now(m).calls|);
  }

  /** In every reachable state, whatever the order of ticks, commands, halts and swaps: the slots,
      the running process, its PCB, its kernel stack, and its page at 128 MB, where it may write. */
  lemma Coherence(load: Loads, k: Kernel, m: Machine, es: seq<Event>, offset: nat, mode: Mode)
    requires Represents(k, m) && offset < 0x40_0000
    ensures var k' := KernelRun(load, k, es);
      Coherent(k') && Translate(k'.mmu, 0x800_0000 + offset, mode) == Physical(0x80_0000 + 0x40_0000 * k'.pid + offset)
  {
    RunSimulates(load, k, m, es, Swap(0));
    var k', m' := KernelRun(load, k, es), MachineRun(load, m, es);
    RepresentsCoherent(k', m');
    UserFrame(k'.mmu, k'.pid, m'.page, offset, mode);
  }

  lemma ExecuteSlots(k: Kernel, m: Machine, program: Program, ebp: int)
    requires Represents(k, m) && program.Loadable? && HasRoom(k)
    ensures var k' := Execute(k, program, ebp);
      && k.pid < 17 && k.slots[k.pid + 1] == -1 && k'.slots == k.slots[k.pid + 1 := k.pid + 1]
      && k'.pid == k.pid + 1 && k'.count == k.count + 1 && k'.terminal == k.terminal
  {
    TopIsPid(m, m.current);
    AtMostFour(m, m.current);
    FirstUnusedIs(k, m, m.current, 0);
    assert SlotOk(k, m, m.current, |Now(m).calls|);
  }

  lemma HaltSlots(k: Kernel, m: Machine, shell: Program, ebp: int)
    requires Represents(k, m) && shell.Loadable?
    ensures var k' := Halt(k, shell, ebp);
      if k.pid % 6 == 0 then k'.slots == k.slots && k'.pid == k.pid && k'.count == k.count && k'.terminal == k.terminal
      else k'.slots == k.slots[k.pid := -1] && k'.pid == k.pid - 1 && k'.count == k.count - 1 && k'.terminal == k.terminal
  {
    TopIsPid(m, m.current);
    if k.pid % 6 == 0 {
      RestartSimulates(k, m, shell.eip, ebp);
      assert SlotOk(k, m, m.current, 0);
    }
  }

  /** What a step does to the slots: an accepted command takes the free slot above the running
      process, a halt frees the running process's slot unless it is a base shell, which is
      started again in its place, and nothing else changes any slot. */
  lemma SlotsAfter(load: Loads, k: Kernel, m: Machine, e: Event)
    requires Represents(k, m)
    ensures var (k', out) := KernelStep(load, k, e);
      match out
      case Accepted => k.pid < 17 && k.slots[k.pid + 1] == -1 && k'.slots == k.slots[k.pid + 1 := k.pid + 1]
                       && k'.pid == k.pid + 1 && k'.count == k.count + 1 && k'.terminal == k.terminal
      case ResumedAt(_) => k.pid % 6 != 0 && k'.slots == k.slots[k.pid := -1]
                       && k'.pid == k.pid - 1 && k'.count == k.count - 1 && k'.terminal == k.terminal
      case Restarted => k.pid % 6 == 0 && k'.slots == k.slots
                       && k'.pid == k.pid && k'.count == k.count && k'.terminal == k.terminal
      case Restored(_) => k'.slots == k.slots && k'.count == k.count && k'.terminal == (k.terminal + 1) % 3
      case _ => k'.slots == k.slots && k'.pid == k.pid && k'.count == k.count && k'.terminal == k.terminal
    ensures e.Swap? ==> KernelStep(load, k, e).0.shown == e.t
  {
    match e
    case Call(command, left, ebp) =>
      if load(command, left).Loadable? && HasRoom(k) { ExecuteSlots(k, m, load(command, left), ebp); }
    case Exit(left, ebp) => HaltSlots(k, m, load(SHELL, left), ebp);
    case _ =>
  }

  // ----- where processes start

  lemma EntryOfStep(load: Loads, k: Kernel, m: Machine, e: Event)
    requires Represents(k, m)
    ensures var (k', out) := KernelStep(load, k, e);
      && (out == Accepted ==>
            e.Call? && load(e.command, e.left) == Loadable(PcbAt(k'.pcbs, k'.currPcb).eip))
      && (out == Restarted ==> e.Exit? && PcbAt(k'.pcbs, k'.currPcb).eip == load(SHELL, e.left).eip)
  {
    StepSimulates(load, k, m, e);
    var k', m' := KernelStep(load, k, e).0, MachineStep(load, m, e).0;
    assert SlotOk(k', m', m'.current, |Now(m').calls| - 1);
  }

  /** The entry points of all live processes are those their programs had when they were started,
      so what starts now is the file the command names. */
  lemma EntryPoints(disk: Disk, k: Kernel, m: Machine, es: seq<Event>, e: Event)
    requires Represents(k, m)
    ensures var load := LoadsOf(disk);
      var (k', out) := KernelStep(load, KernelRun(load, k, es), e);
      && (out == Accepted && LongEnough(disk, e.command) ==>
            IsEntry(PcbAt(k'.pcbs, k'.currPcb).eip, NamedFile(disk, e.command)))
      && (out == Restarted && LongEnough(disk, SHELL) ==>
            IsEntry(PcbAt(k'.pcbs, k'.currPcb).eip, NamedFile(disk, SHELL)))
  {
    var load := LoadsOf(disk);
    RunSimulates(load, k, m, es, e);
    EntryOfStep(load, KernelRun(load, k, es), MachineRun(load, m, es), e);
    if e.Call? && LongEnough(disk, e.command) && !IsChatText(e.command) { EntryPoint(disk, e.command, e.left); }
    if e.Exit? && LongEnough(disk, SHELL) { EntryPoint(disk, SHELL, e.left); }
  }

  lemma ShellEntry(disk: Disk, left: Leftover)
    requires LongEnough(disk, SHELL)
    ensures IsEntry(LoadsOf(disk)(SHELL, left).eip, NamedFile(disk, SHELL))
  {
    EntryPoint(disk, SHELL, left);
  }

  lemma BootedEntry(disk: Disk, k: Kernel, n: nat, now: seq<Context>, left: seq<Leftover>, ebp: seq<int>, t: nat)
    requires t < n <= TERMINALS == |now| == |left| == |ebp| && LongEnough(disk, SHELL)
    requires BootedShell(k, t, n, now, ShellCalls(LoadsOf(disk), left, ebp))
    ensures IsEntry(PcbAt(k.pcbs, 0x80_0000 - 0x2000 * (6 * t + 1)).eip, NamedFile(disk, SHELL))
  {
    ShellEntry(disk, left[t]);
  }

  /** The base shells after `n` boot ticks from a disk, that is in the state `Booted`. */
  lemma BootEntries(disk: Disk, k: Kernel, n: nat, now: seq<Context>, left: seq<Leftover>, ebp: seq<int>, t: nat)
    requires t < n <= TERMINALS == |now| == |left| == |ebp| && LongEnough(disk, SHELL)
    requires Booting(k, n, now, ShellCalls(LoadsOf(disk), left, ebp))
    ensures IsEntry(PcbAt(k.pcbs, 0x80_0000 - 0x2000 * (6 * t + 1)).eip, NamedFile(disk, SHELL))
  {
    assert BootedShell(k, t, n, now, ShellCalls(LoadsOf(disk), left, ebp));
    BootedEntry(disk, k, n, now, left, ebp, t);
  }

  // ----- a kernel booted from a disk

  /** After these events the kernel is coherent, answers the next one as the simple machine does,
      has the right count, and a tick restores the context saved at the latest preemption of the
      terminal whose turn it is. */
  ghost predicate Behaves(load: Loads, k: Kernel, m: Machine, es: seq<Event>, e: Event)
    requires Shaped(k) && Sound(m)
  {
    var k', m' := KernelRun(load, k, es), MachineRun(load, m, es);
    && Represents(k', m')
    && KernelStep(load, k', e).1 == MachineStep(load, m', e).1
    && k'.count == Used(k'.slots) <= MAX_PCB
    && (e.TimerTick? ==>
          KernelStep(load, k', e).1 == Restored(LastSaved(load, m, es, (m.current + TickCount(es) + 1) % TERMINALS)))
  }

  lemma BehavesInRun(load: Loads, k: Kernel, m: Machine, es: seq<Event>, e: Event)
    requires Represents(k, m)
    ensures Behaves(load, k, m, es, e)
  {
    RunSimulates(load, k, m, es, e);
    UsedIsTotal(KernelRun(load, k, es), MachineRun(load, m, es));
    if e.TimerTick? { NoStaleContext(load, k, m, es, e.now); }
  }

  /** For every disk that holds a shell, every boot from it and every sequence of ticks, commands,
      halts and swaps after that. */
  lemma BootedFromDisk(disk: Disk, k: Kernel, now: seq<Context>, left: seq<Leftover>, ebp: seq<int>,
                       es: seq<Event>, e: Event)
    requires |now| == |left| == |ebp| == TERMINALS && Booting(k, 0, now, ShellCalls(LoadsOf(disk), left, ebp))
    ensures var load := LoadsOf(disk); var calls := ShellCalls(load, left, ebp);
      Behaves(load, Booted(load, k, TERMINALS, now, left, ebp), BootedMachine(k.shown, now, calls), es, e)
  {
    var load := LoadsOf(disk);
    var calls := ShellCalls(load, left, ebp);
    BootSimulates(load, k, now, left, ebp);
    BehavesInRun(load, Booted(load, k, TERMINALS, now, left, ebp), BootedMachine(k.shown, now, calls), es, e);
  }
}
