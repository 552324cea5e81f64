/** The scheduler and the console are two views of one kernel.  Here both take part in every
    step, and virtual page B8 of the page tables is the page the console writes to. */
module Views {
  import opened Terminals
  import opened Paging
  import opened Loader
  import P = Processes
  import C = Console
  import K = Keyboard
  import S = Screen

  /** One step of the whole kernel. */
  datatype Event = Tick(now: P.Context) | Call(command: Text, left: Leftover, ebp: int) | Exit(left: Leftover, ebp: int)
                 | Key(code: K.ScanCode) | Output(ch: char) | StartRead | FinishRead(nbytes: nat)

  predicate Legal(e: Event) { e.Output? ==> e.ch != S.BS }

  /** The terminal a key switches to, if it does. */
  function SwapTarget(mods: K.Mods, e: Event): int {
    if e.Key? && !K.IsModifier(e.code) && K.Decode(mods, e.code).SwapTo? then K.Decode(mods, e.code).t else -1
  }

  ghost function KernelPart(load: Loads, k: P.Kernel, mods: K.Mods, e: Event): P.Kernel
    requires P.Shaped(k) && Legal(e)
  {
    match e
    case Tick(now) => P.Tick(k, now)
    case Call(command, left, ebp) => P.Execute(k, load(command, left), ebp)
    case Exit(left, ebp) => P.Halt(k, load(SHELL, left), ebp)
    case _ => if SwapTarget(mods, e) >= 0 then k.(shown := SwapTarget(mods, e)) else k
  }

  function ConsolePart(c: C.Con, e: Event): C.Con
    requires C.Fit(c) && Legal(e)
  {
    match e
    case Tick(_) => C.Step(c, C.Tick)
    case Call(_, _, _) => c
    case Exit(_, _) => C.Step(c, C.Halt)
    case Key(code) => C.Step(c, C.Key(code))
    case Output(ch) => C.Step(c, C.Output(ch))
    case StartRead => C.Step(c, C.StartRead)
    case FinishRead(n) => C.Step(c, C.FinishRead(n))
  }

  ghost predicate Joined(k: P.Kernel, m: P.Machine, c: C.Con) {
    && P.Represents(k, m) && C.Fit(c)
    && m.current == c.current && m.shown == c.shown && m.page == VIDEO + c.b8
  }

  lemma {:induction false} SpacesKeepView(c: C.Con, n: nat)
    requires C.Fit(c) && c.terms[c.shown].numchar + n <= C.BUFFER
    ensures var r := C.InsertSpaces(c, n); r.current == c.current && r.shown == c.shown && r.b8 == c.b8
    decreases n
  {
    if n > 0 {
      C.FitInsert(c, ' ');
      SpacesKeepView(C.Insert(c, ' '), n - 1);
    }
  }

  lemma ActionKeepsView(c: C.Con, a: K.Action)
    requires C.Fit(c) && (a.Type? ==> K.Fine(a.c)) && !a.SwapTo?
    ensures var r := C.Acted(c, a); r.current == c.current && r.shown == c.shown && r.b8 == c.b8
  {
    if a.Tab? && c.terms[c.shown].numchar < C.TAB_ROOM { SpacesKeepView(c, S.TAB_WIDTH); }
  }

  /** The machine state that follows. */
  ghost function MachinePart(load: Loads, m: P.Machine, mods: K.Mods, e: Event): P.Machine
    requires P.Sound(m) && Legal(e) && SwapTarget(mods, e) < TERMINALS
  {
    match e
    case Tick(now) => P.Preempted(m, now)
    case Call(command, left, ebp) => P.Called(m, load(command, left), ebp)
    case Exit(left, ebp) => P.Returned(m, P.Frame(ebp, load(SHELL, left).eip))
    case _ => if SwapTarget(mods, e) >= 0 then m.(shown := SwapTarget(mods, e)) else m
  }

  lemma TargetInRange(mods: K.Mods, e: Event)
    ensures SwapTarget(mods, e) < TERMINALS
  {
    if e.Key? && !K.IsModifier(e.code) { C.DecodeFine(mods, e.code); }
  }

  lemma KeyJoined(load: Loads, k: P.Kernel, m: P.Machine, c: C.Con, code: K.ScanCode)
    requires Joined(k, m, c) && SwapTarget(c.mods, Key(code)) < TERMINALS
    ensures var e := Key(code);
      Joined(KernelPart(load, k, c.mods, e), MachinePart(load, m, c.mods, e), ConsolePart(c, e))
  {
    C.StepFit(c, C.Key(code));
    if !K.IsModifier(code) {
      C.DecodeFine(c.mods, code);
      var a := K.Decode(c.mods, code);
      if a.SwapTo? { P.SwapSimulates(k, m, a.t); } else { ActionKeepsView(c, a); }
    }
  }

  /** Every step keeps the two views joined. */
  lemma StepJoined(load: Loads, k: P.Kernel, m: P.Machine, c: C.Con, e: Event)
    requires Joined(k, m, c) && Legal(e)
    ensures SwapTarget(c.mods, e) < TERMINALS
    ensures Joined(KernelPart(load, k, c.mods, e), MachinePart(load, m, c.mods, e), ConsolePart(c, e))
  {
    TargetInRange(c.mods, e);
    match e
    case Tick(now) =>
      P.TickSimulates(k, m, now);
      C.StepFit(c, C.Tick);
    case Call(command, left, ebp) => P.ExecuteSimulates(k, m, load(command, left), ebp);
    case Exit(left, ebp) =>
      P.HaltSimulates(load, k, m, left, ebp);
      C.StepFit(c, C.Halt);
    case Key(code) => KeyJoined(load, k, m, c, code);
    case Output(ch) => C.StepFit(c, C.Output(ch));
    case StartRead => C.StepFit(c, C.StartRead);
    case FinishRead(n) => C.StepFit(c, C.FinishRead(n));
  }

  ghost predicate AllLegal(es: seq<Event>) { forall i :: 0 <= i < |es| ==> Legal(es[i]) }

  /** The joint state after some events. */
  datatype Whole = Whole(k: P.Kernel, m: P.Machine, c: C.Con)

  /** However ticks, calls, halts, keys, output and reads are interleaved, the two views stay
      joined. */
  ghost function Run(load: Loads, w: Whole, es: seq<Event>): (r: Whole)
    requires Joined(w.k, w.m, w.c) && AllLegal(es)
    ensures Joined(r.k, r.m, r.c)
    decreases |es|
  {
    if es == [] then w
    else
      var v := Run(load, w, es[..|es| - 1]);
      var e := es[|es| - 1];
      StepJoined(load, v.k, v.m, v.c, e);
      Whole(KernelPart(load, v.k, v.c.mods, e), MachinePart(load, v.m, v.c.mods, e), ConsolePart(v.c, e))
  }

  lemma JoinedWrites(k: P.Kernel, m: P.Machine, c: C.Con, offset: nat)
    requires Joined(k, m, c) && offset < FOUR_KB
    ensures Translate(k.mmu, 0xB_8000 + offset, KERNEL) == Physical(0xB_8000 + 0x1000 * c.b8 + offset)
    ensures Translate(k.mmu, 0xB_C000 + offset, KERNEL) == Physical(0xB_8000 + offset)
  {
    VideoPages(k.mmu, k.pid, m.page, 0, offset, true);
    VideoPages(k.mmu, k.pid, m.page, 4, offset, true);
  }

  /** At every point of such a run a kernel write to virtual page B8 lands on the page the
      console model writes to, and right after a tick that is the current terminal's screen. */
  lemma VideoWrites(load: Loads, w: Whole, es: seq<Event>, offset: nat, now: P.Context)
    requires Joined(w.k, w.m, w.c) && AllLegal(es) && offset < FOUR_KB
    ensures var r := Run(load, w, es);
      && Translate(r.k.mmu, 0xB_8000 + offset, KERNEL) == Physical(0xB_8000 + 0x1000 * r.c.b8 + offset)
      && Translate(r.k.mmu, 0xB_C000 + offset, KERNEL) == Physical(0xB_8000 + offset)
    ensures C.InStep(ConsolePart(Run(load, w, es).c, Tick(now)))
  {
    var r := Run(load, w, es);
    JoinedWrites(r.k, r.m, r.c, offset);
  }

  lemma TwoTicksOn(k: P.Kernel, m: P.Machine, c: C.Con)
    requires P.Represents(k, m) && m.current == 2 && m.page == ScreenPage(2, m.shown)
    requires C.Fit(c) && c.current == 0 && c.shown == m.shown
    ensures C.Fit(C.Ticked(c)) && Joined(k, m, C.Ticked(C.Ticked(c)))
  {}

  /** The runs start somewhere: after boot the kernel and a console that has followed the boot
      ticks are joined, whatever its pages hold. */
  lemma BootJoined(load: Loads, k: P.Kernel, now: seq<P.Context>, left: seq<Leftover>, ebp: seq<int>, c: C.Con)
    requires |now| == |left| == |ebp| == TERMINALS && P.Booting(k, 0, now, P.ShellCalls(load, left, ebp))
    requires C.Fit(c) && c.current == 0 && c.shown == k.shown
    ensures C.Fit(C.Ticked(c))
    ensures Joined(P.Booted(load, k, TERMINALS, now, left, ebp),
                   P.BootedMachine(k.shown, now, P.ShellCalls(load, left, ebp)), C.Ticked(C.Ticked(c)))
  {
    P.BootSimulates(load, k, now, left, ebp);
    var m := P.BootedMachine(k.shown, now, P.ShellCalls(load, left, ebp));
    TwoTicksOn(P.Booted(load, k, TERMINALS, now, left, ebp), m, c);
  }
}
