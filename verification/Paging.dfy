/** The page tables (paging.c) and the address translation they define: 32-bit paging with
    4 MB pages, Intel SDM volume 3A, section 4.3. */
module Paging {
  import opened Arithmetic
  import opened Terminals

  const ENTRIES := 1024
  const FOUR_KB := 0x1000
  const FOUR_MB := 0x40_0000
  const EIGHT_MB := 0x80_0000
  const EIGHT_KB := 8192
  const VIDEO := 0xB8          // page number of video memory, and its index in both tables
  const KERNEL_PAGE := 1
  const USER_PAGE := 0x20
  const USER_VIDEO := 34
  const PIDS := 18

  /** Entries hold bits 12 to 31 of an address. */
  datatype Pde = Pde(present: bool, writable: bool, user: bool, big: bool, addr: nat)
  datatype Pte = Pte(present: bool, writable: bool, user: bool, addr: nat)

  /** The directory, the two page tables and where these two are in memory. */
  datatype Mmu = Mmu(pd: seq<Pde>, low: seq<Pte>, video: seq<Pte>, lowAt: nat, videoAt: nat)

  function EmptyPde(): Pde { Pde(false, false, false, false, 0) }
  function EmptyPte(): Pte { Pte(false, false, false, 0) }

  function FrameAt(pid: nat): nat { EIGHT_MB + FOUR_MB * pid }

  function BigPage(user: bool, at: nat): Pde { Pde(true, true, user, true, at / FOUR_KB) }
  function Table(user: bool, at: nat): Pde { Pde(true, true, user, false, at / FOUR_KB) }
  function SmallPage(user: bool, page: nat): Pte { Pte(true, true, user, page) }

  // ----- the hardware's translation

  datatype Access = Fault | Physical(address: nat) | NoSuchTable

  /** The kernel leaves CR0.WP clear, so only user-mode accesses are checked. */
  datatype Mode = Mode(user: bool, write: bool)

  const KERNEL := Mode(false, true)

  predicate Denied(mode: Mode, user: bool, writable: bool) { mode.user && (!user || (mode.write && !writable)) }

  function ThroughTable(table: seq<Pte>, va: nat, mode: Mode): Access
    requires |table| == ENTRIES
  {
    var pte := table[va / FOUR_KB % ENTRIES];
    if !pte.present || Denied(mode, pte.user, pte.writable) then Fault
    else Physical(pte.addr * FOUR_KB + va % FOUR_KB)
  }

  function Translate(m: Mmu, va: nat, mode: Mode): Access
    requires |m.pd| == |m.low| == |m.video| == ENTRIES && va < 0x1_0000_0000
  {
    var pde := m.pd[va / FOUR_MB];
    if !pde.present || Denied(mode, pde.user, pde.writable) then Fault
    else if pde.big then Physical(pde.addr / 1024 * FOUR_MB + va % FOUR_MB)
    else if pde.addr * FOUR_KB == m.lowAt then ThroughTable(m.low, va, mode)
    else if pde.addr * FOUR_KB == m.videoAt then ThroughTable(m.video, va, mode)
    else NoSuchTable
  }

  // ----- the maps the kernel uses

  /** Low table: B8 shows `page`, B9 to BB are the terminals' own pages, BC is always B8. */
  ghost function LowEntry(i: nat, page: nat): Pte {
    if i == VIDEO then SmallPage(false, page)
    else if VIDEO < i <= VIDEO + 3 then SmallPage(false, i)
    else if i == VIDEO + 4 then SmallPage(false, VIDEO)
    else EmptyPte()
  }

  ghost function VideoEntry(i: nat, page: nat): Pte {
    if i == VIDEO then SmallPage(true, page)
    else if VIDEO < i <= VIDEO + 3 then SmallPage(true, i)
    else EmptyPte()
  }

  ghost function DirectoryEntry(i: nat, pid: nat, lowAt: nat, videoAt: nat): Pde {
    if i == 0 then Table(false, lowAt)
    else if i == KERNEL_PAGE then BigPage(false, FOUR_MB)
    else if i == USER_PAGE then BigPage(true, FrameAt(pid))
    else if i == USER_VIDEO then Table(true, videoAt)
    else EmptyPde()
  }

  /** Everything is mapped for process `pid`, with virtual page B8 on physical page `page`. */
  ghost predicate MapsFor(m: Mmu, pid: nat, page: nat) {
    && |m.pd| == |m.low| == |m.video| == ENTRIES
    && m.lowAt % FOUR_KB == 0 && m.videoAt % FOUR_KB == 0 && m.lowAt != m.videoAt
    && (forall i: nat :: i < ENTRIES ==> m.pd[i] == DirectoryEntry(i, pid, m.lowAt, m.videoAt))
    && (forall i: nat :: i < ENTRIES ==> m.low[i] == LowEntry(i, page))
    && (forall i: nat :: i < ENTRIES ==> m.video[i] == VideoEntry(i, page))
  }

  function WithUserPage(m: Mmu, pid: nat): Mmu
    requires |m.pd| == ENTRIES
  {
    m.(pd := m.pd[USER_PAGE := BigPage(true, FrameAt(pid))])
  }

  function WithScreen(m: Mmu, page: nat): Mmu
    requires |m.low| == |m.video| == ENTRIES
  {
    m.(low := m.low[VIDEO := SmallPage(false, page)], video := m.video[VIDEO := SmallPage(true, page)])
  }

  lemma WithUserPageMaps(m: Mmu, pid: nat, page: nat, pid': nat)
    requires MapsFor(m, pid, page)
    ensures MapsFor(WithUserPage(m, pid'), pid', page)
  {}

  lemma WithScreenMaps(m: Mmu, pid: nat, page: nat, page': nat)
    requires MapsFor(m, pid, page)
    ensures MapsFor(WithScreen(m, page'), pid, page')
  {}

  /** The physical page holding a terminal's screen. */
  function ScreenPage(terminal: nat, shown: nat): nat {
    VIDEO + ScreenOf(shown, terminal)
  }

  // ----- isolation

  predicate InFrame(a: nat, pid: nat) { FrameAt(pid) <= a < FrameAt(pid) + FOUR_MB }
  predicate InVideo(a: nat) { VIDEO * FOUR_KB <= a < (VIDEO + 4) * FOUR_KB }
  predicate IsScreenPage(page: nat) { VIDEO <= page <= VIDEO + 3 }

  lemma BigPageAddress(pid: nat)
    ensures FrameAt(pid) / FOUR_KB / 1024 * FOUR_MB == FrameAt(pid)
  {
    DivModUnique(2048 + 1024 * pid, 0, FOUR_KB);
    DivModUnique(2 + pid, 0, 1024);
  }

  lemma ThroughVideo(m: Mmu, pid: nat, page: nat, va: nat, write: bool)
    requires MapsFor(m, pid, page) && IsScreenPage(page) && va < 0x1_0000_0000
    ensures var t := va / FOUR_KB % ENTRIES; var a := ThroughTable(m.video, va, Mode(true, write));
      if VIDEO <= t <= VIDEO + 3 then
        a == Physical((if t == VIDEO then page else t) * FOUR_KB + va % FOUR_KB) && InVideo(a.address)
      else a == Fault
  {
    var t := va / FOUR_KB % ENTRIES;
    assert m.video[t] == VideoEntry(t, page);
  }

  /** A user-mode access, read or write, faults, or lands at the same offset in the process's own
      frame, or in the four video pages; which of these is decided by the virtual address alone. */
  lemma UserAccess(m: Mmu, pid: nat, page: nat, va: nat, write: bool)
    requires MapsFor(m, pid, page) && IsScreenPage(page) && va < 0x1_0000_0000
    ensures var a := Translate(m, va, Mode(true, write));
      if va / FOUR_MB == USER_PAGE then a == Physical(FrameAt(pid) + va % FOUR_MB) && InFrame(a.address, pid)
      else if va / FOUR_MB == USER_VIDEO && VIDEO <= va / FOUR_KB % ENTRIES <= VIDEO + 3 then
        a.Physical? && InVideo(a.address)
      else a == Fault
  {
    var d := va / FOUR_MB;
    assert m.pd[d] == DirectoryEntry(d, pid, m.lowAt, m.videoAt);
    BigPageAddress(pid);
    ThroughVideo(m, pid, page, va, write);
  }

  /** The user's pages by their addresses: 128 MB is the running process's frame at 8 MB + 4 MB per
      process, where the user may write. */
  lemma UserFrame(m: Mmu, pid: nat, page: nat, offset: nat, mode: Mode)
    requires MapsFor(m, pid, page) && IsScreenPage(page) && offset < 0x40_0000
    ensures Translate(m, 0x800_0000 + offset, mode) == Physical(0x80_0000 + 0x40_0000 * pid + offset)
  {
    DivModUnique(0x20, offset, FOUR_MB);
    assert m.pd[0x20] == DirectoryEntry(0x20, pid, m.lowAt, m.videoAt);
    BigPageAddress(pid);
  }

  lemma PageIndex(p: nat, offset: nat)
    requires p <= 4 && offset < FOUR_KB
    ensures var va := 0xB_8000 + 0x1000 * p + offset;
      va / FOUR_MB == 0 && va / FOUR_KB % ENTRIES == VIDEO + p && va % FOUR_KB == offset
  {
    DivModUnique(VIDEO + p, offset, FOUR_KB);
    DivModUnique(0, 0xB_8000 + 0x1000 * p + offset, FOUR_MB);
    DivModUnique(0, VIDEO + p, ENTRIES);
  }

  /** The kernel's view of video memory: page B8 is `page`, pages B9 to BB are themselves, and page
      BC, which the keyboard writes through, is always physical page B8. */
  lemma VideoPages(m: Mmu, pid: nat, page: nat, p: nat, offset: nat, write: bool)
    requires MapsFor(m, pid, page) && p <= 4 && offset < FOUR_KB
    ensures Translate(m, 0xB_8000 + 0x1000 * p + offset, Mode(false, write)) ==
      Physical(offset + if p == 0 then page * 0x1000 else if p == 4 then 0xB_8000 else 0xB_8000 + 0x1000 * p)
    ensures Translate(m, 0xB_8000 + 0x1000 * p + offset, Mode(true, write)) == Fault
  {
    PageIndex(p, offset);
    assert m.pd[0] == DirectoryEntry(0, pid, m.lowAt, m.videoAt);
    assert m.low[VIDEO + p] == LowEntry(VIDEO + p, page);
  }

  /** The kernel page is mapped onto itself, for the kernel only, whatever process runs. */
  lemma KernelAccess(m: Mmu, pid: nat, page: nat, va: nat, write: bool)
    requires MapsFor(m, pid, page) && FOUR_MB <= va < EIGHT_MB
    ensures Translate(m, va, Mode(false, write)) == Physical(va) && Translate(m, va, Mode(true, write)) == Fault
  {
    assert m.pd[1] == DirectoryEntry(1, pid, m.lowAt, m.videoAt);
  }

  function PidStack(pid: int): int { EIGHT_MB - EIGHT_KB * pid }
  function PcbAddress(pid: int): int { EIGHT_MB - EIGHT_KB * (pid + 1) }

  predicate InKernelStack(a: int, pid: nat) { PcbAddress(pid) <= a < PidStack(pid) }

  /** Frames of different processes are disjoint, from each other, from the kernel page and
      from video memory; the 18 kernel stacks are disjoint and inside the kernel page. */
  lemma Disjoint(p: nat, q: nat, a: nat)
    requires p < PIDS && q < PIDS
    ensures InFrame(a, p) && InFrame(a, q) ==> p == q
    ensures InFrame(a, p) ==> !(FOUR_MB <= a < EIGHT_MB) && !InVideo(a)
    ensures InKernelStack(a, p) && InKernelStack(a, q) ==> p == q
    ensures InKernelStack(a, p) ==> FOUR_MB <= a < EIGHT_MB
    ensures PcbAddress(p) == PcbAddress(q) ==> p == q
  {}

  // ----- paging_init

  method InitEmptyPdt(table: array<Pde>)
    requires table.Length == ENTRIES
    modifies table
    ensures forall k :: 0 <= k < ENTRIES ==> table[k] == EmptyPde()
  {
    for i := 0 to ENTRIES
      invariant forall k :: 0 <= k < i ==> table[k] == EmptyPde()
    {
      table[i] := EmptyPde();
    }
  }

  method InitEmptyPtt(table: array<Pte>)
    requires table.Length == ENTRIES
    modifies table
    ensures forall k :: 0 <= k < ENTRIES ==> table[k] == EmptyPte()
  {
    for i := 0 to ENTRIES
      invariant forall k :: 0 <= k < i ==> table[k] == EmptyPte()
    {
      table[i] := EmptyPte();
    }
  }

  // The fixed entries of paging_init, one table at a time.

  method InitDirectory(pd: array<Pde>, lowAt: nat, videoAt: nat)
    requires pd.Length == ENTRIES
    modifies pd
    ensures forall i: nat :: i < ENTRIES ==> pd[i] == DirectoryEntry(i, 0, lowAt, videoAt)
  {
    InitEmptyPdt(pd);
    pd[0] := Table(false, lowAt);
    pd[KERNEL_PAGE] := BigPage(false, FOUR_MB);
    pd[USER_VIDEO] := Table(true, videoAt);
    pd[USER_PAGE] := BigPage(true, EIGHT_MB);
  }

  method InitLow(low: array<Pte>)
    requires low.Length == ENTRIES
    modifies low
    ensures forall i: nat :: i < ENTRIES ==> low[i] == LowEntry(i, VIDEO)
  {
    InitEmptyPtt(low);
    low[VIDEO] := SmallPage(false, VIDEO);
    low[VIDEO + 1] := SmallPage(false, VIDEO + 1);
    low[VIDEO + 2] := SmallPage(false, VIDEO + 2);
    low[VIDEO + 3] := SmallPage(false, VIDEO + 3);
    low[VIDEO + 4] := SmallPage(false, VIDEO);
  }

  method InitVideo(video: array<Pte>)
    requires video.Length == ENTRIES
    modifies video
    ensures forall i: nat :: i < ENTRIES ==> video[i] == VideoEntry(i, VIDEO)
  {
    InitEmptyPtt(video);
    video[VIDEO] := SmallPage(true, VIDEO);
    video[VIDEO + 1] := SmallPage(true, VIDEO + 1);
    video[VIDEO + 2] := SmallPage(true, VIDEO + 2);
    video[VIDEO + 3] := SmallPage(true, VIDEO + 3);
  }

  class PageTables {
    const pd: array<Pde>
    const low: array<Pte>
    const video: array<Pte>
    const lowAt: nat
    const videoAt: nat

    ghost predicate Valid() {
      && pd.Length == low.Length == video.Length == ENTRIES && low != video
    }

    function State(): Mmu
      reads pd, low, video
    {
      Mmu(pd[..], low[..], video[..], lowAt, videoAt)
    }

    /** paging_init. */
    constructor (lowAt: nat, videoAt: nat, stalePde: Pde, stalePte: Pte)
      requires lowAt % FOUR_KB == 0 && videoAt % FOUR_KB == 0 && lowAt != videoAt
      ensures Valid() && fresh(pd) && fresh(low) && fresh(video)
      ensures MapsFor(State(), 0, VIDEO)
    {
      this.lowAt, this.videoAt := lowAt, videoAt;
      pd := new Pde[ENTRIES](_ => stalePde);
      low := new Pte[ENTRIES](_ => stalePte);
      video := new Pte[ENTRIES](_ => stalePte);
      new;
      InitDirectory(pd, lowAt, videoAt);
      InitLow(low);
      InitVideo(video);
    }

    method SetUserPage(pid: nat)
      requires Valid()
      modifies pd
      ensures State() == WithUserPage(old(State()), pid)
    {
      pd[USER_PAGE] := BigPage(true, FrameAt(pid));
    }

    /** remapB8. */
    method Remap(terminal: nat, shown: nat)
      requires Valid()
      modifies low, video
      ensures State() == WithScreen(old(State()), ScreenPage(terminal, shown))
    {
      if terminal == shown {
        low[VIDEO] := SmallPage(false, VIDEO);
        video[VIDEO] := SmallPage(true, VIDEO);
      } else {
        low[VIDEO] := SmallPage(false, VIDEO + (terminal + 1));
        video[VIDEO] := SmallPage(true, VIDEO + (terminal + 1));
      }
    }
  }
}
