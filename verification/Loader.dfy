/** The loader inside sys_execute: the command is split at its first space, the named file is
    looked up and checked for the ELF magic, and its bytes are copied into the new process's
    frame.  The entry point is e_entry of the ELF header (System V gABI, chapter 4). */
module Loader {
  import opened Arithmetic
  import opened Bytes
  import opened FileSystem
  import opened DiskImage
  import opened Paging

  const COMMAND_LIMIT := 150
  const SPACE: byte := 0x20
  const HEADER := 28
  const PROGRAM_OFFSET := 0x4_8000
  const PROGRAM_LIMIT := FOUR_MB - PROGRAM_OFFSET
  const CHAT: seq<byte> := [0x4C, 0x65, 0x62, 0x72, 0x6F, 0x6E, 0x20, 0x41, 0x49]  // "Lebron AI"
  const ADDRESS_SIZE := 4
  const MAGIC: seq<byte> := [0x7F, 0x45, 0x4C, 0x46]
  const SHELL: seq<byte> := [0x73, 0x68, 0x65, 0x6C, 0x6C]                         // "shell"

  /** A command line that fits the loader's buffers. */
  type Text = s: seq<byte> | 0 !in s && |s| < COMMAND_LIMIT witness []

  /** What the header buffer on the stack held before the header is read into it. */
  type Leftover = s: seq<byte> | |s| == HEADER witness seq(HEADER, _ => 0)

  /** What the loader makes of a command. */
  datatype Program = Chat | NotLoadable | Loadable(eip: nat)

  // ----- the command line

  ghost function FirstSpace(text: seq<byte>, from: nat := 0): (i: nat)
    requires from <= |text|
    ensures from <= i <= |text|
    ensures i < |text| ==> text[i] == SPACE
    ensures forall k :: from <= k < i ==> text[k] != SPACE
    decreases |text| - from
  {
    if from == |text| || text[from] == SPACE then from else FirstSpace(text, from + 1)
  }

  /** The text of a command with its terminator and the byte after it, which the parser also
      reads when there is an argument. */
  ghost predicate IsCommand(cmd: seq<byte>) {
    Terminated(cmd, 0) && |CStr(cmd, 0)| + 1 < |cmd| && |CStr(cmd, 0)| < COMMAND_LIMIT
  }

  /** The copying loop, for a command of `len` bytes whose first space, if any, is at `space`. */
  method CopyParts(cmd: seq<byte>, len: nat, ghost space: nat, name: array<byte>, args: array<byte>) returns (argFlag: bool)
    requires len + 1 < |cmd| && len < COMMAND_LIMIT && space <= len
    requires (forall k :: 0 <= k < space ==> cmd[k] != SPACE) && (space < len ==> cmd[space] == SPACE) && cmd[len] == 0
    requires name != args && name.Length == args.Length == COMMAND_LIMIT
    requires forall k :: 0 <= k < COMMAND_LIMIT ==> name[k] == args[k] == 0
    modifies name, args
    ensures argFlag <==> space < len
    ensures forall k :: 0 <= k < COMMAND_LIMIT ==> name[k] == if k < space then cmd[k] else 0
    ensures forall k :: 0 <= k < COMMAND_LIMIT ==>
      args[k] == if space < len && k <= len - space then cmd[k + (space + 1)] else 0
  {
    argFlag := false;
    var offset := 0;
    var i := 0;
    while i < len + 1
      invariant 0 <= i <= len + 1
      invariant argFlag <==> space < i && space < len
      invariant argFlag ==> offset == space
      invariant forall k :: 0 <= k < COMMAND_LIMIT ==> name[k] == if k < i && k < space then cmd[k] else 0
      invariant forall k :: 0 <= k < COMMAND_LIMIT ==>
        args[k] == if argFlag && k < i - space then cmd[k + (space + 1)] else 0
    {
      if cmd[i] == SPACE && !argFlag {
        argFlag := true;
        name[i] := 0;
        offset := i;
      }
      if !argFlag {
        name[i] := cmd[i];
      } else {
        args[i - offset] := cmd[i + 1];
      }
      i := i + 1;
    }
  }

  /** The command is its name, or its name, a space and its arguments, with no space in the name. */
  ghost predicate IsSplit(text: seq<byte>, name: seq<byte>, args: seq<byte>, argFlag: bool) {
    && SPACE !in name && (argFlag <==> SPACE in text)
    && text == name + (if argFlag then [SPACE] + args else [])
    && (!argFlag ==> args == [])
  }

  ghost predicate IsFirstSpace(text: seq<byte>, space: nat) {
    space <= |text| && (forall k :: 0 <= k < space ==> text[k] != SPACE) && (space < |text| ==> text[space] == SPACE)
  }

  lemma SplitAt(text: seq<byte>, space: nat)
    requires IsFirstSpace(text, space)
    ensures IsSplit(text, text[..space], if space < |text| then text[space + 1..] else [], space < |text|)
  {}

  lemma Placed(m: seq<byte>, s: seq<byte>)
    requires |s| < |m| && 0 !in s && m[|s|] == 0
    requires forall k :: 0 <= k < |s| ==> m[k] == s[k]
    ensures Terminated(m, 0) && CStr(m, 0) == s
  {
    assert m[..|s|] == s;
    CStrIs(m, 0, s);
  }

  lemma NamePart(text: seq<byte>, space: nat, cmd: seq<byte>, name: seq<byte>)
    requires space <= |text| < |cmd| && |text| < |name| && 0 !in text
    requires forall k :: 0 <= k < |text| ==> cmd[k] == text[k]
    requires forall k :: 0 <= k < |name| ==> name[k] == if k < space then cmd[k] else 0
    ensures Terminated(name, 0) && CStr(name, 0) == text[..space]
  {
    Placed(name, text[..space]);
  }

  lemma ArgsPart(text: seq<byte>, space: nat, cmd: seq<byte>, args: seq<byte>)
    requires space < |text| && |text| + 1 < |cmd| && |text| < |args| && 0 !in text
    requires (forall k :: 0 <= k < |text| ==> cmd[k] == text[k]) && cmd[|text|] == 0
    requires forall k :: 0 <= k <= |text| - space ==> args[k] == cmd[k + (space + 1)]
    ensures Terminated(args, 0) && CStr(args, 0) == text[space + 1..]
  {
    var s := text[space + 1..];
    forall k | 0 <= k < |s| ensures args[k] == s[k] { assert s[k] == text[k + (space + 1)]; }
    assert args[|s|] == cmd[|s| + (space + 1)];
    Placed(args, s);
  }

  lemma Parts(text: seq<byte>, space: nat, cmd: seq<byte>, name: seq<byte>, args: seq<byte>)
    requires |text| + 1 < |cmd| && |text| < COMMAND_LIMIT == |name| == |args| && 0 !in text
    requires IsFirstSpace(text, space)
    requires (forall k :: 0 <= k < |text| ==> cmd[k] == text[k]) && cmd[|text|] == 0
    requires forall k :: 0 <= k < |name| ==> name[k] == if k < space then cmd[k] else 0
    requires forall k :: 0 <= k < |args| ==>
      args[k] == if space < |text| && k <= |text| - space then cmd[k + (space + 1)] else 0
    ensures Terminated(name, 0) && Terminated(args, 0) && CStr(name, 0) == text[..space]
    ensures IsSplit(text, CStr(name, 0), CStr(args, 0), space < |text|)
  {
    NamePart(text, space, cmd, name);
    SplitAt(text, space);
    if space < |text| {
      ArgsPart(text, space, cmd, args);
    } else {
      Placed(args, []);
    }
  }

  method Split(cmd: seq<byte>) returns (name: array<byte>, args: array<byte>, argFlag: bool)
    requires IsCommand(cmd)
    ensures fresh(name) && fresh(args)
    ensures Terminated(name[..], 0) && Terminated(args[..], 0)
    ensures IsSplit(CStr(cmd, 0), CStr(name[..], 0), CStr(args[..], 0), argFlag)
    ensures CStr(name[..], 0) == CStr(cmd, 0)[..FirstSpace(CStr(cmd, 0))]
  {
    ghost var text := CStr(cmd, 0);
    ghost var space := FirstSpace(text);
    var len := StrLen(cmd, 0);
    name := new byte[COMMAND_LIMIT](_ => 0);
    args := new byte[COMMAND_LIMIT](_ => 0);
    assert forall k :: 0 <= k < |text| ==> cmd[k] == text[k];
    argFlag := CopyParts(cmd, len, space, name, args);
    Parts(text, space, cmd, name[..], args[..]);
  }

  // ----- what a command loads

  /** The first 28 bytes of the file over what the buffer held before. */
  ghost function Header(img: Image, inode: nat, left: Leftover): (h: seq<byte>)
    requires GoodInode(img, inode)
    ensures |h| == HEADER
  {
    var n := Min(HEADER, FileLength(img, inode));
    File(img, inode)[..n] + left[n..]
  }

  predicate IsElf(h: seq<byte>)
    requires |h| == HEADER
  {
    h[0] == 0x7F && h[1] == 0x45 && h[2] == 0x4C && h[3] == 0x46
  }

  lemma ElfMagic(h: seq<byte>)
    requires |h| == HEADER
    ensures IsElf(h) <==> h[..|MAGIC|] == MAGIC
  {
    assert forall k :: 0 <= k < |MAGIC| ==> h[k] == h[..|MAGIC|][k];
    if IsElf(h) { assert h[..|MAGIC|] == MAGIC; }
  }

  /** read_data's own error: an empty file, unless it is inode 0. */
  predicate CanRead(img: Image, inode: nat)
    requires HoldsInode(img, inode)
  {
    inode == 0 || FileLength(img, inode) > 0
  }

  ghost predicate Readable(img: Image, inode: nat) { HasInode(img, inode) && CanRead(img, inode) }

  ghost function Named(img: Image, text: seq<byte>): int { Find(img, text[..FirstSpace(text)]) }

  ghost predicate IsChatText(text: seq<byte>) { Take(text, ADDRESS_SIZE) == Take(CHAT, ADDRESS_SIZE) }

  /** It is the first four characters of "Lebron AI" that count. */
  lemma ChatCommand(text: seq<byte>)
    ensures IsChatText(text) <==> |text| >= 4 && text[..4] == [0x4C, 0x65, 0x62, 0x72]
  {
    assert Take(CHAT, ADDRESS_SIZE) == [0x4C, 0x65, 0x62, 0x72];
  }

  ghost function ProgramIn(img: Image, inode: nat, left: Leftover): Program {
    if !Readable(img, inode) || !IsElf(Header(img, inode, left)) then NotLoadable
    else Loadable(Le32(Header(img, inode, left), 24))
  }

  /** What sys_execute makes of a command, as far as the file system decides it.  The test for
      the chat command compares only as many bytes as a pointer has. */
  ghost function ProgramOf(img: Image, text: seq<byte>, left: Leftover): Program
    requires WellFormed(img)
  {
    if IsChatText(text) then Chat
    else if Named(img, text) < 0 then NotLoadable
    else ProgramIn(img, EntryInode(img, Named(img, text)), left)
  }

  // ----- what the image alone decides

  /** The command names a file that starts with the ELF magic. */
  ghost predicate NamesProgram(img: Image, text: seq<byte>)
    requires WellFormed(img)
  {
    && !IsChatText(text) && Named(img, text) >= 0
    && var inode := EntryInode(img, Named(img, text));
       HasInode(img, inode) && FileLength(img, inode) >= |MAGIC| && File(img, inode)[..|MAGIC|] == MAGIC
  }

  lemma NamedLoads(img: Image, text: seq<byte>, left: Leftover)
    requires WellFormed(img) && NamesProgram(img, text)
    ensures ProgramOf(img, text, left).Loadable?
  {
    var inode := EntryInode(img, Named(img, text));
    assert forall k :: 0 <= k < |MAGIC| ==> Header(img, inode, left)[k] == File(img, inode)[..|MAGIC|][k];
  }

  lemma ZeroesDoNotLoad(img: Image, text: seq<byte>)
    requires WellFormed(img) && !NamesProgram(img, text)
    ensures !ProgramOf(img, text, seq(HEADER, _ => 0)).Loadable?
  {
    if !IsChatText(text) && Named(img, text) >= 0 && HasInode(img, EntryInode(img, Named(img, text))) {
      var inode := EntryInode(img, Named(img, text));
      var h := Header(img, inode, seq(HEADER, _ => 0));
      if FileLength(img, inode) < |MAGIC| {
        assert h[3] == 0;
      } else {
        assert File(img, inode)[..|MAGIC|] == h[..|MAGIC|];
        ElfMagic(h);
      }
    }
  }

  /** A command loads whatever the stack held if and only if it names a program. */
  lemma AlwaysLoads(img: Image, text: seq<byte>)
    requires WellFormed(img)
    ensures NamesProgram(img, text) <==> forall left: Leftover :: ProgramOf(img, text, left).Loadable?
  {
    if !NamesProgram(img, text) {
      ZeroesDoNotLoad(img, text);
    } else {
      forall left: Leftover ensures ProgramOf(img, text, left).Loadable? { NamedLoads(img, text, left); }
    }
  }

  /** The command names a file long enough to hold the whole header. */
  ghost predicate LongEnough(img: Image, text: seq<byte>) {
    && Named(img, text) >= 0 && HasInode(img, EntryInode(img, Named(img, text)))
    && FileLength(img, EntryInode(img, Named(img, text))) >= HEADER
  }

  ghost function NamedFile(img: Image, text: seq<byte>): seq<byte>
    requires LongEnough(img, text)
  {
    File(img, EntryInode(img, Named(img, text)))
  }

  /** The 32-bit value whose bytes, lowest first, are at 24 in the file. */
  ghost predicate IsEntry(eip: nat, file: seq<byte>)
    requires |file| >= HEADER
  {
    eip < 0x1_0000_0000 && Word(eip) == file[24..28]
  }

  /** A file of at least 28 bytes decides alone whether it loads, and its bytes 24 to 27 are
      the entry point, lowest first. */
  lemma EntryPoint(img: Image, text: seq<byte>, left: Leftover)
    requires WellFormed(img) && !IsChatText(text) && LongEnough(img, text)
    ensures var file, program := NamedFile(img, text), ProgramOf(img, text, left);
      if file[..4] == [0x7F, 0x45, 0x4C, 0x46] then
        program.Loadable? && IsEntry(program.eip, file)
      else program == NotLoadable
  {
    var inode := EntryInode(img, Named(img, text));
    var file, h := File(img, inode), Header(img, inode, left);
    assert forall k :: 0 <= k < HEADER ==> h[k] == file[k];
    assert file[..|MAGIC|] == h[..|MAGIC|];
    ElfMagic(h);
    WordOfLe32(h, 24);
    assert h[24..28] == file[24..28];
  }

  /** A shorter file is completed by what the buffer held: both decide then. */
  lemma ShortProgram(img: Image, text: seq<byte>, left: Leftover)
    requires WellFormed(img) && !IsChatText(text) && Named(img, text) >= 0
    requires var inode := EntryInode(img, Named(img, text)); HasInode(img, inode) && 0 < FileLength(img, inode) < 28
    ensures var file := File(img, EntryInode(img, Named(img, text)));
      var h := file + left[|file|..];
      ProgramOf(img, text, left).Loadable? <==> h[..4] == [0x7F, 0x45, 0x4C, 0x46]
    ensures var file := File(img, EntryInode(img, Named(img, text)));
      var h := file + left[|file|..];
      ProgramOf(img, text, left).Loadable? ==> Word(ProgramOf(img, text, left).eip) == h[24..28]
  {
    var inode := EntryInode(img, Named(img, text));
    var file, h := File(img, inode), Header(img, inode, left);
    assert h == file + left[|file|..];
    ElfMagic(h);
    WordOfLe32(h, 24);
  }

  /** A well-formed image that holds a shell. */
  ghost predicate HoldsShell(img: Image) { WellFormed(img) && NamesProgram(img, SHELL) }

  /** A program written to a disk under some name is found again by a command of that name. */
  lemma WrittenProgram(fs: seq<Record>, i: nat, text: seq<byte>)
    requires Storable(fs) && i < |fs| && fs[i].name == text[..FirstSpace(text)] && !IsChatText(text)
    requires |fs[i].data| >= 4 && fs[i].data[..4] == MAGIC
    ensures WellFormed(ImageOf(fs)) && NamesProgram(ImageOf(fs), text)
    ensures |fs[i].data| >= HEADER ==> LongEnough(ImageOf(fs), text) && NamedFile(ImageOf(fs), text) == fs[i].data
  {
    ReadsBack(fs, i);
  }

  /** A disk with one file, which shows that there is one with a shell. */
  ghost function SmallFiles(): seq<Record> { [Record(SHELL, 2, MAGIC)] }

  ghost function SmallDisk(): (img: Image)
    ensures HoldsShell(img)
  {
    assert FirstSpace(SHELL) == |SHELL| && SHELL[..|SHELL|] == SHELL;
    WrittenProgram(SmallFiles(), 0, SHELL);
    ImageOf(SmallFiles())
  }

  // ----- loading from a disk

  type Disk = img: Image | HoldsShell(img) ghost witness SmallDisk()

  /** What a kernel loads for each command, with a shell that always loads. */
  type Loads = load: (Text, Leftover) -> Program | forall left: Leftover :: load(SHELL, left).Loadable?
    ghost witness (_, _) => Loadable(0)

  /** A disk with a shell is such a source of programs. */
  ghost function LoadsOf(disk: Disk): (load: Loads)
    ensures forall text: Text, left: Leftover :: load(text, left) == ProgramOf(disk, text, left)
  {
    AlwaysLoads(disk, SHELL);
    (text: Text, left: Leftover) => ProgramOf(disk, text, left)
  }

  // ----- the code

  lemma HeaderIs(img: Image, inode: nat, left: Leftover, buf: seq<byte>)
    requires GoodInode(img, inode) && |buf| == HEADER
    requires var n := Min(HEADER, FileLength(img, inode)); buf[..n] == File(img, inode)[..n] && buf[n..] == left[n..]
    ensures buf == Header(img, inode, left)
  {
    var n := Min(HEADER, FileLength(img, inode));
    assert buf == buf[..n] + buf[n..];
  }

  /** Reading and checking the header. */
  method CheckHeader(img: Image, inode: nat, left: Leftover) returns (program: Program)
    requires WellFormed(img)
    ensures program == ProgramIn(img, inode, left)
    ensures program.Loadable? && FileLength(img, inode) >= HEADER ==> IsEntry(program.eip, File(img, inode))
  {
    var buf := new byte[HEADER](k requires 0 <= k < HEADER => left[k]);
    assert buf[..] == left;
    var r := ReadData(img, inode, 0, buf, 0, HEADER);
    if r < 0 { return NotLoadable; }
    assert buf[..][..r] == buf[0..0 + r] == File(img, inode)[..r];
    assert forall k :: r <= k < HEADER ==> buf[k] == left[k];
    assert buf[..][r..] == left[r..];
    HeaderIs(img, inode, left, buf[..]);
    if buf[0] != 0x7F || buf[1] != 0x45 || buf[2] != 0x4C || buf[3] != 0x46 { return NotLoadable; }
    program := Loadable(Le32(buf[..], 24));
    WordOfLe32(buf[..], 24);
    if FileLength(img, inode) >= HEADER { assert buf[..][24..28] == File(img, inode)[24..28]; }
  }

  method IsChat(cmd: seq<byte>) returns (chat: bool)
    requires Terminated(cmd, 0)
    ensures chat <==> IsChatText(CStr(cmd, 0))
  {
    var text := CHAT + [0];
    assert CStr(text, 0) == CHAT by { CStrIs(text, 0, CHAT); }
    var d := StrNCmp(cmd, 0, text, 0, ADDRESS_SIZE);
    chat := d == 0;
  }

  /** The parsing of the command, the first open and the header check. */
  method Inspect(img: Image, cmd: seq<byte>, left: Leftover) returns (name: array<byte>, program: Program)
    requires WellFormed(img) && IsCommand(cmd) && !IsChatText(CStr(cmd, 0))
    ensures fresh(name) && Terminated(name[..], 0)
    ensures Find(img, CStr(name[..], 0)) == Named(img, CStr(cmd, 0))
    ensures program == ProgramOf(img, CStr(cmd, 0), left)
  {
    var args, argFlag;
    name, args, argFlag := Split(cmd);
    var entry := LookUp(img, name[..]);
    if entry == -1 { return name, NotLoadable; }
    program := CheckHeader(img, EntryInode(img, entry), left);
  }

  /** Memory holds as much of the file as fits, from `at` on, and is otherwise unchanged. */
  ghost predicate HoldsFile(memory: seq<byte>, was: seq<byte>, at: nat, file: seq<byte>) {
    var n := Min(|file|, PROGRAM_LIMIT);
    && |memory| == |was| && at + n <= |memory|
    && memory[at..at + n] == file[..n]
    && forall a :: 0 <= a < |memory| && !(at <= a < at + n) ==> memory[a] == was[a]
  }

  /** The frame of slot `pid` has been filled with file `inode`. */
  ghost predicate FrameHolds(img: Image, inode: nat, was: seq<byte>, memory: seq<byte>, pid: nat) {
    GoodInode(img, inode) && HoldsFile(memory, was, FrameAt(pid) + PROGRAM_OFFSET, File(img, inode))
  }

  /** The frame of slot `pid` has been filled with the program the command names. */
  ghost predicate Filled(img: Image, text: seq<byte>, was: seq<byte>, memory: seq<byte>, pid: nat) {
    Named(img, text) >= 0 && FrameHolds(img, EntryInode(img, Named(img, text)), was, memory, pid)
  }

  /** What that means byte by byte: the file's first 4 MB - 0x48000 bytes are at 0x48000 in the
      frame, and all other memory is as it was. */
  lemma FrameBytes(img: Image, inode: nat, was: seq<byte>, memory: seq<byte>, pid: nat, k: nat)
    requires FrameHolds(img, inode, was, memory, pid) && k < |memory|
    ensures var from := 0x80_0000 + 0x40_0000 * pid + 0x4_8000;
      memory[k] ==
        if from <= k < from + Min(FileLength(img, inode), 0x3B_8000) then File(img, inode)[k - from] else was[k]
  {
    var at, file := FrameAt(pid) + PROGRAM_OFFSET, File(img, inode);
    var n := Min(|file|, PROGRAM_LIMIT);
    if at <= k < at + n { assert memory[at..at + n][k - at] == file[..n][k - at]; }
  }

  /** The copy into the frame of slot `pid`; it fails exactly on a file that cannot be read. */
  method CopyProgram(img: Image, inode: nat, memory: array<byte>, pid: nat) returns (ok: bool)
    requires WellFormed(img) && pid < PIDS && memory.Length >= FrameAt(PIDS)
    modifies memory
    ensures ok <==> Readable(img, inode)
    ensures ok ==> FrameHolds(img, inode, old(memory[..]), memory[..], pid)
    ensures !ok ==> memory[..] == old(memory[..])
  {
    var r := ReadData(img, inode, 0, memory, FrameAt(pid) + PROGRAM_OFFSET, PROGRAM_LIMIT);
    ok := r >= 0;
    if ok {
      assert memory[..][FrameAt(pid) + PROGRAM_OFFSET..FrameAt(pid) + PROGRAM_OFFSET + r]
          == memory[FrameAt(pid) + PROGRAM_OFFSET..FrameAt(pid) + PROGRAM_OFFSET + r];
    }
  }

  /** No frame but the loaded one is written. */
  lemma OnlyOwnFrame(pid: nat, q: nat, a: nat)
    requires pid < PIDS && q < PIDS && InFrame(a, q)
    requires FrameAt(pid) + PROGRAM_OFFSET <= a < FrameAt(pid) + PROGRAM_OFFSET + PROGRAM_LIMIT
    ensures pid == q
  {
    Disjoint(pid, q, a);
  }
}
