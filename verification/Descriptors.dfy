/** The descriptor table of one process: open, read and close of system_call.c over the
    file operations of filesys.c. */
module Descriptors {
  import opened Arithmetic
  import opened Bytes
  import opened FileSystem

  const FD_TABLE_SIZE := 8

  datatype Kind = StdIn | StdOut | Clock | Directory | Regular

  /** `inode` is the inode number of the directory entry loaded by open_file or open_dir;
      rtc_open loads none. */
  datatype Fd = Fd(active: bool, kind: Kind, offset: nat, inode: nat)

  function KindOf(entryType: nat): Kind
    requires entryType <= 2
  {
    if entryType == 0 then Clock else if entryType == 1 then Directory else Regular
  }

  // ----- what each call does to the table

  /** The lowest free slot, or the table size. */
  ghost function LowestFree(fds: seq<Fd>, from: nat := 0): (r: nat)
    requires from <= |fds|
    ensures from <= r <= |fds|
    ensures forall k :: from <= k < r ==> fds[k].active
    ensures r < |fds| ==> !fds[r].active
    decreases |fds| - from
  {
    if from == |fds| || !fds[from].active then from else LowestFree(fds, from + 1)
  }

  ghost predicate Opens(img: Image, fds: seq<Fd>, name: seq<byte>) {
    name != [] && Find(img, name) >= 0 && LowestFree(fds) < |fds|
  }

  ghost function Opened(img: Image, fds: seq<Fd>, name: seq<byte>): seq<Fd>
    requires WellFormed(img) && Opens(img, fds, name)
  {
    var i, entry := LowestFree(fds), Find(img, name);
    var kind := KindOf(EntryType(img, entry));
    fds[i := Fd(true, kind, 0, if kind == Clock then fds[i].inode else EntryInode(img, entry))]
  }

  ghost predicate GoodFd(img: Image, fd: Fd) {
    fd.active && fd.kind == Regular ==> HasInode(img, fd.inode) && fd.offset <= FileLength(img, fd.inode)
  }

  /** The bytes a read of `n` bytes delivers through a regular-file descriptor. */
  ghost function Delivered(img: Image, fd: Fd, n: nat): seq<byte>
    requires GoodFd(img, fd) && fd.active && fd.kind == Regular
  {
    File(img, fd.inode)[fd.offset..fd.offset + Min(n, FileLength(img, fd.inode) - fd.offset)]
  }

  ghost function AfterRead(img: Image, fd: Fd, n: nat): Fd
    requires GoodFd(img, fd)
  {
    if !fd.active then fd
    else if fd.kind == Regular then fd.(offset := fd.offset + |Delivered(img, fd, n)|)
    else if fd.kind == Directory && fd.offset <= NumDentries(img) then fd.(offset := fd.offset + 1)
    else fd
  }

  predicate Closes(fds: seq<Fd>, i: nat)
    requires i < |fds|
  {
    2 <= i && fds[i].active
  }

  /** close_file and close_dir leave inode number -1 behind, rtc_close leaves the entry. */
  ghost function AfterClose(fd: Fd): Fd {
    if fd.kind == Clock then fd.(active := false) else fd.(active := false, inode := 0xFFFF_FFFF)
  }

  ghost predicate GoodTable(img: Image, fds: seq<Fd>) {
    && |fds| == FD_TABLE_SIZE
    && fds[0].active && fds[0].kind == StdIn
    && fds[1].active && fds[1].kind == StdOut
    && (forall i :: 2 <= i < |fds| ==> fds[i].active ==> !fds[i].kind.StdIn? && !fds[i].kind.StdOut?)
    && (forall i :: 0 <= i < |fds| ==> GoodFd(img, fds[i]))
  }

  lemma OpenKeeps(img: Image, fds: seq<Fd>, name: seq<byte>)
    requires WellFormed(img) && GoodTable(img, fds) && Opens(img, fds, name)
    ensures GoodTable(img, Opened(img, fds, name)) && LowestFree(fds) >= 2
  {
    assert HasInode(img, EntryInode(img, Find(img, name))) || EntryType(img, Find(img, name)) != 2;
  }

  lemma TableUpdate(img: Image, fds: seq<Fd>, i: nat, fd: Fd)
    requires GoodTable(img, fds) && i < FD_TABLE_SIZE && GoodFd(img, fd)
    requires fd.kind == fds[i].kind && (fd.active == fds[i].active || (2 <= i && !fd.active))
    ensures GoodTable(img, fds[i := fd])
  {}

  /** The descriptor is that of the named entry: types 0, 1 and 2 are the clock, the directory and
      the regular file in the entry's inode. */
  ghost predicate OpenedAs(img: Image, fd: Fd, name: seq<byte>) {
    var entry := Find(img, name);
    && fd.active && entry >= 0
    && (EntryType(img, entry) == 0 ==> fd.kind == Clock)
    && (EntryType(img, entry) == 1 ==> fd.kind == Directory)
    && (EntryType(img, entry) == 2 ==> fd.kind == Regular && fd.inode == EntryInode(img, entry))
  }

  class Process {
    const fds: array<Fd>

    /** init_pcb's table: stdin and stdout, the rest inactive. */
    constructor (img: Image, stale: Fd)
      ensures fresh(fds) && GoodTable(img, fds[..])
      ensures forall i :: 2 <= i < FD_TABLE_SIZE ==> !fds[i].active
    {
      fds := new Fd[FD_TABLE_SIZE](i => if i == 0 then Fd(true, StdIn, 0, 0)
                                        else if i == 1 then Fd(true, StdOut, 0, 0)
                                        else stale.(active := false));
    }

    method Open(img: Image, filename: seq<byte>) returns (r: int)
      requires WellFormed(img) && GoodTable(img, fds[..]) && Terminated(filename, 0)
      modifies fds
      ensures GoodTable(img, fds[..])
      ensures var name := CStr(filename, 0); var was := old(fds[..]);
        if Opens(img, was, name) then r == LowestFree(was) && 2 <= r && fds[..] == Opened(img, was, name)
        else r == -1 && fds[..] == was
      ensures r != -1 ==>
        && 2 <= r < 8 && !old(fds[r].active) && (forall k :: 2 <= k < r ==> old(fds[k].active))
        && OpenedAs(img, fds[r], CStr(filename, 0)) && fds[r].offset == 0
        && forall k :: 0 <= k < FD_TABLE_SIZE && k != r ==> fds[k] == old(fds[k])
    {
      if filename[0] == 0 { return -1; }
      var entry := LookUp(img, filename);
      if entry == -1 { return -1; }
      var fileType := EntryType(img, entry);
      var inode := EntryInode(img, entry);
      var i := 0;
      while i < FD_TABLE_SIZE
        invariant 0 <= i <= FD_TABLE_SIZE
        invariant LowestFree(fds[..], i) == LowestFree(fds[..])
        invariant fds[..] == old(fds[..])
      {
        if !fds[i].active {
          OpenKeeps(img, fds[..], CStr(filename, 0));
          fds[i] := Fd(true, KindOf(fileType), 0, if fileType == 0 then fds[i].inode else inode);
          return i;
        }
        i := i + 1;
      }
      return -1;
    }

    /** `device` is what the terminal, clock or directory driver returns for this read. */
    method Read(img: Image, i: nat, buf: array<byte>, n: nat, device: int) returns (r: int)
      requires WellFormed(img) && GoodTable(img, fds[..]) && i < FD_TABLE_SIZE
      requires n <= buf.Length
      modifies fds, buf
      ensures GoodTable(img, fds[..])
      ensures fds[..] == old(fds[..])[i := AfterRead(img, old(fds[i]), n)]
      ensures i == 1 || !old(fds[i].active) ==> r == -1
      ensures old(fds[i].active && fds[i].kind == Directory) ==>
        fds[i].offset == old(fds[i].offset) + if old(fds[i].offset) <= NumDentries(img) then 1 else 0
      ensures old(fds[i].active && fds[i].kind == Regular) ==>
        && r == |Delivered(img, old(fds[i]), n)|
        && buf[..r] == Delivered(img, old(fds[i]), n)
        && buf[r..] == old(buf[r..])
      ensures !old(fds[i].active && fds[i].kind == Regular) ==> buf[..] == old(buf[..])
      ensures i != 1 && old(fds[i].active && fds[i].kind != Regular) ==>
        r == if old(fds[i].kind == Directory && fds[i].offset > NumDentries(img)) then 0 else device
    {
      if i == 1 { return -1; }
      var fd := fds[i];
      if !fd.active { return -1; }
      match fd.kind
      case Regular =>
        var fileSize := FileLength(img, fd.inode);
        if fd.offset == fileSize { return 0; }
        r := ReadData(img, fd.inode, fd.offset, buf, 0, n);
        if r == -1 || r == -2 { return -1; }
        fds[i] := fd.(offset := fd.offset + r);
      case Directory =>
        if fd.offset > NumDentries(img) { return 0; }
        fds[i] := fd.(offset := fd.offset + 1);
        return device;
      case _ => return device;
    }

    method Close(img: Image, i: nat) returns (r: int)
      requires GoodTable(img, fds[..]) && i < FD_TABLE_SIZE
      modifies fds
      ensures GoodTable(img, fds[..])
      ensures r == if Closes(old(fds[..]), i) then 0 else -1
      ensures fds[..] == if Closes(old(fds[..]), i) then old(fds[..])[i := AfterClose(old(fds[i]))] else old(fds[..])
      ensures r == 0 <==> 2 <= i && old(fds[i].active)
      ensures if r == 0 then !fds[i].active else fds[i] == old(fds[i])
      ensures forall k :: 0 <= k < FD_TABLE_SIZE && k != i ==> fds[k] == old(fds[k])
    {
      if i < 2 { return -1; }
      if !fds[i].active { return -1; }
      fds[i] := fds[i].(active := false);
      if fds[i].kind != Clock {
        fds[i] := fds[i].(inode := 0xFFFF_FFFF);
      }
      return 0;
    }

    /** The loop of sys_halt: afterwards only stdin and stdout are left. */
    method CloseAll(img: Image)
      requires GoodTable(img, fds[..])
      modifies fds
      ensures GoodTable(img, fds[..])
      ensures fds[0] == old(fds[0]) && fds[1] == old(fds[1])
      ensures forall k :: 2 <= k < FD_TABLE_SIZE ==>
        fds[k] == if old(fds[k].active) then AfterClose(old(fds[k])) else old(fds[k])
      ensures forall k :: 0 <= k < FD_TABLE_SIZE ==> (fds[k].active <==> k < 2)
    {
      var i := 0;
      while i < FD_TABLE_SIZE
        invariant 0 <= i <= FD_TABLE_SIZE && GoodTable(img, fds[..])
        invariant forall k :: 0 <= k < FD_TABLE_SIZE ==>
          fds[k] == if 2 <= k < i && old(fds[k].active) then AfterClose(old(fds[k])) else old(fds[k])
      {
        if fds[i].active {
          var r := Close(img, i);
        }
        i := i + 1;
      }
    }

    /** The loop of the `cat` program: read until a read returns zero. */
    method Cat(img: Image, i: nat, chunk: nat) returns (out: seq<byte>)
      requires WellFormed(img) && GoodTable(img, fds[..]) && i < FD_TABLE_SIZE && chunk > 0
      requires fds[i].active && fds[i].kind == Regular && fds[i].offset == 0
      modifies fds
      ensures out == File(img, old(fds[i].inode))
    {
      var buf := new byte[chunk](_ => 0);
      ghost var file := File(img, fds[i].inode);
      out := [];
      var count := 1;
      while count != 0
        invariant fresh(buf) && buf.Length == chunk
        invariant GoodTable(img, fds[..]) && fds[i].active && fds[i].kind == Regular
        invariant fds[i].inode == old(fds[i].inode)
        invariant out == file[..fds[i].offset]
        invariant count == 0 ==> fds[i].offset == |file|
        decreases |file| - fds[i].offset, count
      {
        count := Read(img, i, buf, chunk, 0);
        out := out + buf[..count];
      }
    }

    /** The `cat` program on a regular file, by its name. */
    method CatFile(img: Image, filename: seq<byte>, chunk: nat) returns (ok: bool, out: seq<byte>)
      requires WellFormed(img) && GoodTable(img, fds[..]) && Terminated(filename, 0) && chunk > 0
      requires Find(img, CStr(filename, 0)) >= 0 ==> EntryType(img, Find(img, CStr(filename, 0))) == 2
      modifies fds
      ensures ok <==>
        && filename[0] != 0 && Find(img, CStr(filename, 0)) >= 0
        && exists k :: 2 <= k < 8 && !old(fds[k].active)
      ensures ok ==> out == File(img, EntryInode(img, Find(img, CStr(filename, 0))))
    {
      var i := Open(img, filename);
      if i == -1 { return false, []; }
      out := Cat(img, i, chunk);
      return true, out;
    }
  }

  // ----- any interleaving of calls

  datatype Call = Open(name: seq<byte>) | Read(fd: nat, n: nat) | Close(fd: nat)

  /** A table with, for each descriptor, the name it was last opened by, and the bytes read and
      the byte counts requested since. */
  datatype Session = Session(fds: seq<Fd>, names: seq<seq<byte>>, got: seq<seq<byte>>, asked: seq<nat>)

  /** An active descriptor is that of the name it was opened by, and everything read through it
      since, if that names a regular file, is the front of that file: as long as was asked for, or
      the whole file if that is shorter. */
  ghost predicate HasRead(img: Image, fd: Fd, name: seq<byte>, got: seq<byte>, asked: nat)
    requires WellFormed(img)
  {
    fd.active ==>
      && OpenedAs(img, fd, name)
      && (EntryType(img, Find(img, name)) == 2 ==>
            var file := File(img, EntryInode(img, Find(img, name)));
            fd.offset == Min(asked, |file|) && got == file[..Min(asked, |file|)])
  }

  ghost predicate Faithful(img: Image, s: Session)
    requires WellFormed(img)
  {
    && GoodTable(img, s.fds) && |s.names| == |s.got| == |s.asked| == FD_TABLE_SIZE
    && forall i :: 2 <= i < FD_TABLE_SIZE ==> HasRead(img, s.fds[i], s.names[i], s.got[i], s.asked[i])
  }

  ghost function Step(img: Image, s: Session, c: Call): Session
    requires WellFormed(img) && Faithful(img, s)
    requires !c.Open? ==> c.fd < FD_TABLE_SIZE
  {
    match c
    case Open(name) =>
      if Opens(img, s.fds, name) then
        var i := LowestFree(s.fds);
        Session(Opened(img, s.fds, name), s.names[i := name], s.got[i := []], s.asked[i := 0])
      else s
    case Read(i, n) =>
      var fd := s.fds[i];
      var fds := s.fds[i := AfterRead(img, fd, n)];
      if fd.active && fd.kind == Regular then
        s.(fds := fds, got := s.got[i := s.got[i] + Delivered(img, fd, n)], asked := s.asked[i := s.asked[i] + n])
      else s.(fds := fds)
    case Close(i) =>
      if Closes(s.fds, i) then s.(fds := s.fds[i := AfterClose(s.fds[i])]) else s
  }

  lemma ReadKeeps(img: Image, fd: Fd, name: seq<byte>, got: seq<byte>, asked: nat, n: nat)
    requires WellFormed(img) && GoodFd(img, fd) && fd.active && HasRead(img, fd, name, got, asked)
    ensures GoodFd(img, AfterRead(img, fd, n))
    ensures if fd.kind == Regular then HasRead(img, AfterRead(img, fd, n), name, got + Delivered(img, fd, n), asked + n)
            else HasRead(img, AfterRead(img, fd, n), name, got, asked)
  {}

  lemma OpenFaithful(img: Image, s: Session, name: seq<byte>)
    requires WellFormed(img) && Faithful(img, s)
    ensures Faithful(img, Step(img, s, Open(name)))
  {
    if Opens(img, s.fds, name) {
      OpenKeeps(img, s.fds, name);
      var i, s' := LowestFree(s.fds), Step(img, s, Open(name));
      forall k | 2 <= k < FD_TABLE_SIZE ensures HasRead(img, s'.fds[k], s'.names[k], s'.got[k], s'.asked[k]) {
        assert HasRead(img, s.fds[k], s.names[k], s.got[k], s.asked[k]);
      }
    }
  }

  lemma ReadFaithful(img: Image, s: Session, i: nat, n: nat)
    requires WellFormed(img) && Faithful(img, s) && i < FD_TABLE_SIZE
    ensures Faithful(img, Step(img, s, Read(i, n)))
  {
    var fd, s' := s.fds[i], Step(img, s, Read(i, n));
    TableUpdate(img, s.fds, i, AfterRead(img, fd, n));
    forall k | 2 <= k < FD_TABLE_SIZE ensures HasRead(img, s'.fds[k], s'.names[k], s'.got[k], s'.asked[k]) {
      assert HasRead(img, s.fds[k], s.names[k], s.got[k], s.asked[k]);
      if k == i && fd.active { ReadKeeps(img, fd, s.names[i], s.got[i], s.asked[i], n); }
    }
  }

  lemma CloseFaithful(img: Image, s: Session, i: nat)
    requires WellFormed(img) && Faithful(img, s) && i < FD_TABLE_SIZE
    ensures Faithful(img, Step(img, s, Close(i)))
  {
    if Closes(s.fds, i) {
      TableUpdate(img, s.fds, i, AfterClose(s.fds[i]));
      var s' := Step(img, s, Close(i));
      forall k | 2 <= k < FD_TABLE_SIZE ensures HasRead(img, s'.fds[k], s'.names[k], s'.got[k], s'.asked[k]) {
        assert HasRead(img, s.fds[k], s.names[k], s.got[k], s.asked[k]);
      }
    }
  }

  lemma StepFaithful(img: Image, s: Session, c: Call)
    requires WellFormed(img) && Faithful(img, s)
    requires !c.Open? ==> c.fd < FD_TABLE_SIZE
    ensures Faithful(img, Step(img, s, c))
  {
    match c
    case Open(name) => OpenFaithful(img, s, name);
    case Read(i, n) => ReadFaithful(img, s, i, n);
    case Close(i) => CloseFaithful(img, s, i);
  }

  /** Chunked reads equal the file, whatever calls are interleaved. */
  ghost function Run(img: Image, s: Session, calls: seq<Call>): (t: Session)
    requires WellFormed(img) && Faithful(img, s)
    requires forall k :: 0 <= k < |calls| && !calls[k].Open? ==> calls[k].fd < FD_TABLE_SIZE
    ensures Faithful(img, t)
    decreases |calls|
  {
    if calls == [] then s
    else
      StepFaithful(img, s, calls[0]);
      Run(img, Step(img, s, calls[0]), calls[1..])
  }
}
