/** The read-only file system (filesys.c): a boot block, the inodes and the data blocks,
    4096 bytes each, laid out one after the other in one image. */
module FileSystem {
  import opened Arithmetic
  import opened Bytes

  const BLOCK := 4096
  const DIRECTORY_ENTRIES := 63       // directory entries in the boot block
  const NAME_LENGTH := 32
  const INODE_BLOCKS := 1023

  type Image = s: seq<byte> | |s| >= BLOCK ghost witness seq(BLOCK, _ => 0)

  // ----- layout

  function NumDentries(img: Image): nat { Le32(img, 0) }
  function NumInodes(img: Image): nat { Le32(img, 4) }

  function EntryAt(i: nat): nat { 64 + 64 * i }

  function EntryType(img: Image, i: nat): nat
    requires i < DIRECTORY_ENTRIES
  {
    Le32(img, EntryAt(i) + NAME_LENGTH)
  }

  function EntryInode(img: Image, i: nat): nat
    requires i < DIRECTORY_ENTRIES
  {
    Le32(img, EntryAt(i) + NAME_LENGTH + 4)
  }

  function InodeAt(n: nat): nat { BLOCK * (n + 1) }

  function BlockAt(img: Image, b: nat): nat { BLOCK * (1 + NumInodes(img) + b) }

  predicate HoldsInode(img: Image, n: nat) {
    n < NumInodes(img) && InodeAt(n) + BLOCK <= |img|
  }

  function FileLength(img: Image, n: nat): nat
    requires HoldsInode(img, n)
  {
    Le32(img, InodeAt(n))
  }

  function BlockNumber(img: Image, n: nat, j: nat): nat
    requires HoldsInode(img, n) && j < INODE_BLOCKS
  {
    Le32(img, InodeAt(n) + 4 + 4 * j)
  }

  /** Where block `j` of a file starts in the file. */
  function Start(j: nat): nat { Times(BLOCK, j) }

  lemma StartIs(j: nat)
    ensures Start(j) == j * BLOCK
  {
    TimesIs(BLOCK, j);
  }

  /** Block number `j` is within the file. */
  ghost predicate InFile(img: Image, n: nat, j: nat)
    requires HoldsInode(img, n)
  {
    j < INODE_BLOCKS && Start(j) < FileLength(img, n)
  }

  /** An inode within its limits whose blocks all lie in the image. */
  ghost predicate GoodInode(img: Image, n: nat) {
    && HoldsInode(img, n)
    && FileLength(img, n) <= INODE_BLOCKS * BLOCK
    && forall j: nat :: InFile(img, n, j) ==> BlockAt(img, BlockNumber(img, n, j)) + BLOCK <= |img|
  }

  ghost predicate HasInode(img: Image, n: nat) { n < NumInodes(img) && GoodInode(img, n) }

  ghost predicate WellFormed(img: Image) {
    && (forall n: nat :: n < NumInodes(img) ==> GoodInode(img, n))
    && (forall i: nat :: i < DIRECTORY_ENTRIES ==> EntryType(img, i) <= 2)
    && (forall i: nat :: i < DIRECTORY_ENTRIES && EntryType(img, i) == 2 ==> EntryInode(img, i) < NumInodes(img))
  }

  // ----- the file an inode stands for: its blocks end to end, cut at its length

  /** Block `j` of a file. */
  ghost function BlockBytes(img: Image, n: nat, j: nat): (s: seq<byte>)
    requires GoodInode(img, n) && InFile(img, n, j)
    ensures |s| == BLOCK
  {
    var at := BlockAt(img, BlockNumber(img, n, j));
    img[at..at + BLOCK]
  }

  ghost function Blocks(img: Image, n: nat, count: nat): (s: seq<byte>)
    requires GoodInode(img, n) && (count > 0 ==> InFile(img, n, count - 1))
    ensures |s| == Start(count)
  {
    if count == 0 then [] else Blocks(img, n, count - 1) + BlockBytes(img, n, count - 1)
  }

  /** How many blocks a file of that length takes. */
  ghost function BlockCount(length: nat): nat {
    if length == 0 then 0 else if length <= BLOCK then 1 else BlockCount(length - BLOCK) + 1
  }

  lemma {:induction false} CountCovers(length: nat)
    ensures length <= Start(BlockCount(length))
    ensures length > 0 ==> BlockCount(length) > 0 && Start(BlockCount(length) - 1) < length
    ensures length <= INODE_BLOCKS * BLOCK ==> BlockCount(length) <= INODE_BLOCKS
    decreases length
  {
    if length > BLOCK { CountCovers(length - BLOCK); }
    if length > 0 { StartIs(BlockCount(length) - 1); }
  }

  ghost function File(img: Image, n: nat): (s: seq<byte>)
    requires GoodInode(img, n)
    ensures |s| == FileLength(img, n)
  {
    CountCovers(FileLength(img, n));
    Blocks(img, n, BlockCount(FileLength(img, n)))[..FileLength(img, n)]
  }

  lemma {:induction false} StartMono(a: nat, b: nat)
    requires a < b
    ensures Start(a) + BLOCK <= Start(b)
    decreases b
  {
    if a < b - 1 { StartMono(a, b - 1); }
  }

  lemma {:induction false} BlocksByte(img: Image, n: nat, count: nat, b: nat, q: nat)
    requires GoodInode(img, n) && b < count && q < BLOCK && InFile(img, n, count - 1)
    ensures Start(b) + q < Start(count)
    ensures InFile(img, n, b) && Blocks(img, n, count)[Start(b) + q] == BlockBytes(img, n, b)[q]
    decreases count
  {
    if b < count - 1 { BlocksByte(img, n, count - 1, b, q); }
  }

  lemma BlockIn(length: nat, b: nat, q: nat)
    requires Start(b) + q < length
    ensures b < BlockCount(length)
  {
    CountCovers(length);
    if BlockCount(length) < b { StartMono(BlockCount(length), b); }
  }

  lemma FileIsBlocks(img: Image, n: nat, k: nat)
    requires GoodInode(img, n) && k < FileLength(img, n)
    ensures BlockCount(FileLength(img, n)) > 0 && InFile(img, n, BlockCount(FileLength(img, n)) - 1)
    ensures k < Start(BlockCount(FileLength(img, n))) && File(img, n)[k] == Blocks(img, n, BlockCount(FileLength(img, n)))[k]
  {
    CountCovers(FileLength(img, n));
  }

  lemma BlockByte(img: Image, n: nat, b: nat, q: nat)
    requires GoodInode(img, n) && InFile(img, n, b) && q < BLOCK
    ensures BlockAt(img, BlockNumber(img, n, b)) + BLOCK <= |img|
    ensures BlockBytes(img, n, b)[q] == img[BlockAt(img, BlockNumber(img, n, b)) + q]
  {}

  /** The byte at position `q` of block `b` of a file. */
  lemma FileByteAt(img: Image, n: nat, b: nat, q: nat)
    requires GoodInode(img, n) && q < BLOCK && Start(b) + q < FileLength(img, n)
    ensures b < INODE_BLOCKS && BlockAt(img, BlockNumber(img, n, b)) + BLOCK <= |img|
    ensures File(img, n)[Start(b) + q] == img[BlockAt(img, BlockNumber(img, n, b)) + q]
  {
    CountCovers(FileLength(img, n));
    BlockIn(FileLength(img, n), b, q);
    BlocksByte(img, n, BlockCount(FileLength(img, n)), b, q);
    FileIsBlocks(img, n, Start(b) + q);
    BlockByte(img, n, b, q);
  }

  lemma StartOf(k: nat)
    ensures Start(k / BLOCK) + k % BLOCK == k
  {
    StartIs(k / BLOCK);
  }

  /** Hence byte `k` of a file sits in block `k / 4096` at position `k % 4096`. */
  lemma FileByte(img: Image, n: nat, k: nat)
    requires GoodInode(img, n) && k < FileLength(img, n)
    ensures k / BLOCK < INODE_BLOCKS && k / BLOCK * BLOCK < FileLength(img, n)
    ensures BlockAt(img, BlockNumber(img, n, k / BLOCK)) + BLOCK <= |img|
    ensures File(img, n)[k] == img[BlockAt(img, BlockNumber(img, n, k / BLOCK)) + k % BLOCK]
  {
    StartOf(k);
    StartIs(k / BLOCK);
    FileByteAt(img, n, k / BLOCK, k % BLOCK);
  }

  // ----- read_data

  ghost function Remaining(img: Image, n: nat, offset: nat): nat
    requires HoldsInode(img, n)
  {
    if offset < FileLength(img, n) then FileLength(img, n) - offset else 0
  }

  lemma BlockIndexSmall(offset: nat)
    ensures offset / BLOCK <= offset && (offset > 0 ==> offset / BLOCK < offset)
  {}

  lemma SameSlice(s: seq<byte>, i: nat, t: seq<byte>, j: nat, n: nat)
    requires i + n <= |s| && j + n <= |t| && forall k :: i <= k < i + n ==> s[k] == t[j + (k - i)]
    ensures s[i..i + n] == t[j..j + n]
  {
    var x, y := s[i..i + n], t[j..j + n];
    forall k | 0 <= k < n ensures x[k] == y[k] { assert s[i + k] == t[j + (i + k - i)]; }
  }

  /** The loop of read_data, from position `offsetInBlock` of block `firstBlock` on. */
  method WalkBlocks(img: Image, inode: nat, offset: nat, buf: array<byte>, at: nat, length: nat,
                    firstBlock: nat, offsetInBlock: nat) returns (r: nat)
    requires GoodInode(img, inode) && Start(firstBlock) + offsetInBlock == offset && offsetInBlock < BLOCK
    requires at + Min(length, Remaining(img, inode, offset)) <= buf.Length
    modifies buf
    ensures r == Min(length, Remaining(img, inode, offset))
    ensures 0 < r ==> buf[at..at + r] == File(img, inode)[offset..offset + r]
    ensures forall k :: 0 <= k < buf.Length && !(at <= k < at + r) ==> buf[k] == old(buf[k])
  {
    var blockIndex := firstBlock;
    var correction: int := 0;
    var len := FileLength(img, inode);
    ghost var file := File(img, inode);
    r := 0;
    while r < length
      invariant 0 <= r <= length && r <= Remaining(img, inode, offset)
      // Hence blockIndex is (offset + r) / BLOCK and the sum below is (offset + r) % BLOCK.
      invariant Start(blockIndex) + (offsetInBlock + r + correction) == offset + r
      invariant 0 <= offsetInBlock + r + correction < BLOCK
      invariant forall k :: at <= k < at + r ==> buf[k] == file[offset + (k - at)]
      invariant forall k :: 0 <= k < buf.Length && !(at <= k < at + r) ==> buf[k] == old(buf[k])
    {
      if offset + r >= len { break; }
      FileByteAt(img, inode, blockIndex, offsetInBlock + r + correction);
      var data := BlockAt(img, BlockNumber(img, inode, blockIndex));
      buf[at + r] := img[data + (offsetInBlock + r + correction)];
      if offsetInBlock + r + correction == BLOCK - 1 {
        blockIndex := blockIndex + 1;
        correction := correction - BLOCK;
      }
      r := r + 1;
    }
    if r > 0 {
      SameSlice(buf[..], at, file, offset, r);
      assert buf[..][at..at + r] == buf[at..at + r];
    }
  }

  /** read_data.  The result codes are the source's: -2 no such inode, -1 the check on the
      length, otherwise the number of bytes copied to `buf[at..]`. */
  method ReadData(img: Image, inode: nat, offset: nat, buf: array<byte>, at: nat, length: nat) returns (r: int)
    requires WellFormed(img)
    requires HasInode(img, inode) ==> at + Min(length, Remaining(img, inode, offset)) <= buf.Length
    modifies buf
    ensures r == -2 <==> !HasInode(img, inode)
    ensures r == -1 <==> HasInode(img, inode) && inode != 0 && FileLength(img, inode) <= offset / BLOCK
    ensures r == -1 && offset <= FileLength(img, inode) ==> FileLength(img, inode) == 0
    ensures r == -1 || r == -2 || 0 <= r
    ensures 0 <= r ==> r == Min(length, Remaining(img, inode, offset))
    ensures 0 < r ==> buf[at..at + r] == File(img, inode)[offset..offset + r]
    ensures forall k :: 0 <= k < buf.Length && !(at <= k < at + r) ==> buf[k] == old(buf[k])
  {
    if inode >= NumInodes(img) { return -2; }
    assert HasInode(img, inode);
    StartOf(offset);
    BlockIndexSmall(offset);
    var blockIndex, offsetInBlock := offset / BLOCK, offset % BLOCK;
    if FileLength(img, inode) <= blockIndex && inode != 0 { return -1; }
    r := WalkBlocks(img, inode, offset, buf, at, length, blockIndex, offsetInBlock);
  }

  // ----- read_dentry_by_name

  /** The 32-byte name field cut at its first NUL. */
  ghost function EntryName(img: Image, i: nat): seq<byte>
    requires i < DIRECTORY_ENTRIES
  {
    CStr(img[EntryAt(i)..EntryAt(i) + NAME_LENGTH], 0)
  }

  /** strlen of a name field may run on into the type word, by at most one byte. */
  lemma NameOverrun(img: Image, i: nat)
    requires i < DIRECTORY_ENTRIES && EntryType(img, i) <= 2
    ensures Terminated(img, EntryAt(i))
    ensures Take(CStr(img, EntryAt(i)), NAME_LENGTH) == EntryName(img, i)
    ensures |EntryName(img, i)| < NAME_LENGTH ==> CStr(img, EntryAt(i)) == EntryName(img, i)
    ensures |CStr(img, EntryAt(i))| <= NAME_LENGTH + 1
  {
    var at := EntryAt(i);
    var field := img[at..at + NAME_LENGTH];
    var name := EntryName(img, i);
    if |name| < NAME_LENGTH {
      assert img[at..at + |name|] == name && img[at + |name|] == field[|name|] == 0;
      CStrIs(img, at, name);
    } else {
      assert name == field;
      if img[at + NAME_LENGTH] == 0 {
        CStrIs(img, at, name);
      } else {
        WordOfLe32(img, at + NAME_LENGTH);
        assert img[at + NAME_LENGTH..at + NAME_LENGTH + 4][1] == 0;
        CStrIs(img, at, name + [img[at + NAME_LENGTH]]);
      }
    }
  }

  /** One turn of the search loop: which of the three strncmp calls is made, and that it
      returns zero exactly when the entry's name is the wanted name. */
  method SameName(img: Image, fname: seq<byte>, i: nat) returns (same: bool)
    requires Terminated(fname, 0) && |CStr(fname, 0)| <= NAME_LENGTH
    requires i < DIRECTORY_ENTRIES && EntryType(img, i) <= 2
    ensures same <==> EntryName(img, i) == CStr(fname, 0)
  {
    NameOverrun(img, i);
    var want := StrLen(fname, 0);
    var have := StrLen(img, EntryAt(i));
    var d;
    if want > have {
      d := StrNCmp(fname, 0, img, EntryAt(i), want);
    } else if want == NAME_LENGTH {
      d := StrNCmp(fname, 0, img, EntryAt(i), want);
    } else {
      d := StrNCmp(fname, 0, img, EntryAt(i), have);
    }
    same := d == 0;
  }

  /** The index of the first entry of that name, or -1. */
  ghost function Find(img: Image, name: seq<byte>, from: nat := 0): (r: int)
    requires from <= DIRECTORY_ENTRIES
    ensures -1 <= r < DIRECTORY_ENTRIES
    ensures r >= 0 ==> from <= r && EntryName(img, r) == name
    ensures forall k: nat :: from <= k < (if r >= 0 then r else DIRECTORY_ENTRIES) ==> EntryName(img, k) != name
    decreases DIRECTORY_ENTRIES - from
  {
    if from == DIRECTORY_ENTRIES then -1
    else if EntryName(img, from) == name then from
    else Find(img, name, from + 1)
  }

  /** read_dentry_by_name: the index of the entry copied out, or -1. */
  method LookUp(img: Image, fname: seq<byte>) returns (r: int)
    requires WellFormed(img) && Terminated(fname, 0)
    ensures r == Find(img, CStr(fname, 0))
  {
    var len := StrLen(fname, 0);
    if len > NAME_LENGTH { return -1; }
    r := -1;
    var same := false;
    var i := 0;
    while i < DIRECTORY_ENTRIES
      invariant 0 <= i <= DIRECTORY_ENTRIES
      invariant !same && r == -1
      invariant Find(img, CStr(fname, 0)) == Find(img, CStr(fname, 0), i)
    {
      same := SameName(img, fname, i);
      if same {
        r := i;
        break;
      }
      i := i + 1;
    }
    if !same { return -1; }
  }
}
