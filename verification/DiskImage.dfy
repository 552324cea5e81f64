/** Writing a file system: the image that holds given files, in the layout that file_system_init
    sets up (boot block, inode blocks, data blocks, words lowest byte first).  The reader of
    module FileSystem finds every file in it again. */
module DiskImage {
  import opened Arithmetic
  import opened Bytes
  import opened FileSystem

  /** `kind` is 0 for the clock, 1 for the directory and 2 for a regular file. */
  datatype Record = Record(name: seq<byte>, kind: nat, data: seq<byte>)

  // ----- parts of equal size, one after the other

  ghost function Flat(parts: seq<seq<byte>>): seq<byte> {
    if parts == [] then [] else Flat(parts[..|parts| - 1]) + parts[|parts| - 1]
  }

  ghost predicate AllSize(parts: seq<seq<byte>>, size: nat) { forall i :: 0 <= i < |parts| ==> |parts[i]| == size }

  lemma {:induction false} FlatLength(parts: seq<seq<byte>>, size: nat)
    requires AllSize(parts, size)
    ensures |Flat(parts)| == Times(size, |parts|)
    decreases |parts|
  {
    if parts != [] { FlatLength(parts[..|parts| - 1], size); }
  }

  lemma {:induction false} FlatPart(parts: seq<seq<byte>>, size: nat, i: nat)
    requires AllSize(parts, size) && i < |parts|
    ensures Times(size, i) + size <= |Flat(parts)| == Times(size, |parts|)
    ensures Flat(parts)[Times(size, i)..Times(size, i) + size] == parts[i]
    decreases |parts|
  {
    var init, last := parts[..|parts| - 1], parts[|parts| - 1];
    FlatLength(init, size);
    if i < |init| {
      FlatPart(init, size, i);
      assert (Flat(init) + last)[Times(size, i)..Times(size, i) + size] == Flat(init)[Times(size, i)..Times(size, i) + size];
    }
  }

  /** The same by multiplication. */
  lemma PartAt(parts: seq<seq<byte>>, size: nat, i: nat)
    requires AllSize(parts, size) && i < |parts|
    ensures 0 <= size * i && size * i + size <= |Flat(parts)| == size * |parts|
    ensures Flat(parts)[size * i..size * i + size] == parts[i]
  {
    FlatPart(parts, size, i);
    TimesIs(size, i);
    TimesIs(size, |parts|);
  }

  lemma SliceOfSlice(m: seq<byte>, a: nat, n: nat, c: nat, d: nat)
    requires a + n <= |m| && c <= d <= n
    ensures m[a..a + n][c..d] == m[a + c..a + d]
  {
    var part := m[a..a + n];
    var x, y := part[c..d], m[a + c..a + d];
    forall k | 0 <= k < d - c ensures x[k] == y[k] { assert part[c + k] == m[a + (c + k)]; }
  }

  // ----- the pieces of an image

  ghost function Zeros(n: nat): (s: seq<byte>)
    ensures |s| == n && forall k :: 0 <= k < n ==> s[k] == 0
  {
    seq(n, _ => 0)
  }

  ghost function Padded(s: seq<byte>, n: nat): (r: seq<byte>)
    requires |s| <= n
    ensures |r| == n && r[..|s|] == s
  {
    s + Zeros(n - |s|)
  }

  ghost function WordList(vs: seq<nat>): (r: seq<seq<byte>>)
    ensures |r| == |vs| && AllSize(r, 4)
  {
    seq(|vs|, j requires 0 <= j < |vs| => Word(vs[j]))
  }

  ghost function Words(vs: seq<nat>): seq<byte> { Flat(WordList(vs)) }

  lemma WordAt(vs: seq<nat>, j: nat)
    requires j < |vs|
    ensures 4 * j + 4 <= |Words(vs)| == 4 * |vs| && Words(vs)[4 * j..4 * j + 4] == Word(vs[j])
  {
    PartAt(WordList(vs), 4, j);
  }

  /** The blocks of a file, the last filled up with zeros. */
  ghost function Chunks(data: seq<byte>): (r: seq<seq<byte>>)
    ensures |r| == BlockCount(|data|) && AllSize(r, BLOCK)
  {
    if data == [] then []
    else if |data| <= BLOCK then [Padded(data, BLOCK)]
    else [data[..BLOCK]] + Chunks(data[BLOCK..])
  }

  lemma {:induction false} ChunkByte(data: seq<byte>, b: nat, q: nat)
    requires q < BLOCK && Start(b) + q < |data|
    ensures b < |Chunks(data)| && Chunks(data)[b][q] == data[Start(b) + q]
    decreases |data|
  {
    if b > 0 {
      StartMono(0, b);
      ChunkByte(data[BLOCK..], b - 1, q);
    } else if |data| <= BLOCK {
      assert Padded(data, BLOCK)[..|data|][q] == data[q];
    }
  }

  /** The data blocks of all files in turn; file `i` starts at number `First(fs, i)`. */
  ghost function DataBlocks(fs: seq<Record>): (r: seq<seq<byte>>)
    ensures AllSize(r, BLOCK)
  {
    if fs == [] then [] else DataBlocks(fs[..|fs| - 1]) + Chunks(fs[|fs| - 1].data)
  }

  ghost function First(fs: seq<Record>, i: nat): nat
    requires i <= |fs|
  {
    |DataBlocks(fs[..i])|
  }

  lemma {:induction false} DataBlock(fs: seq<Record>, i: nat, b: nat)
    requires i < |fs| && b < |Chunks(fs[i].data)|
    ensures First(fs, i) + b < |DataBlocks(fs)| && DataBlocks(fs)[First(fs, i) + b] == Chunks(fs[i].data)[b]
    decreases |fs|
  {
    var init := fs[..|fs| - 1];
    if i < |init| {
      DataBlock(init, i, b);
      assert init[..i] == fs[..i];
    }
  }

  /** Word `j` of inode `i`: the length and then the numbers of its blocks. */
  ghost function InodeWord(fs: seq<Record>, i: nat, j: nat): nat
    requires i < |fs|
  {
    if j == 0 then |fs[i].data| else if j - 1 < BlockCount(|fs[i].data|) then First(fs, i) + (j - 1) else 0
  }

  ghost function InodeWords(fs: seq<Record>, i: nat): (vs: seq<nat>)
    requires i < |fs|
    ensures |vs| == 1024 && forall j: nat :: j < 1024 ==> vs[j] == InodeWord(fs, i, j)
  {
    seq(1024, (j: nat) => InodeWord(fs, i, j))
  }

  ghost function InodeBlock(fs: seq<Record>, i: nat): (s: seq<byte>)
    requires i < |fs|
    ensures |s| == 4096
  {
    WordAt(InodeWords(fs, i), 0);
    Words(InodeWords(fs, i))
  }

  /** The numbers of entries, inodes and data blocks. */
  ghost function HeaderWord(fs: seq<Record>, j: nat): nat {
    if j <= 1 then |fs| else if j == 2 then |DataBlocks(fs)| else 0
  }

  ghost function HeaderWords(fs: seq<Record>): (vs: seq<nat>)
    ensures |vs| == 16 && forall j: nat :: j < 16 ==> vs[j] == HeaderWord(fs, j)
  {
    seq(16, (j: nat) => HeaderWord(fs, j))
  }

  ghost function EntryBytes(f: Record, inode: nat): (s: seq<byte>)
    requires |f.name| <= 32
    ensures |s| == 64 && s[..32] == Padded(f.name, 32) && s[32..36] == Word(f.kind) && s[36..40] == Word(inode)
  {
    Padded(f.name, 32) + Word(f.kind) + Word(inode) + Zeros(24)
  }

  /** At most 63 files of at most 1023 blocks, with names of their own. */
  ghost predicate Storable(fs: seq<Record>) {
    && |fs| <= 63
    && (forall i :: 0 <= i < |fs| ==> 1 <= |fs[i].name| <= 32 && 0 !in fs[i].name && fs[i].kind <= 2)
    && (forall i :: 0 <= i < |fs| ==> |fs[i].data| <= 1023 * 4096)
    && (forall i, j :: 0 <= i < j < |fs| ==> fs[i].name != fs[j].name)
  }

  /** The header and the 63 directory entries of the boot block. */
  ghost function BootPart(fs: seq<Record>, i: nat): (s: seq<byte>)
    requires Storable(fs)
    ensures |s| == 64
  {
    if i == 0 then WordAt(HeaderWords(fs), 0); Words(HeaderWords(fs))
    else if i - 1 < |fs| then EntryBytes(fs[i - 1], i - 1)
    else Zeros(64)
  }

  ghost function BootParts(fs: seq<Record>): (r: seq<seq<byte>>)
    requires Storable(fs)
    ensures |r| == 64 && AllSize(r, 64) && forall i: nat :: i < 64 ==> r[i] == BootPart(fs, i)
  {
    seq(64, (i: nat) => BootPart(fs, i))
  }

  ghost function BootBlock(fs: seq<Record>): (s: seq<byte>)
    requires Storable(fs)
    ensures |s| == 4096
  {
    PartAt(BootParts(fs), 64, 0);
    Flat(BootParts(fs))
  }

  ghost function AllBlocks(fs: seq<Record>): (r: seq<seq<byte>>)
    requires Storable(fs)
    ensures |r| == 1 + |fs| + |DataBlocks(fs)| && AllSize(r, 4096)
    ensures r[0] == BootBlock(fs)
    ensures forall i: nat :: i < |fs| ==> r[1 + i] == InodeBlock(fs, i)
    ensures forall b: nat :: b < |DataBlocks(fs)| ==> r[1 + |fs| + b] == DataBlocks(fs)[b]
  {
    var inodes := seq(|fs|, i requires 0 <= i < |fs| => InodeBlock(fs, i));
    [BootBlock(fs)] + inodes + DataBlocks(fs)
  }

  ghost function ImageOf(fs: seq<Record>): (img: Image)
    requires Storable(fs)
  {
    PartAt(AllBlocks(fs), 4096, 0);
    Flat(AllBlocks(fs))
  }

  // ----- reading it

  lemma BlockSlice(fs: seq<Record>, c: nat)
    requires Storable(fs) && c < |AllBlocks(fs)|
    ensures 4096 * c + 4096 <= |ImageOf(fs)| && ImageOf(fs)[4096 * c..4096 * c + 4096] == AllBlocks(fs)[c]
  {
    PartAt(AllBlocks(fs), 4096, c);
  }

  lemma BootSlice(fs: seq<Record>, i: nat)
    requires Storable(fs) && i < 64
    ensures ImageOf(fs)[64 * i..64 * i + 64] == BootPart(fs, i)
  {
    BlockSlice(fs, 0);
    PartAt(BootParts(fs), 64, i);
    SliceOfSlice(ImageOf(fs), 0, 4096, 64 * i, 64 * i + 64);
  }

  lemma {:induction false} FewBlocks(fs: seq<Record>)
    requires forall i :: 0 <= i < |fs| ==> |fs[i].data| <= 1023 * 4096
    ensures |DataBlocks(fs)| <= 1023 * |fs|
  {
    if fs != [] {
      FewBlocks(fs[..|fs| - 1]);
      CountCovers(|fs[|fs| - 1].data|);
    }
  }

  lemma HeaderWordReads(fs: seq<Record>, j: nat)
    requires Storable(fs) && j < 2
    ensures Le32(ImageOf(fs), 4 * j) == |fs|
  {
    BootSlice(fs, 0);
    WordAt(HeaderWords(fs), j);
    SliceOfSlice(ImageOf(fs), 0, 64, 4 * j, 4 * j + 4);
    Le32OfWord(ImageOf(fs), 4 * j, |fs|);
  }

  lemma HeaderReads(fs: seq<Record>)
    requires Storable(fs)
    ensures NumInodes(ImageOf(fs)) == |fs| && NumDentries(ImageOf(fs)) == |fs|
  {
    HeaderWordReads(fs, 0);
    HeaderWordReads(fs, 1);
  }

  lemma PaddedName(name: seq<byte>)
    requires |name| <= 32 && 0 !in name
    ensures CStr(Padded(name, 32), 0) == name
  {
    if |name| < 32 {
      CStrIs(Padded(name, 32), 0, name);
    } else {
      assert Padded(name, 32) == name;
    }
  }

  lemma EntryAtIs(i: nat)
    ensures EntryAt(i) == 64 * (i + 1)
  {}

  /** The 64 bytes of entry `i`, by where the reader looks for them. */
  lemma EntryPart(fs: seq<Record>, i: nat)
    requires Storable(fs) && i < 63
    ensures EntryAt(i) + 64 <= |ImageOf(fs)| && ImageOf(fs)[EntryAt(i)..EntryAt(i) + 64] == BootPart(fs, i + 1)
  {
    EntryAtIs(i);
    BootSlice(fs, i + 1);
  }

  /** What the reader makes of the 64 bytes of an entry, wherever they are. */
  lemma EntryFields(img: seq<byte>, at: nat, f: Record, inode: nat)
    requires |f.name| <= 32 && 0 !in f.name && f.kind <= 2 && inode < 63
    requires at + 64 <= |img| && img[at..at + 64] == EntryBytes(f, inode)
    ensures Le32(img, at + 32) == f.kind && Le32(img, at + 32 + 4) == inode
    ensures CStr(img[at..at + 32], 0) == f.name
  {
    SliceOfSlice(img, at, 64, 0, 32);
    SliceOfSlice(img, at, 64, 32, 36);
    SliceOfSlice(img, at, 64, 36, 40);
    Le32OfWord(img, at + 32, f.kind);
    Le32OfWord(img, at + 36, inode);
    PaddedName(f.name);
  }

  lemma EntryIn(img: Image, i: nat, f: Record)
    requires i < 63 && |f.name| <= 32 && 0 !in f.name && f.kind <= 2
    requires EntryAt(i) + 64 <= |img| && img[EntryAt(i)..EntryAt(i) + 64] == EntryBytes(f, i)
    ensures EntryType(img, i) == f.kind && EntryInode(img, i) == i && EntryName(img, i) == f.name
  {
    EntryFields(img, EntryAt(i), f, i);
  }

  lemma EntryReads(fs: seq<Record>, i: nat)
    requires Storable(fs) && i < |fs|
    ensures EntryType(ImageOf(fs), i) == fs[i].kind && EntryInode(ImageOf(fs), i) == i
    ensures EntryName(ImageOf(fs), i) == fs[i].name
  {
    EntryPart(fs, i);
    EntryIn(ImageOf(fs), i, fs[i]);
  }

  lemma FreeFields(img: seq<byte>, at: nat)
    requires at + 64 <= |img| && img[at..at + 64] == Zeros(64)
    ensures Le32(img, at + 32) == 0 && CStr(img[at..at + 32], 0) == []
  {
    SliceOfSlice(img, at, 64, 32, 36);
    assert Zeros(64)[32..36] == Word(0);
    Le32OfWord(img, at + 32, 0);
    assert img[at..at + 32][0] == img[at..at + 64][0];
  }

  lemma FreeIn(img: Image, i: nat)
    requires i < 63 && EntryAt(i) + 64 <= |img| && img[EntryAt(i)..EntryAt(i) + 64] == Zeros(64)
    ensures EntryType(img, i) == 0 && EntryName(img, i) == []
  {
    FreeFields(img, EntryAt(i));
  }

  lemma FreeEntryReads(fs: seq<Record>, i: nat)
    requires Storable(fs) && |fs| <= i < 63
    ensures EntryType(ImageOf(fs), i) == 0 && EntryName(ImageOf(fs), i) == []
  {
    EntryPart(fs, i);
    FreeIn(ImageOf(fs), i);
  }

  lemma WordSmall(fs: seq<Record>, i: nat, j: nat)
    requires Storable(fs) && i < |fs| && j < 1024
    ensures InodeWord(fs, i, j) < 0x1_0000_0000
  {
    FewBlocks(fs[..i]);
    CountCovers(|fs[i].data|);
  }

  lemma InodeWordReads(fs: seq<Record>, i: nat, j: nat)
    requires Storable(fs) && i < |fs| && j < 1024
    ensures InodeAt(i) + 4096 <= |ImageOf(fs)|
    ensures Le32(ImageOf(fs), InodeAt(i) + 4 * j) == InodeWord(fs, i, j)
  {
    var img, at, vs := ImageOf(fs), InodeAt(i), InodeWords(fs, i);
    BlockSlice(fs, i + 1);
    assert AllBlocks(fs)[1 + i] == InodeBlock(fs, i);
    WordAt(vs, j);
    SliceOfSlice(img, at, 4096, 4 * j, 4 * j + 4);
    WordSmall(fs, i, j);
    Le32OfWord(img, at + 4 * j, vs[j]);
  }

  lemma InodeReads(fs: seq<Record>, i: nat)
    requires Storable(fs) && i < |fs|
    ensures HoldsInode(ImageOf(fs), i) && FileLength(ImageOf(fs), i) == |fs[i].data|
  {
    HeaderReads(fs);
    InodeWordReads(fs, i, 0);
  }

  lemma NumberReads(fs: seq<Record>, i: nat, b: nat)
    requires Storable(fs) && i < |fs| && b < BlockCount(|fs[i].data|)
    ensures HoldsInode(ImageOf(fs), i) && b < INODE_BLOCKS && BlockNumber(ImageOf(fs), i, b) == First(fs, i) + b
  {
    InodeReads(fs, i);
    CountCovers(|fs[i].data|);
    InodeWordReads(fs, i, b + 1);
  }

  lemma BlockAtIs(img: Image, inodes: nat, c: nat)
    requires NumInodes(img) == inodes
    ensures BlockAt(img, c) == 4096 * (1 + inodes + c)
  {}

  ghost predicate HasBlock(img: Image, at: nat, block: seq<byte>) { at + 4096 <= |img| && img[at..at + 4096] == block }

  lemma DataSlice(fs: seq<Record>, c: nat)
    requires Storable(fs) && c < |DataBlocks(fs)|
    ensures HasBlock(ImageOf(fs), 4096 * (1 + |fs| + c), DataBlocks(fs)[c])
  {
    BlockSlice(fs, 1 + |fs| + c);
    assert AllBlocks(fs)[1 + |fs| + c] == DataBlocks(fs)[c];
  }

  lemma BlockPlaced(img: Image, i: nat, b: nat, inodes: nat, c: nat, block: seq<byte>)
    requires HoldsInode(img, i) && b < INODE_BLOCKS && NumInodes(img) == inodes && BlockNumber(img, i, b) == c
    requires HasBlock(img, 4096 * (1 + inodes + c), block)
    ensures HasBlock(img, BlockAt(img, BlockNumber(img, i, b)), block)
  {
    BlockAtIs(img, inodes, c);
  }

  lemma Located(fs: seq<Record>, i: nat, b: nat) returns (c: nat)
    requires Storable(fs) && i < |fs| && b < BlockCount(|fs[i].data|)
    ensures HoldsInode(ImageOf(fs), i) && b < INODE_BLOCKS && BlockNumber(ImageOf(fs), i, b) == c
    ensures HasBlock(ImageOf(fs), 4096 * (1 + |fs| + c), Chunks(fs[i].data)[b])
  {
    c := First(fs, i) + b;
    NumberReads(fs, i, b);
    DataBlock(fs, i, b);
    DataSlice(fs, c);
  }

  /** Block `b` of file `i` is where its inode says, and holds that part of the data. */
  lemma BlockReads(fs: seq<Record>, i: nat, b: nat)
    requires Storable(fs) && i < |fs| && b < BlockCount(|fs[i].data|)
    ensures HoldsInode(ImageOf(fs), i) && b < INODE_BLOCKS
    ensures HasBlock(ImageOf(fs), BlockAt(ImageOf(fs), BlockNumber(ImageOf(fs), i, b)), Chunks(fs[i].data)[b])
  {
    var c := Located(fs, i, b);
    HeaderReads(fs);
    BlockPlaced(ImageOf(fs), i, b, |fs|, c, Chunks(fs[i].data)[b]);
  }

  lemma InodeGood(fs: seq<Record>, i: nat)
    requires Storable(fs) && i < |fs|
    ensures GoodInode(ImageOf(fs), i)
  {
    InodeReads(fs, i);
    var img := ImageOf(fs);
    forall j: nat | InFile(img, i, j) ensures BlockAt(img, BlockNumber(img, i, j)) + BLOCK <= |img| {
      BlockIn(|fs[i].data|, j, 0);
      BlockReads(fs, i, j);
    }
  }

  lemma ImageWellFormed(fs: seq<Record>)
    requires Storable(fs)
    ensures WellFormed(ImageOf(fs))
  {
    HeaderReads(fs);
    forall n: nat | n < |fs| ensures GoodInode(ImageOf(fs), n) { InodeGood(fs, n); }
    forall i: nat | i < 63
      ensures EntryType(ImageOf(fs), i) <= 2
      ensures EntryType(ImageOf(fs), i) == 2 ==> EntryInode(ImageOf(fs), i) < NumInodes(ImageOf(fs))
    {
      if i < |fs| { EntryReads(fs, i); } else { FreeEntryReads(fs, i); }
    }
  }

  lemma SliceByte(m: seq<byte>, at: nat, n: nat, q: nat)
    requires at + n <= |m| && q < n
    ensures m[at..at + n][q] == m[at + q]
  {}

  lemma ByteReads(fs: seq<Record>, i: nat, b: nat, q: nat)
    requires Storable(fs) && i < |fs| && q < BLOCK && Start(b) + q < |fs[i].data|
    requires GoodInode(ImageOf(fs), i) && FileLength(ImageOf(fs), i) == |fs[i].data|
    ensures File(ImageOf(fs), i)[Start(b) + q] == fs[i].data[Start(b) + q]
  {
    var img := ImageOf(fs);
    FileByteAt(img, i, b, q);
    ChunkByte(fs[i].data, b, q);
    BlockReads(fs, i, b);
    SliceByte(img, BlockAt(img, BlockNumber(img, i, b)), 4096, q);
  }

  lemma FileReads(fs: seq<Record>, i: nat)
    requires Storable(fs) && i < |fs|
    ensures GoodInode(ImageOf(fs), i) && File(ImageOf(fs), i) == fs[i].data
  {
    InodeGood(fs, i);
    InodeReads(fs, i);
    forall k: nat | k < |fs[i].data| ensures File(ImageOf(fs), i)[k] == fs[i].data[k] {
      StartOf(k);
      ByteReads(fs, i, k / BLOCK, k % BLOCK);
    }
  }

  lemma FoundAt(fs: seq<Record>, i: nat)
    requires Storable(fs) && i < |fs|
    ensures Find(ImageOf(fs), fs[i].name) == i
  {
    var img, name := ImageOf(fs), fs[i].name;
    var r := Find(img, name);
    EntryReads(fs, i);
    assert EntryName(img, i) == name;
    if 0 <= r { EntryReads(fs, r); }
  }

  /** Round trip: in the image of any such directory every name is found, with its type, and
      reading its inode gives back its bytes. */
  lemma ReadsBack(fs: seq<Record>, i: nat)
    requires Storable(fs) && i < |fs|
    ensures WellFormed(ImageOf(fs))
    ensures Find(ImageOf(fs), fs[i].name) == i && EntryType(ImageOf(fs), i) == fs[i].kind
    ensures HasInode(ImageOf(fs), EntryInode(ImageOf(fs), i)) && File(ImageOf(fs), EntryInode(ImageOf(fs), i)) == fs[i].data
  {
    ImageWellFormed(fs);
    HeaderReads(fs);
    FileReads(fs, i);
    EntryReads(fs, i);
    FoundAt(fs, i);
  }
}
