/** Small disks, of one group with one file, on which `insert_entry`, `release_dir_entry` and `ext2_write` do not do
    what they are for. */
module Ext2Tiny {
  import opened Arith
  import opened Fixed
  import opened Bytes
  import opened BlockMap
  import opened Contents
  import opened Directories
  import opened Ext2Disk
  import opened Ext2Files
  import opened Ext2Free
  import opened Ext2Strays
  import opened Ext2
  import opened Ext2IO
  import opened Ext2Dirs

  /** One group: block 0 for the format, block 1 with the bitmap, and blocks of data behind them. */
  function OneGroup(fan: nat, blocks: nat): Geometry { Geometry(fan, 1, blocks, 2, 1, 2, 2) }

  /** `a` and then `b` bits are set. */
  function Bitmap(a: byte, b: byte, size: nat): Block
    requires size >= 2
  {
    [a, b] + Zeros(size - 2)
  }

  function DiskOf(bitmap: Block, data: seq<Block>): Disk { [Zeros(|bitmap|), bitmap] + data }

  lemma {:induction false} BitsOf(geo: Geometry, d: Disk, m: nat, n: nat, k: nat)
    requires Formatted(geo, d) && geo == OneGroup(geo.fan, geo.perGroup) && k < geo.perGroup <= 16 && m <= 8
             && (n > 0 ==> m == 8)
    requires d[1][0] as int + 1 == Pow2(m) && d[1][1] as int + 1 == Pow2(n)
    ensures Used(geo, d, 0, k) <==> k < m + n
  {
    AllOnes(d[1][k / 8], if k / 8 == 0 then m else n, k % 8);
  }

  /** The first `used` blocks of the group are in use. */
  ghost predicate UsedFirst(geo: Geometry, d: Disk, used: nat) {
    && Formatted(geo, d) && geo == OneGroup(geo.fan, geo.perGroup) && used <= geo.perGroup
    && forall k {:trigger Used(geo, d, 0, k)} :: 0 <= k < geo.perGroup ==> (Used(geo, d, 0, k) <==> k < used)
  }

  lemma {:induction false} BitsAre(geo: Geometry, d: Disk, m: nat, n: nat)
    requires Formatted(geo, d) && geo == OneGroup(geo.fan, geo.perGroup) && m + n <= geo.perGroup <= 16 && m <= 8
             && (n > 0 ==> m == 8)
    requires d[1][0] as int + 1 == Pow2(m) && d[1][1] as int + 1 == Pow2(n)
    ensures UsedFirst(geo, d, m + n)
  {
    forall k | 0 <= k < geo.perGroup ensures Used(geo, d, 0, k) <==> k < m + n { BitsOf(geo, d, m, n, k); }
  }

  lemma {:induction false} InGroup(geo: Geometry, n: nat)
    requires geo.groups == 1 && n < geo.perGroup
    ensures n < geo.Total() && geo.GroupOf(n) == 0 && geo.IndexOf(n) == n
  {
  }

  lemma {:induction false} FreeFrom(geo: Geometry, d: Disk, used: nat)
    requires UsedFirst(geo, d, used) && used >= 2
    ensures forall n: nat {:trigger n in FreeBlocks(geo, d)} :: n in FreeBlocks(geo, d) <==> used <= n < geo.perGroup
  {
    forall n: nat | n < geo.perGroup ensures n in FreeBlocks(geo, d) <==> used <= n {
      InGroup(geo, n);
      assert Used(geo, d, 0, n) <==> n < used;
    }
  }

  lemma {:induction false} LastFree(geo: Geometry, d: Disk, used: nat)
    requires UsedFirst(geo, d, used) && 2 <= used && used + 1 == geo.perGroup
    ensures FreeSize(geo, d) == 1
  {
    FreeFrom(geo, d, used);
    assert FreeBlocks(geo, d) == {used};
  }

  /** A file that has the `m` blocks from block 2 on. */
  function FileOf(m: nat): File { File(seq(m, k => k + 2), []) }

  function InodeFor(mode: u32, size: u32, m: nat): Inode
    requires m <= DIRECT
  {
    Inode(mode, size, m, seq(N_BLOCKS, k => if k < m then k + 2 else 0))
  }

  function TableOf(geo: Geometry, inode: Inode): map<Slot, Inode>
    requires geo.Sane()
  {
    map[SlotOf(geo, 2) := inode]
  }

  lemma {:induction false} OneFileSound(geo: Geometry, d: Disk, mode: u32, size: u32, m: nat)
    requires m <= DIRECT && UsedFirst(geo, d, m + 2)
    ensures DataOf(FileOf(m)) == FileOf(m).direct
    ensures Sound(geo, d, TableOf(geo, InodeFor(mode, size, m)), map[2 := FileOf(m)])
  {
    OneFileOwns(geo, d, m);
    OneFileHeld(geo, d, InodeFor(mode, size, m), m);
    forall g, b | 0 <= g < geo.groups && 0 <= b < geo.first ensures Used(geo, d, g, b) {
      assert g == 0 && Used(geo, d, 0, b);
    }
    assert HoldsFile(geo, d, TableOf(geo, InodeFor(mode, size, m)), 2, FileOf(m));
  }

  lemma {:induction false} OneFileOwns(geo: Geometry, d: Disk, m: nat)
    requires UsedFirst(geo, d, m + 2)
    ensures Owns(geo, d, FileOf(m))
  {
    var f := FileOf(m);
    assert BlocksOf(f) == f.direct;
    forall n | n in BlocksOf(f) ensures InUse(geo, d, n) {
      var k :| 0 <= k < m && n == f.direct[k];
      InGroup(geo, k + 2);
      assert n == k + 2 && Used(geo, d, 0, n);
    }
  }

  lemma {:induction false} OneFileHeld(geo: Geometry, d: Disk, inode: Inode, m: nat)
    requires m <= DIRECT && inode.blocks == m && |inode.block| == N_BLOCKS
             && forall k :: 0 <= k < m ==> inode.block[k] == k + 2
    ensures DataOf(FileOf(m)) == FileOf(m).direct && Agrees(inode, FileOf(m)) && Shape(geo.fan, FileOf(m))
            && TreesStored(d, FileOf(m))
  {
    assert DataOf(FileOf(m)) == FileOf(m).direct;
  }

  // ----- insert_entry, with one free block -----

  /** Blocks of 32 bytes: twelve are in use, and the last one of the disk is free. */
  ghost predicate OneLeft(geo: Geometry, d: Disk) {
    && Formatted(geo, d) && geo == OneGroup(geo.fan, geo.perGroup) && geo.fan == 8 && geo.perGroup == 15
    && d[1][0] == 0xff && d[1][1] == 0x3f
  }

  /** A directory has the twelve blocks, with an entry in each. */
  ghost predicate NearlyFull(geo: Geometry, d: Disk, es: seq<seq<byte>>) {
    && OneLeft(geo, d) && |es| == DIRECT
    && forall k {:trigger es[k]} :: 0 <= k < |es| ==> Live(es[k]) && d[k + 2] == es[k]
  }

  function Entry(inode: byte, c: byte): (e: seq<byte>)
    ensures |e| == ENTRY && e[0] == inode && e[1] == e[2] == e[3] == 0 && e[NAME] == c
  {
    [inode, 0, 0, 0, c] + Zeros(27)
  }

  /** `n` entries with different names. */
  function Entries(n: nat): (es: seq<seq<byte>>)
    requires n <= DIRECT
    ensures |es| == n && forall k {:trigger es[k]} :: 0 <= k < n ==> es[k] == Entry(2, 97 + k)
  {
    if n == 0 then [] else Entries(n - 1) + [Entry(2, 96 + n)]
  }

  /** There is such a disk. */
  lemma {:induction false} SomeNearlyFull(d: Disk, n: nat)
    requires n == DIRECT && d == [Zeros(32), [0xff, 0x3f] + Zeros(30)] + Entries(n) + [Zeros(32)]
    ensures NearlyFull(OneGroup(8, 15), d, Entries(n))
  {
    forall k | 0 <= k < n ensures Live(Entries(n)[k]) && d[k + 2] == Entries(n)[k] { }
    forall k | 0 <= k < |d| ensures |d[k]| == 32 { assert 2 <= k < 14 ==> d[k] == Entries(n)[k - 2]; }
  }

  lemma {:induction false} OneLeftBits(geo: Geometry, d: Disk)
    requires OneLeft(geo, d)
    ensures UsedFirst(geo, d, 14) && FreeSize(geo, d) == 1
  {
    Pow2At();
    BitsAre(geo, d, 8, 6);
    LastFree(geo, d, 14);
  }

  lemma {:induction false} Pow2At()
    ensures Pow2(8) == 256 && Pow2(6) == 64
  {
  }

  /** The blocks from block 2 on, as one text, have an entry in each. */
  lemma {:induction false} EntryPerBlock(d: Disk, ns: seq<nat>, es: seq<seq<byte>>, k: nat)
    requires |ns| == |es| && Sized(d, ns, ENTRY) && (forall j :: 0 <= j < |ns| ==> ns[j] < |d| && d[ns[j]] == es[j])
    requires k < |es| && |Text(d, ns)| == |ns| * ENTRY
    ensures SlotAt(Text(d, ns), k) == es[k]
  {
    BlockIn(d, ns, ENTRY, k, ENTRY * k);
  }

  lemma {:induction false} NearlyFullText(geo: Geometry, d: Disk, es: seq<seq<byte>>, ns: seq<nat>)
    requires NearlyFull(geo, d, es) && ns == FileOf(|es|).direct
    ensures |Text(d, ns)| == |es| * ENTRY && forall k :: 0 <= k < |es| ==> SlotAt(Text(d, ns), k) == es[k]
  {
    assert forall k :: 0 <= k < |ns| ==> ns[k] == k + 2 && |BlockOf(d, ns[k])| == ENTRY && d[ns[k]] == es[k];
    TextSize(d, ns, ENTRY);
    forall k | 0 <= k < |es| ensures SlotAt(Text(d, ns), k) == es[k] { EntryPerBlock(d, ns, es, k); }
  }

  lemma {:induction false} NearlyFullDir(geo: Geometry, d: Disk, es: seq<seq<byte>>, inode: Inode, f: File)
    requires NearlyFull(geo, d, es) && inode == InodeFor(0x4000, 384, |es|) && f == FileOf(|es|)
    ensures IsDir(geo, d, TableOf(geo, inode), map[2 := f], 2, es, 1)
  {
    OneLeftBits(geo, d);
    OneFileSound(geo, d, 0x4000, 384, |es|);
    NearlyFullText(geo, d, es, f.direct);
  }

  /** `insert_entry` in a directory whose blocks are full, with one free block, and two of them needed. */
  method InsertInFull(fs: Ext2Fs, e: seq<byte>, ghost es: seq<seq<byte>>, ghost f: File) returns (ok: bool)
    requires fs.Valid() && fs.files == map[2 := f] && IsDir(fs.geo, fs.disk, fs.table, fs.files, 2, es, 1)
    requires Live(e) && es != [] && 32 * |es| + 32 < TWO_32 && 32 * |es| % fs.geo.BlockSize() == 0
    requires |DataOf(f)| < MaxBlocks(fs.geo.fan) && 1 / fs.geo.inodesPerGroup < fs.geo.groups
    requires fs.Spare() == 1 && NeedOne(fs.geo.fan, |DataOf(f)|) == 2
    modifies fs
    ensures ok && fs.files == old(fs.files) && fs.table == old(fs.table) && FileText(fs, 2) == old(FileText(fs, 2))
  {
    var n, offset;
    ghost var there;
    ok, n, offset, there := InsertEntry(fs, 2, e, 1, es);
  }

  /** A thirteenth entry: `insert_entry` reports success, and the directory has still got twelve. */
  method EntryLost(geo: Geometry, d: Disk, es: seq<seq<byte>>, e: seq<byte>) returns (fs: Ext2Fs, ok: bool)
    requires NearlyFull(geo, d, es) && Live(e)
    ensures fresh(fs) && ok && fs.files == map[2 := FileOf(DIRECT)]
            && FileText(fs, 2) == Text(d, DataOf(FileOf(DIRECT)))
    ensures fs.geo == geo && fs.table == TableOf(geo, InodeFor(0x4000, 384, DIRECT))
  {
    var inode := InodeFor(0x4000, 384, |es|);
    ghost var f := FileOf(|es|);
    NearlyFullDir(geo, d, es, inode, f);
    OneLeftBits(geo, d);
    fs := new Ext2Fs(geo, d, TableOf(geo, inode), 1, [1], map[2 := f]);
    NeedsTwo(geo.fan);
    ok := InsertInFull(fs, e, es, f);
  }

  lemma {:induction false} NeedsTwo(fan: nat)
    requires fan > 0
    ensures NeedOne(fan, DIRECT) == 2
  {
  }

  // ----- ext2_write, with one free block -----

  lemma {:induction false} NoStrays(geo: Geometry, d: Disk, m: nat)
    requires UsedFirst(geo, d, m + 2)
    ensures StraySize(geo, d, map[2 := FileOf(m)]) == 0
  {
    var files := map[2 := FileOf(m)];
    forall n: nat | n < geo.Total() && InUse(geo, d, n) ensures !Free(files, n) {
      InGroup(geo, n);
      assert Used(geo, d, 0, n) <==> n < m + 2;
      assert BlocksOf(files[2]) == files[2].direct && n == files[2].direct[n - 2];
    }
    assert Strays(geo, d, files) == {};
  }

  lemma {:induction false} OneByteMore(fan: nat, n: nat, end: nat, size: nat)
    requires fan == 8 && n == DIRECT && end == 385 && size == 4 * fan
    ensures BlocksFor(end, size) <= MaxBlocks(fan) && NeedAll(fan, n, Lacking(n, BlocksFor(end, size))) == 2
  {
    assert BlocksFor(385, 32) == 13;
    Caps(fan);
    NeedForOne(fan, n);
    NeedsTwo(fan);
  }

  lemma {:induction false} RanOutAtOnce(fan: nat, n: nat, got: nat, before: nat, after: nat)
    requires fan > 0 && n == DIRECT && RanOut(fan, n, got, 1, before, after)
    ensures got == 0 && after == before + 1
  {
    NeedForOne(fan, n);
    NeedsTwo(fan);
    if got > 0 { NeedMore(fan, n, 1, got - 1); }
  }

  lemma {:induction false} OffsetFits(offset: nat, size: nat)
    requires size == 32
    ensures offset % size + 1 < TWO_32
  {
  }

  lemma {:induction false} NoBlocks(a: seq<byte>, size: nat)
    ensures a + ZeroBlocks(0, size) == a
  {
  }

  method WriteBehind(fs: Ext2Fs, c: byte) returns (ok: bool)
    requires fs.Valid() && fs.geo.fan == 8 && fs.geo.inodesPerGroup > 1 && fs.geo.groups > 0 && fs.Spare() == 1
    requires 2 in fs.files && |DataOf(fs.files[2])| == DIRECT
    requires SlotOf(fs.geo, 2) in fs.table && fs.table[SlotOf(fs.geo, 2)].size == 384
             && !IsDirectory(fs.table[SlotOf(fs.geo, 2)])
    modifies fs
    ensures fs.Valid() && !ok && fs.files.Keys == old(fs.files).Keys && |DataOf(fs.files[2])| == DIRECT
    ensures FileText(fs, 2) == old(FileText(fs, 2))
    ensures SlotOf(fs.geo, 2) in fs.table && fs.table[SlotOf(fs.geo, 2)].size == 385
    ensures fs.Stray() == old(fs.Stray()) + 1 && DiskFull(fs.geo, fs.disk)
  {
    ghost var n, stray := |DataOf(fs.files[2])|, fs.Stray();
    var offset: nat, buffer, got := 384, [c], 0;
    OffsetFits(offset, fs.geo.BlockSize());
    OneByteMore(fs.geo.fan, n, offset + |buffer|, fs.geo.BlockSize());
    NoBlocks(FileText(fs, 2), fs.geo.BlockSize());
    ok, got := Write(fs, 2, offset, buffer);
    RanOutAtOnce(fs.geo.fan, n, got, stray, fs.Stray());
  }

  lemma {:induction false} PlainInode(inode: Inode, size: u32, m: nat)
    requires m <= DIRECT && inode == InodeFor(0, size, m)
    ensures !IsDirectory(inode) && inode.size == size
  {
  }

  lemma {:induction false} TwelveBlocks(d: Disk, ns: seq<nat>, size: nat)
    requires |ns| == DIRECT && size == 32 && Sized(d, ns, size)
    ensures |Text(d, ns)| == 384
  {
    TextSize(d, ns, size);
  }

  method FullFile(geo: Geometry, d: Disk) returns (fs: Ext2Fs)
    requires OneLeft(geo, d)
    ensures fresh(fs) && fs.Valid() && fs.geo == geo && fs.disk == d && fs.files == map[2 := FileOf(DIRECT)]
    ensures SlotOf(geo, 2) in fs.table && fs.table[SlotOf(geo, 2)] == InodeFor(0, 384, DIRECT)
    ensures fs.Spare() == 1 && fs.Stray() == 0
  {
    OneLeftBits(geo, d);
    OneFileSound(geo, d, 0, 384, DIRECT);
    NoStrays(geo, d, DIRECT);
    fs := new Ext2Fs(geo, d, TableOf(geo, InodeFor(0, 384, DIRECT)), 1, [1], map[2 := FileOf(DIRECT)]);
  }

  /** A byte behind a file that has twelve full blocks: the write fails, the size counts the byte all the same, and the
      last block is neither free nor in the file. */
  method SizeGrows(geo: Geometry, d: Disk, c: byte) returns (fs: Ext2Fs, ok: bool)
    requires OneLeft(geo, d)
    ensures fresh(fs) && fs.Valid() && fs.geo == geo && !ok && fs.files.Keys == {2} && |DataOf(fs.files[2])| == DIRECT
    ensures FileText(fs, 2) == Text(d, DataOf(FileOf(DIRECT))) && |FileText(fs, 2)| == 384
    ensures SlotOf(geo, 2) in fs.table && fs.table[SlotOf(geo, 2)].size == 385
    ensures fs.Stray() == 1 && DiskFull(geo, fs.disk)
  {
    fs := FullFile(geo, d);
    ghost var ns := DataOf(fs.files[2]);
    DirectOnly(DIRECT);
    PlainInode(fs.table[SlotOf(geo, 2)], 384, DIRECT);
    DataBlocks(geo, fs.disk, fs.table, fs.files, 2);
    TwelveBlocks(d, ns, geo.BlockSize());
    ok := WriteBehind(fs, c);
  }

  lemma {:induction false} DirectOnly(m: nat)
    ensures DataOf(FileOf(m)) == FileOf(m).direct && |FileOf(m).direct| == m
  {
  }

  // ----- release_dir_entry, with two entries for one inode -----

  /** Blocks of 64 bytes: a directory has one, with two entries for the same inode, as "." and ".." of the root are. */
  ghost predicate TwoNames(geo: Geometry, d: Disk, es: seq<seq<byte>>) {
    && Formatted(geo, d) && geo == OneGroup(geo.fan, geo.perGroup) && geo.fan == 16 && geo.perGroup == 3
    && d[1][0] == 7 && d[1][1] == 0 && |es| == 2 && Live(es[0]) && Live(es[1]) && InodeOf(es[0]) == InodeOf(es[1])
    && d[2] == es[0] + es[1]
  }

  lemma {:induction false} SomeTwoNames(d: Disk, es: seq<seq<byte>>)
    requires es == [Entry(2, 46), Entry(2, 46)[NAME + 1 := 46]] && d == [Zeros(64), [7, 0] + Zeros(62), es[0] + es[1]]
    ensures TwoNames(OneGroup(16, 3), d, es) && es[0] != es[1]
  {
    assert es[0][NAME + 1] == 0 != es[1][NAME + 1];
    assert InodeOf(es[0]) == InodeOf(es[1]);
  }

  lemma {:induction false} TwoNamesDir(geo: Geometry, d: Disk, es: seq<seq<byte>>, inode: Inode, f: File)
    requires TwoNames(geo, d, es) && inode == InodeFor(0x4000, 64, 1) && f == FileOf(1)
    ensures IsDir(geo, d, TableOf(geo, inode), map[2 := f], 2, es, 2) && DataOf(f) == [2]
  {
    assert Pow2(3) == 8;
    BitsAre(geo, d, 3, 0);
    OneFileSound(geo, d, 0x4000, 64, 1);
    assert f.direct == [2];
    OneMore(d, [], 2);
    assert Text(d, [2]) == es[0] + es[1];
    assert SlotAt(es[0] + es[1], 0) == es[0] && SlotAt(es[0] + es[1], 1) == es[1];
  }

  /** The first entry goes: the directory that is left is not the one with the second entry. */
  method FirstReleased(geo: Geometry, d: Disk, es: seq<seq<byte>>) returns (fs: Ext2Fs)
    requires TwoNames(geo, d, es)
    ensures fresh(fs) && fs.geo == geo && fs.Valid() && !IsDir(geo, fs.disk, fs.table, fs.files, 2, [es[1]], 2)
  {
    var inode := InodeFor(0x4000, 64, 1);
    ghost var f := FileOf(1);
    TwoNamesDir(geo, d, es, inode, f);
    fs := new Ext2Fs(geo, d, TableOf(geo, inode), 0, [0], map[2 := f]);
    ReleaseDirEntry(fs, 2, 2, 0, 0, 0, 0, 2, es);
    assert Removed(es, 0) == [es[1]];
  }

  // ----- ext2_write, of less than the whole file -----

  /** Blocks of four bytes: a file has two. */
  ghost predicate TwoBlocks(geo: Geometry, d: Disk) {
    && Formatted(geo, d) && geo == OneGroup(geo.fan, geo.perGroup) && geo.fan == 1 && geo.perGroup == 4
    && d[1][0] == 15 && d[1][1] == 0
  }

  lemma {:induction false} SomeTwoBlocks(d: Disk)
    requires d == [Zeros(4), [15, 0, 0, 0], [1, 2, 3, 4], [5, 6, 7, 8]]
    ensures TwoBlocks(OneGroup(1, 4), d) && d[2] + d[3] == [1, 2, 3, 4, 5, 6, 7, 8]
  {
  }

  lemma {:induction false} TwoBlocksFile(geo: Geometry, d: Disk, inode: Inode, f: File)
    requires TwoBlocks(geo, d) && inode == InodeFor(0, 8, 2) && f == FileOf(2)
    ensures Sound(geo, d, TableOf(geo, inode), map[2 := f]) && |DataOf(f)| == 2 && Text(d, DataOf(f)) == d[2] + d[3]
  {
    assert Pow2(4) == 16;
    BitsAre(geo, d, 4, 0);
    OneFileSound(geo, d, 0, 8, 2);
    assert f.direct == [2, 3] && [2, 3] == [2] + [3];
    OneMore(d, [2], 3);
    OneMore(d, [], 2);
  }

  lemma {:induction false} FiveOver(c: seq<byte>, buffer: seq<byte>, gap: nat)
    requires |c| == 8 && |buffer| == 5 && gap == 3
    ensures Overwritten(c, 0, buffer, gap) == buffer + [0, 0, 0]
  {
    assert Zeros(gap) == [0, 0, 0];
  }

  lemma {:induction false} GapOfFive(gap: nat, size: nat)
    requires size == 4 && gap == Gap(0, 5, size)
    ensures gap == 3
  {
  }

  /** The first five bytes are written, and the last three are lost. */
  lemma {:induction false} TailLost(geo: Geometry, d: Disk, t: map<Slot, Inode>, f: map<nat, File>, d': Disk,
                                    t': map<Slot, Inode>, f': map<nat, File>, buffer: seq<byte>)
    requires TwoBlocks(geo, d) && |buffer| == 5 && 2 in f && Text(d, DataOf(f[2])) == d[2] + d[3]
             && Wrote(geo, d, t, f, d', t', f', 2, 0, buffer, 0)
    ensures Text(d', DataOf(f'[2])) == buffer + [0, 0, 0]
  {
    var c, gap := Text(d, DataOf(f[2])), Gap(0, |buffer|, geo.BlockSize());
    GapOfFive(gap, geo.BlockSize());
    assert c + ZeroBlocks(0, geo.BlockSize()) == c;
    FiveOver(c, buffer, gap);
  }

  lemma {:induction false} NothingMore(geo: Geometry, n: nat, offset: nat, length: nat)
    requires geo.Sane() && geo.fan == 1 && n == 2 && offset == 0 && length == 5
    ensures var need := BlocksFor(offset + length, geo.BlockSize());
            need == n <= MaxBlocks(geo.fan) && Larger(n, need) == n && NeedAll(geo.fan, n, Lacking(n, need)) == 0
                && offset % geo.BlockSize() + length < TWO_32
  {
  }

  method WriteFive(fs: Ext2Fs, buffer: seq<byte>) returns (ok: bool)
    requires TwoBlocks(fs.geo, fs.disk) && fs.Valid() && |buffer| == 5
    requires 2 in fs.files && |DataOf(fs.files[2])| == 2 && FileText(fs, 2) == fs.disk[2] + fs.disk[3]
    requires SlotOf(fs.geo, 2) in fs.table && fs.table[SlotOf(fs.geo, 2)] == InodeFor(0, 8, 2)
    modifies fs
    ensures ok && fs.Valid() && 2 in fs.files && FileText(fs, 2) == buffer + [0, 0, 0]
    ensures SlotOf(fs.geo, 2) in fs.table && fs.table[SlotOf(fs.geo, 2)].size == 8
  {
    ghost var d, t, f, n := fs.disk, fs.table, fs.files, |DataOf(fs.files[2])|;
    var offset: nat, got := 0, 0;
    NothingMore(fs.geo, n, offset, |buffer|);
    PlainInode(fs.table[SlotOf(fs.geo, 2)], 8, 2);
    ok, got := Write(fs, 2, offset, buffer);
    TailLost(fs.geo, d, t, f, fs.disk, fs.table, fs.files, buffer);
  }
}
