/** `ext2_write` and `ext2_read`. */
module Ext2IO {
  import opened Arith
  import opened Fixed
  import opened Bytes
  import opened Seqs
  import opened IndexTree
  import opened BlockMap
  import opened Contents
  import opened Ext2Disk
  import opened Ext2Files
  import opened Ext2Free
  import opened Ext2Growth
  import opened Ext2Release
  import opened Ext2Strays
  import opened Ext2Turns
  import opened Ext2

  // ----- the data of files -----

  lemma {:induction false} DataBlocks(geo: Geometry, d: Disk, table: map<Slot, Inode>, files: map<nat, File>, i: nat)
    requires Sound(geo, d, table, files) && i in files
    ensures Sized(d, DataOf(files[i]), geo.BlockSize()) && NoDup(DataOf(files[i]))
    ensures forall n :: n in DataOf(files[i]) ==> InUse(geo, d, n) && n < |d|
  {
    AllInUse(geo, d, table, files, i);
    UsedSized(geo, d, DataOf(files[i]));
  }

  lemma {:induction false} UsedSized(geo: Geometry, d: Disk, ns: seq<nat>)
    requires Formatted(geo, d) && forall n :: n in ns ==> InUse(geo, d, n)
    ensures Sized(d, ns, geo.BlockSize()) && forall n :: n in ns ==> n < |d|
  {
    forall k | 0 <= k < |ns| ensures ns[k] < |d| && |BlockOf(d, ns[k])| == geo.BlockSize() {
      InUseBounds(geo, d, ns[k]);
    }
  }

  /** A data block of file `i` is no block of pointers, and in no other file. */
  lemma {:induction false} DataAlone(geo: Geometry, d: Disk, table: map<Slot, Inode>, files: map<nat, File>, i: nat,
                                     n: nat, j: nat)
    requires Sound(geo, d, table, files) && i in files && n in DataOf(files[i]) && j in files
    ensures n !in PointersOf(files[j]) && (j != i ==> n !in DataOf(files[j]))
  {
    PointersOwned(files[i]);
    PointersOwned(files[j]);
    assert HoldsFile(geo, d, table, i, files[i]);
    if j == i {
      NoDupParts(PointersOf(files[i]), DataOf(files[i]));
    } else {
      assert Apart(files[i], files[j]);
    }
  }

  /** Writing to blocks of pointers of file `i`, and to blocks not in use, leaves the data of every file as it is. */
  lemma {:induction false} TextKept(geo: Geometry, d: Disk, d': Disk, table: map<Slot, Inode>, files: map<nat, File>,
                                    i: nat, j: nat)
    requires Sound(geo, d, table, files) && i in files && j in files && KeptBut(geo, d, d', PointersOf(files[i]))
    ensures Text(d', DataOf(files[j])) == Text(d, DataOf(files[j]))
  {
    var ns := DataOf(files[j]);
    DataBlocks(geo, d, table, files, j);
    forall k | 0 <= k < |ns| ensures BlockOf(d', ns[k]) == BlockOf(d, ns[k]) {
      DataAlone(geo, d, table, files, j, ns[k], i);
      assert InUse(geo, d, ns[k]);
    }
    SameText(d, d', ns);
  }

  ghost predicate OthersKept(d: Disk, d': Disk, files: map<nat, File>, i: nat) {
    forall j {:trigger Text(d', DataOf(files[j]))} :: j in files && j != i ==>
      Text(d', DataOf(files[j])) == Text(d, DataOf(files[j]))
  }

  /** Data block `q` of file `i` is replaced by `b`. */
  lemma {:induction false} DataWritten(geo: Geometry, d: Disk, table: map<Slot, Inode>, files: map<nat, File>, i: nat,
                                       q: nat, lo: nat, b: Block)
    requires Sound(geo, d, table, files) && i in files && q < |DataOf(files[i])| && lo == q * geo.BlockSize()
             && |b| == geo.BlockSize()
    ensures var (n, c) := (DataOf(files[i])[q], Text(d, DataOf(files[i])));
            && n < |d| && Sound(geo, d[n := b], table, files) && OthersKept(d, d[n := b], files, i)
            && BitsKept(geo, d, d[n := b])
            && lo + |b| <= |c| && Text(d[n := b], DataOf(files[i])) == c[..lo] + b + c[lo + |b|..]
  {
    var ns := DataOf(files[i]);
    DataBlocks(geo, d, table, files, i);
    BlockPut(d, ns, |b|, q, lo, b);
    DataReplaced(geo, d, table, files, i, ns[q], b);
  }

  lemma {:induction false} DataReplaced(geo: Geometry, d: Disk, table: map<Slot, Inode>, files: map<nat, File>, i: nat,
                                        n: nat, b: Block)
    requires Sound(geo, d, table, files) && i in files && n in DataOf(files[i]) && n < |d| && |b| == geo.BlockSize()
             && InUse(geo, d, n)
    ensures Sound(geo, d[n := b], table, files) && OthersKept(d, d[n := b], files, i) && BitsKept(geo, d, d[n := b])
  {
    var d' := d[n := b];
    DataBits(geo, d, d', n);
    DataSound(geo, d, d', table, files, i, n);
    forall j | j in files && j != i ensures Text(d', DataOf(files[j])) == Text(d, DataOf(files[j])) {
      DataAlone(geo, d, table, files, i, n, j);
      SameText(d, d', DataOf(files[j]));
    }
  }

  /** Writing to a data block changes no bit. */
  lemma {:induction false} DataBits(geo: Geometry, d: Disk, d': Disk, n: nat)
    requires Formatted(geo, d) && Formatted(geo, d') && InData(geo, n)
             && forall x :: 0 <= x < |d| && x != n ==> d'[x] == d[x]
    ensures BitsKept(geo, d, d')
  {
    forall g, k | 0 <= g < geo.groups && 0 <= k < geo.perGroup ensures Used(geo, d', g, k) == Used(geo, d, g, k) {
      BitmapOutside(geo, g, n);
    }
  }

  lemma {:induction false} SameBits(geo: Geometry, d: Disk, d': Disk)
    requires BitsKept(geo, d, d')
    ensures DiskFull(geo, d) ==> DiskFull(geo, d')
    ensures forall x: nat {:trigger InUse(geo, d, x)} :: InUse(geo, d, x) ==> InUse(geo, d', x)
  {
    if DiskFull(geo, d) {
      var full := d';
      forall g | 0 <= g < geo.groups ensures GroupFull(geo, full, g) { assert GroupFull(geo, d, g); }
    }
  }

  /** Writing to a block that is in no file. */
  lemma {:induction false} StrayWritten(geo: Geometry, d: Disk, table: map<Slot, Inode>, files: map<nat, File>, n: nat,
                                        b: Block)
    requires Sound(geo, d, table, files) && InData(geo, n) && Free(files, n) && |b| == geo.BlockSize()
    ensures Sound(geo, d[n := b], table, files) && BitsKept(geo, d, d[n := b])
            && forall j {:trigger Text(d[n := b], DataOf(files[j]))} :: j in files
                ==> Text(d[n := b], DataOf(files[j])) == Text(d, DataOf(files[j]))
  {
    var d' := d[n := b];
    DataBits(geo, d, d', n);
    forall j | j in files ensures HoldsFile(geo, d', table, j, files[j])
        && Text(d', DataOf(files[j])) == Text(d, DataOf(files[j])) {
      assert HoldsFile(geo, d, table, j, files[j]);
      PointersOwned(files[j]);
      FileStays(geo, d, d', files[j]);
      SameText(d, d', DataOf(files[j]));
    }
  }

  lemma {:induction false} DataSound(geo: Geometry, d: Disk, d': Disk, table: map<Slot, Inode>, files: map<nat, File>,
                                     i: nat, n: nat)
    requires Sound(geo, d, table, files) && i in files && n in DataOf(files[i]) && Formatted(geo, d')
    requires forall x :: 0 <= x < |d| && x != n ==> d'[x] == d[x]
    requires BitsKept(geo, d, d')
    ensures Sound(geo, d', table, files)
  {
    forall j | j in files ensures HoldsFile(geo, d', table, j, files[j]) {
      assert HoldsFile(geo, d, table, j, files[j]);
      DataAlone(geo, d, table, files, i, n, j);
      FileStays(geo, d, d', files[j]);
    }
  }

  /** The size in an inode does not matter to where its blocks are. */
  lemma {:induction false} SizeSound(geo: Geometry, d: Disk, table: map<Slot, Inode>, files: map<nat, File>, i: nat,
                                     size: u32)
    requires Sound(geo, d, table, files) && i in files
    ensures i >= 1 && geo.Sane() && SlotOf(geo, i) in table
    ensures Sound(geo, d, table[SlotOf(geo, i) := table[SlotOf(geo, i)].(size := size)], files)
  {
    FileView(geo, d, table, files, i);
    var table' := table[SlotOf(geo, i) := table[SlotOf(geo, i)].(size := size)];
    forall j | j in files ensures HoldsFile(geo, d, table', j, files[j]) {
      assert HoldsFile(geo, d, table, j, files[j]);
      if SlotOf(geo, j) == SlotOf(geo, i) { SlotsApart(geo, i, j); }
    }
  }

  /** What the blocks of file `j` hold. */
  ghost function FileText(fs: Ext2Fs, j: nat): seq<byte>
    requires j in fs.files
    reads fs`disk, fs`files
  {
    Text(fs.disk, DataOf(fs.files[j]))
  }

  lemma {:induction false} TextLength(fs: Ext2Fs, i: nat, bnum: seq<nat>)
    requires fs.Valid() && i in fs.files && bnum == DataOf(fs.files[i])
    ensures fs.geo.BlockSize() > 0 && |FileText(fs, i)| == |bnum| * fs.geo.BlockSize()
            && Sized(fs.disk, bnum, fs.geo.BlockSize())
    ensures forall n :: n in bnum ==> n < |fs.disk|
  {
    DataBlocks(fs.geo, fs.disk, fs.table, fs.files, i);
    TextSize(fs.disk, bnum, fs.geo.BlockSize());
  }

  // ----- reading -----

  /** `block_read` of block `q` of a file. */
  method ReadBlock(d: Disk, bnum: seq<nat>, size: nat, q: nat, ghost lo: nat) returns (b: Block)
    requires Sized(d, bnum, size) && q < |bnum| && bnum[q] < |d| && lo == q * size
    ensures lo + size <= |Text(d, bnum)| && b == Text(d, bnum)[lo..lo + size] && |b| == size
  {
    BlockIn(d, bnum, size, q, lo);
    b := d[bnum[q]];
  }

  lemma {:induction false} SliceMore(c: seq<byte>, from: nat, mid: nat, to: nat)
    requires from <= mid <= to <= |c|
    ensures c[from..mid] + c[mid..to] == c[from..to]
  {
  }

  lemma {:induction false} SliceLess(c: seq<byte>, lo: nat, hi: nat, from: nat, to: nat)
    requires lo <= from <= to <= hi <= |c|
    ensures c[lo..hi][from - lo..to - lo] == c[from..to]
  {
    forall k | 0 <= k < to - from ensures c[lo..hi][from - lo..to - lo][k] == c[from..to][k] { }
  }

  /** The part of `ext2_read` from the second block on: `left` bytes are still wanted. */
  method ReadOn(d: Disk, bnum: seq<nat>, size: nat, first: nat, left: nat, ghost from: nat) returns (out: seq<byte>)
    requires size > 0 && Sized(d, bnum, size) && (forall n :: n in bnum ==> n < |d|) && |Text(d, bnum)| == |bnum| * size
    requires from == first * size && from + left <= |Text(d, bnum)|
    ensures out == Text(d, bnum)[from..from + left]
  {
    ghost var c := Text(d, bnum);
    var count, rest := Divide(left, size);
    ghost var lo: nat, todo: nat := from, left;
    var b: nat, block := first, [];
    out := [];
    while count > 0
      invariant AtBlock(b, size, lo, count, rest, todo) && lo + todo == from + left && from <= lo && out == c[from..lo]
    {
      NextBlock(b, size, lo, count, rest, todo, |bnum|);
      block := ReadBlock(d, bnum, size, b, lo);
      SliceMore(c, from, lo, lo + size);
      out := out + block;
      lo, b, todo, count := lo + size, b + 1, todo - size, count - 1;
    }
    NextBlock(b, size, lo, 0, rest, todo, |bnum|);
    if rest != 0 {
      block := ReadBlock(d, bnum, size, b, lo);
      SliceLess(c, lo, lo + size, lo, lo + rest);
      SliceMore(c, from, lo, lo + rest);
      out := out + block[..rest];
    }
  }

  /** What is read of the first block, and what is read behind it. */
  lemma {:induction false} FirstRead(c: seq<byte>, lo: nat, hi: nat, offset: nat, to: nat, block: seq<byte>)
    requires lo <= offset <= hi <= |c| && block == c[lo..hi] && offset <= to
    ensures to <= hi ==> block[offset - lo..to - lo] == c[offset..to]
    ensures hi <= to <= |c| ==> block[offset - lo..] + c[hi..to] == c[offset..to]
  {
    if to <= hi { SliceLess(c, lo, hi, offset, to); }
    if hi <= to <= |c| {
      SliceLess(c, lo, hi, offset, hi);
      SliceMore(c, offset, hi, to);
    }
  }

  method ReadBlocks(d: Disk, bnum: seq<nat>, size: nat, offset: nat, length: nat) returns (out: seq<byte>)
    requires size > 0 && Sized(d, bnum, size) && (forall n :: n in bnum ==> n < |d|) && |Text(d, bnum)| == |bnum| * size
    requires offset < |Text(d, bnum)| && offset + length <= |Text(d, bnum)|
    ensures out == Text(d, bnum)[offset..offset + length]
  {
    var b, begin := Divide(offset, size);
    ghost var c, lo, to := Text(d, bnum), offset - begin, offset + length;
    BlockBefore(b, size, lo, |bnum|);
    var block := ReadBlock(d, bnum, size, b, lo);
    FirstRead(c, lo, lo + size, offset, to, block);
    if begin + length < size {
      out := block[begin..begin + length];
    } else {
      out := ReadOn(d, bnum, size, b + 1, length - (size - begin), lo + size);
      out := block[begin..] + out;
    }
  }

  /** `ext2_read`: it fails only behind the end of the file. The range has to lie within the blocks that the file
      has. */
  method Read(fs: Ext2Fs, i: nat, offset: nat, length: nat) returns (ok: bool, out: seq<byte>)
    requires fs.Valid() && i in fs.files && i >= 1 && SlotOf(fs.geo, i) in fs.table
    requires offset <= fs.table[SlotOf(fs.geo, i)].size ==>
               offset < |FileText(fs, i)| && offset + length <= |FileText(fs, i)|
    ensures ok <==> offset <= fs.table[SlotOf(fs.geo, i)].size
    ensures ok ==> out == FileText(fs, i)[offset..offset + length]
  {
    var inode, bnum := fs.GetDataBlocks(i);
    ok, out := offset <= inode.size, [];
    if ok {
      TextLength(fs, i, bnum);
      out := ReadBlocks(fs.disk, bnum, fs.geo.BlockSize(), offset, length);
    }
  }

  // ----- writing to blocks that are there -----

  lemma {:induction false} OthersThen(d: Disk, d1: Disk, d2: Disk, files: map<nat, File>, i: nat)
    requires OthersKept(d, d1, files, i) && OthersKept(d1, d2, files, i)
    ensures OthersKept(d, d2, files, i)
  {
  }

  lemma {:induction false} BitsThen(geo: Geometry, d: Disk, d1: Disk, d2: Disk)
    requires BitsKept(geo, d, d1) && BitsKept(geo, d1, d2)
    ensures BitsKept(geo, d, d2)
  {
  }

  /** `done` bytes of the buffer have been written to file `i`, which held `c` on the disk `d`. */
  ghost predicate Writing(geo: Geometry, d: Disk, d1: Disk, table: map<Slot, Inode>, files: map<nat, File>, i: nat,
                          c: seq<byte>, offset: nat, buffer: seq<byte>, done: nat) {
    && Sound(geo, d1, table, files) && i in files && OthersKept(d, d1, files, i) && BitsKept(geo, d, d1)
    && done <= |buffer| && offset + |buffer| <= |c| && Partly(Text(d1, DataOf(files[i])), c, offset, buffer, done)
  }

  /** All of it has been written, and `gap` zeros behind it. */
  ghost predicate AllWritten(geo: Geometry, d: Disk, d1: Disk, table: map<Slot, Inode>, files: map<nat, File>, i: nat,
                             c: seq<byte>, offset: nat, buffer: seq<byte>, gap: nat) {
    && Sound(geo, d1, table, files) && i in files && OthersKept(d, d1, files, i) && BitsKept(geo, d, d1)
    && offset + |buffer| + gap <= |c| && Text(d1, DataOf(files[i])) == Overwritten(c, offset, buffer, gap)
  }

  lemma {:induction false} WritingAll(geo: Geometry, d: Disk, d1: Disk, table: map<Slot, Inode>, files: map<nat, File>,
                                      i: nat, c: seq<byte>, offset: nat, buffer: seq<byte>)
    requires Writing(geo, d, d1, table, files, i, c, offset, buffer, |buffer|)
    ensures AllWritten(geo, d, d1, table, files, i, c, offset, buffer, 0)
  {
    PartlyAll(Text(d1, DataOf(files[i])), c, offset, buffer);
  }

  /** Block `b` of the file, which begins at byte `lo`, becomes `part`. */
  lemma {:induction false} PartWritten(geo: Geometry, d: Disk, d1: Disk, table: map<Slot, Inode>, files: map<nat, File>,
                                       i: nat, b: nat, lo: nat, part: Block, n: nat, w: seq<byte>)
    requires Sound(geo, d1, table, files) && i in files && OthersKept(d, d1, files, i) && BitsKept(geo, d, d1)
    requires b < |DataOf(files[i])| && lo == b * geo.BlockSize() && |part| == geo.BlockSize()
             && n == DataOf(files[i])[b] && w == Text(d1, DataOf(files[i]))
    ensures n < |d1| && lo + |part| <= |w|
    ensures var d2 := d1[n := part];
            && Sound(geo, d2, table, files) && OthersKept(d, d2, files, i) && BitsKept(geo, d, d2)
            && Text(d2, DataOf(files[i])) == w[..lo] + part + w[lo + |part|..]
  {
    DataWritten(geo, d1, table, files, i, b, lo, part);
    OthersThen(d, d1, d1[n := part], files, i);
    BitsThen(geo, d, d1, d1[n := part]);
  }

  /** The next whole block of the buffer. */
  lemma {:induction false} WritingNext(geo: Geometry, d: Disk, d1: Disk, table: map<Slot, Inode>, files: map<nat, File>,
                                       i: nat, c: seq<byte>, offset: nat, buffer: seq<byte>, done: nat, b: nat,
                                       size: nat)
    requires Writing(geo, d, d1, table, files, i, c, offset, buffer, done) && size == geo.BlockSize()
    requires b < |DataOf(files[i])| && offset + done == b * size && done + size <= |buffer|
    ensures var n := DataOf(files[i])[b];
            n < |d1| && Writing(geo, d, d1[n := buffer[done..done + size]], table, files, i, c, offset, buffer,
                done + size)
  {
    var w := Text(d1, DataOf(files[i]));
    PartWritten(geo, d, d1, table, files, i, b, offset + done, buffer[done..done + size], DataOf(files[i])[b], w);
    PutNext(w, c, offset, buffer, done, size);
  }

  /** The last bytes of the buffer. */
  lemma {:induction false} WritingLast(geo: Geometry, d: Disk, d1: Disk, table: map<Slot, Inode>, files: map<nat, File>,
                                       i: nat, c: seq<byte>, offset: nat, buffer: seq<byte>, done: nat, b: nat,
                                       gap: nat)
    requires Writing(geo, d, d1, table, files, i, c, offset, buffer, done)
    requires b < |DataOf(files[i])| && offset + done == b * geo.BlockSize() && |buffer| - done + gap == geo.BlockSize()
             && offset + |buffer| + gap <= |c|
    ensures var n := DataOf(files[i])[b];
            n < |d1| && AllWritten(geo, d, d1[n := buffer[done..] + Zeros(gap)], table, files, i, c, offset, buffer,
                gap)
  {
    var w := Text(d1, DataOf(files[i]));
    PartWritten(geo, d, d1, table, files, i, b, offset + done, buffer[done..] + Zeros(gap), DataOf(files[i])[b], w);
    PutLast(w, c, offset, buffer, done, gap);
  }

  /** Block `b` of a file, and where it is in what the file holds. */
  lemma {:induction false} BlockView(geo: Geometry, d: Disk, table: map<Slot, Inode>, files: map<nat, File>, i: nat,
                                     b: nat, lo: nat)
    requires Sound(geo, d, table, files) && i in files && b < |DataOf(files[i])| && lo == b * geo.BlockSize()
    ensures var (n, c) := (DataOf(files[i])[b], Text(d, DataOf(files[i])));
            n < |d| && |d[n]| == geo.BlockSize() && lo + geo.BlockSize() <= |c| && d[n] == c[lo..lo + geo.BlockSize()]
  {
    DataBlocks(geo, d, table, files, i);
    BlockIn(d, DataOf(files[i]), geo.BlockSize(), b, lo);
  }

  /** The first block, up to its end or to the end of the buffer. */
  lemma {:induction false} WritingFirst(geo: Geometry, d: Disk, table: map<Slot, Inode>, files: map<nat, File>, i: nat,
                                        b: nat, begin: nat, buffer: seq<byte>, done: nat, lo: nat, block: Block,
                                        part: Block)
    requires Sound(geo, d, table, files) && i in files && b < |DataOf(files[i])| && lo == b * geo.BlockSize()
             && |block| == geo.BlockSize()
    requires DataOf(files[i])[b] < |d| && block == d[DataOf(files[i])[b]] && begin + done <= |block| && done <= |buffer|
    requires part == block[..begin] + buffer[..done] + block[begin + done..]
    requires done <= |buffer| && begin + done <= geo.BlockSize() && lo + begin + |buffer| <= |Text(d, DataOf(files[i]))|
    ensures Writing(geo, d, d[DataOf(files[i])[b] := part], table, files, i, Text(d, DataOf(files[i])), lo + begin,
            buffer, done)
  {
    var c := Text(d, DataOf(files[i]));
    BlockView(geo, d, table, files, i, b, lo);
    DataWritten(geo, d, table, files, i, b, lo, part);
    PutFirst(c, lo, geo.BlockSize(), begin, buffer, done);
  }

  /** `block_write` of block `b` of a file. */
  method WriteBlock(fs: Ext2Fs, bnum: seq<nat>, b: nat, block: Block)
    requires b < |bnum| && bnum[b] < |fs.disk|
    modifies fs`disk
    ensures fs.disk == old(fs.disk)[bnum[b] := block]
  {
    fs.disk := fs.disk[bnum[b] := block];
  }

  method WriteNext(fs: Ext2Fs, i: nat, bnum: seq<nat>, b: nat, ghost n: nat, ghost rest: nat, buffer: seq<byte>,
                   at: nat, ghost d: Disk, ghost c: seq<byte>, ghost offset: nat)
    returns (at': nat)
    requires Writing(fs.geo, d, fs.disk, fs.table, fs.files, i, c, offset, buffer, at) && bnum == DataOf(fs.files[i])
    requires AtBlock(b, fs.geo.BlockSize(), offset + at, n, rest, |buffer| - at) && |c| == |bnum| * fs.geo.BlockSize()
             && n > 0
    modifies fs`disk
    ensures at' <= |buffer| && Writing(fs.geo, d, fs.disk, fs.table, fs.files, i, c, offset, buffer, at')
    ensures AtBlock(b + 1, fs.geo.BlockSize(), offset + at', n - 1, rest, |buffer| - at')
  {
    var size := fs.geo.BlockSize();
    NextBlock(b, size, offset + at, n, rest, |buffer| - at, |bnum|);
    WritingNext(fs.geo, d, fs.disk, fs.table, fs.files, i, c, offset, buffer, at, b, size);
    fs.disk := fs.disk[bnum[b] := buffer[at..at + size]];
    at' := at + size;
  }

  /** The loop of `ext2_write`: `count` whole blocks from block `first` on, after `done` bytes. */
  method WriteWhole(fs: Ext2Fs, i: nat, bnum: seq<nat>, first: nat, count: nat, rest: nat, buffer: seq<byte>, done: nat,
                    ghost d: Disk, ghost c: seq<byte>, ghost offset: nat)
    returns (b: nat, at: nat)
    requires Writing(fs.geo, d, fs.disk, fs.table, fs.files, i, c, offset, buffer, done) && bnum == DataOf(fs.files[i])
    requires AtBlock(first, fs.geo.BlockSize(), offset + done, count, rest, |buffer| - done)
             && |c| == |bnum| * fs.geo.BlockSize()
    modifies fs`disk
    ensures Writing(fs.geo, d, fs.disk, fs.table, fs.files, i, c, offset, buffer, at)
    ensures AtBlock(b, fs.geo.BlockSize(), offset + at, 0, rest, |buffer| - at)
  {
    var size := fs.geo.BlockSize();
    var n: nat := count;
    b, at := first, done;
    while n > 0
      invariant fs.table == old(fs.table) && fs.files == old(fs.files) && at <= |buffer|
      invariant Writing(fs.geo, d, fs.disk, fs.table, fs.files, i, c, offset, buffer, at)
                && AtBlock(b, size, offset + at, n, rest, |buffer| - at)
    {
      at := WriteNext(fs, i, bnum, b, n, rest, buffer, at, d, c, offset);
      b, n := b + 1, n - 1;
    }
  }

  /** The end of `ext2_write`: the last `rest` bytes, in a block of their own. */
  method WriteRest(fs: Ext2Fs, i: nat, bnum: seq<nat>, b: nat, rest: nat, buffer: seq<byte>, at: nat, ghost d: Disk,
                   ghost c: seq<byte>, ghost offset: nat)
    requires Writing(fs.geo, d, fs.disk, fs.table, fs.files, i, c, offset, buffer, at) && bnum == DataOf(fs.files[i])
    requires AtBlock(b, fs.geo.BlockSize(), offset + at, 0, rest, |buffer| - at) && 0 < rest < fs.geo.BlockSize()
             && |c| == |bnum| * fs.geo.BlockSize()
    requires offset + |buffer| + (fs.geo.BlockSize() - rest) <= |c|
    modifies fs`disk
    ensures AllWritten(fs.geo, d, fs.disk, fs.table, fs.files, i, c, offset, buffer, fs.geo.BlockSize() - rest)
  {
    var size := fs.geo.BlockSize();
    NextBlock(b, size, offset + at, 0, rest, |buffer| - at, |bnum|);
    WritingLast(fs.geo, d, fs.disk, fs.table, fs.files, i, c, offset, buffer, at, b, size - rest);
    WriteBlock(fs, bnum, b, buffer[at..] + Zeros(size - rest));
  }

  /** The part of `ext2_write` from the second block on. */
  method WriteOn(fs: Ext2Fs, i: nat, bnum: seq<nat>, first: nat, count: nat, rest: nat, buffer: seq<byte>, done: nat,
                 ghost d: Disk, ghost c: seq<byte>, ghost offset: nat, ghost gap: nat)
    requires Writing(fs.geo, d, fs.disk, fs.table, fs.files, i, c, offset, buffer, done) && bnum == DataOf(fs.files[i])
    requires AtBlock(first, fs.geo.BlockSize(), offset + done, count, rest, |buffer| - done)
             && rest < fs.geo.BlockSize() && |c| == |bnum| * fs.geo.BlockSize()
    requires gap == (if rest == 0 then 0 else fs.geo.BlockSize() - rest) && offset + |buffer| + gap <= |c|
    modifies fs`disk
    ensures AllWritten(fs.geo, d, fs.disk, fs.table, fs.files, i, c, offset, buffer, gap)
  {
    var b, at := WriteWhole(fs, i, bnum, first, count, rest, buffer, done, d, c, offset);
    if rest == 0 {
      WritingAll(fs.geo, d, fs.disk, fs.table, fs.files, i, c, offset, buffer);
      return;
    }
    WriteRest(fs, i, bnum, b, rest, buffer, at, d, c, offset);
  }

  /** The first block, from byte `begin` on: the first `done` bytes of the buffer. */
  method WriteFirst(fs: Ext2Fs, i: nat, bnum: seq<nat>, b: nat, begin: nat, buffer: seq<byte>, done: nat, ghost lo: nat)
    requires fs.Valid() && i in fs.files && bnum == DataOf(fs.files[i]) && b < |bnum| && lo == b * fs.geo.BlockSize()
    requires done <= |buffer| && begin + done <= fs.geo.BlockSize() && lo + begin + |buffer| <= |FileText(fs, i)|
    modifies fs`disk
    ensures Writing(fs.geo, old(fs.disk), fs.disk, fs.table, fs.files, i, old(FileText(fs, i)), lo + begin, buffer,
            done)
  {
    BlockView(fs.geo, fs.disk, fs.table, fs.files, i, b, lo);
    var block := fs.disk[bnum[b]];
    var part := block[..begin] + buffer[..done] + block[begin + done..];
    WritingFirst(fs.geo, fs.disk, fs.table, fs.files, i, b, begin, buffer, done, lo, block, part);
    WriteBlock(fs, bnum, b, part);
  }

  /** `ext2_write` for a file that has the blocks. */
  method WriteBlocks(fs: Ext2Fs, i: nat, bnum: seq<nat>, offset: nat, buffer: seq<byte>)
    requires fs.Valid() && i in fs.files && bnum == DataOf(fs.files[i]) && |buffer| > 0
    requires BlocksFor(offset + |buffer|, fs.geo.BlockSize()) <= |bnum|
    modifies fs`disk
    ensures AllWritten(fs.geo, old(fs.disk), fs.disk, fs.table, fs.files, i, old(FileText(fs, i)), offset, buffer,
            Gap(offset, |buffer|, fs.geo.BlockSize()))
  {
    var size := fs.geo.BlockSize();
    ghost var d, c := fs.disk, FileText(fs, i);
    TextLength(fs, i, bnum);
    GapFits(offset, |buffer|, size, |bnum|);
    var b, begin := Divide(offset, size);
    BlockBefore(b, size, offset - begin, |bnum|);
    if begin + |buffer| < size {
      FirstHolds(offset, b, begin, |buffer|, size);
      WriteFirst(fs, i, bnum, b, begin, buffer, |buffer|, offset - begin);
      WritingAll(fs.geo, d, fs.disk, fs.table, fs.files, i, c, offset, buffer);
      return;
    }
    var count, rest := Divide(begin + |buffer|, size);
    FirstEnds(offset, b, begin, |buffer|, size, count, rest);
    WriteAcross(fs, i, bnum, b, begin, buffer, count - 1, rest, offset - begin, Gap(offset, |buffer|, size));
  }

  /** The buffer reaches the end of its first block, `b`, and goes on into `count` whole blocks and `rest` bytes of
      one. */
  method WriteAcross(fs: Ext2Fs, i: nat, bnum: seq<nat>, b: nat, begin: nat, buffer: seq<byte>, count: nat, rest: nat,
                     ghost lo: nat, ghost gap: nat)
    requires fs.Valid() && i in fs.files && bnum == DataOf(fs.files[i]) && b < |bnum| && lo == b * fs.geo.BlockSize()
    requires begin <= fs.geo.BlockSize() <= begin + |buffer| && rest < fs.geo.BlockSize()
             && |FileText(fs, i)| == |bnum| * fs.geo.BlockSize()
    requires AtBlock(b + 1, fs.geo.BlockSize(), lo + fs.geo.BlockSize(), count, rest,
             begin + |buffer| - fs.geo.BlockSize())
    requires gap == (if rest == 0 then 0 else fs.geo.BlockSize() - rest)
             && lo + begin + |buffer| + gap <= |FileText(fs, i)|
    modifies fs`disk
    ensures AllWritten(fs.geo, old(fs.disk), fs.disk, fs.table, fs.files, i, old(FileText(fs, i)), lo + begin, buffer,
            gap)
  {
    var done := fs.geo.BlockSize() - begin;
    ghost var d, c := fs.disk, FileText(fs, i);
    WriteFirst(fs, i, bnum, b, begin, buffer, done, lo);
    WriteOn(fs, i, bnum, b + 1, count, rest, buffer, done, d, c, lo + begin, gap);
  }

  // ----- growing -----

  function MaxBlocks(fan: nat): nat { Base(fan, 3) + Cap(fan, 3) }

  /** From the disk `d` with the table `t` and the files `f` to `d'`, `t'` and `f'`, file `i` has got `n` blocks of
      zeros behind what it held; the other files are as they were. */
  ghost predicate Grown(geo: Geometry, d: Disk, t: map<Slot, Inode>, f: map<nat, File>, d': Disk, t': map<Slot, Inode>,
                        f': map<nat, File>, i: nat, n: nat) {
    && Sound(geo, d', t', f') && i in f && i in f' && f' == f[i := f'[i]] && OthersKept(d, d', f, i)
    && Text(d', DataOf(f'[i])) == Text(d, DataOf(f[i])) + ZeroBlocks(n, geo.BlockSize())
    && i >= 1 && geo.Sane() && SlotOf(geo, i) in t && SlotOf(geo, i) in t'
    && SameFile(t[SlotOf(geo, i)], t'[SlotOf(geo, i)]) && t' == t[SlotOf(geo, i) := t'[SlotOf(geo, i)]]
  }

  lemma {:induction false} GrownThen(geo: Geometry, d: Disk, t: map<Slot, Inode>, f: map<nat, File>, d1: Disk,
                                     t1: map<Slot, Inode>, f1: map<nat, File>,
                                     d2: Disk, t2: map<Slot, Inode>, f2: map<nat, File>, i: nat, n: nat, m: nat)
    requires Grown(geo, d, t, f, d1, t1, f1, i, n) && Grown(geo, d1, t1, f1, d2, t2, f2, i, m) && m <= 1
    ensures Grown(geo, d, t, f, d2, t2, f2, i, n + m)
  {
    ZerosMore(Text(d, DataOf(f[i])), n, m, geo.BlockSize());
    OthersAfter(d, d1, d2, f, f1, i);
    PutTwice(f, i, f1[i], f2[i]);
    var slot := SlotOf(geo, i);
    PutTwice(t, slot, t1[slot], t2[slot]);
  }

  lemma {:induction false} PutTwice<A, B>(m: map<A, B>, a: A, b: B, b': B)
    ensures m[a := b][a := b'] == m[a := b']
  {
  }

  lemma {:induction false} OthersAfter(d: Disk, d1: Disk, d2: Disk, f: map<nat, File>, f1: map<nat, File>, i: nat)
    requires OthersKept(d, d1, f, i) && OthersKept(d1, d2, f1, i) && i in f1 && f1 == f[i := f1[i]]
    ensures OthersKept(d, d2, f, i)
  {
    forall j | j in f && j != i ensures Text(d2, DataOf(f[j])) == Text(d, DataOf(f[j])) {
      assert j in f1 && f1[j] == f[j];
      assert Text(d2, DataOf(f1[j])) == Text(d1, DataOf(f1[j]));
    }
  }

  /** The mode is the same, and the size, but for a directory. */
  predicate SameFile(inode: Inode, inode': Inode)
  {
    inode'.mode == inode.mode && (!IsDirectory(inode) ==> inode'.size == inode.size)
  }

  lemma {:induction false} TextsKept(geo: Geometry, d: Disk, d': Disk, table: map<Slot, Inode>, files: map<nat, File>,
                                     i: nat)
    requires Sound(geo, d, table, files) && i in files && KeptBut(geo, d, d', PointersOf(files[i]))
    ensures OthersKept(d, d', files, i) && Text(d', DataOf(files[i])) == Text(d, DataOf(files[i]))
  {
    TextKept(geo, d, d', table, files, i, i);
    forall j | j in files && j != i ensures Text(d', DataOf(files[j])) == Text(d, DataOf(files[j])) {
      TextKept(geo, d, d', table, files, i, j);
    }
  }

  /** A fresh block, taken and put behind the blocks of file `i`. */
  lemma {:induction false} GrownText(geo: Geometry, d: Disk, d1: Disk, d2: Disk, table: map<Slot, Inode>,
                                     files: map<nat, File>, i: nat, b: nat, ns: seq<nat>)
    requires Sound(geo, d, table, files) && i in files && KeptBut(geo, d, d2, PointersOf(files[i]))
             && ns == DataOf(files[i]) + [b]
    requires Formatted(geo, d1) && InUse(geo, d1, b) && d1[b] == Zeros(geo.BlockSize()) && Free(files, b)
             && KeptBut(geo, d1, d2, PointersOf(files[i]))
    ensures OthersKept(d, d2, files, i) && Text(d2, ns) == Text(d, DataOf(files[i])) + ZeroBlocks(1, geo.BlockSize())
  {
    assert ZeroBlocks(1, geo.BlockSize()) == [] + Zeros(geo.BlockSize());
    TextsKept(geo, d, d2, table, files, i);
    OneMore(d2, DataOf(files[i]), b);
    PointersOwned(files[i]);
    InUseBounds(geo, d1, b);
    assert d2[b] == d1[b];
  }

  lemma {:induction false} ZerosMore(a: seq<byte>, n: nat, m: nat, size: nat)
    requires m <= 1
    ensures a + ZeroBlocks(n, size) + ZeroBlocks(m, size) == a + ZeroBlocks(n + m, size)
  {
    if m == 1 {
      assert ZeroBlocks(m, size) == [] + Zeros(size);
      assert a + ZeroBlocks(n, size) + Zeros(size) == a + (ZeroBlocks(n, size) + Zeros(size));
    }
  }

  lemma {:induction false} TextsSelf(geo: Geometry, d: Disk, table: map<Slot, Inode>, files: map<nat, File>, i: nat)
    requires Sound(geo, d, table, files) && i in files
    ensures i >= 1 && geo.Sane() && SlotOf(geo, i) in table && files == files[i := files[i]]
            && table == table[SlotOf(geo, i) := table[SlotOf(geo, i)]]
    ensures OthersKept(d, d, files, i) && Text(d, DataOf(files[i])) + ZeroBlocks(0, geo.BlockSize()) ==
            Text(d, DataOf(files[i]))
  {
    FileView(geo, d, table, files, i);
  }

  lemma {:induction false} KeptTwice(geo: Geometry, d: Disk, d1: Disk, d2: Disk, changed: seq<nat>)
    requires Formatted(geo, d) && Kept(geo, d, d1) && KeptBut(geo, d1, d2, changed)
    ensures KeptBut(geo, d, d2, changed)
  {
    forall x: nat | InUse(geo, d, x) ensures InUse(geo, d2, x) && (x !in changed ==> d2[x] == d[x]) {
      assert InUse(geo, d1, x);
    }
  }

  /** What a fresh block and the pointers to it have taken. */
  lemma {:induction false} GrownNext(geo: Geometry, d: Disk, t: map<Slot, Inode>, f: map<nat, File>, d1: Disk, d2: Disk,
                                     t2: map<Slot, Inode>, f2: map<nat, File>, i: nat, start: nat, b: nat,
                                     added: seq<nat>)
    requires Sound(geo, d, t, f) && Sound(geo, d2, t2, f2) && i in f && i in f2 && Appended(f[i], f2[i], added, b)
    requires Kept(geo, d, d1) && KeptBut(geo, d1, d2, PointersOf(f[i])) && forall n :: n in added ==> !InUse(geo, d1, n)
    requires FreeSize(geo, d) == FreeSize(geo, d1) + 1 && FreeSize(geo, d1) == FreeSize(geo, d2) + |added|
             && FirstFree(geo, FreeBlocks(geo, d), start, b)
    ensures GotNext(geo, d, f[i], d2, f2[i], start, b)
  {
    forall x: nat | InUse(geo, d, x) ensures InUse(geo, d2, x) { assert InUse(geo, d1, x); }
    assert HoldsFile(geo, d, t, i, f[i]) && HoldsFile(geo, d2, t2, i, f2[i]);
    GotNextIs(geo, d, f[i], d2, f2[i], start, b, added);
  }

  /** One more block for file `i`, from the first group that has one, beginning with `start`. If it cannot be put behind
      the others, it stays taken. */
  method GrowOne(fs: Ext2Fs, i: nat, start: nat) returns (ok: bool, group: nat, b: nat)
    requires fs.Valid() && i in fs.files && start < fs.geo.groups
    requires |DataOf(fs.files[i])| < MaxBlocks(fs.geo.fan) && (i - 1) / fs.geo.inodesPerGroup < fs.geo.groups
    modifies fs
    ensures group < fs.geo.groups && fs.Valid() && Grown(fs.geo, old(fs.disk), old(fs.table), old(fs.files), fs.disk,
            fs.table, fs.files, i, if ok then 1 else 0)
    ensures DataOf(fs.files[i]) == DataOf(old(fs.files)[i]) + (if ok then [b] else [])
    ensures ok ==> b != 0 && var inode := fs.table[SlotOf(fs.geo, i)];
                   inode == Longer(old(fs.table)[SlotOf(fs.geo, i)]).(block := inode.block)
    ensures fs.Books() == old(fs.Books()) && (b == 0 <==> old(fs.Spare()) == 0)
    ensures Paid(NeedOne(fs.geo.fan, |DataOf(old(fs.files)[i])|), ok, old(fs.Spare()), fs.Spare())
    ensures !ok ==> DiskFull(fs.geo, fs.disk) && fs.table == old(fs.table) && fs.files == old(fs.files)
    ensures !ok && b != 0 ==> InUse(fs.geo, fs.disk, b) && Free(fs.files, b)
    ensures !ok && b == 0 ==> fs.disk == old(fs.disk)
    ensures b != 0 ==> b < fs.geo.Total() && group == fs.geo.GroupOf(b)
                       && FirstFree(fs.geo, FreeBlocks(fs.geo, old(fs.disk)), start, b)
    ensures ok ==> GotNext(fs.geo, old(fs.disk), old(fs.files)[i], fs.disk, fs.files[i], start, b)
  {
    ghost var d, t, f := fs.disk, fs.table, fs.files;
    TextsSelf(fs.geo, d, t, f, i);
    ghost var added;
    b, group := fs.TakeBlock(start);
    ghost var d1 := fs.disk;
    if b == 0 {
      return false, group, b;
    }
    InUseBounds(fs.geo, d1, b);
    ok, added := fs.SetInodeBlock(i, b);
    KeptTwice(fs.geo, d, d1, fs.disk, PointersOf(f[i]));
    if ok {
      GrownText(fs.geo, d, d1, fs.disk, t, f, i, b, DataOf(fs.files[i]));
      GrownNext(fs.geo, d, t, f, d1, fs.disk, fs.table, fs.files, i, start, b, added);
    } else {
      TextsKept(fs.geo, d, fs.disk, t, f, i);
      assert InUse(fs.geo, d1, b);
    }
  }

  lemma {:induction false} TurnsOn(geo: Geometry, d: Disk, f0: File, d1: Disk, t1: map<Slot, Inode>,
                                   f1: map<nat, File>, d2: Disk, f2: File, i: nat, start: nat, at: nat, b: nat)
    requires Sound(geo, d1, t1, f1) && i in f1 && Turns(geo, d, f0, d1, f1[i], start, at)
             && GotNext(geo, d1, f1[i], d2, f2, at, b)
    ensures b < geo.Total() && Turns(geo, d, f0, d2, f2, start, geo.GroupOf(b))
  {
    assert HoldsFile(geo, d1, t1, i, f1[i]);
    TurnsNext(geo, d, f0, d1, f1[i], d2, f2, start, at, b);
  }

  /** Another block after the `n` that file `i` has got already; the search begins with group `at`. */
  method GrowNext(fs: Ext2Fs, i: nat, at: nat, ghost start: nat, ghost d: Disk, ghost t: map<Slot, Inode>,
                  ghost f: map<nat, File>, ghost n: nat)
    returns (ok: bool, group: nat, ghost m: nat)
    requires fs.Valid() && at < fs.geo.groups && Grown(fs.geo, d, t, f, fs.disk, fs.table, fs.files, i, n)
             && Turns(fs.geo, d, f[i], fs.disk, fs.files[i], start, at)
    requires |DataOf(fs.files[i])| < MaxBlocks(fs.geo.fan) && (i - 1) / fs.geo.inodesPerGroup < fs.geo.groups
    modifies fs
    ensures fs.Valid() && group < fs.geo.groups && m == (if ok then n + 1 else n)
    ensures Grown(fs.geo, d, t, f, fs.disk, fs.table, fs.files, i, m)
    ensures |DataOf(fs.files[i])| + n == |DataOf(old(fs.files)[i])| + m
    ensures !ok ==> DiskFull(fs.geo, fs.disk)
    ensures fs.Books() == old(fs.Books())
    ensures Paid(NeedOne(fs.geo.fan, |DataOf(old(fs.files)[i])|), ok, old(fs.Spare()), fs.Spare())
    ensures if ok then Turns(fs.geo, d, f[i], fs.disk, fs.files[i], start, group) else fs.files == old(fs.files)
  {
    ghost var d1, t1, f1 := fs.disk, fs.table, fs.files;
    var b;
    ok, group, b := GrowOne(fs, i, at);
    ghost var k := if ok then 1 else 0;
    m := n + k;
    if ok { TurnsOn(fs.geo, d, f[i], d1, t1, f1, fs.disk, fs.files[i], i, start, at, b); }
    GrownThen(fs.geo, d, t, f, d1, t1, f1, fs.disk, fs.table, fs.files, i, n, k);
  }

  lemma {:induction false} GrownSelf(geo: Geometry, d: Disk, t: map<Slot, Inode>, f: map<nat, File>, i: nat,
                                     needs: seq<nat>, spare: nat, start: nat)
    requires Sound(geo, d, t, f) && i in f
    ensures Grown(geo, d, t, f, d, t, f, i, 0) && Took(needs, 0, true, spare, spare)
    ensures Turns(geo, d, f[i], d, f[i], start, start)
  {
    TextsSelf(geo, d, t, f, i);
    assert HoldsFile(geo, d, t, i, f[i]);
    TurnsFrom(geo, d, f[i], start);
  }

  lemma {:induction false} InTurnAll(geo: Geometry, d: Disk, t: map<Slot, Inode>, f: map<nat, File>, d': Disk, i: nat,
                                     f': File, start: nat, group: nat)
    requires Sound(geo, d, t, f) && i in f && Turns(geo, d, f[i], d', f', start, group)
    ensures TakenInTurn(geo, d, f[i], f', start)
  {
    assert HoldsFile(geo, d, t, i, f[i]);
    TurnsTaken(geo, d, f[i], d', f', start, group);
  }

  /** The loop of `ext2_write` that gives file `i` `more` further blocks. */
  method Grow(fs: Ext2Fs, i: nat, more: nat, ghost needs: seq<nat>) returns (ok: bool, got: nat)
    requires fs.Valid() && i in fs.files && i >= 1
    requires |DataOf(fs.files[i])| + more <= MaxBlocks(fs.geo.fan) && (i - 1) / fs.geo.inodesPerGroup < fs.geo.groups
    requires needs == Needs(fs.geo.fan, |DataOf(fs.files[i])|, more)
    modifies fs
    ensures fs.Valid() && Grown(fs.geo, old(fs.disk), old(fs.table), old(fs.files), fs.disk, fs.table, fs.files, i, got)
    ensures |DataOf(fs.files[i])| == |DataOf(old(fs.files)[i])| + got && got <= more
    ensures if ok then got == more else got < more && DiskFull(fs.geo, fs.disk)
    ensures fs.Books() == old(fs.Books()) && Took(needs, got, ok, old(fs.Spare()), fs.Spare())
    ensures TakenInTurn(fs.geo, old(fs.disk), old(fs.files)[i], fs.files[i], (i - 1) / fs.geo.inodesPerGroup)
  {
    ghost var d, t, f, spare := fs.disk, fs.table, fs.files, fs.Spare();
    var group: nat := (i - 1) / fs.geo.inodesPerGroup;
    ghost var start: nat := group;
    GrownSelf(fs.geo, d, t, f, i, needs, spare, start);
    got := 0;
    while got < more
      invariant got <= more && fs.Valid() && group < fs.geo.groups
      invariant Grown(fs.geo, d, t, f, fs.disk, fs.table, fs.files, i, got)
                && |DataOf(fs.files[i])| == |DataOf(f[i])| + got
      invariant fs.Books() == old(fs.Books()) && Took(needs, got, true, spare, fs.Spare())
      invariant Turns(fs.geo, d, f[i], fs.disk, fs.files[i], start, group)
    {
      ghost var left, size, m := fs.Spare(), |DataOf(fs.files[i])|, 0;
      ghost var d1, at := fs.disk, group;
      ok, group, m := GrowNext(fs, i, group, start, d, t, f, got);
      TookOne(fs.geo.fan, |DataOf(f[i])|, more, needs, got, m, size, spare, left, ok, fs.Spare());
      if !ok {
        InTurnAll(fs.geo, d, t, f, d1, i, fs.files[i], start, at);
        return;
      }
      got := got + 1;
    }
    InTurnAll(fs.geo, d, t, f, fs.disk, i, fs.files[i], start, group);
    ok := true;
  }

  // ----- ext2_write -----

  /** How many blocks `ext2_write` adds to a file of `blocks` blocks. */
  method MoreBlocks(blocks: nat, offset: nat, length: nat, size: nat) returns (more: nat)
    requires size > 0
    ensures blocks + more == if blocks >= BlocksFor(offset + length, size) then blocks
            else BlocksFor(offset + length, size)
  {
    var block := (offset + length) / size;
    var end := (offset + length) % size;
    if blocks >= block {
      more := if end > 0 && blocks == block then 1 else 0;
    } else {
      more := if end > 0 then block - blocks + 1 else block - blocks;
    }
  }

  /** File `i` has got `more` blocks of zeros, and then the buffer at `offset`, with zeros behind it if it does not end
      in the block in which it begins; the other files are as they were. */
  ghost predicate Wrote(geo: Geometry, d: Disk, t: map<Slot, Inode>, f: map<nat, File>, d': Disk, t': map<Slot, Inode>,
                        f': map<nat, File>,
                        i: nat, offset: nat, buffer: seq<byte>, more: nat) {
    && Sound(geo, d', t', f') && i in f && i in f' && f' == f[i := f'[i]] && OthersKept(d, d', f, i)
    && geo.BlockSize() > 0
    && var (c, gap) := (Text(d, DataOf(f[i])) + ZeroBlocks(more, geo.BlockSize()),
    Gap(offset, |buffer|, geo.BlockSize()));
       offset + |buffer| + gap <= |c| && Text(d', DataOf(f'[i])) == Overwritten(c, offset, buffer, gap)
  }

  lemma {:induction false} WroteIs(geo: Geometry, d: Disk, t: map<Slot, Inode>, f: map<nat, File>, d1: Disk,
                                   t1: map<Slot, Inode>, f1: map<nat, File>, d2: Disk,
                                   i: nat, offset: nat, buffer: seq<byte>, more: nat, c: seq<byte>)
    requires Grown(geo, d, t, f, d1, t1, f1, i, more) && geo.BlockSize() > 0 && c == Text(d1, DataOf(f1[i]))
    requires AllWritten(geo, d1, d2, t1, f1, i, c, offset, buffer, Gap(offset, |buffer|, geo.BlockSize()))
    ensures Wrote(geo, d, t, f, d2, t1, f1, i, offset, buffer, more)
  {
    OthersAfter(d, d1, d2, f, f1, i);
  }

  lemma {:induction false} NothingWritten(geo: Geometry, d: Disk, t: map<Slot, Inode>, f: map<nat, File>, i: nat,
                                          offset: nat)
    requires Sound(geo, d, t, f) && i in f && geo.BlockSize() > 0
             && BlocksFor(offset, geo.BlockSize()) <= |DataOf(f[i])|
    ensures AllWritten(geo, d, d, t, f, i, Text(d, DataOf(f[i])), offset, [], Gap(offset, 0, geo.BlockSize()))
  {
    var c := Text(d, DataOf(f[i]));
    DataBlocks(geo, d, t, f, i);
    TextSize(d, DataOf(f[i]), geo.BlockSize());
    BlocksHold(offset, geo.BlockSize(), |DataOf(f[i])|);
    assert Overwritten(c, offset, [], 0) == c;
  }

  /** The data blocks of a file that has got all it needs. An empty buffer only puts a block back as it is. */
  method Fill(fs: Ext2Fs, i: nat, offset: nat, buffer: seq<byte>, ghost d: Disk, ghost t: map<Slot, Inode>,
              ghost f: map<nat, File>, ghost more: nat)
    requires fs.Valid() && Grown(fs.geo, d, t, f, fs.disk, fs.table, fs.files, i, more) && fs.geo.BlockSize() > 0
    requires BlocksFor(offset + |buffer|, fs.geo.BlockSize()) <= |DataOf(fs.files[i])|
    modifies fs`disk
    ensures Wrote(fs.geo, d, t, f, fs.disk, fs.table, fs.files, i, offset, buffer, more)
    ensures fs.Books() == old(fs.Books()) && fs.Spare() == old(fs.Spare())
  {
    ghost var d1, c := fs.disk, FileText(fs, i);
    var inode, bnum := fs.GetDataBlocks(i);
    if |buffer| > 0 {
      WriteBlocks(fs, i, bnum, offset, buffer);
    } else {
      NothingWritten(fs.geo, d1, fs.table, fs.files, i, offset);
    }
    WroteIs(fs.geo, d, t, f, d1, fs.table, fs.files, fs.disk, i, offset, buffer, more, c);
    SameFree(fs.geo, d1, fs.disk, fs.groupFree, fs.freeBlocks);
  }

  method SetSize(fs: Ext2Fs, i: nat, size: u32)
    requires fs.Valid() && i in fs.files && i >= 1 && SlotOf(fs.geo, i) in fs.table
    modifies fs`table
    ensures fs.Valid() && fs.table == old(fs.table)[SlotOf(fs.geo, i) :=
            old(fs.table)[SlotOf(fs.geo, i)].(size := size)]
  {
    SizeSound(fs.geo, fs.disk, fs.table, fs.files, i, size);
    var inode := fs.GetInode(i);
    fs.table := fs.table[SlotOf(fs.geo, i) := inode.(size := size)];
  }

  /** `ext2_write`. It succeeds if and only if the offset does not lie behind the end of the file and there are blocks
      enough for all it adds. If it runs out of them the file has the new size, and the blocks that were found. */
  method Write(fs: Ext2Fs, i: nat, offset: nat, buffer: seq<byte>) returns (ok: bool, got: nat)
    requires fs.Valid() && i in fs.files && i >= 1 && SlotOf(fs.geo, i) in fs.table
             && (i - 1) / fs.geo.inodesPerGroup < fs.geo.groups
    requires fs.table[SlotOf(fs.geo, i)].size >= offset ==>
               && offset % fs.geo.BlockSize() + |buffer| < TWO_32
               && BlocksFor(offset + |buffer|, fs.geo.BlockSize()) <= MaxBlocks(fs.geo.fan)
    modifies fs
    ensures fs.Valid() && i in fs.files && SlotOf(fs.geo, i) in fs.table && fs.files == old(fs.files)[i := fs.files[i]]
    ensures |DataOf(fs.files[i])| == |DataOf(old(fs.files)[i])| + got
    ensures OneChanged(fs.geo, old(fs.table), fs.table, i)
    ensures fs.Books() == old(fs.Books())
    ensures var n := |DataOf(old(fs.files)[i])|;
            var all := NeedAll(fs.geo.fan, n, Lacking(n, BlocksFor(offset + |buffer|, fs.geo.BlockSize())));
            && (ok <==> old(fs.table)[SlotOf(fs.geo, i)].size >= offset && old(fs.Spare()) >= all)
            && (ok ==> old(fs.Spare()) == fs.Spare() + all)
    ensures old(fs.table)[SlotOf(fs.geo, i)].size < offset ==>
              !ok && fs.disk == old(fs.disk) && fs.table == old(fs.table) && fs.files == old(fs.files)
    ensures ok ==> Wrote(fs.geo, old(fs.disk), old(fs.table), old(fs.files), fs.disk, fs.table, fs.files, i, offset,
                   buffer, got)
    ensures ok ==> |DataOf(fs.files[i])| == Larger(|DataOf(old(fs.files)[i])|,
                   BlocksFor(offset + |buffer|, fs.geo.BlockSize()))
    ensures old(fs.table)[SlotOf(fs.geo, i)].size >= offset && !ok ==>
              DiskFull(fs.geo, fs.disk) && OthersKept(old(fs.disk), fs.disk, old(fs.files), i)
                  && FileText(fs, i) == old(FileText(fs, i)) + ZeroBlocks(got, fs.geo.BlockSize())
    ensures old(fs.table)[SlotOf(fs.geo, i)].size >= offset && !IsDirectory(old(fs.table)[SlotOf(fs.geo, i)]) ==>
              fs.table[SlotOf(fs.geo, i)].size == NewSize(old(fs.table)[SlotOf(fs.geo, i)].size, offset + |buffer|)
    ensures if ok || old(fs.table)[SlotOf(fs.geo, i)].size < offset then fs.Stray() == old(fs.Stray())
            else RanOut(fs.geo.fan, |DataOf(old(fs.files)[i])|, got, old(fs.Spare()), old(fs.Stray()), fs.Stray())
    ensures got > 0 ==>
              TakenInTurn(fs.geo, old(fs.disk), old(fs.files)[i], fs.files[i], (i - 1) / fs.geo.inodesPerGroup)
  {
    var inode := fs.GetInode(i);
    got := 0;
    TextsSelf(fs.geo, fs.disk, fs.table, fs.files, i);
    if inode.size < offset {
      return false, got;
    }
    LengthFits(fs.geo, fs.disk, fs.table, fs.files, i);
    SetSize(fs, i, NewSize(inode.size, offset + |buffer|));
    ghost var t1 := fs.table;
    var more := MoreBlocks(inode.blocks, offset, |buffer|, fs.geo.BlockSize());
    ok, got := GrowAndFill(fs, i, offset, buffer, more);
    InodeTwice(fs.geo, old(fs.table), t1, fs.table, i);
  }

  /** No inode but that of file `i` has changed, and its mode has not. */
  predicate OneChanged(geo: Geometry, t: map<Slot, Inode>, t': map<Slot, Inode>, i: nat) {
    && i >= 1 && geo.Sane() && SlotOf(geo, i) in t && SlotOf(geo, i) in t'
    && t' == t[SlotOf(geo, i) := t'[SlotOf(geo, i)]] && t'[SlotOf(geo, i)].mode == t[SlotOf(geo, i)].mode
  }

  lemma {:induction false} InodeTwice(geo: Geometry, t: map<Slot, Inode>, t1: map<Slot, Inode>, t2: map<Slot, Inode>,
                                      i: nat)
    requires OneChanged(geo, t, t1, i) && OneChanged(geo, t1, t2, i)
    ensures OneChanged(geo, t, t2, i)
  {
    var slot := SlotOf(geo, i);
    PutTwice(t, slot, t1[slot], t2[slot]);
  }

  /** Of `spare` free blocks as many as possible have gone into `got` further blocks of a file that had `n`, and the
      rest are stray, as `before` blocks were already. */
  predicate RanOut(fan: nat, n: nat, got: nat, spare: nat, before: nat, after: nat) {
    && NeedAll(fan, n, got) <= spare < NeedAll(fan, n, got + 1)
    && after == before + spare - NeedAll(fan, n, got)
  }

  /** The part of `ext2_write` behind the change of the size. */
  method GrowAndFill(fs: Ext2Fs, i: nat, offset: nat, buffer: seq<byte>, more: nat) returns (ok: bool, got: nat)
    requires fs.Valid() && i in fs.files && i >= 1 && SlotOf(fs.geo, i) in fs.table
             && (i - 1) / fs.geo.inodesPerGroup < fs.geo.groups && fs.geo.BlockSize() > 0
    requires |DataOf(fs.files[i])| + more <= MaxBlocks(fs.geo.fan)
             && more == Lacking(|DataOf(fs.files[i])|, BlocksFor(offset + |buffer|, fs.geo.BlockSize()))
    modifies fs
    ensures fs.Valid() && i in fs.files && SlotOf(fs.geo, i) in fs.table && fs.files == old(fs.files)[i := fs.files[i]]
    ensures SameFile(old(fs.table)[SlotOf(fs.geo, i)], fs.table[SlotOf(fs.geo, i)])
            && OneChanged(fs.geo, old(fs.table), fs.table, i)
            && |DataOf(fs.files[i])| == |DataOf(old(fs.files)[i])| + got
    ensures OthersKept(old(fs.disk), fs.disk, old(fs.files), i) && fs.Books() == old(fs.Books())
    ensures ok ==> got == more && Wrote(fs.geo, old(fs.disk), old(fs.table), old(fs.files), fs.disk, fs.table, fs.files,
                                        i, offset, buffer, got)
    ensures !ok ==> DiskFull(fs.geo, fs.disk)
                    && FileText(fs, i) == old(FileText(fs, i)) + ZeroBlocks(got, fs.geo.BlockSize())
    ensures var all := NeedAll(fs.geo.fan, |DataOf(old(fs.files)[i])|, more);
            (ok <==> old(fs.Spare()) >= all) && (ok ==> old(fs.Spare()) == fs.Spare() + all)
    ensures if ok then fs.Stray() == old(fs.Stray())
            else RanOut(fs.geo.fan, |DataOf(old(fs.files)[i])|, got, old(fs.Spare()), old(fs.Stray()), fs.Stray())
    ensures TakenInTurn(fs.geo, old(fs.disk), old(fs.files)[i], fs.files[i], (i - 1) / fs.geo.inodesPerGroup)
  {
    ghost var d, t, f, spare := fs.disk, fs.table, fs.files, fs.Spare();
    ghost var needs := Needs(fs.geo.fan, |DataOf(f[i])|, more);
    ok, got := Grow(fs, i, more, needs);
    TookAll(needs, got, ok, spare, fs.Spare());
    if !ok { TookMost(fs.geo.fan, |DataOf(f[i])|, more, got, spare, fs.Spare()); }
    if ok {
      Fill(fs, i, offset, buffer, d, t, f, got);
    }
    StraysLeft(fs.geo, d, t, f, fs.disk, fs.table, fs.files, i, got, ok);
  }

  /** What the size field, which has 32 bits, keeps of the end of a write. */
  function NewSize(size: u32, end: nat): (r: u32)
    ensures end < TWO_32 ==> r == Larger(size, end)
  {
    if size < end then end % TWO_32 else size
  }

  /** What is missing from `a` to `b`. */
  function Lacking(a: nat, b: nat): nat { if a < b then b - a else 0 }

  lemma {:induction false} LengthFits(geo: Geometry, d: Disk, table: map<Slot, Inode>, files: map<nat, File>, i: nat)
    requires Sound(geo, d, table, files) && i in files
    ensures i >= 1 && geo.Sane() && geo.BlockSize() > 0 && SlotOf(geo, i) in table
            && table[SlotOf(geo, i)].blocks == |DataOf(files[i])| <= MaxBlocks(geo.fan)
  {
    FileView(geo, d, table, files, i);
    if |DataOf(files[i])| > 0 { FileReach(geo.fan, files[i], |DataOf(files[i])| - 1); }
  }

  /** After a successful `ext2_write`, reading the same range gives the buffer, and everything before it is as it was. A
      write that reaches the end of the file leaves the old bytes before the offset, and then the buffer. */
  lemma {:induction false} ReadAfterWrite(geo: Geometry, d: Disk, t: map<Slot, Inode>, f: map<nat, File>, d': Disk,
                                          t': map<Slot, Inode>, f': map<nat, File>,
                                          i: nat, offset: nat, buffer: seq<byte>, more: nat)
    requires Wrote(geo, d, t, f, d', t', f', i, offset, buffer, more)
    ensures ReadsBack(Text(d, DataOf(f[i])) + ZeroBlocks(more, geo.BlockSize()), Text(d', DataOf(f'[i])), offset,
            buffer, Gap(offset, |buffer|, geo.BlockSize()))
  {
    OverwrittenReads(Text(d, DataOf(f[i])) + ZeroBlocks(more, geo.BlockSize()), offset, buffer,
        Gap(offset, |buffer|, geo.BlockSize()));
  }

  /** What has been written is where a read of the same range looks for it. */
  lemma {:induction false} InPlace(geo: Geometry, d: Disk, t: map<Slot, Inode>, f: map<nat, File>, d': Disk,
                                   t': map<Slot, Inode>, f': map<nat, File>,
                                   i: nat, offset: nat, buffer: seq<byte>, more: nat)
    requires Wrote(geo, d, t, f, d', t', f', i, offset, buffer, more)
    ensures var c := Text(d', DataOf(f'[i]));
            offset + |buffer| <= |c| && c[offset..offset + |buffer|] == buffer
  {
    ReadAfterWrite(geo, d, t, f, d', t', f', i, offset, buffer, more);
  }

  /** The range of file `i` holds the buffer. */
  ghost predicate Holds(fs: Ext2Fs, i: nat, offset: nat, buffer: seq<byte>)
    reads fs`disk, fs`files
  {
    && i in fs.files && offset + |buffer| <= |FileText(fs, i)|
    && FileText(fs, i)[offset..offset + |buffer|] == buffer
  }

  method WriteInPlace(fs: Ext2Fs, i: nat, offset: nat, buffer: seq<byte>) returns (ok: bool)
    requires fs.Valid() && i in fs.files && i >= 1 && SlotOf(fs.geo, i) in fs.table
             && (i - 1) / fs.geo.inodesPerGroup < fs.geo.groups
    requires fs.table[SlotOf(fs.geo, i)].size >= offset ==>
               && offset % fs.geo.BlockSize() + |buffer| < TWO_32
               && BlocksFor(offset + |buffer|, fs.geo.BlockSize()) <= MaxBlocks(fs.geo.fan)
    modifies fs
    ensures fs.Valid() && (ok ==> Holds(fs, i, offset, buffer))
    ensures SlotOf(fs.geo, i) in fs.table
    ensures ok && !IsDirectory(old(fs.table)[SlotOf(fs.geo, i)]) && offset + |buffer| < TWO_32 ==>
              fs.table[SlotOf(fs.geo, i)].size >= offset + |buffer|
    ensures var (n, inode) := (|DataOf(old(fs.files)[i])|, old(fs.table)[SlotOf(fs.geo, i)]);
            ok <==> inode.size >= offset && old(fs.Spare())
                    >= NeedAll(fs.geo.fan, n, Lacking(n, BlocksFor(offset + |buffer|, fs.geo.BlockSize())))
  {
    ghost var d, t, f := fs.disk, fs.table, fs.files;
    var got;
    ok, got := Write(fs, i, offset, buffer);
    if ok {
      InPlace(fs.geo, d, t, f, fs.disk, fs.table, fs.files, i, offset, buffer, got);
    }
  }

  /** `ext2_write`, and then `ext2_read` of the same range of the same file. */
  method WriteThenRead(fs: Ext2Fs, i: nat, offset: nat, buffer: seq<byte>) returns (ok: bool, out: seq<byte>)
    requires fs.Valid() && i in fs.files && i >= 1 && SlotOf(fs.geo, i) in fs.table
             && (i - 1) / fs.geo.inodesPerGroup < fs.geo.groups && |buffer| > 0
    requires fs.table[SlotOf(fs.geo, i)].size >= offset ==>
               && offset % fs.geo.BlockSize() + |buffer| < TWO_32
               && BlocksFor(offset + |buffer|, fs.geo.BlockSize()) <= MaxBlocks(fs.geo.fan)
    modifies fs
    ensures fs.Valid() && (ok ==> out == buffer)
    ensures var (n, inode) := (|DataOf(old(fs.files)[i])|, old(fs.table)[SlotOf(fs.geo, i)]);
            !IsDirectory(inode) && offset + |buffer| < TWO_32 ==>
              (ok <==> inode.size >= offset && old(fs.Spare())
                       >= NeedAll(fs.geo.fan, n, Lacking(n, BlocksFor(offset + |buffer|, fs.geo.BlockSize()))))
  {
    out := [];
    ok := WriteInPlace(fs, i, offset, buffer);
    if ok {
      ok, out := Read(fs, i, offset, |buffer|);
    }
  }
}
