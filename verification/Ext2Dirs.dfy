/** `ext2_lookup`, `insert_entry` and `release_dir_entry`. */
module Ext2Dirs {
  import opened Arith
  import opened Fixed
  import opened Bytes
  import opened BlockMap
  import opened Contents
  import opened Directories
  import opened Ext2Disk
  import opened Ext2Files
  import opened Ext2Free
  import opened Ext2Growth
  import opened Ext2Release
  import opened Ext2
  import opened Ext2IO

  /** Slot `k` is slot `o` of block `q`. */
  predicate Place(q: nat, per: nat, o: nat, k: nat) { k == q * per + o && o < per }

  /** A block of a directory, and the first of its entries. */
  lemma {:induction false} DirBlock(d: Disk, bnum: seq<nat>, size: nat, per: nat, es: seq<seq<byte>>, q: nat,
                                    first: nat)
    requires Sized(d, bnum, size) && size == 32 * per && per > 0 && Directory(Text(d, bnum), es, size) && q < |bnum|
             && Place(q, per, 0, first)
    ensures BlockOfDir(Text(d, bnum), es, size, first, per, BlockOf(d, bnum[q])) && first < |es|
  {
    TextSize(d, bnum, size);
    assert 32 * (q * per) == q * size;
    BlockIn(d, bnum, size, q, 32 * first);
    MulStep(q, |bnum|, size);
  }

  lemma {:induction false} AllBlocks(d: Disk, bnum: seq<nat>, size: nat, per: nat, es: seq<seq<byte>>, first: nat)
    requires Sized(d, bnum, size) && size == 32 * per && per > 0 && Directory(Text(d, bnum), es, size)
             && Place(|bnum|, per, 0, first)
    ensures first >= |es|
  {
    TextSize(d, bnum, size);
    assert 32 * (|bnum| * per) == |bnum| * size;
  }

  lemma {:induction false} NotAmongJoin(es: seq<seq<byte>>, name: seq<byte>, a: nat, b: nat, c: nat)
    requires NotAmong(es, name, a, b) && NotAmong(es, name, b, c)
    ensures NotAmong(es, name, a, c)
  {
  }

  lemma {:induction false} PlaceBytes(q: nat, per: nat, o: nat, k: nat, size: nat)
    requires Place(q, per, o, k) && size == 32 * per
    ensures 32 * k == q * size + 32 * o && 32 * o + 32 <= size && k >= o && Place(q, per, 0, k - o)
  {
    assert 32 * (q * per) == q * size;
  }

  lemma {:induction false} NextPlace(q: nat, per: nat, first: nat)
    requires Place(q, per, 0, first)
    ensures Place(q + 1, per, 0, first + per)
  {
  }

  /** One block of a directory searched. */
  method LookupBlock(d: Disk, bnum: seq<nat>, size: nat, per: nat, name: seq<byte>, q: nat, ghost k: nat,
                     ghost es: seq<seq<byte>>) returns (found: bool, o: nat)
    requires Sized(d, bnum, size) && (forall n :: n in bnum ==> n < |d|) && size == 32 * per && per > 0
             && Directory(Text(d, bnum), es, size)
    requires Named(es) && (forall c :: c in name ==> c != 0) && q < |bnum| && Place(q, per, 0, k)
             && NotAmong(es, name, 0, k)
    ensures found ==> Place(q, per, o, k + o) && k + o < |es| && NameOf(es[k + o]) == name
                      && NotAmong(es, name, 0, k + o)
    ensures !found ==> Place(q + 1, per, 0, k + per) && NotAmong(es, name, 0, k + per)
  {
    DirBlock(d, bnum, size, per, es, q, k);
    var block := d[bnum[q]];
    found, o := LookupIn(block, per, name, Text(d, bnum), es, size, k);
    NotAmongJoin(es, name, 0, k, if found then k + o else k + per);
    NextPlace(q, per, k);
  }

  /** The search of `ext2_lookup` through the blocks of a directory: the first entry with the name. */
  method LookupBlocks(d: Disk, bnum: seq<nat>, size: nat, per: nat, name: seq<byte>, ghost es: seq<seq<byte>>)
    returns (found: bool, q: nat, o: nat, ghost k: nat)
    requires Sized(d, bnum, size) && (forall n :: n in bnum ==> n < |d|) && size == 32 * per && per > 0
             && Directory(Text(d, bnum), es, size)
    requires Named(es) && forall c :: c in name ==> c != 0
    ensures found ==> q < |bnum| && Place(q, per, o, k) && k < |es| && NameOf(es[k]) == name && NotAmong(es, name, 0, k)
    ensures !found ==> NotAmong(es, name, 0, |es|)
  {
    q, o, k, found := 0, 0, 0, false;
    while q < |bnum|
      invariant q <= |bnum| && Place(q, per, 0, k) && NotAmong(es, name, 0, k)
    {
      found, o := LookupBlock(d, bnum, size, per, name, q, k, es);
      if found {
        k := k + o;
        return;
      }
      q, k := q + 1, k + per;
    }
    AllBlocks(d, bnum, size, per, es, k);
  }

  // ----- directories on the disk -----

  /** File `i` is a directory with the entries `es`, `per` to a block. */
  ghost predicate IsDir(geo: Geometry, d: Disk, table: map<Slot, Inode>, files: map<nat, File>, i: nat,
                        es: seq<seq<byte>>, per: nat) {
    && Sound(geo, d, table, files) && i in files && i >= 1 && geo.Sane() && SlotOf(geo, i) in table
    && geo.BlockSize() == 32 * per && per > 0
    && IsDirectory(table[SlotOf(geo, i)]) && table[SlotOf(geo, i)].size == 32 * |es|
    && Directory(Text(d, DataOf(files[i])), es, geo.BlockSize())
  }

  /** `ext2_lookup`: the first entry with the name, if there is one, and its place: slot `o` of block `n`, which is
      block `q` of the directory. */
  method Lookup(fs: Ext2Fs, i: nat, name: seq<byte>, per: nat, ghost es: seq<seq<byte>>)
    returns (found: bool, e: seq<byte>, n: nat, offset: nat, ghost q: nat, ghost o: nat, ghost k: nat)
    requires fs.Valid() && IsDir(fs.geo, fs.disk, fs.table, fs.files, i, es, per) && Named(es)
             && forall c :: c in name ==> c != 0
    ensures found ==> k < |es| && e == es[k] && NameOf(e) == name && NotAmong(es, name, 0, k)
    ensures found ==> q < |DataOf(fs.files[i])| && DataOf(fs.files[i])[q] == n && offset == 32 * o
                      && Place(q, per, o, k)
    ensures !found ==> NotAmong(es, name, 0, |es|)
  {
    var inode, bnum := fs.GetDataBlocks(i);
    TextLength(fs, i, bnum);
    var at, slot;
    found, at, slot, k := LookupBlocks(fs.disk, bnum, fs.geo.BlockSize(), per, name, es);
    q, o, e, n, offset := at, slot, [], 0, 0;
    if found {
      n, offset := bnum[at], 32 * slot;
      EntryView(fs.disk, bnum, fs.geo.BlockSize(), per, es, q, o, k);
      e := fs.disk[n][offset..offset + 32];
    }
  }

  lemma {:induction false} EntryView(d: Disk, bnum: seq<nat>, size: nat, per: nat, es: seq<seq<byte>>, q: nat, o: nat,
                                     k: nat)
    requires Sized(d, bnum, size) && size == 32 * per && per > 0 && Directory(Text(d, bnum), es, size) && q < |bnum|
             && Place(q, per, o, k) && k < |es| && bnum[q] < |d|
    ensures |d[bnum[q]]| == size && 32 * o + 32 <= size && d[bnum[q]][32 * o..32 * o + 32] == es[k]
  {
    PlaceBytes(q, per, o, k, size);
    DirBlock(d, bnum, size, per, es, q, k - o);
    SlotInBlock(Text(d, bnum), es, size, k - o, per, d[bnum[q]], o);
  }

  // ----- writing one slot -----

  lemma {:induction false} PutInBlock(c: seq<byte>, lo: nat, size: nat, at: nat, e: seq<byte>)
    requires lo + size <= |c| && at + |e| <= size
    ensures c[..lo] + Put(c[lo..lo + size], at, e) + c[lo + size..] == Put(c, lo + at, e)
  {
    assert c[..lo] + c[lo..lo + size][..at] == c[..lo + at];
    assert c[lo..lo + size][at + |e|..] + c[lo + size..] == c[lo + at + |e|..];
  }

  /** Slot `o` of block `q` is slot `k` of the directory. */
  lemma {:induction false} SlotInFile(c: seq<byte>, q: nat, size: nat, per: nat, o: nat, k: nat, b: seq<byte>,
                                      e: seq<byte>)
    requires size == 32 * per && Place(q, per, o, k) && |e| == ENTRY && q * size + size <= |c|
             && b == c[q * size..q * size + size]
    ensures 32 * o + 32 <= size && 32 * k + 32 <= |c|
    ensures |Put(b, 32 * o, e)| == size && c[..q * size] + Put(b, 32 * o, e) + c[q * size + size..] == Put(c, 32 * k, e)
  {
    PlaceBytes(q, per, o, k, size);
    PutInBlock(c, q * size, size, 32 * o, e);
  }

  lemma {:induction false} SlotWritten(geo: Geometry, d: Disk, table: map<Slot, Inode>, files: map<nat, File>, i: nat,
                                       per: nat, q: nat, o: nat, k: nat, e: seq<byte>, n: nat)
    requires Sound(geo, d, table, files) && i in files && geo.BlockSize() == 32 * per && q < |DataOf(files[i])|
             && Place(q, per, o, k) && |e| == ENTRY
    requires n == DataOf(files[i])[q]
    ensures n < |d| && |d[n]| == 32 * per && 32 * k + 32 <= |Text(d, DataOf(files[i]))|
    ensures var d' := d[n := Put(d[n], 32 * o, e)];
            && Sound(geo, d', table, files) && OthersKept(d, d', files, i) && BitsKept(geo, d, d')
            && Text(d', DataOf(files[i])) == Put(Text(d, DataOf(files[i])), 32 * k, e)
  {
    var size, c, lo := geo.BlockSize(), Text(d, DataOf(files[i])), q * geo.BlockSize();
    BlockView(geo, d, table, files, i, q, lo);
    SlotInFile(c, q, size, per, o, k, d[n], e);
    DataWritten(geo, d, table, files, i, q, lo, Put(d[n], 32 * o, e));
  }

  // ----- insert_entry -----

  /** Entry `e` is in the slot at byte `offset` of block `n`, the last one of file `i`, and is number `k` of its
      directory. */
  ghost predicate PutAt(geo: Geometry, d: Disk, files: map<nat, File>, i: nat, per: nat, k: nat, e: seq<byte>, n: nat,
                        offset: nat) {
    && i in files && DataOf(files[i]) != [] && n == DataOf(files[i])[|DataOf(files[i])| - 1]
    && offset % 32 == 0 && Place(|DataOf(files[i])| - 1, per, offset / 32, k) && Stands(d, e, n, offset)
  }

  /** The bytes of `e` are at byte `offset` of block `n`. */
  ghost predicate Stands(d: Disk, e: seq<byte>, n: nat, offset: nat) {
    n < |d| && offset + |e| <= |d[n]| && d[n][offset..offset + |e|] == e
  }

  lemma {:induction false} PutStands(d: Disk, n: nat, b: Block, p: nat, e: seq<byte>)
    requires n < |d| && p + |e| <= |b|
    ensures Stands(d[n := Put(b, p, e)], e, n, p)
  {
    var c := Put(b, p, e);
    assert c[p..p + |e|] == e;
  }

  /** Where the next entry goes: `blocks` blocks hold `n` entries, and the bytes of the last block in use are `used`. */
  lemma {:induction false} NextSlot(n: nat, per: nat, size: nat, blocks: nat, used: nat)
    requires size == 32 * per && per > 0 && used == 32 * n % size && 32 * n <= blocks * size < 32 * n + size
    ensures used == 0 ==> 32 * n == blocks * size && Place(blocks, per, 0, n)
    ensures used != 0 ==> blocks > 0 && used % 32 == 0 && Place(blocks - 1, per, used / 32, n)
                          && 32 * n + 32 <= blocks * size
  {
    var q, o := n / per, n % per;
    assert n == q * per + o;
    PlaceBytes(q, per, o, n, size);
    DivModIs(32 * n, q, 32 * o, size);
    if q < blocks { MulStep(q, blocks, size); }
    if blocks < q { MulStep(blocks, q, size); }
    if q + 1 < blocks { MulStep(q + 1, blocks, size); }
    assert (q + 1) * size == q * size + size;
  }

  /** In the last block: the slot is written, and the size of the directory grows. */
  lemma {:induction false} InsertedInRoom(geo: Geometry, d: Disk, table: map<Slot, Inode>, files: map<nat, File>,
                                          i: nat, es: seq<seq<byte>>, per: nat, e: seq<byte>, q: nat, used: nat, n: nat)
    requires IsDir(geo, d, table, files, i, es, per) && Live(e) && used == 32 * |es| % geo.BlockSize() && used != 0
             && 32 * |es| + 32 < TWO_32
    requires q + 1 == |DataOf(files[i])| && n == DataOf(files[i])[q]
    ensures n < |d| && used + 32 <= |d[n]|
    ensures var inode := table[SlotOf(geo, i)];
            IsDir(geo, d[n := Put(d[n], used, e)], table[SlotOf(geo, i) := inode.(size := inode.size + 32)], files, i,
                es + [e], per)
    ensures OthersKept(d, d[n := Put(d[n], used, e)], files, i) && BitsKept(geo, d, d[n := Put(d[n], used, e)])
  {
    var text := Text(d, DataOf(files[i]));
    DirLength(geo, d, table, files, i);
    NextSlot(|es|, per, geo.BlockSize(), q + 1, used);
    assert 32 * (used / 32) == used;
    PlaceBytes(q, per, used / 32, |es|, geo.BlockSize());
    SlotWritten(geo, d, table, files, i, per, q, used / 32, |es|, e, n);
    AddedInRoom(text, es, geo.BlockSize(), e);
    SizeSound(geo, d[n := Put(d[n], used, e)], table, files, i, table[SlotOf(geo, i)].size + 32);
  }

  lemma {:induction false} DirLength(geo: Geometry, d: Disk, table: map<Slot, Inode>, files: map<nat, File>, i: nat)
    requires Sound(geo, d, table, files) && i in files
    ensures |Text(d, DataOf(files[i]))| == |DataOf(files[i])| * geo.BlockSize()
  {
    DataBlocks(geo, d, table, files, i);
    TextSize(d, DataOf(files[i]), geo.BlockSize());
  }

  lemma {:induction false} FreshSlot(had: seq<byte>, es: seq<seq<byte>>, size: nat, per: nat, blocks: nat, e: seq<byte>,
                                     text: seq<byte>)
    requires Directory(had, es, size) && |had| == blocks * size && size == 32 * per && per > 0 && Live(e)
             && 32 * |es| % size == 0
    requires text == had + ZeroBlocks(1, size)
    ensures Place(blocks, per, 0, |es|) && 32 * |es| + 32 <= |text|
    ensures Directory(Put(text, 32 * |es|, e), es + [e], size)
  {
    NextSlot(|es|, per, size, blocks, 0);
    assert ZeroBlocks(1, size) == [] + Zeros(size);
    AddedInBlock(had, es, size, per, e);
  }

  /** In a fresh block, which has been put behind the others already. */
  lemma {:induction false} InsertedInBlock(geo: Geometry, d: Disk, t: map<Slot, Inode>, f: map<nat, File>, i: nat,
                                           es: seq<seq<byte>>, per: nat, e: seq<byte>, q: nat, n: nat)
    requires Sound(geo, d, t, f) && i in f && i >= 1 && geo.Sane() && SlotOf(geo, i) in t && q < |DataOf(f[i])|
             && n == DataOf(f[i])[q]
    requires geo.BlockSize() == 32 * per && per > 0 && |e| == ENTRY && Place(q, per, 0, |es|)
             && 32 * |es| + 32 <= |Text(d, DataOf(f[i]))|
    requires Directory(Put(Text(d, DataOf(f[i])), 32 * |es|, e), es + [e], geo.BlockSize())
    requires IsDirectory(t[SlotOf(geo, i)]) && t[SlotOf(geo, i)].size == 32 * |es| + 32
    ensures n < |d| && 32 <= |d[n]|
    ensures var d' := d[n := Put(d[n], 0, e)];
            IsDir(geo, d', t, f, i, es + [e], per) && OthersKept(d, d', f, i) && BitsKept(geo, d, d')
  {
    SlotWritten(geo, d, t, f, i, per, q, 0, |es|, e, n);
  }

  /** Of the inodes only that of file `i` may have changed, and not its mode; of the files only that one. */
  ghost predicate OneInode(geo: Geometry, t: map<Slot, Inode>, t': map<Slot, Inode>, f: map<nat, File>,
                           f': map<nat, File>, i: nat) {
    OneChanged(geo, t, t', i) && i in f && i in f' && f' == f[i := f'[i]]
  }

  /** Nothing has happened to any file. */
  ghost predicate Untouched(fs: Ext2Fs, d: Disk, t: map<Slot, Inode>, f: map<nat, File>, i: nat)
    reads fs
  {
    fs.Valid() && fs.table == t && fs.files == f && i in f && OthersKept(d, fs.disk, f, i)
        && FileText(fs, i) == Text(d, DataOf(f[i]))
  }

  /** The entry is written to a block that is in no file. */
  method WriteStray(fs: Ext2Fs, n: nat, e: seq<byte>, ghost i: nat, ghost d: Disk)
    requires fs.Valid() && InUse(fs.geo, fs.disk, n) && Free(fs.files, n) && |e| == ENTRY <= fs.geo.BlockSize()
    requires Untouched(fs, d, fs.table, fs.files, i) && DiskFull(fs.geo, fs.disk)
    modifies fs`disk
    ensures fs.Valid() && InUse(fs.geo, fs.disk, n) && Untouched(fs, d, fs.table, fs.files, i)
            && DiskFull(fs.geo, fs.disk)
    ensures fs.Books() == old(fs.Books()) && Stands(fs.disk, e, n, 0)
  {
    ghost var d1 := fs.disk;
    InUseBounds(fs.geo, d1, n);
    PutStands(d1, n, d1[n], 0, e);
    var block := Put(fs.disk[n], 0, e);
    DataBits(fs.geo, d1, d1[n := block], n);
    SameBits(fs.geo, d1, d1[n := block]);
    StrayWritten(fs.geo, d1, fs.table, fs.files, n, block);
    StrayKept(d, d1, n, block, fs.files, i);
    SameFree(fs.geo, d1, d1[n := block], fs.groupFree, fs.freeBlocks);
    fs.disk := fs.disk[n := block];
  }

  lemma {:induction false} StrayKept(d: Disk, d1: Disk, n: nat, b: Block, files: map<nat, File>, i: nat)
    requires OthersKept(d, d1, files, i) && n < |d1|
    requires forall j {:trigger Text(d1[n := b], DataOf(files[j]))} :: j in files ==>
               Text(d1[n := b], DataOf(files[j])) == Text(d1, DataOf(files[j]))
    ensures OthersKept(d, d1[n := b], files, i)
  {
  }

  /** The entry in the fresh block `n`, by which its directory has grown. */
  lemma {:induction false} InsertedFresh(geo: Geometry, d: Disk, t: map<Slot, Inode>, f: map<nat, File>, d1: Disk,
                                         t1: map<Slot, Inode>, f1: map<nat, File>,
                                         i: nat, es: seq<seq<byte>>, per: nat, e: seq<byte>, n: nat)
    requires IsDir(geo, d, t, f, i, es, per) && Grown(geo, d, t, f, d1, t1, f1, i, 1)
             && DataOf(f1[i]) == DataOf(f[i]) + [n]
    requires t1[SlotOf(geo, i)] == Longer(t[SlotOf(geo, i)]).(block := t1[SlotOf(geo, i)].block)
    requires Live(e) && 32 * |es| + 32 < TWO_32 && 32 * |es| % geo.BlockSize() == 0
    ensures n < |d1| && 32 <= |d1[n]|
    ensures var d2 := d1[n := Put(d1[n], 0, e)];
            IsDir(geo, d2, t1, f1, i, es + [e], per) && OthersKept(d, d2, f, i) && BitsKept(geo, d1, d2)
  {
    FreshText(geo, d, t, f, d1, f1, i, es, per, e);
    LongerDir(t[SlotOf(geo, i)], t1[SlotOf(geo, i)], |es|);
    InsertedInBlock(geo, d1, t1, f1, i, es, per, e, |DataOf(f[i])|, n);
    OthersAfter(d, d1, d1[n := Put(d1[n], 0, e)], f, f1, i);
  }

  lemma {:induction false} FreshText(geo: Geometry, d: Disk, t: map<Slot, Inode>, f: map<nat, File>, d1: Disk,
                                     f1: map<nat, File>, i: nat, es: seq<seq<byte>>, per: nat, e: seq<byte>)
    requires IsDir(geo, d, t, f, i, es, per) && Live(e) && 32 * |es| % geo.BlockSize() == 0 && i in f1
    requires Text(d1, DataOf(f1[i])) == Text(d, DataOf(f[i])) + ZeroBlocks(1, geo.BlockSize())
    ensures Place(|DataOf(f[i])|, per, 0, |es|) && 32 * |es| + 32 <= |Text(d1, DataOf(f1[i]))|
    ensures Directory(Put(Text(d1, DataOf(f1[i])), 32 * |es|, e), es + [e], geo.BlockSize())
  {
    DirLength(geo, d, t, f, i);
    FreshSlot(Text(d, DataOf(f[i])), es, geo.BlockSize(), per, |DataOf(f[i])|, e, Text(d1, DataOf(f1[i])));
  }

  /** A directory that has got a block more has room for an entry more. */
  lemma {:induction false} LongerDir(inode: Inode, inode': Inode, n: nat)
    requires IsDirectory(inode) && inode.size == 32 * n && 32 * n + 32 < TWO_32
             && inode' == Longer(inode).(block := inode'.block)
    ensures IsDirectory(inode') && inode'.size == 32 * n + 32
  {
  }

  /** The entry is written to the fresh block `n` of its directory. */
  method WriteFresh(fs: Ext2Fs, n: nat, e: seq<byte>, ghost i: nat, ghost per: nat, ghost es: seq<seq<byte>>,
                    ghost d: Disk, ghost t: map<Slot, Inode>, ghost f: map<nat, File>)
    requires fs.Valid() && IsDir(fs.geo, d, t, f, i, es, per)
             && Grown(fs.geo, d, t, f, fs.disk, fs.table, fs.files, i, 1)
    requires DataOf(fs.files[i]) == DataOf(f[i]) + [n]
    requires var inode := fs.table[SlotOf(fs.geo, i)]; inode == Longer(t[SlotOf(fs.geo, i)]).(block := inode.block)
    requires Live(e) && 32 * |es| + 32 < TWO_32 && 32 * |es| % fs.geo.BlockSize() == 0
    modifies fs`disk
    ensures fs.Valid() && IsDir(fs.geo, fs.disk, fs.table, fs.files, i, es + [e], per) && OthersKept(d, fs.disk, f, i)
    ensures fs.Books() == old(fs.Books()) && fs.Spare() == old(fs.Spare())
    ensures PutAt(fs.geo, fs.disk, fs.files, i, per, |es|, e, n, 0)
  {
    FreshPlace(fs.geo, d, t, f, fs.files, i, es, per, n);
    InsertedFresh(fs.geo, d, t, f, fs.disk, fs.table, fs.files, i, es, per, e, n);
    PutStands(fs.disk, n, fs.disk[n], 0, e);
    SameFree(fs.geo, fs.disk, fs.disk[n := Put(fs.disk[n], 0, e)], fs.groupFree, fs.freeBlocks);
    fs.disk := fs.disk[n := Put(fs.disk[n], 0, e)];
  }

  /** The first slot of a fresh block is that of the next entry. */
  lemma {:induction false} FreshPlace(geo: Geometry, d: Disk, t: map<Slot, Inode>, f: map<nat, File>,
                                      f1: map<nat, File>, i: nat, es: seq<seq<byte>>, per: nat, n: nat)
    requires IsDir(geo, d, t, f, i, es, per) && 32 * |es| % geo.BlockSize() == 0 && i in f1
             && DataOf(f1[i]) == DataOf(f[i]) + [n]
    ensures DataOf(f1[i]) != [] && n == DataOf(f1[i])[|DataOf(f1[i])| - 1]
            && Place(|DataOf(f1[i])| - 1, per, 0, |es|)
  {
    DirLength(geo, d, t, f, i);
    NextSlot(|es|, per, geo.BlockSize(), |DataOf(f[i])|, 0);
  }

  /** The entry goes into a fresh block. If the disk is full before the block has been put behind the others, the entry
      is written to it all the same, though it is in no file then. */
  method InsertInBlock(fs: Ext2Fs, i: nat, last: nat, e: seq<byte>, ghost per: nat, ghost es: seq<seq<byte>>)
    returns (ok: bool, n: nat, ghost there: bool)
    requires fs.Valid() && IsDir(fs.geo, fs.disk, fs.table, fs.files, i, es, per) && Live(e) && 32 * |es| + 32 < TWO_32
    requires 32 * |es| % fs.geo.BlockSize() == 0 && last < fs.geo.Total()
    requires |DataOf(fs.files[i])| < MaxBlocks(fs.geo.fan) && (i - 1) / fs.geo.inodesPerGroup < fs.geo.groups
    modifies fs
    ensures fs.Valid() && OthersKept(old(fs.disk), fs.disk, old(fs.files), i)
    ensures there ==> ok && IsDir(fs.geo, fs.disk, fs.table, fs.files, i, es + [e], per)
    ensures !there ==> Untouched(fs, old(fs.disk), old(fs.table), old(fs.files), i) && DiskFull(fs.geo, fs.disk)
    ensures !ok ==> !there && fs.disk == old(fs.disk)
    ensures ok && !there ==> InUse(fs.geo, fs.disk, n) && Free(fs.files, n) && Stands(fs.disk, e, n, 0)
    ensures there ==> PutAt(fs.geo, fs.disk, fs.files, i, per, |es|, e, n, 0)
    ensures OneInode(fs.geo, old(fs.table), fs.table, old(fs.files), fs.files, i)
    ensures ok ==> FirstFree(fs.geo, FreeBlocks(fs.geo, old(fs.disk)), fs.geo.GroupOf(last), n)
    ensures fs.Books() == old(fs.Books()) && (ok <==> old(fs.Spare()) >= 1)
    ensures var all := NeedOne(fs.geo.fan, |DataOf(old(fs.files)[i])|);
            (there <==> old(fs.Spare()) >= all) && (there ==> old(fs.Spare()) == fs.Spare() + all)
  {
    ghost var d, t, f := fs.disk, fs.table, fs.files;
    var group;
    var grown;
    grown, group, n := GrowOne(fs, i, fs.geo.GroupOf(last));
    ok, there := n != 0, grown;
    if grown {
      WriteFresh(fs, n, e, i, per, es, d, t, f);
      return;
    }
    if ok {
      WriteStray(fs, n, e, i, d);
    }
  }

  /** The entry goes into the last block, at byte `used`. */
  method InsertInRoom(fs: Ext2Fs, i: nat, last: nat, used: nat, e: seq<byte>, ghost per: nat, ghost es: seq<seq<byte>>)
    requires fs.Valid() && IsDir(fs.geo, fs.disk, fs.table, fs.files, i, es, per) && Live(e) && 32 * |es| + 32 < TWO_32
    requires used == 32 * |es| % fs.geo.BlockSize() && used != 0 && DataOf(fs.files[i]) != []
             && last == DataOf(fs.files[i])[|DataOf(fs.files[i])| - 1]
    modifies fs`disk, fs`table
    ensures fs.Valid() && OthersKept(old(fs.disk), fs.disk, fs.files, i)
    ensures IsDir(fs.geo, fs.disk, fs.table, fs.files, i, es + [e], per)
    ensures fs.Books() == old(fs.Books()) && fs.Spare() == old(fs.Spare())
    ensures PutAt(fs.geo, fs.disk, fs.files, i, per, |es|, e, last, used)
    ensures OneInode(fs.geo, old(fs.table), fs.table, fs.files, fs.files, i)
  {
    RoomPlace(fs.geo, fs.disk, fs.table, fs.files, i, es, per, used);
    InsertedInRoom(fs.geo, fs.disk, fs.table, fs.files, i, es, per, e, |DataOf(fs.files[i])| - 1, used, last);
    var inode := fs.GetInode(i);
    fs.table := fs.table[SlotOf(fs.geo, i) := inode.(size := inode.size + ENTRY)];
    PutStands(fs.disk, last, fs.disk[last], used, e);
    SameFree(fs.geo, fs.disk, fs.disk[last := Put(fs.disk[last], used, e)], fs.groupFree, fs.freeBlocks);
    fs.disk := fs.disk[last := Put(fs.disk[last], used, e)];
  }

  lemma {:induction false} RoomPlace(geo: Geometry, d: Disk, t: map<Slot, Inode>, f: map<nat, File>, i: nat,
                                     es: seq<seq<byte>>, per: nat, used: nat)
    requires IsDir(geo, d, t, f, i, es, per) && used == 32 * |es| % geo.BlockSize() && used != 0
    ensures DataOf(f[i]) != [] && used % 32 == 0 && Place(|DataOf(f[i])| - 1, per, used / 32, |es|)
  {
    DirLength(geo, d, t, f, i);
    NextSlot(|es|, per, geo.BlockSize(), |DataOf(f[i])|, used);
  }

  /** `n` is the lowest free block of the first group with room from that of the last of `ns` on. */
  ghost predicate NearLast(geo: Geometry, d: Disk, ns: seq<nat>, n: nat) {
    && ns != [] && geo.Sane() && ns[|ns| - 1] < geo.Total()
    && FirstFree(geo, FreeBlocks(geo, d), geo.GroupOf(ns[|ns| - 1]), n)
  }

  /** `insert_entry`: the entry goes behind the others, into slot `offset / 32` of block `n`. For a directory it
      succeeds if and only if the last block has room or there is a free block, and the entry is `there` if and only if
      the last block has room or there are free blocks for the fresh block and for all the pointers to it. */
  method InsertEntry(fs: Ext2Fs, i: nat, e: seq<byte>, ghost per: nat, ghost es: seq<seq<byte>>)
    returns (ok: bool, n: nat, offset: nat, ghost there: bool)
    requires fs.Valid() && i in fs.files && i >= 1 && SlotOf(fs.geo, i) in fs.table
             && (i - 1) / fs.geo.inodesPerGroup < fs.geo.groups
    requires IsDirectory(fs.table[SlotOf(fs.geo, i)]) ==>
               IsDir(fs.geo, fs.disk, fs.table, fs.files, i, es, per) && es != [] && Live(e) && 32 * |es| + 32 < TWO_32
                   && |DataOf(fs.files[i])| < MaxBlocks(fs.geo.fan)
    modifies fs
    ensures fs.Valid() && OthersKept(old(fs.disk), fs.disk, old(fs.files), i)
    ensures !IsDirectory(old(fs.table)[SlotOf(fs.geo, i)]) ==> !ok
    ensures there ==> ok && IsDir(fs.geo, fs.disk, fs.table, fs.files, i, es + [e], per)
    ensures !there ==> Untouched(fs, old(fs.disk), old(fs.table), old(fs.files), i)
    ensures !there && IsDirectory(old(fs.table)[SlotOf(fs.geo, i)]) ==>
              DiskFull(fs.geo, fs.disk) && 32 * |es| % fs.geo.BlockSize() == 0
    ensures !ok ==> !there && fs.disk == old(fs.disk)
    ensures ok && !there ==> InUse(fs.geo, fs.disk, n) && Free(fs.files, n) && offset == 0 && Stands(fs.disk, e, n, 0)
    ensures there ==> PutAt(fs.geo, fs.disk, fs.files, i, per, |es|, e, n, offset)
    ensures ok && 32 * |es| % fs.geo.BlockSize() == 0 ==>
              NearLast(fs.geo, old(fs.disk), DataOf(old(fs.files)[i]), n)
    ensures OneInode(fs.geo, old(fs.table), fs.table, old(fs.files), fs.files, i)
    ensures fs.Books() == old(fs.Books())
    ensures IsDirectory(old(fs.table)[SlotOf(fs.geo, i)]) ==>
              var (room, spare) := (32 * |es| % fs.geo.BlockSize() != 0, old(fs.Spare()));
              && (ok <==> room || spare >= 1)
              && (there <==> room || spare >= NeedOne(fs.geo.fan, |DataOf(old(fs.files)[i])|))
  {
    TextsSelf(fs.geo, fs.disk, fs.table, fs.files, i);
    var inode, bnum := fs.GetDataBlocks(i);
    ok, n, offset, there := false, 0, 0, false;
    if !IsDirectory(inode) {
      return;
    }
    NoEmptyDir(fs.geo, fs.disk, fs.table, fs.files, i, es, per);
    n, offset := bnum[|bnum| - 1], inode.size % fs.geo.BlockSize();
    if offset == 0 {
      ok, n, there := InsertInBlock(fs, i, n, e, per, es);
      return;
    }
    InsertInRoom(fs, i, n, offset, e, per, es);
    ok, there := true, true;
  }

  lemma {:induction false} NoEmptyDir(geo: Geometry, d: Disk, table: map<Slot, Inode>, files: map<nat, File>, i: nat,
                                      es: seq<seq<byte>>, per: nat)
    requires IsDir(geo, d, table, files, i, es, per) && es != []
    ensures DataOf(files[i]) != [] && DataOf(files[i])[|DataOf(files[i])| - 1] < geo.Total()
  {
    DataBlocks(geo, d, table, files, i);
  }

  // ----- what insert_entry reports -----

  lemma {:induction false} LastRemoved(es: seq<seq<byte>>, e: seq<byte>)
    ensures Removed(es + [e], |es|) == es
  {
  }

  /** The place that `insert_entry` reports, given to `release_dir_entry`: the directory is as it was. */
  method InsertAndRelease(fs: Ext2Fs, i: nat, e: seq<byte>, ghost per: nat, ghost es: seq<seq<byte>>)
    requires fs.Valid() && (i - 1) / fs.geo.inodesPerGroup < fs.geo.groups
    requires IsDir(fs.geo, fs.disk, fs.table, fs.files, i, es, per) && es != [] && Live(e) && 32 * |es| + 32 < TWO_32
             && |DataOf(fs.files[i])| < MaxBlocks(fs.geo.fan)
    requires 32 * |es| % fs.geo.BlockSize() != 0 || fs.Spare() >= NeedOne(fs.geo.fan, |DataOf(fs.files[i])|)
    modifies fs
    ensures fs.Valid() && IsDir(fs.geo, fs.disk, fs.table, fs.files, i, es, per) && fs.Books() == old(fs.Books())
    ensures OthersKept(old(fs.disk), fs.disk, old(fs.files), i)
  {
    ghost var d, f := fs.disk, fs.files;
    var ok, n, offset;
    ghost var there;
    ok, n, offset, there := InsertEntry(fs, i, e, per, es);
    ghost var d1, f1 := fs.disk, fs.files;
    LastRemoved(es, e);
    ReleaseDirEntry(fs, i, n, offset, |es|, |DataOf(fs.files[i])| - 1, offset / 32, per, es + [e]);
    OthersAfter(d, d1, fs.disk, f, f1, i);
  }

  /** An entry with a name that was not there before is found where `insert_entry` reports it. */
  method InsertAndLookup(fs: Ext2Fs, i: nat, e: seq<byte>, per: nat, name: seq<byte>, ghost es: seq<seq<byte>>)
    returns (found: bool, e': seq<byte>)
    requires fs.Valid() && (i - 1) / fs.geo.inodesPerGroup < fs.geo.groups
    requires IsDir(fs.geo, fs.disk, fs.table, fs.files, i, es, per) && es != [] && Live(e) && 32 * |es| + 32 < TWO_32
             && |DataOf(fs.files[i])| < MaxBlocks(fs.geo.fan)
    requires 32 * |es| % fs.geo.BlockSize() != 0 || fs.Spare() >= NeedOne(fs.geo.fan, |DataOf(fs.files[i])|)
    requires Named(es + [e]) && name == NameOf(e) && (forall c :: c in name ==> c != 0) && NotAmong(es, name, 0, |es|)
    modifies fs
    ensures fs.Valid() && found && e' == e
  {
    var ok, n, offset;
    ghost var there;
    ok, n, offset, there := InsertEntry(fs, i, e, per, es);
    var n', offset';
    ghost var q, o, k;
    found, e', n', offset', q, o, k := Lookup(fs, i, name, per, es + [e]);
    FoundLast(es, e, name, found, k);
    OnePlace(q, |DataOf(fs.files[i])| - 1, per, o, offset / 32, k);
    assert n' == n && offset' == offset;
  }

  lemma {:induction false} FoundLast(es: seq<seq<byte>>, e: seq<byte>, name: seq<byte>, found: bool, k: nat)
    requires name == NameOf(e) && NotAmong(es, name, 0, |es|)
    requires if found then k < |es| + 1 && NameOf((es + [e])[k]) == name else NotAmong(es + [e], name, 0, |es| + 1)
    ensures found && k == |es|
  {
    assert (es + [e])[|es|] == e && forall j :: 0 <= j < |es| ==> (es + [e])[j] == es[j];
  }

  // ----- release_dir_entry -----

  /** Where the last entry is: `blocks` blocks hold the entries up to that with number `n`, which begins at byte `off`
      of the last block. */
  lemma {:induction false} LastSlot(n: nat, per: nat, size: nat, blocks: nat, off: nat)
    requires size == 32 * per && per > 0 && off == 32 * n % size && 32 * n + 32 <= blocks * size < 32 * n + 32 + size
    ensures blocks > 0 && off % 32 == 0 && Place(blocks - 1, per, off / 32, n)
    ensures off == 0 ==> 32 * n == (blocks - 1) * size && blocks * size == 32 * n + size
    ensures off != 0 ==> blocks * size < 32 * n + size
  {
    var q, o := n / per, n % per;
    assert n == q * per + o;
    PlaceBytes(q, per, o, n, size);
    DivModIs(32 * n, q, 32 * o, size);
    OneBlockMore(q, 32 * o, size, blocks);
  }

  lemma {:induction false} OneBlockMore(q: nat, x: nat, size: nat, blocks: nat)
    requires q * size + x + 32 <= blocks * size < q * size + x + 32 + size && x + 32 <= size
    ensures blocks == q + 1 && blocks * size == q * size + size
  {
    Cancel(q, blocks, size);
    assert (q + 2) * size == q * size + 2 * size;
    Cancel(blocks, q + 2, size);
  }

  /** The end of the directory has moved up by one entry, from the state with the disk `d` and the files `f`. */
  ghost predicate EndMoved(geo: Geometry, d: Disk, f: map<nat, File>, d1: Disk, t1: map<Slot, Inode>,
                           f1: map<nat, File>, i: nat, es: seq<seq<byte>>, per: nat) {
    && es != [] && IsDir(geo, d1, t1, f1, i, es[..|es| - 1], per) && i in f && f1 == f[i := f1[i]]
    && OthersKept(d, d1, f, i)
    && |DataOf(f1[i])| <= |DataOf(f[i])| && DataOf(f1[i]) == DataOf(f[i])[..|DataOf(f1[i])|]
  }

  lemma {:induction false} TextPrefix(d: Disk, ns: seq<nat>, size: nat, m: nat)
    requires Sized(d, ns, size) && m <= |ns|
    ensures m * size <= |Text(d, ns)| && Text(d, ns[..m]) == Text(d, ns)[..m * size]
  {
    TextSize(d, ns[..m], size);
    if m < |ns| {
      TextPrefix(d, ns[..|ns| - 1], size, m);
      assert ns[..|ns| - 1][..m] == ns[..m];
    } else {
      assert ns[..m] == ns;
    }
  }

  /** The last entry is not the first of its block: its name is made empty. */
  lemma {:induction false} EndMarked(geo: Geometry, d: Disk, t: map<Slot, Inode>, f: map<nat, File>, i: nat,
                                     es: seq<seq<byte>>, per: nat, n: nat, off: nat, last: nat, e: seq<byte>)
    requires IsDir(geo, d, t, f, i, es, per) && n + 1 == |es| && off == 32 * n % geo.BlockSize() && off != 0
             && |e| == ENTRY && e[NAME] == 0
    requires DataOf(f[i]) != [] && last == DataOf(f[i])[|DataOf(f[i])| - 1]
    ensures last < |d| && off + 32 <= |d[last]| && BitsKept(geo, d, d[last := Put(d[last], off, e)])
    ensures EndMoved(geo, d, f, d[last := Put(d[last], off, e)],
            t[SlotOf(geo, i) := t[SlotOf(geo, i)].(size := t[SlotOf(geo, i)].size - 32)], f, i, es, per)
  {
    var q := |DataOf(f[i])| - 1;
    DirLength(geo, d, t, f, i);
    LastSlot(n, per, geo.BlockSize(), q + 1, off);
    assert 32 * (off / 32) == off;
    PlaceBytes(q, per, off / 32, n, geo.BlockSize());
    SlotWritten(geo, d, t, f, i, per, q, off / 32, n, e, last);
    LastMarked(Text(d, DataOf(f[i])), es, geo.BlockSize(), n, e);
    SizeSound(geo, d[last := Put(d[last], off, e)], t, f, i, t[SlotOf(geo, i)].size - 32);
  }

  /** The last entry is the first of its block, which is released. */
  lemma {:induction false} EndCut(geo: Geometry, d: Disk, t: map<Slot, Inode>, f: map<nat, File>, i: nat,
                                  es: seq<seq<byte>>, per: nat, n: nat, d1: Disk, inode: Inode, f': File,
                                  gone: seq<nat>)
    requires IsDir(geo, d, t, f, i, es, per) && n + 1 == |es| && 32 * n % geo.BlockSize() == 0
    requires Formatted(geo, d1) && forall x: nat {:trigger InData(geo, x)} :: InData(geo, x) ==> d1[x] == d[x]
    requires Shortened(geo.fan, f[i], f', gone) && |DataOf(f')| + 1 == |DataOf(f[i])|
    requires inode.mode == t[SlotOf(geo, i)].mode && inode.size == 32 * n
             && Sound(geo, d1, t[SlotOf(geo, i) := inode], f[i := f'])
    ensures EndMoved(geo, d, f, d1, t[SlotOf(geo, i) := inode], f[i := f'], i, es, per)
  {
    var ns, m := DataOf(f[i]), |DataOf(f')|;
    DirLength(geo, d, t, f, i);
    DataBlocks(geo, d, t, f, i);
    LastSlot(n, per, geo.BlockSize(), m + 1, 0);
    TextPrefix(d, ns, geo.BlockSize(), m);
    LastCut(Text(d, ns), es, geo.BlockSize(), n);
    TextsSame(geo, d, d1, t, f, i);
    BlocksSame(geo, d, d1, t, f, i);
    SameText(d, d1, ns[..m]);
  }

  lemma {:induction false} BlocksSame(geo: Geometry, d: Disk, d1: Disk, t: map<Slot, Inode>, f: map<nat, File>, i: nat)
    requires Sound(geo, d, t, f) && Formatted(geo, d1) && i in f
             && forall x: nat {:trigger InData(geo, x)} :: InData(geo, x) ==> d1[x] == d[x]
    ensures forall k :: 0 <= k < |DataOf(f[i])| ==> BlockOf(d1, DataOf(f[i])[k]) == BlockOf(d, DataOf(f[i])[k])
  {
    var ns := DataOf(f[i]);
    DataBlocks(geo, d, t, f, i);
    forall k | 0 <= k < |ns| ensures BlockOf(d1, ns[k]) == BlockOf(d, ns[k]) {
      assert InUse(geo, d, ns[k]) && InData(geo, ns[k]);
    }
  }

  lemma {:induction false} TextsSame(geo: Geometry, d: Disk, d1: Disk, t: map<Slot, Inode>, f: map<nat, File>, i: nat)
    requires Sound(geo, d, t, f) && Formatted(geo, d1)
             && forall x: nat {:trigger InData(geo, x)} :: InData(geo, x) ==> d1[x] == d[x]
    ensures OthersKept(d, d1, f, i)
  {
    forall j | j in f && j != i ensures Text(d1, DataOf(f[j])) == Text(d, DataOf(f[j])) {
      BlocksSame(geo, d, d1, t, f, j);
      SameText(d, d1, DataOf(f[j]));
    }
  }

  /** The last entry is where its inode can be read on the disk `d`: at byte `off` of block `last`, which belongs to the
      file `f'` only if there is an entry before it in the block. */
  ghost predicate EndAt(geo: Geometry, d: Disk, files: map<nat, File>, i: nat, f': File, last: nat, off: nat,
                        e: seq<byte>)
    requires geo.Sane() && i in files
  {
    && InData(geo, last) && last < |d| && off + 32 <= |d[last]| && |e| == ENTRY
    && InodeOf(d[last][off..off + 32]) == InodeOf(e)
    && (off == 0 ==> Free(files[i := f'], last)) && (off != 0 ==> f' == files[i])
  }

  lemma {:induction false} LastView(geo: Geometry, d: Disk, t: map<Slot, Inode>, f: map<nat, File>, i: nat,
                                    es: seq<seq<byte>>, per: nat, n: nat, off: nat)
    requires IsDir(geo, d, t, f, i, es, per) && n + 1 == |es| && off == 32 * n % geo.BlockSize()
    ensures DataOf(f[i]) != []
    ensures var last := DataOf(f[i])[|DataOf(f[i])| - 1];
            && InData(geo, last) && last < |d| && off + 32 <= |d[last]| == geo.BlockSize()
            && d[last][off..off + 32] == es[n] && Live(es[n])
            && Place(|DataOf(f[i])| - 1, per, off / 32, n) && 32 * (off / 32) == off
  {
    var ns := DataOf(f[i]);
    DirLength(geo, d, t, f, i);
    DataBlocks(geo, d, t, f, i);
    LastSlot(n, per, geo.BlockSize(), |ns|, off);
    EntryView(d, ns, geo.BlockSize(), per, es, |ns| - 1, off / 32, n);
    assert InUse(geo, d, ns[|ns| - 1]) && Live(es[n]);
  }

  lemma {:induction false} NameByte(block: Block, off: nat)
    requires off + 32 <= |block|
    ensures var e := block[off..off + 32][NAME := 0];
            block[off + NAME := 0] == Put(block, off, e) && block[off + NAME := 0][off..off + 32] == e
                && InodeOf(e) == InodeOf(block[off..off + 32])
  {
  }

  /** The name of the last entry is made empty. */
  method MarkLast(fs: Ext2Fs, i: nat, inode: Inode, last: nat, off: nat, ghost per: nat, ghost es: seq<seq<byte>>,
                  ghost n: nat) returns (inode': Inode)
    requires fs.Valid() && IsDir(fs.geo, fs.disk, fs.table, fs.files, i, es, per) && n + 1 == |es|
             && inode == fs.table[SlotOf(fs.geo, i)]
    requires off == 32 * n % fs.geo.BlockSize() && off != 0 && DataOf(fs.files[i]) != []
             && last == DataOf(fs.files[i])[|DataOf(fs.files[i])| - 1]
    modifies fs`disk
    ensures EndMoved(fs.geo, old(fs.disk), fs.files, fs.disk, fs.table[SlotOf(fs.geo, i) := inode'], fs.files, i, es,
            per)
    ensures EndAt(fs.geo, fs.disk, fs.files, i, fs.files[i], last, off, es[n]) && fs.Books() == old(fs.Books())
            && inode'.mode == inode.mode
  {
    LastView(fs.geo, fs.disk, fs.table, fs.files, i, es, per, n, off);
    var block := fs.disk[last];
    NameByte(block, off);
    EndMarked(fs.geo, fs.disk, fs.table, fs.files, i, es, per, n, off, last, block[off..off + 32][NAME := 0]);
    inode' := inode.(size := inode.size - ENTRY);
    block := block[off + NAME := 0];
    SameFree(fs.geo, fs.disk, fs.disk[last := block], fs.groupFree, fs.freeBlocks);
    fs.disk := fs.disk[last := block];
  }

  /** The block that was cut off is in no file any more. */
  lemma {:induction false} CutFree(geo: Geometry, d: Disk, t: map<Slot, Inode>, f: map<nat, File>, i: nat, f': File,
                                   gone: seq<nat>)
    requires Sound(geo, d, t, f) && i in f && Shortened(geo.fan, f[i], f', gone) && |DataOf(f')| + 1 == |DataOf(f[i])|
    ensures Free(f[i := f'], DataOf(f[i])[|DataOf(f')|])
  {
    var m, ns := |DataOf(f')|, DataOf(f[i]);
    DataBlocks(geo, d, t, f, i);
    var g := f[i := f'];
    forall j | j in g ensures ns[m] !in BlocksOf(g[j]) {
      DataAlone(geo, d, t, f, i, ns[m], j);
    }
  }

  /** The last block of a file is released, and its inode gets the size `size`, though not on the disk yet. */
  method ReleaseOne(fs: Ext2Fs, i: nat, inode: Inode, bnum: seq<nat>, size: u32)
    returns (inode': Inode, ghost f': File, ghost gone: seq<nat>)
    requires fs.Valid() && i in fs.files && i >= 1 && SlotOf(fs.geo, i) in fs.table
             && inode == fs.table[SlotOf(fs.geo, i)]
    requires bnum == DataOf(fs.files[i]) && bnum != []
    modifies fs`disk, fs`freeBlocks, fs`groupFree
    ensures |fs.groupFree| == fs.geo.groups && Formatted(fs.geo, fs.disk) && fs.Books() == old(fs.Books())
    ensures forall x: nat {:trigger InData(fs.geo, x)} :: InData(fs.geo, x) ==> fs.disk[x] == old(fs.disk)[x]
    ensures Shortened(fs.geo.fan, fs.files[i], f', gone) && |DataOf(f')| + 1 == |DataOf(fs.files[i])|
    ensures inode'.mode == inode.mode && inode'.size == size
            && Sound(fs.geo, fs.disk, fs.table[SlotOf(fs.geo, i) := inode'], fs.files[i := f'])
  {
    var none := seq(fs.geo.groups, g => 0);
    var group;
    ghost var cs;
    inode', group, f', gone, cs := fs.ReleaseBlock(inode, bnum, 1, none, i);
    fs.IncreaseFreeBlock(group);
    ReleaseBooks(fs.geo, old(fs.disk), fs.disk, none, group, cs, old(fs.groupFree), old(fs.freeBlocks), fs.groupFree,
        fs.freeBlocks);
    inode' := inode'.(size := size);
  }

  /** The block of the last entry is released. */
  method CutLast(fs: Ext2Fs, i: nat, inode: Inode, bnum: seq<nat>, ghost per: nat, ghost es: seq<seq<byte>>,
                 ghost n: nat) returns (inode': Inode, ghost f': File)
    requires fs.Valid() && IsDir(fs.geo, fs.disk, fs.table, fs.files, i, es, per) && n + 1 == |es|
             && inode == fs.table[SlotOf(fs.geo, i)]
    requires 32 * n % fs.geo.BlockSize() == 0 && bnum == DataOf(fs.files[i]) && bnum != []
    modifies fs`disk, fs`freeBlocks, fs`groupFree
    ensures |fs.groupFree| == fs.geo.groups && fs.Books() == old(fs.Books())
    ensures EndMoved(fs.geo, old(fs.disk), fs.files, fs.disk, fs.table[SlotOf(fs.geo, i) := inode'], fs.files[i := f'],
            i, es, per)
    ensures EndAt(fs.geo, fs.disk, fs.files, i, f', bnum[|bnum| - 1], 0, es[n]) && inode'.mode == inode.mode
  {
    ghost var d := fs.disk;
    LastView(fs.geo, d, fs.table, fs.files, i, es, per, n, 0);
    ghost var gone;
    inode', f', gone := ReleaseOne(fs, i, inode, bnum, inode.size - ENTRY);
    CutFree(fs.geo, d, fs.table, fs.files, i, f', gone);
    EndCut(fs.geo, d, fs.table, fs.files, i, es, per, n, fs.disk, inode', f', gone);
  }

  /** What is written where entry `k` was, into block `b` on the disk `d1`: the inode that is compared is that of the
      entry. */
  ghost predicate EntryFilled(geo: Geometry, d: Disk, f: map<nat, File>, d1: Disk, t1: map<Slot, Inode>,
                              f1: map<nat, File>, i: nat, es: seq<seq<byte>>, per: nat, k: nat, b: nat, offset: nat) {
    && k < |es| && |es[k]| == ENTRY && |es[|es| - 1]| == ENTRY
    && b < |d1| && offset + 32 <= |d1[b]| && InodeOf(d1[b][offset..offset + 32]) == InodeOf(es[k])
    && var d2 := d1[b := Put(d1[b], offset, Replacement(es, k))];
       && Sound(geo, d2, t1, f1) && OthersKept(d, d2, f, i) && BitsKept(geo, d1, d2)
       && i in f1 && Filled(Text(d2, DataOf(f1[i])), es, geo.BlockSize(), k)
       && (IsDir(geo, d2, t1, f1, i, Removed(es, k), per) <==>
             k == |es| - 1 || InodeOf(es[k]) != InodeOf(es[|es| - 1]))
  }

  /** An entry before the last one. */
  lemma {:induction false} GapFilled(geo: Geometry, d: Disk, f: map<nat, File>, d1: Disk, t1: map<Slot, Inode>,
                                     f1: map<nat, File>, i: nat, es: seq<seq<byte>>, per: nat, k: nat, q: nat, o: nat,
                                     b: nat)
    requires EndMoved(geo, d, f, d1, t1, f1, i, es, per) && k < |es| - 1 && Live(es[k]) && Live(es[|es| - 1])
    requires Place(q, per, o, k) && q < |DataOf(f[i])| && b == DataOf(f[i])[q]
    ensures EntryFilled(geo, d, f, d1, t1, f1, i, es, per, k, b, 32 * o)
  {
    var n := |es| - 1;
    EntryBlock(geo, d1, t1, f1, i, es[..n], per, k, q, o);
    assert es[..n][k] == es[k] && DataOf(f1[i])[q] == b;
    GapWritten(geo, d1, t1, f1, i, es, per, k, q, o, b, n);
    OthersAfter(d, d1, d1[b := Put(d1[b], 32 * o, Replacement(es, k))], f, f1, i);
  }

  lemma {:induction false} GapWritten(geo: Geometry, d1: Disk, t1: map<Slot, Inode>, f1: map<nat, File>, i: nat,
                                      es: seq<seq<byte>>, per: nat, k: nat, q: nat, o: nat, b: nat, n: nat)
    requires n + 1 == |es| && IsDir(geo, d1, t1, f1, i, es[..n], per) && k < n && Live(es[k]) && Live(es[n])
    requires Place(q, per, o, k) && q < |DataOf(f1[i])| && b == DataOf(f1[i])[q]
    ensures b < |d1| && 32 * o + 32 <= |d1[b]|
    ensures var d2 := d1[b := Put(d1[b], 32 * o, Replacement(es, k))];
            Sound(geo, d2, t1, f1) && OthersKept(d1, d2, f1, i) && BitsKept(geo, d1, d2)
                && Filled(Text(d2, DataOf(f1[i])), es, geo.BlockSize(), k)
                && (IsDir(geo, d2, t1, f1, i, Removed(es, k), per) <==> InodeOf(es[k]) != InodeOf(es[n]))
  {
    PlaceBytes(q, per, o, k, geo.BlockSize());
    SlotWritten(geo, d1, t1, f1, i, per, q, o, k, Replacement(es, k), b);
    MovedIff(Text(d1, DataOf(f1[i])), es, geo.BlockSize(), k, n);
    FilledBy(Text(d1, DataOf(f1[i])), es, geo.BlockSize(), k, n);
  }

  lemma {:induction false} EntryBlock(geo: Geometry, d: Disk, t: map<Slot, Inode>, f: map<nat, File>, i: nat,
                                      es: seq<seq<byte>>, per: nat, k: nat, q: nat, o: nat)
    requires IsDir(geo, d, t, f, i, es, per) && k < |es| && Place(q, per, o, k)
    ensures q < |DataOf(f[i])|
    ensures var b := DataOf(f[i])[q]; b < |d| && 32 * o + 32 <= |d[b]| && d[b][32 * o..32 * o + 32] == es[k]
  {
    var ns := DataOf(f[i]);
    DirLength(geo, d, t, f, i);
    DataBlocks(geo, d, t, f, i);
    PlaceBytes(q, per, o, k, geo.BlockSize());
    Cancel(q, |ns|, geo.BlockSize());
    EntryView(d, ns, geo.BlockSize(), per, es, q, o, k);
  }

  /** The last entry itself. */
  lemma {:induction false} EndErased(geo: Geometry, d: Disk, f: map<nat, File>, d1: Disk, t1: map<Slot, Inode>,
                                     f1: map<nat, File>, i: nat, es: seq<seq<byte>>, per: nat, q: nat, o: nat, b: nat)
    requires EndMoved(geo, d, f, d1, t1, f1, i, es, per) && Live(es[|es| - 1])
             && EndAt(geo, d1, f, i, f1[i], b, 32 * o, es[|es| - 1])
    requires Place(q, per, o, |es| - 1) && q < |DataOf(f[i])| && b == DataOf(f[i])[q]
    ensures EntryFilled(geo, d, f, d1, t1, f1, i, es, per, |es| - 1, b, 32 * o)
  {
    var n := |es| - 1;
    var r := Replacement(es, n);
    var d2 := d1[b := Put(d1[b], 32 * o, r)];
    assert Removed(es, n) == es[..n];
    if o == 0 {
      StrayWritten(geo, d1, t1, f1, b, Put(d1[b], 0, r));
      StrayKept(d1, d1, b, Put(d1[b], 0, r), f1, i);
    } else {
      SlotWritten(geo, d1, t1, f1, i, per, q, o, n, r, b);
      ErasedAgain(Text(d1, DataOf(f1[i])), es[..n], geo.BlockSize(), n, r);
    }
    FilledLast(Text(d2, DataOf(f1[i])), es, geo.BlockSize(), n);
    OthersAfter(d, d1, d2, f, f1, i);
  }

  lemma {:induction false} OnePlace(q: nat, q': nat, per: nat, o: nat, o': nat, k: nat)
    requires Place(q, per, o, k) && Place(q', per, o', k)
    ensures q == q' && o == o'
  {
    DivModIs(k, q, o, per);
    DivModIs(k, q', o', per);
  }

  lemma {:induction false} EntryGone(geo: Geometry, d: Disk, f: map<nat, File>, d1: Disk, t1: map<Slot, Inode>,
                                     f1: map<nat, File>, i: nat, es: seq<seq<byte>>, per: nat,
                                     k: nat, q: nat, o: nat, b: nat, last: nat, lo: nat)
    requires EndMoved(geo, d, f, d1, t1, f1, i, es, per) && k < |es| && Live(es[k]) && Live(es[|es| - 1])
             && DataOf(f[i]) != []
    requires EndAt(geo, d1, f, i, f1[i], last, 32 * lo, es[|es| - 1]) && last == DataOf(f[i])[|DataOf(f[i])| - 1]
    requires Place(|DataOf(f[i])| - 1, per, lo, |es| - 1)
    requires Place(q, per, o, k) && q < |DataOf(f[i])| && b == DataOf(f[i])[q]
    ensures EntryFilled(geo, d, f, d1, t1, f1, i, es, per, k, b, 32 * o)
  {
    if k < |es| - 1 {
      GapFilled(geo, d, f, d1, t1, f1, i, es, per, k, q, o, b);
    } else {
      assert o == lo && b == last && k == |es| - 1 by { OnePlace(q, |DataOf(f[i])| - 1, per, o, lo, k); }
      EndErased(geo, d, f, d1, t1, f1, i, es, per, q, o, b);
    }
  }

  /** The first half of `release_dir_entry`: the last entry is read, and the directory ends before it. */
  method MoveEnd(fs: Ext2Fs, i: nat, inode: Inode, bnum: seq<nat>, last: nat, off: nat, ghost per: nat,
                 ghost es: seq<seq<byte>>, ghost n: nat)
    returns (inode': Inode, e: seq<byte>, ghost f': File)
    requires fs.Valid() && IsDir(fs.geo, fs.disk, fs.table, fs.files, i, es, per) && n + 1 == |es|
             && inode == fs.table[SlotOf(fs.geo, i)]
    requires bnum == DataOf(fs.files[i]) && off == 32 * n % fs.geo.BlockSize() && bnum != [] && last == bnum[|bnum| - 1]
    modifies fs`disk, fs`freeBlocks, fs`groupFree
    ensures |fs.groupFree| == fs.geo.groups && e == es[n] && fs.Books() == old(fs.Books())
    ensures EndMoved(fs.geo, old(fs.disk), fs.files, fs.disk, fs.table[SlotOf(fs.geo, i) := inode'], fs.files[i := f'],
            i, es, per)
    ensures EndAt(fs.geo, fs.disk, fs.files, i, f', last, off, es[n]) && inode'.mode == inode.mode
  {
    LastView(fs.geo, fs.disk, fs.table, fs.files, i, es, per, n, off);
    e := fs.disk[last][off..off + 32];
    if off == 0 {
      inode', f' := CutLast(fs, i, inode, bnum, per, es, n);
      return;
    }
    f' := fs.files[i];
    TextsSelf(fs.geo, fs.disk, fs.table, fs.files, i);
    inode' := MarkLast(fs, i, inode, last, off, per, es, n);
  }

  /** The second half: the last entry, or a mark if it has got the same inode, goes where entry `k` was. */
  method Overwrite(fs: Ext2Fs, b: nat, offset: nat, e: seq<byte>, ghost d: Disk, ghost f: map<nat, File>,
                   ghost t1: map<Slot, Inode>, ghost f1: map<nat, File>,
                   ghost i: nat, ghost es: seq<seq<byte>>, ghost per: nat, ghost k: nat, ghost q: nat, ghost o: nat,
                       ghost last: nat, ghost lo: nat)
    requires EndMoved(fs.geo, d, f, fs.disk, t1, f1, i, es, per) && k < |es| && Live(es[k]) && Live(es[|es| - 1])
             && e == es[|es| - 1] && DataOf(f[i]) != []
    requires EndAt(fs.geo, fs.disk, f, i, f1[i], last, 32 * lo, es[|es| - 1])
             && last == DataOf(f[i])[|DataOf(f[i])| - 1]
    requires Place(|DataOf(f[i])| - 1, per, lo, |es| - 1)
    requires Place(q, per, o, k) && q < |DataOf(f[i])| && b == DataOf(f[i])[q] && offset == 32 * o
    modifies fs`disk
    ensures Sound(fs.geo, fs.disk, t1, f1) && OthersKept(d, fs.disk, f, i) && fs.Books() == old(fs.Books())
    ensures |es[k]| == ENTRY && |es[|es| - 1]| == ENTRY && i in f1
            && Filled(Text(fs.disk, DataOf(f1[i])), es, fs.geo.BlockSize(), k)
    ensures IsDir(fs.geo, fs.disk, t1, f1, i, Removed(es, k), per) <==>
              k == |es| - 1 || InodeOf(es[k]) != InodeOf(es[|es| - 1])
  {
    EntryGone(fs.geo, d, f, fs.disk, t1, f1, i, es, per, k, q, o, b, last, lo);
    var block, r := fs.disk[b], e;
    if InodeOf(block[offset..offset + 32]) == InodeOf(e) {
      r := Erased(e);
    }
    SameFree(fs.geo, fs.disk, fs.disk[b := Put(block, offset, r)], fs.groupFree, fs.freeBlocks);
    fs.disk := fs.disk[b := Put(block, offset, r)];
  }

  lemma {:induction false} EntryLive(text: seq<byte>, es: seq<seq<byte>>, size: nat, k: nat)
    requires Directory(text, es, size) && k < |es|
    ensures Live(es[k])
  {
  }

  /** `release_dir_entry`, for entry `k`, which is in slot `o` of block `b`. It removes the entry, the last one
      taking its place, if and only if the last entry is the same or has got another inode. */
  method ReleaseDirEntry(fs: Ext2Fs, i: nat, b: nat, offset: nat, ghost k: nat, ghost q: nat, ghost o: nat,
                         ghost per: nat, ghost es: seq<seq<byte>>)
    requires fs.Valid() && IsDir(fs.geo, fs.disk, fs.table, fs.files, i, es, per) && k < |es|
    requires Place(q, per, o, k) && q < |DataOf(fs.files[i])| && b == DataOf(fs.files[i])[q] && offset == 32 * o
    modifies fs
    ensures fs.Valid() && i in old(fs.files) && OthersKept(old(fs.disk), fs.disk, old(fs.files), i) && i in fs.files
            && fs.files == old(fs.files)[i := fs.files[i]]
    ensures |es[k]| == ENTRY && |es[|es| - 1]| == ENTRY && fs.Books() == old(fs.Books())
    ensures OneInode(fs.geo, old(fs.table), fs.table, old(fs.files), fs.files, i)
    ensures fs.table[SlotOf(fs.geo, i)].size == 32 * (|es| - 1) && Filled(FileText(fs, i), es, fs.geo.BlockSize(), k)
    ensures IsDir(fs.geo, fs.disk, fs.table, fs.files, i, Removed(es, k), per) <==>
              k == |es| - 1 || InodeOf(es[k]) != InodeOf(es[|es| - 1])
  {
    ghost var d, f, n := fs.disk, fs.files, |es| - 1;
    var inode, bnum := fs.GetDataBlocks(i);
    var off := (inode.size - ENTRY) % fs.geo.BlockSize();
    LastView(fs.geo, d, fs.table, f, i, es, per, n, off);
    var last := bnum[|bnum| - 1];
    var e;
    ghost var f';
    EntryLive(FileText(fs, i), es, fs.geo.BlockSize(), k);
    inode, e, f' := MoveEnd(fs, i, inode, bnum, last, off, per, es, n);
    ghost var t1, f1 := fs.table[SlotOf(fs.geo, i) := inode], f[i := f'];
    Overwrite(fs, b, offset, e, d, f, t1, f1, i, es, per, k, q, o, last, off / 32);
    fs.table := fs.table[SlotOf(fs.geo, i) := inode];
    fs.files := f1;
  }
}
