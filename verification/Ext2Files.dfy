/** Inodes and the files they describe, and when a disk holds them. */
module Ext2Files {
  import opened Arith
  import opened Fixed
  import opened Bytes
  import opened Seqs
  import opened IndexTree
  import opened BlockMap
  import opened Ext2Disk

  /** The fields of `INODE` that locating blocks needs. */
  datatype Inode = Inode(mode: u32, size: u32, blocks: u32, block: seq<u32>)

  const N_BLOCKS := 15

  // ----- the inode table -----

  /** A place in the table: a group, a block of its table, and a position in that block. */
  datatype Slot = Slot(group: nat, block: nat, index: nat)

  /** The place that `get_inode` computes for inode `i`. The position is taken from the number on the whole disk. */
  function SlotOf(geo: Geometry, i: nat): Slot
    requires geo.Sane() && i >= 1
  {
    Slot((i - 1) / geo.inodesPerGroup, (i - 1) % geo.inodesPerGroup / geo.inodesPerBlock, (i - 1) % geo.inodesPerBlock)
  }

  /** No two inodes share a place. */
  lemma {:induction false} SlotsApart(geo: Geometry, i: nat, j: nat)
    requires geo.Sane() && i >= 1 && j >= 1 && SlotOf(geo, i) == SlotOf(geo, j)
    ensures i == j
  {
    var g, p := geo.inodesPerGroup, geo.inodesPerBlock;
    var x, y := i - 1, j - 1;
    SplitInto(x, g);
    SplitInto(y, g);
    SplitInto(x % g, p);
    SplitInto(y % g, p);
    SplitInto(x, p);
    SplitInto(y, p);
    // within a group and a block the numbers differ by less than `p`
    OneMultiple(x, y, p);
  }

  lemma {:induction false} SplitInto(x: nat, c: nat)
    requires c > 0
    ensures x == x / c * c + x % c && x % c < c
  {
  }

  lemma {:induction false} OneMultiple(x: nat, y: nat, p: nat)
    requires p > 0 && x % p == y % p && x < y + p && y < x + p
    ensures x == y
  {
    SplitInto(x, p);
    SplitInto(y, p);
    if x / p < y / p {
      MulStep(x / p, y / p, p);
    } else if y / p < x / p {
      MulStep(y / p, x / p, p);
    }
  }

  /** The group holds the inode, the block the part of the table in which its number in the group lies, and its
      position is what its number on the whole disk leaves of whole blocks. */
  lemma {:induction false} SlotIs(geo: Geometry, i: nat, g: nat, x: nat, b: nat, y: nat, m: nat, k: nat)
    requires geo.Sane() && i >= 1
    requires i - 1 == g * geo.inodesPerGroup + x && x < geo.inodesPerGroup
    requires x == b * geo.inodesPerBlock + y && y < geo.inodesPerBlock
    requires i - 1 == m * geo.inodesPerBlock + k && k < geo.inodesPerBlock
    ensures SlotOf(geo, i) == Slot(g, b, k)
  {
    DivModIs(i - 1, g, x, geo.inodesPerGroup);
    DivModIs(x, b, y, geo.inodesPerBlock);
    DivModIs(i - 1, m, k, geo.inodesPerBlock);
  }

  /** The place is where the inodes of its group, laid one behind the other, would have it. */
  predicate InOrder(geo: Geometry, i: nat)
    requires geo.Sane() && i >= 1
  {
    var s := SlotOf(geo, i);
    i - 1 == s.group * geo.inodesPerGroup + s.block * geo.inodesPerBlock + s.index
  }

  /** All the inodes are in order if and only if those of a group fill whole blocks. */
  lemma {:induction false} InOrderIff(geo: Geometry)
    requires geo.Sane()
    ensures (forall i: nat :: i >= 1 ==> InOrder(geo, i)) <==> geo.inodesPerGroup % geo.inodesPerBlock == 0
  {
    var g, p := geo.inodesPerGroup, geo.inodesPerBlock;
    if g % p == 0 {
      forall i: nat | i >= 1 ensures InOrder(geo, i) { WholeBlocks(geo, i); }
    } else {
      SplitInto(g, p);
      SlotIs(geo, g + 1, 1, 0, 0, 0, g / p, g % p);
      assert !InOrder(geo, g + 1);
    }
  }

  lemma {:induction false} WholeBlocks(geo: Geometry, i: nat)
    requires geo.Sane() && i >= 1 && geo.inodesPerGroup % geo.inodesPerBlock == 0
    ensures InOrder(geo, i)
  {
    var g, p := geo.inodesPerGroup, geo.inodesPerBlock;
    var q, x := (i - 1) / g, (i - 1) % g;
    SplitInto(i - 1, g);
    SplitInto(x, p);
    SplitInto(g, p);
    Assoc(q, g / p, p);
    var m := q * (g / p) + x / p;
    assert m * p == q * (g / p) * p + x / p * p;
    SlotIs(geo, i, q, x, x / p, x % p, m, x % p);
  }

  /** An inode lies within the first `n` blocks of the table of its group if and only if its number there is below what
      these hold. */
  lemma {:induction false} InTableIff(geo: Geometry, i: nat, n: nat)
    requires geo.Sane() && i >= 1
    ensures SlotOf(geo, i).block < n <==> (i - 1) % geo.inodesPerGroup < n * geo.inodesPerBlock
  {
    var x, p := (i - 1) % geo.inodesPerGroup, geo.inodesPerBlock;
    SplitInto(x, p);
    if x / p < n { MulStep(x / p, n, p); } else { MulUp(n, p, x / p, p); }
  }

  /** The format as `ext2_format` writes it: the table of a group begins with its block 5 and has four blocks. */
  const SHIPPED := Geometry(256, 4, 30, 9, 3, 175, 8)
  const TABLE_START := 5

  /** The inodes from the 33rd of a group on lie behind the table, in the data blocks. */
  lemma {:induction false} TableTooSmall(i: nat)
    requires 1 <= i <= 700
    ensures SHIPPED.Sane() && SlotOf(SHIPPED, i).group < SHIPPED.groups
    ensures TABLE_START + SlotOf(SHIPPED, i).block >= SHIPPED.first <==> (i - 1) % 175 >= 32
  {
    InTableIff(SHIPPED, i, SHIPPED.first - TABLE_START);
  }

  // ----- files -----

  /** Block `n` lies behind the part of its group that the format takes. */
  predicate InData(geo: Geometry, n: nat)
    requires geo.Sane()
  {
    n < geo.Total() && geo.IndexOf(n) >= geo.first
  }

  /** It is such a block, and its bit is set. */
  predicate InUse(geo: Geometry, d: Disk, n: nat)
    requires Formatted(geo, d)
  {
    InData(geo, n) && Used(geo, d, geo.GroupOf(n), geo.IndexOf(n))
  }

  function BlocksOf(f: File): seq<nat> { PointersOf(f) + DataOf(f) }

  /** The trees of a file as they lie on the disk. */
  ghost predicate TreesStored(d: Disk, f: File) { forall k :: 0 <= k < |f.trees| ==> Stores(d, k + 1, f.trees[k]) }

  /** The inode points to the blocks that the file starts from. */
  ghost predicate Agrees(ino: Inode, f: File) {
    && |ino.block| == N_BLOCKS && |f.direct| <= DIRECT && |f.trees| <= 3 && ino.blocks == |DataOf(f)|
    && (forall k :: 0 <= k < |f.direct| ==> ino.block[k] == f.direct[k])
    && (forall k :: 0 <= k < |f.trees| ==> ino.block[DIRECT + k] == f.trees[k].b)
  }

  /** The tree of height `h`, in which block `n` is block `x`, and the pointer to it. */
  lemma {:induction false} WalkFrom(fan: nat, double: nat, d: Disk, ino: Inode, f: File, n: nat, h: nat, x: nat)
    requires Shape(fan, f) && Agrees(ino, f) && TreesStored(d, f) && fan > 0 && n < |DataOf(f)| && double == fan * fan
    requires 1 <= h <= 3 && n == FirstOf(fan, double, h) + x && (h == 1 ==> x < fan) && (h == 2 ==> x < double)
    ensures h <= |f.trees| && |ino.block| == N_BLOCKS && ino.block[DIRECT + (h - 1)] == f.trees[h - 1].b
    ensures Packed(fan, h, f.trees[h - 1]) && Stores(d, h, f.trees[h - 1])
    ensures x < |Leaves(h, f.trees[h - 1])| && DataOf(f)[n] == Leaves(h, f.trees[h - 1])[x]
  {
    InTree(fan, double, f, n, h, x);
    var k := h - 1;
    assert Packed(fan, k + 1, f.trees[k]) && Stores(d, k + 1, f.trees[k]);
  }

  lemma {:induction false} DirectAt(fan: nat, ino: Inode, f: File, n: nat)
    requires Shape(fan, f) && Agrees(ino, f) && fan > 0 && n < |DataOf(f)| && n < DIRECT
    ensures n < |ino.block| && ino.block[n] == DataOf(f)[n]
  {
    FileAt(fan, f, n);
  }

  /** The blocks of a file are data blocks in use, each in one role. */
  ghost predicate Owns(geo: Geometry, d: Disk, f: File)
    requires Formatted(geo, d)
  {
    NoDup(BlocksOf(f)) && forall n :: n in BlocksOf(f) ==> InUse(geo, d, n)
  }

  ghost predicate Apart(f: File, f': File) { forall n :: n in BlocksOf(f) ==> n !in BlocksOf(f') }

  ghost predicate HoldsFile(geo: Geometry, d: Disk, table: map<Slot, Inode>, i: nat, f: File)
    requires Formatted(geo, d)
  {
    && i >= 1 && SlotOf(geo, i) in table && Agrees(table[SlotOf(geo, i)], f)
    && Shape(geo.fan, f) && Owns(geo, d, f) && TreesStored(d, f)
  }

  /** The blocks of the format are marked as used. */
  ghost predicate MetaUsed(geo: Geometry, d: Disk)
    requires Formatted(geo, d)
  {
    forall g, b :: 0 <= g < geo.groups && 0 <= b < geo.first ==> Used(geo, d, g, b)
  }

  /** The disk and the inode table hold the files, no two of which share a block. */
  ghost predicate Sound(geo: Geometry, d: Disk, table: map<Slot, Inode>, files: map<nat, File>) {
    && Formatted(geo, d) && MetaUsed(geo, d)
    && (forall i {:trigger HoldsFile(geo, d, table, i, files[i])} :: i in files ==>
          HoldsFile(geo, d, table, i, files[i]))
    && (forall i, j {:trigger Apart(files[i], files[j])} :: i in files && j in files && i != j ==>
          Apart(files[i], files[j]))
  }

  lemma {:induction false} FileView(geo: Geometry, d: Disk, table: map<Slot, Inode>, files: map<nat, File>, i: nat)
    requires Sound(geo, d, table, files) && i in files
    ensures geo.fan > 0 && i >= 1 && SlotOf(geo, i) in table && Agrees(table[SlotOf(geo, i)], files[i])
            && Shape(geo.fan, files[i])
    ensures forall k :: 0 <= k < |files[i].trees| ==> Stores(d, k + 1, files[i].trees[k])
  {
    assert HoldsFile(geo, d, table, i, files[i]);
  }

  /** Block `n` belongs to no file. */
  ghost predicate Free(files: map<nat, File>, n: nat) { forall i :: i in files ==> n !in BlocksOf(files[i]) }

  lemma {:induction false} UnusedIsFree(geo: Geometry, d: Disk, table: map<Slot, Inode>, files: map<nat, File>, n: nat)
    requires Sound(geo, d, table, files) && !InUse(geo, d, n)
    ensures Free(files, n)
  {
    forall i | i in files ensures n !in BlocksOf(files[i]) { assert HoldsFile(geo, d, table, i, files[i]); }
  }

  // ----- changes that no file notices -----

  lemma {:induction false} PointersInside(ts: seq<Ix>, h: nat, k: nat, x: nat)
    requires k < h <= |ts| && x in Spent(k + 1, ts[k])
    ensures x in SpentUpTo(ts, h)
  {
    if k < h - 1 { PointersInside(ts, h - 1, k, x); }
  }

  /** `d'` has the bits of `d` and perhaps more, and the same contents where the file has its pointers. */
  lemma {:induction false} FileStays(geo: Geometry, d: Disk, d': Disk, f: File)
    requires Formatted(geo, d) && Formatted(geo, d') && Owns(geo, d, f) && TreesStored(d, f)
    requires forall n :: n in BlocksOf(f) ==> InUse(geo, d', n)
    requires forall n :: n in PointersOf(f) && n < |d| ==> d'[n] == d[n]
    ensures Owns(geo, d', f) && TreesStored(d', f)
  {
    forall k | 0 <= k < |f.trees| ensures Stores(d', k + 1, f.trees[k]) {
      var h := k + 1;
      forall x | x in Spent(h, f.trees[k]) ensures x in PointersOf(f) { PointersInside(f.trees, |f.trees|, k, x); }
      SameStores(d, d', h, f.trees[k]);
    }
  }

  // ----- taking a block -----

  /** What `alloc_free_block` does to the disk: the block is zeroed and its bit is set. */
  function Taken(geo: Geometry, d: Disk, g: nat, b: nat): (d': Disk)
    requires Formatted(geo, d) && g < geo.groups && geo.first <= b < geo.perGroup
    ensures Formatted(geo, d')
  {
    geo.NumberIn(g, b);
    Marked(geo, d[geo.Number(g, b) := Zeros(geo.BlockSize())], g, b, true)
  }

  lemma {:induction false} BitmapOutside(geo: Geometry, g: nat, x: nat)
    requires geo.Sane() && g < geo.groups && InData(geo, x)
    ensures x != BitmapBlock(geo, g)
  {
    geo.NumberIn(g, geo.bitmap);
  }

  lemma {:induction false} TakenView(geo: Geometry, d: Disk, g: nat, b: nat)
    requires Formatted(geo, d) && g < geo.groups && geo.first <= b < geo.perGroup
    ensures var (d', n) := (Taken(geo, d, g, b), geo.Number(g, b));
            && InData(geo, n) && geo.GroupOf(n) == g && geo.IndexOf(n) == b && d'[n] == Zeros(geo.BlockSize())
            && (forall x: nat {:trigger InData(geo, x)} :: InData(geo, x) && x != n ==> d'[x] == d[x])
            && (forall g', b' :: 0 <= g' < geo.groups && 0 <= b' < geo.perGroup ==>
                  Used(geo, d', g', b') == ((g' == g && b' == b) || Used(geo, d, g', b')))
  {
    var n := geo.Number(g, b);
    geo.NumberIn(g, b);
    var d1 := d[n := Zeros(geo.BlockSize())];
    forall x: nat | InData(geo, x) ensures x != BitmapBlock(geo, g) { BitmapOutside(geo, g, x); }
    forall g', b' | 0 <= g' < geo.groups && 0 <= b' < geo.perGroup
      ensures Used(geo, Taken(geo, d, g, b), g', b') == ((g' == g && b' == b) || Used(geo, d, g', b'))
    {
      MarkedUsed(geo, d1, g, b, true, g', b');
      BitmapOutside(geo, g', n);
    }
  }

  /** No bit is cleared, and no block in use changes. */
  lemma {:induction false} SoundStays(geo: Geometry, d: Disk, d': Disk, table: map<Slot, Inode>, files: map<nat, File>)
    requires Sound(geo, d, table, files) && Formatted(geo, d')
    requires forall g, b :: 0 <= g < geo.groups && 0 <= b < geo.perGroup && Used(geo, d, g, b) ==> Used(geo, d', g, b)
    requires forall x: nat {:trigger InUse(geo, d, x)} :: InUse(geo, d, x) ==> d'[x] == d[x]
    ensures Sound(geo, d', table, files)
  {
    forall i | i in files ensures HoldsFile(geo, d', table, i, files[i]) {
      assert HoldsFile(geo, d, table, i, files[i]);
      PointersOwned(files[i]);
      FileStays(geo, d, d', files[i]);
    }
  }

  lemma {:induction false} PointersOwned(f: File)
    ensures forall x :: x in PointersOf(f) ==> x in BlocksOf(f)
    ensures forall x :: x in DataOf(f) ==> x in BlocksOf(f)
  {
  }

  /** The files do not notice that a block which was not in use is taken. */
  lemma {:induction false} TakenSound(geo: Geometry, d: Disk, table: map<Slot, Inode>, files: map<nat, File>, g: nat,
                                      b: nat)
    requires Sound(geo, d, table, files) && g < geo.groups && geo.first <= b < geo.perGroup && !Used(geo, d, g, b)
    ensures var (d', n) := (Taken(geo, d, g, b), geo.Number(g, b));
            && Sound(geo, d', table, files) && InUse(geo, d', n) && Free(files, n) && !InUse(geo, d, n)
            && forall x: nat {:trigger InUse(geo, d, x)} :: InUse(geo, d, x) ==> InUse(geo, d', x) && d'[x] == d[x]
  {
    TakenView(geo, d, g, b);
    UnusedIsFree(geo, d, table, files, geo.Number(g, b));
    SoundStays(geo, d, Taken(geo, d, g, b), table, files);
  }

  lemma {:induction false} TakenCount(geo: Geometry, d: Disk, g: nat, b: nat, g': nat)
    requires Formatted(geo, d) && g < geo.groups && geo.first <= b < geo.perGroup && g' < geo.groups
             && !Used(geo, d, g, b)
    ensures UsedIn(geo, Taken(geo, d, g, b), g') == UsedIn(geo, d, g') + if g' == g then 1 else 0
  {
    geo.NumberIn(g, b);
    var n := geo.Number(g, b);
    var d1 := d[n := Zeros(geo.BlockSize())];
    forall k, b' | 0 <= k < geo.groups && 0 <= b' < geo.perGroup ensures Used(geo, d1, k, b') == Used(geo, d, k, b') {
      TakenView(geo, d, g, b);
      BitmapOutside(geo, k, n);
    }
    SameUsed(geo, d, d1, g', geo.perGroup);
    MarkedCount(geo, d1, g, b, true, g', geo.perGroup);
  }

  // ----- writing a pointer -----

  function Written(geo: Geometry, d: Disk, n: nat, k: nat, w: u32): (d': Disk)
    requires Formatted(geo, d) && n < geo.Total() && k < geo.fan
    ensures Formatted(geo, d')
  {
    d[n := SetWord(d[n], k, w)]
  }

  /** Writing to a data block changes no bit. */
  lemma {:induction false} WrittenUsed(geo: Geometry, d: Disk, n: nat, k: nat, w: u32)
    requires Formatted(geo, d) && InData(geo, n) && k < geo.fan
    ensures forall g, b :: 0 <= g < geo.groups && 0 <= b < geo.perGroup ==>
              Used(geo, Written(geo, d, n, k, w), g, b) == Used(geo, d, g, b)
    ensures forall x: nat :: InUse(geo, Written(geo, d, n, k, w), x) == InUse(geo, d, x)
  {
    forall g | 0 <= g < geo.groups ensures n != BitmapBlock(geo, g) { BitmapOutside(geo, g, n); }
  }

  /** The other files do not notice a pointer written to a block that they do not own. */
  lemma {:induction false} WrittenSound(geo: Geometry, d: Disk, table: map<Slot, Inode>, files: map<nat, File>, i: nat,
                                        n: nat, k: nat, w: u32)
    requires Sound(geo, d, table, files) && InData(geo, n) && k < geo.fan
    requires forall j :: j in files && j != i ==> n !in BlocksOf(files[j])
    requires i in files ==> TreesStored(Written(geo, d, n, k, w), files[i])
    ensures Sound(geo, Written(geo, d, n, k, w), table, files)
  {
    var d' := Written(geo, d, n, k, w);
    WrittenUsed(geo, d, n, k, w);
    forall j | j in files ensures HoldsFile(geo, d', table, j, files[j]) {
      assert HoldsFile(geo, d, table, j, files[j]);
      if j != i { FileStays(geo, d, d', files[j]); }
    }
  }
}