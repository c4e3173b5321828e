/** src/ext2.c: block allocation, and the block list of a file. */
module Ext2 {
  import opened Arith
  import opened Fixed
  import opened Bytes
  import opened Seqs
  import opened IndexTree
  import opened BlockCut
  import opened BlockMap
  import Directories
  import opened Ext2Disk
  import opened Ext2Files
  import opened Ext2Free
  import opened Ext2Growth
  import opened Ext2Release
  import opened Ext2Strays
  import opened InodeEntries

  /** The lowest `n` bits are set, and no others. */
  lemma {:induction false} AllOnes(x: nat, n: nat, k: nat)
    requires x + 1 == Pow2(n)
    ensures Bit(x, k) <==> k < n
  {
    if n > 0 {
      var p := Pow2(n - 1);
      assert x == 2 * (p - 1) + 1;
      if k > 0 { AllOnes(p - 1, n - 1, k - 1); }
    } else if k > 0 {
      AllOnes(0, 0, k - 1);
    }
  }

  /** The inner loop of `alloc_free_block`: the lowest of the first `n` bits that is clear, or `n`. */
  method FirstClear(x: byte, n: nat) returns (bit: nat)
    requires n <= 8
    ensures bit <= n && (bit < n ==> !Bit(x, bit)) && forall k :: 0 <= k < bit ==> Bit(x, k)
  {
    bit := 0;
    while bit < n && Bit(x, bit)
      invariant bit <= n && forall k :: 0 <= k < bit ==> Bit(x, k)
    {
      bit := bit + 1;
    }
  }

  /** Bit `k` of a bitmap block. */
  predicate BitAt(block: Block, k: nat)
    requires k / 8 < |block|
  {
    Bit(block[k / 8], k % 8)
  }

  lemma {:induction false} ByteBits(block: Block, offset: nat, n: nat)
    requires offset < |block| && n <= 8 && forall k :: 0 <= k < n ==> Bit(block[offset], k)
    ensures forall k :: offset * 8 <= k < offset * 8 + n ==> BitAt(block, k)
  {
    forall k | offset * 8 <= k < offset * 8 + n ensures BitAt(block, k) {
      var j := k - offset * 8;
      assert k / 8 == offset && k % 8 == j && Bit(block[offset], j);
    }
  }

  /** The search of `alloc_free_block` through a bitmap of `bits` bits: the lowest clear bit at or after the byte that
      holds bit `first`, or 0. */
  method FindClear(block: Block, first: nat, bits: nat) returns (b: nat)
    requires 0 < first <= bits <= 8 * |block|
    requires forall k :: first / 8 * 8 <= k < first ==> BitAt(block, k)
    ensures b == 0 ==> forall k :: first <= k < bits ==> BitAt(block, k)
    ensures b != 0 ==> first <= b < bits && !BitAt(block, b) && forall k :: first <= k < b ==> BitAt(block, k)
  {
    var maxBit := bits / 8;
    var offset := first / 8;
    var bit := 8;
    while offset < maxBit
      invariant first / 8 <= offset <= maxBit && bit == 8
      invariant forall k :: first / 8 * 8 <= k < offset * 8 ==> BitAt(block, k)
    {
      if block[offset] == 0xff {
        forall k: nat | k < 8 ensures Bit(block[offset], k) { AllOnes(0xff, 8, k); }
        ByteBits(block, offset, 8);
      } else {
        bit := FirstClear(block[offset], 8);
        ByteBits(block, offset, bit);
        if bit < 8 {
          b := offset * 8 + bit;
          assert b / 8 == offset && b % 8 == bit && !BitAt(block, b);
          return;
        }
      }
      offset := offset + 1;
    }
    b := 0;
    if bits % 8 != 0 {
      bit := FirstClear(block[offset], bits % 8);
      ByteBits(block, offset, bit);
      if bit < bits % 8 {
        b := offset * 8 + bit;
        assert b / 8 == offset && b % 8 == bit && !BitAt(block, b);
      }
    }
    assert bits == offset * 8 + bits % 8;
  }

  /** `inode.mode & 0x4000` */
  predicate IsDirectory(inode: Inode) { inode.mode / 0x4000 % 2 == 1 }

  /** The inode of a file that has got one more block; a directory grows by an entry with it. */
  function Longer(inode: Inode): Inode {
    inode.(blocks := Inc32(inode.blocks, 1), size := if IsDirectory(inode) then Inc32(inode.size, Directories.ENTRY)
        else inode.size)
  }

  /** The inode of file `i`, which had `n` blocks, has become that of a longer file, and no other inode has changed. */
  predicate Lengthened(geo: Geometry, t: map<Slot, Inode>, t': map<Slot, Inode>, i: nat, n: nat) {
    && i >= 1 && geo.Sane() && SlotOf(geo, i) in t && SlotOf(geo, i) in t'
    && var (inode, inode') := (t[SlotOf(geo, i)], t'[SlotOf(geo, i)]);
       t' == t[SlotOf(geo, i) := inode'] && inode' == Longer(inode).(block := inode'.block)
       && OneEntry(geo.fan, inode.block, inode'.block, n)
  }

  lemma {:induction false} LengthenedBy(geo: Geometry, t: map<Slot, Inode>, i: nat, inode: Inode, h: nat, b: nat,
                                        n: nat)
    requires i >= 1 && geo.Sane() && SlotOf(geo, i) in t && |t[SlotOf(geo, i)].block| == N_BLOCKS && 1 <= h <= 3
    requires b < TWO_32 && inode == t[SlotOf(geo, i)].(block := t[SlotOf(geo, i)].block[DIRECT + h - 1 := b])
    requires EntryFor(geo.fan, n) == DIRECT + h - 1 && t[SlotOf(geo, i)].blocks + 1 < TWO_32
    ensures Lengthened(geo, t, t[SlotOf(geo, i) := Longer(inode)], i, n)
            && Counts(t[SlotOf(geo, i)], Longer(inode), h, b)
  {
  }

  lemma {:induction false} NextGroup(at: nat, n: nat)
    requires at < n
    ensures (at + 1) % n == if at + 1 == n then 0 else at + 1
  {
  }

  /** A mounted file system: the disk, its inode table and the counters of free blocks in the superblock and in the
      group descriptors; `files` is what they hold. */
  class Ext2Fs {
    const geo: Geometry
    var disk: Disk
    var table: map<Slot, Inode>
    var freeBlocks: u32
    var groupFree: seq<u32>
    ghost var files: map<nat, File>

    ghost predicate Valid()
      reads this
    {
      Sound(geo, disk, table, files) && |groupFree| == geo.groups
    }

    /** What the counters say, compared with the bitmaps. */
    ghost function Books(): Ledger
      reads this
    {
      LedgerOf(geo, disk, groupFree, freeBlocks)
    }

    /** The number of free data blocks. */
    ghost function Spare(): nat
      reads this
    {
      FreeSize(geo, disk)
    }

    /** How many blocks are marked as used although no file has them. */
    ghost function Stray(): nat
      reads this
    {
      StraySize(geo, disk, files)
    }

    constructor (geo: Geometry, disk: Disk, table: map<Slot, Inode>, freeBlocks: u32, groupFree: seq<u32>,
                 ghost files: map<nat, File>)
      requires Sound(geo, disk, table, files) && |groupFree| == geo.groups
      ensures Valid() && this.geo == geo && this.disk == disk && this.table == table
      ensures this.freeBlocks == freeBlocks && this.groupFree == groupFree && this.files == files
    {
      this.geo, this.disk, this.table, this.freeBlocks, this.groupFree, this.files := geo, disk, table, freeBlocks,
          groupFree, files;
    }

    // ----- allocation -----

    /** `alloc_free_block`: the lowest free data block of the group, or 0 if the group is full. */
    method AllocFreeBlock(group: nat) returns (b: nat)
      requires Valid() && group < geo.groups
      modifies this`disk, this`freeBlocks, this`groupFree
      ensures Valid()
      ensures b == 0 ==> GroupFull(geo, disk, group) && disk == old(disk) && freeBlocks == old(freeBlocks)
                         && groupFree == old(groupFree)
      ensures b != 0 ==>
                && geo.first <= b < geo.perGroup && !Used(geo, old(disk), group, b)
                && (forall k :: geo.first <= k < b ==> Used(geo, old(disk), group, k))
                && disk == Taken(geo, old(disk), group, b)
                && freeBlocks == Dec32(old(freeBlocks)) && groupFree ==
                old(groupFree)[group := Dec32(old(groupFree)[group])]
      ensures Books() == old(Books())
    {
      var bitmap := disk[BitmapBlock(geo, group)];
      forall k | 0 <= k < geo.perGroup ensures Used(geo, disk, group, k) == BitAt(bitmap, k) { }
      b := FindClear(bitmap, geo.first, geo.perGroup);
      if b == 0 {
        return;
      }
      TakenSound(geo, disk, table, files, group, b);
      AllocBooks(geo, disk, groupFree, freeBlocks, group, b);
      disk := Taken(geo, disk, group, b);
      freeBlocks := Dec32(freeBlocks);
      groupFree := groupFree[group := Dec32(groupFree[group])];
    }

    /** The loop around `alloc_free_block`, from group `start` on: it gives up, with 0, only if every group is full. */
    method AllocFrom(start: nat) returns (group: nat, b: nat)
      requires Valid() && start < geo.groups
      modifies this`disk, this`freeBlocks, this`groupFree
      ensures Valid() && group < geo.groups
      ensures b == 0 ==> disk == old(disk) && freeBlocks == old(freeBlocks) && groupFree == old(groupFree)
      ensures b == 0 ==> DiskFull(geo, disk)
      ensures b != 0 ==>
                && geo.first <= b < geo.perGroup && !Used(geo, old(disk), group, b)
                && (forall k :: geo.first <= k < b ==> Used(geo, old(disk), group, k))
                && (forall g :: 0 <= g < geo.groups && Passed(start, group, g) ==> GroupFull(geo, old(disk), g))
                && disk == Taken(geo, old(disk), group, b)
                && freeBlocks == Dec32(old(freeBlocks)) && groupFree ==
                old(groupFree)[group := Dec32(old(groupFree)[group])]
      ensures Books() == old(Books())
    {
      group := start;
      while true
        invariant Valid() && disk == old(disk) && freeBlocks == old(freeBlocks) && groupFree == old(groupFree)
        invariant group < geo.groups && forall g :: 0 <= g < geo.groups && Passed(start, group, g) ==>
                                          GroupFull(geo, disk, g)
        decreases if group >= start then geo.groups + start - group else start - group
      {
        b := AllocFreeBlock(group);
        if b != 0 {
          return;
        }
        NextGroup(group, geo.groups);
        group := (group + 1) % geo.groups;
        if group == start {
          return;
        }
      }
    }

    // ----- inodes -----

    /** `get_inode` */
    method GetInode(i: nat) returns (inode: Inode)
      requires geo.Sane() && i >= 1 && SlotOf(geo, i) in table
      ensures inode == table[SlotOf(geo, i)]
    {
      inode := table[SlotOf(geo, i)];
    }

    // ----- lookup -----

    /** `get_inode_block`: the number of block `n` of file `i`. */
    method GetInodeBlock(i: nat, n: nat) returns (b: nat)
      requires Valid() && i in files && n < |DataOf(files[i])|
      ensures b == DataOf(files[i])[n]
    {
      FileView(geo, disk, table, files, i);
      var inode := GetInode(i);
      b := BlockAt(inode, n, files[i]);
    }

    method BlockAt(inode: Inode, n: nat, ghost f: File) returns (b: nat)
      requires geo.fan > 0 && Shape(geo.fan, f) && Agrees(inode, f) && n < |DataOf(f)| && TreesStored(disk, f)
      ensures b == DataOf(f)[n]
    {
      var fan := geo.fan;
      var double := fan * fan;
      ghost var h;
      if n >= DIRECT + fan + double {
        h := 3;
        b := BlockInThird(inode, n, f, n - DIRECT - fan - double, double, h);
      } else if n >= DIRECT + fan {
        h := 2;
        b := BlockInSecond(inode, n, f, n - DIRECT - fan, double, h);
      } else if n >= DIRECT {
        h := 1;
        b := BlockInFirst(inode, n, f, n - DIRECT, double, h);
      } else {
        DirectAt(fan, inode, f, n);
        b := inode.block[n];
      }
    }

    method BlockInThird(inode: Inode, n: nat, ghost f: File, x: nat, ghost double: nat, ghost h: nat) returns (b: nat)
      requires geo.fan > 0 && Shape(geo.fan, f) && Agrees(inode, f) && n < |DataOf(f)| && TreesStored(disk, f)
      requires h == 3 && double == geo.fan * geo.fan && n == FirstOf(geo.fan, double, h) + x
      ensures b == DataOf(f)[n]
    {
      WalkFrom(geo.fan, double, disk, inode, f, n, h, x);
      b := WalkThree(f.trees[h - 1], inode.block[14], x);
    }

    method BlockInSecond(inode: Inode, n: nat, ghost f: File, x: nat, ghost double: nat, ghost h: nat) returns (b: nat)
      requires geo.fan > 0 && Shape(geo.fan, f) && Agrees(inode, f) && n < |DataOf(f)| && TreesStored(disk, f)
      requires h == 2 && x < double == geo.fan * geo.fan && n == FirstOf(geo.fan, double, h) + x
      ensures b == DataOf(f)[n]
    {
      WalkFrom(geo.fan, double, disk, inode, f, n, h, x);
      b := WalkTwo(f.trees[h - 1], inode.block[13], x);
    }

    method BlockInFirst(inode: Inode, n: nat, ghost f: File, x: nat, ghost double: nat, ghost h: nat) returns (b: nat)
      requires geo.fan > 0 && Shape(geo.fan, f) && Agrees(inode, f) && n < |DataOf(f)| && TreesStored(disk, f)
      requires h == 1 && x < geo.fan && double == geo.fan * geo.fan && n == FirstOf(geo.fan, double, h) + x
      ensures b == DataOf(f)[n]
    {
      WalkFrom(geo.fan, double, disk, inode, f, n, h, x);
      b := WalkOne(f.trees[h - 1], inode.block[12], x);
    }

    /** From the indirect block of `t` to its block `x`. */
    method WalkOne(ghost t: Ix, at: nat, x: nat) returns (b: nat)
      requires geo.fan > 0 && Stores(disk, 1, t) && Packed(geo.fan, 1, t) && at == t.b && x < |Leaves(1, t)|
      ensures b == Leaves(1, t)[x]
    {
      Caps(geo.fan);
      WalkStep(disk, geo.fan, 1, t, x, x, 0);
      b := Word(disk[at], x);
    }

    /** From the double indirect block of `t` to its block `x`. */
    method WalkTwo(ghost t: Ix, at: nat, x: nat) returns (b: nat)
      requires geo.fan > 0 && Stores(disk, 2, t) && Packed(geo.fan, 2, t) && at == t.b && x < |Leaves(2, t)|
      ensures b == Leaves(2, t)[x]
    {
      var q, r := Divide(x, geo.fan);
      Caps(geo.fan);
      WalkStep(disk, geo.fan, 2, t, x, q, r);
      var indirect := Word(disk[at], q);
      b := WalkOne(t.kids[q], indirect, r);
    }

    /** From the triple indirect block of `t` to its block `x`. */
    method WalkThree(ghost t: Ix, at: nat, x: nat) returns (b: nat)
      requires geo.fan > 0 && Stores(disk, 3, t) && Packed(geo.fan, 3, t) && at == t.b && x < |Leaves(3, t)|
      ensures b == Leaves(3, t)[x]
    {
      var double := geo.fan * geo.fan;
      MulAtLeast(geo.fan, geo.fan);
      var q, r := Divide(x, double);
      Caps(geo.fan);
      WalkStep(disk, geo.fan, 3, t, x, q, r);
      var at2 := Word(disk[at], q);
      b := WalkTwo(t.kids[q], at2, r);
    }

    // ----- append -----

    /** A fresh block, from the first group that has one, beginning with `start`; 0 if the disk is full. */
    method TakeBlock(start: nat) returns (n: nat, group: nat)
      requires Valid() && start < geo.groups
      modifies this`disk, this`freeBlocks, this`groupFree
      ensures Valid() && Kept(geo, old(disk), disk) && group < geo.groups
      ensures n == 0 ==> DiskFull(geo, disk) && disk == old(disk) && freeBlocks == old(freeBlocks)
                         && groupFree == old(groupFree)
      ensures Books() == old(Books()) && (n == 0 <==> old(Spare()) == 0) && (n != 0 ==> old(Spare()) == Spare() + 1)
      ensures n != 0 ==> InUse(geo, disk, n) && !InUse(geo, old(disk), n) && Free(files, n)
                         && disk[n] == Zeros(geo.BlockSize())
      ensures n != 0 ==> n < geo.Total() && group == geo.GroupOf(n)
                         && FirstFree(geo, FreeBlocks(geo, old(disk)), start, n)
    {
      var b;
      group, b := AllocFrom(start);
      n := 0;
      FullIsEmpty(geo, disk);
      if b != 0 {
        n := geo.Number(group, b);
        FirstFreeIs(geo, old(disk), start, group, b);
        TakenFree(geo, old(disk), group, b);
        TakenSound(geo, old(disk), table, files, group, b);
        TakenView(geo, old(disk), group, b);
      }
    }

    /** The block that `inode.block[11 + h]` leads to: for a tree that is still empty (`m` being 0) it is allocated. */
    method RootBlock(i: nat, h: nat, m: nat, inode: Inode, start: nat)
      returns (at: nat, inode': Inode, ghost t: Ix, ghost added: seq<nat>)
      requires Valid() && start < geo.groups && i in files && 1 <= h <= 3 && |inode.block| == N_BLOCKS
      requires m == 0 ==> |files[i].trees| == h - 1
      requires m > 0 ==> |files[i].trees| == h && |Leaves(h, files[i].trees[h - 1])| == m
                         && inode.block[DIRECT + h - 1] == files[i].trees[h - 1].b
      modifies this`disk, this`freeBlocks, this`groupFree
      ensures Valid() && KeptBut(geo, old(disk), disk, [])
      ensures at != 0 ==>
                && Ready(geo, disk, files, files[i], h, t, added, 0, at, m) && t.b == at < TWO_32
                && inode' == inode.(block := inode.block[DIRECT + h - 1 := at])
                && (forall n :: n in added ==>
                      !InUse(geo, old(disk), n)) && (m == 0 ==> disk[at] == Zeros(geo.BlockSize()))
      ensures Books() == old(Books())
      ensures at != 0 ==> |added| == (if m == 0 then 1 else 0) && old(Spare()) == Spare() + |added|
      ensures at == 0 ==> DiskFull(geo, disk) && m == 0 && old(Spare()) == 0
      ensures at != 0 && m == 0 ==> FirstFree(geo, FreeBlocks(geo, old(disk)), start, at)
    {
      inode' := inode;
      if m == 0 {
        var group;
        at, group := TakeBlock(start);
        t, added := Pointers(at, []), [at];
        if at == 0 {
          return;
        }
        ReadyRoot(geo, disk, files, files[i], h, at);
        inode' := inode.(block := inode.block[DIRECT + h - 1 := at]);
      } else {
        at := inode.block[DIRECT + h - 1];
        t, added := files[i].trees[h - 1], [];
        ReadyFrom(geo, disk, table, files, i, h);
        assert inode'.block[DIRECT + h - 1 := at] == inode'.block;
      }
    }

    /** On the disk `d`, `n` is the lowest free block of the first group with room from the group of block `at` on. */
    ghost predicate NextTo(d: Disk, at: nat, n: nat) {
      geo.Sane() && at < geo.Total() && FirstFree(geo, FreeBlocks(geo, d), geo.GroupOf(at), n)
    }

    /** The block of pointers below block `at`, by number `q`: a new one if those before it are full. */
    method ChildBlock(i: nat, at: nat, q: nat, isNew: bool, ghost h: nat, ghost t: Ix, ghost added: seq<nat>,
                      ghost depth: nat, ghost held: nat, ghost g: nat, ghost r: nat)
      returns (child: nat, ghost t': Ix, ghost added': seq<nat>)
      requires Valid() && i in files && Ready(geo, disk, files, files[i], h, t, added, depth, at, held)
               && depth + 1 + g == h && g > 0
      requires held == q * Cap(geo.fan, g) + r < Cap(geo.fan, g + 1) && r < Cap(geo.fan, g) && (isNew <==> r == 0)
      modifies this`disk, this`freeBlocks, this`groupFree
      ensures Valid() && KeptBut(geo, old(disk), disk, [at])
      ensures child != 0 ==>
                && Ready(geo, disk, files, files[i], h, t', added', depth + 1, child, r) && t'.b == t.b
                && (forall n :: n in added' ==>
                      n in added || !InUse(geo, old(disk), n)) && (isNew ==> disk[child] == Zeros(geo.BlockSize()))
      ensures Books() == old(Books())
      ensures child != 0 ==> |added'| == |added| + (if isNew then 1 else 0)
                             && old(Spare()) == Spare() + (if isNew then 1 else 0)
      ensures child == 0 ==> DiskFull(geo, disk) && isNew && old(Spare()) == 0 && Spare() == 0
      ensures child != 0 && isNew ==> NextTo(old(disk), at, child)
    {
      if isNew {
        child, t', added' := NewChild(i, at, q, h, t, added, depth, held, g);
        return;
      }
      t', added' := t, added;
      ReadyOld(geo, disk, files, files[i], h, t, added, depth, at, held, g, q, r);
      child := Word(disk[at], q);
      InUseBounds(geo, disk, child);
    }

    method NewChild(i: nat, at: nat, q: nat, ghost h: nat, ghost t: Ix, ghost added: seq<nat>, ghost depth: nat,
                    ghost held: nat, ghost g: nat)
      returns (child: nat, ghost t': Ix, ghost added': seq<nat>)
      requires Valid() && i in files && Ready(geo, disk, files, files[i], h, t, added, depth, at, held)
               && depth + 1 + g == h && g > 0
      requires held == q * Cap(geo.fan, g) < Cap(geo.fan, g + 1) && Cap(geo.fan, g) > 0
      modifies this`disk, this`freeBlocks, this`groupFree
      ensures Valid() && KeptBut(geo, old(disk), disk, [at])
      ensures child != 0 ==>
                && Ready(geo, disk, files, files[i], h, t', added', depth + 1, child, 0) && t'.b == t.b
                && (forall n :: n in added' ==>
                      n in added || !InUse(geo, old(disk), n)) && disk[child] == Zeros(geo.BlockSize())
      ensures Books() == old(Books()) && (child != 0 ==> |added'| == |added| + 1 && old(Spare()) == Spare() + 1)
      ensures child == 0 ==> DiskFull(geo, disk) && old(Spare()) == 0 && Spare() == 0
      ensures child != 0 ==> NextTo(old(disk), at, child)
    {
      var group;
      child, group := TakeBlock(geo.GroupOf(at));
      t', added' := AddKid(t, depth, Pointers(child, [])), added + [child];
      if child == 0 {
        return;
      }
      ReadyKept(geo, old(disk), disk, files, files[i], h, t, added, depth, at, held);
      SpineSpent(h, t, depth);
      LinkChild(i, at, q, child, h, t, added, depth, held, g);
    }

    /** The pointer to the new block of pointers `child` goes into block `at`. */
    method LinkChild(i: nat, at: nat, q: nat, child: nat, ghost h: nat, ghost t: Ix, ghost added: seq<nat>,
                     ghost depth: nat, ghost held: nat, ghost g: nat)
      requires Valid() && i in files && Ready(geo, disk, files, files[i], h, t, added, depth, at, held)
               && depth + 1 + g == h && g > 0
      requires held == q * Cap(geo.fan, g) < Cap(geo.fan, g + 1) && Cap(geo.fan, g) > 0
      requires InUse(geo, disk, child) && Free(files, child) && child !in Spent(h, t)
      modifies this`disk
      ensures Valid() && KeptBut(geo, old(disk), disk, [at]) && (child != at ==> disk[child] == old(disk)[child])
      ensures Ready(geo, disk, files, files[i], h, AddKid(t, depth, Pointers(child, [])), added + [child], depth + 1,
              child, 0)
      ensures Books() == old(Books()) && Spare() == old(Spare())
    {
      InUseBounds(geo, disk, child);
      ReadyNew(geo, disk, table, files, i, h, t, added, depth, at, held, g, q, child);
      WrittenUsed(geo, disk, at, q, child);
      SameFree(geo, disk, Written(geo, disk, at, q, child), groupFree, freeBlocks);
      disk := Written(geo, disk, at, q, child);
    }

    /** The pointer goes into the block as it is on the disk, or, if that is new, into an empty one. */
    method WritePointer(at: nat, q: nat, b: u32, isNew: bool)
      requires Formatted(geo, disk) && InData(geo, at) && q < geo.fan
               && (isNew ==> q == 0 && disk[at] == Zeros(geo.BlockSize()))
      modifies this`disk
      ensures disk == Written(geo, old(disk), at, q, b) && KeptBut(geo, old(disk), disk, [at])
      ensures Books() == old(Books()) && Spare() == old(Spare())
    {
      WrittenUsed(geo, disk, at, q, b);
      SameFree(geo, disk, Written(geo, disk, at, q, b), groupFree, freeBlocks);
      if isNew {
        disk := disk[at := SetWord(Zeros(geo.BlockSize()), 0, b)];
      } else {
        disk := disk[at := SetWord(disk[at], q, b)];
      }
    }

    /** The end of `set_inode_block`: the number of the data block goes into the block of pointers `at`, and the inode
        back to its place. */
    method Commit(i: nat, b: u32, inode: Inode, h: nat, at: nat, q: nat, isNew: bool, ghost t: Ix,
                  ghost added: seq<nat>)
      requires Valid() && i in files && 1 <= h <= 3 && Ready(geo, disk, files, files[i], h, t, added, h - 1, at, q)
               && q < geo.fan
      requires isNew ==> q == 0 && disk[at] == Zeros(geo.BlockSize())
      requires InUse(geo, disk, b) && Free(files, b) && b !in added
      requires |files[i].direct| == DIRECT && forall k :: 0 <= k < h - 1 ==> Full(geo.fan, k + 1, files[i].trees[k])
      requires i >= 1 && SlotOf(geo, i) in table && |table[SlotOf(geo, i)].block| == N_BLOCKS
               && Counts(table[SlotOf(geo, i)], inode, h, t.b)
      modifies this`disk, this`table, this`files
      ensures Valid() && KeptBut(geo, old(disk), disk, [at]) && table == old(table)[SlotOf(geo, i) := inode]
      ensures files.Keys == old(files).Keys && files == old(files)[i := files[i]]
              && Appended(old(files)[i], files[i], added, b)
      ensures Books() == old(Books()) && Spare() == old(Spare())
    {
      ghost var f' := Committed(geo, disk, table, files, i, inode, h, at, q, t, added, b);
      WritePointer(at, q, b, isNew);
      table := table[SlotOf(geo, i) := inode];
      files := files[i := f'];
    }

    /** File `i` has got the data block `b` behind the old ones, and the blocks of pointers `added`, which were not in
        use before and are now, but no others. */
    ghost predicate GotBlock(d: Disk, t: map<Slot, Inode>, f: map<nat, File>, i: nat, b: nat, added: seq<nat>)
      requires Formatted(geo, d)
      reads this
    {
      && i in f && KeptBut(geo, d, disk, PointersOf(f[i])) && i >= 1 && geo.Sane() && i in files && SlotOf(geo, i) in t
      && SlotOf(geo, i) in table
      && files == f[i := files[i]] && Appended(f[i], files[i], added, b)
      && (forall n :: n in added ==> !InUse(geo, d, n))
      && FreeSize(geo, d) == Spare() + |added|
      && Lengthened(geo, t, table, i, |DataOf(f[i])|)
    }

    /** The disk was full before all the blocks of pointers that file `i` needs had been found. */
    ghost predicate Stuck(d: Disk, i: nat)
      requires Formatted(geo, d)
      reads this
    {
      Valid() && i in files && KeptBut(geo, d, disk, PointersOf(files[i])) && DiskFull(geo, disk)
    }

    /** What `set_inode_block` has done when it returns `ok`. */
    ghost predicate Extended(d: Disk, t: map<Slot, Inode>, f: map<nat, File>, i: nat, b: nat, ok: bool, added: seq<nat>)
      requires Formatted(geo, d)
      reads this
    {
      if ok then GotBlock(d, t, f, i, b, added) else files == f && table == t && Stuck(d, i)
    }

    /** The tree of file `i` under construction on a disk that was `d` at first. */
    ghost predicate Growth(d: Disk, i: nat, h: nat, t: Ix, added: seq<nat>, depth: nat, at: nat, held: nat)
      requires Formatted(geo, d)
      reads this
    {
      && Valid() && i in files && KeptBut(geo, d, disk, PointersOf(files[i]))
      && Ready(geo, disk, files, files[i], h, t, added, depth, at, held)
      && (forall n :: n in added ==> !InUse(geo, d, n)) && FreeSize(geo, d) == Spare() + |added|
    }

    /** The data block `b`, in use on the disk `d` but in no file, can go behind the blocks of file `i`, in its tree of
        height `h`. */
    ghost predicate Planned(d: Disk, i: nat, h: nat, b: nat)
      requires Formatted(geo, d)
      reads this`table, this`files
    {
      && i in files && 1 <= h <= 3 && InUse(geo, d, b) && Free(files, b)
      && |files[i].direct| == DIRECT && h - 1 <= |files[i].trees|
      && (forall k :: 0 <= k < h - 1 ==> Full(geo.fan, k + 1, files[i].trees[k]))
      && i >= 1 && SlotOf(geo, i) in table && |table[SlotOf(geo, i)].block| == N_BLOCKS
      && table[SlotOf(geo, i)].blocks + 1 < TWO_32 && EntryFor(geo.fan, |DataOf(files[i])|) == DIRECT + h - 1
    }

    method Finish(i: nat, b: u32, inode: Inode, h: nat, at: nat, q: nat, ghost t: Ix, ghost added: seq<nat>,
                  ghost d: Disk)
      requires Formatted(geo, d) && Planned(d, i, h, b) && Growth(d, i, h, t, added, h - 1, at, q) && q < geo.fan
      requires q == 0 ==> disk[at] == Zeros(geo.BlockSize())
      requires t.b < TWO_32 && inode == table[SlotOf(geo, i)].(block :=
               table[SlotOf(geo, i)].block[DIRECT + h - 1 := t.b])
      modifies this`disk, this`table, this`files
      ensures Valid() && GotBlock(d, old(table), old(files), i, b, added) && Books() == old(Books())
    {
      ghost var d1, changed := disk, PointersOf(files[i]);
      ReadyAt(geo, d1, files, files[i], h, t, added, h - 1, at, q);
      LengthenedBy(geo, table, i, inode, h, t.b, |DataOf(files[i])|);
      Commit(i, b, Longer(inode), h, at, q, q == 0, t, added);
      KeptThen(geo, d, d1, disk, changed, at);
    }

    /** The root of the tree of height `h`, and what has to be known to go on from there. */
    method Begin(i: nat, b: u32, h: nat, x: nat) returns (at: nat, inode: Inode, ghost t: Ix, ghost added: seq<nat>)
      requires Valid() && i in files && InUse(geo, disk, b) && Free(files, b) && 1 <= h <= 3
      requires x < Cap(geo.fan, h) && |DataOf(files[i])| == Base(geo.fan, h) + x
               && (i - 1) / geo.inodesPerGroup < geo.groups
      modifies this`disk, this`freeBlocks, this`groupFree
      ensures at != 0 ==>
                && Planned(old(disk), i, h, b) && Growth(old(disk), i, h, t, added, 0, at, x)
                   && (x == 0 ==> disk[at] == Zeros(geo.BlockSize()))
                && t.b < TWO_32 && inode == table[SlotOf(geo, i)].(block :=
                table[SlotOf(geo, i)].block[DIRECT + h - 1 := t.b])
      ensures Books() == old(Books()) && (at != 0 ==> |added| == if x == 0 then 1 else 0)
      ensures at != 0 && x == 0 ==>
                geo.Sane() && FirstFree(geo, FreeBlocks(geo, old(disk)), (i - 1) / geo.inodesPerGroup, at)
      ensures at == 0 ==> Stuck(old(disk), i) && x == 0 && old(Spare()) == 0
    {
      BlocksFit(geo, disk, table, files, i, b);
      TreePlan(geo, disk, table, files, i, h, x);
      EntryInTree(geo.fan, |DataOf(files[i])|, h);
      inode := GetInode(i);
      at, inode, t, added := RootBlock(i, h, x, inode, (i - 1) / geo.inodesPerGroup);
    }

    /** One level down: of `x` blocks below `at`, `c` fit below each of its pointers. The result is the child that takes
        the next block, with `r` below it so far, or 0 if there is no block left for it. */
    method Down(i: nat, at: nat, x: nat, c: nat, ghost h: nat, ghost t: Ix, ghost added: seq<nat>, ghost depth: nat,
                ghost g: nat, ghost d: Disk)
      returns (child: nat, r: nat, ghost t': Ix, ghost added': seq<nat>)
      requires Formatted(geo, d) && i in files && Growth(d, i, h, t, added, depth, at, x) && depth + 1 + g == h && g > 0
      requires c == Cap(geo.fan, g) > 0 && x < Cap(geo.fan, g + 1)
      modifies this`disk, this`freeBlocks, this`groupFree
      ensures r == x % c && Books() == old(Books())
      ensures child != 0 ==> Growth(d, i, h, t', added', depth + 1, child, r) && t'.b == t.b
                             && (r == 0 ==> disk[child] == Zeros(geo.BlockSize()))
      ensures child != 0 ==> |added'| == |added| + if r == 0 then 1 else 0
      ensures child == 0 ==> Stuck(d, i) && r == 0 && FreeSize(geo, d) == |added|
      ensures child != 0 && r == 0 ==> NextTo(old(disk), at, child)
    {
      var q;
      q, r := Divide(x, c);
      ghost var d1 := disk;
      ReadyAt(geo, d1, files, files[i], h, t, added, depth, at, x);
      child, t', added' := ChildBlock(i, at, q, r == 0, h, t, added, depth, x, g, r);
      KeptThen(geo, d, d1, disk, PointersOf(files[i]), at);
    }

    /** From a double indirect block, at level `depth` of the tree of height `h`, to the indirect block that block `x`
        goes into, at position `r`. */
    method DownLast(i: nat, double: nat, x: nat, ghost h: nat, ghost depth: nat, ghost t: Ix, ghost added: seq<nat>,
                    ghost d: Disk)
      returns (indirect: nat, r: nat, ghost t': Ix, ghost added': seq<nat>)
      requires Formatted(geo, d) && depth + 2 == h && Growth(d, i, h, t, added, depth, double, x) && x < Cap(geo.fan, 2)
      modifies this`disk, this`freeBlocks, this`groupFree
      ensures Books() == old(Books())
      ensures indirect != 0 ==> Growth(d, i, h, t', added', h - 1, indirect, r) && r < geo.fan && t'.b == t.b
                                && (r == 0 ==> disk[indirect] == Zeros(geo.BlockSize()))
      ensures indirect != 0 ==> |added'| == |added| + NeedBelow(geo.fan, 1, x)
      ensures indirect == 0 ==> Stuck(d, i) && FreeSize(geo, d) < |added| + NeedBelow(geo.fan, 1, x)
    {
      Caps(geo.fan);
      NeedIs(geo.fan, 1, x);
      indirect, r, t', added' := Down(i, double, x, geo.fan, h, t, added, depth, 1, d);
    }

    /** From the triple indirect block to the double indirect block on the way to block `x`. */
    method DownFirst(i: nat, triple: nat, x: nat, ghost h: nat, ghost t: Ix, ghost added: seq<nat>, ghost d: Disk)
      returns (double: nat, r: nat, ghost t': Ix, ghost added': seq<nat>)
      requires Formatted(geo, d) && h == 3 && Growth(d, i, h, t, added, 0, triple, x) && x < Cap(geo.fan, h)
      modifies this`disk, this`freeBlocks, this`groupFree
      ensures r < Cap(geo.fan, 2) && Books() == old(Books())
      ensures double != 0 ==> Growth(d, i, h, t', added', 1, double, r) && t'.b == t.b
      ensures double != 0 ==> |added'| + NeedBelow(geo.fan, 1, r) == |added| + NeedBelow(geo.fan, 2, x)
      ensures double == 0 ==> Stuck(d, i) && FreeSize(geo, d) < |added| + NeedBelow(geo.fan, 2, x)
    {
      Caps(geo.fan);
      NeedIs(geo.fan, 2, x);
      MulAtLeast(geo.fan, geo.fan);
      double, r, t', added' := Down(i, triple, x, geo.fan * geo.fan, h, t, added, 0, 2, d);
    }

    method DownTwice(i: nat, triple: nat, x: nat, ghost h: nat, ghost t: Ix, ghost added: seq<nat>, ghost d: Disk)
      returns (indirect: nat, r: nat, ghost t': Ix, ghost added': seq<nat>)
      requires Formatted(geo, d) && h == 3 && Growth(d, i, h, t, added, 0, triple, x) && x < Cap(geo.fan, h)
      modifies this`disk, this`freeBlocks, this`groupFree
      ensures Books() == old(Books())
      ensures indirect != 0 ==> Growth(d, i, h, t', added', 2, indirect, r) && r < geo.fan && t'.b == t.b
                                && (r == 0 ==> disk[indirect] == Zeros(geo.BlockSize()))
      ensures indirect != 0 ==> |added'| == |added| + NeedBelow(geo.fan, 2, x)
      ensures indirect == 0 ==> Stuck(d, i) && FreeSize(geo, d) < |added| + NeedBelow(geo.fan, 2, x)
    {
      var double;
      double, r, t', added' := DownFirst(i, triple, x, h, t, added, d);
      if double == 0 {
        return 0, r, t', added';
      }
      indirect, r, t', added' := DownLast(i, double, r, h, 1, t', added', d);
    }

    /** From the root of the tree of height `h` down to the indirect block that block `x` goes into, at position `r`. */
    method DownTree(i: nat, h: nat, at: nat, x: nat, ghost t: Ix, ghost added: seq<nat>, ghost d: Disk)
      returns (indirect: nat, r: nat, ghost t': Ix, ghost added': seq<nat>)
      requires Formatted(geo, d) && 1 <= h <= 3 && at != 0 && Growth(d, i, h, t, added, 0, at, x) && x < Cap(geo.fan, h)
      requires x == 0 ==> disk[at] == Zeros(geo.BlockSize())
      modifies this`disk, this`freeBlocks, this`groupFree
      ensures indirect != 0 ==> Growth(d, i, h, t', added', h - 1, indirect, r) && r < geo.fan && t'.b == t.b
                                && (r == 0 ==> disk[indirect] == Zeros(geo.BlockSize()))
      ensures Books() == old(Books()) && (indirect != 0 ==> |added'| == |added| + NeedBelow(geo.fan, h - 1, x))
      ensures indirect == 0 ==> Stuck(d, i) && FreeSize(geo, d) < |added| + NeedBelow(geo.fan, h - 1, x)
    {
      if h == 3 {
        indirect, r, t', added' := DownTwice(i, at, x, h, t, added, d);
        return;
      }
      if h == 2 {
        indirect, r, t', added' := DownLast(i, at, x, h, 0, t, added, d);
        return;
      }
      Caps(geo.fan);
      indirect, r, t', added' := at, x, t, added;
    }

    /** `set_inode_block` for a file whose tree of height `h` holds `x` blocks so far, those before it being full: the
        root, the blocks of pointers below it, and the number of the data block. */
    method AppendTree(i: nat, b: u32, h: nat, x: nat) returns (ok: bool, ghost added: seq<nat>)
      requires Valid() && i in files && InUse(geo, disk, b) && Free(files, b) && 1 <= h <= 3
      requires x < Cap(geo.fan, h) && |DataOf(files[i])| == Base(geo.fan, h) + x
               && (i - 1) / geo.inodesPerGroup < geo.groups
      modifies this
      ensures Valid() && Extended(old(disk), old(table), old(files), i, b, ok, added) && Books() == old(Books())
      ensures var need := Need(geo.fan, |DataOf(old(files)[i])|);
              (ok <==> old(Spare()) >= need) && (ok ==> |added| == need)
    {
      NeedFor(geo.fan, |DataOf(files[i])|, h, x);
      ghost var t;
      var at, indirect, inode, r;
      at, inode, t, added := Begin(i, b, h, x);
      if at == 0 {
        return false, added;
      }
      indirect, r, t, added := DownTree(i, h, at, x, t, added, old(disk));
      if indirect == 0 {
        return false, added;
      }
      ok := true;
      Finish(i, b, inode, h, indirect, r, t, added, old(disk));
    }

    method AppendDirect(i: nat, b: u32) returns (ok: bool, ghost added: seq<nat>)
      requires Valid() && i in files && InUse(geo, disk, b) && Free(files, b) && |DataOf(files[i])| < DIRECT
      modifies this`table, this`files
      ensures Valid() && ok && GotBlock(disk, old(table), old(files), i, b, added) && added == []
    {
      FileView(geo, disk, table, files, i);
      BlocksFit(geo, disk, table, files, i, b);
      var inode := GetInode(i);
      inode := Longer(inode.(block := inode.block[inode.blocks := b]));
      DirectDone(geo, disk, table, files, i, inode, b);
      table := table[SlotOf(geo, i) := inode];
      files := files[i := File(files[i].direct + [b], files[i].trees)];
      ok, added := true, [];
    }

    /** The three ranges behind the direct blocks. */
    method AppendIndirect(i: nat, b: u32, blocks: nat) returns (ok: bool, ghost added: seq<nat>)
      requires Valid() && i in files && InUse(geo, disk, b) && Free(files, b) && blocks == |DataOf(files[i])|
               && blocks >= DIRECT
      requires blocks < Base(geo.fan, 3) + Cap(geo.fan, 3) && (i - 1) / geo.inodesPerGroup < geo.groups
      modifies this
      ensures Valid() && Extended(old(disk), old(table), old(files), i, b, ok, added) && Books() == old(Books())
      ensures var need := Need(geo.fan, blocks); (ok <==> old(Spare()) >= need) && (ok ==> |added| == need)
    {
      var fan := geo.fan;
      Caps(fan);
      if blocks >= DIRECT + fan + fan * fan {
        ok, added := AppendTree(i, b, 3, blocks - DIRECT - fan - fan * fan);
        return;
      }
      if blocks >= DIRECT + fan {
        ok, added := AppendTree(i, b, 2, blocks - DIRECT - fan);
        return;
      }
      ok, added := AppendTree(i, b, 1, blocks - DIRECT);
    }

    /** `set_inode_block`: the data block `b`, which has been taken but belongs to no file yet, goes behind the blocks
        of file `i`. It succeeds if and only if there are as many free blocks as it needs for pointers. */
    method SetInodeBlock(i: nat, b: u32) returns (ok: bool, ghost added: seq<nat>)
      requires Valid() && i in files && InUse(geo, disk, b) && Free(files, b)
      requires |DataOf(files[i])| < Base(geo.fan, 3) + Cap(geo.fan, 3) && (i - 1) / geo.inodesPerGroup < geo.groups
      modifies this
      ensures Valid() && Extended(old(disk), old(table), old(files), i, b, ok, added) && Books() == old(Books())
      ensures var need := Need(geo.fan, |DataOf(old(files)[i])|);
              (ok <==> old(Spare()) >= need) && (ok ==> |added| == need)
      ensures Stray() == old(Stray()) + (if ok then -1 else old(Spare()))
    {
      ghost var d, t, f := disk, table, files;
      FileView(geo, disk, table, files, i);
      var inode := GetInode(i);
      var blocks := inode.blocks;
      if blocks < DIRECT {
        ok, added := AppendDirect(i, b);
      } else {
        ok, added := AppendIndirect(i, b, blocks);
      }
      StraysThen(d, t, f, i, b, ok, added);
    }

    lemma {:induction false} StraysThen(d: Disk, t: map<Slot, Inode>, f: map<nat, File>, i: nat, b: nat, ok: bool,
                                        added: seq<nat>)
      requires Valid() && Sound(geo, d, t, f) && i in f && Extended(d, t, f, i, b, ok, added)
      requires ok ==> |added| == Need(geo.fan, |DataOf(f[i])|)
      ensures Stray() == StraySize(geo, d, f) + (if ok then -1 else FreeSize(geo, d))
    {
      if ok {
        StraysLess(geo, d, t, f, disk, table, files, i, b, added);
      } else {
        StraysMore(geo, d, t, f, disk, i);
      }
    }

    // ----- release -----

    /** `set_block_bitmap(..., 0)` and the count of it. */
    method ClearBlock(n: nat, group: seq<nat>, ghost d0: Disk, ghost g0: seq<nat>, ghost cs: seq<nat>)
      returns (group': seq<nat>, ghost cs': seq<nat>)
      requires Tally(geo, d0, disk, g0, group, cs) && InUse(geo, d0, n) && n !in cs
      modifies this`disk
      ensures Tally(geo, d0, disk, g0, group', cs') && cs' == cs + [n]
    {
      var g, b := geo.GroupOf(n), geo.IndexOf(n);
      TallyMore(geo, d0, disk, g0, group, cs, n);
      disk := Marked(geo, disk, g, b, false);
      group' := group[g := group[g] + 1];
      cs' := cs + [n];
    }

    /** The case of `release_block` for block `x` of the double indirect tree `t`, the last one there; the block of
        pointers at its root is `at`. */
    method ReleaseTwo(x: nat, at: nat, ghost t: Ix, group: seq<nat>, ghost d0: Disk, ghost g0: seq<nat>,
                      ghost cs: seq<nat>)
      returns (group': seq<nat>, ghost cs': seq<nat>)
      requires Tally(geo, d0, disk, g0, group, cs) && Packed(geo.fan, 2, t) && Stores(d0, 2, t)
               && |Leaves(2, t)| == x + 1
      requires at == t.b && (forall n :: n in Spent(2, t) ==> InUse(geo, d0, n)) && Clearable(geo, d0, cs, Gone(2, t))
      modifies this`disk
      ensures Tally(geo, d0, disk, g0, group', cs') && Plus(cs, Gone(2, t), cs')
    {
      group', cs' := group, cs;
      var q, r := Divide(x, geo.fan);
      EdgeTwo(geo, d0, t, q, r);
      if r != 0 {
        return;
      }
      var indirect := Word(disk[at], q);
      if x != 0 {
        group', cs' := ClearBlock(indirect, group', d0, g0, cs');
        return;
      }
      ghost var gone := Gone(2, t);
      assert gone[0] == at && gone[1] == indirect;
      group', cs' := ClearBlock(indirect, group', d0, g0, cs');
      group', cs' := ClearBlock(at, group', d0, g0, cs');
    }

    /** The same for the triple indirect tree `t`; below the last pointer at its root lies a double indirect tree. */
    method ReleaseThree(x: nat, at: nat, ghost t: Ix, group: seq<nat>, ghost d0: Disk, ghost g0: seq<nat>,
                        ghost cs: seq<nat>)
      returns (group': seq<nat>, ghost cs': seq<nat>)
      requires Tally(geo, d0, disk, g0, group, cs) && Packed(geo.fan, 3, t) && Stores(d0, 3, t)
               && |Leaves(3, t)| == x + 1
      requires at == t.b && (forall n :: n in Spent(3, t) ==> InUse(geo, d0, n)) && Clearable(geo, d0, cs, Gone(3, t))
      modifies this`disk
      ensures Tally(geo, d0, disk, g0, group', cs') && Plus(cs, Gone(3, t), cs')
    {
      Caps(geo.fan);
      MulAtLeast(geo.fan, geo.fan);
      var q, r := Divide(x, geo.fan * geo.fan);
      EdgeThree(geo, d0, t, q, r);
      ClearableTail(geo, d0, cs, if x == 0 then [t.b] else [], Gone(2, Last(t)));
      var double := Word(disk[at], q);
      group', cs' := ReleaseTwo(r, double, Last(t), group, d0, g0, cs);
      if x == 0 {
        group', cs' := ClearRoot(at, group', d0, g0, cs', cs, Gone(2, Last(t)));
      }
    }

    method ClearRoot(at: nat, group: seq<nat>, ghost d0: Disk, ghost g0: seq<nat>, ghost cs1: seq<nat>,
                     ghost cs: seq<nat>, ghost gone: seq<nat>)
      returns (group': seq<nat>, ghost cs': seq<nat>)
      requires Tally(geo, d0, disk, g0, group, cs1) && Plus(cs, gone, cs1) && Clearable(geo, d0, cs, [at] + gone)
      modifies this`disk
      ensures Tally(geo, d0, disk, g0, group', cs') && Plus(cs, [at] + gone, cs')
    {
      assert ([at] + gone)[0] == at;
      NoDupParts([at], gone);
      group', cs' := ClearBlock(at, group, d0, g0, cs1);
    }

    /** The last block of the file `f`, with number `n`, can have its blocks of pointers released. */
    ghost predicate Releasable(n: nat, inode: Inode, f: File, group: seq<nat>, d0: Disk, g0: seq<nat>, cs: seq<nat>)
      reads this`disk
    {
      && Tally(geo, d0, disk, g0, group, cs) && Shape(geo.fan, f) && |DataOf(f)| == n + 1 && TreesStored(d0, f)
      && PointsTo(inode, f)
      && (forall b :: b in PointersOf(f) ==> InUse(geo, d0, b)) && Clearable(geo, d0, cs, GoneOf(f))
    }

    /** They have been, and an inode whose unused entries were zero still is one. */
    ghost predicate Released(inode: Inode, inode': Inode, f: File, group': seq<nat>, d0: Disk, g0: seq<nat>,
                             cs: seq<nat>, cs': seq<nat>)
      reads this`disk
    {
      && Tally(geo, d0, disk, g0, group', cs') && Plus(cs, GoneOf(f), cs') && PointsTo(inode', Cut(f))
      && inode' == inode.(block := inode'.block)
      && |DataOf(f)| > 0
      && (Clean(geo.fan, inode.block, |DataOf(f)|) ==> Clean(geo.fan, inode'.block, |DataOf(f)| - 1))
    }

    method ReleaseTriple(n: nat, inode: Inode, ghost f: File, group: seq<nat>, ghost d0: Disk, ghost g0: seq<nat>,
                         ghost cs: seq<nat>)
      returns (inode': Inode, group': seq<nat>, ghost cs': seq<nat>)
      requires Releasable(n, inode, f, group, d0, g0, cs) && Base(geo.fan, 3) <= n < Base(geo.fan, 3) + Cap(geo.fan, 3)
      modifies this`disk
      ensures Released(inode, inode', f, group', d0, g0, cs, cs')
    {
      var base := DIRECT + geo.fan + geo.fan * geo.fan;
      Caps(geo.fan);
      LastTree(geo.fan, f, 3, n);
      TreeInUse(geo, d0, f, 2, 3);
      ghost var k := if n == base then 14 else N_BLOCKS;
      PointsToCut(geo.fan, inode, f, k);
      UnneededAbove(geo.fan, n, 3, k);
      CleanLess(geo.fan, inode.block, n, k);
      group', cs' := ReleaseThree(n - base, inode.block[DIRECT + 2], f.trees[2], group, d0, g0, cs);
      inode' := if n == base then inode.(block := inode.block[14 := 0]) else inode;
    }

    method ReleaseDouble(n: nat, inode: Inode, ghost f: File, group: seq<nat>, ghost d0: Disk, ghost g0: seq<nat>,
                         ghost cs: seq<nat>)
      returns (inode': Inode, group': seq<nat>, ghost cs': seq<nat>)
      requires Releasable(n, inode, f, group, d0, g0, cs) && Base(geo.fan, 2) <= n < Base(geo.fan, 2) + Cap(geo.fan, 2)
      modifies this`disk
      ensures Released(inode, inode', f, group', d0, g0, cs, cs')
    {
      var base := DIRECT + geo.fan;
      Caps(geo.fan);
      LastTree(geo.fan, f, 2, n);
      TreeInUse(geo, d0, f, 1, 2);
      ghost var k := if n == base then 13 else N_BLOCKS;
      PointsToCut(geo.fan, inode, f, k);
      UnneededAbove(geo.fan, n, 2, k);
      CleanLess(geo.fan, inode.block, n, k);
      group', cs' := ReleaseTwo(n - base, inode.block[DIRECT + 1], f.trees[1], group, d0, g0, cs);
      inode' := if n == base then inode.(block := inode.block[13 := 0]) else inode;
    }

    /** Block 12 is the first below the indirect block. The entry with the number of a later one is zeroed like that of
        a direct block, which does not matter to the two entries that exist; there is none from 15 on. */
    method ReleaseSingle(n: nat, inode: Inode, ghost f: File, group: seq<nat>, ghost d0: Disk, ghost g0: seq<nat>,
                         ghost cs: seq<nat>)
      returns (inode': Inode, group': seq<nat>, ghost cs': seq<nat>)
      requires Releasable(n, inode, f, group, d0, g0, cs) && n < Base(geo.fan, 1) + Cap(geo.fan, 1) && geo.fan > 0
      modifies this`disk
      ensures Released(inode, inode', f, group', d0, g0, cs, cs')
    {
      group', cs' := group, cs;
      SingleGone(geo.fan, f, n);
      PointsToCut(geo.fan, inode, f, n);
      Caps(geo.fan);
      UnneededBelow(geo.fan, n);
      CleanLess(geo.fan, inode.block, n, n);
      inode' := if n < N_BLOCKS then inode.(block := inode.block[n := 0]) else inode;
      if n != DIRECT {
        return;
      }
      var indirect := inode.block[DIRECT + 0];
      assert GoneOf(f)[0] == indirect;
      group', cs' := ClearBlock(indirect, group, d0, g0, cs);
    }

    /** The bits that `release_block` clears besides that of data block `n` itself: those of the blocks of pointers
        whose first pointer leads there. `f` is the file up to that block. */
    method ReleasePointers(n: nat, inode: Inode, ghost f: File, group: seq<nat>, ghost d0: Disk, ghost g0: seq<nat>,
                           ghost cs: seq<nat>)
      returns (inode': Inode, group': seq<nat>, ghost cs': seq<nat>)
      requires Releasable(n, inode, f, group, d0, g0, cs)
      modifies this`disk
      ensures Released(inode, inode', f, group', d0, g0, cs, cs')
    {
      var fan := geo.fan;
      FileReach(fan, f, n);
      if n >= DIRECT + fan + fan * fan {
        inode', group', cs' := ReleaseTriple(n, inode, f, group, d0, g0, cs);
        return;
      }
      if n >= DIRECT + fan {
        inode', group', cs' := ReleaseDouble(n, inode, f, group, d0, g0, cs);
        return;
      }
      inode', group', cs' := ReleaseSingle(n, inode, f, group, d0, g0, cs);
    }

    /** The first loop of `release_block`: the bits of the last `k` data blocks. */
    method ClearData(bnum: seq<nat>, k: nat, group: seq<nat>) returns (group': seq<nat>, ghost cs: seq<nat>)
      requires Formatted(geo, disk) && |group| == geo.groups && k <= |bnum| && NoDup(bnum)
               && forall n :: n in bnum ==> InUse(geo, disk, n)
      modifies this`disk
      ensures Tally(geo, old(disk), disk, group, group', cs)
      ensures (forall n :: n in cs ==> n in bnum[|bnum| - k..]) && (forall n :: n in bnum[|bnum| - k..] ==> n in cs)
    {
      ghost var d0 := disk;
      var blocks := |bnum|;
      group', cs := group, [];
      TallyNone(geo, disk, group);
      var t := 1;
      while t <= k
        invariant 1 <= t <= k + 1 && Tally(geo, d0, disk, group, group', cs)
        invariant forall n :: n in cs ==> n in bnum[blocks - t + 1..]
        invariant forall n :: n in bnum[blocks - t + 1..] ==> n in cs
      {
        var n := bnum[blocks - t];
        assert bnum[blocks - t..] == [n] + bnum[blocks - t + 1..];
        NoDupParts(bnum[..blocks - t], bnum[blocks - t..]);
        NoDupParts([n], bnum[blocks - t + 1..]);
        assert bnum == bnum[..blocks - t] + bnum[blocks - t..] && n in [n];
        group', cs := ClearBlock(n, group', d0, group, cs);
        t := t + 1;
      }
    }

    /** The second loop: the blocks of pointers that the first data blocks of theirs go with. */
    method ClearPointers(k: nat, inode: Inode, ghost f: File, group: seq<nat>, ghost d0: Disk, ghost g0: seq<nat>,
                         ghost tail: seq<nat>)
      returns (inode': Inode, group': seq<nat>, ghost f': File, ghost gone: seq<nat>, ghost cs: seq<nat>)
      requires Tally(geo, d0, disk, g0, group, tail) && Shape(geo.fan, f) && k <= |DataOf(f)| && TreesStored(d0, f)
               && Agrees(inode, f)
      requires NoDup(BlocksOf(f)) && (forall n :: n in BlocksOf(f) ==> InUse(geo, d0, n))
               && forall n :: n in tail ==> n in DataOf(f)
      modifies this`disk
      ensures Tally(geo, d0, disk, g0, group', cs) && Plus(tail, gone, cs) && TreesStored(d0, f')
              && PointsTo(inode', f')
      ensures Shortened(geo.fan, f, f', gone) && |DataOf(f')| == |DataOf(f)| - k
              && inode' == inode.(block := inode'.block)
      ensures Clean(geo.fan, inode.block, |DataOf(f)|) ==> Clean(geo.fan, inode'.block, |DataOf(f')|)
    {
      var blocks := inode.blocks;
      inode', group', f', gone, cs := inode, group, f, [], tail;
      ShortenedSelf(geo.fan, f);
      var t := 1;
      while t <= k
        invariant 1 <= t <= k + 1 && |DataOf(f')| == blocks - t + 1 && inode' == inode.(block := inode'.block)
        invariant Tally(geo, d0, disk, g0, group', cs) && Plus(tail, gone, cs) && TreesStored(d0, f')
                  && PointsTo(inode', f')
        invariant Shortened(geo.fan, f, f', gone)
        invariant Clean(geo.fan, inode.block, |DataOf(f)|) ==> Clean(geo.fan, inode'.block, |DataOf(f')|)
      {
        CutClearable(geo, d0, f, f', gone, tail, cs);
        ShortenedCut(geo.fan, f, f', gone);
        CutStored(geo.fan, d0, f');
        inode', group', cs := ReleasePointers(blocks - t, inode', f', group', d0, g0, cs);
        gone, f' := GoneOf(f') + gone, Cut(f');
        t := t + 1;
      }
    }

    /** `get_data_block_at_inode`: the numbers of all blocks of file `i`. */
    method GetDataBlocks(i: nat) returns (inode: Inode, bnum: seq<nat>)
      requires Valid() && i in files
      ensures i >= 1 && SlotOf(geo, i) in table && inode == table[SlotOf(geo, i)] && bnum == DataOf(files[i])
    {
      FileView(geo, disk, table, files, i);
      inode := GetInode(i);
      bnum := [];
      while |bnum| < inode.blocks
        invariant |bnum| <= inode.blocks && bnum == DataOf(files[i])[..|bnum|]
      {
        var b := GetInodeBlock(i, |bnum|);
        bnum := bnum + [b];
      }
    }

    /** `release_block`, for the inode and the block numbers of file `i`: the bits of the last `k` data blocks are
        cleared, and those of the blocks of pointers `gone`, which only led there. `group` counts them by group. */
    method ReleaseBlock(inode: Inode, bnum: seq<nat>, k: nat, group: seq<nat>, ghost i: nat)
      returns (inode': Inode, group': seq<nat>, ghost f': File, ghost gone: seq<nat>, ghost cs: seq<nat>)
      requires Valid() && i in files && i >= 1 && SlotOf(geo, i) in table && inode == table[SlotOf(geo, i)]
               && bnum == DataOf(files[i])
      requires k <= |bnum| && |group| == geo.groups
      modifies this`disk
      ensures Tally(geo, old(disk), disk, group, group', cs) && Plus(bnum[|bnum| - k..], gone, cs)
      ensures Shortened(geo.fan, files[i], f', gone) && |DataOf(f')| == |bnum| - k
      ensures Agrees(inode', f') && inode' == inode.(block := inode'.block, blocks := inode'.blocks)
      ensures Clean(geo.fan, inode.block, |bnum|) ==> Clean(geo.fan, inode'.block, |bnum| - k)
      ensures forall size: u32 :: Sound(geo, disk, table[SlotOf(geo, i) := inode'.(size := size)], files[i := f'])
    {
      ghost var d0, f := disk, files[i];
      FileView(geo, disk, table, files, i);
      OwnPointers(geo, disk, table, files, i);
      AllInUse(geo, disk, table, files, i);
      ghost var tail;
      group', tail := ClearData(bnum, k, group);
      inode', group', f', gone, cs := ClearPointers(k, inode, f, group', d0, group, tail);
      TailPlus(bnum[|bnum| - k..], tail, gone, cs);
      inode' := inode'.(blocks := inode.blocks - k);
      forall size: u32 ensures Sound(geo, disk, table[SlotOf(geo, i) := inode'.(size := size)], files[i := f']) {
        ReleasedSound(geo, d0, disk, table, files, i, inode'.(size := size), f', gone, group, group', cs);
      }
    }

    /** `increase_free_block` */
    method IncreaseFreeBlock(group: seq<nat>)
      requires |group| == |groupFree| == geo.groups
      modifies this`freeBlocks, this`groupFree
      ensures freeBlocks == Inc32(old(freeBlocks), SumOf(group)) && |groupFree| == geo.groups
      ensures forall g :: 0 <= g < geo.groups ==> groupFree[g] == Inc32(old(groupFree)[g], group[g])
    {
      var blocks := 0;
      for i := 0 to |group|
        invariant blocks == SumOf(group[..i])
      {
        assert group[..i + 1][..i] == group[..i];
        blocks := blocks + group[i];
      }
      assert group[..|group|] == group;
      freeBlocks := Inc32(freeBlocks, blocks);
      for g := 0 to |group|
        invariant |groupFree| == geo.groups && freeBlocks == Inc32(old(freeBlocks), SumOf(group))
        invariant forall k :: 0 <= k < geo.groups ==>
                    groupFree[k] == if k < g then Inc32(old(groupFree)[k], group[k]) else old(groupFree)[k]
      {
        if group[g] != 0 {
          groupFree := groupFree[g := Inc32(groupFree[g], group[g])];
        }
      }
    }

    /** The last `k` blocks of file `i` are released as `release_dir_entry` does with one: the bits, the counters, and
        then the inode, with the size `size`. */
    method ReleaseLast(i: nat, k: nat, size: u32) returns (ghost gone: seq<nat>, ghost cs: seq<nat>)
      requires Valid() && i in files && k <= |DataOf(files[i])|
      modifies this
      ensures Valid() && i in old(files) && i in files && files == old(files)[i := files[i]]
      ensures Shortened(geo.fan, old(files)[i], files[i], gone) && |DataOf(files[i])| == |DataOf(old(files)[i])| - k
      ensures i >= 1 && geo.Sane() && SlotOf(geo, i) in old(table) && SlotOf(geo, i) in table
      ensures var (inode, inode') := (old(table)[SlotOf(geo, i)], table[SlotOf(geo, i)]);
              && table == old(table)[SlotOf(geo, i) := inode'] && inode'.mode == inode.mode && inode'.size == size
              && (Clean(geo.fan, inode.block, |DataOf(old(files)[i])|) ==>
                    Clean(geo.fan, inode'.block, |DataOf(files[i])|))
      ensures Plus(DataOf(old(files)[i])[|DataOf(files[i])|..], gone, cs)
      ensures Formatted(geo, old(disk)) && Formatted(geo, disk) && Books() == old(Books())
      ensures forall g, b :: 0 <= g < geo.groups && 0 <= b < geo.perGroup ==>
                Used(geo, disk, g, b) == (Used(geo, old(disk), g, b) && geo.Number(g, b) !in cs)
    {
      var inode, bnum := GetDataBlocks(i);
      var none := seq(geo.groups, g => 0);
      var group;
      ghost var f';
      inode, group, f', gone, cs := ReleaseBlock(inode, bnum, k, none, i);
      IncreaseFreeBlock(group);
      ReleaseBooks(geo, old(disk), disk, none, group, cs, old(groupFree), old(freeBlocks), groupFree, freeBlocks);
      table := table[SlotOf(geo, i) := inode.(size := size)];
      files := files[i := f'];
    }
  }
}
