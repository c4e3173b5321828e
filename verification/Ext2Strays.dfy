/** How many blocks a file takes, pointers included, and how many blocks are in use although no file has them. */
module Ext2Strays {
  import opened Seqs
  import opened IndexTree
  import opened BlockMap
  import opened BlockCut
  import opened Ext2Disk
  import opened Ext2Files
  import opened Ext2Free
  import opened Ext2Growth

  // ----- the size of a file in blocks -----

  /** The blocks of pointers that the last block of a tree needs are those that an append in its place takes. */
  lemma {:induction false} GoneSize(fan: nat, h: nat, t: Ix, x: nat)
    requires fan > 0 && h > 0 && Packed(fan, h, t) && |Leaves(h, t)| == x + 1
    ensures |Gone(h, t)| == NeedTree(fan, h, x)
  {
    var g := h - 1;
    CapPositive(fan, g);
    LastCount(fan, h, g, t, x / Cap(fan, g), x % Cap(fan, g));
    if g > 0 {
      NeedIs(fan, g, x);
      GoneSize(fan, g, Last(t), x % Cap(fan, g));
    }
  }

  lemma {:induction false} GoneOfSize(fan: nat, f: File)
    requires fan > 0 && Shape(fan, f) && DataOf(f) != []
    ensures |GoneOf(f)| == Need(fan, |DataOf(f)| - 1)
  {
    ShapeSize(fan, f);
    if f.trees != [] {
      var h := |f.trees|;
      var x := |Leaves(h, f.trees[h - 1])| - 1;
      NeedFor(fan, |DataOf(f)| - 1, h, x);
      GoneSize(fan, h, f.trees[h - 1], x);
    }
  }

  lemma {:induction false} BaseAtLeast(fan: nat, h: nat)
    ensures Base(fan, h) >= DIRECT
  {
    if h > 1 { BaseAtLeast(fan, h - 1); }
  }

  lemma {:induction false} NoData(fan: nat, f: File)
    requires fan > 0 && Shape(fan, f) && DataOf(f) == []
    ensures BlocksOf(f) == []
  {
    ShapeSize(fan, f);
    BaseAtLeast(fan, |f.trees|);
  }

  /** A file of n blocks takes what n appends to an empty file need. */
  lemma {:induction false} FileTakes(fan: nat, f: File)
    requires fan > 0 && Shape(fan, f)
    ensures |BlocksOf(f)| == NeedAll(fan, 0, |DataOf(f)|)
    decreases |DataOf(f)|
  {
    var n := |DataOf(f)|;
    if n == 0 {
      NoData(fan, f);
    } else {
      CutIs(fan, f);
      GoneOfSize(fan, f);
      FileTakes(fan, Cut(f));
      NeedMore(fan, 0, n - 1, 1);
    }
  }

  lemma {:induction false} NeedNext(fan: nat, n: nat, k: nat)
    ensures NeedAll(fan, n, k + 1) == NeedAll(fan, n, k) + NeedOne(fan, n + k)
  {
    assert (Needs(fan, n, k) + [NeedOne(fan, n + k)])[..k] == Needs(fan, n, k);
  }

  lemma {:induction false} NeedMore(fan: nat, n: nat, a: nat, b: nat)
    ensures NeedAll(fan, n, a + b) == NeedAll(fan, n, a) + NeedAll(fan, n + a, b)
    decreases b
  {
    if b > 0 {
      NeedMore(fan, n, a, b - 1);
      NeedNext(fan, n, a + b - 1);
      NeedNext(fan, n + a, b - 1);
    }
  }

  // ----- blocks that are in use but in no file -----

  ghost function Strays(geo: Geometry, d: Disk, files: map<nat, File>): set<nat> {
    if Formatted(geo, d) then set n: nat | n < geo.Total() && InUse(geo, d, n) && Free(files, n) else {}
  }

  ghost function StraySize(geo: Geometry, d: Disk, files: map<nat, File>): nat { |Strays(geo, d, files)| }

  function Elements(s: seq<nat>): set<nat> { set x | x in s }

  lemma {:induction false} ElementsSize(s: seq<nat>)
    requires NoDup(s)
    ensures |Elements(s)| == |s|
  {
    if s == [] {
      assert Elements(s) == {};
    } else {
      ElementsSize(s[1..]);
      assert Elements(s) == Elements(s[1..]) + {s[0]};
    }
  }

  function Rest(files: map<nat, File>, i: nat): map<nat, File> { map j | j in files && j != i :: files[j] }

  ghost function Owned(geo: Geometry, files: map<nat, File>): set<nat> {
    set n: nat | n < geo.Total() && !Free(files, n)
  }

  ghost function AllData(geo: Geometry): set<nat>
    requires geo.Sane()
  {
    set n: nat | n < geo.Total() && InData(geo, n)
  }

  lemma {:induction false} FreeOfAll(files: map<nat, File>, i: nat, n: nat)
    requires i in files
    ensures Free(files, n) <==> Free(Rest(files, i), n) && n !in BlocksOf(files[i])
  {
    var rest := Rest(files, i);
    if Free(rest, n) && n !in BlocksOf(files[i]) {
      forall j | j in files ensures n !in BlocksOf(files[j]) { assert j != i ==> rest[j] == files[j]; }
    }
  }

  lemma {:induction false} RestUsed(geo: Geometry, d: Disk, table: map<Slot, Inode>, files: map<nat, File>, i: nat,
                                    n: nat)
    requires Sound(geo, d, table, files) && i in files && !Free(Rest(files, i), n)
    ensures InUse(geo, d, n) && n !in BlocksOf(files[i])
  {
    var rest := Rest(files, i);
    var j :| j in rest && n in BlocksOf(rest[j]);
    assert HoldsFile(geo, d, table, j, files[j]);
    assert Apart(files[j], files[i]);
  }

  lemma {:induction false} SameRest(f: map<nat, File>, f': map<nat, File>, i: nat)
    requires i in f && i in f' && f' == f[i := f'[i]]
    ensures Rest(f', i) == Rest(f, i)
  {
  }

  lemma {:induction false} FourParts(all: set<nat>, a: set<nat>, b: set<nat>, c: set<nat>, d: set<nat>)
    requires forall n :: n in all <==> n in a || n in b || n in c || n in d
    requires a !! b && a !! c && a !! d && b !! c && b !! d && c !! d
    ensures |all| == |a| + |b| + |c| + |d|
  {
    assert all == a + (b + (c + d));
    assert |c + d| == |c| + |d|;
    assert |b + (c + d)| == |b| + |c + d|;
  }

  /** Where a data block can be. */
  lemma {:induction false} WhereIs(geo: Geometry, d: Disk, table: map<Slot, Inode>, files: map<nat, File>, i: nat,
                                   n: nat)
    requires Sound(geo, d, table, files) && i in files
    ensures n in FreeBlocks(geo, d) <==> n in AllData(geo) && !InUse(geo, d, n)
    ensures n in Strays(geo, d, files) <==>
            InUse(geo, d, n) && n !in BlocksOf(files[i]) && n !in Owned(geo, Rest(files, i))
    ensures n in BlocksOf(files[i]) ==> InUse(geo, d, n) && n !in Owned(geo, Rest(files, i))
    ensures n in Owned(geo, Rest(files, i)) ==> InUse(geo, d, n)
    ensures InUse(geo, d, n) ==> n in AllData(geo)
  {
    assert HoldsFile(geo, d, table, i, files[i]);
    FreeOfAll(files, i, n);
    if !Free(Rest(files, i), n) { RestUsed(geo, d, table, files, i, n); }
  }

  /** Every data block is free, stray, in file `i` or in another one. */
  lemma {:induction false} Census(geo: Geometry, d: Disk, table: map<Slot, Inode>, files: map<nat, File>, i: nat)
    requires Sound(geo, d, table, files) && i in files
    ensures FreeSize(geo, d) + StraySize(geo, d, files) + |BlocksOf(files[i])| + |Owned(geo, Rest(files, i))| ==
            |AllData(geo)|
  {
    var own, others := Elements(BlocksOf(files[i])), Owned(geo, Rest(files, i));
    var free, strays := FreeBlocks(geo, d), Strays(geo, d, files);
    assert HoldsFile(geo, d, table, i, files[i]);
    ElementsSize(BlocksOf(files[i]));
    forall n: nat ensures n in AllData(geo) <==> n in free || n in strays || n in own || n in others
      ensures n in free ==> n !in strays && n !in own && n !in others
      ensures n in strays ==> n !in own && n !in others
      ensures n in own ==> n !in others
    {
      WhereIs(geo, d, table, files, i, n);
    }
    FourParts(AllData(geo), free, strays, own, others);
  }

  /** A file has grown by `got` blocks: what these did not need of the free blocks that were taken is stray. */
  lemma {:induction false} StraysAfter(geo: Geometry, d: Disk, t: map<Slot, Inode>, f: map<nat, File>, d': Disk,
                                       t': map<Slot, Inode>, f': map<nat, File>, i: nat, got: nat)
    requires Sound(geo, d, t, f) && Sound(geo, d', t', f') && i in f && i in f' && f' == f[i := f'[i]]
    requires |DataOf(f'[i])| == |DataOf(f[i])| + got
    ensures StraySize(geo, d', f') == StraySize(geo, d, f) + FreeSize(geo, d) - FreeSize(geo, d')
                                      - NeedAll(geo.fan, |DataOf(f[i])|, got)
  {
    Census(geo, d, t, f, i);
    Census(geo, d', t', f', i);
    SameRest(f, f', i);
    FileGrew(geo, d, t, f, d', t', f', i, got);
  }

  lemma {:induction false} FileGrew(geo: Geometry, d: Disk, t: map<Slot, Inode>, f: map<nat, File>, d': Disk,
                                    t': map<Slot, Inode>, f': map<nat, File>, i: nat, got: nat)
    requires Sound(geo, d, t, f) && Sound(geo, d', t', f') && i in f && i in f'
    requires |DataOf(f'[i])| == |DataOf(f[i])| + got
    ensures |BlocksOf(f'[i])| == |BlocksOf(f[i])| + NeedAll(geo.fan, |DataOf(f[i])|, got)
  {
    FileView(geo, d, t, f, i);
    FileView(geo, d', t', f', i);
    FileTakes(geo.fan, f[i]);
    FileTakes(geo.fan, f'[i]);
    NeedMore(geo.fan, 0, |DataOf(f[i])|, got);
  }

  /** The data block of an append was stray before it. */
  lemma {:induction false} StraysLess(geo: Geometry, d: Disk, t: map<Slot, Inode>, f: map<nat, File>, d': Disk,
                                      t': map<Slot, Inode>, f': map<nat, File>, i: nat, b: nat, added: seq<nat>)
    requires Sound(geo, d, t, f) && Sound(geo, d', t', f') && i in f && i in f' && f' == f[i := f'[i]]
    requires Appended(f[i], f'[i], added, b) && |added| == Need(geo.fan, |DataOf(f[i])|)
             && FreeSize(geo, d) == FreeSize(geo, d') + |added|
    ensures StraySize(geo, d', f') == StraySize(geo, d, f) - 1
  {
    StraysAfter(geo, d, t, f, d', t', f', i, 1);
    NeedForOne(geo.fan, |DataOf(f[i])|);
  }

  lemma {:induction false} NeedForOne(fan: nat, n: nat)
    ensures NeedAll(fan, n, 0) == 0 && NeedAll(fan, n, 1) == NeedOne(fan, n)
  {
    assert Needs(fan, n, 1) == [] + [NeedOne(fan, n)];
  }

  /** An append that ran out of blocks has taken all there were. */
  lemma {:induction false} StraysMore(geo: Geometry, d: Disk, t: map<Slot, Inode>, f: map<nat, File>, d': Disk, i: nat)
    requires Sound(geo, d, t, f) && Sound(geo, d', t, f) && i in f && DiskFull(geo, d')
    ensures StraySize(geo, d', f) == StraySize(geo, d, f) + FreeSize(geo, d)
  {
    FullIsEmpty(geo, d');
    assert f == f[i := f[i]];
    StraysAfter(geo, d, t, f, d', t, f, i, 0);
    NeedForOne(geo.fan, |DataOf(f[i])|);
  }

  /** Where `got` further blocks have been put into file `i`: all that was taken for them is in it, or else the disk is
      full and the rest of what was free is stray. */
  lemma {:induction false} StraysLeft(geo: Geometry, d: Disk, t: map<Slot, Inode>, f: map<nat, File>, d': Disk,
                                      t': map<Slot, Inode>, f': map<nat, File>, i: nat, got: nat, ok: bool)
    requires Sound(geo, d, t, f) && Sound(geo, d', t', f') && i in f && i in f' && f' == f[i := f'[i]]
    requires |DataOf(f'[i])| == |DataOf(f[i])| + got
    requires var need := NeedAll(geo.fan, |DataOf(f[i])|, got);
             if ok then FreeSize(geo, d) == FreeSize(geo, d') + need else DiskFull(geo, d')
    ensures StraySize(geo, d', f') == StraySize(geo, d, f)
                                      + (if ok then 0 else FreeSize(geo, d) - NeedAll(geo.fan, |DataOf(f[i])|, got))
  {
    StraysAfter(geo, d, t, f, d', t', f', i, got);
    FullIsEmpty(geo, d');
  }
}
