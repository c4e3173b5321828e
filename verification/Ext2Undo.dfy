/** Appending blocks to a file and releasing as many leaves every bit of the bitmaps and every counter as it was. */
module Ext2Undo {
  import opened Fixed
  import opened Seqs
  import opened BlockMap
  import opened Ext2Disk
  import opened Ext2Files
  import opened Ext2Free
  import opened Ext2Growth
  import opened Ext2Release
  import opened Ext2Strays
  import opened Ext2Turns
  import opened Ext2
  import opened Ext2IO

  /** From the disk `d` to `d'` the file `f` has become `f'`: it has got the data blocks `bs` and the blocks of pointers
      `added`, which were free, and nothing else has been taken. */
  ghost predicate Appends(geo: Geometry, d: Disk, f: File, d': Disk, f': File, bs: seq<nat>, added: seq<nat>) {
    && Formatted(geo, d) && Formatted(geo, d')
    && DataOf(f') == DataOf(f) + bs && PointersOf(f') == PointersOf(f) + added
    && (forall x: nat {:trigger InUse(geo, d, x)} :: InUse(geo, d, x) ==> InUse(geo, d', x))
    && (forall n :: n in bs || n in added ==> !InUse(geo, d, n))
    && FreeSize(geo, d) == FreeSize(geo, d') + |bs| + |added|
  }

  lemma {:induction false} AppendsThen(geo: Geometry, d: Disk, f: File, d1: Disk, f1: File, d2: Disk, f2: File,
                                       bs: seq<nat>, added: seq<nat>, b: nat, more: seq<nat>)
    requires Appends(geo, d, f, d1, f1, bs, added) && Appends(geo, d1, f1, d2, f2, [b], more)
    ensures Appends(geo, d, f, d2, f2, bs + [b], added + more)
  {
    Reassociate(DataOf(f), bs, [b]);
    Reassociate(PointersOf(f), added, more);
    assert b in [b];
  }

  // ----- the bits -----

  /** The blocks cleared are all that had been added, each once. */
  lemma {:induction false} AddedOnce(f0: File, f: File, bs: seq<nat>, added: seq<nat>, cs: seq<nat>)
    requires NoDup(BlocksOf(f)) && DataOf(f) == DataOf(f0) + bs && PointersOf(f) == PointersOf(f0) + added
             && Plus(bs, added, cs)
    ensures |Elements(cs)| == |bs| + |added|
  {
    NoDupParts(PointersOf(f), DataOf(f));
    NoDupParts(PointersOf(f0), added);
    NoDupParts(DataOf(f0), bs);
    forall n | n in added ensures n !in bs { assert n in PointersOf(f) && (n in bs ==> n in DataOf(f)); }
    NoDupJoin(added, bs);
    ElementsSize(added + bs);
    assert Elements(cs) == Elements(added + bs);
  }

  lemma {:induction false} FreedIs(geo: Geometry, d: Disk, d': Disk, cs: seq<nat>)
    requires Formatted(geo, d) && Formatted(geo, d') && forall n :: n in cs ==> InUse(geo, d, n)
    requires forall g, b :: 0 <= g < geo.groups && 0 <= b < geo.perGroup ==>
               Used(geo, d', g, b) == (Used(geo, d, g, b) && geo.Number(g, b) !in cs)
    ensures FreeBlocks(geo, d') == FreeBlocks(geo, d) + Elements(cs) && FreeBlocks(geo, d) !! Elements(cs)
  {
    forall n: nat | InData(geo, n) ensures InUse(geo, d', n) == (InUse(geo, d, n) && n !in cs) { geo.GroupIn(n); }
  }

  lemma {:induction false} SameBit(geo: Geometry, d: Disk, d': Disk, g: nat, b: nat)
    requires Formatted(geo, d) && Formatted(geo, d') && g < geo.groups && geo.first <= b < geo.perGroup
             && FreeBlocks(geo, d') == FreeBlocks(geo, d)
    ensures Used(geo, d', g, b) == Used(geo, d, g, b)
  {
    geo.NumberIn(g, b);
    var n := geo.Number(g, b);
    assert n in FreeBlocks(geo, d) <==> !Used(geo, d, g, b);
    assert n in FreeBlocks(geo, d') <==> !Used(geo, d', g, b);
  }

  lemma {:induction false} SameBitmaps(geo: Geometry, d: Disk, d': Disk)
    requires Formatted(geo, d) && Formatted(geo, d') && MetaUsed(geo, d) && MetaUsed(geo, d')
             && FreeBlocks(geo, d') == FreeBlocks(geo, d)
    ensures BitsKept(geo, d, d')
  {
    forall g, b | 0 <= g < geo.groups && 0 <= b < geo.perGroup ensures Used(geo, d', g, b) == Used(geo, d, g, b) {
      if b >= geo.first { SameBit(geo, d, d', g, b); }
    }
  }

  /** The free blocks are those of before the appends. */
  lemma {:induction false} FreeAgain(geo: Geometry, d0: Disk, f0: File, d1: Disk, f1: File, d2: Disk, bs: seq<nat>,
                                     added: seq<nat>, cs: seq<nat>)
    requires Appends(geo, d0, f0, d1, f1, bs, added) && Formatted(geo, d2) && Owns(geo, d1, f1) && Plus(bs, added, cs)
    requires forall g, b :: 0 <= g < geo.groups && 0 <= b < geo.perGroup ==>
               Used(geo, d2, g, b) == (Used(geo, d1, g, b) && geo.Number(g, b) !in cs)
    ensures FreeBlocks(geo, d2) == FreeBlocks(geo, d0)
  {
    PointersOwned(f1);
    forall n | n in cs ensures InUse(geo, d1, n) { assert n in DataOf(f1) || n in PointersOf(f1); }
    FreedIs(geo, d1, d2, cs);
    AddedOnce(f0, f1, bs, added, cs);
    FewerFree(geo, d0, d1);
    AllFree(FreeBlocks(geo, d2), FreeBlocks(geo, d0));
  }

  // ----- the counters -----

  /** With the same bits and the same books the counters are the same. */
  lemma {:induction false} SameCounters(geo: Geometry, d: Disk, d': Disk, free: seq<u32>, total: u32, free': seq<u32>,
                                        total': u32)
    requires BitsKept(geo, d, d') && |free| == |free'| == geo.groups
             && LedgerOf(geo, d', free', total') == LedgerOf(geo, d, free, total)
    ensures free' == free && total' == total
  {
    SameFree(geo, d, d', free, total);
    forall g | 0 <= g < geo.groups ensures free'[g] == free[g] { GroupCounter(geo, d', free, total, free', total', g); }
    assert free' == free;
    TotalCounter(geo, d', free, total, total');
  }

  lemma {:induction false} GroupCounter(geo: Geometry, d: Disk, free: seq<u32>, total: u32, free': seq<u32>,
                                        total': u32, g: nat)
    requires Formatted(geo, d) && |free| == |free'| == geo.groups
             && LedgerOf(geo, d, free', total') == LedgerOf(geo, d, free, total) && g < geo.groups
    ensures free'[g] == free[g]
  {
    var used := UsedIn(geo, d, g);
    assert LedgerOf(geo, d, free, total).groups[g] == (free[g] + used) % TWO_32;
    assert LedgerOf(geo, d, free', total').groups[g] == (free'[g] + used) % TWO_32;
    SameResidue(free'[g], free[g], used);
  }

  lemma {:induction false} TotalCounter(geo: Geometry, d: Disk, free: seq<u32>, total: u32, total': u32)
    requires Formatted(geo, d) && |free| == geo.groups
             && LedgerOf(geo, d, free, total') == LedgerOf(geo, d, free, total)
    ensures total' == total
  {
    SameResidue(total', total, 0 - SumOf(free));
  }

  lemma {:induction false} SameResidue(x: u32, y: u32, z: int)
    requires (x + z) % TWO_32 == (y + z) % TWO_32
    ensures x == y
  {
  }

  // ----- append and release -----

  /** A block for the end of file `i`, as `ext2_write` and `insert_entry` get one. */
  method AppendOne(fs: Ext2Fs, i: nat, start: nat) returns (ok: bool, group: nat, ghost b: nat, ghost added: seq<nat>)
    requires fs.Valid() && i in fs.files && start < fs.geo.groups
    requires |DataOf(fs.files[i])| < MaxBlocks(fs.geo.fan) && (i - 1) / fs.geo.inodesPerGroup < fs.geo.groups
    modifies fs
    ensures group < fs.geo.groups && fs.Valid() && fs.Books() == old(fs.Books()) && i in fs.files
    ensures ok ==> Appends(fs.geo, old(fs.disk), old(fs.files)[i], fs.disk, fs.files[i], [b], added)
    ensures ok ==> GotNext(fs.geo, old(fs.disk), old(fs.files)[i], fs.disk, fs.files[i], start, b)
                   && group == fs.geo.GroupOf(b)
    ensures var all := NeedOne(fs.geo.fan, |DataOf(old(fs.files)[i])|);
            (ok <==> old(fs.Spare()) >= all) && (ok ==> old(fs.Spare()) == fs.Spare() + all)
  {
    ghost var d, t, files, f := fs.disk, fs.table, fs.files, fs.files[i];
    var n;
    n, group := fs.TakeBlock(start);
    b, added := n, [];
    if n == 0 {
      return false, group, b, added;
    }
    ghost var d1 := fs.disk;
    InUseBounds(fs.geo, d1, n);
    ok, added := fs.SetInodeBlock(i, n);
    if ok {
      OneAppended(fs.geo, d, d1, fs.disk, f, fs.files[i], n, added);
      GrownNext(fs.geo, d, t, files, d1, fs.disk, fs.table, fs.files, i, start, n, added);
    }
  }

  lemma {:induction false} OneAppended(geo: Geometry, d: Disk, d1: Disk, d2: Disk, f: File, f': File, b: nat,
                                       added: seq<nat>)
    requires Formatted(geo, d) && Kept(geo, d, d1) && KeptBut(geo, d1, d2, PointersOf(f)) && Appended(f, f', added, b)
    requires !InUse(geo, d, b) && (forall n :: n in added ==> !InUse(geo, d1, n))
    requires FreeSize(geo, d) == FreeSize(geo, d1) + 1 && FreeSize(geo, d1) == FreeSize(geo, d2) + |added|
    ensures Appends(geo, d, f, d2, f', [b], added)
  {
    forall x: nat | InUse(geo, d, x) ensures InUse(geo, d2, x) { assert InUse(geo, d1, x); }
  }

  /** A block for the end of file `i`, which has got the data blocks `bs` already. */
  method AppendNext(fs: Ext2Fs, i: nat, at: nat, ghost start: nat, ghost d: Disk, ghost f: File, ghost bs: seq<nat>,
                    ghost added: seq<nat>)
    returns (ok: bool, group: nat, ghost bs': seq<nat>, ghost added': seq<nat>)
    requires fs.Valid() && i in fs.files && at < fs.geo.groups
    requires |DataOf(fs.files[i])| < MaxBlocks(fs.geo.fan) && (i - 1) / fs.geo.inodesPerGroup < fs.geo.groups
    requires Appends(fs.geo, d, f, fs.disk, fs.files[i], bs, added)
             && Turns(fs.geo, d, f, fs.disk, fs.files[i], start, at)
    modifies fs
    ensures group < fs.geo.groups && fs.Valid() && fs.Books() == old(fs.Books()) && i in fs.files
    ensures ok ==> |DataOf(fs.files[i])| == |DataOf(old(fs.files)[i])| + 1 && |bs'| == |bs| + 1
    ensures ok ==> Appends(fs.geo, d, f, fs.disk, fs.files[i], bs', added')
                   && Turns(fs.geo, d, f, fs.disk, fs.files[i], start, group)
    ensures Paid(NeedOne(fs.geo.fan, |DataOf(old(fs.files)[i])|), ok, old(fs.Spare()), fs.Spare())
  {
    ghost var d1, t1, files1 := fs.disk, fs.table, fs.files;
    ghost var b, more;
    ok, group, b, more := AppendOne(fs, i, at);
    bs', added' := bs + [b], added + more;
    if ok {
      TurnsOn(fs.geo, d, f, d1, t1, files1, fs.disk, fs.files[i], i, start, at, b);
      AppendsThen(fs.geo, d, f, d1, files1[i], fs.disk, fs.files[i], bs, added, b, more);
    }
  }

  /** The loop: `k` blocks for the end of file `i`, the search beginning with group `start`. */
  method AppendMany(fs: Ext2Fs, i: nat, k: nat, start: nat, ghost needs: seq<nat>)
    returns (ok: bool, ghost group: nat, ghost bs: seq<nat>, ghost added: seq<nat>, ghost got: nat)
    requires fs.Valid() && i in fs.files && |DataOf(fs.files[i])| + k <= MaxBlocks(fs.geo.fan)
             && (i - 1) / fs.geo.inodesPerGroup < fs.geo.groups && start < fs.geo.groups
    requires needs == Needs(fs.geo.fan, |DataOf(fs.files[i])|, k)
    modifies fs
    ensures fs.Valid() && fs.Books() == old(fs.Books()) && i in fs.files
    ensures ok ==> |bs| == k == got && Appends(fs.geo, old(fs.disk), old(fs.files)[i], fs.disk, fs.files[i], bs, added)
                   && Turns(fs.geo, old(fs.disk), old(fs.files)[i], fs.disk, fs.files[i], start, group)
    ensures Took(needs, got, ok, old(fs.Spare()), fs.Spare())
  {
    ghost var d, f, spare := fs.disk, fs.files[i], fs.Spare();
    GrownSelf(fs.geo, d, fs.table, fs.files, i, needs, spare, start);
    var at: nat, n: nat := start, 0;
    bs, added := [], [];
    while n < k
      invariant n <= k && |bs| == n && i in fs.files && |DataOf(fs.files[i])| == |DataOf(f)| + n
      invariant at < fs.geo.groups && fs.Valid() && fs.Books() == old(fs.Books())
      invariant Appends(fs.geo, d, f, fs.disk, fs.files[i], bs, added) && Took(needs, n, true, spare, fs.Spare())
      invariant Turns(fs.geo, d, f, fs.disk, fs.files[i], start, at)
    {
      ghost var left, size := fs.Spare(), |DataOf(fs.files[i])|;
      ok, at, bs, added := AppendNext(fs, i, at, start, d, f, bs, added);
      got := if ok then n + 1 else n;
      TookOne(fs.geo.fan, |DataOf(f)|, k, needs, n, got, size, spare, left, ok, fs.Spare());
      if !ok {
        group := at;
        return;
      }
      n := n + 1;
    }
    ok, got, group := true, n, at;
  }

  /** `k` blocks for the end of file `i`. */
  method AppendBlocks(fs: Ext2Fs, i: nat, k: nat) returns (ok: bool, ghost bs: seq<nat>, ghost added: seq<nat>)
    requires fs.Valid() && i in fs.files && i >= 1 && |DataOf(fs.files[i])| + k <= MaxBlocks(fs.geo.fan)
             && (i - 1) / fs.geo.inodesPerGroup < fs.geo.groups
    modifies fs
    ensures fs.Valid() && fs.Books() == old(fs.Books()) && i in fs.files
    ensures ok ==> |bs| == k && Appends(fs.geo, old(fs.disk), old(fs.files)[i], fs.disk, fs.files[i], bs, added)
    ensures ok ==> TakenInTurn(fs.geo, old(fs.disk), old(fs.files)[i], fs.files[i], (i - 1) / fs.geo.inodesPerGroup)
    ensures ok <==> old(fs.Spare()) >= NeedAll(fs.geo.fan, |DataOf(old(fs.files)[i])|, k)
  {
    ghost var d, t, f, spare := fs.disk, fs.table, fs.files, fs.Spare();
    ghost var needs := Needs(fs.geo.fan, |DataOf(f[i])|, k);
    var start: nat := (i - 1) / fs.geo.inodesPerGroup;
    ghost var group, got;
    ok, group, bs, added, got := AppendMany(fs, i, k, start, needs);
    TookAll(needs, got, ok, spare, fs.Spare());
    if ok { InTurnAll(fs.geo, d, t, f, fs.disk, i, fs.files[i], start, group); }
  }

  /** If there are blocks enough, then after the appends and the release of as many blocks all the bits and counters are
      what they were, and so are the blocks of the file. */
  method AppendAndRelease(fs: Ext2Fs, i: nat, k: nat, size: u32) returns (ok: bool)
    requires fs.Valid() && i in fs.files && |DataOf(fs.files[i])| + k <= MaxBlocks(fs.geo.fan)
             && (i - 1) / fs.geo.inodesPerGroup < fs.geo.groups
    modifies fs
    ensures fs.Valid() && i in fs.files && (ok <==> old(fs.Spare()) >= NeedAll(fs.geo.fan, |DataOf(old(fs.files)[i])|,
            k))
    ensures ok ==> BitsKept(fs.geo, old(fs.disk), fs.disk) && fs.groupFree == old(fs.groupFree)
                   && fs.freeBlocks == old(fs.freeBlocks)
    ensures ok ==> DataOf(fs.files[i]) == DataOf(old(fs.files)[i])
                   && PointersOf(fs.files[i]) == PointersOf(old(fs.files)[i])
  {
    ghost var d0, f0 := fs.disk, fs.files[i];
    FileView(fs.geo, fs.disk, fs.table, fs.files, i);
    ghost var bs, added;
    ok, bs, added := AppendBlocks(fs, i, k);
    if !ok {
      return;
    }
    ghost var d1, t1, files1 := fs.disk, fs.table, fs.files;
    ghost var gone, cs := fs.ReleaseLast(i, k, size);
    Undone(fs.geo, d0, f0, d1, t1, files1, fs.disk, fs.table, fs.files, i, bs, added, gone, cs);
    SameCounters(fs.geo, d0, fs.disk, old(fs.groupFree), old(fs.freeBlocks), fs.groupFree, fs.freeBlocks);
  }

  lemma {:induction false} Undone(geo: Geometry, d0: Disk, f0: File, d1: Disk, t1: map<Slot, Inode>,
                                  files1: map<nat, File>,
                                  d2: Disk, t2: map<Slot, Inode>, files2: map<nat, File>, i: nat, bs: seq<nat>,
                                      added: seq<nat>, gone: seq<nat>, cs: seq<nat>)
    requires Formatted(geo, d0) && MetaUsed(geo, d0) && Shape(geo.fan, f0) && Sound(geo, d1, t1, files1)
             && Sound(geo, d2, t2, files2) && i in files1 && i in files2
    requires Appends(geo, d0, f0, d1, files1[i], bs, added) && Shortened(geo.fan, files1[i], files2[i], gone)
    requires |DataOf(files2[i])| == |DataOf(files1[i])| - |bs|
             && Plus(DataOf(files1[i])[|DataOf(files2[i])|..], gone, cs)
    requires forall g, b :: 0 <= g < geo.groups && 0 <= b < geo.perGroup ==>
               Used(geo, d2, g, b) == (Used(geo, d1, g, b) && geo.Number(g, b) !in cs)
    ensures BitsKept(geo, d0, d2) && DataOf(files2[i]) == DataOf(f0) && PointersOf(files2[i]) == PointersOf(f0)
  {
    assert HoldsFile(geo, d1, t1, i, files1[i]);
    ReleaseInverts(geo.fan, f0, files1[i], files2[i], bs, added, gone);
    FreeAgain(geo, d0, f0, d1, files1[i], d2, bs, added, cs);
    SameBitmaps(geo, d0, d2);
  }
}
