/** Giving blocks back: what clearing their bits does to the disk, and which blocks of pointers go with the last block
    of a file. */
module Ext2Release {
  import opened Arith
  import opened Fixed
  import opened Bytes
  import opened Seqs
  import opened IndexTree
  import opened BlockMap
  import opened BlockCut
  import opened Ext2Disk
  import opened Ext2Files
  import opened Ext2Growth

  /** How many of the blocks lie in group `g`. */
  function CountIn(geo: Geometry, cs: seq<nat>, g: nat): nat
    requires geo.Sane()
  {
    if cs == [] then 0 else CountIn(geo, cs[..|cs| - 1], g) + if cs[|cs| - 1] / geo.perGroup == g then 1 else 0
  }

  /** `d` is the disk `d0` with the bits of the blocks `cs` cleared, and `group` has counted them group by group, from
      `g0` on. */
  ghost predicate Tally(geo: Geometry, d0: Disk, d: Disk, g0: seq<nat>, group: seq<nat>, cs: seq<nat>) {
    && Formatted(geo, d0) && Formatted(geo, d) && |group| == |g0| == geo.groups && NoDup(cs)
    && (forall n :: n in cs ==> InUse(geo, d0, n))
    && (forall x: nat {:trigger InData(geo, x)} :: InData(geo, x) ==> d[x] == d0[x])
    && (forall g, b :: 0 <= g < geo.groups && 0 <= b < geo.perGroup ==>
          Used(geo, d, g, b) == (Used(geo, d0, g, b) && geo.Number(g, b) !in cs))
    && (forall g :: 0 <= g < geo.groups ==> group[g] == g0[g] + CountIn(geo, cs, g))
    && (forall g :: 0 <= g < geo.groups ==> UsedIn(geo, d, g) + CountIn(geo, cs, g) == UsedIn(geo, d0, g))
  }

  lemma {:induction false} TallyNone(geo: Geometry, d: Disk, group: seq<nat>)
    requires Formatted(geo, d) && |group| == geo.groups
    ensures Tally(geo, d, d, group, group, [])
  {
  }

  lemma {:induction false} NumberApart(geo: Geometry, n: nat, g: nat, b: nat)
    requires geo.Sane() && n < geo.Total() && g < geo.groups && b < geo.perGroup
    ensures geo.Number(g, b) == n <==> g == geo.GroupOf(n) && b == geo.IndexOf(n)
  {
    geo.NumberIn(g, b);
    geo.GroupIn(n);
  }

  /** Clearing one more bit. */
  lemma {:induction false} TallyMore(geo: Geometry, d0: Disk, d: Disk, g0: seq<nat>, group: seq<nat>, cs: seq<nat>,
                                     n: nat)
    requires Tally(geo, d0, d, g0, group, cs) && InUse(geo, d0, n) && n !in cs
    ensures var (g, b) := (geo.GroupOf(n), geo.IndexOf(n));
            Tally(geo, d0, Marked(geo, d, g, b, false), g0, group[g := group[g] + 1], cs + [n])
  {
    var g, b := geo.GroupOf(n), geo.IndexOf(n);
    var d', cs' := Marked(geo, d, g, b, false), cs + [n];
    assert cs'[..|cs|] == cs;
    geo.GroupIn(n);
    assert Used(geo, d, g, b);
    forall g', b' | 0 <= g' < geo.groups && 0 <= b' < geo.perGroup
      ensures Used(geo, d', g', b') == (Used(geo, d0, g', b') && geo.Number(g', b') !in cs')
    {
      MarkedUsed(geo, d, g, b, false, g', b');
      NumberApart(geo, n, g', b');
    }
    forall x: nat | InData(geo, x) ensures d'[x] == d0[x] { BitmapOutside(geo, g, x); }
    forall k | 0 <= k < geo.groups ensures UsedIn(geo, d', k) + CountIn(geo, cs', k) == UsedIn(geo, d0, k) {
      MarkedCount(geo, d, g, b, false, k, geo.perGroup);
    }
  }

  // ----- the blocks of pointers that go -----

  lemma {:induction false} CutStored(fan: nat, d: Disk, f: File)
    requires Shape(fan, f) && DataOf(f) != [] && TreesStored(d, f)
    ensures TreesStored(d, Cut(f))
  {
    var h := |f.trees|;
    if h > 0 && |Leaves(h, f.trees[h - 1])| > 1 {
      DropIs(fan, h, f.trees[h - 1]);
      ExtendsStores(d, h, Dropped(h, f.trees[h - 1]), f.trees[h - 1]);
    }
  }

  /** The last pointer of a block, which leads to where the last block of the file is. */
  lemma {:induction false} LastPointer(fan: nat, d: Disk, h: nat, g: nat, t: Ix, q: nat, r: nat)
    requires h == g + 1 && Packed(fan, h, t) && Stores(d, h, t) && |Leaves(h, t)| == q * Cap(fan, g) + r + 1
             && r < Cap(fan, g)
    ensures t.b < |d| && 4 * q + 3 < |d[t.b]| && Word(d[t.b], q) == Last(t).b && Stores(d, g, Last(t))
            && Packed(fan, g, Last(t))
    ensures |Leaves(g, Last(t))| == r + 1 && Gone(h, t) == (if q * Cap(fan, g) + r == 0 then [t.b] else [])
            + Gone(g, Last(t))
  {
    LastCount(fan, h, g, t, q, r);
  }

  lemma {:induction false} GoneOne(fan: nat, t: Ix)
    requires Packed(fan, 1, t)
    ensures Gone(1, t) == if |Leaves(1, t)| == 1 then [t.b] else []
  {
    assert Gone(0, Last(t)) == [];
    assert [t.b] + [] == [t.b];
  }

  /** Everything in `gone` and nothing else has been cleared after `cs`. */
  ghost predicate Plus(cs: seq<nat>, gone: seq<nat>, cs': seq<nat>) {
    (forall n :: n in cs' ==> n in cs || n in gone) && (forall n :: n in cs ==> n in cs')
    && (forall n :: n in gone ==> n in cs')
  }

  /** Blocks that can be cleared next: in use on the disk `d0`, each once, and not cleared yet. */
  ghost predicate Clearable(geo: Geometry, d0: Disk, cs: seq<nat>, gone: seq<nat>)
    requires Formatted(geo, d0)
  {
    NoDup(gone) && forall n :: n in gone ==> InUse(geo, d0, n) && n !in cs
  }

  /** The blocks of pointers on the right edge can be read. */
  lemma {:induction false} EdgeInUse(geo: Geometry, d: Disk, h: nat, t: Ix)
    requires Formatted(geo, d) && h > 0 && Packed(geo.fan, h, t) && forall n :: n in Spent(h, t) ==> InUse(geo, d, n)
    ensures InUse(geo, d, t.b) && (h > 1 ==> InUse(geo, d, Last(t).b))
  {
    SpineSpent(h, t, 0);
    if h > 1 { SpineSpent(h, t, 1); }
  }

  /** The blocks of pointers that go with block `x`, and where they are found: two levels of them... */
  lemma {:induction false} EdgeTwo(geo: Geometry, d: Disk, t: Ix, q: nat, r: nat)
    requires Formatted(geo, d) && Packed(geo.fan, 2, t) && Stores(d, 2, t) && |Leaves(2, t)| == q * geo.fan + r + 1
             && r < geo.fan
    requires forall n :: n in Spent(2, t) ==> InUse(geo, d, n)
    ensures InUse(geo, d, t.b) && 4 * q + 3 < |d[t.b]|
    ensures var (x, indirect) := (q * geo.fan + r, Word(d[t.b], q));
            Gone(2, t) == if r != 0 then [] else if x != 0 then [indirect] else [t.b, indirect]
  {
    Caps(geo.fan);
    EdgeInUse(geo, d, 2, t);
    LastPointer(geo.fan, d, 2, 1, t, q, r);
    GoneOne(geo.fan, Last(t));
    GoneBoth(Gone(2, t), Gone(1, Last(t)), t.b, Last(t).b, q * geo.fan + r, r);
  }

  lemma {:induction false} GoneBoth(gone: seq<nat>, below: seq<nat>, at: nat, kid: nat, x: nat, r: nat)
    requires gone == (if x == 0 then [at] else []) + below && below == (if r == 0 then [kid] else []) && r <= x
    ensures gone == if r != 0 then [] else if x != 0 then [kid] else [at, kid]
  {
  }

  /** ...or three. */
  lemma {:induction false} EdgeThree(geo: Geometry, d: Disk, t: Ix, q: nat, r: nat)
    requires Formatted(geo, d) && Packed(geo.fan, 3, t) && Stores(d, 3, t)
             && |Leaves(3, t)| == q * Cap(geo.fan, 2) + r + 1 && r < Cap(geo.fan, 2)
    requires forall n :: n in Spent(3, t) ==> InUse(geo, d, n)
    ensures InUse(geo, d, t.b) && 4 * q + 3 < |d[t.b]| && Word(d[t.b], q) == Last(t).b
    ensures Packed(geo.fan, 2, Last(t)) && Stores(d, 2, Last(t)) && |Leaves(2, Last(t))| == r + 1
            && forall n :: n in Spent(2, Last(t)) ==> InUse(geo, d, n)
    ensures Gone(3, t) == (if q * Cap(geo.fan, 2) + r == 0 then [t.b] else []) + Gone(2, Last(t))
  {
    EdgeInUse(geo, d, 3, t);
    LastPointer(geo.fan, d, 3, 2, t, q, r);
    var u := Last(t);
    forall n | n in Spent(2, u) ensures n in Spent(3, t) {
      SpentKid(2, t.kids, |t.kids| - 1, n);
      assert n in [t.b] + AllSpent(2, t.kids);
    }
  }

  lemma {:induction false} ClearableTail(geo: Geometry, d0: Disk, cs: seq<nat>, a: seq<nat>, b: seq<nat>)
    requires Formatted(geo, d0) && Clearable(geo, d0, cs, a + b)
    ensures Clearable(geo, d0, cs, b)
  {
    NoDupParts(a, b);
    assert forall n :: n in b ==> n in a + b;
  }

  /** The inode leads to the direct blocks and to the roots of the trees. */
  ghost predicate PointsTo(inode: Inode, f: File) {
    && |inode.block| == N_BLOCKS && |f.direct| <= DIRECT && |f.trees| <= 3
    && (forall k :: 0 <= k < |f.direct| ==> inode.block[k] == f.direct[k])
    && (forall k :: 0 <= k < |f.trees| ==> inode.block[DIRECT + k] == f.trees[k].b)
  }

  /** A pointer that the shorter file does not need is zeroed. */
  lemma {:induction false} PointsToCut(fan: nat, inode: Inode, f: File, k: nat)
    requires PointsTo(inode, f) && Shape(fan, f) && DataOf(f) != []
    requires k < N_BLOCKS ==> |Cut(f).direct| <= k && (k < DIRECT || |Cut(f).trees| <= k - DIRECT)
    ensures PointsTo(if k < N_BLOCKS then inode.(block := inode.block[k := 0]) else inode, Cut(f))
  {
    if f.trees != [] { PackedLeaves(fan, |f.trees|, f.trees[|f.trees| - 1]); }
  }

  lemma {:induction false} TreeInUse(geo: Geometry, d: Disk, f: File, k: nat, h: nat)
    requires Formatted(geo, d) && h == k + 1 <= |f.trees| && TreesStored(d, f)
             && forall b :: b in PointersOf(f) ==> InUse(geo, d, b)
    ensures Stores(d, h, f.trees[k]) && forall n :: n in Spent(h, f.trees[k]) ==> InUse(geo, d, n)
  {
    forall n | n in Spent(h, f.trees[k]) ensures InUse(geo, d, n) { PointersInside(f.trees, |f.trees|, k, n); }
  }

  lemma {:induction false} SingleGone(fan: nat, f: File, n: nat)
    requires Shape(fan, f) && fan > 0 && |DataOf(f)| == n + 1 && n < Base(fan, 1) + Cap(fan, 1)
    ensures |Cut(f).direct| <= n && (n >= DIRECT ==> |Cut(f).trees| <= n - DIRECT)
    ensures (n == DIRECT ==> |f.trees| == 1) && GoneOf(f) == if n == DIRECT then [f.trees[0].b] else []
  {
    if n >= DIRECT {
      LastTree(fan, f, 1, n);
      GoneOne(fan, f.trees[0]);
    } else {
      NoTree(fan, f);
    }
  }

  // ----- the shorter file -----

  /** `f'` holds the first blocks of `f`, and `gone` are the blocks of pointers it does without. */
  ghost predicate Shortened(fan: nat, f: File, f': File, gone: seq<nat>) {
    && Shape(fan, f') && |DataOf(f')| <= |DataOf(f)| && DataOf(f') == DataOf(f)[..|DataOf(f')|]
    && PointersOf(f) == PointersOf(f') + gone
  }

  lemma {:induction false} ShortenedSelf(fan: nat, f: File)
    requires Shape(fan, f)
    ensures Shortened(fan, f, f, [])
  {
    assert PointersOf(f) + [] == PointersOf(f);
    assert DataOf(f)[..|DataOf(f)|] == DataOf(f);
  }

  lemma {:induction false} ShortenedCut(fan: nat, f: File, f': File, gone: seq<nat>)
    requires Shortened(fan, f, f', gone) && DataOf(f') != []
    ensures Shortened(fan, f, Cut(f'), GoneOf(f') + gone) && |DataOf(Cut(f'))| == |DataOf(f')| - 1
  {
    CutIs(fan, f');
    Rejoin(PointersOf(Cut(f')), GoneOf(f'), gone);
    TakeFirst(DataOf(Cut(f')), [DataOf(f')[|DataOf(f')| - 1]], |DataOf(Cut(f'))|);
    assert DataOf(f)[..|DataOf(f')|][..|DataOf(Cut(f'))|] == DataOf(f)[..|DataOf(Cut(f'))|];
  }

  /** What goes next has not been cleared: it is neither among the last data blocks nor among what went before. */
  lemma {:induction false} CutClearable(geo: Geometry, d0: Disk, f: File, f': File, gone: seq<nat>, tail: seq<nat>,
                                        cs: seq<nat>)
    requires Formatted(geo, d0) && Shortened(geo.fan, f, f', gone) && DataOf(f') != [] && NoDup(BlocksOf(f))
    requires (forall n :: n in BlocksOf(f) ==> InUse(geo, d0, n)) && (forall n :: n in tail ==> n in DataOf(f))
             && Plus(tail, gone, cs)
    ensures Clearable(geo, d0, cs, GoneOf(f')) && forall n :: n in PointersOf(f') ==> InUse(geo, d0, n)
  {
    CutIs(geo.fan, f');
    var p, g := PointersOf(f'), GoneOf(f');
    NoDupParts(PointersOf(f), DataOf(f));
    NoDupParts(p, gone);
    NoDupParts(PointersOf(Cut(f')), g);
    forall n | n in g ensures n in p { }
    forall n | n in p ensures n in PointersOf(f) && n in BlocksOf(f) { }
  }

  lemma {:induction false} ShorterBlocks(fan: nat, f: File, f': File, gone: seq<nat>, cs: seq<nat>)
    requires Shortened(fan, f, f', gone) && NoDup(BlocksOf(f)) && Plus(DataOf(f)[|DataOf(f')|..], gone, cs)
    ensures NoDup(BlocksOf(f')) && forall n :: n in BlocksOf(f') ==> n in BlocksOf(f) && n !in cs
    ensures forall n :: n in cs ==> n in BlocksOf(f)
  {
    var k := |DataOf(f')|;
    var p, p', d, tail := PointersOf(f), PointersOf(f'), DataOf(f), DataOf(f)[k..];
    assert d == DataOf(f') + tail;
    NoDupParts(p, d);
    NoDupParts(p', gone);
    NoDupParts(DataOf(f'), tail);
    PointersOwned(f);
    PointersOwned(f');
    forall n | n in p' ensures n in p && n !in cs { }
    forall n | n in DataOf(f') ensures n in d && n !in cs { }
    NoDupJoin(p', DataOf(f'));
    forall n | n in cs ensures n in BlocksOf(f) { }
  }

  /** With the inode of the shorter file in place the disk holds that file, and the others as before. */
  lemma {:induction false} ReleasedSound(geo: Geometry, d0: Disk, d: Disk, table: map<Slot, Inode>,
                                         files: map<nat, File>, i: nat, inode: Inode, f': File, gone: seq<nat>,
                                         g0: seq<nat>, group: seq<nat>, cs: seq<nat>)
    requires Sound(geo, d0, table, files) && i in files && i >= 1 && Tally(geo, d0, d, g0, group, cs)
    requires Shortened(geo.fan, files[i], f', gone) && Plus(DataOf(files[i])[|DataOf(f')|..], gone, cs)
             && TreesStored(d0, f') && Agrees(inode, f')
    ensures Sound(geo, d, table[SlotOf(geo, i) := inode], files[i := f'])
  {
    var f := files[i];
    assert HoldsFile(geo, d0, table, i, f);
    ShorterBlocks(geo.fan, f, f', gone, cs);
    TallyKeeps(geo, d0, d, g0, group, cs, f');
    TallyMeta(geo, d0, d, g0, group, cs);
    forall j | j in files && j != i ensures HoldsFile(geo, d, table[SlotOf(geo, i) := inode], j, files[j])
        && Apart(f', files[j]) && Apart(files[j], f') {
      assert HoldsFile(geo, d0, table, j, files[j]) && Apart(f, files[j]) && Apart(files[j], f);
      if SlotOf(geo, j) == SlotOf(geo, i) { SlotsApart(geo, i, j); }
      TallyKeeps(geo, d0, d, g0, group, cs, files[j]);
    }
  }

  lemma {:induction false} TallyKeeps(geo: Geometry, d0: Disk, d: Disk, g0: seq<nat>, group: seq<nat>, cs: seq<nat>,
                                      f: File)
    requires Tally(geo, d0, d, g0, group, cs) && NoDup(BlocksOf(f)) && TreesStored(d0, f)
    requires forall n :: n in BlocksOf(f) ==> InUse(geo, d0, n) && n !in cs
    ensures Owns(geo, d, f) && TreesStored(d, f)
  {
    forall n | n in BlocksOf(f) ensures InUse(geo, d, n) { geo.GroupIn(n); }
    PointersOwned(f);
    FileStays(geo, d0, d, f);
  }

  lemma {:induction false} TallyMeta(geo: Geometry, d0: Disk, d: Disk, g0: seq<nat>, group: seq<nat>, cs: seq<nat>)
    requires Tally(geo, d0, d, g0, group, cs) && MetaUsed(geo, d0)
    ensures MetaUsed(geo, d)
  {
    forall g, b | 0 <= g < geo.groups && 0 <= b < geo.first ensures Used(geo, d, g, b) { geo.NumberIn(g, b); }
  }

  /** Releasing as many blocks as were appended takes back exactly those: the data blocks `bs` and the blocks of
      pointers `added` that came with them. */
  lemma {:induction false} ReleaseInverts(fan: nat, f0: File, f: File, f': File, bs: seq<nat>, added: seq<nat>,
                                          gone: seq<nat>)
    requires fan > 0 && Shape(fan, f0) && DataOf(f) == DataOf(f0) + bs && PointersOf(f) == PointersOf(f0) + added
    requires Shortened(fan, f, f', gone) && |DataOf(f')| == |DataOf(f)| - |bs|
    ensures DataOf(f') == DataOf(f0) && PointersOf(f') == PointersOf(f0) && gone == added
            && DataOf(f)[|DataOf(f)| - |bs|..] == bs
  {
    TakeFirst(DataOf(f0), bs, |DataOf(f0)|);
    SamePointers(fan, f0, f');
    var p := PointersOf(f);
    TakeFirst(PointersOf(f0), added, |PointersOf(f0)|);
    TakeFirst(PointersOf(f'), gone, |PointersOf(f')|);
    assert added == p[|PointersOf(f0)|..] && gone == p[|PointersOf(f')|..];
  }

  // ----- the books -----

  function Inc32(x: u32, n: nat): u32 { (x + n) % TWO_32 }

  /** Equal up to a multiple of 2^32. */
  lemma {:induction false} SameMod(a: nat, b: nat, j: nat, k: nat)
    requires a + j * TWO_32 == b + k * TWO_32
    ensures a % TWO_32 == b % TWO_32
  {
    ModShift(a, j, TWO_32);
    ModShift(b, k, TWO_32);
  }

  /** One block less is free, and one more in use. */
  lemma {:induction false} AllocBooks(geo: Geometry, d: Disk, free: seq<u32>, total: u32, g: nat, b: nat)
    requires Formatted(geo, d) && |free| == geo.groups && g < geo.groups && geo.first <= b < geo.perGroup
             && !Used(geo, d, g, b)
    ensures LedgerOf(geo, Taken(geo, d, g, b), free[g := Dec32(free[g])], Dec32(total)) == LedgerOf(geo, d, free, total)
  {
    var free' := free[g := Dec32(free[g])];
    forall k | 0 <= k < geo.groups ensures (free'[k] + UsedIn(geo, Taken(geo, d, g, b), k)) % TWO_32 ==
        (free[k] + UsedIn(geo, d, k)) % TWO_32 {
      TakenCount(geo, d, g, b, k);
      if k == g { CountedOnce(free[g], UsedIn(geo, d, g)); }
    }
    SumUpdate(free, g, Dec32(free[g]));
    TotalOnce(free[g], total, SumOf(free), SumOf(free'));
    LedgerSame(geo, d, free, total, Taken(geo, d, g, b), free', Dec32(total));
  }

  /** One less in a count of free blocks, and one more in use. */
  lemma {:induction false} CountedOnce(c: u32, used: nat)
    ensures (Dec32(c) + (used + 1)) % TWO_32 == (c + used) % TWO_32
  {
    SameMod(Dec32(c) + (used + 1), c + used, 0, if c == 0 then 1 else 0);
  }

  /** One less in the count of a group, and in that of the disk. */
  lemma {:induction false} TotalOnce(c: u32, total: u32, sum: nat, sum': nat)
    requires sum' + c == sum + Dec32(c)
    ensures (Dec32(total) + sum) % TWO_32 == (total + sum') % TWO_32
  {
    SameMod(Dec32(total) + sum, total + sum', if c == 0 then 1 else 0, if total == 0 then 1 else 0);
  }

  lemma {:induction false} SumWraps(free: seq<u32>, group: seq<nat>, free': seq<u32>) returns (k: nat)
    requires |free| == |group| == |free'| && forall g :: 0 <= g < |free| ==> free'[g] == Inc32(free[g], group[g])
    ensures SumOf(free') + k * TWO_32 == SumOf(free) + SumOf(group)
  {
    k := 0;
    if free != [] {
      var n := |free| - 1;
      k := SumWraps(free[..n], group[..n], free'[..n]);
      k := k + (free[n] + group[n]) / TWO_32;
    }
  }

  /** The blocks counted in `group` are free again. */
  lemma {:induction false} ReleaseBooks(geo: Geometry, d0: Disk, d: Disk, g0: seq<nat>, group: seq<nat>, cs: seq<nat>,
                                        free: seq<u32>, total: u32, free': seq<u32>, total': u32)
    requires Tally(geo, d0, d, g0, group, cs) && (forall g :: 0 <= g < geo.groups ==> g0[g] == 0)
    requires |free| == |free'| == geo.groups && total' == Inc32(total, SumOf(group))
    requires forall g :: 0 <= g < geo.groups ==> free'[g] == Inc32(free[g], group[g])
    ensures LedgerOf(geo, d, free', total') == LedgerOf(geo, d0, free, total)
  {
    forall g | 0 <= g < geo.groups ensures (free'[g] + UsedIn(geo, d, g)) % TWO_32 ==
        (free[g] + UsedIn(geo, d0, g)) % TWO_32 {
      SameMod(free'[g] + UsedIn(geo, d, g), free[g] + UsedIn(geo, d0, g), (free[g] + group[g]) / TWO_32, 0);
    }
    var k := SumWraps(free, group, free');
    SameMod(total' + SumOf(free), total + SumOf(free'), (total + SumOf(group)) / TWO_32, k);
    LedgerSame(geo, d0, free, total, d, free', total');
  }

  lemma {:induction false} AllInUse(geo: Geometry, d: Disk, table: map<Slot, Inode>, files: map<nat, File>, i: nat)
    requires Sound(geo, d, table, files) && i in files
    ensures (forall n :: n in BlocksOf(files[i]) ==> InUse(geo, d, n)) && NoDup(DataOf(files[i]))
            && forall n :: n in DataOf(files[i]) ==> InUse(geo, d, n)
  {
    assert HoldsFile(geo, d, table, i, files[i]);
    NoDupParts(PointersOf(files[i]), DataOf(files[i]));
    PointersOwned(files[i]);
  }

  lemma {:induction false} TailPlus(a: seq<nat>, tail: seq<nat>, gone: seq<nat>, cs: seq<nat>)
    requires Plus(tail, gone, cs) && (forall n :: n in tail ==> n in a) && forall n :: n in a ==> n in tail
    ensures Plus(a, gone, cs)
  {
  }
}
