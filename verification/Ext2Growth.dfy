/** A file while `set_inode_block` extends its last tree: the new blocks of pointers are on the disk already, the inode
    is not. */
module Ext2Growth {
  import opened Fixed
  import opened Bytes
  import opened Seqs
  import opened IndexTree
  import opened BlockMap
  import opened Ext2Disk
  import opened Ext2Files

  function HadSpent(f: File, h: nat): seq<nat> { if 0 < h == |f.trees| then Spent(h, f.trees[h - 1]) else [] }
  function HadLeaves(f: File, h: nat): seq<nat> { if 0 < h == |f.trees| then Leaves(h, f.trees[h - 1]) else [] }

  /** `t` has grown from the tree of height `h` of `f`, or from nothing, by the blocks of pointers `added`, which belong
      to no file yet. */
  ghost predicate Growing(geo: Geometry, d: Disk, files: map<nat, File>, f: File, h: nat, t: Ix, added: seq<nat>)
    requires Formatted(geo, d)
  {
    && 1 <= h <= 3 && (|f.trees| == h || |f.trees| == h - 1) && t.Pointers?
    && Stores(d, h, t) && NoDup(Spent(h, t)) && (forall n :: n in Spent(h, t) ==> InUse(geo, d, n))
    && Spent(h, t) == HadSpent(f, h) + added && Leaves(h, t) == HadLeaves(f, h)
    && (|f.trees| == h ==> Extends(h, f.trees[h - 1], t))
    && (forall n :: n in added ==> Free(files, n))
  }

  /** What the method that extends the tree keeps: the block `at` at level `depth` of the right edge is where the next
      pointer goes, and `held` blocks lie below it so far. */
  ghost predicate Ready(geo: Geometry, d: Disk, files: map<nat, File>, f: File, h: nat, t: Ix, added: seq<nat>,
                        depth: nat, at: nat, held: nat)
    requires Formatted(geo, d)
  {
    && Growing(geo, d, files, f, h, t, added) && Spine(t, depth) && depth < h && Loose(geo.fan, h, t, depth)
    && At(t, depth).b == at && Held(h, t, depth) == held && at < geo.Total()
  }

  lemma {:induction false} ReadyRoot(geo: Geometry, d: Disk, files: map<nat, File>, f: File, h: nat, n: nat)
    requires Formatted(geo, d) && 1 <= h <= 3 && |f.trees| == h - 1 && InUse(geo, d, n) && Free(files, n)
    ensures Ready(geo, d, files, f, h, Pointers(n, []), [n], 0, n, 0)
  {
    GrowingRoot(geo, d, files, f, h, n);
    OneSpent(h, n);
  }

  lemma {:induction false} ReadyFrom(geo: Geometry, d: Disk, table: map<Slot, Inode>, files: map<nat, File>, i: nat,
                                     h: nat)
    requires Sound(geo, d, table, files) && i in files && 1 <= h <= 3 && |files[i].trees| == h
    ensures var t := files[i].trees[h - 1];
            Ready(geo, d, files, files[i], h, t, [], 0, t.b, |Leaves(h, t)|) && t.b != 0
  {
    var t := files[i].trees[h - 1];
    GrowingFrom(geo, d, table, files, i, h);
    assert Packed(geo.fan, h, t) by { FileView(geo, d, table, files, i); }
    SpineSpent(h, t, 0);
    InUseBounds(geo, d, t.b);
  }

  /** The block that the next pointer goes into belongs to the file, or it is new. */
  lemma {:induction false} ReadyAt(geo: Geometry, d: Disk, files: map<nat, File>, f: File, h: nat, t: Ix,
                                   added: seq<nat>, depth: nat, at: nat, held: nat)
    requires Formatted(geo, d) && Ready(geo, d, files, f, h, t, added, depth, at, held)
    ensures at in PointersOf(f) || at in added
  {
    SpineSpent(h, t, depth);
    if at !in added {
      PointersInside(f.trees, |f.trees|, h - 1, at);
    }
  }

  /** One level down, to a new block of pointers. */
  lemma {:induction false} ReadyNew(geo: Geometry, d: Disk, table: map<Slot, Inode>, files: map<nat, File>, i: nat,
                                    h: nat, t: Ix, added: seq<nat>,
                                    depth: nat, at: nat, held: nat, g: nat, q: nat, n: nat)
    requires Sound(geo, d, table, files) && i in files && Ready(geo, d, files, files[i], h, t, added, depth, at, held)
             && depth + 1 + g == h && g > 0
    requires held == q * Cap(geo.fan, g) < Cap(geo.fan, g + 1) && Cap(geo.fan, g) > 0
    requires InUse(geo, d, n) && Free(files, n) && n !in Spent(h, t) && n < TWO_32
    ensures q < geo.fan && InUse(geo, d, at)
    ensures var (d', u) := (Written(geo, d, at, q, n), AddKid(t, depth, Pointers(n, [])));
            Sound(geo, d', table, files) && Ready(geo, d', files, files[i], h, u, added + [n], depth + 1, n, 0)
  {
    LooseCount(geo.fan, h, t, depth, g, q, 0);
    GrowingChild(geo, d, table, files, i, h, t, added, depth, q, n);
    RoomStart(geo.fan, h, t, depth, q, n);
    InUseBounds(geo, d, n);
  }

  /** One level down, to the last block of pointers there, which is not full yet. */
  lemma {:induction false} ReadyOld(geo: Geometry, d: Disk, files: map<nat, File>, f: File, h: nat, t: Ix,
                                    added: seq<nat>,
                                    depth: nat, at: nat, held: nat, g: nat, q: nat, r: nat)
    requires Formatted(geo, d) && Ready(geo, d, files, f, h, t, added, depth, at, held) && depth + 1 + g == h && g > 0
    requires held == q * Cap(geo.fan, g) + r < Cap(geo.fan, g + 1) && 0 < r < Cap(geo.fan, g)
    ensures q < geo.fan && InUse(geo, d, Word(d[at], q))
            && Ready(geo, d, files, f, h, t, added, depth + 1, Word(d[at], q), r)
  {
    LooseCount(geo.fan, h, t, depth, g, q, r);
    LooseDown(geo.fan, h, t, depth, g);
    StoredAt(d, h, t, depth);
    SpineSpent(h, t, depth + 1);
    InUseBounds(geo, d, At(t, depth + 1).b);
  }

  lemma {:induction false} ReadyKept(geo: Geometry, d: Disk, d': Disk, files: map<nat, File>, f: File, h: nat, t: Ix,
                                     added: seq<nat>, depth: nat, at: nat, held: nat)
    requires Formatted(geo, d) && Ready(geo, d, files, f, h, t, added, depth, at, held) && Kept(geo, d, d')
    ensures Ready(geo, d', files, f, h, t, added, depth, at, held) && forall n :: n in Spent(h, t) ==> InUse(geo, d, n)
  {
    GrowingKept(geo, d, d', files, f, h, t, added);
  }

  lemma {:induction false} StoredAt(d: Disk, h: nat, t: Ix, depth: nat)
    requires Stores(d, h, t) && Spine(t, depth) && depth < h
    ensures Stores(d, h - depth, At(t, depth))
    decreases depth
  {
    if depth > 0 { StoredAt(d, h - 1, Last(t), depth - 1); }
  }

  lemma {:induction false} InUseBounds(geo: Geometry, d: Disk, n: nat)
    requires Formatted(geo, d) && InUse(geo, d, n)
    ensures 0 < n < geo.Total() <= TWO_32
  {
  }

  /** Blocks in use are as they were. */
  ghost predicate Kept(geo: Geometry, d: Disk, d': Disk)
    requires Formatted(geo, d)
  {
    Formatted(geo, d') && forall x: nat {:trigger InUse(geo, d, x)} :: InUse(geo, d, x) ==>
                            InUse(geo, d', x) && d'[x] == d[x]
  }

  /** What was in use still is, and but for the blocks in `changed` it is as it was. */
  ghost predicate KeptBut(geo: Geometry, d: Disk, d': Disk, changed: seq<nat>)
    requires Formatted(geo, d)
  {
    Formatted(geo, d') && forall x: nat {:trigger InUse(geo, d, x)} :: InUse(geo, d, x) ==>
                            InUse(geo, d', x) && (x !in changed ==> d'[x] == d[x])
  }

  /** One more block is written: one of those that may change, or one that was not in use at first. */
  lemma {:induction false} KeptThen(geo: Geometry, d: Disk, d1: Disk, d2: Disk, changed: seq<nat>, at: nat)
    requires Formatted(geo, d) && KeptBut(geo, d, d1, changed) && KeptBut(geo, d1, d2, [at])
             && (at in changed || !InUse(geo, d, at))
    ensures KeptBut(geo, d, d2, changed)
  {
    forall x: nat | InUse(geo, d, x) ensures InUse(geo, d2, x) && (x !in changed ==> d2[x] == d[x]) {
      assert InUse(geo, d1, x);
    }
  }

  lemma {:induction false} GrowingKept(geo: Geometry, d: Disk, d': Disk, files: map<nat, File>, f: File, h: nat, t: Ix,
                                       added: seq<nat>)
    requires Formatted(geo, d) && Growing(geo, d, files, f, h, t, added) && Kept(geo, d, d')
    ensures Growing(geo, d', files, f, h, t, added)
  {
    SameStores(d, d', h, t);
  }

  /** A first block of pointers. */
  lemma {:induction false} GrowingRoot(geo: Geometry, d: Disk, files: map<nat, File>, f: File, h: nat, n: nat)
    requires Formatted(geo, d) && 1 <= h <= 3 && |f.trees| == h - 1 && InUse(geo, d, n) && Free(files, n)
    ensures Growing(geo, d, files, f, h, Pointers(n, []), [n])
  {
    assert Spent(h, Pointers(n, [])) == [n] + AllSpent(h - 1, []);
    assert [n] + AllSpent(h - 1, []) == [] + [n];
  }

  /** The tree of the file as it is. */
  lemma {:induction false} GrowingFrom(geo: Geometry, d: Disk, table: map<Slot, Inode>, files: map<nat, File>, i: nat,
                                       h: nat)
    requires Sound(geo, d, table, files) && i in files && 1 <= h <= 3 && |files[i].trees| == h
    ensures Growing(geo, d, files, files[i], h, files[i].trees[h - 1], [])
  {
    var f := files[i];
    var t := f.trees[h - 1];
    assert HoldsFile(geo, d, table, i, f);
    TreeOwned(f, h - 1, h);
    assert Spent(h, t) + [] == Spent(h, t);
  }

  lemma {:induction false} TreeOwned(f: File, k: nat, h: nat)
    requires h == k + 1 <= |f.trees| && NoDup(BlocksOf(f))
    ensures NoDup(Spent(h, f.trees[k])) && forall x :: x in Spent(h, f.trees[k]) ==> x in PointersOf(f)
  {
    NoDupParts(PointersOf(f), DataOf(f));
    SpentDistinct(f.trees, |f.trees|, k, h);
    forall x | x in Spent(h, f.trees[k]) ensures x in PointersOf(f) { PointersInside(f.trees, |f.trees|, k, x); }
  }

  /** No block of pointers is in two trees. */
  lemma {:induction false} SpentApart(ts: seq<Ix>, m: nat, k: nat, j: nat, x: nat)
    requires k < m <= |ts| && j < m && j != k && NoDup(SpentUpTo(ts, m)) && x in Spent(k + 1, ts[k])
    ensures x !in Spent(j + 1, ts[j])
  {
    var n := m - 1;
    NoDupParts(SpentUpTo(ts, n), Spent(m, ts[n]));
    if k == n {
      if x in Spent(j + 1, ts[j]) { PointersInside(ts, n, j, x); }
    } else if j == n {
      PointersInside(ts, n, k, x);
    } else {
      SpentApart(ts, n, k, j, x);
    }
  }

  lemma {:induction false} SpentOnce(ts: seq<Ix>, m: nat, k: nat)
    requires k < m <= |ts| && NoDup(SpentUpTo(ts, m))
    ensures NoDup(Spent(k + 1, ts[k]))
  {
    NoDupParts(SpentUpTo(ts, m - 1), Spent(m, ts[m - 1]));
    if k < m - 1 { SpentOnce(ts, m - 1, k); }
  }

  lemma {:induction false} SpentDistinct(ts: seq<Ix>, m: nat, k: nat, h: nat)
    requires h == k + 1 <= m <= |ts| && NoDup(SpentUpTo(ts, m))
    ensures NoDup(Spent(h, ts[k]))
    ensures forall j, x :: 0 <= j < m && j != k && x in Spent(h, ts[k]) ==> x !in Spent(j + 1, ts[j])
  {
    SpentOnce(ts, m, k);
    forall j, x | 0 <= j < m && j != k && x in Spent(h, ts[k]) ensures x !in Spent(j + 1, ts[j]) {
      SpentApart(ts, m, k, j, x);
    }
  }

  // ----- writing the next pointer -----

  lemma {:induction false} SpentLinked(geo: Geometry, d: Disk, h: nat, t: Ix, depth: nat, q: nat, w: u32)
    requires Formatted(geo, d) && Spine(t, depth) && depth < h && |At(t, depth).kids| == q < geo.fan
             && At(t, depth).b < geo.Total()
    ensures Linked(d, Written(geo, d, At(t, depth).b, q, w), h, t, depth, w)
  {
  }

  /** The block written to is new, or it belongs to the file. */
  lemma {:induction false} WhoseBlock(geo: Geometry, d: Disk, table: map<Slot, Inode>, files: map<nat, File>, i: nat,
                                      h: nat, t: Ix, added: seq<nat>, s: nat)
    requires Sound(geo, d, table, files) && i in files && Growing(geo, d, files, files[i], h, t, added)
             && s in Spent(h, t)
    ensures forall j :: j in files && j != i ==> s !in BlocksOf(files[j])
    ensures s in PointersOf(files[i]) ==> |files[i].trees| == h && s in Spent(h, files[i].trees[h - 1])
  {
    var f := files[i];
    assert HoldsFile(geo, d, table, i, f);
    PointersOwned(f);
    if s !in added {
      assert s in HadSpent(f, h);
      TreeOwned(f, h - 1, h);
      forall j | j in files && j != i ensures s !in BlocksOf(files[j]) { assert Apart(f, files[j]); }
    }
  }

  /** The file itself stays stored: its other trees have no part in the block, and the last one has its old children. */
  lemma {:induction false} GrowingStays(d: Disk, d': Disk, f: File, h: nat, s: nat, u: Ix)
    requires TreesStored(d, f) && NoDup(PointersOf(f)) && 1 <= h && (|f.trees| == h || |f.trees| == h - 1)
    requires s in PointersOf(f) ==> |f.trees| == h && s in Spent(h, f.trees[h - 1])
    requires |d'| == |d| && (forall x :: 0 <= x < |d| && x != s ==> d'[x] == d[x])
    requires Stores(d', h, u) && (|f.trees| == h ==> Extends(h, f.trees[h - 1], u))
    ensures TreesStored(d', f)
  {
    forall k | 0 <= k < |f.trees| ensures Stores(d', k + 1, f.trees[k]) {
      var g := k + 1;
      if g == h {
        ExtendsStores(d', h, f.trees[k], u);
      } else {
        OtherTree(f, k, g, h, s);
        SameStores(d, d', g, f.trees[k]);
      }
    }
  }

  lemma {:induction false} OtherTree(f: File, k: nat, g: nat, h: nat, s: nat)
    requires g == k + 1 <= |f.trees| && k != h - 1 && NoDup(PointersOf(f)) && 1 <= h
    requires s in PointersOf(f) ==> |f.trees| == h && s in Spent(h, f.trees[h - 1])
    ensures s !in Spent(g, f.trees[k])
  {
    if s in PointersOf(f) {
      SpentDistinct(f.trees, |f.trees|, h - 1, h);
      assert s !in Spent(k + 1, f.trees[k]);
    } else {
      forall x | x in Spent(g, f.trees[k]) ensures x in PointersOf(f) { PointersInside(f.trees, |f.trees|, k, x); }
    }
  }

  lemma {:induction false} OwnPointers(geo: Geometry, d: Disk, table: map<Slot, Inode>, files: map<nat, File>, i: nat)
    requires Sound(geo, d, table, files) && i in files
    ensures TreesStored(d, files[i]) && NoDup(PointersOf(files[i])) && NoDup(BlocksOf(files[i]))
  {
    assert HoldsFile(geo, d, table, i, files[i]);
    NoDupParts(PointersOf(files[i]), DataOf(files[i]));
  }

  lemma {:induction false} GrowingTree(geo: Geometry, d: Disk, files: map<nat, File>, f: File, h: nat, t: Ix,
                                       added: seq<nat>, depth: nat, q: nat, g: nat, kid: Ix)
    requires Formatted(geo, d) && Growing(geo, d, files, f, h, t, added)
    requires Spine(t, depth) && depth + 1 + g == h && |At(t, depth).kids| == q < geo.fan && kid.b < geo.Total()
    requires if g == 0 then kid.Data? else kid.Pointers? && kid.kids == []
    ensures var (s, u) := (At(t, depth).b, AddKid(t, depth, kid));
            && s in Spent(h, t) && InUse(geo, d, s)
            && Stores(Written(geo, d, s, q, kid.b), h, u) && (|f.trees| == h ==> Extends(h, f.trees[h - 1], u))
  {
    SpineSpent(h, t, depth);
    SpentLinked(geo, d, h, t, depth, q, kid.b);
    AddedStores(d, Written(geo, d, At(t, depth).b, q, kid.b), h, t, depth, g, kid);
    if |f.trees| == h { ExtendsAdd(h, f.trees[h - 1], t, depth, kid); }
  }

  /** A pointer written behind the last one of the block at level `depth` of the right edge, to the tree `kid` of height
      `g`: no file notices. */
  lemma {:induction false} GrowingLinked(geo: Geometry, d: Disk, table: map<Slot, Inode>, files: map<nat, File>, i: nat,
                                         h: nat, t: Ix, added: seq<nat>, depth: nat, q: nat, g: nat, kid: Ix)
    requires Sound(geo, d, table, files) && i in files && Growing(geo, d, files, files[i], h, t, added)
    requires Spine(t, depth) && depth + 1 + g == h && |At(t, depth).kids| == q < geo.fan && kid.b < geo.Total()
    requires if g == 0 then kid.Data? else kid.Pointers? && kid.kids == []
    ensures var (s, u) := (At(t, depth).b, AddKid(t, depth, kid));
            && s in Spent(h, t) && InUse(geo, d, s)
            && var d' := Written(geo, d, s, q, kid.b);
               Sound(geo, d', table, files) && Stores(d', h, u)
                   && (|files[i].trees| == h ==> Extends(h, files[i].trees[h - 1], u))
  {
    var s, u := At(t, depth).b, AddKid(t, depth, kid);
    GrowingTree(geo, d, files, files[i], h, t, added, depth, q, g, kid);
    WhoseBlock(geo, d, table, files, i, h, t, added, s);
    OwnPointers(geo, d, table, files, i);
    GrowingStays(d, Written(geo, d, s, q, kid.b), files[i], h, s, u);
    WrittenSound(geo, d, table, files, i, s, q, kid.b);
  }

  lemma {:induction false} NoDupSnoc(a: seq<nat>, x: nat)
    requires NoDup(a) && x !in a
    ensures NoDup(a + [x])
  {
  }

  lemma {:induction false} GrowingMore(geo: Geometry, d: Disk, d': Disk, files: map<nat, File>, f: File, h: nat, t: Ix,
                                       added: seq<nat>, u: Ix, n: nat)
    requires Formatted(geo, d) && Formatted(geo, d') && Growing(geo, d, files, f, h, t, added)
    requires u.Pointers? && Stores(d', h, u) && Spent(h, u) == Spent(h, t) + [n] && Leaves(h, u) == Leaves(h, t)
    requires |f.trees| == h ==> Extends(h, f.trees[h - 1], u)
    requires InUse(geo, d, n) && Free(files, n) && n !in Spent(h, t)
             && forall x: nat :: InUse(geo, d', x) == InUse(geo, d, x)
    ensures Growing(geo, d', files, f, h, u, added + [n])
  {
    NoDupSnoc(Spent(h, t), n);
    assert HadSpent(f, h) + added + [n] == HadSpent(f, h) + (added + [n]);
  }

  /** A further block of pointers. */
  lemma {:induction false} GrowingChild(geo: Geometry, d: Disk, table: map<Slot, Inode>, files: map<nat, File>, i: nat,
                                        h: nat, t: Ix, added: seq<nat>, depth: nat, q: nat, n: nat)
    requires Sound(geo, d, table, files) && i in files && Growing(geo, d, files, files[i], h, t, added)
    requires Spine(t, depth) && depth + 1 < h && |At(t, depth).kids| == q < geo.fan
    requires InUse(geo, d, n) && Free(files, n) && n !in Spent(h, t)
    ensures var (s, u) := (At(t, depth).b, AddKid(t, depth, Pointers(n, [])));
            && s in Spent(h, t) && InUse(geo, d, s)
            && var d' := Written(geo, d, s, q, n);
               Sound(geo, d', table, files) && Growing(geo, d', files, files[i], h, u, added + [n])
  {
    var kid, g, s := Pointers(n, []), h - 1 - depth, At(t, depth).b;
    GrowingLinked(geo, d, table, files, i, h, t, added, depth, q, g, kid);
    AddedLeaves(h, t, depth, kid);
    OneSpent(g, n);
    WrittenUsed(geo, d, s, q, n);
    GrowingMore(geo, d, Written(geo, d, s, q, n), files, files[i], h, t, added, AddKid(t, depth, kid), n);
  }

  lemma {:induction false} OneSpent(g: nat, n: nat)
    requires g > 0
    ensures Spent(g, Pointers(n, [])) == [n] && Leaves(g, Pointers(n, [])) == []
  {
    assert [n] + AllSpent(g - 1, []) == [n];
  }

  // ----- the file with one more block -----

  lemma {:induction false} NoDupJoin(a: seq<nat>, b: seq<nat>)
    requires NoDup(a) && NoDup(b) && forall x :: x in a ==> x !in b
    ensures NoDup(a + b)
  {
    forall i, j | 0 <= i < j < |a + b| ensures (a + b)[i] != (a + b)[j] {
      assert i < |a| ==> (a + b)[i] in a;
      assert j >= |a| ==> (a + b)[j] in b;
    }
  }

  lemma {:induction false} NoDupWeave(p: seq<nat>, a: seq<nat>, d: seq<nat>, b: nat)
    requires NoDup(p + d) && NoDup(a) && b !in a && b !in p + d && forall x :: x in a ==> x !in p + d
    ensures NoDup((p + a) + (d + [b]))
  {
    NoDupParts(p, d);
    NoDupSnoc(d, b);
    assert forall x :: x in p ==> x in p + d;
    assert forall x :: x in d ==> x in p + d;
    NoDupJoin(p, a);
    NoDupJoin(p + a, d + [b]);
  }

  /** What `set_inode_block` adds to file `i`: the data block `b`, and the blocks of pointers `added`. */
  ghost predicate Appended(f: File, f': File, added: seq<nat>, b: nat) {
    DataOf(f') == DataOf(f) + [b] && PointersOf(f') == PointersOf(f) + added
  }

  lemma {:induction false} AppendedBlocks(f: File, f': File, added: seq<nat>, b: nat)
    requires Appended(f, f', added, b)
    ensures forall n :: n in BlocksOf(f') ==> n in BlocksOf(f) || n in added || n == b
  {
  }

  lemma {:induction false} ApartMore(f: File, f': File, g: File, added: seq<nat>, b: nat)
    requires Appended(f, f', added, b) && Apart(f, g) && b !in BlocksOf(g)
             && forall n :: n in added ==> n !in BlocksOf(g)
    ensures Apart(f', g) && Apart(g, f')
  {
    AppendedBlocks(f, f', added, b);
  }

  lemma {:induction false} OwnsMore(geo: Geometry, d: Disk, f: File, f': File, added: seq<nat>, b: nat)
    requires Formatted(geo, d) && Owns(geo, d, f) && Appended(f, f', added, b) && NoDup(added) && b !in added
             && b !in BlocksOf(f)
    requires InUse(geo, d, b) && forall n :: n in added ==> InUse(geo, d, n) && n !in BlocksOf(f)
    ensures Owns(geo, d, f')
  {
    AppendedBlocks(f, f', added, b);
    NoDupWeave(PointersOf(f), added, DataOf(f), b);
  }

  lemma {:induction false} AppendedSound(geo: Geometry, d: Disk, table: map<Slot, Inode>, files: map<nat, File>, i: nat,
                                         inode: Inode, f: File, added: seq<nat>, b: nat)
    requires Sound(geo, d, table, files) && i in files && i >= 1 && Appended(files[i], f, added, b)
    requires Shape(geo.fan, f) && TreesStored(d, f) && Agrees(inode, f) && NoDup(added) && b !in added
    requires InUse(geo, d, b) && Free(files, b) && forall n :: n in added ==> InUse(geo, d, n) && Free(files, n)
    ensures Sound(geo, d, table[SlotOf(geo, i) := inode], files[i := f])
  {
    var table' := table[SlotOf(geo, i) := inode];
    assert HoldsFile(geo, d, table, i, files[i]);
    OwnsMore(geo, d, files[i], f, added, b);
    forall j | j in files && j != i ensures HoldsFile(geo, d, table', j, files[j]) && Apart(f, files[j])
        && Apart(files[j], f) {
      assert HoldsFile(geo, d, table, j, files[j]);
      if SlotOf(geo, j) == SlotOf(geo, i) { SlotsApart(geo, i, j); }
      assert Apart(files[i], files[j]);
      ApartMore(files[i], f, files[j], added, b);
    }
  }

  /** The inode with one more block, whose tree of height `h` starts at block `root`. */
  predicate Counts(inode: Inode, inode': Inode, h: nat, root: nat)
    requires |inode.block| == N_BLOCKS && 1 <= h <= 3
  {
    |inode'.block| == N_BLOCKS && inode'.blocks == inode.blocks + 1 && root < TWO_32
        && inode'.block == inode.block[DIRECT + h - 1 := root]
  }

  lemma {:induction false} AgreesMore(inode: Inode, inode': Inode, f: File, h: nat, t: Ix, u: Ix, added: seq<nat>,
                                      b: nat)
    requires Agrees(inode, f) && 1 <= h <= 3 && (|f.trees| == h || |f.trees| == h - 1) && Counts(inode, inode', h, t.b)
             && u.b == t.b
    requires Appended(f, WithTree(f, h, u), added, b)
    ensures Agrees(inode', WithTree(f, h, u))
  {
  }

  /** With the last pointer written, the tree under construction becomes part of the file. */
  lemma {:induction false} GrowingCommit(geo: Geometry, d: Disk, table: map<Slot, Inode>, files: map<nat, File>, i: nat,
                                         inode: Inode, h: nat, u: Ix, added: seq<nat>, b: nat)
    requires Sound(geo, d, table, files) && i in files && i >= 1 && 1 <= h
             && (|files[i].trees| == h || |files[i].trees| == h - 1) && Stores(d, h, u)
    requires var f' := WithTree(files[i], h, u);
             Shape(geo.fan, f') && Appended(files[i], f', added, b) && Agrees(inode, f')
    requires InUse(geo, d, b) && Free(files, b) && b !in added && NoDup(added)
             && forall n :: n in added ==> InUse(geo, d, n) && Free(files, n)
    ensures Sound(geo, d, table[SlotOf(geo, i) := inode], files[i := WithTree(files[i], h, u)])
  {
    OwnPointers(geo, d, table, files, i);
    NewTrees(d, files[i], h, u);
    AppendedSound(geo, d, table, files, i, inode, WithTree(files[i], h, u), added, b);
  }

  /** The last pointer, to the data block `b`, makes the tree under construction part of the file. */
  lemma {:induction false} GrowingDone(geo: Geometry, d: Disk, table: map<Slot, Inode>, files: map<nat, File>, i: nat,
                                       inode: Inode, h: nat, g: nat, t: Ix, added: seq<nat>, q: nat, b: nat)
    requires Sound(geo, d, table, files) && i in files && Growing(geo, d, files, files[i], h, t, added) && h == g + 1
    requires Spine(t, g) && Loose(geo.fan, h, t, g) && Room(geo.fan, h, t, g, q)
    requires InUse(geo, d, b) && Free(files, b) && b !in added
    requires |files[i].direct| == DIRECT && forall k :: 0 <= k < g ==> Full(geo.fan, k + 1, files[i].trees[k])
    requires i >= 1 && SlotOf(geo, i) in table && |table[SlotOf(geo, i)].block| == N_BLOCKS
             && Counts(table[SlotOf(geo, i)], inode, h, t.b)
    ensures var (s, u) := (At(t, g).b, AddKid(t, g, Data(b)));
            && InUse(geo, d, s)
            && var f' := WithTree(files[i], h, u);
               Sound(geo, Written(geo, d, s, q, b), table[SlotOf(geo, i) := inode], files[i := f'])
                   && Appended(files[i], f', added, b)
  {
    var f, s, u := files[i], At(t, g).b, AddKid(t, g, Data(b));
    GrowingLinked(geo, d, table, files, i, h, t, added, g, q, 0, Data(b));
    var d' := Written(geo, d, s, q, b);
    FileView(geo, d, table, files, i);
    GrownFile(geo, d, files, f, table[SlotOf(geo, i)], inode, h, g, t, added, q, b);
    WrittenUsed(geo, d, s, q, b);
    AddedFree(geo, d, files, f, h, t, added);
    GrowingCommit(geo, d', table, files, i, inode, h, u, added, b);
  }

  /** The file with the data block, once its number has been written to the last block of pointers, `at`. */
  lemma {:induction false} Committed(geo: Geometry, d: Disk, table: map<Slot, Inode>, files: map<nat, File>, i: nat,
                                     inode: Inode, h: nat, at: nat, q: nat, t: Ix, added: seq<nat>, b: nat)
    returns (f': File)
    requires Sound(geo, d, table, files) && i in files && 1 <= h <= 3 && q < geo.fan
             && Ready(geo, d, files, files[i], h, t, added, h - 1, at, q)
    requires InUse(geo, d, b) && Free(files, b) && b !in added
    requires |files[i].direct| == DIRECT && forall k :: 0 <= k < h - 1 ==> Full(geo.fan, k + 1, files[i].trees[k])
    requires i >= 1 && SlotOf(geo, i) in table && |table[SlotOf(geo, i)].block| == N_BLOCKS
             && Counts(table[SlotOf(geo, i)], inode, h, t.b)
    ensures InData(geo, at) && Appended(files[i], f', added, b)
            && Sound(geo, Written(geo, d, at, q, b), table[SlotOf(geo, i) := inode], files[i := f'])
  {
    var g := h - 1;
    Caps(geo.fan);
    LooseCount(geo.fan, h, t, g, 0, q, 0);
    GrowingDone(geo, d, table, files, i, inode, h, g, t, added, q, b);
    f' := WithTree(files[i], h, AddKid(t, g, Data(b)));
  }

  lemma {:induction false} NewTrees(d: Disk, f: File, h: nat, u: Ix)
    requires TreesStored(d, f) && 1 <= h && (|f.trees| == h || |f.trees| == h - 1) && Stores(d, h, u)
    ensures TreesStored(d, WithTree(f, h, u))
  {
  }

  lemma {:induction false} AddedFree(geo: Geometry, d: Disk, files: map<nat, File>, f: File, h: nat, t: Ix,
                                     added: seq<nat>)
    requires Formatted(geo, d) && Growing(geo, d, files, f, h, t, added)
    ensures NoDup(added) && forall n :: n in added ==> InUse(geo, d, n) && Free(files, n)
  {
    NoDupParts(HadSpent(f, h), added);
    assert forall n :: n in added ==> n in Spent(h, t);
  }

  lemma {:induction false} GrownFile(geo: Geometry, d: Disk, files: map<nat, File>, f: File, inode: Inode,
                                     inode': Inode, h: nat, g: nat, t: Ix, added: seq<nat>, q: nat, b: nat)
    requires Formatted(geo, d) && Growing(geo, d, files, f, h, t, added) && h == g + 1 && Shape(geo.fan, f)
    requires Spine(t, g) && Loose(geo.fan, h, t, g) && Room(geo.fan, h, t, g, q)
    requires |f.direct| == DIRECT && forall k :: 0 <= k < g ==> Full(geo.fan, k + 1, f.trees[k])
    requires Agrees(inode, f) && Counts(inode, inode', h, t.b)
    ensures var f' := WithTree(f, h, AddKid(t, g, Data(b)));
            Shape(geo.fan, f') && Appended(f, f', added, b) && Agrees(inode', f')
  {
    var u := AddKid(t, g, Data(b));
    AddedLeaves(h, t, g, Data(b));
    RoomAdd(geo.fan, h, t, g, 0, q, Data(b));
    TreeGrown(geo.fan, f, h, t, u, added, b);
    AgreesMore(inode, inode', f, h, t, u, added, b);
  }

  lemma {:induction false} TreeGrown(fan: nat, f: File, h: nat, t: Ix, u: Ix, added: seq<nat>, b: nat)
    requires Shape(fan, f) && 1 <= h <= 3 && |f.direct| == DIRECT && (|f.trees| == h || |f.trees| == h - 1)
             && Packed(fan, h, u)
    requires forall k :: 0 <= k < h - 1 ==> Full(fan, k + 1, f.trees[k])
    requires Leaves(h, u) == Leaves(h, t) + [b] && Spent(h, u) == Spent(h, t) + []
    requires Spent(h, t) == HadSpent(f, h) + added && Leaves(h, t) == HadLeaves(f, h)
    ensures Shape(fan, WithTree(f, h, u)) && Appended(f, WithTree(f, h, u), added, b)
  {
    assert Spent(h, u) == Spent(h, t);
    TreeAppends(fan, f, h, u, b, added);
  }

  /** A data block behind the direct ones. */
  lemma {:induction false} DirectDone(geo: Geometry, d: Disk, table: map<Slot, Inode>, files: map<nat, File>, i: nat,
                                      inode: Inode, b: nat)
    requires Sound(geo, d, table, files) && i in files && InUse(geo, d, b) && Free(files, b) && b < TWO_32
    requires i >= 1 && SlotOf(geo, i) in table && |table[SlotOf(geo, i)].block| == N_BLOCKS
             && table[SlotOf(geo, i)].blocks < DIRECT
    requires var had := table[SlotOf(geo, i)];
             |inode.block| == N_BLOCKS && inode.blocks == had.blocks + 1 && inode.block == had.block[had.blocks := b]
    ensures var f' := File(files[i].direct + [b], files[i].trees);
            Sound(geo, d, table[SlotOf(geo, i) := inode], files[i := f']) && Appended(files[i], f', [], b)
  {
    var f := files[i];
    FileView(geo, d, table, files, i);
    OwnPointers(geo, d, table, files, i);
    NoTree(geo.fan, f);
    var f' := File(f.direct + [b], []);
    assert DataOf(f') == DataOf(f) + [b] && PointersOf(f') == PointersOf(f) + [];
    AppendedSound(geo, d, table, files, i, inode, f', [], b);
  }

  // ----- no file is longer than the disk -----

  function Below(n: nat): set<nat> { if n == 0 then {} else Below(n - 1) + {n - 1} }

  lemma {:induction false} BelowCard(n: nat)
    ensures |Below(n)| == n && forall x: nat :: x in Below(n) <==> x < n
  {
    if n > 0 { BelowCard(n - 1); }
  }

  lemma {:induction false} BlocksFit(geo: Geometry, d: Disk, table: map<Slot, Inode>, files: map<nat, File>, i: nat,
                                     b: nat)
    requires Sound(geo, d, table, files) && i in files && InUse(geo, d, b) && Free(files, b)
    ensures |DataOf(files[i])| + 1 < TWO_32
  {
    var data := DataOf(files[i]);
    OwnPointers(geo, d, table, files, i);
    assert HoldsFile(geo, d, table, i, files[i]);
    NoDupParts(PointersOf(files[i]), data);
    PointersOwned(files[i]);
    forall x | x in data ensures 0 < x < geo.Total() { InUseBounds(geo, d, x); }
    InUseBounds(geo, d, b);
    NoDupSnoc(data, b);
    NoDupSnoc(data + [b], 0);
    BelowCard(geo.Total());
    NoDupCard(data + [b] + [0], Below(geo.Total()));
  }

  /** What the number of blocks says about the tree of height `h`, in which the next block goes. */
  lemma {:induction false} TreePlan(geo: Geometry, d: Disk, table: map<Slot, Inode>, files: map<nat, File>, i: nat,
                                    h: nat, x: nat)
    requires Sound(geo, d, table, files) && i in files && 1 <= h <= 3 && |DataOf(files[i])| == Base(geo.fan, h) + x
             && x < Cap(geo.fan, h)
    ensures i >= 1 && geo.Sane() && SlotOf(geo, i) in table
    ensures var (f, inode) := (files[i], table[SlotOf(geo, i)]);
            && |f.direct| == DIRECT && |inode.block| == N_BLOCKS && inode.blocks == |DataOf(f)|
            && (x == 0 ==> |f.trees| == h - 1)
            && (x > 0 ==> |f.trees| == h && |Leaves(h, f.trees[h - 1])| == x
                          && inode.block[DIRECT + h - 1] == f.trees[h - 1].b)
            && forall k :: 0 <= k < h - 1 ==> Full(geo.fan, k + 1, f.trees[k])
  {
    FileView(geo, d, table, files, i);
    WhichTree(geo.fan, files[i], h);
  }
}
