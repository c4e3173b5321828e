/** Which blocks a growing file gets: each time the lowest one in the first group that has any. */
module Ext2Turns {
  import opened Seqs
  import opened BlockMap
  import opened Ext2Disk
  import opened Ext2Files
  import opened Ext2Free
  import opened Ext2Strays

  // ----- sets of blocks -----

  /** Of two sets, one within the other and as large. */
  lemma {:induction false} AllFree(a: set<nat>, b: set<nat>)
    requires a <= b && |a| >= |b|
    ensures a == b
  {
    if x :| x in b && x !in a { Smaller(a, b - {x}); }
  }

  lemma {:induction false} Smaller(a: set<nat>, b: set<nat>)
    requires a <= b
    ensures |a| <= |b|
  {
    assert b == a + (b - a);
  }

  lemma {:induction false} FewerFree(geo: Geometry, d: Disk, d': Disk)
    requires Formatted(geo, d) && Formatted(geo, d')
             && forall x: nat {:trigger InUse(geo, d, x)} :: InUse(geo, d, x) ==> InUse(geo, d', x)
    ensures FreeBlocks(geo, d') <= FreeBlocks(geo, d)
  {
  }

  lemma {:induction false} ElementsOf(a: seq<nat>, b: seq<nat>)
    ensures Elements(a + b) == Elements(a) + Elements(b)
  {
  }

  /** Of `free`, those in `taken` have gone; as many are left as that makes, so these are all. */
  lemma {:induction false} LeftIs(free: set<nat>, left: set<nat>, own: set<nat>, taken: seq<nat>)
    requires left <= free && left !! own && NoDup(taken) && |free| == |left| + |taken|
    requires (forall n :: n in taken ==> n in free && n in own) && forall n :: n in own && n in free ==> n in taken
    ensures left == free - own
  {
    var t := Elements(taken);
    ElementsSize(taken);
    assert free - own == free - t && free == (free - t) + t;
    AllFree(left, free - own);
  }

  // ----- an append -----

  /** From the disk `d` to `d'` the file `f` has become `f'`: it has got the data block `b`, which is the lowest one in
      the first group with room from `start` on, and with it blocks of pointers, and nothing else has been taken. */
  ghost predicate GotNext(geo: Geometry, d: Disk, f: File, d': Disk, f': File, start: nat, b: nat) {
    && geo.Sane() && FirstFree(geo, FreeBlocks(geo, d), start, b)
    && DataOf(f') == DataOf(f) + [b] && PointersOf(f) <= PointersOf(f')
    && FreeBlocks(geo, d') == FreeBlocks(geo, d) - Elements(BlocksOf(f'))
  }

  lemma {:induction false} GotNextIs(geo: Geometry, d: Disk, f: File, d': Disk, f': File, start: nat, b: nat,
                                     added: seq<nat>)
    requires Formatted(geo, d) && Formatted(geo, d') && Owns(geo, d, f) && Owns(geo, d', f')
             && FirstFree(geo, FreeBlocks(geo, d), start, b)
    requires forall x: nat {:trigger InUse(geo, d, x)} :: InUse(geo, d, x) ==> InUse(geo, d', x)
    requires DataOf(f') == DataOf(f) + [b] && PointersOf(f') == PointersOf(f) + added
    requires (forall n :: n in added ==> !InUse(geo, d, n)) && FreeSize(geo, d) == FreeSize(geo, d') + 1 + |added|
    ensures GotNext(geo, d, f, d', f', start, b)
  {
    var taken := added + [b];
    TakenOnce(f, f', added, b);
    FewerFree(geo, d, d');
    forall n | n in BlocksOf(f') && n in FreeBlocks(geo, d) ensures n in taken { TakenOrOld(f, f', added, b, n); }
    forall n | n in taken ensures n in FreeBlocks(geo, d) && n in BlocksOf(f') { TakenOwn(f, f', added, b, n); }
    LeftIs(FreeBlocks(geo, d), FreeBlocks(geo, d'), Elements(BlocksOf(f')), taken);
  }

  lemma {:induction false} TakenOnce(f: File, f': File, added: seq<nat>, b: nat)
    requires NoDup(BlocksOf(f')) && DataOf(f') == DataOf(f) + [b] && PointersOf(f') == PointersOf(f) + added
    ensures NoDup(added + [b])
  {
    NoDupParts(PointersOf(f'), DataOf(f'));
    NoDupParts(PointersOf(f), added);
    TakenOwn(f, f', added, b, b);
    assert forall n :: n in added ==> n in PointersOf(f');
    NoDupSplit(added, b, []);
    assert added + [b] + [] == added + [b];
  }

  lemma {:induction false} TakenOwn(f: File, f': File, added: seq<nat>, b: nat, n: nat)
    requires DataOf(f') == DataOf(f) + [b] && PointersOf(f') == PointersOf(f) + added && n in added + [b]
    ensures n in BlocksOf(f') && b in DataOf(f')
  {
    assert DataOf(f')[|DataOf(f)|] == b;
  }

  lemma {:induction false} TakenOrOld(f: File, f': File, added: seq<nat>, b: nat, n: nat)
    requires DataOf(f') == DataOf(f) + [b] && PointersOf(f') == PointersOf(f) + added && n in BlocksOf(f')
    ensures n in BlocksOf(f) || n in added + [b]
  {
  }

  // ----- many appends -----

  /** The first `n` blocks of pointers. */
  function Start(s: seq<nat>, n: int): seq<nat> { if 0 <= n <= |s| then s[..n] else s }

  /** The blocks that the file had got before data block `j`: the data blocks before it, and the pointers to them. */
  function Earlier(fan: nat, f: File, j: nat): set<nat>
    requires j <= |DataOf(f)|
  {
    Elements(DataOf(f)[..j]) + Elements(Start(PointersOf(f), NeedAll(fan, 0, j) - j))
  }

  /** The group in which the search for data block `j` begins: that of the block before it, or `start` for the first
      one after the `n` that were there. */
  function Origin(geo: Geometry, f: File, n: nat, j: nat, start: nat): nat
    requires geo.Sane() && j <= |DataOf(f)|
  {
    if j <= n || DataOf(f)[j - 1] >= geo.Total() then start else geo.GroupOf(DataOf(f)[j - 1])
  }

  /** Of the blocks `free`, data block `j` is the next in turn. */
  ghost predicate InTurn(geo: Geometry, free: set<nat>, f: File, n: nat, j: nat, start: nat)
    requires geo.Sane() && j < |DataOf(f)|
  {
    FirstFree(geo, free - Earlier(geo.fan, f, j), Origin(geo, f, n, j, start), DataOf(f)[j])
  }

  /** All the data blocks that the file has got after the first `n` have been taken in turn from those free on the disk
      `d`, the search beginning with group `start`. */
  ghost predicate DataInTurn(geo: Geometry, d: Disk, f: File, n: nat, start: nat) {
    geo.Sane() && forall j {:trigger InTurn(geo, FreeBlocks(geo, d), f, n, j, start)} :: n <= j < |DataOf(f)| ==>
                    InTurn(geo, FreeBlocks(geo, d), f, n, j, start)
  }

  /** From the disk `d` to `d'` the file `f0` has become `f` in this way, and nothing else has been taken. The next
      block will be searched for from `group` on. */
  ghost predicate Turns(geo: Geometry, d: Disk, f0: File, d': Disk, f: File, start: nat, group: nat) {
    && DataInTurn(geo, d, f, |DataOf(f0)|, start) && group == Origin(geo, f, |DataOf(f0)|, |DataOf(f)|, start)
    && DataOf(f0) <= DataOf(f) && PointersOf(f0) <= PointersOf(f)
    && FreeBlocks(geo, d') == FreeBlocks(geo, d) - Elements(BlocksOf(f))
  }

  lemma {:induction false} TurnsFrom(geo: Geometry, d: Disk, f: File, start: nat)
    requires Formatted(geo, d) && Owns(geo, d, f)
    ensures Turns(geo, d, f, d, f, start, start)
  {
  }

  lemma {:induction false} TurnsNext(geo: Geometry, d: Disk, f0: File, d1: Disk, f1: File, d2: Disk, f2: File,
                                     start: nat, group: nat, b: nat)
    requires Turns(geo, d, f0, d1, f1, start, group) && GotNext(geo, d1, f1, d2, f2, group, b) && Shape(geo.fan, f1)
    ensures b < geo.Total() && Turns(geo, d, f0, d2, f2, start, geo.GroupOf(b))
  {
    var free, n := FreeBlocks(geo, d), |DataOf(f0)|;
    forall j | n <= j < |DataOf(f2)| ensures InTurn(geo, free, f2, n, j, start) {
      if j < |DataOf(f1)| {
        assert InTurn(geo, free, f1, n, j, start);
        TurnKept(geo, f1, f2, n, j, start, b);
      } else {
        LastTurn(geo, free, f1, f2, n, j, start, group, b);
      }
    }
    MoreOwn(f1, f2, b);
    TakenTwice(FreeBlocks(geo, d), Elements(BlocksOf(f1)), Elements(BlocksOf(f2)));
  }

  lemma {:induction false} TakenTwice(free: set<nat>, a: set<nat>, b: set<nat>)
    requires a <= b
    ensures free - a - b == free - b
  {
  }

  lemma {:induction false} LastTurn(geo: Geometry, free: set<nat>, f1: File, f2: File, n: nat, m: nat, start: nat,
                                    group: nat, b: nat)
    requires geo.Sane() && Shape(geo.fan, f1) && DataOf(f2) == DataOf(f1) + [b] && PointersOf(f1) <= PointersOf(f2)
             && m == |DataOf(f1)|
    requires group == Origin(geo, f1, n, m, start) && FirstFree(geo, free - Elements(BlocksOf(f1)), group, b)
    ensures InTurn(geo, free, f2, n, m, start)
  {
    TurnKept(geo, f1, f2, n, m, start, b);
    PointersBefore(geo.fan, f1, m);
    ElementsOf(PointersOf(f1), DataOf(f1));
    assert BlocksOf(f1) == PointersOf(f1) + DataOf(f1);
    assert DataOf(f1)[..m] == DataOf(f1) && PointersOf(f1)[..|PointersOf(f1)|] == PointersOf(f1);
    assert Earlier(geo.fan, f1, m) == Elements(BlocksOf(f1));
  }

  /** The first of them is the lowest free block of the first group with room from `start` on. */
  lemma {:induction false} FirstInTurn(geo: Geometry, d: Disk, f0: File, d': Disk, f: File, start: nat, group: nat)
    requires Turns(geo, d, f0, d', f, start, group) && Formatted(geo, d) && Owns(geo, d, f0) && Shape(geo.fan, f0)
             && |DataOf(f)| > |DataOf(f0)|
    ensures FirstFree(geo, FreeBlocks(geo, d), start, DataOf(f)[|DataOf(f0)|])
  {
    var free, n := FreeBlocks(geo, d), |DataOf(f0)|;
    PointersBefore(geo.fan, f0, n);
    assert PointersOf(f)[..|PointersOf(f0)|] == PointersOf(f0) && DataOf(f)[..n] == DataOf(f0);
    forall x | x in Earlier(geo.fan, f, n) ensures x !in free { assert x in BlocksOf(f0); }
    assert free - Earlier(geo.fan, f, n) == free;
    assert InTurn(geo, free, f, n, n, start);
  }

  /** All that `Turns` says of the new data blocks. */
  ghost predicate TakenInTurn(geo: Geometry, d: Disk, f0: File, f: File, start: nat) {
    && DataInTurn(geo, d, f, |DataOf(f0)|, start)
    && (|DataOf(f)| > |DataOf(f0)| ==> FirstFree(geo, FreeBlocks(geo, d), start, DataOf(f)[|DataOf(f0)|]))
  }

  lemma {:induction false} TurnsTaken(geo: Geometry, d: Disk, f0: File, d': Disk, f: File, start: nat, group: nat)
    requires Turns(geo, d, f0, d', f, start, group) && Formatted(geo, d) && Owns(geo, d, f0) && Shape(geo.fan, f0)
    ensures TakenInTurn(geo, d, f0, f, start)
  {
    if |DataOf(f)| > |DataOf(f0)| { FirstInTurn(geo, d, f0, d', f, start, group); }
  }

  /** The blocks are determined by what was free and where the search began: a block that is next in turn after the same
      ones is the same. */
  lemma {:induction false} TurnOnce(geo: Geometry, free: set<nat>, f: File, f': File, n: nat, j: nat, start: nat)
    requires geo.Sane() && j < |DataOf(f)| && j < |DataOf(f')| && n <= j
             && InTurn(geo, free, f, n, j, start) && InTurn(geo, free, f', n, j, start)
    requires DataOf(f)[..j] == DataOf(f')[..j] && Earlier(geo.fan, f, j) == Earlier(geo.fan, f', j)
    ensures DataOf(f)[j] == DataOf(f')[j]
  {
    if j > n { assert DataOf(f)[..j][j - 1] == DataOf(f')[..j][j - 1]; }
    FirstFreeOnce(geo, free - Earlier(geo.fan, f, j), Origin(geo, f, n, j, start), DataOf(f)[j], DataOf(f')[j]);
  }

  lemma {:induction false} MoreOwn(f1: File, f2: File, b: nat)
    requires DataOf(f2) == DataOf(f1) + [b] && PointersOf(f1) <= PointersOf(f2)
    ensures Elements(BlocksOf(f1)) <= Elements(BlocksOf(f2))
  {
    forall n | n in BlocksOf(f1) ensures n in BlocksOf(f2) {
      if n in PointersOf(f1) {
        assert PointersOf(f2)[..|PointersOf(f1)|] == PointersOf(f1);
      }
    }
  }

  /** What came before a data block does not change when further ones come. */
  lemma {:induction false} TurnKept(geo: Geometry, f1: File, f2: File, n: nat, j: nat, start: nat, b: nat)
    requires geo.Sane() && Shape(geo.fan, f1) && DataOf(f2) == DataOf(f1) + [b] && PointersOf(f1) <= PointersOf(f2)
             && j <= |DataOf(f1)|
    ensures Earlier(geo.fan, f2, j) == Earlier(geo.fan, f1, j)
            && Origin(geo, f2, n, j, start) == Origin(geo, f1, n, j, start)
  {
    PointersBefore(geo.fan, f1, j);
    var k := NeedAll(geo.fan, 0, j) - j;
    assert PointersOf(f2)[..k] == PointersOf(f1)[..k];
    assert DataOf(f2)[..j] == DataOf(f1)[..j];
  }

  lemma {:induction false} PointersBefore(fan: nat, f: File, j: nat)
    requires fan > 0 && Shape(fan, f) && j <= |DataOf(f)|
    ensures 0 <= NeedAll(fan, 0, j) - j <= |PointersOf(f)|
    ensures j == |DataOf(f)| ==> NeedAll(fan, 0, j) - j == |PointersOf(f)|
  {
    var m := |DataOf(f)|;
    FileTakes(fan, f);
    NeedMore(fan, 0, j, m - j);
    NeedAtLeast(fan, 0, j);
    NeedAtLeast(fan, j, m - j);
  }

  lemma {:induction false} NeedAtLeast(fan: nat, n: nat, k: nat)
    ensures NeedAll(fan, n, k) >= k
  {
    if k > 0 {
      NeedAtLeast(fan, n, k - 1);
      NeedNext(fan, n, k - 1);
    }
  }
}
