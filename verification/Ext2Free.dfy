/** How many data blocks are free, and how many blocks of pointers an append takes. */
module Ext2Free {
  import opened IndexTree
  import opened BlockMap
  import opened Ext2Disk
  import opened Ext2Files

  /** Every data block of the group is in use. */
  ghost predicate GroupFull(geo: Geometry, d: Disk, g: nat)
    requires Formatted(geo, d) && g < geo.groups
  {
    forall b :: geo.first <= b < geo.perGroup ==> Used(geo, d, g, b)
  }

  ghost predicate DiskFull(geo: Geometry, d: Disk)
  {
    Formatted(geo, d) && forall g :: 0 <= g < geo.groups ==> GroupFull(geo, d, g)
  }

  /** The data blocks whose bits are clear, over all groups. */
  ghost function FreeBlocks(geo: Geometry, d: Disk): set<nat> {
    if Formatted(geo, d) then set n: nat | n < geo.Total() && InData(geo, n) && !InUse(geo, d, n) else {}
  }

  ghost function FreeSize(geo: Geometry, d: Disk): nat { |FreeBlocks(geo, d)| }

  lemma {:induction false} FullIsEmpty(geo: Geometry, d: Disk)
    requires Formatted(geo, d)
    ensures DiskFull(geo, d) <==> FreeSize(geo, d) == 0
  {
    if DiskFull(geo, d) {
      forall n: nat | InData(geo, n) ensures InUse(geo, d, n) { assert GroupFull(geo, d, geo.GroupOf(n)); }
      assert FreeBlocks(geo, d) == {};
    } else {
      var g :| 0 <= g < geo.groups && !GroupFull(geo, d, g);
      var b :| geo.first <= b < geo.perGroup && !Used(geo, d, g, b);
      geo.NumberIn(g, b);
      assert geo.Number(g, b) in FreeBlocks(geo, d);
    }
  }

  lemma {:induction false} TakenFree(geo: Geometry, d: Disk, g: nat, b: nat)
    requires Formatted(geo, d) && g < geo.groups && geo.first <= b < geo.perGroup && !Used(geo, d, g, b)
    ensures FreeSize(geo, d) == FreeSize(geo, Taken(geo, d, g, b)) + 1
  {
    var n, d' := geo.Number(g, b), Taken(geo, d, g, b);
    TakenView(geo, d, g, b);
    forall x: nat | InData(geo, x) ensures InUse(geo, d', x) == (x == n || InUse(geo, d, x)) {
      geo.GroupIn(x);
      geo.NumberIn(g, b);
    }
    assert FreeBlocks(geo, d) == FreeBlocks(geo, d') + {n};
  }

  // ----- which block is taken -----

  /** Going round from `start`, group `g` has been passed before `at` is reached. */
  predicate Passed(start: nat, at: nat, g: nat) { if at >= start then start <= g < at else g >= start || g < at }

  /** Of the blocks `free`, `n` is the lowest one in the first group that has any, going round from `start`. */
  ghost predicate FirstFree(geo: Geometry, free: set<nat>, start: nat, n: nat)
    requires geo.Sane()
  {
    && n in free && n < geo.Total()
    && forall m :: m in free && m < geo.Total() ==>
         !Passed(start, geo.GroupOf(n), geo.GroupOf(m)) && (geo.GroupOf(m) == geo.GroupOf(n) ==> n <= m)
  }

  /** There is one such block. */
  lemma {:induction false} FirstFreeOnce(geo: Geometry, free: set<nat>, start: nat, n: nat, n': nat)
    requires geo.Sane() && FirstFree(geo, free, start, n) && FirstFree(geo, free, start, n')
    ensures n == n'
  {
    assert n in free && n' in free;
  }

  lemma {:induction false} FirstFreeIs(geo: Geometry, d: Disk, start: nat, g: nat, b: nat)
    requires Formatted(geo, d) && start < geo.groups && g < geo.groups && geo.first <= b < geo.perGroup
             && !Used(geo, d, g, b)
    requires forall k :: geo.first <= k < b ==> Used(geo, d, g, k)
    requires forall h :: 0 <= h < geo.groups && Passed(start, g, h) ==> GroupFull(geo, d, h)
    ensures var n := geo.Number(g, b);
            n < geo.Total() && geo.GroupOf(n) == g && FirstFree(geo, FreeBlocks(geo, d), start, n)
  {
    var n := geo.Number(g, b);
    geo.NumberIn(g, b);
    forall m | m in FreeBlocks(geo, d) ensures !Passed(start, g, geo.GroupOf(m))
      ensures geo.GroupOf(m) == g ==> n <= m
    {
      geo.GroupIn(m);
      assert !Used(geo, d, geo.GroupOf(m), geo.IndexOf(m));
    }
  }

  /** The bitmaps are as they were. */
  ghost predicate BitsKept(geo: Geometry, d: Disk, d': Disk) {
    && Formatted(geo, d) && Formatted(geo, d')
    && forall g, b {:trigger Used(geo, d', g, b)} :: 0 <= g < geo.groups && 0 <= b < geo.perGroup ==>
         Used(geo, d', g, b) == Used(geo, d, g, b)
  }

  /** The bits decide. */
  lemma {:induction false} SameFree(geo: Geometry, d: Disk, d': Disk, free: seq<nat>, total: nat)
    requires BitsKept(geo, d, d')
    ensures FreeBlocks(geo, d') == FreeBlocks(geo, d)
    ensures LedgerOf(geo, d', free, total) == LedgerOf(geo, d, free, total)
  {
    if |free| == geo.groups {
      forall g | 0 <= g < geo.groups ensures UsedIn(geo, d', g) == UsedIn(geo, d, g) {
        SameUsed(geo, d, d', g, geo.perGroup);
      }
    }
  }

  // ----- what an append takes -----

  /** The blocks of pointers that are missing below a block that leads to `x` blocks so far, where its pointers lead to
      trees of height `g`: a multiple of their capacity needs a fresh one, and so on below it. */
  function NeedBelow(fan: nat, g: nat, x: nat): nat {
    if g == 0 || Cap(fan, g) == 0 then 0
    else var r := x % Cap(fan, g); (if r == 0 then 1 else 0) + NeedBelow(fan, g - 1, r)
  }

  /** The same from the inode on, for its tree of height `h`. */
  function NeedTree(fan: nat, h: nat, x: nat): nat
  {
    (if x == 0 then 1 else 0) + if h == 0 then 0 else NeedBelow(fan, h - 1, x)
  }

  /** How many blocks of pointers a file of `n` blocks needs for one more. */
  function Need(fan: nat, n: nat): nat {
    if n < DIRECT then 0
    else if n < Base(fan, 2) then NeedTree(fan, 1, n - Base(fan, 1))
    else if n < Base(fan, 3) then NeedTree(fan, 2, n - Base(fan, 2))
    else NeedTree(fan, 3, n - Base(fan, 3))
  }

  /** By the tree in which the next block goes. */
  lemma {:induction false} NeedFor(fan: nat, n: nat, h: nat, x: nat)
    requires fan > 0 && 1 <= h <= 3 && n == Base(fan, h) + x && x < Cap(fan, h)
    ensures Need(fan, n) == NeedTree(fan, h, x)
  {
    Caps(fan);
    BaseGrows(fan, 1, 2);
    BaseGrows(fan, 2, 3);
  }

  /** One level. */
  lemma {:induction false} NeedIs(fan: nat, g: nat, x: nat)
    requires g > 0 && fan > 0
    ensures Cap(fan, g) > 0 && NeedBelow(fan, g, x) == (if x % Cap(fan, g) == 0 then 1 else 0)
            + NeedBelow(fan, g - 1, x % Cap(fan, g))
  {
    CapPositive(fan, g);
  }

  /** With the data block. */
  function NeedOne(fan: nat, n: nat): nat { 1 + Need(fan, n) }

  /** The blocks that a file of `n` blocks needs for each of `k` more. */
  function Needs(fan: nat, n: nat, k: nat): (r: seq<nat>)
    ensures |r| == k
  {
    if k == 0 then [] else Needs(fan, n, k - 1) + [NeedOne(fan, n + (k - 1))]
  }

  lemma {:induction false} NeedAt(fan: nat, n: nat, k: nat, j: nat)
    requires j < k
    ensures Needs(fan, n, k)[j] == NeedOne(fan, n + j)
  {
    if j < k - 1 { NeedAt(fan, n, k - 1, j); }
  }

  lemma {:induction false} NeedsPrefix(fan: nat, n: nat, k: nat, j: nat)
    requires j <= k
    ensures Needs(fan, n, k)[..j] == Needs(fan, n, j)
  {
    if j < k { NeedsPrefix(fan, n, k - 1, j); }
  }

  function NeedAll(fan: nat, n: nat, k: nat): nat { SumOf(Needs(fan, n, k)) }

  lemma {:induction false} SumGrows(s: seq<nat>, j: nat, k: nat)
    requires j <= k <= |s|
    ensures SumOf(s[..j]) <= SumOf(s[..k])
    decreases k - j
  {
    if j < k {
      SumGrows(s, j, k - 1);
      assert s[..k][..k - 1] == s[..k - 1];
    }
  }

  /** An append that needs `need` of `before` free blocks takes just these, if there are as many. */
  predicate Paid(need: nat, ok: bool, before: nat, now: nat) {
    (ok <==> before >= need) && (ok ==> before == now + need)
  }

  /** Of `before` free blocks, `now` are left after `got` appends that needed `needs`; unless `ok`, the next one did not
      find what it needed. */
  predicate Took(needs: seq<nat>, got: nat, ok: bool, before: nat, now: nat) {
    && got <= |needs| && SumOf(needs[..got]) <= before
    && if ok then before == now + SumOf(needs[..got]) else got < |needs| && before < SumOf(needs[..got + 1])
  }

  /** If the blocks run out, `got` is the number of appends for which there were enough. */
  lemma {:induction false} TookMost(fan: nat, n: nat, more: nat, got: nat, before: nat, now: nat)
    requires Took(Needs(fan, n, more), got, false, before, now)
    ensures got < more && NeedAll(fan, n, got) <= before < NeedAll(fan, n, got + 1)
  {
    NeedsPrefix(fan, n, more, got);
    NeedsPrefix(fan, n, more, got + 1);
  }

  lemma {:induction false} TookNext(needs: seq<nat>, got: nat, before: nat, now: nat, ok: bool, left: nat)
    requires got < |needs| && Took(needs, got, true, before, now) && (ok <==> now >= needs[got])
             && (ok ==> now == left + needs[got])
    ensures Took(needs, if ok then got + 1 else got, ok, before, left)
  {
    assert needs[..got + 1][..got] == needs[..got];
  }

  lemma {:induction false} TookOne(fan: nat, n: nat, more: nat, needs: seq<nat>, got: nat, got': nat, size: nat,
                                   before: nat, now: nat, ok: bool, left: nat)
    requires needs == Needs(fan, n, more) && got < more && Took(needs, got, true, before, now)
             && got' == if ok then got + 1 else got
    requires size == n + got && Paid(NeedOne(fan, size), ok, now, left)
    ensures Took(needs, got', ok, before, left)
  {
    NeedAt(fan, n, more, got);
    TookNext(needs, got, before, now, ok, left);
  }

  /** All the appends succeed if and only if there are blocks enough for all of them. */
  lemma {:induction false} TookAll(needs: seq<nat>, got: nat, ok: bool, before: nat, now: nat)
    requires Took(needs, got, ok, before, now) && (ok ==> got == |needs|)
    ensures (ok <==> before >= SumOf(needs)) && (ok ==> before == now + SumOf(needs))
  {
    assert needs[..|needs|] == needs;
    if !ok { SumGrows(needs, got + 1, |needs|); }
  }
}
