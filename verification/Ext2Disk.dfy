/** The disk of src/ext2.c as blocks of bytes, in groups that each begin with their bitmaps and inode table. */
module Ext2Disk {
  import opened Arith
  import opened Fixed
  import opened Bytes

  /** The parameters of the format: `fan` pointers to a block, `groups` groups of `perGroup` blocks, of which the first
      `first` are taken by the format itself; block `bitmap` of a group is its block bitmap. */
  datatype Geometry = Geometry(fan: nat, groups: nat, perGroup: nat, first: nat, bitmap: nat, inodesPerGroup: nat,
      inodesPerBlock: nat) {
    predicate Sane() {
      && fan > 0 && groups > 0 && 0 < bitmap < first < perGroup <= 32 * fan && Total() <= TWO_32
      && inodesPerGroup > 0 && inodesPerBlock > 0
    }

    function BlockSize(): nat { 4 * fan }
    function Total(): nat { groups * perGroup }

    /** The number of block `b` of group `g` on the whole disk. */
    function Number(g: nat, b: nat): nat { g * perGroup + b }

    lemma {:induction false} NumberIn(g: nat, b: nat)
      requires g < groups && b < perGroup
      ensures Number(g, b) < Total() && Number(g, b) / perGroup == g && Number(g, b) % perGroup == b
    {
      assert (g + 1) * perGroup == g * perGroup + perGroup;
      MulUp(g + 1, perGroup, groups, perGroup);
      DivModIs(Number(g, b), g, b, perGroup);
    }

    lemma {:induction false} GroupIn(n: nat)
      requires perGroup > 0 && n < Total()
      ensures n / perGroup < groups && n % perGroup < perGroup && Number(n / perGroup, n % perGroup) == n
    {
      DivInRange(n, groups, perGroup);
    }

    function GroupOf(n: nat): (g: nat)
      requires perGroup > 0 && n < Total()
      ensures g < groups
    {
      DivInRange(n, groups, perGroup);
      n / perGroup
    }

    function IndexOf(n: nat): (b: nat)
      requires perGroup > 0
      ensures b < perGroup
    {
      n % perGroup
    }
  }

  type Disk = seq<Block>

  predicate Formatted(geo: Geometry, d: Disk) {
    geo.Sane() && |d| == geo.Total() && forall n :: 0 <= n < |d| ==> |d[n]| == geo.BlockSize()
  }

  // ----- the block bitmap -----

  function BitmapBlock(geo: Geometry, g: nat): (n: nat)
    requires geo.Sane() && g < geo.groups
    ensures n < geo.Total()
  {
    geo.NumberIn(g, geo.bitmap);
    geo.Number(g, geo.bitmap)
  }

  predicate Used(geo: Geometry, d: Disk, g: nat, b: nat)
    requires Formatted(geo, d) && g < geo.groups && b < geo.perGroup
  {
    Bit(d[BitmapBlock(geo, g)][b / 8], b % 8)
  }

  /** `set_block_bitmap` */
  function Marked(geo: Geometry, d: Disk, g: nat, b: nat, on: bool): (d': Disk)
    requires Formatted(geo, d) && g < geo.groups && b < geo.perGroup
    ensures Formatted(geo, d')
  {
    var n := BitmapBlock(geo, g);
    d[n := SetBitAt(d[n], b, on)]
  }

  lemma {:induction false} BitmapsApart(geo: Geometry, g: nat, g': nat)
    requires geo.Sane() && g < geo.groups && g' < geo.groups && BitmapBlock(geo, g) == BitmapBlock(geo, g')
    ensures g == g'
  {
    geo.NumberIn(g, geo.bitmap);
    geo.NumberIn(g', geo.bitmap);
  }

  /** It changes the bit of that block and no other. */
  lemma {:induction false} MarkedUsed(geo: Geometry, d: Disk, g: nat, b: nat, on: bool, g': nat, b': nat)
    requires Formatted(geo, d) && g < geo.groups && b < geo.perGroup && g' < geo.groups && b' < geo.perGroup
    ensures Used(geo, Marked(geo, d, g, b, on), g', b') == if g' == g && b' == b then on else Used(geo, d, g', b')
  {
    if BitmapBlock(geo, g') == BitmapBlock(geo, g) {
      BitmapsApart(geo, g, g');
      BitWith(d[BitmapBlock(geo, g)][b / 8], b % 8, on, b' % 8);
      assert b == b / 8 * 8 + b % 8 && b' == b' / 8 * 8 + b' % 8;
    }
  }

  // ----- counting -----

  /** How many of the first `k` blocks of group `g` are in use. */
  function UsedUpTo(geo: Geometry, d: Disk, g: nat, k: nat): nat
    requires Formatted(geo, d) && g < geo.groups && k <= geo.perGroup
  {
    if k == 0 then 0 else UsedUpTo(geo, d, g, k - 1) + if Used(geo, d, g, k - 1) then 1 else 0
  }

  function UsedIn(geo: Geometry, d: Disk, g: nat): nat
    requires Formatted(geo, d) && g < geo.groups
  {
    UsedUpTo(geo, d, g, geo.perGroup)
  }

  lemma {:induction false} SameUsed(geo: Geometry, d: Disk, d': Disk, g: nat, k: nat)
    requires Formatted(geo, d) && Formatted(geo, d') && g < geo.groups && k <= geo.perGroup
    requires forall b :: 0 <= b < k ==> Used(geo, d', g, b) == Used(geo, d, g, b)
    ensures UsedUpTo(geo, d', g, k) == UsedUpTo(geo, d, g, k)
  {
    if k > 0 { SameUsed(geo, d, d', g, k - 1); }
  }

  /** Marking a block counts once, if it changes the bit. */
  lemma {:induction false} MarkedCount(geo: Geometry, d: Disk, g: nat, b: nat, on: bool, g': nat, k: nat)
    requires Formatted(geo, d) && g < geo.groups && b < geo.perGroup && g' < geo.groups && k <= geo.perGroup
    requires Used(geo, d, g, b) != on
    ensures UsedUpTo(geo, Marked(geo, d, g, b, on), g', k) ==
            UsedUpTo(geo, d, g', k) + if g' == g && b < k then (if on then 1 else -1) else 0
  {
    if k > 0 {
      MarkedCount(geo, d, g, b, on, g', k - 1);
      MarkedUsed(geo, d, g, b, on, g', k - 1);
    }
  }

  // ----- the books -----

  function SumOf(s: seq<nat>): nat { if s == [] then 0 else SumOf(s[..|s| - 1]) + s[|s| - 1] }

  lemma {:induction false} SumUpdate(s: seq<nat>, g: nat, v: nat)
    requires g < |s|
    ensures SumOf(s[g := v]) + s[g] == SumOf(s) + v
  {
    var n := |s| - 1;
    if g < n {
      SumUpdate(s[..n], g, v);
      assert s[g := v][..n] == s[..n][g := v];
    } else {
      assert s[g := v][..n] == s[..n];
    }
  }

  /** Modulo 2^32: for each group the free blocks counted for it and its blocks in use together, and the count of the
      superblock less the sum over the groups. */
  datatype Ledger = Ledger(groups: seq<int>, surplus: int)

  ghost function LedgerOf(geo: Geometry, d: Disk, free: seq<nat>, total: nat): Ledger {
    if Formatted(geo, d) && |free| == geo.groups then
      Ledger(seq(geo.groups, g requires 0 <= g < geo.groups => (free[g] + UsedIn(geo, d, g)) % TWO_32),
          (total - SumOf(free)) % TWO_32)
    else Ledger([], 0)
  }

  lemma {:induction false} LedgerSame(geo: Geometry, d: Disk, free: seq<nat>, total: nat, d': Disk, free': seq<nat>,
                                      total': nat)
    requires Formatted(geo, d) && Formatted(geo, d') && |free| == |free'| == geo.groups
    requires forall g :: 0 <= g < geo.groups ==>
               (free'[g] + UsedIn(geo, d', g)) % TWO_32 == (free[g] + UsedIn(geo, d, g)) % TWO_32
    requires (total' + SumOf(free)) % TWO_32 == (total + SumOf(free')) % TWO_32
    ensures LedgerOf(geo, d', free', total') == LedgerOf(geo, d, free, total)
  {
    SameSurplus(total, SumOf(free), total', SumOf(free'));
    SameGroups(LedgerOf(geo, d, free, total), LedgerOf(geo, d', free', total'));
  }

  lemma {:induction false} SameGroups(a: Ledger, b: Ledger)
    requires |a.groups| == |b.groups| && a.surplus == b.surplus
             && forall g :: 0 <= g < |a.groups| ==> b.groups[g] == a.groups[g]
    ensures a == b
  {
  }

  lemma {:induction false} SameSurplus(a: nat, s: nat, a': nat, s': nat)
    requires (a' + s) % TWO_32 == (a + s') % TWO_32
    ensures (a' - s') % TWO_32 == (a - s) % TWO_32
  {
  }
}
