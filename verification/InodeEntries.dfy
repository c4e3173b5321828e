/** The entries of `inode.block`: which of them a file uses, and that the others are zero. */
module InodeEntries {
  import opened Fixed
  import opened IndexTree
  import opened BlockMap
  import opened Ext2Files

  /** A file of `n` blocks uses entry `j`: for a direct block, or for the tree that begins with a block it has. */
  predicate EntryUsed(fan: nat, n: nat, j: nat) {
    if j < DIRECT then j < n else Base(fan, j - DIRECT + 1) < n
  }

  /** The entry that leads to block `n`. */
  function EntryFor(fan: nat, n: nat): (j: nat)
    ensures j < N_BLOCKS
  {
    if n < DIRECT then n else if n < Base(fan, 2) then 12 else if n < Base(fan, 3) then 13 else 14
  }

  /** The entries that a file of `n` blocks does not use are zero. */
  predicate Clean(fan: nat, block: seq<u32>, n: nat) {
    |block| == N_BLOCKS && forall j :: 0 <= j < N_BLOCKS && !EntryUsed(fan, n, j) ==> block[j] == 0
  }

  /** Only the entry that leads to block `n` has changed. */
  predicate OneEntry(fan: nat, block: seq<u32>, block': seq<u32>, n: nat) {
    |block| == |block'| == N_BLOCKS && forall j :: 0 <= j < N_BLOCKS && j != EntryFor(fan, n) ==> block'[j] == block[j]
  }

  lemma {:induction false} EntryInTree(fan: nat, n: nat, h: nat)
    requires fan > 0 && 1 <= h <= 3 && Base(fan, h) <= n < Base(fan, h) + Cap(fan, h)
    ensures EntryFor(fan, n) == DIRECT + h - 1
  {
    BaseGrows(fan, 1, 2);
    BaseGrows(fan, 2, 3);
  }

  lemma {:induction false} CleanMore(fan: nat, block: seq<u32>, block': seq<u32>, n: nat)
    requires fan > 0 && Clean(fan, block, n) && OneEntry(fan, block, block', n)
    ensures Clean(fan, block', n + 1)
  {
    BaseGrows(fan, 1, 2);
    BaseGrows(fan, 2, 3);
    forall j | 0 <= j < N_BLOCKS && !EntryUsed(fan, n + 1, j) ensures block'[j] == 0 {
      assert !EntryUsed(fan, n, j);
      assert j != EntryFor(fan, n) by { NotUsed(fan, n, j); }
    }
  }

  lemma {:induction false} NotUsed(fan: nat, n: nat, j: nat)
    requires fan > 0 && j < N_BLOCKS && !EntryUsed(fan, n + 1, j)
    ensures j != EntryFor(fan, n)
  {
    BaseGrows(fan, 1, 2);
    BaseGrows(fan, 2, 3);
    if j >= DIRECT { assert j == 12 || j == 13 || j == 14; }
  }

  /** The entry that only leads to block `n`, if there is one, or else no entry that a file of `n` blocks uses. */
  predicate Unneeded(fan: nat, n: nat, k: nat) {
    && (n < DIRECT ==> k == n) && (n == Base(fan, 1) ==> k == 12) && (n == Base(fan, 2) ==> k == 13)
    && (n == Base(fan, 3) ==> k == 14) && (k < N_BLOCKS ==> !EntryUsed(fan, n, k))
  }

  /** It is zeroed when block `n` goes. */
  lemma {:induction false} CleanLess(fan: nat, block: seq<u32>, n: nat, k: nat)
    requires fan > 0 && |block| == N_BLOCKS && Unneeded(fan, n, k)
    ensures Clean(fan, block, n + 1) ==> Clean(fan, if k < N_BLOCKS then block[k := 0] else block, n)
  {
    var block' := if k < N_BLOCKS then block[k := 0] else block;
    if Clean(fan, block, n + 1) {
      forall j | 0 <= j < N_BLOCKS && !EntryUsed(fan, n, j) ensures block'[j] == 0 {
        if EntryUsed(fan, n + 1, j) { OnlyLed(fan, n, j); }
      }
    }
  }

  lemma {:induction false} OnlyLed(fan: nat, n: nat, j: nat)
    requires j < N_BLOCKS && EntryUsed(fan, n + 1, j) && !EntryUsed(fan, n, j)
    ensures if j < DIRECT then n == j else n == Base(fan, j - DIRECT + 1)
  {
  }

  lemma {:induction false} UnneededAbove(fan: nat, n: nat, h: nat, k: nat)
    requires fan > 0 && 2 <= h <= 3 && Base(fan, h) <= n < Base(fan, h) + Cap(fan, h)
             && k == if n == Base(fan, h) then DIRECT + h - 1 else N_BLOCKS
    ensures Unneeded(fan, n, k)
  {
    BaseGrows(fan, 1, 2);
    BaseGrows(fan, 2, 3);
  }

  lemma {:induction false} UnneededBelow(fan: nat, n: nat)
    requires fan > 0 && n < Base(fan, 2)
    ensures Unneeded(fan, n, n)
  {
    BaseGrows(fan, 1, 2);
    BaseGrows(fan, 2, 3);
    if DIRECT <= n < N_BLOCKS { assert n == 12 || n == 13 || n == 14; }
  }
}
