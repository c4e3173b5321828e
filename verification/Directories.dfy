/** The blocks of a directory as slots of 32 bytes, the entries being packed into the first ones. */
module Directories {
  import opened Bytes

  /** `sizeof(EXT2_DIR_ENTRY)`: the number of the inode, then the name. Products with it are written with the number. */
  const ENTRY := 32
  const NAME := 4

  function SlotAt(text: seq<byte>, k: nat): seq<byte>
    requires 32 * k + 32 <= |text|
  {
    text[32 * k..32 * k + 32]
  }

  /** The characters before the first zero byte. */
  function Cstr(b: seq<byte>): seq<byte> { if b == [] || b[0] == 0 then [] else [b[0]] + Cstr(b[1..]) }

  function NameOf(e: seq<byte>): seq<byte> { if |e| < NAME then [] else Cstr(e[NAME..]) }

  function InodeOf(e: seq<byte>): nat
    requires |e| == ENTRY
  {
    Word(e, 0)
  }

  /** An entry with a name. */
  predicate Live(e: seq<byte>) { |e| == ENTRY && e[NAME] != 0 }

  /** The names end within the entries. */
  ghost predicate Named(es: seq<seq<byte>>)
  {
    forall k {:trigger NameOf(es[k])} :: 0 <= k < |es| ==> |NameOf(es[k])| < ENTRY - NAME
  }

  /** The entries fill the first slots, every block has got one, and the slots behind them are marked as empty. */
  ghost predicate Directory(text: seq<byte>, es: seq<seq<byte>>, size: nat) {
    && 32 * |es| <= |text| < 32 * |es| + size
    && (forall k {:trigger es[k]} :: 0 <= k < |es| ==> Live(es[k]) && SlotAt(text, k) == es[k])
    && (forall k {:trigger SlotAt(text, k)} :: |es| <= k && 32 * k + 32 <= |text| ==> SlotAt(text, k)[NAME] == 0)
  }

  /** The bytes from `p` on are replaced by `e`. */
  function Put(text: seq<byte>, p: nat, e: seq<byte>): (r: seq<byte>)
    requires p + |e| <= |text|
    ensures |r| == |text|
  {
    text[..p] + e + text[p + |e|..]
  }

  lemma {:induction false} SlotPut(text: seq<byte>, k: nat, e: seq<byte>, j: nat)
    requires 32 * k + 32 <= |text| && |e| == ENTRY && 32 * j + 32 <= |text|
    ensures SlotAt(Put(text, 32 * k, e), j) == if j == k then e else SlotAt(text, j)
  {
    var s := SlotAt(Put(text, 32 * k, e), j);
    forall c | 0 <= c < 32 ensures s[c] == (if j == k then e else SlotAt(text, j))[c] { }
  }

  lemma {:induction false} SlotOfMore(text: seq<byte>, more: seq<byte>, j: nat)
    requires 32 * j + 32 <= |text|
    ensures SlotAt(text + more, j) == SlotAt(text, j)
  {
  }

  lemma {:induction false} SlotOfLess(text: seq<byte>, n: nat, j: nat)
    requires 32 * j + 32 <= n <= |text|
    ensures SlotAt(text[..n], j) == SlotAt(text, j)
  {
  }

  // ----- one entry more -----

  /** In a slot of the last block. */
  lemma {:induction false} AddedInRoom(text: seq<byte>, es: seq<seq<byte>>, size: nat, e: seq<byte>)
    requires Directory(text, es, size) && 32 * |es| + 32 <= |text| && Live(e)
    ensures Directory(Put(text, 32 * |es|, e), es + [e], size)
  {
    var text' := Put(text, 32 * |es|, e);
    forall k | 0 <= k && 32 * k + 32 <= |text| ensures SlotAt(text', k) == if k == |es| then e else SlotAt(text, k) {
      SlotPut(text, |es|, e, k);
    }
    forall k | 0 <= k < |es| + 1 ensures Live((es + [e])[k]) && SlotAt(text', k) == (es + [e])[k] {
      assert k < |es| ==> (es + [e])[k] == es[k];
    }
  }

  /** A fresh block behind the others, of `per` slots, with the entry at its beginning. */
  lemma {:induction false} AddedInBlock(text: seq<byte>, es: seq<seq<byte>>, size: nat, per: nat, e: seq<byte>)
    requires Directory(text, es, size) && 32 * |es| == |text| && Live(e) && size == 32 * per && per > 0
    ensures Directory(Put(text + Zeros(size), |text|, e), es + [e], size)
  {
    var text1 := text + Zeros(size);
    forall k | 0 <= k < |es| ensures Live(es[k]) && SlotAt(text1, k) == es[k] { SlotOfMore(text, Zeros(size), k); }
    forall k | |es| <= k && 32 * k + 32 <= |text1| ensures SlotAt(text1, k)[NAME] == 0 {
      assert SlotAt(text1, k)[NAME] == text1[32 * k + NAME];
    }
    AddedSlot(text1, es, e);
  }

  lemma {:induction false} AddedSlot(text: seq<byte>, es: seq<seq<byte>>, e: seq<byte>)
    requires 32 * |es| + 32 <= |text| && Live(e)
    requires forall k {:trigger es[k]} :: 0 <= k < |es| ==> Live(es[k]) && SlotAt(text, k) == es[k]
    requires forall k {:trigger SlotAt(text, k)} :: |es| <= k && 32 * k + 32 <= |text| ==> SlotAt(text, k)[NAME] == 0
    ensures Directory(Put(text, 32 * |es|, e), es + [e], |text| - 32 * |es|)
  {
    AddedInRoom(text, es, |text| - 32 * |es| + 1, e);
  }

  // ----- one entry less -----

  /** Without entry `k`: the last one takes its place. */
  function Removed(es: seq<seq<byte>>, k: nat): seq<seq<byte>>
    requires k < |es|
  {
    es[k := es[|es| - 1]][..|es| - 1]
  }

  /** The entry that marks the end: no inode, no name. */
  function Erased(e: seq<byte>): (r: seq<byte>)
    requires |e| == ENTRY
    ensures |r| == ENTRY && r[NAME] == 0
  {
    SetWord(e, 0, 0)[NAME := 0][15 := 0][16 := 0][17 := 0][18 := 0]
  }

  /** It is `e` without inode, without name and without the length of a name. */
  lemma {:induction false} ErasedIs(e: seq<byte>)
    requires |e| == ENTRY
    ensures var r := Erased(e);
            && InodeOf(r) == 0 && NameOf(r) == [] && r[15] == r[16] == r[17] == r[18] == 0
            && forall c :: 0 <= c < ENTRY && c >= 4 && c != NAME && !(15 <= c < 19) ==> r[c] == e[c]
  {
    var w := SetWord(e, 0, 0);
    WordSet(e, 0, 0, 0);
    assert Erased(e)[..4] == w[..4];
    assert Erased(e)[NAME..][0] == 0;
  }

  /** What `release_dir_entry` puts where entry `k` was. */
  function Replacement(es: seq<seq<byte>>, k: nat): (r: seq<byte>)
    requires k < |es| && |es[k]| == ENTRY && |es[|es| - 1]| == ENTRY
    ensures |r| == ENTRY
  {
    var last := es[|es| - 1];
    if InodeOf(es[k]) == InodeOf(last) then Erased(last) else last
  }

  /** The slot of the last entry marked as the end. */
  lemma {:induction false} LastMarked(text: seq<byte>, es: seq<seq<byte>>, size: nat, n: nat, e: seq<byte>)
    requires Directory(text, es, size) && n + 1 == |es| && |text| < 32 * n + size && |e| == ENTRY && e[NAME] == 0
    ensures 32 * n + 32 <= |text| && Directory(Put(text, 32 * n, e), es[..n], size)
  {
    var text' := Put(text, 32 * n, e);
    forall k | 0 <= k && 32 * k + 32 <= |text| ensures SlotAt(text', k) == if k == n then e else SlotAt(text, k) {
      SlotPut(text, n, e, k);
    }
    forall k | 0 <= k < n ensures Live(es[..n][k]) && SlotAt(text', k) == es[..n][k] { assert es[..n][k] == es[k]; }
  }

  /** The last block, with one entry in it, taken away. */
  lemma {:induction false} LastCut(text: seq<byte>, es: seq<seq<byte>>, size: nat, n: nat)
    requires Directory(text, es, size) && n + 1 == |es| && |text| == 32 * n + size && size > 0
    ensures Directory(text[..32 * n], es[..n], size)
  {
    forall k | 0 <= k < n ensures Live(es[..n][k]) && SlotAt(text[..32 * n], k) == es[..n][k] {
      SlotOfLess(text, 32 * n, k);
      assert es[..n][k] == es[k];
    }
  }

  /** With the end marked, or its block gone, the replacement goes where entry `k` was: this removes the entry, if and
      only if the last entry has not got the same inode. */
  lemma {:induction false} MovedIff(text: seq<byte>, es: seq<seq<byte>>, size: nat, k: nat, n: nat)
    requires n + 1 == |es| && Directory(text, es[..n], size) && k < n && Live(es[k]) && Live(es[n])
    ensures Directory(Put(text, 32 * k, Replacement(es, k)), Removed(es, k), size) <==> InodeOf(es[k]) != InodeOf(es[n])
  {
    var r, es' := Replacement(es, k), Removed(es, k);
    var text' := Put(text, 32 * k, r);
    forall j | 0 <= j && 32 * j + 32 <= |text| ensures SlotAt(text', j) == if j == k then r else SlotAt(text, j) {
      SlotPut(text, k, r, j);
    }
    assert SlotAt(text', k) == r && es'[k] == es[n];
    if InodeOf(es[k]) != InodeOf(es[n]) {
      forall j | 0 <= j < n ensures Live(es'[j]) && SlotAt(text', j) == es'[j] {
        assert j != k ==> es'[j] == es[..n][j];
      }
    }
  }

  /** The entries before the last one are in their slots, but for entry `k`: the last one has taken its place, or an
      entry without name and inode if the two have the same inode. */
  ghost predicate Filled(text: seq<byte>, es: seq<seq<byte>>, size: nat, k: nat)
    requires k < |es| && |es[k]| == ENTRY && |es[|es| - 1]| == ENTRY
  {
    && 32 * (|es| - 1) <= |text| < 32 * (|es| - 1) + size
    && forall j {:trigger es[j]} :: 0 <= j < |es| - 1 ==>
         var slot := SlotAt(text, j);
         if j != k then slot == es[j]
         else if InodeOf(es[k]) != InodeOf(es[|es| - 1]) then slot == es[|es| - 1]
         else InodeOf(slot) == 0 && NameOf(slot) == []
  }

  lemma {:induction false} FilledBy(text: seq<byte>, es: seq<seq<byte>>, size: nat, k: nat, n: nat)
    requires n + 1 == |es| && Directory(text, es[..n], size) && k < n && Live(es[k]) && Live(es[n])
    ensures 32 * k + 32 <= |text| && Filled(Put(text, 32 * k, Replacement(es, k)), es, size, k)
  {
    var r := Replacement(es, k);
    ErasedIs(es[n]);
    forall j | 0 <= j < n ensures 32 * j + 32 <= |text|
        && SlotAt(Put(text, 32 * k, r), j) == (if j == k then r else es[j]) {
      assert es[..n][j] == es[j] && Live(es[..n][j]);
      SlotPut(text, k, r, j);
    }
  }

  lemma {:induction false} FilledLast(text: seq<byte>, es: seq<seq<byte>>, size: nat, n: nat)
    requires n + 1 == |es| && Directory(text, es[..n], size) && |es[n]| == ENTRY
    ensures Filled(text, es, size, n)
  {
    forall j | 0 <= j < n ensures 32 * j + 32 <= |text| && SlotAt(text, j) == es[j] {
      assert es[..n][j] == es[j] && Live(es[..n][j]);
    }
  }

  /** If it is the last entry that goes, the mark is only written again. */
  lemma {:induction false} ErasedAgain(text: seq<byte>, es: seq<seq<byte>>, size: nat, n: nat, e: seq<byte>)
    requires Directory(text, es, size) && n == |es| && 32 * n + 32 <= |text| && |e| == ENTRY && e[NAME] == 0
    ensures Directory(Put(text, 32 * n, e), es, size)
  {
    var text' := Put(text, 32 * n, e);
    forall j | 0 <= j && 32 * j + 32 <= |text| ensures SlotAt(text', j) == if j == n then e else SlotAt(text, j) {
      SlotPut(text, n, e, j);
    }
  }

  /** Exactly one occurrence of the removed entry is gone. */
  lemma {:induction false} RemovedIs(es: seq<seq<byte>>, k: nat)
    requires k < |es|
    ensures multiset(Removed(es, k)) + multiset{es[k]} == multiset(es) && |Removed(es, k)| == |es| - 1
  {
    var n := |es| - 1;
    if k == n {
      assert es == es[..n] + [es[n]] && Removed(es, k) == es[..n];
    } else {
      var a, b := es[..k], es[k + 1..n];
      assert es == a + [es[k]] + b + [es[n]] && Removed(es, k) == a + [es[n]] + b;
      OneFewer(a, es[k], b, es[n]);
    }
  }

  lemma {:induction false} OneFewer(a: seq<seq<byte>>, x: seq<byte>, b: seq<seq<byte>>, y: seq<byte>)
    ensures multiset(a + [x] + b + [y]) == multiset(a + [y] + b) + multiset{x}
  {
  }

  // ----- looking for a name -----

  lemma {:induction false} CstrStep(b: seq<byte>, i: nat)
    requires i < |b| && i <= |Cstr(b)|
    ensures i < |Cstr(b)| <==> b[i] != 0
    ensures i < |Cstr(b)| ==> Cstr(b)[i] == b[i]
  {
    if i > 0 {
      CstrStep(b[1..], i - 1);
    }
  }

  /** `strcmp(...) == 0`, for a name that ends within `b`. */
  method SameName(b: seq<byte>, name: seq<byte>) returns (same: bool)
    requires |Cstr(b)| < |b| && forall c :: c in name ==> c != 0
    ensures same <==> Cstr(b) == name
  {
    var i := 0;
    while i < |name| && b[i] == name[i]
      invariant i <= |name| && i <= |Cstr(b)| && Cstr(b)[..i] == name[..i]
    {
      CstrStep(b, i);
      assert name[i] in name;
      i := i + 1;
    }
    CstrStep(b, i);
    same := i == |name| && b[i] == 0;
    if i < |name| && i < |Cstr(b)| { assert Cstr(b)[i] != name[i]; }
  }

  /** None of the entries from `a` to `b` has the name. */
  ghost predicate NotAmong(es: seq<seq<byte>>, name: seq<byte>, a: nat, b: nat) {
    forall k {:trigger NameOf(es[k])} :: a <= k < b && k < |es| ==> NameOf(es[k]) != name
  }

  lemma {:induction false} NotAmongMore(es: seq<seq<byte>>, name: seq<byte>, a: nat, b: nat)
    requires NotAmong(es, name, a, b) && (b < |es| ==> NameOf(es[b]) != name)
    ensures NotAmong(es, name, a, b + 1)
  {
  }

  /** Slot `o` of the block that holds slot `first` and those behind it. */
  lemma {:induction false} SlotInBlock(text: seq<byte>, es: seq<seq<byte>>, size: nat, first: nat, per: nat,
                                       block: Block, o: nat)
    requires Directory(text, es, size) && |block| == 32 * per && 32 * first + 32 * per <= |text|
             && block == text[32 * first..32 * first + 32 * per] && o < per
    ensures first + o < |es| ==> block[32 * o..32 * o + 32] == es[first + o] && Live(es[first + o])
    ensures first + o < |es| <==> block[32 * o + NAME] != 0
  {
    var k := first + o;
    assert block[32 * o..32 * o + 32] == SlotAt(text, k);
    assert SlotAt(text, k)[NAME] == block[32 * o + NAME];
    if k < |es| { assert Live(es[k]); }
  }

  /** The block holds the entries from `first` on. */
  ghost predicate BlockOfDir(text: seq<byte>, es: seq<seq<byte>>, size: nat, first: nat, per: nat, block: Block) {
    Directory(text, es, size) && |block| == 32 * per && 32 * first + 32 * per <= |text|
        && block == text[32 * first..32 * first + 32 * per]
  }

  /** Has the entry in slot `o` of the block the name? */
  method NameAt(block: Block, per: nat, o: nat, name: seq<byte>, ghost text: seq<byte>, ghost es: seq<seq<byte>>,
                ghost size: nat, ghost first: nat) returns (same: bool)
    requires BlockOfDir(text, es, size, first, per, block) && Named(es) && o < per && first + o < |es|
             && forall c :: c in name ==> c != 0
    ensures same <==> NameOf(es[first + o]) == name
  {
    SlotInBlock(text, es, size, first, per, block, o);
    var e := block[32 * o..32 * o + 32];
    assert |NameOf(es[first + o])| < ENTRY - NAME;
    same := SameName(e[NAME..], name);
  }

  /** Is there an entry in slot `o` of the block? The number is compared first. */
  method EntryAt(block: Block, per: nat, o: nat, ghost text: seq<byte>, ghost es: seq<seq<byte>>, ghost size: nat,
                 ghost first: nat) returns (live: bool)
    requires BlockOfDir(text, es, size, first, per, block) && o <= per
    ensures live <==> o < per && first + o < |es|
  {
    live := o != per;
    if live {
      SlotInBlock(text, es, size, first, per, block, o);
      live := block[32 * o + NAME] != 0;
    }
  }

  /** The inner loop of `ext2_lookup`, through one block. */
  method LookupIn(block: Block, per: nat, name: seq<byte>, ghost text: seq<byte>, ghost es: seq<seq<byte>>,
                  ghost size: nat, ghost first: nat) returns (found: bool, o: nat)
    requires BlockOfDir(text, es, size, first, per, block) && Named(es) && 0 < per && first < |es|
             && forall c :: c in name ==> c != 0
    ensures found ==> o < per && first + o < |es| && NameOf(es[first + o]) == name
                      && NotAmong(es, name, first, first + o)
    ensures !found ==> NotAmong(es, name, first, first + per)
  {
    o := 0;
    found := NameAt(block, per, o, name, text, es, size, first);
    while !found
      invariant o < per && first + o < |es| && NotAmong(es, name, first, first + o)
                && (found <==> NameOf(es[first + o]) == name)
      decreases per - o, !found
    {
      NotAmongMore(es, name, first, first + o);
      o := o + 1;
      var live := EntryAt(block, per, o, text, es, size, first);
      if !live {
        return;
      }
      found := NameAt(block, per, o, name, text, es, size, first);
    }
  }
}
