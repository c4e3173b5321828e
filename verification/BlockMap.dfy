/** The block list of a file: twelve direct blocks, then trees of height one, two and three, as they lie on the disk. */
module BlockMap {
  import opened Bytes
  import opened Arith
  import opened Fixed
  import opened IndexTree
  import opened Seqs

  const DIRECT := 12

  /** `trees[k]` has height k + 1. */
  datatype File = File(direct: seq<nat>, trees: seq<Ix>)

  /** How many blocks a file has before its tree of height `h`. */
  function Base(fan: nat, h: nat): nat { if h <= 1 then DIRECT else Base(fan, h - 1) + Cap(fan, h - 1) }

  /** The data blocks of the trees of height up to `h`. */
  function UpTo(ts: seq<Ix>, h: nat): seq<nat>
    requires h <= |ts|
  {
    if h == 0 then [] else UpTo(ts, h - 1) + Leaves(h, ts[h - 1])
  }

  function SpentUpTo(ts: seq<Ix>, h: nat): seq<nat>
    requires h <= |ts|
  {
    if h == 0 then [] else SpentUpTo(ts, h - 1) + Spent(h, ts[h - 1])
  }

  /** The data blocks of a file, in order, and its blocks of pointers. */
  function DataOf(f: File): seq<nat> { f.direct + UpTo(f.trees, |f.trees|) }
  function PointersOf(f: File): seq<nat> { SpentUpTo(f.trees, |f.trees|) }

  /** Everything is filled from the left without a gap. */
  predicate Shape(fan: nat, f: File) {
    && |f.direct| <= DIRECT && |f.trees| <= 3
    && (f.trees != [] ==> |f.direct| == DIRECT)
    && (forall k :: 0 <= k < |f.trees| ==> Packed(fan, k + 1, f.trees[k]))
    && (forall k :: 0 <= k < |f.trees| - 1 ==> Full(fan, k + 1, f.trees[k]))
  }

  lemma {:induction false} UpToSize(fan: nat, ts: seq<Ix>, h: nat)
    requires h <= |ts| && forall k :: 0 <= k < h ==> Full(fan, k + 1, ts[k])
    ensures DIRECT + |UpTo(ts, h)| == Base(fan, h + 1)
  {
    if h > 0 {
      UpToSize(fan, ts, h - 1);
      FullLeaves(fan, h, ts[h - 1]);
    }
  }

  /** Which tree is the last one, and how many blocks it holds. */
  lemma {:induction false} ShapeSize(fan: nat, f: File)
    requires Shape(fan, f)
    ensures f.trees == [] ==> |DataOf(f)| == |f.direct| <= DIRECT
    ensures f.trees != [] ==>
              var h := |f.trees|;
              var m := |Leaves(h, f.trees[h - 1])|;
              |DataOf(f)| == Base(fan, h) + m && 0 < m <= Cap(fan, h)
                  && (m == Cap(fan, h) <==> Full(fan, h, f.trees[h - 1]))
  {
    if f.trees != [] {
      var h := |f.trees|;
      UpToSize(fan, f.trees, h - 1);
      PackedLeaves(fan, h, f.trees[h - 1]);
    }
  }

  // ----- storage -----

  /** The blocks of pointers on the disk say what the tree says. */
  ghost predicate Stores(d: seq<Block>, h: nat, t: Ix)
    decreases h
  {
    if h == 0 then t.Data?
    else
      && t.Pointers? && t.b < |d| && 4 * |t.kids| <= |d[t.b]|
      && forall k :: 0 <= k < |t.kids| ==> Word(d[t.b], k) == t.kids[k].b && Stores(d, h - 1, t.kids[k])
  }

  lemma {:induction false} SpentKid(h: nat, ts: seq<Ix>, k: nat, x: nat)
    requires k < |ts| && x in Spent(h, ts[k])
    ensures x in AllSpent(h, ts)
    decreases |ts|
  {
    if k < |ts| - 1 { SpentKid(h, ts[..|ts| - 1], k, x); }
  }

  lemma {:induction false} SameStores(d: seq<Block>, d': seq<Block>, h: nat, t: Ix)
    requires Stores(d, h, t) && |d'| == |d|
    requires forall x :: x in Spent(h, t) && x < |d| ==> d'[x] == d[x]
    ensures Stores(d', h, t)
    decreases h
  {
    if h > 0 {
      forall k | 0 <= k < |t.kids| ensures Stores(d', h - 1, t.kids[k]) {
        forall x | x in Spent(h - 1, t.kids[k]) ensures x in Spent(h, t) { SpentKid(h - 1, t.kids, k, x); }
        SameStores(d, d', h - 1, t.kids[k]);
      }
    }
  }

  lemma {:induction false} SpineSpent(h: nat, t: Ix, depth: nat)
    requires Spine(t, depth) && depth < h
    ensures At(t, depth).b in Spent(h, t)
    decreases depth
  {
    if depth > 0 {
      var u := Last(t);
      SpineSpent(h - 1, u, depth - 1);
      var x: nat := At(u, depth - 1).b;
      SpentKid(h - 1, t.kids, |t.kids| - 1, x);
      assert x in [t.b] + AllSpent(h - 1, t.kids);
    }
  }

  lemma {:induction false} NoDupParts(a: seq<nat>, b: seq<nat>)
    requires NoDup(a + b)
    ensures NoDup(a) && NoDup(b) && forall x :: x in a ==> x !in b
  {
    assert forall i :: 0 <= i < |a| ==> (a + b)[i] == a[i];
    assert forall i :: 0 <= i < |b| ==> (a + b)[|a| + i] == b[i];
  }

  /** Children of one block lead to different blocks. */
  lemma {:induction false} KidsApart(h: nat, ts: seq<Ix>, k: nat)
    requires NoDup(AllSpent(h, ts)) && k < |ts|
    ensures NoDup(Spent(h, ts[k]))
    ensures forall x :: x in Spent(h, ts[k]) && k < |ts| - 1 ==> x !in Spent(h, ts[|ts| - 1])
    decreases |ts|
  {
    var n := |ts| - 1;
    NoDupParts(AllSpent(h, ts[..n]), Spent(h, ts[n]));
    if k < n {
      KidsApart(h, ts[..n], k);
      forall x | x in Spent(h, ts[k]) ensures x !in Spent(h, ts[n]) { SpentKid(h, ts[..n], k, x); }
    }
  }

  lemma {:induction false} HeadApart(h: nat, g: nat, t: Ix)
    requires h == g + 1 && t.Pointers? && NoDup(Spent(h, t))
    ensures NoDup(AllSpent(g, t.kids)) && t.b !in AllSpent(g, t.kids)
    ensures t.b in Spent(h, t) && forall x :: x in AllSpent(g, t.kids) ==> x in Spent(h, t)
  {
    NoDupParts([t.b], AllSpent(g, t.kids));
    assert t.b in [t.b];
    assert Spent(h, t)[0] == t.b;
  }

  /** A child of a block of pointers, `g` being its height. */
  lemma {:induction false} KidInside(h: nat, g: nat, t: Ix, k: nat)
    requires h == g + 1 && t.Pointers? && k < |t.kids| && NoDup(Spent(h, t))
    ensures NoDup(Spent(g, t.kids[k]))
    ensures forall x :: x in Spent(g, t.kids[k]) ==> x in Spent(h, t)
    ensures t.b !in Spent(g, t.kids[k])
    ensures k < |t.kids| - 1 ==> forall x :: x in Spent(g, Last(t)) ==> x !in Spent(g, t.kids[k])
  {
    HeadApart(h, g, t);
    KidsApart(g, t.kids, k);
    SpentKids(g, t.kids, k);
    KidFacts(Spent(h, t), t.b, AllSpent(g, t.kids), Spent(g, t.kids[k]), Spent(g, Last(t)), k < |t.kids| - 1);
  }

  lemma {:induction false} KidFacts(whole: seq<nat>, head: nat, below: seq<nat>, kid: seq<nat>, last: seq<nat>,
                                    other: bool)
    requires (forall x :: x in below ==> x in whole) && head !in below && (forall x :: x in kid ==> x in below)
    requires forall x :: x in kid && other ==> x !in last
    ensures (forall x :: x in kid ==> x in whole) && head !in kid
    ensures other ==> forall x :: x in last ==> x !in kid
  {
  }

  lemma {:induction false} SpentKids(h: nat, ts: seq<Ix>, k: nat)
    requires k < |ts|
    ensures forall x :: x in Spent(h, ts[k]) ==> x in AllSpent(h, ts)
  {
    forall x | x in Spent(h, ts[k]) ensures x in AllSpent(h, ts) { SpentKid(h, ts, k, x); }
  }

  /** `d'` is `d` with the pointer `w` written behind the last one of the block at level `depth` of the right edge. */
  ghost predicate Linked(d: seq<Block>, d': seq<Block>, h: nat, t: Ix, depth: nat, w: u32)
    requires Spine(t, depth)
  {
    var (s, n) := (At(t, depth).b, |At(t, depth).kids|);
    && |d'| == |d| && s < |d| && 4 * n + 3 < |d[s]| && d'[s] == SetWord(d[s], n, w)
    && forall x :: x in Spent(h, t) && x < |d| && x != s ==> d'[x] == d[x]
  }

  lemma {:induction false} KidAvoids(h: nat, g: nat, t: Ix, depth: nat, k: nat)
    requires h == g + 1 && NoDup(Spent(h, t)) && Spine(t, depth) && depth < h && k < |t.kids|
             && (depth > 0 ==> k < |t.kids| - 1)
    ensures At(t, depth).b !in Spent(g, t.kids[k])
  {
    KidInside(h, g, t, k);
    if depth > 0 { SpineSpent(g, Last(t), depth - 1); }
  }

  /** The children off the right edge are not touched. */
  lemma {:induction false} KidStays(d: seq<Block>, d': seq<Block>, h: nat, g: nat, t: Ix, depth: nat, w: u32, k: nat)
    requires h == g + 1 && Stores(d, h, t) && NoDup(Spent(h, t)) && Spine(t, depth) && depth < h
             && Linked(d, d', h, t, depth, w)
    requires k < |t.kids| && (depth > 0 ==> k < |t.kids| - 1)
    ensures Stores(d', g, t.kids[k])
  {
    KidAvoids(h, g, t, depth, k);
    KidInside(h, g, t, k);
    SameStores(d, d', g, t.kids[k]);
  }

  lemma {:induction false} LinkedBelow(d: seq<Block>, d': seq<Block>, h: nat, g: nat, t: Ix, depth: nat, w: u32)
    requires h == g + 1 && Stores(d, h, t) && NoDup(Spent(h, t)) && Spine(t, depth) && 0 < depth < h
             && Linked(d, d', h, t, depth, w)
    ensures Stores(d, g, Last(t)) && NoDup(Spent(g, Last(t))) && Linked(d, d', g, Last(t), depth - 1, w)
    ensures d'[t.b] == d[t.b]
  {
    HeadApart(h, g, t);
    KidInside(h, g, t, |t.kids| - 1);
    SpineSpent(g, Last(t), depth - 1);
    assert At(t, depth) == At(Last(t), depth - 1);
    LinkedWithin(d, d', h, t, depth, g, Last(t), depth - 1, w);
  }

  lemma {:induction false} LinkedWithin(d: seq<Block>, d': seq<Block>, h: nat, t: Ix, depth: nat, g: nat, u: Ix, k: nat,
                                        w: u32)
    requires Spine(t, depth) && Linked(d, d', h, t, depth, w) && Spine(u, k) && At(u, k) == At(t, depth)
    requires forall x :: x in Spent(g, u) ==> x in Spent(h, t)
    ensures Linked(d, d', g, u, k, w)
  {
  }

  lemma {:induction false} AddedHere(d: seq<Block>, d': seq<Block>, h: nat, t: Ix, kid: Ix)
    requires Stores(d, h, t) && NoDup(Spent(h, t)) && t.Pointers? && 0 < h && kid.b < TWO_32
             && Linked(d, d', h, t, 0, kid.b)
    requires Stores(d', h - 1, kid)
    ensures Stores(d', h, Pointers(t.b, t.kids + [kid]))
  {
    var n, kids := |t.kids|, t.kids + [kid];
    forall k | 0 <= k < |kids| ensures Stores(d', h - 1, kids[k]) && Word(d'[t.b], k) == kids[k].b {
      WordSet(d[t.b], n, kid.b, k);
      if k < n { KidStays(d, d', h, h - 1, t, 0, kid.b, k); }
    }
  }

  lemma {:induction false} AddedBelow(d: seq<Block>, d': seq<Block>, h: nat, g: nat, t: Ix, depth: nat, w: u32, u: Ix)
    requires h == g + 1 && Stores(d, h, t) && NoDup(Spent(h, t)) && Spine(t, depth) && 0 < depth < h
             && Linked(d, d', h, t, depth, w)
    requires Stores(d', g, u) && u.b == Last(t).b
    ensures Stores(d', h, Pointers(t.b, t.kids[..|t.kids| - 1] + [u]))
  {
    var n, kids := |t.kids|, t.kids[..|t.kids| - 1] + [u];
    LinkedBelow(d, d', h, g, t, depth, w);
    forall k | 0 <= k < |kids| ensures Stores(d', g, kids[k]) && Word(d'[t.b], k) == kids[k].b {
      if k < n - 1 { KidStays(d, d', h, g, t, depth, w, k); }
    }
  }

  /** Writing one pointer stores the tree with a further child, `g` being the height of the child. */
  lemma {:induction false} AddedStores(d: seq<Block>, d': seq<Block>, h: nat, t: Ix, depth: nat, g: nat, kid: Ix)
    requires Stores(d, h, t) && NoDup(Spent(h, t)) && Spine(t, depth) && depth + 1 + g == h && kid.b < TWO_32
             && Linked(d, d', h, t, depth, kid.b)
    requires Stores(d', g, kid)
    ensures Stores(d', h, AddKid(t, depth, kid))
    decreases h
  {
    if depth == 0 {
      AddedHere(d, d', h, t, kid);
    } else {
      var k, u := h - 1, AddKid(Last(t), depth - 1, kid);
      LinkedBelow(d, d', h, k, t, depth, kid.b);
      AddedStores(d, d', k, Last(t), depth - 1, g, kid);
      assert u.b == Last(t).b;
      AddedBelow(d, d', h, k, t, depth, kid.b, u);
    }
  }

  // ----- a tree and what it has grown from -----

  /** `t` has the children of `s`, and perhaps further ones behind them. */
  predicate Extends(h: nat, s: Ix, t: Ix)
    decreases h
  {
    s == t ||
    (h > 0 && s.Pointers? && t.Pointers? && s.b == t.b && |s.kids| <= |t.kids| &&
     forall k :: 0 <= k < |s.kids| ==> Extends(h - 1, s.kids[k], t.kids[k]))
  }

  lemma {:induction false} ExtendsStores(d: seq<Block>, h: nat, s: Ix, t: Ix)
    requires Stores(d, h, t) && Extends(h, s, t)
    ensures Stores(d, h, s)
    decreases h
  {
    if s != t {
      forall k | 0 <= k < |s.kids| ensures Stores(d, h - 1, s.kids[k]) && s.kids[k].b == t.kids[k].b {
        ExtendsStores(d, h - 1, s.kids[k], t.kids[k]);
      }
    }
  }

  lemma {:induction false} ExtendsAdd(h: nat, s: Ix, t: Ix, depth: nat, kid: Ix)
    requires Extends(h, s, t) && Spine(t, depth) && depth < h
    ensures Extends(h, s, AddKid(t, depth, kid))
    decreases depth
  {
    var n, u := |t.kids| - 1, AddKid(t, depth, kid);
    if depth > 0 {
      ExtendsAdd(h - 1, Last(t), Last(t), depth - 1, kid);
      if s != t && |s.kids| == |t.kids| { ExtendsAdd(h - 1, s.kids[n], Last(t), depth - 1, kid); }
    }
    forall k | 0 <= k < |s.kids| ensures Extends(h - 1, s.kids[k], u.kids[k]) {
      assert k < n || depth == 0 ==> u.kids[k] == t.kids[k];
    }
  }

  // ----- a further block -----

  lemma {:induction false} CapPositive(fan: nat, h: nat)
    requires fan > 0
    ensures Cap(fan, h) > 0
  {
    if h > 0 {
      CapPositive(fan, h - 1);
      MulAtLeast(fan, Cap(fan, h - 1));
    }
  }

  lemma {:induction false} BaseGrows(fan: nat, a: nat, b: nat)
    requires fan > 0 && 1 <= a < b
    ensures Base(fan, a) + Cap(fan, a) <= Base(fan, b)
  {
    if a < b - 1 {
      BaseGrows(fan, a, b - 1);
      CapPositive(fan, b - 1);
    }
  }

  /** The tree in which the next block goes, by the number of blocks so far. */
  lemma {:induction false} WhichTree(fan: nat, f: File, h: nat)
    requires Shape(fan, f) && fan > 0 && h >= 1 && Base(fan, h) <= |DataOf(f)| < Base(fan, h) + Cap(fan, h)
    ensures |f.direct| == DIRECT
    ensures |DataOf(f)| == Base(fan, h) ==>
              && |f.trees| == h - 1
              && forall k :: 0 <= k < h - 1 ==> Full(fan, k + 1, f.trees[k])
    ensures |DataOf(f)| > Base(fan, h) ==> |f.trees| == h && |Leaves(h, f.trees[h - 1])| == |DataOf(f)| - Base(fan, h)
  {
    ShapeSize(fan, f);
    var n := |f.trees|;
    if h > 1 { BaseGrows(fan, 1, h); }
    if n > 0 {
      if n < h {
        BaseGrows(fan, n, h);
        if n + 1 < h { BaseGrows(fan, n + 1, h); CapPositive(fan, n + 1); }
      }
      if h < n { BaseGrows(fan, h, n); }
    } else {
      CapPositive(fan, 1);
    }
  }

  lemma {:induction false} UpToPrefix(ts: seq<Ix>, us: seq<Ix>, h: nat)
    requires h <= |ts| && h <= |us| && forall k :: 0 <= k < h ==> us[k] == ts[k]
    ensures UpTo(us, h) == UpTo(ts, h) && SpentUpTo(us, h) == SpentUpTo(ts, h)
  {
    if h > 0 { UpToPrefix(ts, us, h - 1); }
  }

  /** `f` with the tree `t` at height `h`, in place of its last one or behind it. */
  function WithTree(f: File, h: nat, t: Ix): File
    requires |f.trees| == h || |f.trees| == h - 1
  {
    if h > 0 then File(f.direct, f.trees[..h - 1] + [t]) else f
  }

  /** Putting a tree with one more block in place appends the block to the file. */
  lemma {:induction false} TreeAppends(fan: nat, f: File, h: nat, t: Ix, b: nat, added: seq<nat>)
    requires Shape(fan, f) && 1 <= h <= 3 && |f.direct| == DIRECT && (|f.trees| == h || |f.trees| == h - 1)
             && Packed(fan, h, t)
    requires forall k :: 0 <= k < h - 1 ==> Full(fan, k + 1, f.trees[k])
    requires Leaves(h, t) == (if |f.trees| == h then Leaves(h, f.trees[h - 1]) else []) + [b]
    requires Spent(h, t) == (if |f.trees| == h then Spent(h, f.trees[h - 1]) else []) + added
    ensures var f' := WithTree(f, h, t);
            Shape(fan, f') && DataOf(f') == DataOf(f) + [b] && PointersOf(f') == PointersOf(f) + added
  {
    WithTreeShape(fan, f, h, t);
    var had, hadSpent := if |f.trees| == h then Leaves(h, f.trees[h - 1])
        else [], if |f.trees| == h then Spent(h, f.trees[h - 1]) else [];
    LastReplaced(f.trees, WithTree(f, h, t).trees, h, t, had, [b], hadSpent, added);
    Reassociate(f.direct, UpTo(f.trees, |f.trees|), [b]);
  }

  /** The trees `ts'` are `ts` with `t` in place of the last one or behind it. */
  lemma {:induction false} LastReplaced(ts: seq<Ix>, ts': seq<Ix>, h: nat, t: Ix, had: seq<nat>, more: seq<nat>,
                                        hadSpent: seq<nat>, added: seq<nat>)
    requires h >= 1 && (|ts| == h || |ts| == h - 1) && |ts'| == h && ts'[h - 1] == t
             && forall k :: 0 <= k < h - 1 ==> ts'[k] == ts[k]
    requires had == (if |ts| == h then Leaves(h, ts[h - 1]) else []) && Leaves(h, t) == had + more
    requires hadSpent == (if |ts| == h then Spent(h, ts[h - 1]) else []) && Spent(h, t) == hadSpent + added
    ensures UpTo(ts', |ts'|) == UpTo(ts, |ts|) + more && SpentUpTo(ts', |ts'|) == SpentUpTo(ts, |ts|) + added
  {
    UpToPrefix(ts, ts', h - 1);
    var front, spent := UpTo(ts, h - 1), SpentUpTo(ts, h - 1);
    LastOf(ts, h, front, spent, had, hadSpent);
    LastGrown(ts', h, front, spent, had, more, hadSpent, added);
  }

  lemma {:induction false} LastGrown(ts: seq<Ix>, h: nat, front: seq<nat>, spent: seq<nat>, had: seq<nat>,
                                     more: seq<nat>, hadSpent: seq<nat>, added: seq<nat>)
    requires h >= 1 && |ts| == h && front == UpTo(ts, h - 1) && spent == SpentUpTo(ts, h - 1)
    requires Leaves(h, ts[h - 1]) == had + more && Spent(h, ts[h - 1]) == hadSpent + added
    ensures UpTo(ts, |ts|) == front + had + more && SpentUpTo(ts, |ts|) == spent + hadSpent + added
  {
    LastThere(ts, h);
    Reassociate(front, had, more);
    Reassociate(spent, hadSpent, added);
  }

  /** The blocks of a file whose last tree has height `h`, if it has got it. */
  lemma {:induction false} LastOf(ts: seq<Ix>, h: nat, front: seq<nat>, spent: seq<nat>, had: seq<nat>,
                                  hadSpent: seq<nat>)
    requires h >= 1 && (|ts| == h || |ts| == h - 1) && front == UpTo(ts, h - 1) && spent == SpentUpTo(ts, h - 1)
    requires had == (if |ts| == h then Leaves(h, ts[h - 1]) else [])
    requires hadSpent == (if |ts| == h then Spent(h, ts[h - 1]) else [])
    ensures UpTo(ts, |ts|) == front + had && SpentUpTo(ts, |ts|) == spent + hadSpent
  {
    if |ts| == h {
      LastThere(ts, h);
    } else {
      assert front + [] == front && spent + [] == spent;
    }
  }

  lemma {:induction false} LastThere(ts: seq<Ix>, h: nat)
    requires h >= 1 && |ts| == h
    ensures UpTo(ts, h) == UpTo(ts, h - 1) + Leaves(h, ts[h - 1])
    ensures SpentUpTo(ts, h) == SpentUpTo(ts, h - 1) + Spent(h, ts[h - 1])
  {
  }

  lemma {:induction false} WithTreeShape(fan: nat, f: File, h: nat, t: Ix)
    requires Shape(fan, f) && 1 <= h <= 3 && |f.direct| == DIRECT && (|f.trees| == h || |f.trees| == h - 1)
             && Packed(fan, h, t)
    requires forall k :: 0 <= k < h - 1 ==> Full(fan, k + 1, f.trees[k])
    ensures Shape(fan, WithTree(f, h, t))
  {
  }

  lemma {:induction false} Reassociate(a: seq<nat>, b: seq<nat>, c: seq<nat>)
    ensures a + (b + c) == (a + b) + c
  {
  }

  lemma {:induction false} Reassoc(a: seq<nat>, b: seq<nat>, c: seq<nat>, d: seq<nat>)
    ensures a + (b + (c + d)) == a + (b + c) + d && b + (c + d) == (b + c) + d
  {
  }

  // ----- lookup -----

  /** Block `n` of the file lies in the tree of height `h`, if `n` lies in its range. */
  lemma {:induction false} DataAt(fan: nat, f: File, h: nat, n: nat)
    requires Shape(fan, f) && fan > 0 && h >= 1 && Base(fan, h) <= n < Base(fan, h) + Cap(fan, h) && n < |DataOf(f)|
    ensures h <= |f.trees| && n - Base(fan, h) < |Leaves(h, f.trees[h - 1])|
    ensures DataOf(f)[n] == Leaves(h, f.trees[h - 1])[n - Base(fan, h)]
  {
    ShapeSize(fan, f);
    if h > 1 { BaseGrows(fan, 1, h); }
    var m := |f.trees|;
    if 0 < m < h { BaseGrows(fan, m, h); }
    UpToSize(fan, f.trees, h - 1);
    if h < m { FullLeaves(fan, h, f.trees[h - 1]); }
    DataIn(f, h, Base(fan, h), n);
  }

  /** Block `n`, if the tree of height `h` has the blocks from `base` on. */
  lemma {:induction false} DataIn(f: File, h: nat, base: nat, n: nat)
    requires 1 <= h <= |f.trees| && |f.direct| == DIRECT && base == DIRECT + |UpTo(f.trees, h - 1)|
             && base <= n < base + |Leaves(h, f.trees[h - 1])|
    ensures n < |DataOf(f)| && DataOf(f)[n] == Leaves(h, f.trees[h - 1])[n - base]
  {
    UpToLonger(f.trees, h, |f.trees|);
    assert UpTo(f.trees, |f.trees|)[n - DIRECT] == UpTo(f.trees, h)[n - DIRECT];
  }

  lemma {:induction false} UpToLonger(ts: seq<Ix>, h: nat, m: nat)
    requires h <= m <= |ts|
    ensures |UpTo(ts, h)| <= |UpTo(ts, m)| && UpTo(ts, m)[..|UpTo(ts, h)|] == UpTo(ts, h)
  {
    if h < m {
      UpToLonger(ts, h, m - 1);
      var a, b := UpTo(ts, m - 1), Leaves(m, ts[m - 1]);
      assert (a + b)[..|UpTo(ts, h)|] == a[..|UpTo(ts, h)|];
    }
  }

  lemma {:induction false} Caps(fan: nat)
    ensures Cap(fan, 0) == 1 && Cap(fan, 1) == fan && Cap(fan, 2) == fan * fan
    ensures Base(fan, 1) == DIRECT && Base(fan, 2) == DIRECT + fan && Base(fan, 3) == DIRECT + fan + fan * fan
  {
    assert fan * 1 == fan;
    assert Cap(fan, 2) == fan * Cap(fan, 1);
    assert Base(fan, 3) == Base(fan, 2) + Cap(fan, 2);
  }

  /** One step of the walk from a tree of height `h` to its block `i`: the pointer read leads to the right subtree. */
  lemma {:induction false} WalkStep(d: seq<Block>, fan: nat, h: nat, t: Ix, i: nat, q: nat, r: nat)
    requires h > 0 && Stores(d, h, t) && Packed(fan, h, t) && i < |Leaves(h, t)| && i == q * Cap(fan, h - 1) + r
             && r < Cap(fan, h - 1)
    ensures q < |t.kids| && t.b < |d| && 4 * q + 3 < |d[t.b]|
    ensures var u := t.kids[q];
            && Word(d[t.b], q) == u.b && Stores(d, h - 1, u) && Packed(fan, h - 1, u)
            && r < |Leaves(h - 1, u)| && Leaves(h, t)[i] == Leaves(h - 1, u)[r]
  {
    LeafAt(fan, h, t, i, q, r);
  }

  /** Where block `n` of a file is found. */
  lemma {:induction false} FileAt(fan: nat, f: File, n: nat)
    requires Shape(fan, f) && fan > 0 && n < |DataOf(f)|
    ensures n < DIRECT ==> n < |f.direct| && DataOf(f)[n] == f.direct[n]
    ensures var x := n - DIRECT;
            0 <= x < fan ==> |f.trees| >= 1 && x < |Leaves(1, f.trees[0])| && DataOf(f)[n] == Leaves(1, f.trees[0])[x]
    ensures var x := n - DIRECT - fan;
            0 <= x < fan * fan ==> |f.trees| >= 2 && x < |Leaves(2, f.trees[1])|
                                   && DataOf(f)[n] == Leaves(2, f.trees[1])[x]
    ensures var x := n - DIRECT - fan - fan * fan;
            0 <= x ==> |f.trees| >= 3 && x < |Leaves(3, f.trees[2])| && DataOf(f)[n] == Leaves(3, f.trees[2])[x]
  {
    Caps(fan);
    ShapeSize(fan, f);
    BaseGrows(fan, 1, 3);
    BaseGrows(fan, 2, 3);
    CapPositive(fan, 3);
    if n >= Base(fan, 3) {
      DataAt(fan, f, 3, n);
    } else if n >= Base(fan, 2) {
      DataAt(fan, f, 2, n);
    } else if n >= DIRECT {
      DataAt(fan, f, 1, n);
    }
  }

  /** The number of the first block of the tree of height `h`, by the sizes of the two before it. */
  function FirstOf(fan: nat, double: nat, h: nat): nat {
    DIRECT + (if h > 1 then fan else 0) + if h > 2 then double else 0
  }

  /** Block `n` is block `x` of the tree of height `h`. */
  lemma {:induction false} InTree(fan: nat, double: nat, f: File, n: nat, h: nat, x: nat)
    requires Shape(fan, f) && fan > 0 && n < |DataOf(f)| && double == fan * fan && 1 <= h <= 3
    requires n == FirstOf(fan, double, h) + x && (h == 1 ==> x < fan) && (h == 2 ==> x < double)
    ensures h <= |f.trees| && x < |Leaves(h, f.trees[h - 1])| && DataOf(f)[n] == Leaves(h, f.trees[h - 1])[x]
  {
    FirstIs(fan, double, f, n, h, x);
    DataAt(fan, f, h, n);
  }

  lemma {:induction false} FirstIs(fan: nat, double: nat, f: File, n: nat, h: nat, x: nat)
    requires Shape(fan, f) && fan > 0 && n < |DataOf(f)| && double == fan * fan && 1 <= h <= 3
    requires n == FirstOf(fan, double, h) + x && (h == 1 ==> x < fan) && (h == 2 ==> x < double)
    ensures Base(fan, h) == FirstOf(fan, double, h) && n < Base(fan, h) + Cap(fan, h)
  {
    FileReach(fan, f, n);
  }

  /** How far the three trees reach. */
  lemma {:induction false} FileReach(fan: nat, f: File, n: nat)
    requires Shape(fan, f) && fan > 0 && n < |DataOf(f)|
    ensures Base(fan, 1) == DIRECT && Base(fan, 2) == DIRECT + fan && Base(fan, 3) == DIRECT + fan + fan * fan
    ensures n < Base(fan, 3) + Cap(fan, 3) && Base(fan, 1) + Cap(fan, 1) == Base(fan, 2)
            && Base(fan, 2) + Cap(fan, 2) == Base(fan, 3)
  {
    Caps(fan);
    ShapeSize(fan, f);
    BaseGrows(fan, 1, 3);
    BaseGrows(fan, 2, 3);
    CapPositive(fan, 3);
    CapPositive(fan, 2);
    CapPositive(fan, 1);
  }

  lemma {:induction false} NoTree(fan: nat, f: File)
    requires Shape(fan, f) && fan > 0 && |DataOf(f)| <= DIRECT
    ensures f.trees == [] && DataOf(f) == f.direct
  {
    ShapeSize(fan, f);
  }
}
