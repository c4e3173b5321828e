/** Taking blocks off the end of a file. */
module BlockCut {
  import opened Arith
  import opened IndexTree
  import opened BlockMap

  // ----- trees -----

  /** The tree without its last block, where it has another one. */
  function Dropped(h: nat, t: Ix): Ix
    requires t.Pointers? && t.kids != []
    decreases h
  {
    var n := |t.kids| - 1;
    if h <= 1 || |Leaves(h - 1, Last(t))| <= 1 || !Last(t).Pointers?
        || Last(t).kids == [] then Pointers(t.b, t.kids[..n])
    else Pointers(t.b, t.kids[..n] + [Dropped(h - 1, Last(t))])
  }

  /** The blocks of pointers whose first pointer leads to the last block; they are no longer needed without it. */
  function Gone(h: nat, t: Ix): seq<nat>
    decreases h
  {
    if h == 0 || !t.Pointers? || t.kids == [] then []
        else (if |Leaves(h, t)| == 1 then [t.b] else []) + Gone(h - 1, Last(t))
  }

  lemma {:induction false} OneLeaf(fan: nat, h: nat, t: Ix)
    requires Packed(fan, h, t) && |Leaves(h, t)| == 1
    ensures Spent(h, t) == Gone(h, t)
    ensures h > 0 ==> |t.kids| == 1 && |Leaves(h - 1, t.kids[0])| == 1
    decreases h
  {
    if h > 0 {
      var n := |t.kids| - 1;
      PackedLeaves(fan, h, t);
      PackedLeaves(fan, h - 1, t.kids[n]);
      if n > 0 {
        FullLeaves(fan, h - 1, t.kids[0]);
        MulAtLeast(n, Cap(fan, h - 1));
      }
      OneLeaf(fan, h - 1, t.kids[0]);
      assert AllSpent(h - 1, t.kids) == AllSpent(h - 1, t.kids[..0]) + Spent(h - 1, t.kids[0]);
      assert AllSpent(h - 1, t.kids[..0]) == [];
    }
  }

  /** `u` is `t` without its last block, and `gone` without the blocks of pointers that led to it alone. */
  ghost predicate Shorter(fan: nat, h: nat, t: Ix, u: Ix, gone: seq<nat>) {
    && Packed(fan, h, u) && Extends(h, u, t)
    && Leaves(h, t) != [] && Leaves(h, t) == Leaves(h, u) + [Leaves(h, t)[|Leaves(h, t)| - 1]]
    && Spent(h, t) == Spent(h, u) + gone
  }

  lemma {:induction false} DropChild(fan: nat, h: nat, g: nat, t: Ix)
    requires h == g + 1 && Packed(fan, h, t) && |Leaves(h, t)| > 1 && |Leaves(g, Last(t))| == 1
    ensures Shorter(fan, h, t, Pointers(t.b, t.kids[..|t.kids| - 1]), Gone(g, Last(t)))
  {
    var n, u := |t.kids| - 1, Last(t);
    PackedLeaves(fan, h, t);
    OneLeaf(fan, g, u);
    LastFull(fan, h, t, n);
    SpentSplit(g, t.b, t.kids[..n], u);
  }

  lemma {:induction false} SpentSplit(g: nat, b: nat, a: seq<Ix>, u: Ix)
    ensures Spent(g + 1, Pointers(b, a + [u])) == Spent(g + 1, Pointers(b, a)) + Spent(g, u)
    ensures Leaves(g + 1, Pointers(b, a + [u])) == Leaves(g + 1, Pointers(b, a)) + Leaves(g, u)
  {
    assert (a + [u])[..|a|] == a;
  }

  lemma {:induction false} PackedBelow(fan: nat, h: nat, g: nat, b: nat, a: seq<Ix>, u: Ix, v: Ix)
    requires h == g + 1 && Packed(fan, h, Pointers(b, a + [u])) && Packed(fan, g, v)
    ensures Packed(fan, h, Pointers(b, a + [v]))
  {
    var t := Pointers(b, a + [u]);
    forall i | 0 <= i < |a| ensures Full(fan, g, (a + [v])[i]) { assert t.kids[i] == a[i]; }
  }

  lemma {:induction false} ExtendsBelow(h: nat, g: nat, b: nat, a: seq<Ix>, u: Ix, v: Ix)
    requires h == g + 1 && Extends(g, v, u)
    ensures Extends(h, Pointers(b, a + [v]), Pointers(b, a + [u]))
  {
    forall i | 0 <= i < |a| + 1 ensures Extends(g, (a + [v])[i], (a + [u])[i]) { }
  }

  lemma {:induction false} LeavesBelow(g: nat, b: nat, a: seq<Ix>, u: Ix, v: Ix, e: nat, gone: seq<nat>)
    requires Leaves(g, u) == Leaves(g, v) + [e] && Spent(g, u) == Spent(g, v) + gone
    ensures var w := Leaves(g + 1, Pointers(b, a + [u]));
            w != [] && w[|w| - 1] == e && w == Leaves(g + 1, Pointers(b, a + [v])) + [e]
    ensures Spent(g + 1, Pointers(b, a + [u])) == Spent(g + 1, Pointers(b, a + [v])) + gone
  {
    SpentSplit(g, b, a, u);
    SpentSplit(g, b, a, v);
    SnocAssoc(Leaves(g + 1, Pointers(b, a)), Leaves(g, v), e);
    Rejoin(Spent(g + 1, Pointers(b, a)), Spent(g, v), gone);
  }

  lemma {:induction false} DropBelow(fan: nat, h: nat, g: nat, b: nat, a: seq<Ix>, u: Ix, v: Ix, gone: seq<nat>)
    requires h == g + 1 && Packed(fan, h, Pointers(b, a + [u])) && Shorter(fan, g, u, v, gone)
    ensures Shorter(fan, h, Pointers(b, a + [u]), Pointers(b, a + [v]), gone)
  {
    PackedBelow(fan, h, g, b, a, u, v);
    ExtendsBelow(h, g, b, a, u, v);
    LeavesBelow(g, b, a, u, v, Leaves(g, u)[|Leaves(g, u)| - 1], gone);
  }

  lemma {:induction false} SnocAssoc(x: seq<nat>, y: seq<nat>, e: nat)
    ensures var w := x + (y + [e]); w == (x + y) + [e] && w != [] && w[|w| - 1] == e
  {
  }

  lemma {:induction false} DropDeep(fan: nat, h: nat, g: nat, t: Ix)
    requires h == g + 1 && g > 0 && Packed(fan, h, t) && Packed(fan, g, Last(t)) && |Leaves(g, Last(t))| > 1
             && Shorter(fan, g, Last(t), Dropped(g, Last(t)), Gone(g, Last(t)))
    requires |Leaves(h, t)| != 1
    ensures Shorter(fan, h, t, Dropped(h, t), Gone(h, t))
  {
    var a := t.kids[..|t.kids| - 1];
    assert t == Pointers(t.b, a + [Last(t)]);
    DropBelow(fan, h, g, t.b, a, Last(t), Dropped(g, Last(t)), Gone(g, Last(t)));
    DroppedDeep(h, g, t, a);
  }

  lemma {:induction false} DroppedDeep(h: nat, g: nat, t: Ix, a: seq<Ix>)
    requires h == g + 1 && g > 0 && t.Pointers? && t.kids != [] && Last(t).Pointers? && Last(t).kids != []
             && a == t.kids[..|t.kids| - 1]
    requires |Leaves(g, Last(t))| > 1 && |Leaves(h, t)| != 1
    ensures Dropped(h, t) == Pointers(t.b, a + [Dropped(g, Last(t))]) && Gone(h, t) == Gone(g, Last(t))
  {
    assert [] + Gone(g, Last(t)) == Gone(g, Last(t));
  }

  lemma {:induction false} DropIs(fan: nat, h: nat, t: Ix)
    requires h > 0 && Packed(fan, h, t) && |Leaves(h, t)| > 1
    ensures Shorter(fan, h, t, Dropped(h, t), Gone(h, t))
    decreases h
  {
    var g := h - 1;
    PackedLeaves(fan, g, Last(t));
    if |Leaves(g, Last(t))| == 1 {
      DropChild(fan, h, g, t);
      assert [] + Gone(g, Last(t)) == Gone(g, Last(t));
    } else {
      DropIs(fan, g, Last(t));
      DropDeep(fan, h, g, t);
    }
  }

  lemma {:induction false} LastFull(fan: nat, h: nat, t: Ix, n: nat)
    requires h > 0 && Packed(fan, h, t) && 0 < n == |t.kids| - 1
    ensures Packed(fan, h, Pointers(t.b, t.kids[..n]))
  {
    FullPacked(fan, h - 1, t.kids[n - 1]);
  }

  /** Where the last block is found: below the last child, by number `q`, as its block `r`. */
  lemma {:induction false} LastCount(fan: nat, h: nat, g: nat, t: Ix, q: nat, r: nat)
    requires h == g + 1 && Packed(fan, h, t) && |Leaves(h, t)| == q * Cap(fan, g) + r + 1 && r < Cap(fan, g)
    ensures |t.kids| == q + 1 && |Leaves(g, Last(t))| == r + 1 && Packed(fan, g, Last(t))
  {
    PackedLeaves(fan, h, t);
    PackedLeaves(fan, g, Last(t));
    DivModIs(q * Cap(fan, g) + r, |t.kids| - 1, |Leaves(g, Last(t))| - 1, Cap(fan, g));
    DivModIs(q * Cap(fan, g) + r, q, r, Cap(fan, g));
  }

  // ----- files -----

  /** The file without its last block, and the blocks of pointers it then does without. */
  function Cut(f: File): File {
    if f.trees == [] then
      if f.direct == [] then f else File(f.direct[..|f.direct| - 1], [])
    else
      var h := |f.trees|;
      var t := f.trees[h - 1];
      if |Leaves(h, t)| <= 1 || !t.Pointers? || t.kids == [] then File(f.direct, f.trees[..h - 1])
          else File(f.direct, f.trees[..h - 1] + [Dropped(h, t)])
  }

  function GoneOf(f: File): seq<nat> { if f.trees == [] then [] else Gone(|f.trees|, f.trees[|f.trees| - 1]) }

  lemma {:induction false} CutIs(fan: nat, f: File)
    requires Shape(fan, f) && DataOf(f) != []
    ensures Shape(fan, Cut(f)) && DataOf(f) == DataOf(Cut(f)) + [DataOf(f)[|DataOf(f)| - 1]]
            && PointersOf(f) == PointersOf(Cut(f)) + GoneOf(f)
  {
    if f.trees == [] {
      var n := |f.direct| - 1;
      assert DataOf(f) == f.direct && DataOf(Cut(f)) == f.direct[..n] + UpTo([], 0);
      assert f.direct == f.direct[..n] + [f.direct[n]];
    } else {
      var h := |f.trees|;
      var t := f.trees[h - 1];
      var had := UpTo(f.trees, h - 1);
      PackedLeaves(fan, h, t);
      UpToPrefix(f.trees, Cut(f).trees, h - 1);
      if |Leaves(h, t)| == 1 {
        OneLeaf(fan, h, t);
        SnocAssoc(f.direct, had, Leaves(h, t)[0]);
        assert Leaves(h, t) == [Leaves(h, t)[0]];
      } else {
        DropIs(fan, h, t);
        CutTree(fan, f, h, t);
      }
    }
  }

  lemma {:induction false} CutTree(fan: nat, f: File, h: nat, t: Ix)
    requires Shape(fan, f) && h == |f.trees| > 0 && t == f.trees[h - 1] && Shorter(fan, h, t, Dropped(h, t), Gone(h, t))
             && |Leaves(h, t)| > 1
    ensures Shape(fan, Cut(f)) && DataOf(f) == DataOf(Cut(f)) + [DataOf(f)[|DataOf(f)| - 1]]
            && PointersOf(f) == PointersOf(Cut(f)) + GoneOf(f)
  {
    var f' := File(f.direct, f.trees[..h - 1] + [Dropped(h, t)]);
    assert Cut(f) == f';
    CutShape(fan, f, f', h, Dropped(h, t));
    CutData(f, f', h, t, Dropped(h, t), Leaves(h, t)[|Leaves(h, t)| - 1]);
    CutPointers(f, f', h, t, Dropped(h, t), Gone(h, t));
  }

  lemma {:induction false} CutShape(fan: nat, f: File, f': File, h: nat, u: Ix)
    requires Shape(fan, f) && h == |f.trees| > 0 && f' == File(f.direct, f.trees[..h - 1] + [u]) && Packed(fan, h, u)
    ensures Shape(fan, f')
  {
  }

  lemma {:induction false} CutData(f: File, f': File, h: nat, t: Ix, u: Ix, last: nat)
    requires h == |f.trees| > 0 && t == f.trees[h - 1] && f' == File(f.direct, f.trees[..h - 1] + [u])
             && Leaves(h, t) == Leaves(h, u) + [last]
    ensures DataOf(f) == DataOf(f') + [last] && DataOf(f)[|DataOf(f)| - 1] == last
  {
    var had := UpTo(f.trees, h - 1);
    UpToPrefix(f.trees, f'.trees, h - 1);
    SnocAssoc(had, Leaves(h, u), last);
    SnocAssoc(f.direct, had + Leaves(h, u), last);
  }

  lemma {:induction false} CutPointers(f: File, f': File, h: nat, t: Ix, u: Ix, gone: seq<nat>)
    requires h == |f.trees| > 0 && t == f.trees[h - 1] && f' == File(f.direct, f.trees[..h - 1] + [u])
             && Spent(h, t) == Spent(h, u) + gone
    ensures PointersOf(f) == PointersOf(f') + gone
  {
    UpToPrefix(f.trees, f'.trees, h - 1);
    Rejoin(SpentUpTo(f.trees, h - 1), Spent(h, u), gone);
  }

  lemma {:induction false} TakeFirst(a: seq<nat>, b: seq<nat>, n: nat)
    requires n <= |a|
    ensures (a + b)[..n] == a[..n]
  {
  }

  // ----- files of the same length have as many blocks of pointers -----

  lemma {:induction false} FullNodes(fan: nat, h: nat, ts: seq<Ix>, us: seq<Ix>)
    requires |ts| == |us| && forall k :: 0 <= k < |ts| ==> Full(fan, h, ts[k]) && Full(fan, h, us[k])
    ensures |AllSpent(h, ts)| == |AllSpent(h, us)|
    decreases h, |ts|
  {
    if ts != [] {
      var n := |ts| - 1;
      FullNodes(fan, h, ts[..n], us[..n]);
      if h > 0 { FullNodes(fan, h - 1, ts[n].kids, us[n].kids); }
    }
  }

  lemma {:induction false} PackedNodes(fan: nat, h: nat, t: Ix, u: Ix)
    requires Packed(fan, h, t) && Packed(fan, h, u) && |Leaves(h, t)| == |Leaves(h, u)|
    ensures |Spent(h, t)| == |Spent(h, u)|
    decreases h
  {
    if h > 0 {
      var g, n, k := h - 1, |t.kids| - 1, |u.kids| - 1;
      PackedLeaves(fan, h, t);
      PackedLeaves(fan, g, Last(t));
      PackedLeaves(fan, h, u);
      PackedLeaves(fan, g, Last(u));
      SameSplit(n, |Leaves(g, Last(t))|, k, |Leaves(g, Last(u))|, Cap(fan, g));
      FullNodes(fan, g, t.kids[..n], u.kids[..n]);
      PackedNodes(fan, g, Last(t), Last(u));
    }
  }

  lemma {:induction false} SameSplit(n: nat, m: nat, n': nat, m': nat, c: nat)
    requires n * c + m == n' * c + m' && 0 < m <= c && 0 < m' <= c
    ensures n == n' && m == m'
  {
    DivModIs(n * c + (m - 1), n, m - 1, c);
    DivModIs(n * c + (m - 1), n', m' - 1, c);
  }

  lemma {:induction false} SameHeight(fan: nat, f: File, g: File)
    requires fan > 0 && Shape(fan, f) && Shape(fan, g) && |DataOf(f)| == |DataOf(g)|
    ensures |f.trees| == |g.trees|
    ensures f.trees != [] ==> var h := |f.trees|; |Leaves(h, f.trees[h - 1])| == |Leaves(h, g.trees[h - 1])|
  {
    ShapeSize(fan, f);
    ShapeSize(fan, g);
    var h, k := |f.trees|, |g.trees|;
    if 0 < h < k { BaseGrows(fan, h, k); }
    if 0 < k < h { BaseGrows(fan, k, h); }
    if 1 < k { BaseGrows(fan, 1, k); }
    if 1 < h { BaseGrows(fan, 1, h); }
  }

  lemma {:induction false} SpentSize(fan: nat, ts: seq<Ix>, us: seq<Ix>, h: nat)
    requires h <= |ts| && h <= |us| && forall k :: 0 <= k < h ==> Full(fan, k + 1, ts[k]) && Full(fan, k + 1, us[k])
    ensures |SpentUpTo(ts, h)| == |SpentUpTo(us, h)|
  {
    if h > 0 {
      SpentSize(fan, ts, us, h - 1);
      FullSpent(fan, h, ts[h - 1], us[h - 1]);
    }
  }

  lemma {:induction false} FullSpent(fan: nat, h: nat, t: Ix, u: Ix)
    requires Full(fan, h, t) && Full(fan, h, u)
    ensures |Spent(h, t)| == |Spent(h, u)|
  {
    if h > 0 { FullNodes(fan, h - 1, t.kids, u.kids); }
  }

  lemma {:induction false} SamePointers(fan: nat, f: File, g: File)
    requires fan > 0 && Shape(fan, f) && Shape(fan, g) && |DataOf(f)| == |DataOf(g)|
    ensures |PointersOf(f)| == |PointersOf(g)|
  {
    SameHeight(fan, f, g);
    var h := |f.trees|;
    if h > 0 {
      SpentSize(fan, f.trees, g.trees, h - 1);
      PackedNodes(fan, h, f.trees[h - 1], g.trees[h - 1]);
    }
  }

  /** The tree that holds the last block, by its number. */
  lemma {:induction false} LastTree(fan: nat, f: File, h: nat, n: nat)
    requires Shape(fan, f) && fan > 0 && h >= 1 && |DataOf(f)| == n + 1
             && Base(fan, h) <= n < Base(fan, h) + Cap(fan, h)
    ensures |f.trees| == h && |Leaves(h, f.trees[h - 1])| == n + 1 - Base(fan, h)
  {
    ShapeSize(fan, f);
    var m := |f.trees|;
    if h > 1 { BaseGrows(fan, 1, h); }
    if 0 < m < h { BaseGrows(fan, m, h); }
    if h < m { BaseGrows(fan, h, m); }
  }
}
