/** The indirect blocks of a file as trees: a node is a block of pointers, a leaf is a data block. */
module IndexTree {
  import opened Arith

  /** The disk block `b`, and what its pointers lead to. */
  datatype Ix = Data(b: nat) | Pointers(b: nat, kids: seq<Ix>)

  /** How many data blocks a tree of height `h` can hold. */
  function Cap(fan: nat, h: nat): nat { if h == 0 then 1 else fan * Cap(fan, h - 1) }

  /** The data blocks of a tree of height `h`, in order. */
  function Leaves(h: nat, t: Ix): seq<nat>
    decreases h, 0
  {
    match t
    case Data(b) => [b]
    case Pointers(_, kids) => if h == 0 then [] else AllLeaves(h - 1, kids)
  }

  function AllLeaves(h: nat, ts: seq<Ix>): seq<nat>
    decreases h, 1, |ts|
  {
    if ts == [] then [] else AllLeaves(h, ts[..|ts| - 1]) + Leaves(h, ts[|ts| - 1])
  }

  /** The blocks of pointers of a tree, a block before those it points to. */
  function Spent(h: nat, t: Ix): seq<nat>
    decreases h, 0
  {
    match t
    case Data(_) => []
    case Pointers(b, kids) => [b] + if h == 0 then [] else AllSpent(h - 1, kids)
  }

  function AllSpent(h: nat, ts: seq<Ix>): seq<nat>
    decreases h, 1, |ts|
  {
    if ts == [] then [] else AllSpent(h, ts[..|ts| - 1]) + Spent(h, ts[|ts| - 1])
  }

  // ----- shape -----

  /** Height `h`, and filled from the left without a gap. */
  predicate Packed(fan: nat, h: nat, t: Ix)
    decreases h
  {
    if h == 0 then t.Data?
    else
      && t.Pointers? && 0 < |t.kids| <= fan
      && (forall i :: 0 <= i < |t.kids| - 1 ==> Full(fan, h - 1, t.kids[i]))
      && Packed(fan, h - 1, t.kids[|t.kids| - 1])
  }

  predicate Full(fan: nat, h: nat, t: Ix)
    decreases h
  {
    if h == 0 then t.Data?
    else t.Pointers? && |t.kids| == fan && forall i :: 0 <= i < |t.kids| ==> Full(fan, h - 1, t.kids[i])
  }

  lemma {:induction false} FullLeaves(fan: nat, h: nat, t: Ix)
    requires Full(fan, h, t)
    ensures |Leaves(h, t)| == Cap(fan, h)
    decreases h, 0
  {
    if h > 0 { FullAll(fan, h - 1, t.kids); }
  }

  lemma {:induction false} FullAll(fan: nat, h: nat, ts: seq<Ix>)
    requires forall i :: 0 <= i < |ts| ==> Full(fan, h, ts[i])
    ensures |AllLeaves(h, ts)| == |ts| * Cap(fan, h)
    decreases h, 1, |ts|
  {
    if ts != [] {
      var n := |ts| - 1;
      FullAll(fan, h, ts[..n]);
      FullLeaves(fan, h, ts[n]);
      assert (n + 1) * Cap(fan, h) == n * Cap(fan, h) + Cap(fan, h);
    }
  }

  /** How many blocks a packed tree holds, by its last child. */
  lemma {:induction false} PackedLeaves(fan: nat, h: nat, t: Ix)
    requires Packed(fan, h, t)
    ensures 0 < |Leaves(h, t)| <= Cap(fan, h)
    ensures |Leaves(h, t)| == Cap(fan, h) <==> Full(fan, h, t)
    ensures h > 0 ==> var n := |t.kids| - 1;
                      Leaves(h, t) == AllLeaves(h - 1, t.kids[..n]) + Leaves(h - 1, t.kids[n])
                          && |AllLeaves(h - 1, t.kids[..n])| == n * Cap(fan, h - 1)
  {
    if h > 0 {
      var n, c := |t.kids| - 1, Cap(fan, h - 1);
      FullAll(fan, h - 1, t.kids[..n]);
      PackedLeaves(fan, h - 1, t.kids[n]);
      FillUp(n, fan, c, |Leaves(h - 1, t.kids[n])|);
      if Full(fan, h - 1, t.kids[n]) {
        assert |t.kids| == fan ==> Full(fan, h, t);
      }
    }
  }

  lemma {:induction false} FillUp(n: nat, fan: nat, c: nat, m: nat)
    requires n < fan && 0 < m <= c
    ensures 0 < n * c + m <= fan * c
    ensures n * c + m == fan * c <==> n + 1 == fan && m == c
  {
    assert (n + 1) * c == n * c + c;
    if n + 1 < fan {
      assert fan * c == (n + 1) * c + (fan - n - 1) * c;
      assert (fan - n - 1) * c >= c by { MulAtLeast(fan - n - 1, c); }
    }
  }

  // ----- lookup -----

  lemma {:induction false} FullPrefixAt(fan: nat, h: nat, ts: seq<Ix>, q: nat, r: nat)
    requires forall k :: 0 <= k < |ts| ==> Full(fan, h, ts[k])
    requires q < |ts| && r < Cap(fan, h)
    ensures var i := q * Cap(fan, h) + r;
            r < |Leaves(h, ts[q])| && i < |AllLeaves(h, ts)| && AllLeaves(h, ts)[i] == Leaves(h, ts[q])[r]
    decreases |ts|
  {
    var n, c := |ts| - 1, Cap(fan, h);
    FullAll(fan, h, ts);
    FullAll(fan, h, ts[..n]);
    FullLeaves(fan, h, ts[q]);
    MulStep(q, |ts|, c);
    if q < n {
      FullPrefixAt(fan, h, ts[..n], q, r);
    }
  }

  /** Block `i` is found below the child that a division by the capacity of a child selects. */
  lemma {:induction false} LeafAt(fan: nat, h: nat, t: Ix, i: nat, q: nat, r: nat)
    requires h > 0 && Packed(fan, h, t) && i < |Leaves(h, t)| && i == q * Cap(fan, h - 1) + r && r < Cap(fan, h - 1)
    ensures q < |t.kids| && Packed(fan, h - 1, t.kids[q]) && r < |Leaves(h - 1, t.kids[q])|
    ensures Leaves(h, t)[i] == Leaves(h - 1, t.kids[q])[r]
  {
    var n, c := |t.kids| - 1, Cap(fan, h - 1);
    PackedLeaves(fan, h, t);
    PackedLeaves(fan, h - 1, t.kids[n]);
    if q < n {
      FullPrefixAt(fan, h - 1, t.kids[..n], q, r);
      assert t.kids[..n][q] == t.kids[q];
      FullPacked(fan, h - 1, t.kids[q]);
    } else if n < q {
      MulStep(n, q, c);
    }
  }

  lemma {:induction false} FullPacked(fan: nat, h: nat, t: Ix)
    requires Full(fan, h, t) && (h > 0 ==> fan > 0)
    ensures Packed(fan, h, t)
    decreases h
  {
    if h > 0 { FullPacked(fan, h - 1, t.kids[fan - 1]); }
  }

  // ----- the right spine -----

  function Last(t: Ix): Ix
    requires t.Pointers? && t.kids != []
  {
    t.kids[|t.kids| - 1]
  }

  /** The tree has blocks of pointers on its right edge down to level `depth`. */
  predicate Spine(t: Ix, depth: nat) { t.Pointers? && (depth > 0 ==> t.kids != [] && Spine(Last(t), depth - 1)) }

  function At(t: Ix, depth: nat): (r: Ix)
    requires Spine(t, depth)
    ensures r.Pointers?
  {
    if depth == 0 then t else At(Last(t), depth - 1)
  }

  /** A further child for the block of pointers at level `depth` of the right edge. */
  function AddKid(t: Ix, depth: nat, kid: Ix): Ix
    requires Spine(t, depth)
  {
    if depth == 0 then Pointers(t.b, t.kids + [kid])
    else Pointers(t.b, t.kids[..|t.kids| - 1] + [AddKid(Last(t), depth - 1, kid)])
  }

  lemma {:induction false} AddedLeaves(h: nat, t: Ix, depth: nat, kid: Ix)
    requires Spine(t, depth) && depth < h
    ensures Leaves(h, AddKid(t, depth, kid)) == Leaves(h, t) + Leaves(h - 1 - depth, kid)
    ensures Spent(h, AddKid(t, depth, kid)) == Spent(h, t) + Spent(h - 1 - depth, kid)
    decreases depth
  {
    if depth == 0 {
      OneMoreKid(h - 1, t.kids, kid);
      Rejoin([t.b], AllSpent(h - 1, t.kids), Spent(h - 1, kid));
    } else {
      var n, u := |t.kids| - 1, AddKid(Last(t), depth - 1, kid);
      AddedLeaves(h - 1, Last(t), depth - 1, kid);
      OneMoreKid(h - 1, t.kids[..n], u);
      Rejoin(AllLeaves(h - 1, t.kids[..n]), Leaves(h - 1, Last(t)), Leaves(h - 1 - depth, kid));
      Rejoin(AllSpent(h - 1, t.kids[..n]), Spent(h - 1, Last(t)), Spent(h - 1 - depth, kid));
      Rejoin([t.b], AllSpent(h - 1, t.kids), Spent(h - 1 - depth, kid));
    }
  }

  lemma {:induction false} OneMoreKid(h: nat, ts: seq<Ix>, u: Ix)
    ensures AllLeaves(h, ts + [u]) == AllLeaves(h, ts) + Leaves(h, u)
            && AllSpent(h, ts + [u]) == AllSpent(h, ts) + Spent(h, u)
  {
    assert (ts + [u])[..|ts|] == ts;
  }

  lemma {:induction false} Rejoin(a: seq<nat>, b: seq<nat>, c: seq<nat>)
    ensures (a + b) + c == a + (b + c)
  {
  }

  // ----- where there is room -----

  /** The number of children follows from the number of blocks. */
  lemma {:induction false} KidCount(fan: nat, h: nat, t: Ix, q: nat, r: nat)
    requires h > 0 && Packed(fan, h, t) && |Leaves(h, t)| == q * Cap(fan, h - 1) + r && r < Cap(fan, h - 1)
    ensures if r == 0 then |t.kids| == q && Full(fan, h - 1, Last(t))
            else |t.kids| == q + 1 && |Leaves(h - 1, Last(t))| == r
    ensures |Leaves(h, t)| < Cap(fan, h) ==> q < fan
  {
    var n, c := |t.kids| - 1, Cap(fan, h - 1);
    PackedLeaves(fan, h, t);
    PackedLeaves(fan, h - 1, t.kids[n]);
    OneSplit(n, |Leaves(h - 1, t.kids[n])|, q, r, c);
    if fan <= q { MulUp(fan, c, q, c); }
  }

  lemma {:induction false} OneSplit(n: nat, m: nat, q: nat, r: nat, c: nat)
    requires n * c + m == q * c + r && 0 < m <= c && r < c
    ensures if r == 0 then q == n + 1 && m == c else q == n && m == r
  {
    assert (n + 1) * c == n * c + c;
    if q > n + 1 { MulStep(n + 1, q, c); }
    if q < n { MulStep(q, n, c); }
  }

  // ----- trees under construction -----

  /** Packed, except that the block of pointers at level `depth` of the right edge may still be empty. */
  predicate Loose(fan: nat, h: nat, t: Ix, depth: nat)
    requires Spine(t, depth) && depth < h
    decreases depth
  {
    if depth == 0 then t.kids == [] || Packed(fan, h, t)
    else
      && |t.kids| <= fan && (forall i :: 0 <= i < |t.kids| - 1 ==> Full(fan, h - 1, t.kids[i]))
      && Loose(fan, h - 1, Last(t), depth - 1)
  }

  /** How many blocks the tree holds below level `depth` of the right edge. */
  function Held(h: nat, t: Ix, depth: nat): nat
    requires Spine(t, depth) && depth < h
  {
    |Leaves(h - depth, At(t, depth))|
  }

  /** The block at that level has room exactly if its children are full: it takes a further one, by number `q`. */
  predicate Room(fan: nat, h: nat, t: Ix, depth: nat, q: nat)
    requires Spine(t, depth) && depth < h
  {
    var u := At(t, depth);
    |u.kids| == q < fan && forall k :: 0 <= k < |u.kids| ==> Full(fan, h - depth - 1, u.kids[k])
  }

  /** What division by the capacity of a child says about the children at that level. */
  lemma {:induction false} LooseCount(fan: nat, h: nat, t: Ix, depth: nat, g: nat, q: nat, r: nat)
    requires Spine(t, depth) && depth + 1 + g == h && Loose(fan, h, t, depth) && Held(h, t, depth) < Cap(fan, g + 1)
    requires Held(h, t, depth) == q * Cap(fan, g) + r && r < Cap(fan, g)
    ensures r == 0 ==> Room(fan, h, t, depth, q)
    ensures r > 0 ==> |At(t, depth).kids| == q + 1 && Packed(fan, g, Last(At(t, depth)))
                      && |Leaves(g, Last(At(t, depth)))| == r && q < fan
    decreases depth
  {
    if depth > 0 {
      LooseCount(fan, h - 1, Last(t), depth - 1, g, q, r);
    } else if t.kids == [] {
      NoLeaves(h, t);
      EmptyCount(fan, g, q, r);
    } else {
      KidCount(fan, h, t, q, r);
      PackedLeaves(fan, h, t);
    }
  }

  lemma {:induction false} NoLeaves(h: nat, t: Ix)
    requires t.Pointers? && t.kids == []
    ensures Leaves(h, t) == []
  {
  }

  lemma {:induction false} EmptyCount(fan: nat, g: nat, q: nat, r: nat)
    requires 0 == q * Cap(fan, g) + r && r < Cap(fan, g) && 0 < Cap(fan, g + 1)
    ensures q == 0 && r == 0 && fan > 0
  {
    if q > 0 { MulAtLeast(q, Cap(fan, g)); }
  }

  /** A further child where there is room for it. */
  lemma {:induction false} RoomAdd(fan: nat, h: nat, t: Ix, depth: nat, g: nat, q: nat, kid: Ix)
    requires Spine(t, depth) && depth + 1 + g == h && Loose(fan, h, t, depth) && Room(fan, h, t, depth, q)
             && Packed(fan, g, kid)
    ensures Packed(fan, h, AddKid(t, depth, kid))
    decreases depth
  {
    if depth > 0 { RoomAdd(fan, h - 1, Last(t), depth - 1, g, q, kid); }
  }

  /** A further block of pointers, empty as yet. */
  lemma {:induction false} RoomStart(fan: nat, h: nat, t: Ix, depth: nat, q: nat, b: nat)
    requires Spine(t, depth) && depth + 1 < h && Loose(fan, h, t, depth) && Room(fan, h, t, depth, q)
    ensures var u := AddKid(t, depth, Pointers(b, []));
            Spine(u, depth + 1) && Loose(fan, h, u, depth + 1) && At(u, depth + 1) == Pointers(b, [])
                && Held(h, u, depth + 1) == 0
    decreases depth
  {
    NoLeaves(h - depth - 1, Pointers(b, []));
    if depth > 0 { RoomStart(fan, h - 1, Last(t), depth - 1, q, b); }
  }

  /** The last child, where it is not full yet. */
  lemma {:induction false} LooseDown(fan: nat, h: nat, t: Ix, depth: nat, g: nat)
    requires Spine(t, depth) && depth + 1 + g == h && g > 0 && Loose(fan, h, t, depth) && At(t, depth).kids != []
    requires Packed(fan, g, Last(At(t, depth)))
    ensures Spine(t, depth + 1) && Loose(fan, h, t, depth + 1) && At(t, depth + 1) == Last(At(t, depth))
    decreases depth
  {
    if depth > 0 { LooseDown(fan, h - 1, Last(t), depth - 1, g); }
  }
}

