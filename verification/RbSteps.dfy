/** What the fused writes of the cases of src/rbtree.c amount to: rotations and repaintings of cells. */
module RbSteps {
  import opened Entities
  import opened RbShape
  import opened RbLinks

  ghost predicate HangsFrom(m: Mem, x: SchedEntity, above: SchedEntity?, s: Side) {
    above != null ==> above in m && m[above].Kid(s) == x && m[above].Kid(s.Flip()) != x
  }

  ghost predicate BlackOrNull(m: Mem, x: SchedEntity?) { x == null || (x in m && m[x].black) }

  /** `p` has taken the place and the colour of `g`, which has taken over `tmp` as its `d` child and got the colour
      `gb`; `tmp` is black or has its old colour, and `far`, when there is one, has become a black child of `p`. */
  ghost predicate Lifted(st: Store, st': Store, d: Side, g: SchedEntity, p: SchedEntity, tmp: SchedEntity?, paint: bool,
                         far: SchedEntity?,
                         above: SchedEntity?, s: Side, gb: bool) {
    var (m, m') := (st.mem, st'.mem);
    && p in m && p in m' && g in m && g in m'
    && m'[p] == m[p].WithKid(d.Flip(), g).(parent := above, black := m[g].black)
    && m'[g] == m[g].WithKid(d, tmp).(parent := p, black := gb)
    && (tmp != null ==> tmp in m && tmp in m' && m'[tmp] == m[tmp].(parent := g, black := paint || m[tmp].black))
    && (far != null ==> far in m && far in m' && m'[far] == m[far].(parent := p, black := true))
    && (above != null ==> above in m && above in m' && m'[above] == m[above].WithKid(s, p))
    && Unchanged(m, m', {p, g, tmp, far, above})
    && st'.root == if above == null then p else st.root
  }

  lemma {:induction false} LiftedBy(m0: Mem, m1: Mem, m2: Mem, m3: Mem, d: Side, g: SchedEntity, p: SchedEntity,
                                    tmp: SchedEntity?, paint: bool,
                                    far: SchedEntity?, above: SchedEntity?, s: Side, gb: bool)
    requires m0.Keys == m1.Keys == m2.Keys == m3.Keys
    requires p in m0 && g in m0 && p != g && p != tmp && g != tmp && p != above && g != above
    requires tmp != null ==> tmp in m0 && tmp != above
    requires far != null ==> far in m0 && far != above && far != p && far != g && far != tmp
    requires above != null ==> above in m0
    requires m1[g] == m0[g].WithKid(d, tmp) && m1[p] == m0[p].WithKid(d.Flip(), g)
    requires tmp != null ==> m1[tmp] == m0[tmp].(parent := g, black := paint || m0[tmp].black)
    requires Unchanged(m0, m1, {g, p, tmp})
    requires m2 == if far == null then m1 else m1[far := m1[far].(parent := p, black := true)]
    requires m3[p] == m2[p].(parent := above, black := m2[g].black) && m3[g] == m2[g].(parent := p, black := gb)
    requires above != null ==> m3[above] == m2[above].WithKid(s, p)
    requires Unchanged(m2, m3, {g, p, above})
    ensures forall root: SchedEntity? :: Lifted(Store(m0, root), Store(m3, if above == null then p else root), d, g, p,
            tmp, paint, far, above, s, gb)
  {
  }

  /** What lifting `p` over `g` asks for. */
  ghost predicate CanLift(m: Mem, g: SchedEntity, p: SchedEntity, tmp: SchedEntity?, far: SchedEntity?,
                          above: SchedEntity?, s: Side) {
    && p in m && g in m && p != g && m[g].parent == above && p != above && g != above && HangsFrom(m, g, above, s)
    && tmp != p && tmp != g && (tmp != null ==> tmp in m && tmp != above)
    && (far != null ==> far in m && far != above && far != p && far != g && far != tmp)
  }

  lemma {:induction false} AroundLifts(m: Mem, d: Side, g: SchedEntity, p: SchedEntity, above: SchedEntity?, s: Side)
    requires Around(m, d, g, p, above, s)
    ensures CanLift(m, g, p, m[p].Kid(d.Flip()), null, above, s)
  {
  }

  // ----- insertion -----

  /** Case 2 of `__rb_insert`: `n` and `p` have changed places, except for the links above them. */
  ghost predicate Turned(m: Mem, m': Mem, d: Side, n: SchedEntity, p: SchedEntity) {
    && n in m && n in m' && p in m && p in m' &&
    var tmp := m[n].Kid(d);
    && m'[n] == m[n].WithKid(d, p)
    && m'[p] == m[p].WithKid(d.Flip(), tmp).(parent := n, black := false)
    && (tmp != null ==> tmp in m && tmp in m' && m'[tmp] == m[tmp].(parent := p, black := true))
    && Unchanged(m, m', {n, p, tmp})
  }

  lemma {:induction false} TurnedInPlace(m: Mem, m1: Mem, d: Side, g: SchedEntity, p: SchedEntity, n: SchedEntity,
                                         above: SchedEntity?, s: Side)
    requires Around(m, d, g, p, above, s) && Inner(m, d, g, p, n, above)
    requires Turned(m, m1, d, n, p)
    ensures CanLift(m1, g, n, m[n].Kid(d.Flip()), null, above, s) && m1[n].Kid(d.Flip()) == m[n].Kid(d.Flip())
  {
  }

  lemma {:induction false} TurnedAndLifted(st: Store, m1: Mem, st': Store, d: Side, g: SchedEntity, p: SchedEntity,
                                           n: SchedEntity, above: SchedEntity?, s: Side)
    requires Around(st.mem, d, g, p, above, s) && Inner(st.mem, d, g, p, n, above) && st.mem[g].black
             && !st.mem[p].black
    requires BlackOrNull(st.mem, st.mem[n].Kid(d)) && BlackOrNull(st.mem, st.mem[n].Kid(d.Flip()))
    requires Turned(st.mem, m1, d, n, p)
    requires Lifted(Store(m1, st.root), st', d, g, n, st.mem[n].Kid(d.Flip()), true, null, above, s, false)
    ensures DoubleRotation(st, st', d, g, p, n, above, s, true, false)
  {
  }

  lemma {:induction false} InnerCells(st: Store, c: Path, d: Side, a: Tree, p: SchedEntity, pb: bool, b1: Tree,
                                      n: SchedEntity, nb: bool, b2: Tree, g: SchedEntity, gb: bool, u: Tree)
    requires Stores(st, Plug(c, Branch(d, Branch(d, a, p, pb, Branch(d, b1, n, nb, b2)), g, gb, u)))
    ensures g in st.mem && st.mem[g] == MkCell(d, Above(c, null), gb, p, Root(u))
    ensures p in st.mem && st.mem[p] == MkCell(d, g, pb, Root(a), n)
    ensures n in st.mem && st.mem[n] == MkCell(d, p, nb, Root(b1), Root(b2))
    ensures n != Above(c, null) && Linked(st.mem, b1, n) && Linked(st.mem, b2, n)
    ensures b1.Node? ==> b1.elem != Root(b2) && b1.elem != Above(c, null)
    ensures b2.Node? ==> b2.elem != n && b2.elem != p && b2.elem != g && b2.elem != Above(c, null)
  {
    var nt := Branch(d, b1, n, nb, b2);
    Apart(st, c, d, a, p, pb, nt, g, gb, u);
    BranchLinks(st.mem, d, b1, n, nb, b2, p);
  }

  lemma {:induction false} InnerNodes(st: Store, c: Path, d: Side, a: Tree, p: SchedEntity, pb: bool, b1: Tree,
                                      n: SchedEntity, nb: bool, b2: Tree, g: SchedEntity, gb: bool, u: Tree)
    requires Stores(st, Plug(c, Branch(d, Branch(d, a, p, pb, Branch(d, b1, n, nb, b2)), g, gb, u)))
    ensures Around(st.mem, d, g, p, Above(c, null), SideOf(c)) && Inner(st.mem, d, g, p, n, Above(c, null))
    ensures st.mem[g].black == gb && st.mem[p].black == pb && st.mem[n].black == nb && st.mem[p].Kid(d.Flip()) == n
    ensures IsBlack(b1) ==> BlackOrNull(st.mem, st.mem[n].Kid(d))
    ensures IsBlack(b2) ==> BlackOrNull(st.mem, st.mem[n].Kid(d.Flip()))
  {
    IsAround(st, c, d, a, p, pb, Branch(d, b1, n, nb, b2), g, gb, u);
    InnerAround(st, c, d, a, p, pb, b1, n, nb, b2, g, gb, u);
    InnerCells(st, c, d, a, p, pb, b1, n, nb, b2, g, gb, u);
  }

  lemma {:induction false} InnerAround(st: Store, c: Path, d: Side, a: Tree, p: SchedEntity, pb: bool, b1: Tree,
                                       n: SchedEntity, nb: bool, b2: Tree, g: SchedEntity, gb: bool, u: Tree)
    requires Stores(st, Plug(c, Branch(d, Branch(d, a, p, pb, Branch(d, b1, n, nb, b2)), g, gb, u)))
    ensures Around(st.mem, d.Flip(), p, n, g, d)
  {
    IsAround(st, Step(d, g, gb, u, c), d.Flip(), b2, n, nb, b1, p, pb, a);
  }

  lemma {:induction false} Recolored(st: Store, st': Store, c: Path, d: Side, e: Side, t: Tree, p: SchedEntity,
                                     sib: Tree, g: SchedEntity, ul: Tree, u: SchedEntity, ur: Tree)
    requires Stores(st, Plug(c, Branch(d, Branch(e, t, p, false, sib), g, true, Node(ul, u, false, ur))))
    requires u in st.mem && p in st.mem && g in st.mem ==>
               st' == st.(mem := st.mem[u := st.mem[u].(black := true)][p := st.mem[p].(black := true)][g :=
                   st.mem[g].(black := false)])
    ensures Stores(st', Plug(c, Branch(d, Branch(e, t, p, true, sib), g, false, Node(ul, u, true, ur))))
    ensures InOrder(Plug(c, Branch(d, Branch(e, t, p, true, sib), g, false, Node(ul, u, true, ur))))
         == InOrder(Plug(c, Branch(d, Branch(e, t, p, false, sib), g, true, Node(ul, u, false, ur))))
  {
    var st1 := if u in st.mem then st.(mem := st.mem[u := st.mem[u].(black := true)]) else st;
    var st2 := if p in st1.mem then st1.(mem := st1.mem[p := st1.mem[p].(black := true)]) else st1;
    var P, P' := Branch(e, t, p, false, sib), Branch(e, t, p, true, sib);
    var U := Node(ul, u, true, ur);
    PaintStores(st, st1, Step(d.Flip(), g, true, P, c), ul, u, false, ur, true);
    PaintBranch(st1, st2, Step(d, g, true, U, c), e, t, p, false, sib, true);
    PaintBranch(st2, st', c, d, P', g, true, U, false);
  }

  lemma {:induction false} BeforeRecoloring(st: Store, c: Path, d: Side, e: Side, t: Tree, p: SchedEntity, sib: Tree,
                                            g: SchedEntity, u: Tree)
    requires u.Node? && Stores(st, Plug(c, Branch(d, Branch(e, t, p, false, sib), g, true, u)))
    ensures p in st.mem && g in st.mem && u.elem in st.mem
    ensures st.mem[p].parent == g && st.mem[u.elem].parent == g && st.mem[g].parent == Above(c, null)
    ensures p != g && u.elem != p && u.elem != g
  {
    if e == d { Apart(st, c, d, t, p, false, sib, g, true, u); }
    else { Apart(st, c, d, sib, p, false, t, g, true, u); }
  }

  lemma {:induction false} BeforeRestructuring(st: Store, c: Path, d: Side, e: Side, t: Tree, p: SchedEntity, sib: Tree,
                                               g: SchedEntity, u: Tree)
    requires Stores(st, Plug(c, Branch(d, Branch(e, t, p, false, sib), g, true, u)))
    requires t.Node? && !t.black && IsBlack(t.left) && IsBlack(t.right) && IsBlack(sib)
    ensures Around(st.mem, d, g, p, Above(c, null), SideOf(c)) && st.mem[g].black && !st.mem[p].black
    ensures (st.mem[p].Kid(d.Flip()) == t.elem) == (e != d)
    ensures e != d ==>
              && Inner(st.mem, d, g, p, t.elem, Above(c, null))
              && BlackOrNull(st.mem, st.mem[t.elem].Kid(d)) && BlackOrNull(st.mem, st.mem[t.elem].Kid(d.Flip()))
    ensures e == d ==> BlackOrNull(st.mem, st.mem[p].Kid(d.Flip()))
  {
    if e == d {
      Apart(st, c, d, t, p, false, sib, g, true, u);
      IsAround(st, c, d, t, p, false, sib, g, true, u);
    } else {
      InnerNodes(st, c, d, sib, p, false, Child(d, t), t.elem, false, Child(d.Flip(), t), g, true, u);
    }
  }

  lemma {:induction false} AfterRestructuring(st: Store, st': Store, c: Path, d: Side, e: Side, t: Tree, p: SchedEntity,
                                              sib: Tree, g: SchedEntity, u: Tree, h: nat)
      returns (tree: Tree)
    requires Stores(st, Plug(c, Branch(d, Branch(e, t, p, false, sib), g, true, u)))
    requires t.Node? && !t.black && Rb(t, h) && IsBlack(sib) && Rb(sib, h) && IsBlack(u) && Rb(u, h) && RbPath(c, h + 1)
    requires if e != d
             then DoubleRotation(st, st', d, g, p, t.elem, Above(c, null), SideOf(c), true, false)
             else Rotation(st, st', d, g, p, Above(c, null), SideOf(c), true, false)
    ensures Stores(st', tree) && RedBlack(tree)
    ensures InOrder(tree) == InOrder(Plug(c, Branch(d, Branch(e, t, p, false, sib), g, true, u)))
  {
    var t', b1, b2 := Leaf, Child(d, t), Child(d.Flip(), t);
    if e == d {
      RotationStores(st, st', c, d, t, p, false, sib, g, true, u, true, false);
      t' := Branch(d, t, p, true, Branch(d, sib, g, false, u));
    } else {
      DoubleRotationStores(st, st', c, d, sib, p, false, b1, t.elem, false, b2, g, true, u, true, false);
      t' := Branch(d, Branch(d, sib, p, false, b1), t.elem, true, Branch(d, b2, g, false, u));
    }
    RbJoin(c, t', h + 1);
    tree := Plug(c, t');
  }

  /** What `__rb_insert` reads at the head of its loop. */
  lemma {:induction false} InsertView(st: Store, c: Path, t: Tree, h: nat)
    requires Stores(st, Plug(c, t)) && Violation(c, t, h)
    ensures t.elem in st.mem
    ensures c.Step? ==> c.elem in st.mem && st.mem[c.elem].black == c.black
                        && st.mem[c.elem].parent == Above(c.up, null)
    ensures c.Step? && !c.black ==> c.up.Step? && c.up.black
    ensures c.Step? && !c.black ==>
              var (g, d, u) := (c.up.elem, c.up.side, c.up.sib);
              && g in st.mem && st.mem[g].Kid(d) == c.elem && st.mem[g].Kid(d.Flip()) == Root(u) && Root(u) != c.elem
              && BlackOrNull(st.mem, Root(u)) == IsBlack(u) && (u.Node? ==> u.elem in st.mem)
              && Depth(c) == Depth(c.up.up) + 2
  {
    LinkedPlug(st.mem, c, t, null);
    DistinctPlug(c, t);
  }

  /** The grandparent's subtree, when the parent is red. */
  function Grand(c: Path, t: Tree): Tree
    requires c.Step? && c.up.Step?
  {
    Branch(c.up.side, Branch(c.side, t, c.elem, c.black, c.sib), c.up.elem, c.up.black, c.up.sib)
  }

  lemma {:induction false} RedParent(c: Path, t: Tree, h: nat)
    requires Violation(c, t, h) && c.Step? && !c.black
    ensures c.up.Step? && c.up.black && Plug(c.up.up, Grand(c, t)) == Plug(c, t)
    ensures Rb(c.sib, h) && IsBlack(c.sib) && Rb(c.up.sib, h) && RbPath(c.up.up, h + 1)
  {
    assert RbPath(c.up, h);
  }

  // ----- erasure -----

  /** Case 3 of `__rb_erase_color`: `n` has been lifted over `p` below `g`, except for the links above the two. */
  ghost predicate TurnedBelow(m: Mem, m': Mem, d: Side, n: SchedEntity, p: SchedEntity, g: SchedEntity) {
    && n in m && n in m' && p in m && p in m' && g in m && g in m' &&
    var tmp := m[n].Kid(d);
    && m'[n] == m[n].WithKid(d, p)
    && m'[p] == m[p].WithKid(d.Flip(), tmp)
    && m'[g] == m[g].WithKid(d, n)
    && (tmp != null ==> tmp in m && tmp in m' && m'[tmp] == m[tmp].(parent := p, black := true))
    && Unchanged(m, m', {n, p, g, tmp})
  }

  lemma {:induction false} TurnedBelowInPlace(m: Mem, m1: Mem, d: Side, g: SchedEntity, p: SchedEntity, n: SchedEntity,
                                              above: SchedEntity?, s: Side)
    requires Around(m, d, g, p, above, s) && Inner(m, d, g, p, n, above)
    requires TurnedBelow(m, m1, d, n, p, g)
    ensures CanLift(m1, g, n, m[n].Kid(d.Flip()), p, above, s) && m1[n].Kid(d.Flip()) == m[n].Kid(d.Flip())
  {
  }

  lemma {:induction false} TurnedBelowAndLifted(st: Store, m1: Mem, st': Store, d: Side, g: SchedEntity, p: SchedEntity,
                                                n: SchedEntity, above: SchedEntity?, s: Side)
    requires Around(st.mem, d, g, p, above, s) && Inner(st.mem, d, g, p, n, above) && st.mem[p].black
    requires BlackOrNull(st.mem, st.mem[n].Kid(d))
    requires TurnedBelow(st.mem, m1, d, n, p, g)
    requires Lifted(Store(m1, st.root), st', d, g, n, st.mem[n].Kid(d.Flip()), false, p, above, s, true)
    ensures DoubleRotation(st, st', d, g, p, n, above, s, st.mem[g].black, true)
  {
  }

  /** Case 4 with a red outer nephew `far`: a repainting of `far` and a rotation. */
  lemma {:induction false} LiftedPainting(st: Store, st1: Store, st': Store, d: Side, g: SchedEntity, p: SchedEntity,
                                          tmp: SchedEntity?, far: SchedEntity, above: SchedEntity?, s: Side)
    requires Around(st.mem, d, g, p, above, s) && tmp == st.mem[p].Kid(d.Flip())
    requires far in st.mem && far != p && far != g && far != tmp && far != above && st.mem[far].parent == p
    requires st1 == st.(mem := st.mem[far := st.mem[far].(black := true)])
    requires Lifted(st, st', d, g, p, tmp, false, far, above, s, true)
    ensures Rotation(st1, st', d, g, p, above, s, st.mem[g].black, true)
  {
  }

  lemma {:induction false} RootCell(st: Store, c: Path, t: Tree)
    requires Stores(st, Plug(c, t)) && t.Node?
    ensures t.elem in st.mem && st.mem[t.elem] == Cell(Above(c, null), t.black, Root(t.left), Root(t.right))
  {
    LinkedPlug(st.mem, c, t, null);
  }

  /** What `__rb_erase_color` reads: the side that lacks a black node has a sibling, since the other side has black
      nodes. */
  lemma {:induction false} EraseView(st: Store, c: Path, t: Tree, h: nat)
    requires Stores(st, Plug(c, t)) && c.Step? && RbPath(c, h + 1)
    ensures c.sib.Node? && c.sib.elem != Root(t) && c.sib.elem != c.elem
            && (!c.sib.black ==> c.sib.left.Node? && c.sib.right.Node?)
    ensures c.elem in st.mem && st.mem[c.elem] == MkCell(c.side, Above(c.up, null), c.black, Root(t), Root(c.sib))
    ensures c.sib.elem in st.mem && st.mem[c.sib.elem] == Cell(c.elem, c.sib.black, Root(c.sib.left), Root(c.sib.right))
    ensures c.sib.left.Node? ==> c.sib.left.elem in st.mem && st.mem[c.sib.left.elem].black == c.sib.left.black
    ensures c.sib.right.Node? ==> c.sib.right.elem in st.mem && st.mem[c.sib.right.elem].black == c.sib.right.black
    ensures t.Node? ==> t.elem in st.mem
  {
    LinkedPlug(st.mem, c, t, null);
    DistinctPlug(c, t);
    assert !c.sib.black ==> Rb(c.sib.left, h + 1) && Rb(c.sib.right, h + 1);
    assert Linked(st.mem, c.sib.left, c.sib.elem) && Linked(st.mem, c.sib.right, c.sib.elem);
  }

  lemma {:induction false} BeforeCase4(st: Store, c: Path, t: Tree)
    requires Stores(st, Plug(c, t)) && c.Step? && c.sib.Node? && !IsBlack(Child(c.side.Flip(), c.sib))
    ensures Around(st.mem, c.side.Flip(), c.elem, c.sib.elem, Above(c.up, null), SideOf(c.up))
    ensures var far := Child(c.side.Flip(), c.sib).elem;
            var s := c.sib.elem;
            && far in st.mem && far != c.elem && far != s && far != Above(c.up, null)
            && st.mem[s].Kid(c.side.Flip()) == far && st.mem[s].Kid(c.side) != far
            && st.mem[s].Kid(c.side) == Root(Child(c.side, c.sib))
  {
    var d := c.side.Flip();
    var x, y := Child(d.Flip(), c.sib), Child(d, c.sib);
    Apart(st, c.up, d, y, c.sib.elem, c.sib.black, x, c.elem, c.black, t);
    IsAround(st, c.up, d, y, c.sib.elem, c.sib.black, x, c.elem, c.black, t);
  }

  lemma {:induction false} BeforeCase3(st: Store, c: Path, t: Tree, h: nat)
    requires Stores(st, Plug(c, t)) && c.Step? && c.sib.Node? && c.sib.black && Rb(c.sib, h + 1)
             && !IsBlack(Child(c.side, c.sib))
    ensures var (d, n, s) := (c.side.Flip(), Child(c.side, c.sib).elem, c.sib.elem);
            && Around(st.mem, d, c.elem, s, Above(c.up, null), SideOf(c.up))
            && Inner(st.mem, d, c.elem, s, n, Above(c.up, null))
            && st.mem[s].black && st.mem[c.elem].black == c.black && BlackOrNull(st.mem, st.mem[n].Kid(d))
  {
    var d := c.side.Flip();
    var n, y := Child(d.Flip(), c.sib), Child(d, c.sib);
    InnerNodes(st, c.up, d, y, c.sib.elem, true, Child(d, n), n.elem, false, Child(d.Flip(), n), c.elem, c.black, t);
  }

  /** Case 1 of `__rb_erase_color`: the red sibling is lifted, and the lack moves down below a black sibling. */
  lemma {:induction false} EraseCase1Done(st: Store, st': Store, c: Path, t: Tree, h: nat) returns (c': Path)
    requires Stores(st, Plug(c, t)) && c.Step? && RbPath(c, h + 1) && c.sib.Node? && !c.sib.black
    requires Rotation(st, st', c.side.Flip(), c.elem, c.sib.elem, Above(c.up, null), SideOf(c.up), true, false)
    ensures c' == Step(c.side, c.elem, false, Child(c.side, c.sib),
            Step(c.side, c.sib.elem, true, Child(c.side.Flip(), c.sib), c.up))
    ensures Stores(st', Plug(c', t)) && InOrder(Plug(c', t)) == InOrder(Plug(c, t))
    ensures RbPath(c', h + 1) && c'.sib.Node? && c'.sib.black
  {
    var d, p, s := c.side, c.elem, c.sib.elem;
    var x, y := Child(d, c.sib), Child(d.Flip(), c.sib);
    c' := Step(d, p, false, x, Step(d, s, true, y, c.up));
    RotationStores(st, st', c.up, d.Flip(), y, s, false, x, p, true, t, true, false);
  }

  /** Case 2: the sibling turns red; a red parent turns black, a black one passes the lack on. */
  lemma {:induction false} EraseCase2Done(st: Store, st1: Store, st2: Store, c: Path, t: Tree, h: nat)
    returns (t': Tree)
    requires Stores(st, Plug(c, t)) && c.Step? && IsBlack(t) && Rb(t, h) && RbPath(c, h + 1)
    requires c.sib.Node? && c.sib.black && IsBlack(c.sib.left) && IsBlack(c.sib.right)
    requires var s := c.sib.elem; s in st.mem ==> st1 == st.(mem := st.mem[s := st.mem[s].(black := false)])
    requires c.elem in st1.mem ==> st2 == st1.(mem := st1.mem[c.elem := st1.mem[c.elem].(black := true)])
    ensures t'.Node? && t'.elem == c.elem && t'.black && Rb(t', h + 1)
    ensures Stores(st2, Plug(c.up, t')) && InOrder(Plug(c.up, t')) == InOrder(Plug(c, t))
    ensures if c.black then RbPath(c.up, h + 2) else RedBlack(Plug(c.up, t'))
  {
    var d, p, s := c.side, c.elem, c.sib.elem;
    var sib := Node(c.sib.left, s, false, c.sib.right);
    PaintStores(st, st1, Step(d.Flip(), p, c.black, t, c.up), c.sib.left, s, true, c.sib.right, false);
    PaintBranch(st1, st2, c.up, d, t, p, c.black, sib, true);
    t' := Branch(d, t, p, true, sib);
    if !c.black { RbJoin(c.up, t', h + 1); }
  }

  /** Cases 3 and 4: a rotation, double when only the inner nephew is red, ends the repair. */
  lemma {:induction false} EraseCase4Done(st: Store, st': Store, c: Path, t: Tree, h: nat) returns (tree: Tree)
    requires Stores(st, Plug(c, t)) && c.Step? && IsBlack(t) && Rb(t, h) && RbPath(c, h + 1)
    requires c.sib.Node? && c.sib.black
    requires var d := c.side.Flip();
             var far := Child(d, c.sib);
             !IsBlack(far) && Lifted(st, st', d, c.elem, c.sib.elem, Root(Child(d.Flip(), c.sib)), false, far.elem,
                 Above(c.up, null), SideOf(c.up), true)
    ensures Stores(st', tree) && RedBlack(tree) && InOrder(tree) == InOrder(Plug(c, t))
  {
    var d, p, s := c.side.Flip(), c.elem, c.sib.elem;
    var x, y := Child(d.Flip(), c.sib), Child(d, c.sib);
    var y' := Node(y.left, y.elem, true, y.right);
    var st1 := OuterPainted(st, st', c.up, d, x, y, s, p, c.black, t);
    RotationStores(st1, st', c.up, d, y', s, true, x, p, c.black, t, c.black, true);
    var t' := Branch(d, y', s, c.black, Branch(d, x, p, true, t));
    tree := Plug(c.up, t');
    RbBranch(d, y, s, true, x, h);
    RbBranch(d, x, p, true, t, h);
    RbBranch(d, y', s, c.black, Branch(d, x, p, true, t), h + 1);
    RbJoin(c.up, t', if c.black then h + 2 else h + 1);
  }

  lemma {:induction false} OuterPainted(st: Store, st': Store, c: Path, d: Side, x: Tree, y: Tree, s: SchedEntity,
                                        p: SchedEntity, pb: bool, t: Tree) returns (st1: Store)
    requires y.Node? && !y.black && Stores(st, Plug(c, Branch(d, Branch(d, y, s, true, x), p, pb, t)))
    requires Lifted(st, st', d, p, s, Root(x), false, y.elem, Above(c, null), SideOf(c), true)
    ensures var t1 := Plug(c, Branch(d, Branch(d, Node(y.left, y.elem, true, y.right), s, true, x), p, pb, t));
            Stores(st1, t1) && InOrder(t1) == InOrder(Plug(c, Branch(d, Branch(d, y, s, true, x), p, pb, t)))
    ensures Rotation(st1, st', d, p, s, Above(c, null), SideOf(c), pb, true)
  {
    Apart(st, c, d, y, s, true, x, p, pb, t);
    IsAround(st, c, d, y, s, true, x, p, pb, t);
    st1 := st.(mem := st.mem[y.elem := st.mem[y.elem].(black := true)]);
    PaintStores(st, st1, Step(d, s, true, x, Step(d, p, pb, t, c)), y.left, y.elem, false, y.right, true);
    LiftedPainting(st, st1, st', d, p, s, Root(x), y.elem, Above(c, null), SideOf(c));
  }

  lemma {:induction false} EraseCase3Done(st: Store, st': Store, c: Path, t: Tree, h: nat) returns (tree: Tree)
    requires Stores(st, Plug(c, t)) && c.Step? && IsBlack(t) && Rb(t, h) && RbPath(c, h + 1)
    requires c.sib.Node? && c.sib.black
    requires var d := c.side.Flip();
             var near := Child(d.Flip(), c.sib);
             !IsBlack(near) && IsBlack(Child(d, c.sib)) &&
             DoubleRotation(st, st', d, c.elem, c.sib.elem, near.elem, Above(c.up, null), SideOf(c.up), c.black, true)
    ensures Stores(st', tree) && RedBlack(tree) && InOrder(tree) == InOrder(Plug(c, t))
  {
    var d, p, s := c.side.Flip(), c.elem, c.sib.elem;
    var n, y := Child(d.Flip(), c.sib), Child(d, c.sib);
    var b1, b2 := Child(d, n), Child(d.Flip(), n);
    DoubleRotationStores(st, st', c.up, d, y, s, true, b1, n.elem, false, b2, p, c.black, t, c.black, true);
    var t' := Branch(d, Branch(d, y, s, true, b1), n.elem, c.black, Branch(d, b2, p, true, t));
    RbBranch(d, b1, n.elem, false, b2, h);
    RbBranch(d, y, s, true, b1, h);
    RbBranch(d, b2, p, true, t, h);
    RbBranch(d, Branch(d, y, s, true, b1), n.elem, c.black, Branch(d, b2, p, true, t), h + 1);
    RbJoin(c.up, t', if c.black then h + 2 else h + 1);
    tree := Plug(c.up, t');
  }
}
