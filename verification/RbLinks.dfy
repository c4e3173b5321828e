/** How a tree is stored: one cell per entity, with parent and child links that must agree. */
module RbLinks {
  import opened Entities
  import opened RbShape

  datatype Cell = Cell(parent: SchedEntity?, black: bool, left: SchedEntity?, right: SchedEntity?) {
    function Kid(d: Side): SchedEntity? { if d.Left? then left else right }

    function WithKid(d: Side, x: SchedEntity?): Cell {
      if d.Left? then this.(left := x) else this.(right := x)
    }
  }

  /** A cell whose `d` child is `near` and whose other child is `far`. */
  function MkCell(d: Side, parent: SchedEntity?, black: bool, near: SchedEntity?, far: SchedEntity?): Cell {
    if d.Left? then Cell(parent, black, near, far) else Cell(parent, black, far, near)
  }

  type Mem = map<SchedEntity, Cell>

  /** The cells as they stand on the heap. */
  ghost function Snap(S: set<SchedEntity>): (m: Mem)
    reads S`parent, S`black, S`left, S`right
  {
    map x | x in S :: Cell(x.parent, x.black, x.left, x.right)
  }

  /** `m` stores `t` with `p` as the parent of its root. */
  ghost predicate Linked(m: Mem, t: Tree, p: SchedEntity?) {
    t.Node? ==>
      && t.elem in m
      && m[t.elem] == Cell(p, t.black, Root(t.left), Root(t.right))
      && Linked(m, t.left, t.elem) && Linked(m, t.right, t.elem)
  }

  /** The node the hole hangs from. */
  function Above(c: Path, base: SchedEntity?): SchedEntity? { if c.Top? then base else c.elem }

  function SideOf(c: Path): Side { if c.Top? then Left else c.side }

  function PathCell(c: Path, hole: SchedEntity?, base: SchedEntity?): Cell
    requires c.Step?
  {
    MkCell(c.side, Above(c.up, base), c.black, hole, Root(c.sib))
  }

  /** `m` stores the path, `hole` being what the innermost frame points to and `base` the parent of the top. */
  ghost predicate LinkedPath(m: Mem, c: Path, hole: SchedEntity?, base: SchedEntity?) {
    c.Step? ==>
      && c.elem in m
      && m[c.elem] == PathCell(c, hole, base)
      && Linked(m, c.sib, c.elem)
      && LinkedPath(m, c.up, c.elem, base)
  }

  /** All nodes of the tree but its root, and all nodes of the path but the one above the hole. */
  function Below(t: Tree): set<SchedEntity> { if t.Leaf? then {} else Nodes(t.left) + Nodes(t.right) }
  function Beyond(c: Path): set<SchedEntity> { if c.Top? then {} else Nodes(c.sib) + PathNodes(c.up) }

  ghost predicate Agree(m: Mem, m': Mem, s: set<SchedEntity>) {
    forall x :: x in s && x in m ==> x in m' && m'[x] == m[x]
  }

  lemma {:induction false} LinkedPlug(m: Mem, c: Path, t: Tree, base: SchedEntity?)
    ensures Linked(m, Plug(c, t), base) <==> Linked(m, t, Above(c, base)) && LinkedPath(m, c, Root(t), base)
  {
    match c
    case Top =>
    case Step(d, e, black, sib, up) =>
      var b := Branch(d, t, e, black, sib);
      LinkedPlug(m, up, b, base);
  }

  lemma {:induction false} BranchLinks(m: Mem, d: Side, a: Tree, e: SchedEntity, black: bool, b: Tree, p: SchedEntity?)
    ensures Linked(m, Branch(d, a, e, black, b), p) <==>
              e in m && m[e] == MkCell(d, p, black, Root(a), Root(b)) && Linked(m, a, e) && Linked(m, b, e)
    ensures Distinct(Branch(d, a, e, black, b)) <==>
              Distinct(a) && Distinct(b) && e !in Nodes(a) && e !in Nodes(b) && Nodes(a) !! Nodes(b)
    ensures Nodes(Branch(d, a, e, black, b)) == Nodes(a) + {e} + Nodes(b)
  {
  }

  lemma {:induction false} LinkedFrame(m: Mem, m': Mem, t: Tree, p: SchedEntity?)
    requires Linked(m, t, p) && Agree(m, m', Nodes(t))
    ensures Linked(m', t, p)
  {
    if t.Node? {
      LinkedFrame(m, m', t.left, t.elem);
      LinkedFrame(m, m', t.right, t.elem);
    }
  }

  /** Only the parent link of the root has changed. */
  lemma {:induction false} Reparent(m: Mem, m': Mem, t: Tree, p: SchedEntity?, p': SchedEntity?)
    requires Linked(m, t, p) && Distinct(t)
    requires Agree(m, m', Below(t))
    requires t.Node? ==> t.elem in m' && m'[t.elem] == m[t.elem].(parent := p')
    ensures Linked(m', t, p')
  {
    if t.Node? {
      LinkedFrame(m, m', t.left, t.elem);
      LinkedFrame(m, m', t.right, t.elem);
    }
  }

  lemma {:induction false} PathFrame(m: Mem, m': Mem, c: Path, hole: SchedEntity?, base: SchedEntity?)
    requires LinkedPath(m, c, hole, base) && Agree(m, m', PathNodes(c))
    ensures LinkedPath(m', c, hole, base)
  {
    if c.Step? {
      LinkedFrame(m, m', c.sib, c.elem);
      PathFrame(m, m', c.up, c.elem, base);
    }
  }

  /** Only the child link into the hole has changed. */
  lemma {:induction false} Rehole(m: Mem, m': Mem, c: Path, hole: SchedEntity?, hole': SchedEntity?, base: SchedEntity?)
    requires LinkedPath(m, c, hole, base) && DistinctPath(c)
    requires Agree(m, m', Beyond(c))
    requires c.Step? ==> c.elem in m' && m'[c.elem] == m[c.elem].WithKid(c.side, hole')
    ensures LinkedPath(m', c, hole', base)
  {
    if c.Step? {
      LinkedFrame(m, m', c.sib, c.elem);
      PathFrame(m, m', c.up, c.elem, base);
    }
  }

  /** The subtree `t` in the hole has been replaced by `t'`, and the child link above it redirected. */
  lemma {:induction false} Replace(m: Mem, m': Mem, c: Path, t: Tree, t': Tree)
    requires Linked(m, Plug(c, t), null) && Distinct(Plug(c, t))
    requires Linked(m', t', Above(c, null))
    requires Agree(m, m', Beyond(c))
    requires c.Step? ==> c.elem in m && c.elem in m' && m'[c.elem] == m[c.elem].WithKid(c.side, Root(t'))
    ensures Linked(m', Plug(c, t'), null)
  {
    LinkedPlug(m, c, t, null);
    DistinctPlug(c, t);
    Rehole(m, m', c, Root(t), Root(t'), null);
    LinkedPlug(m', c, t', null);
  }

  // ----- rotations of the cells -----

  /** All the cells, and the root pointer. */
  datatype Store = Store(mem: Mem, root: SchedEntity?)

  ghost predicate Stores(st: Store, t: Tree) {
    Linked(st.mem, t, null) && Distinct(t) && st.root == Root(t)
  }

  ghost predicate Unchanged(m: Mem, m': Mem, xs: set<SchedEntity?>) {
    forall x :: x in m && x !in xs ==> x in m' && m'[x] == m[x]
  }

  /** `p` is the `d` child of `g`, which is the `s` child of `above`, and these are different entities. */
  ghost predicate Around(m: Mem, d: Side, g: SchedEntity, p: SchedEntity, above: SchedEntity?, s: Side) {
    && p in m && g in m && p != g && p != above && g != above
    && m[g].parent == above && m[g].Kid(d) == p
    && (above != null ==> above in m && m[above].Kid(s) == g && m[above].Kid(s.Flip()) != g)
    && var tmp := m[p].Kid(d.Flip());
       tmp != p && tmp != g && (tmp != null ==> tmp in m && tmp != above)
  }

  /** `p` has been lifted over `g`, and the two have got the colours `pb` and `gb`. */
  ghost predicate Rotation(st: Store, st': Store, d: Side, g: SchedEntity, p: SchedEntity, above: SchedEntity?, s: Side,
                           pb: bool, gb: bool) {
    var (m, m') := (st.mem, st'.mem);
    Around(m, d, g, p, above, s) &&
    var tmp := m[p].Kid(d.Flip());
    && p in m' && m'[p] == m[p].WithKid(d.Flip(), g).(parent := above, black := pb)
    && g in m' && m'[g] == m[g].WithKid(d, tmp).(parent := p, black := gb)
    && (tmp != null ==> tmp in m' && m'[tmp] == m[tmp].(parent := g))
    && (above != null ==> above in m' && m'[above] == m[above].WithKid(s, p))
    && Unchanged(m, m', {p, g, tmp, above})
    && st'.root == if above == null then p else st.root
  }

  /** `n` is the child of `p` on the side towards `g`, and its children are further entities. */
  ghost predicate Inner(m: Mem, d: Side, g: SchedEntity, p: SchedEntity, n: SchedEntity, above: SchedEntity?) {
    Around(m, d.Flip(), p, n, g, d) && n != above &&
    var (b1, b2) := (m[n].Kid(d), m[n].Kid(d.Flip()));
    && (b1 != null ==> b1 != b2 && b1 != above)
    && b2 != n && b2 != p && b2 != g && (b2 != null ==> b2 in m && b2 != above)
  }

  /** `n`, on the inner side of `p`, has been lifted over both `p` and `g`. */
  ghost predicate DoubleRotation(st: Store, st': Store, d: Side, g: SchedEntity, p: SchedEntity, n: SchedEntity,
                                 above: SchedEntity?, s: Side, nb: bool, gb: bool) {
    var (m, m') := (st.mem, st'.mem);
    Around(m, d, g, p, above, s) && Inner(m, d, g, p, n, above) &&
    var (b1, b2) := (m[n].Kid(d), m[n].Kid(d.Flip()));
    && n in m' && m'[n] == MkCell(d, above, nb, p, g)
    && p in m' && m'[p] == m[p].WithKid(d.Flip(), b1).(parent := n)
    && g in m' && m'[g] == m[g].WithKid(d, b2).(parent := n, black := gb)
    && (b1 != null ==> b1 in m' && m'[b1] == m[b1].(parent := p))
    && (b2 != null ==> b2 in m' && m'[b2] == m[b2].(parent := g))
    && (above != null ==> above in m' && m'[above] == m[above].WithKid(s, n))
    && Unchanged(m, m', {p, g, n, b1, b2, above})
    && st'.root == if above == null then n else st.root
  }

  /** The cells after the first half of a double rotation. */
  function Halfway(st: Store, d: Side, g: SchedEntity, p: SchedEntity, n: SchedEntity): Store
    requires g in st.mem && p in st.mem && n in st.mem
  {
    var m := st.mem;
    var b1 := m[n].Kid(d);
    var m1 := m[n := m[n].WithKid(d, p).(parent := g)]
               [p := m[p].WithKid(d.Flip(), b1).(parent := n)]
               [g := m[g].WithKid(d, n)];
    Store(if b1 == null || b1 !in m then m1 else m1[b1 := m[b1].(parent := p)], st.root)
  }

  lemma {:induction false} FirstHalf(st: Store, d: Side, g: SchedEntity, p: SchedEntity, n: SchedEntity,
                                     above: SchedEntity?, s: Side)
    requires Around(st.mem, d, g, p, above, s) && Around(st.mem, d.Flip(), p, n, g, d)
    ensures Rotation(st, Halfway(st, d, g, p, n), d.Flip(), p, n, g, d, st.mem[n].black, st.mem[p].black)
  {
  }

  lemma {:induction false} SecondHalf(st: Store, st': Store, d: Side, g: SchedEntity, p: SchedEntity, n: SchedEntity,
                                      above: SchedEntity?, s: Side, nb: bool, gb: bool)
    requires DoubleRotation(st, st', d, g, p, n, above, s, nb, gb)
    ensures Rotation(Halfway(st, d, g, p, n), st', d, g, n, above, s, nb, gb)
  {
  }

  /** What `st` says about the three subtrees around `p` and `g`, `p` being the `d` child of `g`. */
  lemma {:induction false} Apart(st: Store, c: Path, d: Side, a: Tree, p: SchedEntity, pb: bool, b: Tree,
                                 g: SchedEntity, gb: bool, u: Tree)
    requires Stores(st, Plug(c, Branch(d, Branch(d, a, p, pb, b), g, gb, u)))
    ensures g in st.mem && st.mem[g] == MkCell(d, Above(c, null), gb, p, Root(u))
    ensures p in st.mem && st.mem[p] == MkCell(d, g, pb, Root(a), Root(b))
    ensures Linked(st.mem, a, p) && Linked(st.mem, b, p) && Linked(st.mem, u, g) && LinkedPath(st.mem, c, g, null)
    ensures Distinct(b) && DistinctPath(c)
    ensures p != g && p !in Nodes(a) && p !in Nodes(b) && p !in Nodes(u) && p !in PathNodes(c)
    ensures g !in Nodes(a) && g !in Nodes(b) && g !in Nodes(u) && g !in PathNodes(c)
    ensures Nodes(a) !! Nodes(b) && Nodes(a) !! Nodes(u) && Nodes(b) !! Nodes(u)
    ensures Nodes(a) !! PathNodes(c) && Nodes(b) !! PathNodes(c) && Nodes(u) !! PathNodes(c)
  {
    var pt := Branch(d, a, p, pb, b);
    LinkedPlug(st.mem, c, Branch(d, pt, g, gb, u), null);
    DistinctPlug(c, Branch(d, pt, g, gb, u));
    BranchLinks(st.mem, d, pt, g, gb, u, Above(c, null));
    BranchLinks(st.mem, d, a, p, pb, b, g);
  }

  lemma {:induction false} IsAround(st: Store, c: Path, d: Side, a: Tree, p: SchedEntity, pb: bool, b: Tree,
                                    g: SchedEntity, gb: bool, u: Tree)
    requires Stores(st, Plug(c, Branch(d, Branch(d, a, p, pb, b), g, gb, u)))
    ensures Around(st.mem, d, g, p, Above(c, null), SideOf(c))
  {
    Apart(st, c, d, a, p, pb, b, g, gb, u);
    AboveCell(st.mem, c, g);
    AroundIs(st.mem, c, d, Root(a), p, pb, b, g, gb, Root(u));
  }

  /** The node above the hole, its link into the hole and its other link. */
  lemma {:induction false} AboveCell(m: Mem, c: Path, g: SchedEntity)
    requires LinkedPath(m, c, g, null) && DistinctPath(c) && g !in PathNodes(c)
    ensures var above := Above(c, null);
            above != null ==> above in m && above in PathNodes(c) && m[above].Kid(SideOf(c)) == g
                              && m[above].Kid(SideOf(c).Flip()) != g
  {
    if c.Step? && c.sib.Node? { assert c.sib.elem in PathNodes(c); }
  }

  lemma {:induction false} AroundIs(m: Mem, c: Path, d: Side, near: SchedEntity?, p: SchedEntity, pb: bool, b: Tree,
                                    g: SchedEntity, gb: bool, far: SchedEntity?)
    requires g in m && m[g] == MkCell(d, Above(c, null), gb, p, far) && p in m
             && m[p] == MkCell(d, g, pb, near, Root(b))
    requires p != g && p !in PathNodes(c) && g !in PathNodes(c) && p !in Nodes(b) && g !in Nodes(b)
             && Nodes(b) !! PathNodes(c)
    requires b.Node? ==> b.elem in m && b.elem in Nodes(b)
    requires var above := Above(c, null);
             above != null ==> above in m && above in PathNodes(c) && m[above].Kid(SideOf(c)) == g
                               && m[above].Kid(SideOf(c).Flip()) != g
    ensures Around(m, d, g, p, Above(c, null), SideOf(c))
  {
  }

  lemma {:induction false} RotationAgrees(st: Store, m': Mem, c: Path, d: Side, a: Tree, p: SchedEntity, pb: bool,
                                          b: Tree, g: SchedEntity, gb: bool, u: Tree)
    requires Stores(st, Plug(c, Branch(d, Branch(d, a, p, pb, b), g, gb, u)))
    requires Unchanged(st.mem, m', {p, g, Root(b), Above(c, null)})
    ensures Agree(st.mem, m', Beyond(c)) && Agree(st.mem, m', Nodes(u))
    ensures Agree(st.mem, m', Nodes(a)) && Agree(st.mem, m', Below(b))
  {
    Apart(st, c, d, a, p, pb, b, g, gb, u);
    RootApart(c, b);
    AgreeOutside(st.mem, m', p, g, Root(b), Above(c, null), Beyond(c));
    AgreeOutside(st.mem, m', p, g, Root(b), Above(c, null), Nodes(u));
    AgreeOutside(st.mem, m', p, g, Root(b), Above(c, null), Nodes(a));
    AgreeOutside(st.mem, m', p, g, Root(b), Above(c, null), Below(b));
  }

  lemma {:induction false} RootApart(c: Path, b: Tree)
    requires Distinct(b) && DistinctPath(c)
    ensures Root(b) !in Below(b) && Below(b) <= Nodes(b) && (Root(b) != null ==> Root(b) in Nodes(b))
    ensures Above(c, null) !in Beyond(c) && Beyond(c) <= PathNodes(c)
            && (Above(c, null) != null ==> Above(c, null) in PathNodes(c))
  {
  }

  lemma {:induction false} AgreeOutside(m: Mem, m': Mem, p: SchedEntity, g: SchedEntity, r: SchedEntity?,
                                        above: SchedEntity?, s: set<SchedEntity>)
    requires Unchanged(m, m', {p, g, r, above}) && p !in s && g !in s && r !in s && above !in s
    ensures Agree(m, m', s)
  {
  }

  /** A rotation of the cells is the rotation of the tree they store, and keeps its order. */
  lemma {:induction false} RotationStores(st: Store, st': Store, c: Path, d: Side, a: Tree, p: SchedEntity, pb: bool,
                                          b: Tree, g: SchedEntity, gb: bool, u: Tree, pb': bool, gb': bool)
    requires Stores(st, Plug(c, Branch(d, Branch(d, a, p, pb, b), g, gb, u)))
    requires Rotation(st, st', d, g, p, Above(c, null), SideOf(c), pb', gb')
    ensures Stores(st', Plug(c, Branch(d, a, p, pb', Branch(d, b, g, gb', u))))
    ensures InOrder(Plug(c, Branch(d, a, p, pb', Branch(d, b, g, gb', u)))) ==
            InOrder(Plug(c, Branch(d, Branch(d, a, p, pb, b), g, gb, u)))
  {
    Apart(st, c, d, a, p, pb, b, g, gb, u);
    RotationAgrees(st, st'.mem, c, d, a, p, pb, b, g, gb, u);
    Rotated(st.mem, st'.mem, c, d, a, p, pb, b, g, gb, u, pb', gb');
    RotatedInOrder(c, d, a, p, pb, b, g, gb, u, pb', gb');
  }

  lemma {:induction false} Rotated(m: Mem, m': Mem, c: Path, d: Side, a: Tree, p: SchedEntity, pb: bool, b: Tree,
                                   g: SchedEntity, gb: bool, u: Tree, pb': bool, gb': bool)
    requires var t := Branch(d, Branch(d, a, p, pb, b), g, gb, u);
             Linked(m, Plug(c, t), null) && Distinct(Plug(c, t))
    requires Linked(m, a, p) && Linked(m, b, p) && Linked(m, u, g) && Distinct(b)
    requires p in m' && m'[p] == MkCell(d, Above(c, null), pb', Root(a), g)
    requires g in m' && m'[g] == MkCell(d, p, gb', Root(b), Root(u))
    requires b.Node? ==> b.elem in m && b.elem in m' && m'[b.elem] == m[b.elem].(parent := g)
    requires c.Step? ==> c.elem in m && c.elem in m' && m'[c.elem] == m[c.elem].WithKid(c.side, p)
    requires Agree(m, m', Beyond(c)) && Agree(m, m', Nodes(a)) && Agree(m, m', Nodes(u)) && Agree(m, m', Below(b))
    ensures Linked(m', Plug(c, Branch(d, a, p, pb', Branch(d, b, g, gb', u))), null)
  {
    var far := Branch(d, b, g, gb', u);
    LinkedFrame(m, m', a, p);
    LinkedFrame(m, m', u, g);
    Reparent(m, m', b, p, g);
    BranchLinks(m', d, b, g, gb', u, p);
    BranchLinks(m', d, a, p, pb', far, Above(c, null));
    Replace(m, m', c, Branch(d, Branch(d, a, p, pb, b), g, gb, u), Branch(d, a, p, pb', far));
  }

  lemma {:induction false} RotatedInOrder(c: Path, d: Side, a: Tree, p: SchedEntity, pb: bool, b: Tree, g: SchedEntity,
                                          gb: bool, u: Tree, pb': bool, gb': bool)
    ensures var t := Plug(c, Branch(d, Branch(d, a, p, pb, b), g, gb, u));
            var t' := Plug(c, Branch(d, a, p, pb', Branch(d, b, g, gb', u)));
            && InOrder(t') == InOrder(t) && (Distinct(t) ==> Distinct(t'))
            && Root(t') == if c.Top? then p else Root(t)
  {
    var t := Branch(d, Branch(d, a, p, pb, b), g, gb, u);
    var t' := Branch(d, a, p, pb', Branch(d, b, g, gb', u));
    if d.Left? {
      Reassoc(InOrder(a), p, InOrder(b), g, InOrder(u));
    } else {
      Reassoc(InOrder(u), g, InOrder(b), p, InOrder(a));
    }
    SameInOrder(c, t, t');
    RootPlug(c, t, t');
  }

  lemma {:induction false} Reassoc(a: seq<SchedEntity>, p: SchedEntity, b: seq<SchedEntity>, g: SchedEntity,
                                   u: seq<SchedEntity>)
    ensures (a + [p] + b) + [g] + u == a + [p] + (b + [g] + u)
  {
  }

  lemma {:induction false} RootPlug(c: Path, t: Tree, t': Tree)
    ensures c.Step? ==> Root(Plug(c, t)) == Root(Plug(c, t')) && Plug(c, t).Node?
  {
    match c
    case Top =>
    case Step(d, e, black, sib, up) => RootPlug(up, Branch(d, t, e, black, sib), Branch(d, t', e, black, sib));
  }

  lemma {:induction false} DoubleRotationStores(st: Store, st': Store, c: Path, d: Side, a: Tree, p: SchedEntity,
                                                pb: bool,
                                                b1: Tree, n: SchedEntity, nb: bool, b2: Tree, g: SchedEntity, gb: bool,
                                                    u: Tree, nb': bool, gb': bool)
    requires Stores(st, Plug(c, Branch(d, Branch(d, a, p, pb, Branch(d, b1, n, nb, b2)), g, gb, u)))
    requires DoubleRotation(st, st', d, g, p, n, Above(c, null), SideOf(c), nb', gb')
    ensures Stores(st', Plug(c, Branch(d, Branch(d, a, p, pb, b1), n, nb', Branch(d, b2, g, gb', u))))
    ensures InOrder(Plug(c, Branch(d, Branch(d, a, p, pb, b1), n, nb', Branch(d, b2, g, gb', u))))
         == InOrder(Plug(c, Branch(d, Branch(d, a, p, pb, Branch(d, b1, n, nb, b2)), g, gb, u)))
  {
    FirstHalf(st, d, g, p, n, Above(c, null), SideOf(c));
    SecondHalf(st, st', d, g, p, n, Above(c, null), SideOf(c), nb', gb');
    var mid := Halfway(st, d, g, p, n);
    var nt := Branch(d, b1, n, nb, b2);
    Apart(st, c, d, a, p, pb, nt, g, gb, u);
    BranchLinks(st.mem, d, b1, n, nb, b2, p);
    RotationStores(st, mid, Step(d, g, gb, u, c), d.Flip(), b2, n, nb, b1, p, pb, a, nb, pb);
    RotationStores(mid, st', c, d, Branch(d, a, p, pb, b1), n, nb, b2, g, gb, u, nb', gb');
  }

  lemma {:induction false} PaintStores(st: Store, st': Store, c: Path, l: Tree, x: SchedEntity, was: bool, r: Tree,
                                       black: bool)
    requires Stores(st, Plug(c, Node(l, x, was, r)))
    requires x in st.mem ==> st' == st.(mem := st.mem[x := st.mem[x].(black := black)])
    ensures x in st.mem
    ensures Stores(st', Plug(c, Node(l, x, black, r)))
    ensures InOrder(Plug(c, Node(l, x, black, r))) == InOrder(Plug(c, Node(l, x, was, r)))
  {
    var t, t' := Node(l, x, was, r), Node(l, x, black, r);
    var m, m' := st.mem, st'.mem;
    LinkedPlug(m, c, t, null);
    DistinctPlug(c, t);
    LinkedFrame(m, m', l, x);
    LinkedFrame(m, m', r, x);
    Replace(m, m', c, t, t');
    SameInOrder(c, t, t');
    RootPlug(c, t, t');
  }

  lemma {:induction false} PaintBranch(st: Store, st': Store, c: Path, d: Side, near: Tree, x: SchedEntity, was: bool,
                                       far: Tree, black: bool)
    requires Stores(st, Plug(c, Branch(d, near, x, was, far)))
    requires x in st.mem ==> st' == st.(mem := st.mem[x := st.mem[x].(black := black)])
    ensures x in st.mem
    ensures Stores(st', Plug(c, Branch(d, near, x, black, far)))
    ensures InOrder(Plug(c, Branch(d, near, x, black, far))) == InOrder(Plug(c, Branch(d, near, x, was, far)))
  {
    if d.Left? { PaintStores(st, st', c, near, x, was, far, black); }
    else { PaintStores(st, st', c, far, x, was, near, black); }
  }
}
