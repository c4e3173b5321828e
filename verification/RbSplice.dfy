/** `__rb_erase_augmented` (src/rbtree.c:205-299): taking one node out of the links. */
module RbSplice {
  import opened Entities
  import opened Seqs
  import opened RbShape
  import opened RbLinks

  function Blacken(t: Tree): Tree { if t.Leaf? then t else t.(black := true) }

  // ----- a node with at most one child -----

  /** `kid` has taken over the parent and the colour of `x`. */
  ghost predicate Spliced(st: Store, st': Store, x: SchedEntity, kid: SchedEntity?, above: SchedEntity?, s: Side) {
    var (m, m') := (st.mem, st'.mem);
    x in m
    && (kid != null ==> kid in m && kid in m' && m'[kid] == m[kid].(parent := above, black := m[x].black))
    && (above != null ==> above in m && above in m' && m'[above] == m[above].WithKid(s, kid))
    && Unchanged(m, m', {kid, above})
    && st'.root == if above == null then kid else st.root
  }

  lemma {:induction false} SplicedStores(st: Store, st': Store, c: Path, d: Side, k: Tree, x: SchedEntity, black: bool)
    requires Stores(st, Plug(c, Branch(d, k, x, black, Leaf))) && (k.Node? ==> black)
    requires Spliced(st, st', x, Root(k), Above(c, null), SideOf(c))
    ensures Stores(st', Plug(c, Blacken(k)))
    ensures InOrder(Plug(c, Blacken(k))) == Before(c) + InOrder(k) + After(c)
  {
    var m, m' := st.mem, st'.mem;
    var t := Branch(d, k, x, black, Leaf);
    LinkedPlug(m, c, t, null);
    DistinctPlug(c, t);
    DistinctPlug(c, Blacken(k));
    BranchLinks(m, d, k, x, black, Leaf, Above(c, null));
    if k.Node? {
      LinkedFrame(m, m', k.left, k.elem);
      LinkedFrame(m, m', k.right, k.elem);
    }
    Replace(m, m', c, t, Blacken(k));
    InOrderPlug(c, Blacken(k));
    RootPlug(c, t, Blacken(k));
  }

  /** Where a node with at most one child is taken out, either that child is red and can be painted black, or the
      node was red, or the hole now lacks one black node. */
  lemma {:induction false} SplicedRb(c: Path, d: Side, k: Tree, x: SchedEntity, black: bool)
    requires RedBlack(Plug(c, Branch(d, k, x, black, Leaf)))
    ensures k.Node? ==> black && RedBlack(Plug(c, Blacken(k)))
    ensures k.Leaf? && !black ==> RedBlack(Plug(c, Leaf))
    ensures k.Leaf? && black ==> RbPath(c, 1)
    ensures k.Leaf? && c.Top? ==> RedBlack(Plug(c, Leaf))
  {
    assert Rb(Leaf, 0);
    var h := RbSplit(c, Branch(d, k, x, black, Leaf));
    RbBranch(d, k, x, black, Leaf, if black then h - 1 else h);
    if k.Node? { RbJoin(c, Blacken(k), 1); }
    else if !black { RbJoin(c, Leaf, 0); }
  }

  lemma {:induction false} BeforeSplice(st: Store, c: Path, d: Side, k: Tree, x: SchedEntity, black: bool)
    requires Stores(st, Plug(c, Branch(d, k, x, black, Leaf)))
    ensures x in st.mem && st.mem[x] == MkCell(d, Above(c, null), black, Root(k), null)
    ensures var above := Above(c, null);
            above != null ==> above in st.mem && above != x && above != Root(k) && st.mem[above].Kid(SideOf(c)) == x
                              && st.mem[above].Kid(SideOf(c).Flip()) != x
    ensures k.Node? ==> k.elem in st.mem && k.elem != x
  {
    LinkedPlug(st.mem, c, Branch(d, k, x, black, Leaf), null);
    DistinctPlug(c, Branch(d, k, x, black, Leaf));
    BranchLinks(st.mem, d, k, x, black, Leaf, Above(c, null));
  }

  // ----- a node with two children -----

  /** A path that keeps to the left. */
  predicate LeftSpine(p: Path) { p.Step? ==> p.side.Left? && LeftSpine(p.up) }

  lemma {:induction false} SpineBefore(p: Path)
    requires LeftSpine(p)
    ensures Before(p) == []
  {
    if p.Step? { SpineBefore(p.up); }
  }

  /** Only the parent link of the topmost node of the path has changed. */
  lemma {:induction false} Rebase(m: Mem, m': Mem, p: Path, hole: SchedEntity?, base: SchedEntity?, base': SchedEntity?)
    requires LinkedPath(m, p, hole, base) && DistinctPath(p)
    requires var top := TopNode(p);
             Agree(m, m', PathNodes(p) - {top}) && (top != null ==> top in m && top in m'
                                                                    && m'[top] == m[top].(parent := base'))
    ensures LinkedPath(m', p, hole, base')
  {
    if p.Step? {
      TopNodeInside(p.up);
      LinkedFrame(m, m', p.sib, p.elem);
      Rebase(m, m', p.up, p.elem, base, base');
    }
  }

  function TopNode(p: Path): SchedEntity? {
    if p.Top? then null else if p.up.Top? then p.elem else TopNode(p.up)
  }

  lemma {:induction false} TopNodeInside(p: Path)
    ensures p.Step? ==> TopNode(p) != null && TopNode(p) in PathNodes(p)
    ensures forall t: Tree :: p.Step? ==> Root(Plug(p, t)) == TopNode(p)
  {
    if p.Step? && p.up.Step? {
      TopNodeInside(p.up);
    }
  }

  /** `s`, the in-order successor of `x`, has left its place below `sp` to its right child `kid` and has taken over the
      place, the colour and the children of `x`; `sp` is `s` itself when `s` was the right child of `x`. */
  ghost predicate Succeeded(st: Store, st': Store, x: SchedEntity, s: SchedEntity, ln: SchedEntity, rn: SchedEntity,
                            sp: SchedEntity,
                            kid: SchedEntity?, above: SchedEntity?, side: Side) {
    var (m, m') := (st.mem, st'.mem);
    && x in m && s in m' && ln in m && ln in m' && sp in m && sp in m' && rn in m && rn in m'
    && m'[s] == Cell(above, m[x].black, ln, if sp == s then kid else rn)
    && m'[ln] == m[ln].(parent := s)
    && (kid != null ==> kid in m && kid in m' && m'[kid] == m[kid].(parent := sp, black := true))
    && (sp != s ==> m'[rn] == (if sp == rn then m[rn].(left := kid) else m[rn]).(parent := s))
    && (sp != s && sp != rn ==> m'[sp] == m[sp].(left := kid))
    && (above != null ==> above in m && above in m' && m'[above] == m[above].WithKid(side, s))
    && Unchanged(m, m', {s, ln, kid, sp, rn, above})
    && st'.root == if above == null then s else st.root
  }

  /** The entities that `Succeeded` speaks of, before the writes. */
  ghost predicate CanTakePlace(m: Mem, x: SchedEntity, s: SchedEntity, sp: SchedEntity, kid: SchedEntity?, side: Side) {
    && x in m && s in m && sp in m &&
    var (ln, rn, above) := (m[x].left, m[x].right, m[x].parent);
    && ln in m && rn in m && ln != rn && ln != s && ln != sp && ln != kid && ln != x && ln != above
    && rn != x && rn != above && s != x && s != above && sp != x && sp != above && x != above
    && m[s].right == kid && (kid != null ==> kid in m && kid != s && kid != x && kid != sp && kid != rn && kid != above)
    && (if sp == s then rn == s else rn != s)
    && (above != null ==> above in m && m[above].Kid(side) == x && m[above].Kid(side.Flip()) != x)
  }

  ghost predicate TakenChildren(m: Mem, m': Mem, x: SchedEntity, s: SchedEntity, sp: SchedEntity, kid: SchedEntity?) {
    && x in m && s in m && sp in m && m'.Keys == m.Keys &&
    var (ln, rn) := (m[x].left, m[x].right);
    && ln in m && rn in m
    && m'[s] == m[s].(left := ln, right := if sp == s then kid else rn)
    && m'[ln] == m[ln].(parent := s)
    && (sp != s ==> m'[rn] == (if sp == rn then m[rn].(left := kid) else m[rn]).(parent := s))
    && (sp != s && sp != rn ==> m'[sp] == m[sp].(left := kid))
    && Unchanged(m, m', {s, ln, rn, sp})
  }

  function TakenRight(m: Mem, s: SchedEntity, rn: SchedEntity, sp: SchedEntity, kid: SchedEntity?): Mem
    requires s in m && rn in m && sp in m && s != rn && s != sp
  {
    var m1 := m[sp := m[sp].(left := kid)][s := m[s].(right := rn)];
    m1[rn := m1[rn].(parent := s)]
  }

  function TakenLeft(m: Mem, s: SchedEntity, ln: SchedEntity): Mem
    requires s in m && ln in m && s != ln
  {
    m[s := m[s].(left := ln)][ln := m[ln].(parent := s)]
  }

  lemma {:induction false} ChildrenTaken(m: Mem, m1: Mem, m2: Mem, x: SchedEntity, s: SchedEntity, sp: SchedEntity,
                                         kid: SchedEntity?, side: Side)
    requires CanTakePlace(m, x, s, sp, kid, side)
    requires m1 == if sp == s then m else TakenRight(m, s, m[x].right, sp, kid)
    requires m2 == TakenLeft(m1, s, m[x].left)
    ensures TakenChildren(m, m2, x, s, sp, kid)
  {
  }

  lemma {:induction false} TakenChildrenKeeps(m: Mem, m1: Mem, x: SchedEntity, s: SchedEntity, sp: SchedEntity,
                                              kid: SchedEntity?, side: Side)
    requires CanTakePlace(m, x, s, sp, kid, side) && TakenChildren(m, m1, x, s, sp, kid)
    ensures m1[x] == m[x]
    ensures var above := m[x].parent;
            above != null ==> above in m1 && m1[above].Kid(side) == x && m1[above].Kid(side.Flip()) != x
  {
  }

  lemma {:induction false} TakenPlace(m0: Mem, m1: Mem, m2: Mem, m3: Mem, x: SchedEntity, s: SchedEntity,
                                      sp: SchedEntity, kid: SchedEntity?, side: Side)
    requires CanTakePlace(m0, x, s, sp, kid, side) && TakenChildren(m0, m1, x, s, sp, kid)
    requires m2.Keys == m1.Keys
    requires m2[s] == m1[s].(parent := m0[x].parent, black := m0[x].black)
    requires var above := m0[x].parent;
             (above != null ==> m2[above] == m1[above].WithKid(side, s)) && Unchanged(m1, m2, {s, above})
    requires m3 == if kid == null then m2 else m2[kid := m2[kid].(parent := sp, black := true)]
    ensures forall root: SchedEntity? ::
              Succeeded(Store(m0, root), Store(m3, if m0[x].parent == null then s else root), x, s, m0[x].left,
                  m0[x].right, sp, kid, m0[x].parent, side)
  {
  }

  /** The left spine, from the right child of `x` to the parent of the successor, after the successor has gone. */
  lemma {:induction false} SpineStored(m: Mem, m': Mem, p: Path, hole: SchedEntity?, hole': SchedEntity?,
                                       base: SchedEntity?, base': SchedEntity?)
    requires LinkedPath(m, p, hole, base) && DistinctPath(p) && LeftSpine(p)
    requires var top := TopNode(p);
             p.Step? ==>
               && Agree(m, m', PathNodes(p) - {top, p.elem}) && top in m && top in m' && p.elem in m'
               && m'[top] == (if top == p.elem then m[top].(left := hole') else m[top]).(parent := base')
               && (top != p.elem ==> m'[p.elem] == m[p.elem].(left := hole'))
    ensures LinkedPath(m', p, hole', base')
  {
    if p.Step? {
      var m1 := m[p.elem := m[p.elem].(left := hole')];
      TopNodeInside(p);
      Rehole(m, m1, p, hole, hole', base);
      Rebase(m1, m', p, hole', base, base');
    }
  }

  lemma {:induction false} SucceededApart(st: Store, c: Path, l: Tree, x: SchedEntity, nb: bool, p: Path,
                                          s: SchedEntity, sb: bool, k: Tree)
    requires Stores(st, Plug(c, Node(l, x, nb, Plug(p, Node(Leaf, s, sb, k)))))
    ensures x in st.mem && st.mem[x] == Cell(Above(c, null), nb, Root(l), Root(Plug(p, Node(Leaf, s, sb, k))))
    ensures s in st.mem && st.mem[s] == Cell(Above(p, x), sb, null, Root(k))
    ensures Linked(st.mem, l, x) && Linked(st.mem, k, s) && LinkedPath(st.mem, p, s, x)
            && LinkedPath(st.mem, c, x, null)
    ensures Distinct(l) && Distinct(k) && DistinctPath(p) && DistinctPath(c)
    ensures x != s && x !in Nodes(l) && x !in Nodes(k) && x !in PathNodes(p) && x !in PathNodes(c)
    ensures s !in Nodes(l) && s !in Nodes(k) && s !in PathNodes(p) && s !in PathNodes(c)
    ensures Nodes(l) !! Nodes(k) && Nodes(l) !! PathNodes(p) && Nodes(l) !! PathNodes(c)
    ensures Nodes(k) !! PathNodes(p) && Nodes(k) !! PathNodes(c) && PathNodes(p) !! PathNodes(c)
  {
    var S := Node(Leaf, s, sb, k);
    LinkedPlug(st.mem, c, Node(l, x, nb, Plug(p, S)), null);
    DistinctPlug(c, Node(l, x, nb, Plug(p, S)));
    LinkedPlug(st.mem, p, S, x);
    DistinctPlug(p, S);
  }

  lemma {:induction false} SucceededLeft(st: Store, st': Store, c: Path, l: Tree, x: SchedEntity, nb: bool, p: Path,
                                         s: SchedEntity, sb: bool, k: Tree)
    requires l.Node? && LeftSpine(p) && Stores(st, Plug(c, Node(l, x, nb, Plug(p, Node(Leaf, s, sb, k)))))
    requires var r := Plug(p, Node(Leaf, s, sb, k));
             r.Node? && Succeeded(st, st', x, s, l.elem, r.elem, if p.Top? then s
                 else p.elem, Root(k), Above(c, null), SideOf(c))
    ensures Linked(st'.mem, l, s)
  {
    SucceededApart(st, c, l, x, nb, p, s, sb, k);
    TopNodeInside(p);
    Reparent(st.mem, st'.mem, l, x, s);
  }

  lemma {:induction false} SucceededKid(st: Store, st': Store, c: Path, l: Tree, x: SchedEntity, nb: bool, p: Path,
                                        s: SchedEntity, sb: bool, k: Tree)
    requires l.Node? && LeftSpine(p) && Stores(st, Plug(c, Node(l, x, nb, Plug(p, Node(Leaf, s, sb, k)))))
    requires var r := Plug(p, Node(Leaf, s, sb, k));
             r.Node? && Succeeded(st, st', x, s, l.elem, r.elem, if p.Top? then s
                 else p.elem, Root(k), Above(c, null), SideOf(c))
    ensures Linked(st'.mem, Blacken(k), Above(p, s))
  {
    SucceededApart(st, c, l, x, nb, p, s, sb, k);
    TopNodeInside(p);
    if k.Node? {
      LinkedFrame(st.mem, st'.mem, k.left, k.elem);
      LinkedFrame(st.mem, st'.mem, k.right, k.elem);
    }
  }

  lemma {:induction false} SucceededSpine(st: Store, st': Store, c: Path, l: Tree, x: SchedEntity, nb: bool, p: Path,
                                          s: SchedEntity, sb: bool, k: Tree)
    requires l.Node? && LeftSpine(p) && Stores(st, Plug(c, Node(l, x, nb, Plug(p, Node(Leaf, s, sb, k)))))
    requires var r := Plug(p, Node(Leaf, s, sb, k));
             r.Node? && Succeeded(st, st', x, s, l.elem, r.elem, if p.Top? then s
                 else p.elem, Root(k), Above(c, null), SideOf(c))
    ensures LinkedPath(st'.mem, p, Root(k), s)
  {
    SucceededApart(st, c, l, x, nb, p, s, sb, k);
    TopNodeInside(p);
    SpineStored(st.mem, st'.mem, p, s, Root(k), x, s);
  }

  /** Renaming `x` to `s` and taking `s` out of its old place keeps all entities distinct... */
  lemma {:induction false} SucceededDistinct(c: Path, l: Tree, x: SchedEntity, nb: bool, p: Path, s: SchedEntity,
                                             sb: bool, k: Tree)
    requires Distinct(Plug(c, Node(l, x, nb, Plug(p, Node(Leaf, s, sb, k)))))
    ensures Distinct(Plug(c, Node(l, s, nb, Plug(p, Blacken(k)))))
  {
    var S, k' := Node(Leaf, s, sb, k), Blacken(k);
    DistinctPlug(c, Node(l, x, nb, Plug(p, S)));
    DistinctPlug(p, S);
    DistinctPlug(p, k');
    DistinctPlug(c, Node(l, s, nb, Plug(p, k')));
  }

  /** ...and the others in their order. */
  lemma {:induction false} SucceededOrder(c: Path, l: Tree, nb: bool, p: Path, s: SchedEntity, sb: bool, k: Tree)
    requires LeftSpine(p)
    ensures InOrder(Plug(c, Node(l, s, nb, Plug(p, Blacken(k))))) == Before(c) + InOrder(l)
            + InOrder(Plug(p, Node(Leaf, s, sb, k))) + After(c)
  {
    var k' := Blacken(k);
    InOrderPlug(p, Node(Leaf, s, sb, k));
    InOrderPlug(p, k');
    InOrderPlug(c, Node(l, s, nb, Plug(p, k')));
    SpineBefore(p);
    RegroupKid(Before(c), InOrder(l), s, InOrder(k), After(p), After(c));
  }

  lemma {:induction false} RegroupKid(b: seq<SchedEntity>, l: seq<SchedEntity>, e: SchedEntity, k: seq<SchedEntity>,
                                      a: seq<SchedEntity>, z: seq<SchedEntity>)
    ensures b + (l + [e] + ([] + k + a)) + z == b + l + ([] + ([] + [e] + k) + a) + z
  {
    assert l + [e] + ([] + k + a) == l + ([] + ([] + [e] + k) + a);
    assert b + (l + ([] + ([] + [e] + k) + a)) == b + l + ([] + ([] + [e] + k) + a);
  }

  lemma {:induction false} SucceededTree(st: Store, st': Store, c: Path, l: Tree, x: SchedEntity, nb: bool, p: Path,
                                         s: SchedEntity, sb: bool, k: Tree)
    requires l.Node? && LeftSpine(p) && Stores(st, Plug(c, Node(l, x, nb, Plug(p, Node(Leaf, s, sb, k)))))
    requires var r := Plug(p, Node(Leaf, s, sb, k));
             r.Node? && Succeeded(st, st', x, s, l.elem, r.elem, if p.Top? then s
                 else p.elem, Root(k), Above(c, null), SideOf(c))
    ensures Linked(st'.mem, Node(l, s, nb, Plug(p, Blacken(k))), Above(c, null))
  {
    SucceededCell(st, st', c, l, x, nb, p, s, sb, k);
    SucceededLeft(st, st', c, l, x, nb, p, s, sb, k);
    SucceededKid(st, st', c, l, x, nb, p, s, sb, k);
    SucceededSpine(st, st', c, l, x, nb, p, s, sb, k);
    LinkedPlug(st'.mem, p, Blacken(k), s);
  }

  lemma {:induction false} SucceededCell(st: Store, st': Store, c: Path, l: Tree, x: SchedEntity, nb: bool, p: Path,
                                         s: SchedEntity, sb: bool, k: Tree)
    requires l.Node? && LeftSpine(p) && Stores(st, Plug(c, Node(l, x, nb, Plug(p, Node(Leaf, s, sb, k)))))
    requires var r := Plug(p, Node(Leaf, s, sb, k));
             r.Node? && Succeeded(st, st', x, s, l.elem, r.elem, if p.Top? then s
                 else p.elem, Root(k), Above(c, null), SideOf(c))
    ensures s in st'.mem && st'.mem[s] == Cell(Above(c, null), nb, l.elem, Root(Plug(p, Blacken(k))))
  {
    SucceededApart(st, c, l, x, nb, p, s, sb, k);
    TopNodeInside(p);
    RootPlug(p, Node(Leaf, s, sb, k), Blacken(k));
  }

  lemma {:induction false} SucceededBeyond(st: Store, st': Store, c: Path, l: Tree, x: SchedEntity, nb: bool, p: Path,
                                           s: SchedEntity, sb: bool, k: Tree)
    requires l.Node? && LeftSpine(p) && Stores(st, Plug(c, Node(l, x, nb, Plug(p, Node(Leaf, s, sb, k)))))
    requires var r := Plug(p, Node(Leaf, s, sb, k));
             r.Node? && Succeeded(st, st', x, s, l.elem, r.elem, if p.Top? then s
                 else p.elem, Root(k), Above(c, null), SideOf(c))
    ensures Agree(st.mem, st'.mem, Beyond(c))
    ensures c.Step? ==> c.elem in st.mem && c.elem in st'.mem && st'.mem[c.elem] == st.mem[c.elem].WithKid(c.side, s)
  {
    SucceededApart(st, c, l, x, nb, p, s, sb, k);
    var rn, sp := Root(Plug(p, Node(Leaf, s, sb, k))), if p.Top? then s else p.elem;
    SucceededOutside(c, l, p, s, k, rn, sp, Node(Leaf, s, sb, k));
    BeyondKept(st.mem, st'.mem, c, s, l.elem, Root(k), sp, rn);
  }

  /** The entities that are written to, but for the one above, are not on the path. */
  lemma {:induction false} SucceededOutside(c: Path, l: Tree, p: Path, s: SchedEntity, k: Tree, rn: SchedEntity?,
                                            sp: SchedEntity, t: Tree)
    requires l.Node? && Nodes(l) !! PathNodes(c) && Nodes(k) !! PathNodes(c) && PathNodes(p) !! PathNodes(c)
             && s !in PathNodes(c)
    requires t.Node? && t.elem == s && rn == Root(Plug(p, t)) && sp == if p.Top? then s else p.elem
    ensures l.elem !in PathNodes(c) && Root(k) !in PathNodes(c) && sp !in PathNodes(c) && rn !in PathNodes(c)
  {
    TopNodeInside(p);
  }

  lemma {:induction false} BeyondKept(m: Mem, m': Mem, c: Path, s: SchedEntity, ln: SchedEntity, kid: SchedEntity?,
                                      sp: SchedEntity, rn: SchedEntity?)
    requires Unchanged(m, m', {s, ln, kid, sp, rn, Above(c, null)}) && DistinctPath(c)
    requires s !in PathNodes(c) && ln !in PathNodes(c) && kid !in PathNodes(c) && sp !in PathNodes(c)
             && rn !in PathNodes(c)
    ensures Agree(m, m', Beyond(c))
  {
    forall x | x in Beyond(c) && x in m ensures x in m' && m'[x] == m[x] {
      assert x in PathNodes(c) && x != Above(c, null);
    }
  }

  lemma {:induction false} SucceededStores(st: Store, st': Store, c: Path, l: Tree, x: SchedEntity, nb: bool, p: Path,
                                           s: SchedEntity, sb: bool, k: Tree)
    requires l.Node? && LeftSpine(p) && Stores(st, Plug(c, Node(l, x, nb, Plug(p, Node(Leaf, s, sb, k)))))
    requires var r := Plug(p, Node(Leaf, s, sb, k));
             r.Node? && Succeeded(st, st', x, s, l.elem, r.elem, if p.Top? then s
                 else p.elem, Root(k), Above(c, null), SideOf(c))
    ensures Stores(st', Plug(c, Node(l, s, nb, Plug(p, Blacken(k)))))
  {
    var t, t' := Node(l, x, nb, Plug(p, Node(Leaf, s, sb, k))), Node(l, s, nb, Plug(p, Blacken(k)));
    SucceededTree(st, st', c, l, x, nb, p, s, sb, k);
    SucceededBeyond(st, st', c, l, x, nb, p, s, sb, k);
    Replace(st.mem, st'.mem, c, t, t');
    SucceededDistinct(c, l, x, nb, p, s, sb, k);
    RootPlug(c, t, t');
  }

  /** Colours do not see the renaming, so the successor leaves its old place as a node with at most one child does. */
  lemma {:induction false} SucceededRb(c: Path, l: Tree, x: SchedEntity, nb: bool, p: Path, s: SchedEntity, sb: bool,
                                       k: Tree) returns (c': Path)
    requires RedBlack(Plug(c, Node(l, x, nb, Plug(p, Node(Leaf, s, sb, k)))))
    ensures c' == Append(p, Step(Right, s, nb, l, c))
    ensures forall t: Tree {:trigger Plug(c', t)} :: Plug(c', t) == Plug(c, Node(l, s, nb, Plug(p, t)))
    ensures k.Node? ==> RedBlack(Plug(c', Blacken(k)))
    ensures k.Leaf? && !sb ==> RedBlack(Plug(c', Leaf))
    ensures k.Leaf? && sb ==> RbPath(c', 1)
  {
    var S, q := Node(Leaf, s, sb, k), Step(Right, s, nb, l, c);
    c' := Append(p, q);
    forall t: Tree ensures Plug(c', t) == Plug(c, Node(l, s, nb, Plug(p, t))) {
      PlugAppend(p, q, t);
    }
    var h := RbSplit(c, Node(l, x, nb, Plug(p, S)));
    RbJoin(c, Node(l, s, nb, Plug(p, S)), h);
    assert RedBlack(Plug(c', S));
    SplicedRb(c', Right, k, s, sb);
  }

  /** The outcome of the writes: a red-black tree, or a hole that lacks one black node. */
  lemma {:induction false} SucceededDone(st: Store, st': Store, c: Path, l: Tree, x: SchedEntity, nb: bool, p: Path,
                                         s: SchedEntity, sb: bool, k: Tree)
      returns (tree: Tree, c': Path)
    requires l.Node? && LeftSpine(p) && Stores(st, Plug(c, Node(l, x, nb, Plug(p, Node(Leaf, s, sb, k)))))
    requires RedBlack(Plug(c, Node(l, x, nb, Plug(p, Node(Leaf, s, sb, k)))))
    requires var r := Plug(p, Node(Leaf, s, sb, k));
             r.Node? && Succeeded(st, st', x, s, l.elem, r.elem, if p.Top? then s
                 else p.elem, Root(k), Above(c, null), SideOf(c))
    ensures Stores(st', tree)
    ensures InOrder(tree) == Before(c) + InOrder(l) + InOrder(Plug(p, Node(Leaf, s, sb, k))) + After(c)
    ensures if k.Leaf? && sb then Removed(c', if p.Top? then s else p.elem, st')
            && tree == Plug(c', Leaf) else RedBlack(tree)
  {
    c' := SucceededRb(c, l, x, nb, p, s, sb, k);
    tree := Plug(c, Node(l, s, nb, Plug(p, Blacken(k))));
    assert tree == Plug(c', Blacken(k));
    SucceededStores(st, st', c, l, x, nb, p, s, sb, k);
    SucceededOrder(c, l, nb, p, s, sb, k);
  }

  /** The hole of `c` is empty and lacks one black node, and hangs from `rebalance`. */
  ghost predicate Removed(c: Path, rebalance: SchedEntity?, st: Store) {
    c.Step? && c.elem == rebalance && Stores(st, Plug(c, Leaf)) && RbPath(c, 1)
  }

  lemma {:induction false} OneChildOrder(c: Path, l: Tree, r: Tree)
    ensures l.Leaf? ==> Before(c) + InOrder(l) + InOrder(r) + After(c) == Before(c) + InOrder(r) + After(c)
    ensures r.Leaf? ==> Before(c) + InOrder(l) + InOrder(r) + After(c) == Before(c) + InOrder(l) + After(c)
  {
  }

  lemma {:induction false} RightLinked(st: Store, c: Path, l: Tree, x: SchedEntity, b: bool, r: Tree)
    requires Stores(st, Plug(c, Node(l, x, b, r)))
    ensures x in st.mem && st.mem[x].right == Root(r) && Linked(st.mem, r, x)
  {
    LinkedPlug(st.mem, c, Node(l, x, b, r), null);
  }

  lemma {:induction false} BeforeSuccession(st: Store, c: Path, l: Tree, x: SchedEntity, nb: bool, p: Path,
                                            s: SchedEntity, sb: bool, k: Tree)
    requires l.Node? && LeftSpine(p) && Stores(st, Plug(c, Node(l, x, nb, Plug(p, Node(Leaf, s, sb, k)))))
    ensures CanTakePlace(st.mem, x, s, if p.Top? then s else p.elem, Root(k), SideOf(c))
    ensures st.mem[x] == Cell(Above(c, null), nb, l.elem, Root(Plug(p, Node(Leaf, s, sb, k))))
            && st.mem[s] == Cell(Above(p, x), sb, null, Root(k))
  {
    SucceededApart(st, c, l, x, nb, p, s, sb, k);
    TopNodeInside(p);
    TopNodeStored(st.mem, p, s, x);
  }

  lemma {:induction false} TopNodeStored(m: Mem, p: Path, hole: SchedEntity?, base: SchedEntity?)
    requires LinkedPath(m, p, hole, base)
    ensures p.Step? ==> TopNode(p) in m
  {
    if p.Step? { TopNodeStored(m, p.up, p.elem, base); }
  }

  /** Taking `x` out of the order. */
  lemma {:induction false} Taken(t: Tree, c: Path, l: Tree, x: SchedEntity, b: bool, r: Tree)
    requires t == Plug(c, Node(l, x, b, r)) && Distinct(t)
    ensures InOrder(t) == (Before(c) + InOrder(l)) + [x] + (InOrder(r) + After(c))
    ensures Without(InOrder(t), x) == Before(c) + InOrder(l) + InOrder(r) + After(c)
    ensures (set y | y in Without(InOrder(t), x)) == Nodes(t) - {x}
    ensures x !in Before(c) + InOrder(l)
  {
    var a, z := Before(c) + InOrder(l), InOrder(r) + After(c);
    InOrderPlug(c, Node(l, x, b, r));
    Regroup(Before(c), InOrder(l), x, InOrder(r), After(c));
    DistinctNoDup(t);
    InOrderNodes(t);
    TakenMiddle(a, x, z);
  }

  lemma {:induction false} TakenMiddle(a: seq<SchedEntity>, x: SchedEntity, z: seq<SchedEntity>)
    requires NoDup(a + [x] + z)
    ensures x !in a && Without(a + [x] + z, x) == a + z
    ensures (set y | y in a + z) == (set y | y in a + [x] + z) - {x}
  {
    NoDupSplit(a, x, z);
    WithoutMiddle(a, x, z);
  }

  lemma {:induction false} TakenFirst(a: seq<SchedEntity>, x: SchedEntity, z: seq<SchedEntity>)
    requires x !in a
    ensures First(a + [x] + z) == x ==> First(a + z) == First(z)
    ensures First(a + [x] + z) != x ==> First(a + z) == First(a + [x] + z)
  {
    if a != [] {
      assert (a + [x] + z)[0] == a[0] && (a + z)[0] == a[0];
    } else {
      assert (a + [x] + z)[0] == x && a + z == z;
    }
  }

  /** Only the remaining nodes matter for what is stored. */
  lemma {:induction false} Shrunk(st: Store, t: Tree, S: set<SchedEntity>, x: SchedEntity, order: seq<SchedEntity>)
    requires Stores(st, t) && InOrder(t) == order && (set y | y in order) == S - {x}
    ensures Nodes(t) == S - {x}
    ensures forall m: Mem :: Agree(st.mem, m, Nodes(t)) ==> Stores(Store(m, st.root), t)
  {
    InOrderNodes(t);
    forall m: Mem | Agree(st.mem, m, Nodes(t)) ensures Stores(Store(m, st.root), t) {
      LinkedFrame(st.mem, m, t, null);
    }
  }

  // ----- linking a new leaf -----

  lemma {:induction false} BeforePlanting(st: Store, c: Path)
    requires Stores(st, Plug(c, Leaf)) && RedBlack(Plug(c, Leaf))
    ensures c.Step? ==> c.elem in st.mem && c.elem in Nodes(Plug(c, Leaf))
    ensures RbPath(c, 0)
  {
    LinkedPlug(st.mem, c, Leaf, null);
    DistinctPlug(c, Leaf);
    var h := RbSplit(c, Leaf);
  }

  lemma {:induction false} Planted(st: Store, st': Store, c: Path, x: SchedEntity)
    requires Stores(st, Plug(c, Leaf)) && x !in Nodes(Plug(c, Leaf))
    requires x in st'.mem && st'.mem[x] == Cell(Above(c, null), false, null, null)
    requires c.Step? ==> c.elem in st.mem && c.elem in st'.mem && st'.mem[c.elem] == st.mem[c.elem].WithKid(c.side, x)
    requires Unchanged(st.mem, st'.mem, {x, Above(c, null)})
    requires st'.root == if c.Top? then x else st.root
    ensures Stores(st', Plug(c, Node(Leaf, x, false, Leaf)))
  {
    var t := Node(Leaf, x, false, Leaf);
    DistinctPlug(c, Leaf);
    DistinctPlug(c, t);
    Replace(st.mem, st'.mem, c, Leaf, t);
    RootPlug(c, Leaf, t);
  }

  lemma {:induction false} PlantedOrder(c: Path, x: SchedEntity)
    ensures InOrder(Plug(c, Node(Leaf, x, false, Leaf))) == Before(c) + [x] + After(c)
    ensures Nodes(Plug(c, Node(Leaf, x, false, Leaf))) == Nodes(Plug(c, Leaf)) + {x}
    ensures InOrder(Plug(c, Leaf)) == Before(c) + After(c)
  {
    DistinctPlug(c, Leaf);
    DistinctPlug(c, Node(Leaf, x, false, Leaf));
    InOrderPlug(c, Node(Leaf, x, false, Leaf));
    InOrderPlug(c, Leaf);
  }
}
