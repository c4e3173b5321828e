/** src/rbtree.c: insertion into a tree of linked nodes, erasure and the successor, in place. */
module RbTree {
  import opened Entities
  import opened Seqs
  import opened RbShape
  import opened RbLinks
  import opened RbSteps
  import opened RbSplice

  /** `struct rb_root_cached`; `tree` is the tree that the links spell out. */
  class RbRootCached {
    var rbNode: SchedEntity?
    var leftmost: SchedEntity?
    ghost var tree: Tree

    ghost function Now(S: set<SchedEntity>): Store
      reads this`rbNode, S`parent, S`black, S`left, S`right
    {
      Store(Snap(S), rbNode)
    }

    constructor ()
      ensures rbNode == null && leftmost == null && tree == Leaf
    {
      rbNode, leftmost := null, null;
      tree := Leaf;
    }

    /** `__rb_change_child` */
    method ChangeChild(was: SchedEntity, now: SchedEntity?, parent: SchedEntity?, ghost s: Side)
      requires parent != null ==> parent.Kid(s) == was && parent.Kid(s.Flip()) != was
      modifies this`rbNode, (if parent == null then {} else {parent})`left,
               (if parent == null then {} else {parent})`right
      ensures rbNode == if parent == null then now else old(rbNode)
      ensures parent != null ==> parent.Kid(s) == now && parent.Kid(s.Flip()) == old(parent.Kid(s.Flip()))
    {
      if parent != null {
        if parent.left == was {
          parent.left := now;
        } else {
          parent.right := now;
        }
      } else {
        rbNode := now;
      }
    }

    /** `rb_set_parent_color` */
    method SetParentColor(x: SchedEntity, p: SchedEntity?, black: bool, ghost S: set<SchedEntity>)
      requires x in S
      modifies x`parent, x`black
      ensures Snap(S) == old(Snap(S))[x := old(Snap(S))[x].(parent := p, black := black)]
    {
      x.parent, x.black := p, black;
    }

    /** `rb_set_black` */
    method SetBlack(x: SchedEntity, ghost S: set<SchedEntity>)
      requires x in S
      modifies x`black
      ensures Snap(S) == old(Snap(S))[x := old(Snap(S))[x].(black := true)]
    {
      x.black := true;
    }

    /** `__rb_rotate_set_parents` */
    method RotateSetParents(was: SchedEntity, now: SchedEntity, black: bool, ghost s: Side, ghost S: set<SchedEntity>)
      requires was in S && now in S && was != now
      requires var above := was.parent;
               above != was && above != now && (above != null ==> above in S && above.Kid(s) == was
                                                                  && above.Kid(s.Flip()) != was)
      modifies this`rbNode, S`parent, S`black, S`left, S`right
      ensures var (m, m') := (old(Snap(S)), Snap(S));
              var above := m[was].parent;
              && m'[now] == m[now].(parent := above, black := m[was].black)
              && m'[was] == m[was].(parent := now, black := black)
              && (above != null ==> m'[above] == m[above].WithKid(s, now))
              && Unchanged(m, m', {was, now, above})
              && rbNode == if above == null then now else old(rbNode)
    {
      var parent := was.parent;
      now.parent, now.black := was.parent, was.black;
      was.parent, was.black := now, black;
      ChangeChild(was, now, parent, s);
    }

    /** The pointer writes every rotation starts with: `g` takes the inner subtree `tmp` of `p` as its `d` child
        and becomes the other child of `p`; `tmp` is painted black (`rb_set_parent_color`) or keeps its colour
        (`rb_set_parent`). */
    method Hook(g: SchedEntity, p: SchedEntity, tmp: SchedEntity?, d: Side, paint: bool, ghost S: set<SchedEntity>)
      requires g in S && p in S && g != p && tmp != g && tmp != p && (tmp != null ==> tmp in S)
      modifies S`parent, S`black, S`left, S`right
      ensures var (m, m') := (old(Snap(S)), Snap(S));
              && m'[g] == m[g].WithKid(d, tmp)
              && m'[p] == m[p].WithKid(d.Flip(), g)
              && (tmp != null ==> m'[tmp] == m[tmp].(parent := g, black := paint || m[tmp].black))
              && Unchanged(m, m', {g, p, tmp})
    {
      g.SetKid(d, tmp);
      p.SetKid(d.Flip(), g);
      if tmp != null {
        tmp.parent := g;
        if paint { tmp.black := true; }
      }
    }

    /** The tail shared by case 3 of `__rb_insert` and cases 1 and 4 of `__rb_erase_color`: `p` takes the place and the
        colour of `g`, whose child it was. */
    method Lift(g: SchedEntity, p: SchedEntity, tmp: SchedEntity?, d: Side, paint: bool, far: SchedEntity?, gb: bool,
                ghost above: SchedEntity?, ghost s: Side, ghost S: set<SchedEntity>)
      requires CanLift(Snap(S), g, p, tmp, far, above, s)
      modifies this`rbNode, S`parent, S`black, S`left, S`right
      ensures Lifted(old(Now(S)), Now(S), d, g, p, tmp, paint, far, above, s, gb)
    {
      ghost var m0 := Snap(S);
      Hook(g, p, tmp, d, paint, S);
      ghost var m1 := Snap(S);
      if far != null { SetParentColor(far, p, true, S); }
      ghost var m2 := Snap(S);
      RotateSetParents(g, p, gb, s, S);
      LiftedBy(m0, m1, m2, Snap(S), d, g, p, tmp, paint, far, above, s, gb);
    }

    /** Case 2 of `__rb_insert`: `node` is on the inner side of `parent`; its own parent link is left to case 3. */
    method InsertCase2(node: SchedEntity, parent: SchedEntity, d: Side, ghost S: set<SchedEntity>)
      requires node in S && parent in S && node != parent
      requires node.Kid(d) != parent && node.Kid(d) != node && (node.Kid(d) != null ==> node.Kid(d) in S)
      modifies S`parent, S`black, S`left, S`right
      ensures Turned(old(Snap(S)), Snap(S), d, node, parent)
    {
      var tmp := node.Kid(d);
      Hook(parent, node, tmp, d.Flip(), true, S);
      parent.parent, parent.black := node, false;
    }

    /** The restructuring half of `__rb_insert`, for a red `parent` that is the `d` child of a black `gparent`. */
    method InsertRotate(node: SchedEntity, parent: SchedEntity, gparent: SchedEntity, d: Side,
                        ghost above: SchedEntity?, ghost s: Side, ghost S: set<SchedEntity>)
      requires Around(Snap(S), d, gparent, parent, above, s) && gparent.black && !parent.black
      requires parent.Kid(d.Flip()) == node ==>
                 && Inner(Snap(S), d, gparent, parent, node, above)
                 && BlackOrNull(Snap(S), node.Kid(d)) && BlackOrNull(Snap(S), node.Kid(d.Flip()))
      requires parent.Kid(d.Flip()) != node ==> BlackOrNull(Snap(S), parent.Kid(d.Flip()))
      modifies this`rbNode, S`parent, S`black, S`left, S`right
      ensures if old(parent.Kid(d.Flip())) == node
              then DoubleRotation(old(Now(S)), Now(S), d, gparent, parent, node, above, s, true, false)
              else Rotation(old(Now(S)), Now(S), d, gparent, parent, above, s, true, false)
    {
      ghost var st := Now(S);
      var tmp := parent.Kid(d.Flip());
      if node == tmp {
        InsertCase2(node, parent, d, S);
        ghost var m1 := Snap(S);
        TurnedInPlace(st.mem, m1, d, gparent, parent, node, above, s);
        tmp := node.Kid(d.Flip());
        Lift(gparent, node, tmp, d, true, null, false, above, s, S);
        TurnedAndLifted(st, m1, Now(S), d, gparent, parent, node, above, s);
      } else {
        AroundLifts(st.mem, d, gparent, parent, above, s);
        Lift(gparent, parent, tmp, d, true, null, false, above, s, S);
      }
    }

    /** The restructuring step of `__rb_insert`, for a red `parent` with a black uncle: afterwards the tree is
        red-black again. */
    method InsertRestructure(node: SchedEntity, parent: SchedEntity, gparent: SchedEntity, d: Side,
                             ghost c: Path, ghost t: Tree, ghost h: nat, ghost S: set<SchedEntity>)
      requires Violation(c, t, h) && c.Step? && !c.black && c.up.Step? && IsBlack(c.up.sib)
      requires node == t.elem && parent == c.elem && gparent == c.up.elem && d == c.up.side
      requires Stores(Now(S), Plug(c, t))
      modifies this`rbNode, this`tree, S`parent, S`black, S`left, S`right
      ensures Stores(Now(S), tree) && RedBlack(tree)
      ensures InOrder(tree) == InOrder(Plug(c, t))
    {
      ghost var st := Now(S);
      RedParent(c, t, h);
      BeforeRestructuring(st, c.up.up, d, c.side, t, parent, c.sib, gparent, c.up.sib);
      InsertRotate(node, parent, gparent, d, Above(c.up.up, null), SideOf(c.up.up), S);
      ghost var result := AfterRestructuring(st, Now(S), c.up.up, d, c.side, t, parent, c.sib, gparent, c.up.sib, h);
      Settle(result, S);
    }

    /** The recolouring step of `__rb_insert` (case 1: the uncle is red): the violation moves up two levels. */
    method InsertRecolor(parent: SchedEntity, gparent: SchedEntity, uncle: SchedEntity, ghost c: Path, ghost t: Tree,
                         ghost h: nat, ghost S: set<SchedEntity>)
      returns (above: SchedEntity?, ghost t': Tree)
      requires Violation(c, t, h) && c.Step? && !c.black && c.up.Step? && !IsBlack(c.up.sib)
      requires parent == c.elem && gparent == c.up.elem && uncle == c.up.sib.elem
      requires Stores(Now(S), Plug(c, t))
      modifies S`parent, S`black
      ensures above == Above(c.up.up, null)
      ensures Violation(c.up.up, t', h + 1) && t'.elem == gparent
      ensures Stores(Now(S), Plug(c.up.up, t')) && InOrder(Plug(c.up.up, t')) == InOrder(Plug(c, t))
    {
      ghost var st, u := Now(S), c.up.sib;
      RedParent(c, t, h);
      BeforeRecoloring(st, c.up.up, c.up.side, c.side, t, parent, c.sib, gparent, u);
      SetParentColor(uncle, gparent, true, S);
      SetParentColor(parent, gparent, true, S);
      above := gparent.parent;
      SetParentColor(gparent, above, false, S);
      Recolored(st, Now(S), c.up.up, c.up.side, c.side, t, parent, c.sib, gparent, u.left, uncle, u.right);
      t' := Branch(c.up.side, Branch(c.side, t, parent, true, c.sib), gparent, false,
          Node(u.left, uncle, true, u.right));
      RbBranch(c.side, t, parent, true, c.sib, h);
      RbBranch(c.up.side, Branch(c.side, t, parent, true, c.sib), gparent, false, Node(u.left, uncle, true, u.right),
          h + 1);
    }

    /** The links are left as they are, and `t` is what they spell out. */
    ghost method Settle(t: Tree, S: set<SchedEntity>)
      modifies this`tree
      ensures tree == t && Now(S) == old(Now(S))
    {
      tree := t;
    }

    /** The violation has reached the root. */
    method InsertAsRoot(node: SchedEntity, ghost t: Tree, ghost h: nat, ghost S: set<SchedEntity>)
      requires t.Node? && t.elem == node && !t.black && Rb(t, h) && Stores(Now(S), t)
      modifies this`tree, node`parent, node`black
      ensures Stores(Now(S), tree) && RedBlack(tree) && InOrder(tree) == InOrder(t)
    {
      ghost var st := Now(S);
      node.parent, node.black := null, true;
      PaintStores(st, Now(S), Top, t.left, node, false, t.right, true);
      RbJoin(Top, Node(t.left, node, true, t.right), h + 1);
      Settle(Node(t.left, node, true, t.right), S);
    }

    /** `__rb_insert`, run on a freshly linked red leaf. The source writes the two mirror images out; here `d` is
        the side of `gparent` on which `parent` lies. */
    method InsertColor(leaf: SchedEntity, ghost c0: Path, ghost S: set<SchedEntity>)
      requires Stores(Now(S), Plug(c0, Node(Leaf, leaf, false, Leaf))) && RbPath(c0, 0)
      modifies this`rbNode, this`tree, S`parent, S`black, S`left, S`right
      ensures Stores(Now(S), tree) && RedBlack(tree)
      ensures InOrder(tree) == InOrder(Plug(c0, Node(Leaf, leaf, false, Leaf)))
    {
      ghost var t, c, h := Node(Leaf, leaf, false, Leaf), c0, 0;
      ghost var order := InOrder(Plug(c, t));
      RootCell(Now(S), c, t);
      var node := leaf;
      var parent := node.parent;
      while true
        invariant Violation(c, t, h) && t.elem == node && parent == Above(c, null)
        invariant Stores(Now(S), Plug(c, t)) && InOrder(Plug(c, t)) == order
        decreases Depth(c)
      {
        InsertView(Now(S), c, t, h);
        if parent == null {
          InsertAsRoot(node, t, h, S);
          return;
        }
        if parent.black { break; }
        var gparent := parent.parent;
        var tmp := gparent.right;
        var d := Left;
        if parent == tmp {
          tmp := gparent.left;
          d := Right;
        }
        assert d == c.up.side && tmp == Root(c.up.sib);
        if tmp != null && !tmp.black {
          node := gparent;
          parent, t := InsertRecolor(parent, gparent, tmp, c, t, h, S);
          c, h := c.up.up, h + 1;
          continue;
        }
        InsertRestructure(node, parent, gparent, d, c, t, h, S);
        return;
      }
      RbJoin(c, t, h);
      Settle(Plug(c, t), S);
    }

    /** Case 1 of `__rb_erase_color`: the red sibling is lifted over `parent`; its inner child is the new sibling. */
    method EraseCase1(parent: SchedEntity, sibling: SchedEntity, d: Side, ghost c: Path, ghost t: Tree, ghost h: nat,
                      ghost S: set<SchedEntity>)
      returns (tmp1: SchedEntity, ghost c': Path)
      requires c.Step? && c.elem == parent && c.side == d && c.sib.Node? && c.sib.elem == sibling && !c.sib.black
      requires RbPath(c, h + 1) && Stores(Now(S), Plug(c, t))
      modifies this`rbNode, S`parent, S`black, S`left, S`right
      ensures c'.Step? && c'.elem == parent && c'.side == d && !c'.black && RbPath(c', h + 1)
      ensures c'.sib.Node? && c'.sib.elem == tmp1 && c'.sib.black
      ensures Stores(Now(S), Plug(c', t)) && InOrder(Plug(c', t)) == InOrder(Plug(c, t))
    {
      ghost var st := Now(S);
      EraseView(st, c, t, h);
      IsAround(st, c.up, d.Flip(), Child(d.Flip(), c.sib), sibling, false, Child(d, c.sib), parent, true, t);
      assert sibling.Kid(d) != null;
      tmp1 := sibling.Kid(d);
      AroundLifts(st.mem, d.Flip(), parent, sibling, Above(c.up, null), SideOf(c.up));
      Lift(parent, sibling, tmp1, d.Flip(), true, null, false, Above(c.up, null), SideOf(c.up), S);
      c' := EraseCase1Done(st, Now(S), c, t, h);
    }

    /** Case 4 of `__rb_erase_color`: the outer nephew `far` is red. */
    method EraseCase4(parent: SchedEntity, sibling: SchedEntity, far: SchedEntity, d: Side, ghost c: Path,
                      ghost t: Tree, ghost h: nat, ghost S: set<SchedEntity>)
      requires c.Step? && c.elem == parent && c.side == d && c.sib.Node? && c.sib.elem == sibling && c.sib.black
      requires !IsBlack(Child(d.Flip(), c.sib)) && far == Root(Child(d.Flip(), c.sib))
      requires IsBlack(t) && Rb(t, h) && RbPath(c, h + 1) && Stores(Now(S), Plug(c, t))
      modifies this`rbNode, this`tree, S`parent, S`black, S`left, S`right
      ensures Stores(Now(S), tree) && RedBlack(tree) && InOrder(tree) == InOrder(Plug(c, t))
    {
      ghost var st := Now(S);
      BeforeCase4(st, c, t);
      var tmp2 := sibling.Kid(d);
      Lift(parent, sibling, tmp2, d.Flip(), false, far, true, Above(c.up, null), SideOf(c.up), S);
      ghost var result := EraseCase4Done(st, Now(S), c, t, h);
      Settle(result, S);
    }

    /** Case 3 of `__rb_erase_color`, falling through to case 4: only the inner nephew `tmp2` is red. */
    method EraseCase3And4(parent: SchedEntity, sibling: SchedEntity, tmp2: SchedEntity, d: Side, ghost c: Path,
                          ghost t: Tree, ghost h: nat, ghost S: set<SchedEntity>)
      requires c.Step? && c.elem == parent && c.side == d && c.sib.Node? && c.sib.elem == sibling && c.sib.black
      requires IsBlack(Child(d.Flip(), c.sib)) && !IsBlack(Child(d, c.sib)) && tmp2 == Root(Child(d, c.sib))
      requires IsBlack(t) && Rb(t, h) && RbPath(c, h + 1) && Stores(Now(S), Plug(c, t))
      modifies this`rbNode, this`tree, S`parent, S`black, S`left, S`right
      ensures Stores(Now(S), tree) && RedBlack(tree) && InOrder(tree) == InOrder(Plug(c, t))
    {
      ghost var st := Now(S);
      BeforeCase3(st, c, t, h);
      EraseRotateTwice(parent, sibling, tmp2, d, Above(c.up, null), SideOf(c.up), S);
      ghost var result := EraseCase3Done(st, Now(S), c, t, h);
      Settle(result, S);
    }

    method EraseRotateTwice(parent: SchedEntity, sibling: SchedEntity, tmp2: SchedEntity, d: Side,
                            ghost above: SchedEntity?, ghost s: Side, ghost S: set<SchedEntity>)
      requires Around(Snap(S), d.Flip(), parent, sibling, above, s)
               && Inner(Snap(S), d.Flip(), parent, sibling, tmp2, above)
      requires sibling.black && BlackOrNull(Snap(S), tmp2.Kid(d.Flip()))
      modifies this`rbNode, S`parent, S`black, S`left, S`right
      ensures DoubleRotation(old(Now(S)), Now(S), d.Flip(), parent, sibling, tmp2, above, s, old(parent.black), true)
    {
      ghost var st := Now(S);
      EraseCase3(parent, sibling, tmp2, d, S);
      ghost var m1 := Snap(S);
      TurnedBelowInPlace(st.mem, m1, d.Flip(), parent, sibling, tmp2, above, s);
      Lift(parent, tmp2, tmp2.Kid(d), d.Flip(), false, sibling, true, above, s, S);
      TurnedBelowAndLifted(st, m1, Now(S), d.Flip(), parent, sibling, tmp2, above, s);
    }

    /** The writes of case 3; the parent links of `sibling` and `tmp2` are left to case 4. */
    method EraseCase3(parent: SchedEntity, sibling: SchedEntity, tmp2: SchedEntity, d: Side, ghost S: set<SchedEntity>)
      requires parent in S && sibling in S && tmp2 in S && parent != sibling && parent != tmp2 && sibling != tmp2
      requires var tmp1 := tmp2.Kid(d.Flip());
               tmp1 != parent && tmp1 != sibling && tmp1 != tmp2 && (tmp1 != null ==> tmp1 in S)
      modifies S`parent, S`black, S`left, S`right
      ensures TurnedBelow(old(Snap(S)), Snap(S), d.Flip(), tmp2, sibling, parent)
    {
      var tmp1 := tmp2.Kid(d.Flip());
      Hook(sibling, tmp2, tmp1, d, true, S);
      parent.SetKid(d.Flip(), tmp2);
    }

    /** Case 2 of `__rb_erase_color`: the sibling turns red. A red `parent` turns black and the repair ends; below a
        black one the lack has moved up to `parent` itself. */
    method EraseCase2(parent: SchedEntity, sibling: SchedEntity, ghost c: Path, ghost t: Tree, ghost h: nat,
                      ghost S: set<SchedEntity>)
      returns (again: bool, ghost t': Tree)
      requires c.Step? && c.elem == parent && c.sib.Node? && c.sib.elem == sibling && c.sib.black
      requires IsBlack(c.sib.left) && IsBlack(c.sib.right)
      requires IsBlack(t) && Rb(t, h) && RbPath(c, h + 1) && Stores(Now(S), Plug(c, t))
      modifies S`parent, S`black
      ensures again == c.black
      ensures t'.Node? && t'.elem == parent && t'.black && Rb(t', h + 1)
      ensures Stores(Now(S), Plug(c.up, t')) && InOrder(Plug(c.up, t')) == InOrder(Plug(c, t))
      ensures if c.black then RbPath(c.up, h + 2) else RedBlack(Plug(c.up, t'))
    {
      ghost var st := Now(S);
      EraseView(st, c, t, h);
      again := parent.black;
      SetParentColor(sibling, parent, false, S);
      ghost var st1 := Now(S);
      if !again { SetBlack(parent, S); }
      t' := EraseCase2Done(st, st1, Now(S), c, t, h);
    }

    /** Cases 2, 3 and 4 of `__rb_erase_color`, once the sibling is black. */
    method EraseBelowBlack(parent: SchedEntity, sibling: SchedEntity, d: Side, ghost c: Path, ghost t: Tree,
                           ghost h: nat, ghost S: set<SchedEntity>)
      returns (again: bool, ghost t': Tree)
      requires c.Step? && c.elem == parent && c.side == d && c.sib.Node? && c.sib.elem == sibling && c.sib.black
      requires IsBlack(t) && Rb(t, h) && RbPath(c, h + 1) && Stores(Now(S), Plug(c, t))
      modifies this`rbNode, this`tree, S`parent, S`black, S`left, S`right
      ensures again ==>
                && c.black && t'.Node? && t'.elem == parent && t'.black && Rb(t', h + 1) && RbPath(c.up, h + 2)
                && Stores(Now(S), Plug(c.up, t')) && InOrder(Plug(c.up, t')) == InOrder(Plug(c, t))
      ensures !again ==> Stores(Now(S), tree) && RedBlack(tree) && InOrder(tree) == InOrder(Plug(c, t))
    {
      EraseView(Now(S), c, t, h);
      again, t' := false, t;
      var tmp1 := sibling.Kid(d.Flip());
      var tmp2 := sibling.Kid(d);
      if tmp1 != null && !tmp1.black {
        EraseCase4(parent, sibling, tmp1, d, c, t, h, S);
      } else if tmp2 != null && !tmp2.black {
        EraseCase3And4(parent, sibling, tmp2, d, c, t, h, S);
      } else {
        again, t' := EraseCase2(parent, sibling, c, t, h, S);
        Settle(Plug(c.up, t'), S);
      }
    }

    /** One round of `__rb_erase_color`: the repair ends, unless it has to go on one level up. */
    method EraseStep(parent: SchedEntity, sibling: SchedEntity, d: Side, ghost c: Path, ghost t: Tree, ghost h: nat,
                     ghost S: set<SchedEntity>)
      returns (again: bool, ghost t': Tree)
      requires c.Step? && c.elem == parent && c.side == d && c.sib.Node? && c.sib.elem == sibling
               && sibling.black == c.sib.black
      requires IsBlack(t) && Rb(t, h) && RbPath(c, h + 1) && Stores(Now(S), Plug(c, t))
      modifies this`rbNode, this`tree, S`parent, S`black, S`left, S`right
      ensures again ==>
                && t'.Node? && t'.elem == parent && t'.black && Rb(t', h + 1) && RbPath(c.up, h + 2)
                && Stores(Now(S), Plug(c.up, t')) && InOrder(Plug(c.up, t')) == InOrder(Plug(c, t))
      ensures !again ==> Stores(Now(S), tree) && RedBlack(tree) && InOrder(tree) == InOrder(Plug(c, t))
    {
      var s := sibling;
      ghost var c' := c;
      if !sibling.black {
        s, c' := EraseCase1(parent, sibling, d, c, t, h, S);
      }
      again, t' := EraseBelowBlack(parent, s, d, c', t, h, S);
    }

    /** Which child of `parent` lacks a black node, and its sibling. */
    method EraseSide(parent: SchedEntity, node: SchedEntity?, ghost c: Path, ghost t: Tree, ghost h: nat,
                     ghost S: set<SchedEntity>) returns (sibling: SchedEntity, d: Side)
      requires c.Step? && c.elem == parent && node == Root(t) && RbPath(c, h + 1) && Stores(Now(S), Plug(c, t))
      ensures d == c.side && c.sib.Node? && sibling == c.sib.elem && sibling.black == c.sib.black
    {
      EraseView(Now(S), c, t, h);
      if node == parent.right {
        return parent.left, Right;
      }
      return parent.right, Left;
    }

    /** `__rb_erase_color`: the hole below `rebalance` lacks one black node. The source writes the two mirror images
        out; here `d` is the side of `parent` that lacks it. */
    method EraseColor(rebalance: SchedEntity, ghost c0: Path, ghost S: set<SchedEntity>)
      requires c0.Step? && c0.elem == rebalance && Stores(Now(S), Plug(c0, Leaf)) && RbPath(c0, 1)
      modifies this`rbNode, this`tree, S`parent, S`black, S`left, S`right
      ensures Stores(Now(S), tree) && RedBlack(tree)
      ensures InOrder(tree) == InOrder(Plug(c0, Leaf))
    {
      ghost var t, c, h := Leaf, c0, 0;
      var parent := rebalance;
      var node: SchedEntity? := null;
      while true
        invariant c.Step? && c.elem == parent && node == Root(t) && IsBlack(t) && Rb(t, h) && RbPath(c, h + 1)
        invariant Stores(Now(S), Plug(c, t)) && InOrder(Plug(c, t)) == InOrder(Plug(c0, Leaf))
        decreases Depth(c)
      {
        var sibling, d := EraseSide(parent, node, c, t, h, S);
        var again;
        again, t := EraseStep(parent, sibling, d, c, t, h, S);
        if !again { return; }
        c, h := c.up, h + 1;
        node := parent;
        var above := ParentOf(node, c, t, S);
        if above == null { break; }
        parent := above;
      }
      RbJoin(c, t, h);
      Settle(Plug(c, t), S);
    }

    /** `rb_parent`, for the root of the tree in the hole. */
    method ParentOf(x: SchedEntity, ghost c: Path, ghost t: Tree, ghost S: set<SchedEntity>) returns (p: SchedEntity?)
      requires Stores(Now(S), Plug(c, t)) && t.Node? && t.elem == x
      ensures p == Above(c, null)
    {
      RootCell(Now(S), c, t);
      p := x.parent;
    }

    // ----- the successor -----

    /** `rb_next`, for a linked node. */
    method Next(x: SchedEntity, ghost c: Path, ghost l: Tree, ghost b: bool, ghost r: Tree, ghost S: set<SchedEntity>)
      returns (n: SchedEntity?)
      requires Stores(Now(S), Plug(c, Node(l, x, b, r)))
      ensures n == First(InOrder(r) + After(c))
    {
      RootCell(Now(S), c, Node(l, x, b, r));
      LinkedPlug(Snap(S), c, Node(l, x, b, r), null);
      var node: SchedEntity := x;
      if node.right != null {
        node := node.right;
        ghost var t := r;
        while node.left != null
          invariant t.Node? && t.elem == node && (exists p :: Linked(Snap(S), t, p))
                    && First(InOrder(t)) == First(InOrder(r))
          decreases t
        {
          node := node.left;
          t := t.left;
        }
        return node;
      }
      DistinctPlug(c, Node(l, x, b, r));
      ghost var cc := c;
      var parent := node.parent;
      while parent != null && node == parent.right
        invariant parent == Above(cc, null) && After(cc) == After(c)
        invariant LinkedPath(Snap(S), cc, node, null) && DistinctPath(cc) && node !in PathNodes(cc)
        decreases cc
      {
        assert cc.sib.Node? ==> cc.sib.elem in PathNodes(cc);
        node := parent;
        parent := node.parent;
        cc := cc.up;
      }
      return parent;
    }

    // ----- taking a node out -----

    /** The first two arms of `__rb_erase_augmented`: `node` has at most the child `child`. */
    method EraseOneChild(node: SchedEntity, child: SchedEntity?, ghost c: Path, ghost d: Side, ghost k: Tree,
                         ghost b: bool, ghost S: set<SchedEntity>)
      returns (rebalance: SchedEntity?)
      requires Stores(Now(S), Plug(c, Branch(d, k, node, b, Leaf))) && RedBlack(Plug(c, Branch(d, k, node, b, Leaf)))
               && child == Root(k)
      modifies this`rbNode, this`tree, S`parent, S`black, S`left, S`right
      ensures rebalance == null ==> Stores(Now(S), tree) && RedBlack(tree)
                                    && InOrder(tree) == Before(c) + InOrder(k) + After(c)
      ensures rebalance != null ==> Removed(c, rebalance, Now(S))
                                    && InOrder(Plug(c, Leaf)) == Before(c) + InOrder(k) + After(c)
    {
      ghost var st := Now(S);
      BeforeSplice(st, c, d, k, node, b);
      SplicedRb(c, d, k, node, b);
      rebalance := if child == null && node.black then node.parent else null;
      Splice(node, child, SideOf(c), S);
      SplicedStores(st, Now(S), c, d, k, node, b);
      Settle(Plug(c, Blacken(k)), S);
    }

    method Splice(node: SchedEntity, child: SchedEntity?, ghost s: Side, ghost S: set<SchedEntity>)
      requires node in S && (child != null ==> child in S && child != node && child != node.parent)
      requires HangsFrom(Snap(S), node, node.parent, s) && node.parent != node
      modifies this`rbNode, S`parent, S`black, S`left, S`right
      ensures Spliced(old(Now(S)), Now(S), node, child, old(node.parent), s)
    {
      var parent := node.parent;
      ChangeChild(node, child, parent, s);
      if child != null {
        child.parent, child.black := node.parent, node.black;
      }
    }

    /** The search for the in-order successor of a node whose right child is `child`; `parent` is the successor's
        parent, or the successor itself when that is `child`. */
    method FindSuccessor(child: SchedEntity, ghost r: Tree, ghost x: SchedEntity, ghost S: set<SchedEntity>)
      returns (successor: SchedEntity, parent: SchedEntity, ghost p: Path, ghost sb: bool, ghost k: Tree)
      requires r.Node? && r.elem == child && Linked(Snap(S), r, x)
      ensures LeftSpine(p) && r == Plug(p, Node(Leaf, successor, sb, k))
      ensures parent == if p.Top? then successor else p.elem
    {
      ghost var t := r;
      successor, parent, p := child, child, Top;
      while successor.left != null
        invariant t.Node? && t.elem == successor && LeftSpine(p) && r == Plug(p, t)
        invariant parent == if p.Top? then successor else p.elem
        invariant exists q :: Linked(Snap(S), t, q)
        decreases t
      {
        parent := successor;
        successor := successor.left;
        p := Step(Left, t.elem, t.black, t.right, p);
        t := t.left;
      }
      sb, k := t.black, t.right;
    }

    /** The writes of the last arm of `__rb_erase_augmented`. */
    method TakePlace(node: SchedEntity, successor: SchedEntity, parent: SchedEntity, child2: SchedEntity?,
                     ghost s: Side, ghost S: set<SchedEntity>)
      requires CanTakePlace(Snap(S), node, successor, parent, child2, s)
      modifies this`rbNode, S`parent, S`black, S`left, S`right
      ensures Succeeded(old(Now(S)), Now(S), node, successor, old(node.left), old(node.right), parent, child2,
              old(node.parent), s)
    {
      ghost var m0 := Snap(S);
      TakeChildren(node, successor, parent, child2, s, S);
      ghost var m1 := Snap(S);
      TakenChildrenKeeps(m0, m1, node, successor, parent, child2, s);
      TakeParent(node, successor, s, S);
      ghost var m2 := Snap(S);
      if child2 != null { SetParentColor(child2, parent, true, S); }
      TakenPlace(m0, m1, m2, Snap(S), node, successor, parent, child2, s);
    }

    method TakeParent(node: SchedEntity, successor: SchedEntity, ghost s: Side, ghost S: set<SchedEntity>)
      requires node in S && successor in S && node != successor && node.parent != node && node.parent != successor
      requires HangsFrom(Snap(S), node, node.parent, s)
      modifies this`rbNode, S`parent, S`black, S`left, S`right
      ensures var (m, m') := (old(Snap(S)), Snap(S));
              var above := m[node].parent;
              && m'[successor] == m[successor].(parent := above, black := m[node].black)
              && (above != null ==> m'[above] == m[above].WithKid(s, successor))
              && Unchanged(m, m', {successor, above})
              && rbNode == if above == null then successor else old(rbNode)
    {
      ChangeChild(node, successor, node.parent, s);
      successor.parent, successor.black := node.parent, node.black;
    }

    /** The successor takes the children of `node`; its own right child `child2` takes its place below `parent`. */
    method TakeChildren(node: SchedEntity, successor: SchedEntity, parent: SchedEntity, child2: SchedEntity?,
                        ghost s: Side, ghost S: set<SchedEntity>)
      requires CanTakePlace(Snap(S), node, successor, parent, child2, s)
      modifies S`parent, S`left, S`right
      ensures TakenChildren(old(Snap(S)), Snap(S), node, successor, parent, child2)
    {
      ghost var m := Snap(S);
      var child, tmp := node.right, node.left;
      if parent != successor {
        TakeRight(successor, child, parent, child2, S);
      }
      ghost var m1 := Snap(S);
      TakeLeft(successor, tmp, S);
      ChildrenTaken(m, m1, Snap(S), node, successor, parent, child2, s);
    }

    method TakeRight(successor: SchedEntity, child: SchedEntity, parent: SchedEntity, child2: SchedEntity?,
                     ghost S: set<SchedEntity>)
      requires successor in S && child in S && parent in S && successor != child && successor != parent
      modifies S`parent, S`left, S`right
      ensures Snap(S) == TakenRight(old(Snap(S)), successor, child, parent, child2)
    {
      parent.left := child2;
      successor.right := child;
      child.parent := successor;
    }

    method TakeLeft(successor: SchedEntity, child: SchedEntity, ghost S: set<SchedEntity>)
      requires successor in S && child in S && successor != child
      modifies S`parent, S`left
      ensures Snap(S) == TakenLeft(old(Snap(S)), successor, child)
    {
      successor.left := child;
      child.parent := successor;
    }

    /** The last arm of `__rb_erase_augmented`: the successor takes the place of `node`, which has two children. */
    method EraseTwoChildren(node: SchedEntity, ghost c: Path, ghost l: Tree, ghost b: bool, ghost r: Tree,
                            ghost S: set<SchedEntity>)
      returns (rebalance: SchedEntity?, ghost c': Path)
      requires l.Node? && r.Node?
      requires Stores(Now(S), Plug(c, Node(l, node, b, r))) && RedBlack(Plug(c, Node(l, node, b, r)))
      modifies this`rbNode, this`tree, S`parent, S`black, S`left, S`right
      ensures rebalance == null ==> Stores(Now(S), tree) && RedBlack(tree)
                                    && InOrder(tree) == Before(c) + InOrder(l) + InOrder(r) + After(c)
      ensures rebalance != null ==> Removed(c', rebalance, Now(S))
                                    && InOrder(Plug(c', Leaf)) == Before(c) + InOrder(l) + InOrder(r) + After(c)
    {
      ghost var st := Now(S);
      RightLinked(st, c, l, node, b, r);
      ghost var p, sb, k;
      var successor, parent;
      successor, parent, p, sb, k := FindSuccessor(node.right, r, node, S);
      rebalance, c' := Succeed(node, successor, parent, c, l, b, p, sb, k, S);
    }

    method Succeed(node: SchedEntity, successor: SchedEntity, parent: SchedEntity,
                   ghost c: Path, ghost l: Tree, ghost b: bool, ghost p: Path, ghost sb: bool, ghost k: Tree,
                       ghost S: set<SchedEntity>)
      returns (rebalance: SchedEntity?, ghost c': Path)
      requires l.Node? && LeftSpine(p) && parent == if p.Top? then successor else p.elem
      requires var t := Plug(c, Node(l, node, b, Plug(p, Node(Leaf, successor, sb, k))));
               Stores(Now(S), t) && RedBlack(t)
      modifies this`rbNode, this`tree, S`parent, S`black, S`left, S`right
      ensures Stores(Now(S), tree)
      ensures InOrder(tree) == Before(c) + InOrder(l) + InOrder(Plug(p, Node(Leaf, successor, sb, k))) + After(c)
      ensures if rebalance == null then RedBlack(tree) else Removed(c', rebalance, Now(S)) && tree == Plug(c', Leaf)
    {
      ghost var st := Now(S);
      BeforeSuccession(st, c, l, node, b, p, successor, sb, k);
      TopNodeInside(p);
      var child2 := successor.right;
      rebalance := if child2 == null && successor.black then parent else null;
      TakePlace(node, successor, parent, child2, SideOf(c), S);
      ghost var result;
      result, c' := SucceededDone(st, Now(S), c, l, node, b, p, successor, sb, k);
      Settle(result, S);
    }

    /** `__rb_erase_augmented` */
    method EraseAugmented(node: SchedEntity, ghost c: Path, ghost l: Tree, ghost b: bool, ghost r: Tree,
                          ghost S: set<SchedEntity>)
      returns (rebalance: SchedEntity?, ghost c': Path)
      requires Stores(Now(S), Plug(c, Node(l, node, b, r))) && RedBlack(Plug(c, Node(l, node, b, r)))
      modifies this`rbNode, this`tree, S`parent, S`black, S`left, S`right
      ensures rebalance == null ==> Stores(Now(S), tree) && RedBlack(tree)
                                    && InOrder(tree) == Before(c) + InOrder(l) + InOrder(r) + After(c)
      ensures rebalance != null ==> Removed(c', rebalance, Now(S))
                                    && InOrder(Plug(c', Leaf)) == Before(c) + InOrder(l) + InOrder(r) + After(c)
    {
      RootCell(Now(S), c, Node(l, node, b, r));
      OneChildOrder(c, l, r);
      c' := c;
      var child := node.right;
      var tmp := node.left;
      if tmp == null {
        rebalance := EraseOneChild(node, child, c, Right, r, b, S);
        return;
      }
      if child == null {
        rebalance := EraseOneChild(node, tmp, c, Left, l, b, S);
        return;
      }
      rebalance, c' := EraseTwoChildren(node, c, l, b, r, S);
    }

    // ----- the whole tree -----

    ghost predicate Valid()
      reads this, Nodes(tree)`parent, Nodes(tree)`black, Nodes(tree)`left, Nodes(tree)`right
    {
      Stores(Now(Nodes(tree)), tree) && RedBlack(tree) && leftmost == First(InOrder(tree))
    }

    /** The linked entities in order. */
    ghost function Contents(): seq<SchedEntity>
      reads this`tree
    {
      InOrder(tree)
    }

    /** `rb_erase_cached` */
    method Erase(node: SchedEntity)
      requires Valid() && node in Nodes(tree)
      modifies this, Nodes(tree)`parent, Nodes(tree)`black, Nodes(tree)`left, Nodes(tree)`right
      ensures Valid() && Contents() == Without(old(Contents()), node)
      ensures Nodes(tree) == old(Nodes(tree)) - {node}
    {
      ghost var S := Nodes(tree);
      ghost var c, l, b, r := Locate(tree, node);
      Taken(tree, c, l, node, b, r);
      EraseAt(node, c, l, b, r, S);
      Shrunk(Now(S), tree, S, node, Before(c) + InOrder(l) + InOrder(r) + After(c));
    }

    /** The same, by the place of the node. */
    method EraseAt(node: SchedEntity, ghost c: Path, ghost l: Tree, ghost b: bool, ghost r: Tree,
                   ghost S: set<SchedEntity>)
      requires Stores(Now(S), Plug(c, Node(l, node, b, r))) && RedBlack(Plug(c, Node(l, node, b, r)))
               && leftmost == First(InOrder(Plug(c, Node(l, node, b, r))))
      modifies this, S`parent, S`black, S`left, S`right
      ensures Stores(Now(S), tree) && RedBlack(tree) && leftmost == First(InOrder(tree))
      ensures InOrder(tree) == Before(c) + InOrder(l) + InOrder(r) + After(c)
    {
      ghost var m := Snap(S);
      AdvanceLeftmost(node, c, l, b, r, S);
      assert Snap(S) == m;
      EraseLinked(node, c, l, b, r, S);
    }

    method AdvanceLeftmost(node: SchedEntity, ghost c: Path, ghost l: Tree, ghost b: bool, ghost r: Tree,
                           ghost S: set<SchedEntity>)
      requires Stores(Now(S), Plug(c, Node(l, node, b, r))) && leftmost == First(InOrder(Plug(c, Node(l, node, b, r))))
      modifies this`leftmost
      ensures leftmost == First(Before(c) + InOrder(l) + InOrder(r) + After(c))
    {
      Taken(Plug(c, Node(l, node, b, r)), c, l, node, b, r);
      TakenFirst(Before(c) + InOrder(l), node, InOrder(r) + After(c));
      Regroup(Before(c), InOrder(l), node, InOrder(r), After(c));
      if leftmost == node {
        leftmost := Next(node, c, l, b, r, S);
      }
    }

    method EraseLinked(node: SchedEntity, ghost c: Path, ghost l: Tree, ghost b: bool, ghost r: Tree,
                       ghost S: set<SchedEntity>)
      requires Stores(Now(S), Plug(c, Node(l, node, b, r))) && RedBlack(Plug(c, Node(l, node, b, r)))
      modifies this`rbNode, this`tree, S`parent, S`black, S`left, S`right
      ensures Stores(Now(S), tree) && RedBlack(tree) && InOrder(tree) == Before(c) + InOrder(l) + InOrder(r) + After(c)
    {
      ghost var c';
      var rebalance;
      rebalance, c' := EraseAugmented(node, c, l, b, r, S);
      if rebalance != null {
        EraseColor(rebalance, c', S);
      }
    }

    /** `rb_link_node`, at the `side` child of `parent` (or the root pointer), and `rb_insert_color_cached`. */
    method Insert(node: SchedEntity, parent: SchedEntity?, side: Side, isLeftmost: bool, ghost c: Path)
      requires Valid() && node !in Nodes(tree)
      requires tree == Plug(c, Leaf) && parent == Above(c, null) && side == SideOf(c)
               && (isLeftmost <==> Before(c) == [])
      modifies this, Nodes(tree)`parent, Nodes(tree)`black, Nodes(tree)`left, Nodes(tree)`right, node`parent,
               node`black, node`left, node`right
      ensures Valid() && Contents() == Before(c) + [node] + After(c)
      ensures Nodes(tree) == old(Nodes(tree)) + {node}
    {
      ghost var S := Nodes(tree) + {node};
      ghost var st := Now(Nodes(tree));
      BeforePlanting(st, c);
      node.parent, node.black, node.left, node.right := parent, false, null, null;
      if parent == null {
        rbNode := node;
      } else {
        parent.SetKid(side, node);
      }
      if isLeftmost {
        leftmost := node;
      }
      Planted(st, Now(S), c, node);
      PlantedOrder(c, node);
      InsertColor(node, c, S);
      SameNodes(tree, Plug(c, Node(Leaf, node, false, Leaf)));
    }
  }
}
