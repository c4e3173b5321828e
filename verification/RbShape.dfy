/** Red-black trees as values: the shape that src/rbtree.c keeps, apart from how it is stored. */
module RbShape {
  import opened Entities
  import opened Seqs
  import opened Fixed

  datatype Tree = Leaf | Node(left: Tree, elem: SchedEntity, black: bool, right: Tree)

  /** A tree with a hole, from the hole outwards: the hole is the `side` child of `elem`. */
  datatype Path = Top | Step(side: Side, elem: SchedEntity, black: bool, sib: Tree, up: Path)

  function Branch(d: Side, near: Tree, e: SchedEntity, black: bool, far: Tree): Tree {
    if d.Left? then Node(near, e, black, far) else Node(far, e, black, near)
  }

  function Child(d: Side, t: Tree): Tree
    requires t.Node?
  {
    if d.Left? then t.left else t.right
  }

  function Root(t: Tree): SchedEntity? { if t.Leaf? then null else t.elem }

  function Plug(c: Path, t: Tree): Tree {
    match c
    case Top => t
    case Step(d, e, black, sib, up) => Plug(up, Branch(d, t, e, black, sib))
  }

  /** The path whose hole is filled by `p` and whose frame is then filled into `q`. */
  function Append(p: Path, q: Path): Path {
    match p
    case Top => q
    case Step(d, e, black, sib, up) => Step(d, e, black, sib, Append(up, q))
  }

  function Depth(c: Path): nat {
    match c
    case Top => 0
    case Step(_, _, _, _, up) => 1 + Depth(up)
  }

  // ----- contents -----

  function InOrder(t: Tree): seq<SchedEntity> {
    match t
    case Leaf => []
    case Node(l, e, _, r) => InOrder(l) + [e] + InOrder(r)
  }

  function Before(c: Path): seq<SchedEntity> {
    match c
    case Top => []
    case Step(d, e, _, sib, up) => if d.Left? then Before(up) else Before(up) + InOrder(sib) + [e]
  }

  function After(c: Path): seq<SchedEntity> {
    match c
    case Top => []
    case Step(d, e, _, sib, up) => if d.Left? then [e] + InOrder(sib) + After(up) else After(up)
  }

  lemma {:induction false} InOrderPlug(c: Path, t: Tree)
    ensures InOrder(Plug(c, t)) == Before(c) + InOrder(t) + After(c)
  {
    match c
    case Top =>
    case Step(d, e, black, sib, up) =>
      InOrderPlug(up, Branch(d, t, e, black, sib));
      if d.Left? {
        Regroup(Before(up), InOrder(t), e, InOrder(sib), After(up));
      } else {
        Regroup(Before(up), InOrder(sib), e, InOrder(t), After(up));
      }
  }

  lemma {:induction false} Regroup(b: seq<SchedEntity>, l: seq<SchedEntity>, e: SchedEntity, r: seq<SchedEntity>,
                                   z: seq<SchedEntity>)
    ensures b + (l + [e] + r) + z == b + l + ([e] + r + z) == (b + l + [e]) + r + z == (b + l) + [e] + (r + z)
    ensures (b + l) + (r + z) == b + l + r + z
  {
  }

  lemma {:induction false} PlugAppend(p: Path, q: Path, t: Tree)
    ensures Plug(Append(p, q), t) == Plug(q, Plug(p, t))
  {
    match p
    case Top =>
    case Step(d, e, black, sib, up) => PlugAppend(up, q, Branch(d, t, e, black, sib));
  }

  // ----- every entity occurs once -----

  function Nodes(t: Tree): set<SchedEntity> {
    match t
    case Leaf => {}
    case Node(l, e, _, r) => Nodes(l) + {e} + Nodes(r)
  }

  function PathNodes(c: Path): set<SchedEntity> {
    match c
    case Top => {}
    case Step(_, e, _, sib, up) => {e} + Nodes(sib) + PathNodes(up)
  }

  predicate Distinct(t: Tree) {
    t.Node? ==>
      && Distinct(t.left) && Distinct(t.right)
      && t.elem !in Nodes(t.left) && t.elem !in Nodes(t.right)
      && Nodes(t.left) !! Nodes(t.right)
  }

  predicate DistinctPath(c: Path) {
    c.Step? ==>
      && Distinct(c.sib) && DistinctPath(c.up)
      && c.elem !in Nodes(c.sib) && c.elem !in PathNodes(c.up)
      && Nodes(c.sib) !! PathNodes(c.up)
  }

  lemma {:induction false} InOrderNodes(t: Tree)
    ensures Nodes(t) == set x | x in InOrder(t)
  {
    if t.Node? {
      InOrderNodes(t.left);
      InOrderNodes(t.right);
    }
  }

  lemma {:induction false} SameNodes(t: Tree, t': Tree)
    requires InOrder(t) == InOrder(t')
    ensures Nodes(t) == Nodes(t')
  {
    InOrderNodes(t);
    InOrderNodes(t');
  }

  lemma {:induction false} DistinctNoDup(t: Tree)
    ensures Distinct(t) <==> NoDup(InOrder(t))
  {
    if t.Node? {
      DistinctNoDup(t.left);
      DistinctNoDup(t.right);
      InOrderNodes(t.left);
      InOrderNodes(t.right);
      var a, b := InOrder(t.left), InOrder(t.right);
      NoDupSplit(a, t.elem, b);
      assert (forall x :: x in a ==> x !in b) <==> Nodes(t.left) !! Nodes(t.right) by {
        assert forall x :: x in a <==> x in Nodes(t.left);
        assert forall x :: x in b <==> x in Nodes(t.right);
      }
    }
  }

  lemma {:induction false} DistinctPlug(c: Path, t: Tree)
    ensures Distinct(Plug(c, t)) <==> Distinct(t) && DistinctPath(c) && Nodes(t) !! PathNodes(c)
    ensures Nodes(Plug(c, t)) == Nodes(t) + PathNodes(c)
  {
    match c
    case Top =>
    case Step(d, e, black, sib, up) =>
      DistinctPlug(up, Branch(d, t, e, black, sib));
  }

  /** Rebuilding the subtree in the hole keeps the contents of the whole tree. */
  lemma {:induction false} SameInOrder(c: Path, t: Tree, t': Tree)
    requires InOrder(t) == InOrder(t')
    ensures InOrder(Plug(c, t)) == InOrder(Plug(c, t'))
    ensures Distinct(Plug(c, t)) ==> Distinct(Plug(c, t'))
    ensures Nodes(t) == Nodes(t')
  {
    assert InOrder(Plug(c, t)) == InOrder(Plug(c, t')) by {
      InOrderPlug(c, t);
      InOrderPlug(c, t');
    }
    assert Distinct(Plug(c, t)) ==> Distinct(Plug(c, t')) by {
      DistinctNoDup(Plug(c, t));
      DistinctNoDup(Plug(c, t'));
    }
    InOrderNodes(t);
    InOrderNodes(t');
  }

  /** The node `x` of `t`, as a path and the subtree below it. */
  lemma {:induction false} Locate(t: Tree, x: SchedEntity) returns (c: Path, l: Tree, black: bool, r: Tree)
    requires x in Nodes(t)
    ensures Plug(c, Node(l, x, black, r)) == t
  {
    if x == t.elem {
      c, l, black, r := Top, t.left, t.black, t.right;
    } else if x in Nodes(t.left) {
      c, l, black, r := Locate(t.left, x);
      PlugAppend(c, Step(Left, t.elem, t.black, t.right, Top), Node(l, x, black, r));
      c := Append(c, Step(Left, t.elem, t.black, t.right, Top));
    } else {
      c, l, black, r := Locate(t.right, x);
      PlugAppend(c, Step(Right, t.elem, t.black, t.left, Top), Node(l, x, black, r));
      c := Append(c, Step(Right, t.elem, t.black, t.left, Top));
    }
  }

  // ----- colours and black heights -----

  predicate IsBlack(t: Tree) { t.Leaf? || t.black }

  /** No red node has a red child, and every path to a leaf meets `h` black nodes. */
  predicate Rb(t: Tree, h: nat) {
    match t
    case Leaf => h == 0
    case Node(l, _, black, r) =>
      if black then h > 0 && Rb(l, h - 1) && Rb(r, h - 1)
      else IsBlack(l) && IsBlack(r) && Rb(l, h) && Rb(r, h)
  }

  /** The path wants a black-rooted subtree of black height `h` in its hole. */
  predicate RbPath(c: Path, h: nat) {
    match c
    case Top => true
    case Step(_, _, black, sib, up) =>
      if black then Rb(sib, h) && RbPath(up, h + 1)
      else IsBlack(sib) && Rb(sib, h) && up.Step? && up.black && RbPath(up, h)
  }

  /** A red node `t` in the hole of a path that wants a black one: the one violation `__rb_insert` repairs. */
  predicate Violation(c: Path, t: Tree, h: nat) { t.Node? && !t.black && Rb(t, h) && RbPath(c, h) }

  /** A red subtree fits only below a black node. */
  predicate Fits(c: Path, t: Tree) { IsBlack(t) || (c.Step? && c.black) }

  ghost predicate RedBlack(t: Tree) { IsBlack(t) && exists h: nat :: Rb(t, h) }

  lemma {:induction false} RbBranch(d: Side, a: Tree, e: SchedEntity, black: bool, b: Tree, h: nat)
    ensures Rb(Branch(d, a, e, black, b), if black then h + 1 else h) <==>
              Rb(a, h) && Rb(b, h) && (black || (IsBlack(a) && IsBlack(b)))
  {
  }

  lemma {:induction false} RbJoin(c: Path, t: Tree, h: nat)
    requires Rb(t, h) && RbPath(c, h) && Fits(c, t)
    ensures RedBlack(Plug(c, t))
  {
    match c
    case Top =>
    case Step(d, e, black, sib, up) =>
      RbJoin(up, Branch(d, t, e, black, sib), if black then h + 1 else h);
  }

  lemma {:induction false} RbSplit(c: Path, t: Tree) returns (h: nat)
    requires RedBlack(Plug(c, t))
    ensures Rb(t, h) && RbPath(c, h) && Fits(c, t)
  {
    match c
    case Top =>
      h :| Rb(t, h);
    case Step(d, e, black, sib, up) =>
      var h' := RbSplit(up, Branch(d, t, e, black, sib));
      h := if black then h' - 1 else h';
  }

  // ----- size and height -----

  function Size(t: Tree): nat { |InOrder(t)| }

  function Max(a: nat, b: nat): nat { if a < b then b else a }

  function Height(t: Tree): nat {
    match t
    case Leaf => 0
    case Node(l, _, _, r) => 1 + Max(Height(l), Height(r))
  }

  lemma {:induction false} HeightBySize(t: Tree, h: nat)
    requires Rb(t, h)
    ensures Pow2(h) <= Size(t) + 1
    ensures Height(t) <= 2 * h + (if IsBlack(t) then 0 else 1)
  {
    match t
    case Leaf =>
    case Node(l, e, black, r) =>
      var k := if black then h - 1 else h;
      HeightBySize(l, k);
      HeightBySize(r, k);
  }
}
