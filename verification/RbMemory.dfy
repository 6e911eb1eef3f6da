/**
 The nodes of src/core/ngx_rbtree.c in memory: an arena of records linked by
 index, with one shared sentinel in place of every missing child.
 */
module RbMemory {
  import opened Common
  import opened RbShape

  const NULL: int := -1

  datatype Record = Record(left: int, right: int, parent: int, red: bool)

  type Memory = seq<Record>

  function Child(r: Record, left: bool): int { if left then r.left else r.right }

  function SetChild(r: Record, left: bool, y: int): (r': Record)
    ensures Child(r', left) == y && Child(r', !left) == Child(r, !left) && r'.parent == r.parent && r'.red == r.red
  {
    if left then r.(left := y) else r.(right := y)
  }

  /** The pointer that stands for a subtree. */
  function Ptr(t: Tree, s: int): int { if t.Leaf? then s else t.x }

  predicate At(m: Memory, s: int, x: int, left: int, right: int, red: bool) {
    0 <= x < |m| && x != s && m[x].left == left && m[x].right == right && m[x].red == red
  }

  predicate HasParent(m: Memory, t: Tree, x: int) { t.Node? ==> 0 <= t.x < |m| && m[t.x].parent == x }

  /** The records below a pointer form the tree t; the parent link of the topmost
      one is not looked at. */
  predicate Repr(m: Memory, s: int, t: Tree) {
    t.Node? ==>
      && At(m, s, t.x, Ptr(t.l, s), Ptr(t.r, s), t.red)
      && HasParent(m, t.l, t.x) && HasParent(m, t.r, t.x)
      && Repr(m, s, t.l) && Repr(m, s, t.r)
  }

  /** The records above a pointer y, up to the root, form the path p. */
  predicate ReprPath(m: Memory, s: int, root: int, p: Path, y: int) {
    if p.Top? then root == y
    else
      && At(m, s, p.x, if p.left then y else Ptr(p.sib, s), if p.left then Ptr(p.sib, s) else y, p.red)
      && HasParent(m, p.sib, p.x) && Repr(m, s, p.sib)
      && (p.up.In? ==> m[p.x].parent == p.up.x)
      && ReprPath(m, s, root, p.up, p.x)
  }

  ghost function Bag(t: Tree): multiset<int> { multiset(Inorder(t)) }

  ghost function PathBag(p: Path): multiset<int> { multiset(Before(p)) + multiset(After(p)) }

  /** The whole tree in memory, seen from a position in it.  The parent link of
      the root is free. */
  ghost predicate Zip(m: Memory, s: int, root: int, p: Path, t: Tree) {
    && 0 <= s < |m| && !m[s].red
    && Repr(m, s, t) && ReprPath(m, s, root, p, Ptr(t, s))
    && (p.In? ==> HasParent(m, t, p.x))
    && Once(PathBag(p) + Bag(t))
  }

  // ---------------------------------------------------------------- framing

  predicate SameLinks(a: Record, b: Record) { b.left == a.left && b.right == a.right && b.red == a.red }

  lemma BagNode(t: Tree)
    requires t.Node?
    ensures Bag(t) == Bag(t.l) + multiset{t.x} + Bag(t.r)
  {
  }

  lemma BagPath(p: Path)
    requires p.In?
    ensures PathBag(p) == PathBag(p.up) + Bag(p.sib) + multiset{p.x}
  {
  }

  lemma BagMk(left: bool, near: Tree, x: int, red: bool, far: Tree)
    ensures Bag(Mk(left, near, x, red, far)) == Bag(near) + multiset{x} + Bag(far)
  {
  }

  lemma NodeParts(t: Tree)
    requires t.Node? && Once(Bag(t))
    ensures Once(Bag(t.l)) && Once(Bag(t.r)) && t.x in Bag(t)
    ensures forall x :: x in Bag(t.l) ==> x in Bag(t) && x != t.x
    ensures forall x :: x in Bag(t.r) ==> x in Bag(t) && x != t.x
  {
    BagNode(t);
    hide Bag;
    assert forall x :: Bag(t)[x] == Bag(t.l)[x] + multiset{t.x}[x] + Bag(t.r)[x];
  }

  lemma RootInBag(t: Tree, s: int)
    ensures t.Node? ==> Ptr(t, s) in Bag(t)
  {
  }

  /** A subtree does not notice changes elsewhere, nor to its own parent link. */
  lemma {:induction false} ReprFrame(m: Memory, m': Memory, s: int, t: Tree)
    requires Repr(m, s, t) && |m'| == |m| && Once(Bag(t))
    requires forall x :: x in Bag(t) ==> 0 <= x < |m| && SameLinks(m[x], m'[x])
    requires forall x :: x in Bag(t) && x != Ptr(t, s) ==> m'[x].parent == m[x].parent
    ensures Repr(m', s, t)
  {
    hide Bag, Once;
    if t.Node? {
      NodeParts(t);
      RootInBag(t.l, s);
      RootInBag(t.r, s);
      ReprFrame(m, m', s, t.l);
      ReprFrame(m, m', s, t.r);
    }
  }

  lemma PathParts(p: Path)
    requires p.In? && Once(PathBag(p))
    ensures Once(PathBag(p.up)) && Once(Bag(p.sib)) && p.x in PathBag(p)
    ensures forall x :: x in PathBag(p.up) ==> x in PathBag(p) && x != p.x
    ensures forall x :: x in Bag(p.sib) ==> x in PathBag(p) && x != p.x
  {
    BagPath(p);
    hide Bag, PathBag;
    assert forall x :: PathBag(p)[x] == PathBag(p.up)[x] + Bag(p.sib)[x] + multiset{p.x}[x];
  }

  lemma {:induction false} PathFrame(m: Memory, m': Memory, s: int, root: int, p: Path, y: int)
    requires ReprPath(m, s, root, p, y) && |m'| == |m| && Once(PathBag(p))
    requires forall x :: x in PathBag(p) ==> 0 <= x < |m| && m'[x] == m[x]
    ensures ReprPath(m', s, root, p, y)
    decreases p
  {
    hide Bag, PathBag, Once;
    if p.In? {
      PathParts(p);
      RootInBag(p.sib, s);
      ReprFrame(m, m', s, p.sib);
      PathFrame(m, m', s, root, p.up, p.x);
    }
  }

  // ---------------------------------------------------------- moving the focus

  lemma ZipUp(m: Memory, s: int, root: int, p: Path, t: Tree)
    requires p.In?
    ensures Zip(m, s, root, p, t) <==> Zip(m, s, root, p.up, Mk(p.left, t, p.x, p.red, p.sib))
  {
    hide Bag, PathBag, Once;
    var t' := Mk(p.left, t, p.x, p.red, p.sib);
    BagMk(p.left, t, p.x, p.red, p.sib);
    BagPath(p);
    assert PathBag(p) + Bag(t) == PathBag(p.up) + Bag(t');
  }

  lemma {:induction false} ZipPlug(m: Memory, s: int, root: int, p: Path, t: Tree)
    ensures Zip(m, s, root, p, t) <==> Zip(m, s, root, Top, Plug(p, t))
    decreases p
  {
    hide Zip;
    if p.In? {
      ZipUp(m, s, root, p, t);
      ZipPlug(m, s, root, p.up, Mk(p.left, t, p.x, p.red, p.sib));
    }
  }

  // ------------------------------------------------------------- recolouring

  function Painted(m: Memory, x: int, red: bool): (m': Memory)
    requires 0 <= x < |m|
    ensures |m'| == |m|
  {
    m[x := m[x].(red := red)]
  }

  lemma ZipPaint(m: Memory, s: int, root: int, p: Path, t: Tree, red: bool)
    requires Zip(m, s, root, p, t) && t.Node?
    ensures 0 <= t.x < |m| && t.x != s && Zip(Painted(m, t.x, red), s, root, p, Paint(t, red))
  {
    hide Bag, PathBag, Once, Repr, ReprPath;
    ZipParts(m, s, root, p, t);
    var m', t' := Painted(m, t.x, red), Paint(t, red);
    ReprFrame(m, m', s, t.l);
    ReprFrame(m, m', s, t.r);
    ReprNode(m', s, t');
    PathFrame(m, m', s, root, p, t.x);
    assert Bag(t') == Bag(t) by { PaintBag(t, red); }
  }

  lemma PaintBag(t: Tree, red: bool)
    ensures Bag(Paint(t, red)) == Bag(t)
  {
  }

  /** What a position says about its node: links, bounds, and that the node, its
      subtrees and the path do not overlap. */
  lemma ZipParts(m: Memory, s: int, root: int, p: Path, t: Tree)
    requires Zip(m, s, root, p, t) && t.Node?
    ensures At(m, s, t.x, Ptr(t.l, s), Ptr(t.r, s), t.red)
    ensures HasParent(m, t.l, t.x) && HasParent(m, t.r, t.x) && Repr(m, s, t.l) && Repr(m, s, t.r)
    ensures Once(PathBag(p)) && Once(Bag(t.l)) && Once(Bag(t.r))
    ensures t.x !in PathBag(p) && t.x !in Bag(t.l) && t.x !in Bag(t.r)
    ensures forall x :: x in Bag(t.l) ==> x !in Bag(t.r) && x !in PathBag(p) && 0 <= x < |m| && x != s
    ensures forall x :: x in Bag(t.r) ==> x !in Bag(t.l) && x !in PathBag(p) && 0 <= x < |m| && x != s
    ensures forall x :: x in PathBag(p) ==> 0 <= x < |m| && x != s
    ensures t.l.Node? ==> t.l.x in Bag(t.l)
    ensures t.r.Node? ==> t.r.x in Bag(t.r)
  {
    BagNode(t);
    RootInBag(t.l, s);
    RootInBag(t.r, s);
    ReprBounds(m, s, t);
    PathBounds(m, s, root, p, t.x);
    hide Bag, PathBag;
    ghost var all := PathBag(p) + Bag(t);
    assert forall x :: all[x] == PathBag(p)[x] + Bag(t.l)[x] + multiset{t.x}[x] + Bag(t.r)[x];
  }

  lemma {:induction false} ReprBounds(m: Memory, s: int, t: Tree)
    requires Repr(m, s, t)
    ensures forall x :: x in Bag(t) ==> 0 <= x < |m| && x != s
  {
    hide Bag;
    if t.Node? {
      BagNode(t);
      ReprBounds(m, s, t.l);
      ReprBounds(m, s, t.r);
    } else {
      assert Bag(t) == multiset{} by { EmptyBag(t); }
    }
  }

  lemma EmptyBag(t: Tree)
    requires t.Leaf?
    ensures Bag(t) == multiset{}
  {
  }

  lemma {:induction false} PathBounds(m: Memory, s: int, root: int, p: Path, y: int)
    requires ReprPath(m, s, root, p, y)
    ensures forall x :: x in PathBag(p) ==> 0 <= x < |m| && x != s
    decreases p
  {
    if p.In? {
      BagPath(p);
      ReprBounds(m, s, p.sib);
      PathBounds(m, s, root, p.up, p.x);
      hide Bag, PathBag;
    }
  }

  lemma ReprNode(m: Memory, s: int, t: Tree)
    requires t.Node? && At(m, s, t.x, Ptr(t.l, s), Ptr(t.r, s), t.red)
    requires HasParent(m, t.l, t.x) && HasParent(m, t.r, t.x) && Repr(m, s, t.l) && Repr(m, s, t.r)
    ensures Repr(m, s, t)
  {
  }

  // ---------------------------------------------------------------- rotation

  predicate CanRotate(m: Memory, s: int, root: int, x: int, d: bool) {
    && 0 <= x < |m| && 0 <= s < |m|
    && (x != root ==> 0 <= m[x].parent < |m| && m[x].parent != x)
    && var y := Child(m[x], !d);
       && 0 <= y < |m| && 0 <= Child(m[y], d) < |m|
       && x != y && Child(m[y], d) != x
  }

  /** ngx_rbtree_left_rotate for d, ngx_rbtree_right_rotate for !d: the child of
      x on the side away from d takes its place. */
  function Rotated(m: Memory, s: int, root: int, x: int, d: bool): (m': Memory)
    requires CanRotate(m, s, root, x, d)
    ensures |m'| == |m|
  {
    var y := Child(m[x], !d);
    var b := Child(m[y], d);
    var m1 := m[x := SetChild(m[x], !d, b)];
    var m2 := if b != s then m1[b := m1[b].(parent := x)] else m1;
    var m3 := m2[y := m2[y].(parent := m2[x].parent)];
    var q := m3[x].parent;
    var m4 :=
      if x == root then m3
      else m3[q := SetChild(m3[q], if x == Child(m3[q], d) then d else !d, y)];
    var m5 := m4[y := SetChild(m4[y], d, x)];
    m5[x := m5[x].(parent := y)]
  }

  function RotatedRoot(m: Memory, root: int, x: int, d: bool): int
    requires 0 <= x < |m|
  {
    if x == root then Child(m[x], !d) else root
  }

  function Turned(d: bool, t: Tree): (t': Tree)
    requires t.Node? && Near(!d, t).Node?
  {
    var u := Near(!d, t);
    Mk(d, Mk(d, Near(d, t), t.x, t.red, Near(d, u)), u.x, u.red, Near(!d, u))
  }

  lemma TurnedNodes(d: bool, t: Tree)
    requires t.Node? && Near(!d, t).Node?
    ensures Inorder(Turned(d, t)) == Inorder(t)
  {
    var u := Near(!d, t);
    var a, b, c := Near(d, t), Near(d, u), Near(!d, u);
    var t1 := Mk(d, a, t.x, t.red, b);
    assert Turned(d, t) == Mk(d, t1, u.x, u.red, c);
    if d {
      assert Inorder(t1) == Inorder(a) + [t.x] + Inorder(b);
      assert Inorder(u) == Inorder(b) + [u.x] + Inorder(c);
    } else {
      assert Inorder(t1) == Inorder(b) + [t.x] + Inorder(a);
      assert Inorder(u) == Inorder(c) + [u.x] + Inorder(b);
    }
  }

  /** The three subtrees of a rotation and the path, and where they are. */
  ghost predicate Pieces(m: Memory, s: int, root: int, p: Path, d: bool, t: Tree) {
    t.Node? && Near(!d, t).Node? && PieceLinks(m, s, d, t) && PieceBags(m, s, p, d, t)
  }

  predicate PieceLinks(m: Memory, s: int, d: bool, t: Tree)
    requires t.Node? && Near(!d, t).Node?
  {
    var u := Near(!d, t);
    var x, y, a, b, c := t.x, u.x, Near(d, t), Near(d, u), Near(!d, u);
    && 0 <= s < |m| && 0 <= x < |m| && 0 <= y < |m| && x != s && y != s && x != y
    && Child(m[x], d) == Ptr(a, s) && Child(m[x], !d) == y && m[x].red == t.red
    && Child(m[y], d) == Ptr(b, s) && Child(m[y], !d) == Ptr(c, s) && m[y].red == u.red
    && HasParent(m, a, x) && HasParent(m, b, y) && HasParent(m, c, y)
    && Repr(m, s, a) && Repr(m, s, b) && Repr(m, s, c)
  }

  ghost predicate PieceBags(m: Memory, s: int, p: Path, d: bool, t: Tree)
    requires t.Node? && Near(!d, t).Node?
  {
    var u := Near(!d, t);
    var x, y, a, b, c := t.x, u.x, Near(d, t), Near(d, u), Near(!d, u);
    && Once(PathBag(p)) && Once(Bag(a)) && Once(Bag(b)) && Once(Bag(c))
    && Clear(Bag(a), |m|, s, x, y) && Clear(Bag(b), |m|, s, x, y) && Clear(Bag(c), |m|, s, x, y)
    && Clear(PathBag(p), |m|, s, x, y)
    && (forall z :: z in Bag(b) ==> z !in Bag(a) && z !in Bag(c) && z !in PathBag(p))
    && (forall z :: z in PathBag(p) ==> z !in Bag(a) && z !in Bag(c))
    && (b.Node? ==> b.x in Bag(b) && 0 <= b.x < |m| && b.x != s && b.x != x && b.x != y)
    && (p.In? ==> p.x in PathBag(p) && p.x != x && p.x != y && (b.Node? ==> p.x != b.x))
  }

  ghost predicate Clear(bag: multiset<int>, size: nat, s: int, x: int, y: int) {
    forall z :: z in bag ==> 0 <= z < size && z != s && z != x && z != y
  }

  /** The two nodes of a rotation and the three subtrees around them. */
  lemma ZipTwice(m: Memory, s: int, root: int, p: Path, d: bool, t: Tree)
    requires Zip(m, s, root, p, t) && t.Node? && Near(!d, t).Node?
    ensures Zip(m, s, root, In(p, !d, t.x, t.red, Near(d, t)), Near(!d, t))
  {
    hide Bag, PathBag, Once, Repr, ReprPath;
    ZipUp(m, s, root, In(p, !d, t.x, t.red, Near(d, t)), Near(!d, t));
    assert Mk(!d, Near(!d, t), t.x, t.red, Near(d, t)) == t;
  }

  lemma ZipLinks(m: Memory, s: int, root: int, p: Path, d: bool, t: Tree)
    requires Zip(m, s, root, p, t) && t.Node? && Near(!d, t).Node?
    ensures PieceLinks(m, s, d, t)
  {
    hide Bag, PathBag, Once, Repr, ReprPath;
    ZipTwice(m, s, root, p, d, t);
    ZipParts(m, s, root, p, t);
    ZipParts(m, s, root, In(p, !d, t.x, t.red, Near(d, t)), Near(!d, t));
  }

  lemma PathMembers(p: Path)
    requires p.In?
    ensures forall z :: z in PathBag(p) <==> z in PathBag(p.up) || z in Bag(p.sib) || z == p.x
  {
    BagPath(p);
    hide Bag, PathBag;
  }

  /** The subtrees of a node and the path to it have nothing in common. */
  ghost predicate Apart(size: nat, s: int, path: multiset<int>, a: multiset<int>, b: multiset<int>, x: int) {
    && Once(path) && Once(a) && Once(b) && 0 <= x < size && x != s && x !in path && x !in a && x !in b
    && (forall z :: z in a || z in b || z in path ==> 0 <= z < size && z != s)
    && (forall z :: z in a ==> z !in b) && (forall z :: z in path ==> z !in a && z !in b)
  }

  lemma ZipApart(m: Memory, s: int, root: int, p: Path, d: bool, t: Tree)
    requires Zip(m, s, root, p, t) && t.Node?
    ensures Apart(|m|, s, PathBag(p), Bag(Near(d, t)), Bag(Near(!d, t)), t.x)
    ensures Near(d, t).Node? ==> Near(d, t).x in Bag(Near(d, t))
    ensures p.In? ==> p.x in PathBag(p)
  {
    hide Bag, PathBag, Once, Repr, ReprPath;
    ZipParts(m, s, root, p, t);
    if p.In? {
      PathMembers(p);
    }
  }

  lemma ZipBags(m: Memory, s: int, root: int, p: Path, d: bool, t: Tree)
    requires Zip(m, s, root, p, t) && t.Node? && Near(!d, t).Node?
    ensures PieceBags(m, s, p, d, t)
  {
    hide Bag, PathBag, Once, Zip;
    var q := In(p, !d, t.x, t.red, Near(d, t));
    ZipTwice(m, s, root, p, d, t);
    ZipApart(m, s, root, p, d, t);
    ZipApart(m, s, root, q, d, Near(!d, t));
    PathMembers(q);
  }

  lemma ZipPieces(m: Memory, s: int, root: int, p: Path, d: bool, t: Tree)
    requires Zip(m, s, root, p, t) && t.Node? && Near(!d, t).Node?
    ensures Pieces(m, s, root, p, d, t)
  {
    hide Zip, PieceLinks, PieceBags;
    ZipLinks(m, s, root, p, d, t);
    ZipBags(m, s, root, p, d, t);
  }

  lemma {:induction false} RootOnPath(m: Memory, s: int, root: int, p: Path, y: int)
    requires ReprPath(m, s, root, p, y) && p.In?
    ensures root in PathBag(p)
    decreases p
  {
    BagPath(p);
    if p.up.In? {
      RootOnPath(m, s, root, p.up, p.x);
    }
  }

  /** Where a position's node hangs. */
  lemma PathLinks(m: Memory, s: int, root: int, p: Path, t: Tree)
    requires Zip(m, s, root, p, t) && t.Node?
    ensures root == t.x <==> p.Top?
    ensures p.In? ==>
      && 0 <= p.x < |m| && p.x != s && p.x != t.x && p.x in PathBag(p) && m[t.x].parent == p.x
      && Child(m[p.x], p.left) == t.x && Child(m[p.x], !p.left) != t.x
  {
    hide Once;
    ZipParts(m, s, root, p, t);
    if p.In? {
      RootOnPath(m, s, root, p, t.x);
      BagPath(p);
      RootInBag(p.sib, s);
      hide Bag, PathBag;
    }
  }

  /** Every record after a rotation. */
  ghost predicate RotatedShape(m: Memory, m': Memory, s: int, p: Path, d: bool, t: Tree) {
    t.Node? && Near(!d, t).Node? &&
    var u := Near(!d, t);
    var x, y, b := t.x, u.x, Near(d, u);
    && |m'| == |m| && 0 <= x < |m| && 0 <= y < |m|
    && Child(m'[x], d) == Child(m[x], d) && Child(m'[x], !d) == Ptr(b, s) && m'[x].parent == y && m'[x].red == m[x].red
    && Child(m'[y], d) == x && Child(m'[y], !d) == Child(m[y], !d) && m'[y].parent == m[x].parent
       && m'[y].red == m[y].red
    && (b.Node? ==> 0 <= b.x < |m| && m'[b.x] == m[b.x].(parent := x))
    && (p.In? ==> 0 <= p.x < |m| && m'[p.x] == SetChild(m[p.x], p.left, y))
    && forall z :: 0 <= z < |m| && z != x && z != y && (b.Node? ==> z != b.x) && (p.In? ==> z != p.x) ==> m'[z] == m[z]
  }

  lemma RotateEffect(m: Memory, s: int, root: int, x: int, d: bool, y: int, b: int, q: int, side: bool)
    requires CanRotate(m, s, root, x, d) && y == Child(m[x], !d) && b == Child(m[y], d) && b != x && b != y
               && y != s && x != s
    requires x != root ==>
      q == m[x].parent && q != x && q != y && q != b && q != s && Child(m[q], side) == x && Child(m[q], !side) != x
    ensures var m' := Rotated(m, s, root, x, d);
      && Child(m'[x], d) == Child(m[x], d) && Child(m'[x], !d) == b && m'[x].parent == y && m'[x].red == m[x].red
      && Child(m'[y], d) == x && Child(m'[y], !d) == Child(m[y], !d) && m'[y].parent == m[x].parent
         && m'[y].red == m[y].red
      && (b != s ==> m'[b] == m[b].(parent := x))
      && (x != root ==> m'[q] == SetChild(m[q], side, y))
      && forall z :: 0 <= z < |m| && z != x && z != y && (b != s ==> z != b) && (x != root ==> z != q) ==> m'[z] == m[z]
  {
  }

  lemma RotatedAt(m: Memory, s: int, root: int, p: Path, d: bool, t: Tree)
    requires Zip(m, s, root, p, t) && Pieces(m, s, root, p, d, t)
    ensures t.Node? && CanRotate(m, s, root, t.x, d)
    ensures RotatedShape(m, Rotated(m, s, root, t.x, d), s, p, d, t)
  {
    hide Bag, PathBag, Once, Repr, ReprPath, Clear, Rotated, Zip;
    PathLinks(m, s, root, p, t);
    var u := Near(!d, t);
    RotateEffect(m, s, root, t.x, d, u.x, Ptr(Near(d, u), s), if p.In? then p.x else 0, p.In? && p.left);
  }

  lemma PieceFrame(m: Memory, m': Memory, s: int, root: int, p: Path, d: bool, t: Tree, a: Tree)
    requires Pieces(m, s, root, p, d, t) && RotatedShape(m, m', s, p, d, t)
    requires a == Near(d, t) || a == Near(d, Near(!d, t)) || a == Near(!d, Near(!d, t))
    ensures Repr(m', s, a)
    ensures a == Near(d, t) ==> HasParent(m', a, t.x)
    ensures a == Near(!d, Near(!d, t)) ==> HasParent(m', a, Near(!d, t).x)
    ensures a == Near(d, Near(!d, t)) && a.Node? ==> HasParent(m', a, t.x)
  {
    hide Bag, PathBag, Once, Repr;
    RootInBag(a, s);
    ReprFrame(m, m', s, a);
  }

  lemma RotateRepr(m: Memory, m': Memory, s: int, root: int, p: Path, d: bool, t: Tree)
    requires Pieces(m, s, root, p, d, t) && RotatedShape(m, m', s, p, d, t)
    ensures Repr(m', s, Turned(d, t))
  {
    hide Bag, PathBag, Once, Repr, Clear;
    var u := Near(!d, t);
    var x, y, a, b, c := t.x, u.x, Near(d, t), Near(d, u), Near(!d, u);
    PieceFrame(m, m', s, root, p, d, t, a);
    PieceFrame(m, m', s, root, p, d, t, b);
    PieceFrame(m, m', s, root, p, d, t, c);
    var t1 := Mk(d, a, x, t.red, b);
    ReprNode(m', s, t1);
    ReprNode(m', s, Turned(d, t));
  }

  lemma RotatePath(m: Memory, m': Memory, s: int, root: int, root': int, p: Path, d: bool, t: Tree)
    requires Pieces(m, s, root, p, d, t) && RotatedShape(m, m', s, p, d, t)
    requires ReprPath(m, s, root, p, t.x) && root' == if p.Top? then Near(!d, t).x else root
    ensures ReprPath(m', s, root', p, Near(!d, t).x)
  {
    hide Bag, PathBag, Once, Repr;
    if p.In? {
      PathParts(p);
      RootInBag(p.sib, s);
      SiblingFrame(m, m', s, root, p, d, t);
      PathFrame(m, m', s, root, p.up, p.x);
    }
  }

  lemma SiblingFrame(m: Memory, m': Memory, s: int, root: int, p: Path, d: bool, t: Tree)
    requires Pieces(m, s, root, p, d, t) && RotatedShape(m, m', s, p, d, t)
    requires p.In? && Repr(m, s, p.sib) && HasParent(m, p.sib, p.x)
    ensures Repr(m', s, p.sib) && HasParent(m', p.sib, p.x)
  {
    hide Bag, PathBag, Once, Repr;
    PathParts(p);
    RootInBag(p.sib, s);
    ReprFrame(m, m', s, p.sib);
  }

  /** A rotation in memory is the rotation of the tree. */
  lemma ZipRotate(m: Memory, s: int, root: int, p: Path, d: bool, t: Tree)
    requires Zip(m, s, root, p, t) && t.Node? && Near(!d, t).Node?
    ensures CanRotate(m, s, root, t.x, d)
    ensures Zip(Rotated(m, s, root, t.x, d), s, RotatedRoot(m, root, t.x, d), p, Turned(d, t))
    ensures 0 <= s < |m| && Rotated(m, s, root, t.x, d)[s] == m[s]
  {
    hide PathBag, Once, Rotated, Repr, ReprPath;
    ZipPieces(m, s, root, p, d, t);
    RotatedAt(m, s, root, p, d, t);
    var m' := Rotated(m, s, root, t.x, d);
    RotateRepr(m, m', s, root, p, d, t);
    PathLinks(m, s, root, p, t);
    RotatePath(m, m', s, root, RotatedRoot(m, root, t.x, d), p, d, t);
    TurnedNodes(d, t);
    SentinelKept(m, m', s, root, p, d, t);
  }

  lemma SentinelKept(m: Memory, m': Memory, s: int, root: int, p: Path, d: bool, t: Tree)
    requires Pieces(m, s, root, p, d, t) && RotatedShape(m, m', s, p, d, t) && (p.In? ==> p.x != s)
    ensures m'[s] == m[s]
  {
  }

  // ------------------------------------- recolouring around the focus

  /** Focus on the sibling instead. */
  function Across(p: Path, t: Tree): Path
    requires p.In?
  {
    In(p.up, !p.left, p.x, p.red, t)
  }

  lemma ZipAcross(m: Memory, s: int, root: int, p: Path, t: Tree)
    requires p.In?
    ensures Zip(m, s, root, p, t) <==> Zip(m, s, root, Across(p, t), p.sib)
  {
    hide Zip;
    ZipUp(m, s, root, p, t);
    ZipUp(m, s, root, Across(p, t), p.sib);
  }

  lemma ZipPaintParent(m: Memory, s: int, root: int, p: Path, t: Tree, red: bool)
    requires Zip(m, s, root, p, t) && p.In?
    ensures 0 <= p.x < |m| && Zip(Painted(m, p.x, red), s, root, p.(red := red), t)
  {
    hide Zip, Painted;
    var t' := Mk(p.left, t, p.x, p.red, p.sib);
    ZipUp(m, s, root, p, t);
    ZipPaint(m, s, root, p.up, t', red);
    ZipUp(Painted(m, p.x, red), s, root, p.(red := red), t);
  }

  lemma ZipPaintSibling(m: Memory, s: int, root: int, p: Path, t: Tree, red: bool)
    requires Zip(m, s, root, p, t) && p.In? && p.sib.Node?
    ensures 0 <= p.sib.x < |m| && Zip(Painted(m, p.sib.x, red), s, root, p.(sib := Paint(p.sib, red)), t)
  {
    hide Zip, Painted;
    ZipAcross(m, s, root, p, t);
    ZipPaint(m, s, root, Across(p, t), p.sib, red);
    ZipAcross(Painted(m, p.sib.x, red), s, root, p.(sib := Paint(p.sib, red)), t);
  }

  lemma ZipPaintGrand(m: Memory, s: int, root: int, p: Path, t: Tree, red: bool)
    requires Zip(m, s, root, p, t) && p.In? && p.up.In?
    ensures 0 <= p.up.x < |m| && Zip(Painted(m, p.up.x, red), s, root, p.(up := p.up.(red := red)), t)
  {
    hide Zip, Painted;
    ZipUp(m, s, root, p, t);
    ZipPaintParent(m, s, root, p.up, Mk(p.left, t, p.x, p.red, p.sib), red);
    ZipUp(Painted(m, p.up.x, red), s, root, p.(up := p.up.(red := red)), t);
  }

  lemma ZipPaintUncle(m: Memory, s: int, root: int, p: Path, t: Tree, red: bool)
    requires Zip(m, s, root, p, t) && p.In? && p.up.In? && p.up.sib.Node?
    ensures 0 <= p.up.sib.x < |m| && Zip(Painted(m, p.up.sib.x, red), s, root,
              p.(up := p.up.(sib := Paint(p.up.sib, red))), t)
  {
    hide Zip, Painted;
    ZipUp(m, s, root, p, t);
    ZipPaintSibling(m, s, root, p.up, Mk(p.left, t, p.x, p.red, p.sib), red);
    ZipUp(Painted(m, p.up.sib.x, red), s, root, p.(up := p.up.(sib := Paint(p.up.sib, red))), t);
  }

  /** The pointers around the focus, as the code reads them. */
  lemma ZipReads(m: Memory, s: int, root: int, p: Path, t: Tree)
    requires Zip(m, s, root, p, t)
    ensures 0 <= s < |m| && !m[s].red
    ensures t.Node? ==>
      && 0 <= t.x < |m| && t.x != s && m[t.x].red == t.red && m[t.x].left == Ptr(t.l, s) && m[t.x].right == Ptr(t.r, s)
      && (root == t.x <==> p.Top?)
      && (p.In? ==> m[t.x].parent == p.x)
    ensures p.Top? ==> root == Ptr(t, s)
    ensures p.In? ==>
      && 0 <= p.x < |m| && p.x != s && m[p.x].red == p.red && p.x != Ptr(t, s)
      && Child(m[p.x], p.left) == Ptr(t, s) && Child(m[p.x], !p.left) == Ptr(p.sib, s)
      && (t.Node? || p.sib.Node? ==> Ptr(t, s) != Ptr(p.sib, s))
    ensures 0 <= Ptr(t, s) < |m| && m[Ptr(t, s)].red == IsRed(t)
    ensures p.In? ==> 0 <= Ptr(p.sib, s) < |m| && m[Ptr(p.sib, s)].red == IsRed(p.sib)
  {
    hide Bag, PathBag, Once;
    if t.Node? {
      PathLinks(m, s, root, p, t);
    }
    if p.In? && p.sib.Node? {
      ZipAcross(m, s, root, p, t);
      PathLinks(m, s, root, Across(p, t), p.sib);
    }
    if p.In? {
      ZipUp(m, s, root, p, t);
      PathLinks(m, s, root, p.up, Mk(p.left, t, p.x, p.red, p.sib));
    }
  }

  // ---------------------------------------------------------------- attaching

  /** Hang a new red node on the free side of its parent. */
  function Attached(m: Memory, s: int, parent: int, left: bool, node: int): (m': Memory)
    requires 0 <= parent < |m| && 0 <= node < |m|
    ensures |m'| == |m|
  {
    m[parent := SetChild(m[parent], left, node)][node := Record(s, s, parent, true)]
  }

  lemma ZipAttach(m: Memory, s: int, root: int, p: Path, node: int)
    requires Zip(m, s, root, p, Leaf) && p.In? && 0 <= node < |m| && node != s && node !in PathBag(p)
    ensures 0 <= p.x < |m|
    ensures Zip(Attached(m, s, p.x, p.left, node), s, root, p, Node(Leaf, node, true, Leaf))
  {
    hide Bag, PathBag, Repr;
    var m' := Attached(m, s, p.x, p.left, node);
    var t := Node(Leaf, node, true, Leaf);
    PathBounds(m, s, root, p, s);
    assert Bag(Leaf) == multiset{} by { EmptyBag(Leaf); }
    assert PathBag(p) + Bag(Leaf) == PathBag(p);
    PathParts(p);
    RootInBag(p.sib, s);
    ReprFrame(m, m', s, p.sib);
    PathFrame(m, m', s, root, p.up, p.x);
    assert Repr(m', s, t) by { LeafNode(m', s, node); }
    assert Bag(t) == multiset{node} by { BagNode(t); }
  }

  lemma LeafNode(m: Memory, s: int, node: int)
    requires At(m, s, node, s, s, true)
    ensures Repr(m, s, Node(Leaf, node, true, Leaf))
  {
  }

  // ---------------------------------------------------------------- deleting

  /** Records outside the tree, and the sentinel's links, do not matter. */
  lemma ZipElsewhere(m: Memory, m': Memory, s: int, root: int, p: Path, t: Tree)
    requires Zip(m, s, root, p, t) && |m'| == |m| && m'[s].red == m[s].red
    requires forall x :: x in PathBag(p) + Bag(t) ==> 0 <= x < |m| && m'[x] == m[x]
    ensures Zip(m', s, root, p, t)
  {
    hide Bag, PathBag, Repr, ReprPath;
    assert forall x :: (PathBag(p) + Bag(t))[x] == PathBag(p)[x] + Bag(t)[x];
    ReprFrame(m, m', s, t);
    PathFrame(m, m', s, root, p, Ptr(t, s));
    RootInBag(t, s);
  }

  lemma ZipBounds(m: Memory, s: int, root: int, p: Path, t: Tree)
    requires Zip(m, s, root, p, t)
    ensures 0 <= s < |m| && forall x :: x in PathBag(p) + Bag(t) ==> 0 <= x < |m| && x != s
  {
    hide Bag, PathBag;
    ReprBounds(m, s, t);
    PathBounds(m, s, root, p, Ptr(t, s));
  }

  /** The path holds when its hole is filled by another pointer. */
  lemma PathHole(m: Memory, m': Memory, s: int, root: int, root': int, p: Path, y: int, y': int)
    requires ReprPath(m, s, root, p, y) && Once(PathBag(p)) && |m'| == |m|
    requires forall x :: x in PathBag(p) && (p.In? ==> x != p.x) ==> 0 <= x < |m| && m'[x] == m[x]
    requires p.In? ==> 0 <= p.x < |m| && m'[p.x] == SetChild(m[p.x], p.left, y')
    requires root' == if p.Top? then y' else root
    ensures ReprPath(m', s, root', p, y')
  {
    hide Bag, PathBag, Once, Repr;
    if p.In? {
      PathParts(p);
      RootInBag(p.sib, s);
      ReprFrame(m, m', s, p.sib);
      PathFrame(m, m', s, root, p.up, p.x);
    }
  }

  /** The root has at most one child: that child is the tree without it. */
  lemma ZipDropRoot(m: Memory, s: int, root: int, d: bool, t: Tree)
    requires Zip(m, s, root, Top, t) && t.Node? && Near(d, t).Leaf?
    ensures var v := Near(!d, t); Zip(m, s, Ptr(v, s), Top, v) && t.x !in PathBag(Top) + Bag(v)
  {
    hide Bag, Once, Repr;
    var v := Near(!d, t);
    ZipParts(m, s, root, Top, t);
    assert PathBag(Top) == multiset{};
    assert PathBag(Top) + Bag(v) == Bag(v);
  }

  /** The parent's link and the child's parent link bypass a node. */
  function Detached(m: Memory, q: int, left: bool, c: int): (m': Memory)
    requires 0 <= q < |m| && 0 <= c < |m|
    ensures |m'| == |m|
  {
    var m1 := m[q := SetChild(m[q], left, c)];
    m1[c := m1[c].(parent := q)]
  }

  lemma ZipDetach(m: Memory, s: int, root: int, p: Path, d: bool, t: Tree)
    requires Zip(m, s, root, p, t) && t.Node? && Near(d, t).Leaf? && p.In?
    ensures 0 <= p.x < |m| && 0 <= Ptr(Near(!d, t), s) < |m|
    ensures Zip(Detached(m, p.x, p.left, Ptr(Near(!d, t), s)), s, root, p, Near(!d, t))
    ensures t.x !in PathBag(p) + Bag(Near(!d, t))
  {
    hide Bag, PathBag, Repr, ReprPath, Once;
    var v := Near(!d, t);
    ZipParts(m, s, root, p, t);
    RootInBag(v, s);
    assert 0 <= p.x < |m| && p.x in PathBag(p) by { PathLinks(m, s, root, p, t); }
    var m' := Detached(m, p.x, p.left, Ptr(v, s));
    ReprFrame(m, m', s, v);
    PathHole(m, m', s, root, root, p, t.x, Ptr(v, s));
    OnceWithout(p, t, d);
  }

  lemma OnceWithout(p: Path, t: Tree, d: bool)
    requires Once(PathBag(p) + Bag(t)) && t.Node?
    ensures Once(PathBag(p) + Bag(Near(!d, t)))
  {
    BagNode(t);
    hide Bag, PathBag;
    var all, part := PathBag(p) + Bag(t), PathBag(p) + Bag(Near(!d, t));
    assert forall x :: part[x] == PathBag(p)[x] + Bag(Near(!d, t))[x] <= all[x];
  }

  predicate CanReplace(m: Memory, s: int, root: int, a: int, b: int) {
    && 0 <= a < |m| && 0 <= b < |m| && a != b && 0 <= m[a].left < |m| && 0 <= m[a].right < |m|
    && m[a].left != a && m[a].left != b && m[a].right != a && m[a].right != b
    && (a != root ==> 0 <= m[a].parent < |m| && m[a].parent != a && m[a].parent != b)
  }

  /** Node b takes over the links, the colour and the place of node a. */
  function Replaced(m: Memory, s: int, root: int, a: int, b: int): (m': Memory)
    requires CanReplace(m, s, root, a, b)
    ensures |m'| == |m|
  {
    var m1 := m[b := m[a]];
    var q := m[a].parent;
    Adopted(if a == root then m1 else m1[q := SetChild(m1[q], a == m1[q].left, b)], s, b)
  }

  /** The children of b point back to it. */
  function Adopted(m: Memory, s: int, b: int): (m': Memory)
    requires 0 <= b < |m| && 0 <= m[b].left < |m| && 0 <= m[b].right < |m|
    ensures |m'| == |m|
  {
    var l, r := m[b].left, m[b].right;
    var m3 := if l != s then m[l := m[l].(parent := b)] else m;
    if r != s then m3[r := m3[r].(parent := b)] else m3
  }

  function ReplacedRoot(root: int, a: int, b: int): int { if a == root then b else root }

  /** Every record after a replacement. */
  ghost predicate ReplacedShape(m: Memory, m': Memory, s: int, p: Path, t: Tree, b: int) {
    && t.Node? && |m'| == |m| && 0 <= t.x < |m| && 0 <= b < |m| && m'[b] == m[t.x]
    && (t.l.Node? ==> 0 <= t.l.x < |m| && m'[t.l.x] == m[t.l.x].(parent := b))
    && (t.r.Node? ==> 0 <= t.r.x < |m| && m'[t.r.x] == m[t.r.x].(parent := b))
    && (p.In? ==> 0 <= p.x < |m| && m'[p.x] == SetChild(m[p.x], p.left, b))
    && forall z :: 0 <= z < |m| && z != b && (t.l.Node? ==> z != t.l.x) && (t.r.Node? ==> z != t.r.x) &&
                    (p.In? ==> z != p.x) ==>
         m'[z] == m[z]
  }

  lemma ReplacedAt(m: Memory, s: int, root: int, p: Path, t: Tree, b: int)
    requires Zip(m, s, root, p, t) && t.Node? && 0 <= b < |m| && b != s && b !in PathBag(p) + Bag(t)
    ensures CanReplace(m, s, root, t.x, b)
    ensures ReplacedShape(m, Replaced(m, s, root, t.x, b), s, p, t, b)
  {
    hide Bag, PathBag, Repr, ReprPath, Once;
    ZipParts(m, s, root, p, t);
    PathLinks(m, s, root, p, t);
    BagNode(t);
    assert forall x :: x in PathBag(p) || x in Bag(t.l) || x in Bag(t.r) || x == t.x ==> x in PathBag(p) + Bag(t);
  }

  lemma ZipReplaceRoot(m: Memory, s: int, root: int, p: Path, t: Tree, b: int)
    requires Zip(m, s, root, p, t) && t.Node? && 0 <= b < |m| && b != s && b !in PathBag(p) + Bag(t)
    ensures CanReplace(m, s, root, t.x, b)
    ensures Zip(Replaced(m, s, root, t.x, b), s, ReplacedRoot(root, t.x, b), p, t.(x := b))
    ensures 0 <= s < |m| && Replaced(m, s, root, t.x, b)[s] == m[s]
  {
    hide Bag, PathBag, Repr, ReprPath, Replaced, Once;
    ReplacedAt(m, s, root, p, t, b);
    var m', t' := Replaced(m, s, root, t.x, b), t.(x := b);
    ReplaceRepr(m, m', s, root, p, t, b);
    ReplacePath(m, m', s, root, p, t, b);
    ReplaceBag(p, t, b);
  }

  lemma ReplaceRepr(m: Memory, m': Memory, s: int, root: int, p: Path, t: Tree, b: int)
    requires Zip(m, s, root, p, t) && ReplacedShape(m, m', s, p, t, b) && b != s && b !in PathBag(p) + Bag(t)
    ensures Repr(m', s, t.(x := b)) && m'[s] == m[s] && (p.In? ==> HasParent(m', t.(x := b), p.x))
  {
    hide Bag, PathBag, Repr, ReprPath, Once;
    ZipParts(m, s, root, p, t);
    PathLinks(m, s, root, p, t);
    BagNode(t);
    assert forall x :: x in PathBag(p) || x in Bag(t.l) || x in Bag(t.r) || x == t.x ==> x in PathBag(p) + Bag(t);
    ReprFrame(m, m', s, t.l);
    ReprFrame(m, m', s, t.r);
    ReprNode(m', s, t.(x := b));
  }

  lemma ReplacePath(m: Memory, m': Memory, s: int, root: int, p: Path, t: Tree, b: int)
    requires Zip(m, s, root, p, t) && ReplacedShape(m, m', s, p, t, b) && b != s && b !in PathBag(p) + Bag(t)
    ensures ReprPath(m', s, ReplacedRoot(root, t.x, b), p, b)
  {
    hide Bag, PathBag, Repr, ReprPath, Once;
    ZipParts(m, s, root, p, t);
    PathLinks(m, s, root, p, t);
    assert forall x :: x in PathBag(p) ==> x in PathBag(p) + Bag(t);
    PathHole(m, m', s, root, ReplacedRoot(root, t.x, b), p, t.x, b);
  }

  lemma ReplaceBag(p: Path, t: Tree, b: int)
    requires Once(PathBag(p) + Bag(t)) && t.Node? && b !in PathBag(p) + Bag(t)
    ensures Once(PathBag(p) + Bag(t.(x := b)))
  {
    hide Bag, PathBag;
    BagNode(t);
    BagNode(t.(x := b));
    var all, all' := PathBag(p) + Bag(t), PathBag(p) + Bag(t.(x := b));
    assert forall x :: all[x] == PathBag(p)[x] + Bag(t.l)[x] + multiset{t.x}[x] + Bag(t.r)[x];
    assert forall x :: all'[x] == PathBag(p)[x] + Bag(t.l)[x] + multiset{b}[x] + Bag(t.r)[x];
  }

  /** The same, seen from a position below the replaced node. */
  lemma {:induction false} ZipReplace(m: Memory, s: int, root: int, p: Path, t: Tree, a: int, b: int)
    requires Zip(m, s, root, p, t) && Spine(p, a) && 0 <= b < |m| && b != s && b !in PathBag(p) + Bag(t)
    ensures CanReplace(m, s, root, a, b)
    ensures Zip(Replaced(m, s, root, a, b), s, ReplacedRoot(root, a, b), Renamed(p, a, b), t)
    ensures 0 <= s < |m| && Replaced(m, s, root, a, b)[s] == m[s]
    decreases p
  {
    hide Zip, Replaced, ReplacedRoot, CanReplace, Bag, PathBag;
    var t1 := Mk(p.left, t, p.x, p.red, p.sib);
    ZipUp(m, s, root, p, t);
    BagPath(p);
    BagMk(p.left, t, p.x, p.red, p.sib);
    assert PathBag(p.up) + Bag(t1) == PathBag(p) + Bag(t);
    if p.x == a {
      ZipReplaceRoot(m, s, root, p.up, t1, b);
    } else {
      ZipReplace(m, s, root, p.up, t1, a, b);
    }
    ZipUp(Replaced(m, s, root, a, b), s, ReplacedRoot(root, a, b), Renamed(p, a, b), t);
  }

  /** Replacing redirects the parent link of the right child, whatever it was. */
  lemma ReplacedAgain(m: Memory, s: int, root: int, a: int, b: int, x: int)
    requires CanReplace(m, s, root, a, b) && a != root ==> m[a].parent != m[a].right && m[a].parent != s
    requires CanReplace(m, s, root, a, b) && 0 <= s < |m| && s != a && s != b
               && (m[a].left != s ==> m[a].left != m[a].right)
    requires 0 <= x < |m| && x != s
    ensures var c := m[a].right;
            var m1 := m[c := m[c].(parent := b)];
            && CanReplace(m1, s, root, a, b)
            && Replaced(m1, s, root, a, b)[x] == Replaced(m, s, root, a, b)[x]
            && Replaced(m1, s, root, a, b)[s].red == Replaced(m, s, root, a, b)[s].red
            && (c == s ==> Replaced(m1, s, root, a, b)[s].parent == b)
  {
  }

  function WithNear(side: bool, w: Tree, n: Tree): Tree
    requires w.Node?
  {
    Mk(side, n, w.x, w.red, Near(!side, w))
  }

  lemma ZipPaintNephew(m: Memory, s: int, root: int, p: Path, t: Tree, side: bool, red: bool)
    requires Zip(m, s, root, p, t) && p.In? && p.sib.Node? && Near(side, p.sib).Node?
    ensures 0 <= Near(side, p.sib).x < |m|
    ensures var n := Near(side, p.sib);
            Zip(Painted(m, n.x, red), s, root, p.(sib := WithNear(side, p.sib, Paint(n, red))), t)
  {
    hide Zip, Painted;
    var w := p.sib;
    var n := Near(side, w);
    var q := In(Across(p, t), side, w.x, w.red, Near(!side, w));
    ZipAcross(m, s, root, p, t);
    assert Mk(side, n, w.x, w.red, Near(!side, w)) == w;
    ZipUp(m, s, root, q, n);
    ZipPaint(m, s, root, q, n, red);
    var m', w' := Painted(m, n.x, red), WithNear(side, w, Paint(n, red));
    ZipUp(m', s, root, q, Paint(n, red));
    ZipAcross(m', s, root, p.(sib := w'), t);
  }

  /** What a deletion reads around a short subtree: its parent link is set even
      where it is the shared sentinel. */
  lemma DeleteReads(m: Memory, s: int, root: int, p: Path, t: Tree)
    requires Zip(m, s, root, p, t) && p.In? && p.sib.Node? && (t.Leaf? ==> 0 <= s < |m| && m[s].parent == p.x)
    ensures 0 <= Ptr(t, s) < |m| && m[Ptr(t, s)].parent == p.x && 0 <= p.x < |m|
    ensures p.left == (Ptr(t, s) == m[p.x].left) && Child(m[p.x], !p.left) == p.sib.x && p.x != s
    ensures 0 <= p.sib.x < |m| && p.sib.x != s && m[p.sib.x].red == p.sib.red
    ensures m[p.sib.x].left == Ptr(p.sib.l, s) && m[p.sib.x].right == Ptr(p.sib.r, s)
    ensures 0 <= Ptr(p.sib.l, s) < |m| && m[Ptr(p.sib.l, s)].red == IsRed(p.sib.l)
    ensures 0 <= Ptr(p.sib.r, s) < |m| && m[Ptr(p.sib.r, s)].red == IsRed(p.sib.r)
    ensures m[p.x].red == p.red
  {
    hide Zip;
    ZipReads(m, s, root, p, t);
    ZipAcross(m, s, root, p, t);
    ZipReads(m, s, root, Across(p, t), p.sib);
    var q := In(Across(p, t), true, p.sib.x, p.sib.red, p.sib.r);
    ZipUp(m, s, root, q, p.sib.l);
    ZipReads(m, s, root, q, p.sib.l);
  }

  /** The memory after the substitute is unhooked: its child is tied to the node
      that will be its parent in the end. */
  function Unhooked(m: Memory, q: int, left: bool, c: int, node: int, subst: int): (m': Memory)
    requires 0 <= q < |m| && 0 <= c < |m|
    ensures |m'| == |m|
  {
    var m1 := Detached(m, q, left, c);
    if subst != node && q == node then m1[c := m1[c].(parent := subst)] else m1
  }

  lemma ReplaceReads(m: Memory, s: int, root: int, p: Path, t: Tree)
    requires Zip(m, s, root, p, t) && p.In? && !p.left
    ensures 0 <= p.x < |m| && p.x != s && m[p.x].right == Ptr(t, s)
    ensures p.x != root ==> m[p.x].parent != m[p.x].right && m[p.x].parent != s
    ensures m[p.x].left != s ==> m[p.x].left != m[p.x].right
  {
    hide Bag, PathBag, Once, Zip;
    var u := Mk(p.left, t, p.x, p.red, p.sib);
    ZipUp(m, s, root, p, t);
    ZipParts(m, s, root, p.up, u);
    PathLinks(m, s, root, p.up, u);
  }

  /** In the two-child case the substitute ends up in the deleted node's place. */
  lemma SubstMoved(m: Memory, s: int, root: int, p: Path, d: bool, t: Tree, node: int)
    requires Zip(m, s, root, p, t) && t.Node? && Near(d, t).Leaf? && Spine(p, node) && t.x != node
    ensures 0 <= p.x < |m| && 0 <= Ptr(Near(!d, t), s) < |m|
    ensures var v := Near(!d, t);
            var m1 := Unhooked(m, p.x, p.left, Ptr(v, s), node, t.x);
            && CanReplace(m1, s, root, node, t.x)
            && Zip(Replaced(m1, s, root, node, t.x), s, ReplacedRoot(root, node, t.x), Renamed(p, node, t.x), v)
            && (v.Leaf? ==> 0 <= s < |m| && Replaced(m1, s, root, node, t.x)[s].parent == Renamed(p, node, t.x).x)
  {
    hide Zip, CanReplace, Replaced, Bag, PathBag, Detached;
    var v := Near(!d, t);
    ZipDetach(m, s, root, p, d, t);
    assert 0 <= t.x < |m| && t.x != s by { ZipReads(m, s, root, p, t); }
    var c, m0 := Ptr(v, s), Detached(m, p.x, p.left, Ptr(v, s));
    ZipReplace(m0, s, root, p, v, node, t.x);
    assert v.Leaf? ==> m0[s].parent == p.x by { DetachedParent(m, p.x, p.left, c); }
    if p.x == node {
      SubstWasChild(m0, s, root, p, v, t.x);
    }
  }

  lemma DetachedParent(m: Memory, q: int, left: bool, c: int)
    requires 0 <= q < |m| && 0 <= c < |m|
    ensures Detached(m, q, left, c)[c].parent == q
  {
  }

  lemma SubstWasChild(m: Memory, s: int, root: int, p: Path, v: Tree, b: int)
    requires Zip(m, s, root, p, v) && p.In? && !p.left && 0 <= b < |m| && b != s && b != p.x
    requires CanReplace(m, s, root, p.x, b)
    requires Zip(Replaced(m, s, root, p.x, b), s, ReplacedRoot(root, p.x, b), Renamed(p, p.x, b), v)
    ensures 0 <= Ptr(v, s) < |m|
    ensures var c := Ptr(v, s);
            var m1 := m[c := m[c].(parent := b)];
            && CanReplace(m1, s, root, p.x, b)
            && Zip(Replaced(m1, s, root, p.x, b), s, ReplacedRoot(root, p.x, b), Renamed(p, p.x, b), v)
            && (v.Leaf? ==> 0 <= s < |m| && Replaced(m1, s, root, p.x, b)[s].parent == b)
  {
    hide Zip, CanReplace, Replaced, Bag, PathBag;
    ZipReads(m, s, root, p, v);
    ReplaceReads(m, s, root, p, v);
    var c := Ptr(v, s);
    var m1 := m[c := m[c].(parent := b)];
    var q, m2 := Renamed(p, p.x, b), Replaced(m, s, root, p.x, b);
    ReplacedAgain(m, s, root, p.x, b, b);
    ZipBounds(m2, s, ReplacedRoot(root, p.x, b), q, v);
    forall x | x in PathBag(q) + Bag(v) ensures 0 <= x < |m| && Replaced(m1, s, root, p.x, b)[x] == m2[x] {
      ReplacedAgain(m, s, root, p.x, b, x);
    }
    ZipElsewhere(m2, Replaced(m1, s, root, p.x, b), s, ReplacedRoot(root, p.x, b), q, v);
  }

  /** The replaced node is no longer anywhere. */
  lemma ReplacedGone(m: Memory, s: int, root: int, p: Path, t: Tree, a: int, b: int)
    requires Zip(m, s, root, p, t) && Spine(p, a) && a != b
    ensures a !in PathBag(Renamed(p, a, b)) + Bag(t)
  {
    hide Bag, Repr, ReprPath;
    var before := RenamedNodes(p, a, b);
    var all := PathBag(p) + Bag(t);
    var ms := multiset(before);
    assert multiset(before + [a]) == ms + multiset{a};
    assert multiset(before + [b]) == ms + multiset{b};
    assert all[a] == ms[a] + 1 + multiset(After(p))[a] + Bag(t)[a];
  }

  lemma Twice(l: seq<int>, i: nat, j: nat)
    requires i < j < |l| && l[i] == l[j]
    ensures multiset(l)[l[i]] >= 2
  {
    var a, b := l[..j], l[j..];
    assert l == a + b;
    assert a[i] == l[i] && b[0] == l[i];
    assert l[i] in multiset(a) && l[i] in multiset(b);
  }

  lemma Distinct(m: Memory, s: int, root: int, t: Tree, i: nat, j: nat)
    requires Zip(m, s, root, Top, t) && i < j < |Inorder(t)|
    ensures Inorder(t)[i] != Inorder(t)[j]
  {
    hide Repr, ReprPath, Inorder;
    var l := Inorder(t);
    assert PathBag(Top) + Bag(t) == multiset(l);
    if l[i] == l[j] {
      Twice(l, i, j);
      assert false;
    }
  }
}
