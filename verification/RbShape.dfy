/**
 Red-black trees and positions in them, as values: what src/core/ngx_rbtree.c
 does to its nodes, seen without the pointers.

 A position is a subtree with the path that leads to it.  Both halves of a
 mirrored pair of branches in the source are covered by a direction: `left` is
 true when the hole of a path, or the inner side of a node, is on the left.
 */
module RbShape {
  import opened Common

  datatype Tree = Leaf | Node(l: Tree, x: int, red: bool, r: Tree)

  /** From a subtree up to the root: the parent x, its colour, the sibling. */
  datatype Path = Top | In(up: Path, left: bool, x: int, red: bool, sib: Tree)

  /** A node with one child on the side `left` and the other opposite. */
  function Mk(left: bool, near: Tree, x: int, red: bool, far: Tree): (t: Tree)
    ensures t.Node? && t.x == x && t.red == red
  {
    if left then Node(near, x, red, far) else Node(far, x, red, near)
  }

  function Near(left: bool, t: Tree): Tree
    requires t.Node?
  {
    if left then t.l else t.r
  }

  function Paint(t: Tree, red: bool): (t': Tree)
    ensures t'.Leaf? <==> t.Leaf?
  {
    if t.Leaf? then t else t.(red := red)
  }

  // ------------------------------------------------------------ node order

  function Inorder(t: Tree): seq<int> {
    if t.Leaf? then [] else Inorder(t.l) + [t.x] + Inorder(t.r)
  }

  function Before(p: Path): seq<int> {
    if p.Top? then [] else if p.left then Before(p.up) else Before(p.up) + Inorder(p.sib) + [p.x]
  }

  function After(p: Path): seq<int> {
    if p.Top? then [] else if p.left then [p.x] + Inorder(p.sib) + After(p.up) else After(p.up)
  }

  /** The nodes of the whole tree, in order. */
  function Nodes(p: Path, t: Tree): seq<int> { Before(p) + Inorder(t) + After(p) }

  function Plug(p: Path, t: Tree): Tree
    decreases p
  {
    if p.Top? then t else Plug(p.up, Mk(p.left, t, p.x, p.red, p.sib))
  }

  // --------------------------------------------------------- red-black shape

  predicate IsRed(t: Tree) { t.Node? && t.red }

  function BlackHeight(t: Tree): nat {
    if t.Leaf? then 0 else BlackHeight(t.l) + if t.red then 0 else 1
  }

  predicate Balanced(t: Tree) {
    t.Node? ==> Balanced(t.l) && Balanced(t.r) && BlackHeight(t.l) == BlackHeight(t.r)
  }

  predicate NoRedRed(t: Tree) {
    t.Node? ==> NoRedRed(t.l) && NoRedRed(t.r) && (t.red ==> !IsRed(t.l) && !IsRed(t.r))
  }

  predicate RedBlack(t: Tree) { Balanced(t) && NoRedRed(t) && !IsRed(t) }

  /** A subtree of black height h fits into the path. */
  predicate PathBalanced(p: Path, h: nat) {
    p.In? ==>
      && Balanced(p.sib) && BlackHeight(p.sib) == h
      && PathBalanced(p.up, h + if p.red then 0 else 1)
  }

  predicate PathIsRed(p: Path) { p.In? && p.red }

  /** No red node on the path has a red neighbour there, and the root is black. */
  predicate PathNoRedRed(p: Path) {
    p.In? ==>
      && NoRedRed(p.sib)
      && (p.red ==> !IsRed(p.sib) && p.up.In? && !p.up.red)
      && PathNoRedRed(p.up)
  }

  ghost predicate RedBlackAt(p: Path, t: Tree) {
    && Balanced(t) && NoRedRed(t)
    && PathBalanced(p, BlackHeight(t)) && PathNoRedRed(p)
    && (IsRed(t) ==> p.In? && !p.red)
  }

  lemma MkFacts(left: bool, near: Tree, x: int, red: bool, far: Tree)
    ensures var t := Mk(left, near, x, red, far);
            && Inorder(t) == (if left then Inorder(near) + [x] + Inorder(far) else Inorder(far) + [x] + Inorder(near))
            && (Balanced(t) <==> Balanced(near) && Balanced(far) && BlackHeight(near) == BlackHeight(far))
            && (Balanced(t) ==> BlackHeight(t) == BlackHeight(near) + if red then 0 else 1)
            && (NoRedRed(t) <==> NoRedRed(near) && NoRedRed(far) && (red ==> !IsRed(near) && !IsRed(far)))
  {
  }

  /** Moving up one step changes neither the order nor the shape. */
  lemma StepUpNodes(p: Path, t: Tree)
    requires p.In?
    ensures Nodes(p.up, Mk(p.left, t, p.x, p.red, p.sib)) == Nodes(p, t)
  {
    hide Inorder, Mk;
    MkFacts(p.left, t, p.x, p.red, p.sib);
  }

  lemma StepUpShape(p: Path, t: Tree)
    requires p.In?
    ensures RedBlackAt(p, t) <==> RedBlackAt(p.up, Mk(p.left, t, p.x, p.red, p.sib))
  {
    hide Mk, Inorder;
    MkFacts(p.left, t, p.x, p.red, p.sib);
  }

  lemma {:induction false} PlugFacts(p: Path, t: Tree)
    ensures Inorder(Plug(p, t)) == Nodes(p, t)
    ensures RedBlackAt(p, t) <==> RedBlack(Plug(p, t))
    decreases p
  {
    if p.In? {
      StepUpNodes(p, t);
      StepUpShape(p, t);
      PlugFacts(p.up, Mk(p.left, t, p.x, p.red, p.sib));
    }
  }

  /** Every node of a tree can be focused on. */
  lemma {:induction false} Locate(p: Path, t: Tree, x: int) returns (p': Path, t': Tree)
    requires x in Inorder(t)
    ensures Plug(p', t') == Plug(p, t) && t'.Node? && t'.x == x
    decreases t
  {
    if t.x == x {
      p', t' := p, t;
    } else if x in Inorder(t.l) {
      p', t' := Locate(In(p, true, t.x, t.red, t.r), t.l, x);
    } else {
      p', t' := Locate(In(p, false, t.x, t.red, t.l), t.r, x);
    }
  }

  function Depth(p: Path): nat { if p.Top? then 0 else 1 + Depth(p.up) }

  // ------------------------------------------------------ after an insertion

  /** All is well except that t and its parent may both be red. */
  ghost predicate Inserting(p: Path, t: Tree) {
    && IsRed(t) && Balanced(t) && NoRedRed(t)
    && PathBalanced(p, BlackHeight(t)) && PathNoRedRed(p)
  }

  /** A red parent and uncle: the conflict moves up two levels. */
  lemma InsertRecolour(p: Path, t: Tree)
    requires Inserting(p, t) && PathIsRed(p) && IsRed(p.up.sib)
    ensures var g := p.up;
            var t' := Mk(g.left, Mk(p.left, t, p.x, false, p.sib), g.x, true, Paint(g.sib, false));
            Inserting(g.up, t') && Nodes(g.up, t') == Nodes(p, t)
  {
    var g := p.up;
    var t1, u1 := Mk(p.left, t, p.x, false, p.sib), Paint(g.sib, false);
    MkFacts(p.left, t, p.x, false, p.sib);
    MkFacts(g.left, t1, g.x, true, u1);
    SameNodes(p, t, false, true);
    PaintFacts(g.sib, false);
    hide Mk;
    assert PathBalanced(g, BlackHeight(t)) && PathNoRedRed(g);
    assert PathBalanced(g.up, BlackHeight(t) + 1) && PathNoRedRed(g.up);
  }

  lemma PaintFacts(t: Tree, red: bool)
    ensures Inorder(Paint(t, red)) == Inorder(t)
    ensures Balanced(t) ==> Balanced(Paint(t, red))
    ensures NoRedRed(t) && !red ==> NoRedRed(Paint(t, red))
    ensures IsRed(t) ==> BlackHeight(Paint(t, red)) == BlackHeight(t) + if red then 0 else 1
    ensures t.Node? && !t.red && red ==> BlackHeight(Paint(t, red)) + 1 == BlackHeight(t)
  {
  }

  /** Colours do not matter for the order. */
  lemma SameNodes(p: Path, t: Tree, a: bool, b: bool)
    requires p.In? && p.up.In?
    ensures var g := p.up;
            Nodes(g.up, Mk(g.left, Mk(p.left, t, p.x, a, p.sib), g.x, b, Paint(g.sib, false))) == Nodes(p, t)
  {
    var g := p.up;
    var p' := p.(red := a, up := g.(red := b, sib := Paint(g.sib, false)));
    assert Inorder(Paint(g.sib, false)) == Inorder(g.sib);
    assert Before(p'.up) == Before(g) && After(p'.up) == After(g);
    assert Before(p') == Before(p) && After(p') == After(p);
    StepUpNodes(p', t);
    StepUpNodes(p'.up, Mk(p.left, t, p.x, a, p.sib));
  }

  /** A node on the inner side changes places with its parent. */
  lemma InsertInner(p: Path, t: Tree)
    requires Inserting(p, t) && PathIsRed(p) && p.left != p.up.left
    ensures var d := p.up.left;
            var p', t' := p.(left := d, x := t.x, sib := Near(!d, t)), Mk(d, p.sib, p.x, true, Near(d, t));
            Inserting(p', t') && Nodes(p', t') == Nodes(p, t)
  {
    var d := p.up.left;
    MkFacts(d, p.sib, p.x, true, Near(d, t));
    MkFacts(d, Near(d, t), t.x, t.red, Near(!d, t));
    assert t == Mk(d, Near(d, t), t.x, t.red, Near(!d, t));
    var p', t' := p.(left := d, x := t.x, sib := Near(!d, t)), Mk(d, p.sib, p.x, true, Near(d, t));
    InnerNodes(p, t);
  }

  lemma InnerNodes(p: Path, t: Tree)
    requires p.In? && p.up.In? && t.Node? && p.left != p.up.left
    ensures var d := p.up.left;
            Nodes(p.(left := d, x := t.x, sib := Near(!d, t)), Mk(d, p.sib, p.x, true, Near(d, t))) == Nodes(p, t)
  {
    hide Inorder;
    var d := p.up.left;
    var a, b, c := Inorder(p.sib), Inorder(Near(d, t)), Inorder(Near(!d, t));
    MkFacts(d, p.sib, p.x, true, Near(d, t));
    MkFacts(d, Near(d, t), t.x, t.red, Near(!d, t));
    assert t == Mk(d, Near(d, t), t.x, t.red, Near(!d, t));
    if d {
      Regroup(Before(p.up), a, [p.x], b, [t.x], c, After(p.up));
    } else {
      Regroup(Before(p.up), c, [t.x], b, [p.x], a, After(p.up));
    }
  }

  lemma Regroup(y: seq<int>, a: seq<int>, b: seq<int>, c: seq<int>, d: seq<int>, e: seq<int>, z: seq<int>)
    ensures (y + a + b) + (c + d + e) + z == y + (a + b + c) + (d + e + z)
  {
  }

  lemma RegroupRight(a: seq<int>, b: seq<int>, c: seq<int>, d: seq<int>, z: seq<int>)
    ensures a + (b + c + d) + z == a + b + (c + d + z)
  {
  }

  lemma RegroupLeft(y: seq<int>, a: seq<int>, b: seq<int>, c: seq<int>, d: seq<int>)
    ensures y + (a + b + c) + d == (y + a + b) + c + d
  {
  }

  /** A node on the outer side, with a black uncle: the parent takes over from
      the grandparent, and the conflict is gone. */
  lemma InsertOuter(p: Path, t: Tree)
    requires Inserting(p, t) && PathIsRed(p) && p.left == p.up.left && !IsRed(p.up.sib)
    ensures var g := p.up;
            var p' := In(g.up, p.left, p.x, false, Mk(p.left, p.sib, g.x, true, g.sib));
            Inserting(p', t) && Nodes(p', t) == Nodes(p, t)
  {
    var g := p.up;
    MkFacts(p.left, p.sib, g.x, true, g.sib);
    var n := Mk(p.left, p.sib, g.x, true, g.sib);
    hide Mk;
    var p' := In(g.up, p.left, p.x, false, n);
    OuterNodes(p, n);
    assert PathBalanced(g, BlackHeight(t)) && PathNoRedRed(g);
    assert PathBalanced(g.up, BlackHeight(t) + 1) && PathNoRedRed(g.up);
    assert PathBalanced(p', BlackHeight(t)) && PathNoRedRed(p');
  }

  lemma OuterNodes(p: Path, n: Tree)
    requires p.In? && p.up.In? && p.left == p.up.left
    requires Inorder(n) == (if p.left then Inorder(p.sib) + [p.up.x] + Inorder(p.up.sib)
               else Inorder(p.up.sib) + [p.up.x] + Inorder(p.sib))
    ensures var p' := In(p.up.up, p.left, p.x, false, n); Before(p') == Before(p) && After(p') == After(p)
  {
    hide Inorder;
    var g := p.up;
    var i, u := Inorder(p.sib), Inorder(g.sib);
    if p.left {
      RegroupRight([p.x], i, [g.x], u, After(g.up));
    } else {
      RegroupLeft(Before(g.up), u, [g.x], i, [p.x]);
    }
  }

  /** Without a red parent the conflict is gone; at the root it goes with the paint. */
  lemma InsertDone(p: Path, t: Tree)
    requires Inserting(p, t) && !PathIsRed(p)
    ensures RedBlackAt(p, if p.Top? then Paint(t, false) else t)
  {
  }

  // ------------------------------------------------------ during a deletion

  /** The subtree t is one black node short, and only its root may be red
      together with a neighbour. */
  ghost predicate Deleting(p: Path, t: Tree) {
    && Balanced(t) && NoRedRed(Paint(t, false))
    && PathBalanced(p, BlackHeight(t) + 1) && PathNoRedRed(p)
  }

  /** A node with at most one child leaves: a red one without trace. */
  lemma RemoveNode(p: Path, d: bool, x: int, red: bool, v: Tree)
    requires RedBlackAt(p, Mk(d, Leaf, x, red, v))
    ensures red ==> RedBlackAt(p, v)
    ensures !red ==> Deleting(p, v)
    ensures p.Top? ==> RedBlack(Paint(v, false))
  {
    MkFacts(d, Leaf, x, red, v);
    PaintFacts(v, false);
    hide Mk, Inorder;
  }

  /** The sibling of a short subtree is a node, with two subtrees of its own. */
  lemma ShortSibling(p: Path, t: Tree)
    requires Deleting(p, t) && p.In?
    ensures p.sib.Node? && (p.sib.red ==> !p.red && p.sib.l.Node? && p.sib.r.Node?)
    ensures p.red ==> p.up.In?
  {
  }

  /** A red sibling is rotated above the parent. */
  lemma DeleteRedSibling(p: Path, t: Tree)
    requires Deleting(p, t) && p.In? && IsRed(p.sib)
    ensures var d, w := p.left, p.sib;
            Deleting(In(In(p.up, d, w.x, false, Near(!d, w)), d, p.x, true, Near(d, w)), t)
    ensures !IsRed(Near(p.left, p.sib))
  {
    var d, w := p.left, p.sib;
    assert PathBalanced(p.up, BlackHeight(t) + 2);
  }

  /** A black sibling with black children turns red: the parent is short now. */
  lemma DeleteRecolour(p: Path, t: Tree)
    requires Deleting(p, t) && p.In? && p.sib.Node? && !p.sib.red && !IsRed(p.sib.l) && !IsRed(p.sib.r) && !IsRed(t)
    ensures Deleting(p.up, Mk(p.left, t, p.x, p.red, Paint(p.sib, true)))
  {
    var w := Paint(p.sib, true);
    MkFacts(p.left, t, p.x, p.red, w);
    MkFacts(p.left, t, p.x, false, w);
    assert Paint(Mk(p.left, t, p.x, p.red, w), false) == Mk(p.left, t, p.x, false, w);
    PaintFacts(p.sib, true);
    assert NoRedRed(w);
    hide Mk, Inorder;
  }

  /** The near nephew is red and the far one black: it becomes the sibling. */
  lemma DeleteInner(p: Path, t: Tree)
    requires Deleting(p, t) && p.In? && p.sib.Node? && !p.sib.red && IsRed(Near(p.left, p.sib))
               && !IsRed(Near(!p.left, p.sib))
    ensures var d, w := p.left, p.sib;
            var n := Near(d, w);
            Deleting(p.(sib := Mk(d, Near(d, n), n.x, false, Mk(d, Near(!d, n), w.x, true, Near(!d, w)))), t)
  {
    var d, w := p.left, p.sib;
    var n := Near(d, w);
    MkFacts(d, Near(!d, n), w.x, true, Near(!d, w));
    MkFacts(d, Near(d, n), n.x, false, Mk(d, Near(!d, n), w.x, true, Near(!d, w)));
    assert Balanced(w) && NoRedRed(w) && Balanced(n) && NoRedRed(n);
  }

  /** The far nephew is red: the sibling takes the parent's place and colour. */
  lemma DeleteOuter(p: Path, t: Tree)
    requires Deleting(p, t) && p.In? && p.sib.Node? && !p.sib.red && IsRed(Near(!p.left, p.sib)) && !IsRed(t)
    ensures var d, w := p.left, p.sib;
            RedBlackAt(p.up, Mk(d, Mk(d, t, p.x, false, Near(d, w)), w.x, p.red, Paint(Near(!d, w), false)))
  {
    var d, w := p.left, p.sib;
    var c := Paint(Near(!d, w), false);
    var t1 := Mk(d, t, p.x, false, Near(d, w));
    MkFacts(d, t, p.x, false, Near(d, w));
    MkFacts(d, t1, w.x, p.red, c);
    PaintFacts(Near(!d, w), false);
    hide Mk, Inorder;
  }

  /** The loop ends at the root or at a red node, which is then painted black. */
  lemma DeleteDone(p: Path, t: Tree)
    requires Deleting(p, t) && (p.In? ==> IsRed(t))
    ensures RedBlackAt(p, Paint(t, false))
  {
    PaintFacts(t, false);
  }

  /** Back at the root after the last rotation. */
  lemma DeleteAtRoot(t: Tree)
    requires RedBlack(t)
    ensures Deleting(Top, t)
  {
  }

  // ------------------------------------------------- replacing a node by another

  /** The frame of node a on the way up becomes a frame of node b. */
  function Renamed(p: Path, a: int, b: int): (p': Path)
    ensures p'.Top? <==> p.Top?
  {
    if p.Top? then p else if p.x == a then p.(x := b) else p.(up := Renamed(p.up, a, b))
  }

  /** Going up from the smallest node right of a, one always comes from the left,
      until one comes to a from the right. */
  predicate Spine(p: Path, a: int) {
    p.In? && if p.x == a then !p.left else p.left && Spine(p.up, a)
  }

  lemma {:induction false} RenamedShape(p: Path, a: int, b: int, h: nat)
    ensures PathBalanced(Renamed(p, a, b), h) <==> PathBalanced(p, h)
    ensures PathNoRedRed(Renamed(p, a, b)) <==> PathNoRedRed(p)
    ensures PathIsRed(Renamed(p, a, b)) == PathIsRed(p)
    decreases p
  {
    if p.In? && p.x != a {
      RenamedShape(p.up, a, b, h + if p.red then 0 else 1);
    }
  }

  lemma {:induction false} RenamedNodes(p: Path, a: int, b: int) returns (before: seq<int>)
    requires Spine(p, a)
    ensures Before(p) == before + [a] && Before(Renamed(p, a, b)) == before + [b]
    ensures After(Renamed(p, a, b)) == After(p)
    decreases p
  {
    if p.x == a {
      before := Before(p.up) + Inorder(p.sib);
    } else {
      before := RenamedNodes(p.up, a, b);
    }
  }

  /** The sibling rotated above the parent, in any colours. */
  lemma SiblingTurnNodes(p: Path, t: Tree, r1: bool, r2: bool)
    requires p.In? && p.sib.Node?
    ensures var d, w := p.left, p.sib;
            Nodes(In(In(p.up, d, w.x, r1, Near(!d, w)), d, p.x, r2, Near(d, w)), t) == Nodes(p, t)
  {
    hide Inorder;
    var d, w := p.left, p.sib;
    var p' := In(In(p.up, d, w.x, r1, Near(!d, w)), d, p.x, r2, Near(d, w));
    var b, c := Inorder(Near(d, w)), Inorder(Near(!d, w));
    MkFacts(d, Near(d, w), w.x, w.red, Near(!d, w));
    assert w == Mk(d, Near(d, w), w.x, w.red, Near(!d, w));
    if d {
      RegroupRight([p.x], b, [w.x], c, After(p.up));
    } else {
      RegroupLeft(Before(p.up), c, [w.x], b, [p.x]);
    }
    assert Before(p') == Before(p) && After(p') == After(p);
  }

  lemma InnerTurnNodes(d: bool, w: Tree)
    requires w.Node? && Near(d, w).Node?
    ensures var n := Near(d, w);
            Inorder(Mk(d, Near(d, n), n.x, false, Mk(d, Near(!d, n), w.x, true, Near(!d, w)))) == Inorder(w)
  {
    var n := Near(d, w);
    var a, b, c := Inorder(Near(d, n)), Inorder(Near(!d, n)), Inorder(Near(!d, w));
    var w1 := Mk(d, Near(!d, n), w.x, true, Near(!d, w));
    if d {
      assert Inorder(w) == (a + [n.x] + b) + [w.x] + c;
      assert Inorder(w1) == b + [w.x] + c;
    } else {
      assert Inorder(w) == c + [w.x] + (b + [n.x] + a);
      assert Inorder(w1) == c + [w.x] + b;
    }
  }

  lemma OuterTurnNodes(p: Path, t: Tree)
    requires p.In? && p.sib.Node?
    ensures var d, w := p.left, p.sib;
            Nodes(p.up, Mk(d, Mk(d, t, p.x, false, Near(d, w)), w.x, p.red, Paint(Near(!d, w), false))) == Nodes(p, t)
  {
    hide Nodes;
    var d, w := p.left, p.sib;
    var w' := Mk(d, Near(d, w), w.x, p.red, Paint(Near(!d, w), false));
    var p1 := p.(sib := w');
    assert Nodes(p1, t) == Nodes(p, t) by { SameOrder(p, p1, t); }
    SiblingTurnNodes(p1, t, p.red, false);
    var p2 := In(In(p.up, d, w.x, p.red, Paint(Near(!d, w), false)), d, p.x, false, Near(d, w));
    StepUpNodes(p2, t);
    StepUpNodes(p2.up, Mk(d, t, p.x, false, Near(d, w)));
  }

  lemma SameOrder(p: Path, p': Path, t: Tree)
    requires p.In? && p'.In? && p'.up == p.up && p'.left == p.left && p'.x == p.x && Inorder(p'.sib) == Inorder(p.sib)
    ensures Nodes(p', t) == Nodes(p, t)
  {
  }

  // ------------------------------------------------------------------ height

  function Height(t: Tree): nat {
    if t.Leaf? then 0 else 1 + if Height(t.l) < Height(t.r) then Height(t.r) else Height(t.l)
  }

  lemma {:induction false} HeightFacts(t: Tree)
    requires Balanced(t) && NoRedRed(t)
    ensures Height(t) <= 2 * BlackHeight(t) + if IsRed(t) then 1 else 0
    ensures Pow2(BlackHeight(t)) <= |Inorder(t)| + 1
  {
    if t.Node? {
      HeightFacts(t.l);
      HeightFacts(t.r);
    }
  }

  /** At most 2 * log2(n + 1) levels for n nodes. */
  lemma HeightBound(t: Tree)
    requires RedBlack(t)
    ensures Pow2((Height(t) + 1) / 2) <= |Inorder(t)| + 1
  {
    HeightFacts(t);
    PowGrows((Height(t) + 1) / 2, BlackHeight(t));
  }
}
