/**
 The red-black tree of src/core/ngx_rbtree.c, updated in place.
 */
module RbTree {
  import opened Common
  import opened RbShape
  import opened RbMemory

  // ------------------------------------------------------------------ order

  /** What an insertion routine needs of its comparison, on the nodes at hand:
      it goes left for smaller nodes only, and "not smaller" is transitive. */
  ghost predicate Ordered<K>(less: (K, K) -> bool, ks: seq<K>, l: seq<int>) {
    && (forall i :: 0 <= i < |l| ==> 0 <= l[i] < |ks|)
    && (forall a, b :: a in l && b in l && less(ks[a], ks[b]) ==> !less(ks[b], ks[a]))
    && (forall a, b, c :: a in l && b in l && c in l && !less(ks[a], ks[b]) && !less(ks[b], ks[c]) ==>
       !less(ks[a], ks[c]))
  }

  ghost predicate Sorted<K>(less: (K, K) -> bool, ks: seq<K>, l: seq<int>) {
    && (forall i :: 0 <= i < |l| ==> 0 <= l[i] < |ks|)
    && (forall i, j :: 0 <= i < j < |l| ==> !less(ks[l[j]], ks[l[i]]))
  }

  /** Where a node goes: after everything it is not smaller than. */
  ghost predicate Between<K>(less: (K, K) -> bool, ks: seq<K>, node: int, before: seq<int>, after: seq<int>) {
    && 0 <= node < |ks|
    && (forall i :: 0 <= i < |before| ==> 0 <= before[i] < |ks| && !less(ks[node], ks[before[i]]))
    && (forall i :: 0 <= i < |after| ==> 0 <= after[i] < |ks| && less(ks[node], ks[after[i]]))
  }

  lemma AllAfter<K>(less: (K, K) -> bool, ks: seq<K>, node: int, l: seq<int>, n: nat, i: nat)
    requires Sorted(less, ks, l) && Ordered(less, ks, l + [node]) && n < i < |l|
    requires 0 <= node < |ks| && 0 <= l[n] < |ks| && less(ks[node], ks[l[n]])
    ensures 0 <= l[i] < |ks| && less(ks[node], ks[l[i]])
  {
    var all := l + [node];
    assert all[n] == l[n] && all[i] == l[i] && all[|l|] == node;
  }

  lemma AllBefore<K>(less: (K, K) -> bool, ks: seq<K>, node: int, l: seq<int>, n: nat, i: nat)
    requires Sorted(less, ks, l) && Ordered(less, ks, l + [node]) && i < n < |l|
    requires 0 <= node < |ks| && 0 <= l[n] < |ks| && !less(ks[node], ks[l[n]])
    ensures 0 <= l[i] < |ks| && !less(ks[node], ks[l[i]])
  {
    var all := l + [node];
    assert all[n] == l[n] && all[i] == l[i] && all[|l|] == node;
  }

  /** One comparison of the descent. */
  lemma Descend<K>(less: (K, K) -> bool, ks: seq<K>, node: int, p: Path, t: Tree, left: bool)
    requires Sorted(less, ks, Nodes(p, t)) && Ordered(less, ks, Nodes(p, t) + [node]) && t.Node?
    requires Between(less, ks, node, Before(p), After(p)) && 0 <= node < |ks|
    requires 0 <= t.x < |ks| && left == less(ks[node], ks[t.x])
    ensures var p' := In(p, left, t.x, t.red, Near(!left, t)); Between(less, ks, node, Before(p'), After(p'))
  {
    hide Sorted, Ordered, Between;
    var l, n := Nodes(p, t), |Before(p)| + |Inorder(t.l)|;
    assert l == (Before(p) + Inorder(t.l)) + [t.x] + (Inorder(t.r) + After(p));
    assert l[n] == t.x;
    if left {
      forall i | 0 <= i < |Inorder(t.r)| ensures var z := Inorder(t.r)[i]; 0 <= z < |ks| && less(ks[node], ks[z]) {
        assert l[n + 1 + i] == Inorder(t.r)[i];
        AllAfter(less, ks, node, l, n, n + 1 + i);
      }
      WidenAfter(less, ks, node, Before(p), After(p), t.x, Inorder(t.r));
    } else {
      forall i | 0 <= i < |Inorder(t.l)| ensures var z := Inorder(t.l)[i]; 0 <= z < |ks| && !less(ks[node], ks[z]) {
        assert l[|Before(p)| + i] == Inorder(t.l)[i];
        AllBefore(less, ks, node, l, n, |Before(p)| + i);
      }
      WidenBefore(less, ks, node, Before(p), After(p), t.x, Inorder(t.l));
    }
  }

  lemma WidenAfter<K>(less: (K, K) -> bool, ks: seq<K>, node: int, before: seq<int>, after: seq<int>, x: int,
                      mid: seq<int>)
    requires Between(less, ks, node, before, after) && 0 <= x < |ks| && less(ks[node], ks[x])
    requires forall i :: 0 <= i < |mid| ==> 0 <= mid[i] < |ks| && less(ks[node], ks[mid[i]])
    ensures Between(less, ks, node, before, [x] + mid + after)
  {
  }

  lemma WidenBefore<K>(less: (K, K) -> bool, ks: seq<K>, node: int, before: seq<int>, after: seq<int>, x: int,
                       mid: seq<int>)
    requires Between(less, ks, node, before, after) && 0 <= x < |ks| && !less(ks[node], ks[x])
    requires forall i :: 0 <= i < |mid| ==> 0 <= mid[i] < |ks| && !less(ks[node], ks[mid[i]])
    ensures Between(less, ks, node, before + mid + [x], after)
  {
  }

  /** A node put where it belongs leaves the order intact. */
  lemma InsertSorted<K>(less: (K, K) -> bool, ks: seq<K>, node: int, before: seq<int>, after: seq<int>)
    requires Sorted(less, ks, before + after) && Ordered(less, ks, before + after + [node])
    requires Between(less, ks, node, before, after)
    ensures Sorted(less, ks, before + [node] + after)
  {
    var l' := before + [node] + after;
    forall i, j | 0 <= i < j < |l'| ensures !less(ks[l'[j]], ks[l'[i]]) {
      InsertedPair(less, ks, node, before, after, i, j);
    }
  }

  lemma InsertedPair<K>(less: (K, K) -> bool, ks: seq<K>, node: int, before: seq<int>, after: seq<int>, i: nat, j: nat)
    requires Sorted(less, ks, before + after) && Ordered(less, ks, before + after + [node])
    requires Between(less, ks, node, before, after) && i < j < |before| + 1 + |after|
    ensures var l' := before + [node] + after; 0 <= l'[i] < |ks| && 0 <= l'[j] < |ks| && !less(ks[l'[j]], ks[l'[i]])
  {
    var l, l', n := before + after, before + [node] + after, |before|;
    var all := l + [node];
    assert all[|l|] == node;
    if i != n && j != n {
      assert l'[i] == l[if i < n then i else i - 1] && l'[j] == l[if j < n then j else j - 1];
    } else if i == n {
      assert l'[j] == after[j - n - 1];
      assert all[j - 1] == l'[j];
    } else {
      assert l'[i] == before[i];
    }
  }

  /** `K` is what a node is compared by; `less` is the comparison built into the
      insertion routine that the tree was initialised with. */
  class RbTree<K> {
    const s: int                  // the sentinel
    const mem: array<Record>
    var key: seq<K>               // set by the caller before it inserts the node
    const less: (K, K) -> bool
    const zero: K                 // what a deleted node's key is reset to
    var root: int
    ghost var t: Tree

    /** ngx_rbtree_init: the sentinel is black and the tree is empty. */
    constructor (records: array<Record>, sentinel: int, keys: seq<K>, comparison: (K, K) -> bool, nothing: K)
      requires 0 <= sentinel < records.Length == |keys|
      modifies records
      ensures Valid() && Order() == [] && mem == records && s == sentinel && key == keys && less == comparison
                && zero == nothing
      ensures forall x :: 0 <= x < mem.Length && x != s ==> mem[x] == old(records[x])
    {
      s, mem, key, less, zero := sentinel, records, keys, comparison, nothing;
      root := sentinel;
      t := Leaf;
      new;
      mem[s] := mem[s].(red := false);
    }

    ghost predicate Linked(p: Path, u: Tree)
      reads this, mem
    {
      Zip(mem[..], s, root, p, u)
    }

    ghost predicate Valid()
      reads this, mem
    {
      mem.Length == |key| && Linked(Top, t) && RedBlack(t)
    }

    /** The nodes of the tree, smallest first. */
    ghost function Order(): seq<int>
      reads this
    {
      Inorder(t)
    }

    method Paint(x: int, red: bool)
      requires 0 <= x < mem.Length
      modifies mem
      ensures mem[..] == Painted(old(mem[..]), x, red)
      ensures forall z :: 0 <= z < mem.Length ==> mem[z].parent == old(mem[z].parent)
    {
      mem[x] := mem[x].(red := red);
    }

    /** ngx_rbtree_left_rotate for d, ngx_rbtree_right_rotate otherwise. */
    method Rotate(node: int, d: bool)
      requires CanRotate(mem[..], s, root, node, d)
      modifies mem, this`root
      ensures mem[..] == Rotated(old(mem[..]), s, old(root), node, d)
      ensures root == RotatedRoot(old(mem[..]), old(root), node, d)
    {
      var temp := Child(mem[node], !d);
      var inner := Child(mem[temp], d);
      mem[node] := SetChild(mem[node], !d, inner);
      if inner != s {
        mem[inner] := mem[inner].(parent := node);
      }
      mem[temp] := mem[temp].(parent := mem[node].parent);
      if node == root {
        root := temp;
      } else {
        var q := mem[node].parent;
        if node == Child(mem[q], d) {
          mem[q] := SetChild(mem[q], d, temp);
        } else {
          mem[q] := SetChild(mem[q], !d, temp);
        }
      }
      mem[temp] := SetChild(mem[temp], d, node);
      mem[node] := mem[node].(parent := temp);
    }

    /** The descent of the insertion routines: the place for `node`. */
    method Descent(node: int) returns (temp: int, left: bool, ghost p: Path)
      requires Valid() && root != s && 0 <= node < |key|
      requires Sorted(less, key, Order()) && Ordered(less, key, Order() + [node])
      ensures p.In? && temp == p.x && left == p.left && Linked(p, Leaf) && Plug(p, Leaf) == t
      ensures Between(less, key, node, Before(p), After(p))
    {
      hide Zip, Ordered, Sorted, RedBlack, Between;
      temp := root;
      ghost var m, u := mem[..], t;
      p := Top;
      StartDescent(m, s, root, t, less, key, node);
      while true
        invariant Linked(p, u) && u.Node? && u.x == temp && Plug(p, u) == t
        invariant Between(less, key, node, Before(p), After(p))
        decreases u
      {
        ZipReads(m, s, root, p, u);
        left := less(key[node], key[temp]);
        PlugFacts(p, u);
        Descend(less, key, node, p, u, left);
        p := In(p, left, u.x, u.red, Near(!left, u));
        ZipUp(m, s, root, p, Near(left, u));
        u := Near(left, u);
        if Child(mem[temp], left) == s {
          ChildIsLeaf(m, s, root, p, u);
          return;
        }
        temp := Child(mem[temp], left);
      }
    }

    /** ngx_rbtree_insert */
    method Insert(node: int) returns (ghost k: nat)
      requires Valid() && 0 <= node < mem.Length && node != s && node !in Order()
      requires Sorted(less, key, Order()) && Ordered(less, key, Order() + [node])
      modifies mem, this`root, this`t
      ensures Valid()
      ensures k <= |old(Order())| && Order() == old(Order())[..k] + [node] + old(Order())[k..]
      ensures Sorted(less, key, Order())
      ensures Between(less, key, node, old(Order())[..k], old(Order())[k..])
    {
      hide Zip, Ordered, Sorted, RedBlack, Between, Attached, Inorder;
      if root == s {
        EmptyTree(mem[..], s, root, t);
        mem[node] := Record(s, s, NULL, false);
        root := node;
        SingleTree(mem[..], s, node, less, key);
        t := Node(Leaf, node, false, Leaf);
        k := 0;
        return;
      }
      ghost var t0, m0 := t, mem[..];
      var temp, left, p := Descent(node);
      k := |Before(p)|;
      PlugFacts(p, Leaf);
      FreshNode(p, node, t0);
      ZipAttach(m0, s, root, p, node);
      AttachFacts(p, node, t0);
      InsertOrder(less, key, node, p, t0);
      mem[temp] := SetChild(mem[temp], left, node);
      mem[node] := Record(s, s, temp, true);
      assert mem[..] == Attached(m0, s, temp, left, node) by { AttachedIs(m0, s, temp, left, node); }
      Rebalance(node, p, Node(Leaf, node, true, Leaf));
    }

    /** The rebalancing loop of ngx_rbtree_insert; the focus is at `start`. */
    method Rebalance(start: int, ghost p0: Path, ghost u0: Tree)
      requires mem.Length == |key| && Linked(p0, u0) && Inserting(p0, u0) && u0.Node? && u0.x == start
      modifies mem, this`root, this`t
      ensures Valid() && Order() == Nodes(p0, u0)
    {
      hide Zip, Inserting, RedBlack;
      var node := start;
      ghost var p, u := p0, u0;
      while true
        invariant Linked(p, u) && Inserting(p, u) && u.Node? && u.x == node && Nodes(p, u) == Nodes(p0, u0)
        decreases Depth(p)
      {
        ZipReads(mem[..], s, root, p, u);
        if node == root || !mem[mem[node].parent].red {
          break;
        }
        node, p, u := RebalanceStep(node, p, u);
      }
      Finish(node, p, u);
    }

    /** One turn of the loop: recolour, or rotate once or twice. */
    method RebalanceStep(start: int, ghost p: Path, ghost u: Tree) returns (node: int, ghost p': Path, ghost u': Tree)
      requires Linked(p, u) && Inserting(p, u) && PathIsRed(p) && u.Node? && u.x == start
      modifies mem, this`root
      ensures Linked(p', u') && Inserting(p', u') && u'.Node? && u'.x == node
      ensures Nodes(p', u') == Nodes(p, u) && Depth(p') < Depth(p)
    {
      hide Zip, Inserting, Painted, Rotated, RotatedRoot;
      node := start;
      RedParent(p, u);
      ZipReads(mem[..], s, root, p, u);
      GrandReads(mem[..], s, root, p, u);
      var parent := mem[node].parent;
      var grand := mem[parent].parent;
      var dl := parent == mem[grand].left;
      var temp := Child(mem[grand], !dl);
      if mem[temp].red {
        ZipPaintParent(mem[..], s, root, p, u, false);
        Paint(parent, false);
        ghost var p1 := p.(red := false);
        ZipPaintUncle(mem[..], s, root, p1, u, false);
        Paint(temp, false);
        ghost var p2 := p1.(up := p1.up.(sib := RbShape.Paint(p1.up.sib, false)));
        ZipPaintGrand(mem[..], s, root, p2, u, true);
        Paint(grand, true);
        ghost var p3 := p2.(up := p2.up.(red := true));
        ZipUp(mem[..], s, root, p3, u);
        ZipUp(mem[..], s, root, p3.up, Mk(p3.left, u, p3.x, p3.red, p3.sib));
        InsertRecolour(p, u);
        node := grand;
        p', u' := p.up.up, Mk(p3.up.left, Mk(p3.left, u, p3.x, p3.red, p3.sib), p3.up.x, p3.up.red, p3.up.sib);
      } else {
        ghost var q, v := p, u;
        if node == Child(mem[parent], !dl) {
          node := parent;
          q, v := RotateInner(node, dl, p, u);
        }
        p', u' := RotateOuter(node, dl, q, v);
      }
    }

    /** The node was on the inner side: it changes places with its parent. */
    method RotateInner(parent: int, dl: bool, ghost p: Path, ghost u: Tree) returns (ghost p': Path, ghost u': Tree)
      requires Linked(p, u) && Inserting(p, u) && PathIsRed(p) && p.up.In? && dl == p.up.left != p.left
                 && parent == p.x && u.Node?
      modifies mem, this`root
      ensures Linked(p', u') && Inserting(p', u') && u'.Node? && u'.x == parent
      ensures Nodes(p', u') == Nodes(p, u) && PathIsRed(p') && p'.up == p.up && p'.left == dl
    {
      hide Zip, Inserting, Painted, Rotated, RotatedRoot;
      ghost var t1 := Mk(p.left, u, p.x, p.red, p.sib);
      ZipUp(mem[..], s, root, p, u);
      assert Near(!dl, t1) == u && Near(dl, t1) == p.sib;
      ZipRotate(mem[..], s, root, p.up, dl, t1);
      Rotate(parent, dl);
      p', u' := p.(left := dl, x := u.x, sib := Near(!dl, u)), Mk(dl, p.sib, p.x, true, Near(dl, u));
      RedNode(p, u);
      ZipUp(mem[..], s, root, p', u');
      InsertInner(p, u);
    }

    /** The node is on the outer side: its parent takes over from the grandparent. */
    method RotateOuter(node: int, dl: bool, ghost p: Path, ghost u: Tree) returns (ghost p': Path, ghost u': Tree)
      requires Linked(p, u) && Inserting(p, u) && PathIsRed(p) && p.up.In? && dl == p.up.left == p.left
                 && !IsRed(p.up.sib)
      requires u.Node? && u.x == node
      modifies mem, this`root
      ensures Linked(p', u') && Inserting(p', u') && u' == u
      ensures Nodes(p', u') == Nodes(p, u) && Depth(p') < Depth(p)
    {
      hide Zip, Inserting, Painted, Rotated, RotatedRoot;
      ZipReads(mem[..], s, root, p, u);
      GrandReads(mem[..], s, root, p, u);
      ZipPaintParent(mem[..], s, root, p, u, false);
      Paint(mem[node].parent, false);
      ghost var p1 := p.(red := false);
      ZipReads(mem[..], s, root, p1, u);
      GrandReads(mem[..], s, root, p1, u);
      ZipPaintGrand(mem[..], s, root, p1, u, true);
      Paint(mem[mem[node].parent].parent, true);
      ghost var p2 := p1.(up := p1.up.(red := true));
      ZipReads(mem[..], s, root, p2, u);
      GrandReads(mem[..], s, root, p2, u);
      ZipUp(mem[..], s, root, p2, u);
      ghost var t1 := Mk(p2.left, u, p2.x, p2.red, p2.sib);
      ZipUp(mem[..], s, root, p2.up, t1);
      ghost var t2 := Mk(dl, t1, p2.up.x, p2.up.red, p2.up.sib);
      ZipRotate(mem[..], s, root, p.up.up, !dl, t2);
      Rotate(mem[mem[node].parent].parent, !dl);
      p', u' := In(p.up.up, p.left, p.x, false, Mk(p.left, p.sib, p.up.x, true, p.up.sib)), u;
      ZipUp(mem[..], s, root, p', u');
      InsertOuter(p, u);
    }

    /** The root is painted black. */
    method Finish(node: int, ghost p: Path, ghost u: Tree)
      requires mem.Length == |key| && Linked(p, u) && Inserting(p, u) && !PathIsRed(p) && u.Node? && u.x == node
      modifies mem, this`t
      ensures Valid() && Order() == Nodes(p, u)
    {
      hide Zip, Inserting, RedBlack, RedBlackAt, Inorder;
      ghost var m := mem[..];
      ZipReads(m, s, root, p, u);
      InsertDone(p, u);
      PlugFacts(p, u);
      if p.Top? {
        PlugFacts(p, RbShape.Paint(u, false));
        PaintFacts(u, false);
        ZipPaint(m, s, root, p, u, false);
        t := RbShape.Paint(u, false);
      } else {
        ZipPlug(m, s, root, p, u);
        BlackRoot(m, s, root, Plug(p, u));
        t := Plug(p, u);
      }
      RootBounds(m, s, root, p, u);
      Paint(root, false);
      assert p.In? ==> mem[..] == m;
    }

    // ---------------------------------------------------------------- deletion

    /** ngx_rbtree_min: down the left links, which never passes `a`. */
    method Min(start: int, ghost p0: Path, ghost u0: Tree, ghost a: int)
      returns (node: int, ghost p: Path, ghost u: Tree)
      requires Linked(p0, u0) && u0.Node? && u0.x == start
      ensures Linked(p, u) && u.Node? && u.x == node && u.l.Leaf?
      ensures Plug(p, u) == Plug(p0, u0) && Before(p) == Before(p0) && (Spine(p0, a) ==> Spine(p, a))
    {
      hide Zip;
      node := start;
      p, u := p0, u0;
      while true
        invariant Linked(p, u) && u.Node? && u.x == node
        invariant Plug(p, u) == Plug(p0, u0) && Before(p) == Before(p0) && (Spine(p0, a) ==> Spine(p, a))
        decreases u
      {
        ZipReads(mem[..], s, root, p, u);
        ghost var q := In(p, true, u.x, u.red, u.r);
        ZipUp(mem[..], s, root, q, u.l);
        if mem[node].left == s {
          ChildIsLeaf(mem[..], s, root, q, u.l);
          return;
        }
        NotOnSpine(mem[..], s, root, p, u, a);
        node := mem[node].left;
        p, u := q, u.l;
      }
    }

    /** The node with the smallest key, as the timers and other users of
        ngx_rbtree_min get it. */
    method First() returns (node: int)
      requires Valid() && root != s
      ensures |Order()| > 0 && node == Order()[0]
    {
      hide Zip;
      RootIsNode(mem[..], s, root, t);
      ghost var p, u;
      node, p, u := Min(root, Top, t, 0);
      PlugFacts(p, u);
      assert Inorder(u) == [node] + Inorder(u.r);
      assert Order() == [] + Inorder(u) + After(p);
    }

    ghost predicate Tied(p: Path, u: Tree)
      reads this, mem
    {
      p.In? && u.Leaf? ==> 0 <= s < mem.Length && mem[s].parent == p.x
    }

    /** A red sibling is rotated above the parent. */
    method RotateSibling(temp: int, w: int, d: bool, ghost p: Path, ghost u: Tree) returns (ghost p': Path)
      requires Linked(p, u) && Deleting(p, u) && Tied(p, u) && p.In? && IsRed(p.sib)
      requires temp == Ptr(u, s) && w == p.sib.x && d == p.left
      modifies mem, this`root
      ensures Linked(p', u) && Deleting(p', u) && Tied(p', u) && Nodes(p', u) == Nodes(p, u)
      ensures p'.In? && p'.left == d && p'.red && !IsRed(p'.sib)
    {
      hide Zip, Deleting, Painted, Rotated, RotatedRoot, Nodes;
      DeleteReads(mem[..], s, root, p, u);
      ZipPaintSibling(mem[..], s, root, p, u, false);
      Paint(w, false);
      ghost var p1 := p.(sib := RbShape.Paint(p.sib, false));
      DeleteReads(mem[..], s, root, p1, u);
      ZipPaintParent(mem[..], s, root, p1, u, true);
      Paint(mem[temp].parent, true);
      ghost var p2 := p1.(red := true);
      DeleteReads(mem[..], s, root, p2, u);
      ZipUp(mem[..], s, root, p2, u);
      ghost var t1 := Mk(d, u, p.x, true, p2.sib);
      ZipRotate(mem[..], s, root, p.up, d, t1);
      Rotate(mem[temp].parent, d);
      p' := In(In(p.up, d, w, false, Near(!d, p.sib)), d, p.x, true, Near(d, p.sib));
      ZipUp(mem[..], s, root, p', u);
      ZipUp(mem[..], s, root, p'.up, Mk(d, u, p.x, true, Near(d, p.sib)));
      SiblingTurnNodes(p, u, false, true);
      DeleteRedSibling(p, u);
    }

    /** A red near nephew becomes the sibling. */
    method RotateNephew(w: int, d: bool, ghost p: Path, ghost u: Tree) returns (ghost p': Path)
      requires Linked(p, u) && Deleting(p, u) && Tied(p, u) && p.In? && w == p.sib.x && d == p.left
      requires p.sib.Node? && !p.sib.red && IsRed(Near(d, p.sib)) && !IsRed(Near(!d, p.sib))
      modifies mem, this`root
      ensures Linked(p', u) && Deleting(p', u) && Tied(p', u) && Nodes(p', u) == Nodes(p, u)
      ensures p'.In? && p'.up == p.up && p'.left == d && p'.sib.Node? && !p'.sib.red && IsRed(Near(!d, p'.sib))
    {
      hide Zip, Deleting, Painted, Rotated, RotatedRoot, Nodes;
      DeleteReads(mem[..], s, root, p, u);
      ghost var n := Near(d, p.sib);
      ZipPaintNephew(mem[..], s, root, p, u, d, false);
      Paint(Child(mem[w], d), false);
      ghost var p1 := p.(sib := WithNear(d, p.sib, RbShape.Paint(n, false)));
      DeleteReads(mem[..], s, root, p1, u);
      ZipPaintSibling(mem[..], s, root, p1, u, true);
      Paint(w, true);
      ghost var p2 := p1.(sib := RbShape.Paint(p1.sib, true));
      ZipAcross(mem[..], s, root, p2, u);
      ZipRotate(mem[..], s, root, Across(p2, u), !d, p2.sib);
      Rotate(w, !d);
      p' := p.(sib := Mk(d, Near(d, n), n.x, false, Mk(d, Near(!d, n), w, true, Near(!d, p.sib))));
      ZipAcross(mem[..], s, root, p', u);
      InnerTurnNodes(d, p.sib);
      SameOrder(p, p', u);
      DeleteInner(p, u);
    }

    /** A red far nephew: the sibling takes over from the parent, which ends it. */
    method RotateFar(temp: int, w: int, d: bool, ghost p: Path, ghost u: Tree) returns (ghost u': Tree)
      requires Linked(p, u) && Deleting(p, u) && Tied(p, u) && p.In? && w == p.sib.x && d == p.left && temp == Ptr(u, s)
      requires p.sib.Node? && !p.sib.red && IsRed(Near(!d, p.sib)) && !IsRed(u)
      modifies mem, this`root
      ensures Linked(Top, u') && RedBlack(u') && Inorder(u') == Nodes(p, u)
    {
      hide Zip, Deleting, Painted, Rotated, RotatedRoot, Nodes;
      ghost var c := Near(!d, p.sib);
      DeleteReads(mem[..], s, root, p, u);
      ZipPaintSibling(mem[..], s, root, p, u, p.red);
      Paint(w, mem[mem[temp].parent].red);
      ghost var p1 := p.(sib := RbShape.Paint(p.sib, p.red));
      DeleteReads(mem[..], s, root, p1, u);
      ZipPaintParent(mem[..], s, root, p1, u, false);
      Paint(mem[temp].parent, false);
      ghost var p2 := p1.(red := false);
      DeleteReads(mem[..], s, root, p2, u);
      ZipPaintNephew(mem[..], s, root, p2, u, !d, false);
      Paint(Child(mem[w], !d), false);
      ghost var p3 := p2.(sib := WithNear(!d, p2.sib, RbShape.Paint(c, false)));
      DeleteReads(mem[..], s, root, p3, u);
      ZipUp(mem[..], s, root, p3, u);
      ghost var t1 := Mk(d, u, p.x, false, p3.sib);
      ZipRotate(mem[..], s, root, p.up, d, t1);
      Rotate(mem[temp].parent, d);
      ghost var t2 := Mk(d, Mk(d, u, p.x, false, Near(d, p.sib)), w, p.red, RbShape.Paint(c, false));
      u' := Plug(p.up, t2);
      ZipPlug(mem[..], s, root, p.up, t2);
      OuterTurnNodes(p, u);
      DeleteOuter(p, u);
      PlugFacts(p.up, t2);
    }

    /** One turn of the loop that repairs a deletion. */
    method RepairStep(start: int, ghost p0: Path, ghost u: Tree) returns (temp: int, ghost p': Path, ghost u': Tree)
      requires Linked(p0, u) && Deleting(p0, u) && Tied(p0, u) && p0.In? && !IsRed(u) && start == Ptr(u, s)
      modifies mem, this`root
      ensures Linked(p', u') && Deleting(p', u') && Tied(p', u') && temp == Ptr(u', s) && Nodes(p', u') == Nodes(p0, u)
      ensures Measure(p', u') < Measure(p0, u)
    {
      hide Zip, Deleting, Painted, Nodes, RedBlack;
      temp := start;
      ghost var p := p0;
      ShortSibling(p, u);
      DeleteReads(mem[..], s, root, p, u);
      var d := temp == mem[mem[temp].parent].left;
      var w := Child(mem[mem[temp].parent], !d);
      if mem[w].red {
        p := RotateSibling(temp, w, d, p, u);
        ShortSibling(p, u);
        DeleteReads(mem[..], s, root, p, u);
        w := Child(mem[mem[temp].parent], !d);
      }
      if !mem[mem[w].left].red && !mem[mem[w].right].red {
        ZipPaintSibling(mem[..], s, root, p, u, true);
        Paint(w, true);
        ghost var p1 := p.(sib := RbShape.Paint(p.sib, true));
        DeleteReads(mem[..], s, root, p1, u);
        ZipUp(mem[..], s, root, p1, u);
        DeleteRecolour(p, u);
        RecolourNodes(p, u);
        temp := mem[temp].parent;
        p', u' := p.up, Mk(p.left, u, p.x, p.red, p1.sib);
      } else {
        if !mem[Child(mem[w], !d)].red {
          p := RotateNephew(w, d, p, u);
          DeleteReads(mem[..], s, root, p, u);
          w := Child(mem[mem[temp].parent], !d);
        }
        u' := RotateFar(temp, w, d, p, u);
        p' := Top;
        temp := root;
        DeleteAtRoot(u');
        ZipReads(mem[..], s, root, Top, u');
        TopNodes(u');
      }
    }

    /** The repair loop of ngx_rbtree_delete. */
    method Repair(start: int, ghost p0: Path, ghost u0: Tree)
      requires mem.Length == |key| && Linked(p0, u0) && Deleting(p0, u0) && Tied(p0, u0) && start == Ptr(u0, s)
      modifies mem, this`root, this`t
      ensures Valid() && Order() == Nodes(p0, u0)
    {
      hide Zip, Deleting, RedBlack, RedBlackAt, Inorder, Nodes;
      var temp := start;
      ghost var p, u := p0, u0;
      while true
        invariant Linked(p, u) && Deleting(p, u) && Tied(p, u) && temp == Ptr(u, s) && Nodes(p, u) == Nodes(p0, u0)
        decreases Measure(p, u)
      {
        ZipReads(mem[..], s, root, p, u);
        AtRoot(mem[..], s, root, p, u);
        if temp == root || mem[temp].red {
          break;
        }
        temp, p, u := RepairStep(temp, p, u);
      }
      DeleteDone(p, u);
      ghost var m, u1 := mem[..], RbShape.Paint(u, false);
      PlugFacts(p, u1);
      PaintedNodes(p, u);
      if u.Node? {
        ZipPaint(m, s, root, p, u, false);
      }
      Paint(temp, false);
      assert u.Leaf? ==> mem[..] == m;
      ZipPlug(mem[..], s, root, p, u1);
      t := Plug(p, u1);
    }

    /** The node that leaves its place: the deleted node itself, or the smallest
        one right of it. */
    method FindSubst(node: int, ghost p: Path, ghost u: Tree)
      returns (subst: int, temp: int, ghost q: Path, ghost w: Tree, ghost d: bool)
      requires Linked(p, u) && u.Node? && u.x == node
      ensures Linked(q, w) && w.Node? && w.x == subst && Near(d, w).Leaf? && temp == Ptr(Near(!d, w), s)
      ensures Plug(q, w) == Plug(p, u)
      ensures subst == node ==> q == p && w == u
      ensures subst != node ==> Spine(q, node) && d
    {
      hide Zip;
      ghost var ql, qr := In(p, true, node, u.red, u.r), In(p, false, node, u.red, u.l);
      ZipReads(mem[..], s, root, p, u);
      ZipUp(mem[..], s, root, ql, u.l);
      ZipUp(mem[..], s, root, qr, u.r);
      LeafOrNode(mem[..], s, root, ql, u.l);
      LeafOrNode(mem[..], s, root, qr, u.r);
      if mem[node].left == s {
        temp := mem[node].right;
        subst := node;
        q, w, d := p, u, true;
      } else if mem[node].right == s {
        temp := mem[node].left;
        subst := node;
        q, w, d := p, u, false;
      } else {
        subst, q, w := Min(mem[node].right, qr, u.r, node);
        ZipReads(mem[..], s, root, q, w);
        temp := mem[subst].right;
        d := true;
        NotOnSpine(mem[..], s, root, q, w, node);
      }
    }

    /** The parent of the substitute and the substitute's child are linked. */
    method Unhook(node: int, subst: int, temp: int)
      requires 0 <= subst < mem.Length && 0 <= temp < mem.Length
      requires 0 <= mem[subst].parent < mem.Length && mem[subst].parent != subst && temp != subst
      modifies mem
      ensures var q := old(mem[subst].parent);
              mem[..] == Unhooked(old(mem[..]), q, subst == old(mem[q].left), temp, node, subst)
    {
      var q := mem[subst].parent;
      if subst == mem[q].left {
        mem[q] := mem[q].(left := temp);
      } else {
        mem[q] := mem[q].(right := temp);
      }
      if subst == node {
        mem[temp] := mem[temp].(parent := mem[subst].parent);
      } else {
        if mem[subst].parent == node {
          mem[temp] := mem[temp].(parent := subst);
        } else {
          mem[temp] := mem[temp].(parent := mem[subst].parent);
        }
      }
    }

    /** The substitute takes the links, the colour and the place of the node. */
    method TakePlace(node: int, subst: int)
      requires CanReplace(mem[..], s, root, node, subst)
      modifies mem, this`root
      ensures mem[..] == Replaced(old(mem[..]), s, old(root), node, subst)
                && root == ReplacedRoot(old(root), node, subst)
    {
      hide Adopted;
      ghost var m := mem[..];
      mem[subst] := mem[subst].(left := mem[node].left);
      mem[subst] := mem[subst].(right := mem[node].right);
      mem[subst] := mem[subst].(parent := mem[node].parent);
      mem[subst] := mem[subst].(red := mem[node].red);
      assert mem[..] == m[subst := m[node]];
      if node == root {
        root := subst;
      } else {
        var q := mem[node].parent;
        if node == mem[q].left {
          mem[q] := mem[q].(left := subst);
        } else {
          mem[q] := mem[q].(right := subst);
        }
      }
      Adopt(subst);
    }

    method Adopt(subst: int)
      requires 0 <= subst < mem.Length && 0 <= mem[subst].left < mem.Length && 0 <= mem[subst].right < mem.Length
      requires mem[subst].left != subst && mem[subst].right != subst
      modifies mem
      ensures mem[..] == Adopted(old(mem[..]), s, subst)
    {
      if mem[subst].left != s {
        mem[mem[subst].left] := mem[mem[subst].left].(parent := subst);
      }
      if mem[subst].right != s {
        mem[mem[subst].right] := mem[mem[subst].right].(parent := subst);
      }
    }

    /** The node is out of the tree, and the focus is where the substitute was. */
    method Extract(node: int, subst: int, temp: int, ghost q: Path, ghost w: Tree, ghost d: bool)
      requires Linked(q, w) && w.Node? && w.x == subst && Near(d, w).Leaf? && temp == Ptr(Near(!d, w), s) && q.In?
      requires subst != node ==> Spine(q, node)
      modifies mem, this`root
      ensures Linked(Left(q, node, subst), Near(!d, w)) && Tied(Left(q, node, subst), Near(!d, w))
      ensures node !in PathBag(Left(q, node, subst)) + Bag(Near(!d, w))
    {
      hide Zip, CanReplace, Replaced, ReplacedRoot, Bag, PathBag, Detached;
      ghost var v, m := Near(!d, w), mem[..];
      ZipReads(m, s, root, q, w);
      ChildSide(m, s, root, q, w);
      ZipDetach(m, s, root, q, d, w);
      DetachedParent(m, q.x, q.left, temp);
      TempBounds(m, s, root, q, d, w);
      Unhook(node, subst, temp);
      if subst != node {
        SubstMoved(m, s, root, q, d, w, node);
        ReplacedGone(Detached(m, q.x, q.left, temp), s, root, q, v, node, subst);
        TakePlace(node, subst);
      }
    }

    /** The deleted node's links and key are reset. */
    method Forget(node: int, ghost p: Path, ghost u: Tree)
      requires Linked(p, u) && 0 <= node < mem.Length == |key| && node != s && node !in PathBag(p) + Bag(u)
      modifies mem, this`key
      ensures Linked(p, u) && mem[s] == old(mem[s]) && key == old(key)[node := zero]
    {
      hide Zip;
      ghost var m := mem[..];
      mem[node] := mem[node].(left := NULL);
      mem[node] := mem[node].(right := NULL);
      mem[node] := mem[node].(parent := NULL);
      key := key[node := zero];
      ZipBounds(m, s, root, p, u);
      ZipElsewhere(m, mem[..], s, root, p, u);
    }

    /** ngx_rbtree_delete */
    method Delete(node: int) returns (ghost k: nat)
      requires Valid() && node in Order()
      modifies mem, this`root, this`key, this`t
      ensures Valid() && k < |old(Order())| && old(Order())[k] == node
      ensures Order() == old(Order())[..k] + old(Order())[k + 1..]
      ensures |key| == |old(key)| && forall x :: 0 <= x < |key| && x != node ==> key[x] == old(key)[x]
      ensures old(Sorted(less, key, Order())) ==> Sorted(less, key, Order())
    {
      hide Zip, RedBlack, RedBlackAt, Deleting, Bag, PathBag, Sorted, Inorder, Nodes, Left;
      ghost var p, u := Locate(Top, t, node);
      ZipPlug(mem[..], s, root, p, u);
      var subst, temp, q, w, d := FindSubst(node, p, u);
      ghost var v, q' := Near(!d, w), Left(q, node, subst);
      PlugFacts(q, w);
      NodeBounds(mem[..], s, root, p, u);
      ZipReads(mem[..], s, root, q, w);
      k := DeletedOrder(q, w, d, node);
      assert w == Mk(d, Leaf, subst, w.red, v);
      RemoveNode(q, d, subst, w.red, v);
      ghost var order, ks := Order(), key;
      OnlyOnce(mem[..], s, root, t, k);
      if subst == root {
        RootOrder(q, v, node, subst);
        DeleteRoot(node, temp, d, w);
      } else {
        var red := mem[subst].red;
        Extract(node, subst, temp, q, w, d);
        Forget(node, q', v);
        LeftShape(q, v, node, subst);
        if red {
          PlugFacts(q', v);
          ZipPlug(mem[..], s, root, q', v);
          t := Plug(q', v);
        } else {
          Repair(temp, q', v);
        }
      }
      StillSorted(less, ks, key, order, k, node);
    }

    /** The last node of the tree, or the last but one. */
    method DeleteRoot(node: int, temp: int, ghost d: bool, ghost w: Tree)
      requires mem.Length == |key| && Linked(Top, w) && w.Node? && w.x == node && Near(d, w).Leaf?
      requires temp == Ptr(Near(!d, w), s) && RedBlack(RbShape.Paint(Near(!d, w), false))
      modifies mem, this`root, this`key, this`t
      ensures Valid() && Order() == Inorder(Near(!d, w))
      ensures |key| == |old(key)| && forall x :: 0 <= x < |key| && x != node ==> key[x] == old(key)[x]
    {
      hide Zip, RedBlack, Bag, PathBag, Inorder;
      ghost var v, m := Near(!d, w), mem[..];
      NodeBounds(m, s, root, Top, w);
      ZipDropRoot(m, s, root, d, w);
      ZipReads(m, s, temp, Top, v);
      if v.Node? {
        ZipPaint(m, s, temp, Top, v, false);
      }
      root := temp;
      Paint(temp, false);
      assert v.Leaf? ==> mem[..] == m;
      t := RbShape.Paint(v, false);
      PaintFacts(v, false);
      PaintBag(v, false);
      Forget(node, Top, t);
    }
  }

  /** The path above the place the substitute has left. */
  ghost function Left(q: Path, node: int, subst: int): Path {
    if subst == node then q else Renamed(q, node, subst)
  }

  lemma LeftShape(q: Path, v: Tree, node: int, subst: int)
    ensures RedBlackAt(q, v) ==> RedBlackAt(Left(q, node, subst), v)
    ensures Deleting(q, v) ==> Deleting(Left(q, node, subst), v)
  {
    hide Balanced, NoRedRed;
    RenamedShape(q, node, subst, BlackHeight(v));
    RenamedShape(q, node, subst, BlackHeight(v) + 1);
  }

  lemma LeafOrNode(m: Memory, s: int, root: int, p: Path, u: Tree)
    requires Zip(m, s, root, p, u)
    ensures u.Leaf? <==> Ptr(u, s) == s
  {
    hide Zip;
    ZipReads(m, s, root, p, u);
  }

  lemma ChildSide(m: Memory, s: int, root: int, p: Path, u: Tree)
    requires Zip(m, s, root, p, u) && p.In? && u.Node?
    ensures 0 <= p.x < |m| && p.left == (m[p.x].left == u.x) && p.x != u.x
  {
    hide Zip;
    PathLinks(m, s, root, p, u);
  }

  lemma TempBounds(m: Memory, s: int, root: int, p: Path, d: bool, u: Tree)
    requires Zip(m, s, root, p, u) && u.Node?
    ensures 0 <= Ptr(Near(d, u), s) < |m| && Ptr(Near(d, u), s) != u.x
    ensures 0 <= Ptr(Near(!d, u), s) < |m| && Ptr(Near(!d, u), s) != u.x
  {
    hide Zip, Bag, PathBag;
    ZipReads(m, s, root, p, u);
    ZipParts(m, s, root, p, u);
  }

  lemma NodeBounds(m: Memory, s: int, root: int, p: Path, u: Tree)
    requires Zip(m, s, root, p, u) && u.Node?
    ensures 0 <= u.x < |m| && u.x != s
  {
    hide Zip;
    ZipReads(m, s, root, p, u);
  }

  /** The order without the node. */
  lemma DeletedOrder(q: Path, w: Tree, d: bool, node: int) returns (k: nat)
    requires w.Node? && Near(d, w).Leaf? && (w.x != node ==> Spine(q, node) && d)
    ensures k < |Nodes(q, w)| && Nodes(q, w)[k] == node
    ensures Nodes(Left(q, node, w.x), Near(!d, w)) == Nodes(q, w)[..k] + Nodes(q, w)[k + 1..]
  {
    hide Inorder, Before, After, Spine, Renamed;
    var v := Near(!d, w);
    assert Inorder(w) == if d then [w.x] + Inorder(v) else Inorder(v) + [w.x] by { OneChild(w, d); }
    if w.x == node {
      if d {
        k := Without(Before(q), node, Inorder(v) + After(q));
        assert Nodes(q, w) == Before(q) + [node] + (Inorder(v) + After(q));
      } else {
        k := Without(Before(q) + Inorder(v), node, After(q));
        assert Nodes(q, w) == (Before(q) + Inorder(v)) + [node] + After(q);
      }
    } else {
      var before := RenamedNodes(q, node, w.x);
      k := Without(before, node, [w.x] + Inorder(v) + After(q));
      assert Nodes(q, w) == before + [node] + ([w.x] + Inorder(v) + After(q));
      assert Nodes(Left(q, node, w.x), v) == before + ([w.x] + Inorder(v) + After(q));
    }
  }

  lemma OneChild(w: Tree, d: bool)
    requires w.Node? && Near(d, w).Leaf?
    ensures Inorder(w) == if d then [w.x] + Inorder(Near(!d, w)) else Inorder(Near(!d, w)) + [w.x]
  {
  }

  lemma Without(a: seq<int>, x: int, b: seq<int>) returns (k: nat)
    ensures var l := a + [x] + b; k == |a| && l[k] == x && l[..k] + l[k + 1..] == a + b
  {
    k := |a|;
  }

  lemma RootOrder(q: Path, v: Tree, node: int, subst: int)
    requires q.Top? && (subst != node ==> Spine(q, node))
    ensures subst == node && Nodes(Left(q, node, subst), v) == Inorder(v)
  {
  }

  lemma OnlyOnce(m: Memory, s: int, root: int, t: Tree, k: nat)
    requires Zip(m, s, root, Top, t) && k < |Inorder(t)|
    ensures forall i :: 0 <= i < |Inorder(t)| && i != k ==> Inorder(t)[i] != Inorder(t)[k]
  {
    hide Zip, Inorder;
    forall i | 0 <= i < |Inorder(t)| && i != k ensures Inorder(t)[i] != Inorder(t)[k] {
      if i < k {
        Distinct(m, s, root, t, i, k);
      } else {
        Distinct(m, s, root, t, k, i);
      }
    }
  }

  lemma AllDistinct(m: Memory, s: int, root: int, t: Tree)
    requires Zip(m, s, root, Top, t)
    ensures forall i, j :: 0 <= i < j < |Inorder(t)| ==> Inorder(t)[i] != Inorder(t)[j]
  {
    hide Zip, Inorder;
    forall i, j | 0 <= i < j < |Inorder(t)| ensures Inorder(t)[i] != Inorder(t)[j] {
      Distinct(m, s, root, t, i, j);
    }
  }

  lemma StillSorted<K>(less: (K, K) -> bool, ks: seq<K>, ks': seq<K>, l: seq<int>, k: nat, node: int)
    requires k < |l| && l[k] == node && |ks'| == |ks| && (forall x :: 0 <= x < |ks| && x != node ==> ks'[x] == ks[x])
    requires forall i :: 0 <= i < |l| && i != k ==> l[i] != node
    ensures Sorted(less, ks, l) ==> Sorted(less, ks', l[..k] + l[k + 1..])
  {
    var l' := l[..k] + l[k + 1..];
    forall i | 0 <= i < |l'| ensures l'[i] == l[if i < k then i else i + 1] { }
  }

  ghost function Measure(p: Path, u: Tree): nat { if IsRed(u) then 0 else 1 + Depth(p) }

  lemma NotOnSpine(m: Memory, s: int, root: int, p: Path, u: Tree, a: int)
    requires Zip(m, s, root, p, u) && u.Node?
    ensures Spine(p, a) ==> u.x != a
  {
    hide Zip, Bag, PathBag;
    ZipParts(m, s, root, p, u);
    if Spine(p, a) {
      SpineInBag(p, a);
    }
  }

  lemma {:induction false} SpineInBag(p: Path, a: int)
    requires Spine(p, a)
    ensures a in PathBag(p)
    decreases p
  {
    BagPath(p);
    if p.x != a {
      SpineInBag(p.up, a);
    }
  }

  lemma RootIsNode(m: Memory, s: int, root: int, t: Tree)
    requires Zip(m, s, root, Top, t) && root != s
    ensures t.Node? && t.x == root
  {
  }

  lemma RecolourNodes(p: Path, u: Tree)
    requires p.In?
    ensures Nodes(p.up, Mk(p.left, u, p.x, p.red, RbShape.Paint(p.sib, true))) == Nodes(p, u)
  {
    hide Nodes;
    var p1 := p.(sib := RbShape.Paint(p.sib, true));
    PaintFacts(p.sib, true);
    SameOrder(p, p1, u);
    StepUpNodes(p1, u);
  }

  lemma TopNodes(u: Tree)
    ensures Nodes(Top, u) == Inorder(u)
  {
  }

  lemma PaintedNodes(p: Path, u: Tree)
    ensures Nodes(p, RbShape.Paint(u, false)) == Nodes(p, u)
  {
    PaintFacts(u, false);
  }

  lemma AtRoot(m: Memory, s: int, root: int, p: Path, u: Tree)
    requires Zip(m, s, root, p, u)
    ensures p.Top? <==> root == Ptr(u, s)
  {
    hide Bag, PathBag, Once;
    ZipReads(m, s, root, p, u);
    if p.In? && u.Leaf? {
      RootOnPath(m, s, root, p, s);
      PathBounds(m, s, root, p, s);
    }
  }

  lemma RedParent(p: Path, u: Tree)
    requires Inserting(p, u) && PathIsRed(p)
    ensures p.up.In?
  {
  }

  lemma RedNode(p: Path, u: Tree)
    requires Inserting(p, u)
    ensures IsRed(u)
  {
  }

  lemma GrandReads(m: Memory, s: int, root: int, p: Path, u: Tree)
    requires Zip(m, s, root, p, u) && p.In? && p.up.In?
    ensures 0 <= p.x < |m| && m[p.x].parent == p.up.x && 0 <= p.up.x < |m|
    ensures Child(m[p.up.x], p.up.left) == p.x && Child(m[p.up.x], !p.up.left) == Ptr(p.up.sib, s)
    ensures p.x != Ptr(p.up.sib, s)
    ensures 0 <= Ptr(p.up.sib, s) < |m| && m[Ptr(p.up.sib, s)].red == IsRed(p.up.sib)
  {
    hide Zip;
    ZipUp(m, s, root, p, u);
    ZipReads(m, s, root, p.up, Mk(p.left, u, p.x, p.red, p.sib));
  }

  lemma BlackRoot(m: Memory, s: int, root: int, t: Tree)
    requires Zip(m, s, root, Top, t) && RedBlack(t)
    ensures 0 <= root < |m| && !m[root].red
  {
    ZipReads(m, s, root, Top, t);
  }

  lemma RootBounds(m: Memory, s: int, root: int, p: Path, u: Tree)
    requires Zip(m, s, root, p, u)
    ensures 0 <= root < |m| && (p.Top? && u.Node? ==> root == u.x)
  {
    hide Zip;
    ZipPlug(m, s, root, p, u);
    ZipReads(m, s, root, Top, Plug(p, u));
  }

  lemma EmptyTree(m: Memory, s: int, root: int, t: Tree)
    requires Zip(m, s, root, Top, t) && root == s
    ensures t == Leaf && Inorder(t) == [] && 0 <= s < |m| && !m[s].red
  {
  }

  lemma SingleTree<K>(m: Memory, s: int, node: int, less: (K, K) -> bool, ks: seq<K>)
    requires 0 <= s < |m| && !m[s].red && 0 <= node < |m| && node != s && m[node] == Record(s, s, NULL, false)
               && |ks| == |m|
    ensures var t := Node(Leaf, node, false, Leaf); Zip(m, s, node, Top, t) && RedBlack(t) && Inorder(t) == [node]
    ensures Sorted(less, ks, [node]) && Between(less, ks, node, [], [])
  {
    var t := Node(Leaf, node, false, Leaf);
    BagNode(t);
    assert PathBag(Top) + Bag(t) == multiset{node};
  }

  lemma FreshNode(p: Path, node: int, t: Tree)
    requires Plug(p, Leaf) == t && node !in Inorder(t)
    ensures node !in PathBag(p)
  {
    hide Before, After, Inorder;
    assert Inorder(t) == Before(p) + After(p) by { LeafNodes(p); }
    InNeither(Before(p), After(p), node);
  }

  lemma LeafNodes(p: Path)
    ensures Inorder(Plug(p, Leaf)) == Before(p) + After(p)
  {
    PlugFacts(p, Leaf);
    hide Before, After, Plug;
    assert Nodes(p, Leaf) == Before(p) + [] + After(p);
  }

  lemma InNeither(a: seq<int>, b: seq<int>, x: int)
    requires x !in a + b
    ensures x !in multiset(a) + multiset(b)
  {
    assert multiset(a + b) == multiset(a) + multiset(b);
  }

  lemma AttachFacts(p: Path, node: int, t: Tree)
    requires Plug(p, Leaf) == t && RedBlack(t)
    ensures Inserting(p, Node(Leaf, node, true, Leaf))
    ensures Nodes(p, Node(Leaf, node, true, Leaf)) == Before(p) + [node] + After(p)
    ensures Inorder(t) == Before(p) + After(p)
  {
    PlugFacts(p, Leaf);
    assert Nodes(p, Leaf) == Before(p) + After(p);
  }

  lemma InsertOrder<K>(less: (K, K) -> bool, ks: seq<K>, node: int, p: Path, t: Tree)
    requires Inorder(t) == Before(p) + After(p) && Sorted(less, ks, Inorder(t))
               && Ordered(less, ks, Inorder(t) + [node])
    requires Between(less, ks, node, Before(p), After(p))
    ensures Sorted(less, ks, Before(p) + [node] + After(p))
    ensures Inorder(t)[..|Before(p)|] == Before(p) && Inorder(t)[|Before(p)|..] == After(p)
  {
    InsertSorted(less, ks, node, Before(p), After(p));
  }

  lemma AttachedIs(m: Memory, s: int, parent: int, left: bool, node: int)
    requires 0 <= parent < |m| && 0 <= node < |m|
    ensures Attached(m, s, parent, left, node) ==
              m[parent := SetChild(m[parent], left, node)][node := Record(s, s, parent, true)]
  {
  }

  lemma StartDescent<K>(m: Memory, s: int, root: int, t: Tree, less: (K, K) -> bool, ks: seq<K>, node: int)
    requires Zip(m, s, root, Top, t) && root != s && 0 <= node < |ks|
    ensures t.Node? && t.x == root && Between(less, ks, node, Before(Top), After(Top))
  {
  }

  lemma ChildIsLeaf(m: Memory, s: int, root: int, p: Path, u: Tree)
    requires Zip(m, s, root, p, u) && Ptr(u, s) == s
    ensures u == Leaf
  {
  }
}
