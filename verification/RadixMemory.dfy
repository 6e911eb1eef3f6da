/**
 The nodes of src/core/ngx_radix_tree.c in memory: records linked by index, those in
 the trie with parent links, those on the free list by their `right` links.
 */
module RadixMemory {
  import opened Common
  import opened RadixShape

  const NULL: int := -1

  datatype Record = Record(right: int, left: int, parent: int, value: int)

  type Memory = seq<Record>

  function Child(r: Record, right: bool): int { if right then r.right else r.left }

  function SetChild(r: Record, right: bool, y: int): (r': Record)
    ensures Child(r', right) == y && Child(r', !right) == Child(r, !right) && r'.parent == r.parent
              && r'.value == r.value
  {
    if right then r.(right := y) else r.(left := y)
  }

  function Ptr(t: Trie): int { if t.Nil? then NULL else t.x }

  function Above(p: Path): int { if p.Top? then NULL else p.x }

  predicate At(m: Memory, x: int, left: int, right: int, parent: int, value: int) {
    0 <= x < |m| && m[x] == Record(right, left, parent, value)
  }

  predicate Repr(m: Memory, t: Trie, parent: int) {
    t.Node? ==> At(m, t.x, Ptr(t.l), Ptr(t.r), parent, t.value) && Repr(m, t.l, t.x) && Repr(m, t.r, t.x)
  }

  predicate ReprPath(m: Memory, root: int, p: Path, y: int) {
    if p.Top? then root == y
    else
      && At(m, p.x, if p.right then Ptr(p.sib) else y, if p.right then y else Ptr(p.sib), Above(p.up), p.value)
      && Repr(m, p.sib, p.x) && ReprPath(m, root, p.up, p.x)
  }

  ghost function Bag(t: Trie): multiset<int> {
    if t.Nil? then multiset{} else Bag(t.l) + multiset{t.x} + Bag(t.r)
  }

  ghost function PathBag(p: Path): multiset<int> {
    if p.Top? then multiset{} else PathBag(p.up) + multiset{p.x} + Bag(p.sib)
  }

  /** The free list. */
  predicate Chain(m: Memory, head: int, l: seq<int>)
    decreases l
  {
    if l == [] then head == NULL else head == l[0] && 0 <= head < |m| && Chain(m, m[head].right, l[1..])
  }

  /** The trie seen from a position, and the free list beside it: no node is in two
      places. */
  ghost predicate Zip(m: Memory, root: int, p: Path, t: Trie, free: int, l: seq<int>) {
    && Repr(m, t, Above(p)) && ReprPath(m, root, p, Ptr(t)) && Chain(m, free, l)
    && Once(PathBag(p) + Bag(t) + multiset(l))
  }

  // ---------------------------------------------------------------- framing

  lemma {:induction false} ReprFrame(m: Memory, m': Memory, t: Trie, parent: int)
    requires Repr(m, t, parent) && |m| <= |m'| && forall x :: x in Bag(t) && 0 <= x < |m| ==> m'[x] == m[x]
    ensures Repr(m', t, parent)
  {
    if t.Node? {
      ReprFrame(m, m', t.l, t.x);
      ReprFrame(m, m', t.r, t.x);
    }
  }

  lemma {:induction false} PathFrame(m: Memory, m': Memory, root: int, p: Path, y: int)
    requires ReprPath(m, root, p, y) && |m| <= |m'| && forall x :: x in PathBag(p) && 0 <= x < |m| ==> m'[x] == m[x]
    ensures ReprPath(m', root, p, y)
    decreases p
  {
    if p.In? {
      ReprFrame(m, m', p.sib, p.x);
      PathFrame(m, m', root, p.up, p.x);
    }
  }

  lemma {:induction false} ChainFrame(m: Memory, m': Memory, head: int, l: seq<int>)
    requires Chain(m, head, l) && |m| <= |m'| && forall x :: x in l && 0 <= x < |m| ==> m'[x] == m[x]
    ensures Chain(m', head, l)
    decreases l
  {
    if l != [] {
      assert l[0] in l;
      ChainFrame(m, m', m[head].right, l[1..]);
    }
  }

  lemma {:induction false} ReprBounds(m: Memory, t: Trie, parent: int)
    requires Repr(m, t, parent)
    ensures forall x :: x in Bag(t) ==> 0 <= x < |m|
  {
    if t.Node? {
      ReprBounds(m, t.l, t.x);
      ReprBounds(m, t.r, t.x);
    }
  }

  lemma {:induction false} PathBounds(m: Memory, root: int, p: Path, y: int)
    requires ReprPath(m, root, p, y)
    ensures forall x :: x in PathBag(p) ==> 0 <= x < |m|
    decreases p
  {
    if p.In? {
      ReprBounds(m, p.sib, p.x);
      PathBounds(m, root, p.up, p.x);
    }
  }

  // ------------------------------------------------------- moving the focus

  lemma BagMk(right: bool, near: Trie, x: int, value: int, far: Trie)
    ensures Bag(Mk(right, near, x, value, far)) == Bag(near) + multiset{x} + Bag(far)
  {
  }

  lemma BagUp(p: Path, t: Trie)
    requires p.In?
    ensures PathBag(p) + Bag(t) == PathBag(p.up) + Bag(Mk(p.right, t, p.x, p.value, p.sib))
  {
    BagMk(p.right, t, p.x, p.value, p.sib);
    hide Bag;
  }

  lemma ZipUp(m: Memory, root: int, p: Path, t: Trie, free: int, l: seq<int>)
    requires p.In?
    ensures Zip(m, root, p, t, free, l) <==> Zip(m, root, p.up, Mk(p.right, t, p.x, p.value, p.sib), free, l)
  {
    hide Bag, PathBag, Chain, Once;
    BagUp(p, t);
  }

  lemma {:induction false} ZipPlug(m: Memory, root: int, p: Path, t: Trie, free: int, l: seq<int>)
    ensures Zip(m, root, p, t, free, l) <==> Zip(m, root, Top, Plug(p, t), free, l)
    decreases p
  {
    hide Zip;
    if p.In? {
      ZipUp(m, root, p, t, free, l);
      ZipPlug(m, root, p.up, Mk(p.right, t, p.x, p.value, p.sib), free, l);
    }
  }

  /** What the code reads at a node. */
  lemma ZipReads(m: Memory, root: int, p: Path, t: Trie, free: int, l: seq<int>)
    requires Zip(m, root, p, t, free, l)
    ensures t.Node? ==> At(m, t.x, Ptr(t.l), Ptr(t.r), Above(p), t.value)
    ensures p.Top? ==> root == Ptr(t)
    ensures p.In? ==> 0 <= p.x < |m| && Child(m[p.x], p.right) == Ptr(t) && Child(m[p.x], !p.right) == Ptr(p.sib)
    ensures p.In? ==> m[p.x].value == p.value && m[p.x].parent == Above(p.up) && Above(p) == p.x
  {
  }

  lemma ZipBounds(m: Memory, root: int, p: Path, t: Trie, free: int, l: seq<int>)
    requires Zip(m, root, p, t, free, l)
    ensures forall x :: x in PathBag(p) + Bag(t) ==> 0 <= x < |m|
    ensures p.In? ==> p.x in PathBag(p)
    ensures t.Node? ==> t.x in Bag(t)
    ensures free == NULL <==> l == []
    ensures free != NULL ==> 0 <= free < |m| && l != [] && l[0] == free
  {
    ReprBounds(m, t, Above(p));
    PathBounds(m, root, p, Ptr(t));
  }

  /** The links of tries are NULL exactly where there is nothing. */
  lemma PtrNull(m: Memory, root: int, p: Path, t: Trie, free: int, l: seq<int>)
    requires Zip(m, root, p, t, free, l)
    ensures Ptr(t) == NULL <==> t.Nil?
    ensures p.In? ==> (Ptr(p.sib) == NULL <==> p.sib.Nil?)
    ensures t.Node? ==> (Ptr(t.l) == NULL <==> t.l.Nil?) && (Ptr(t.r) == NULL <==> t.r.Nil?)
  {
    if t.Node? {
      assert Repr(m, t.l, t.x) && Repr(m, t.r, t.x);
    }
  }

  // ----------------------------------------------------------------- changes

  /** The focused node is in no other place. */
  lemma Separate(p: Path, t: Trie, l: seq<int>)
    requires Once(PathBag(p) + Bag(t) + multiset(l)) && t.Node?
    ensures t.x !in Bag(t.l) && t.x !in Bag(t.r) && t.x !in PathBag(p) && t.x !in l
  {
    var all := PathBag(p) + Bag(t) + multiset(l);
    assert all[t.x] == PathBag(p)[t.x] + (Bag(t.l)[t.x] + 1 + Bag(t.r)[t.x]) + multiset(l)[t.x];
  }

  /** The parent of the focus is in no other place. */
  lemma SeparateParent(p: Path, t: Trie, l: seq<int>)
    requires Once(PathBag(p) + Bag(t) + multiset(l)) && p.In?
    ensures p.x !in Bag(p.sib) && p.x !in PathBag(p.up) && p.x !in Bag(t) && p.x !in l
  {
    var all := PathBag(p) + Bag(t) + multiset(l);
    assert all[p.x] == (PathBag(p.up)[p.x] + 1 + Bag(p.sib)[p.x]) + Bag(t)[p.x] + multiset(l)[p.x];
  }

  lemma PathHole(m: Memory, m': Memory, root: int, p: Path, y: int, y': int)
    requires ReprPath(m, root, p, y) && |m'| == |m| && p.In? && p.x !in Bag(p.sib) && p.x !in PathBag(p.up)
    requires forall x :: x in PathBag(p) && 0 <= x < |m| && x != p.x ==> m'[x] == m[x]
    requires m'[p.x] == SetChild(m[p.x], p.right, y')
    ensures ReprPath(m', root, p, y')
  {
    hide Bag, PathBag, Repr;
    PathMembers(p);
    ReprFrame(m, m', p.sib, p.x);
    PathFrame(m, m', root, p.up, p.x);
  }

  lemma PathMembers(p: Path)
    requires p.In?
    ensures forall z :: z in PathBag(p) <==> z in PathBag(p.up) || z in Bag(p.sib) || z == p.x
  {
    BagPath(p);
    hide Bag, PathBag;
  }

  lemma BagPath(p: Path)
    requires p.In?
    ensures PathBag(p) == PathBag(p.up) + multiset{p.x} + Bag(p.sib)
  {
  }

  lemma BagNode(t: Trie, v: int)
    requires t.Node?
    ensures Bag(t) == Bag(t.l) + multiset{t.x} + Bag(t.r) == Bag(t.(value := v))
  {
  }

  lemma BagLeaf(x: int, v: int)
    ensures Bag(Nil) == multiset{} && Bag(Node(Nil, x, v, Nil)) == multiset{x}
  {
  }

  lemma ZipValue(m: Memory, root: int, p: Path, t: Trie, free: int, l: seq<int>, v: int)
    requires Zip(m, root, p, t, free, l) && t.Node?
    ensures 0 <= t.x < |m| && Zip(m[t.x := m[t.x].(value := v)], root, p, t.(value := v), free, l)
  {
    hide Bag, PathBag, Once, ReprPath, Chain;
    BagNode(t, v);
    Separate(p, t, l);
    var m' := m[t.x := m[t.x].(value := v)];
    ReprFrame(m, m', t.l, t.x);
    ReprFrame(m, m', t.r, t.x);
    PathFrame(m, m', root, p, t.x);
    ChainFrame(m, m', free, l);
  }

  /** A node is taken from the free list. */
  lemma ZipTake(m: Memory, root: int, p: Path, t: Trie, free: int, l: seq<int>)
    requires Zip(m, root, p, t, free, l) && l != []
    ensures 0 <= free < |m| && Zip(m, root, p, t, m[free].right, l[1..])
    ensures free !in PathBag(p) && free !in Bag(t) && free !in l[1..]
  {
    hide Repr, ReprPath, Bag, PathBag;
    assert l == [free] + l[1..];
    assert multiset(l) == multiset{free} + multiset(l[1..]);
    var all, rest := PathBag(p) + Bag(t) + multiset(l), PathBag(p) + Bag(t) + multiset(l[1..]);
    assert forall x :: all[x] == rest[x] + multiset{free}[x];
    assert rest[free] == 0;
  }

  /** The arena grows by a node. */
  lemma ZipGrow(m: Memory, root: int, p: Path, t: Trie, free: int, l: seq<int>, r: Record)
    requires Zip(m, root, p, t, free, l)
    ensures Zip(m + [r], root, p, t, free, l) && |m| !in PathBag(p) && |m| !in Bag(t) && |m| !in l
  {
    ReprFrame(m, m + [r], t, Above(p));
    PathFrame(m, m + [r], root, p, Ptr(t));
    ChainFrame(m, m + [r], free, l);
    ReprBounds(m, t, Above(p));
    PathBounds(m, root, p, Ptr(t));
    ChainBounds(m, free, l);
    hide Repr, ReprPath, Bag, PathBag, Chain, Once;
  }

  lemma {:induction false} ChainBounds(m: Memory, head: int, l: seq<int>)
    requires Chain(m, head, l)
    ensures forall x :: x in l ==> 0 <= x < |m|
    decreases l
  {
    if l != [] {
      ChainBounds(m, m[head].right, l[1..]);
      assert l == [l[0]] + l[1..];
    }
  }

  /** A new leaf in an empty place. */
  lemma ZipAttach(m: Memory, root: int, p: Path, id: int, free: int, l: seq<int>)
    requires Zip(m, root, p, Nil, free, l) && p.In? && 0 <= id < |m| && id !in PathBag(p) && id !in l
    ensures 0 <= p.x < |m|
    ensures var m' := m[id := Record(NULL, NULL, p.x, NO_VALUE)];
            Zip(m'[p.x := SetChild(m'[p.x], p.right, id)], root, p, Node(Nil, id, NO_VALUE, Nil), free, l)
  {
    hide Bag, PathBag, Once, Chain;
    SeparateParent(p, Nil, l);
    BagPath(p);
    BagLeaf(id, NO_VALUE);
    assert id != p.x;
    var m' := m[id := Record(NULL, NULL, p.x, NO_VALUE)];
    var m'' := m'[p.x := SetChild(m'[p.x], p.right, id)];
    PathHole(m, m'', root, p, NULL, id);
    ChainFrame(m, m'', free, l);
    OnceMore(PathBag(p), l, id);
    LeafRepr(m'', id, p.x);
  }

  lemma LeafRepr(m: Memory, id: int, parent: int)
    requires At(m, id, NULL, NULL, parent, NO_VALUE)
    ensures Repr(m, Node(Nil, id, NO_VALUE, Nil), parent)
  {
  }

  lemma OnceMore(b: multiset<int>, l: seq<int>, x: int)
    requires Once(b + multiset{} + multiset(l)) && x !in b && x !in l
    ensures Once(b + multiset{x} + multiset(l))
  {
    assert forall y :: (b + multiset{x} + multiset(l))[y] == (b + multiset{} + multiset(l))[y] + multiset{x}[y];
  }

  /** A leaf is cut off and put on the free list. */
  lemma ZipRemove(m: Memory, root: int, p: Path, t: Trie, free: int, l: seq<int>)
    requires Zip(m, root, p, t, free, l) && p.In? && t.Node? && t.l.Nil? && t.r.Nil?
    ensures 0 <= p.x < |m| && 0 <= t.x < |m|
    ensures var m' := m[p.x := SetChild(m[p.x], p.right, NULL)];
            Zip(m'[t.x := m'[t.x].(right := free)], root, p, Nil, t.x, [t.x] + l)
  {
    hide Bag, PathBag, Once;
    Separate(p, t, l);
    SeparateParent(p, t, l);
    BagPath(p);
    BagNode(t, t.value);
    BagLeaf(t.x, t.value);
    assert p.x != t.x;
    var m' := m[p.x := SetChild(m[p.x], p.right, NULL)];
    var m'' := m'[t.x := m'[t.x].(right := free)];
    PathHole(m, m'', root, p, t.x, NULL);
    ChainFrame(m, m'', free, l);
    assert ([t.x] + l)[1..] == l;
    assert Chain(m'', t.x, [t.x] + l);
    assert multiset([t.x] + l) == multiset{t.x} + multiset(l);
    assert PathBag(p) + multiset{} + multiset([t.x] + l) == PathBag(p) + Bag(t) + multiset(l);
  }
}
