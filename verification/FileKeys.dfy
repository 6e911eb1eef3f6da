/**
 The order of the open file cache's tree: by hash, then by name as strcmp has it
 (src/core/ngx_open_file_cache.c, ngx_open_file_cache_rbtree_insert_value).
 Names hold no zero byte, so the end of a name compares as smaller than any byte.
 */
module FileKeys {
  import opened RbShape
  import opened RbMemory
  import opened RbTree

  type Name = seq<int>

  datatype Key = Key(hash: int, name: Name)

  function Strcmp(a: Name, b: Name): int {
    if a == [] then (if b == [] then 0 else -1)
    else if b == [] then 1
    else if a[0] != b[0] then a[0] - b[0]
    else Strcmp(a[1..], b[1..])
  }

  predicate KeyLess(a: Key, b: Key) {
    a.hash < b.hash || (a.hash == b.hash && Strcmp(a.name, b.name) < 0)
  }

  lemma {:induction false} StrcmpFacts(a: Name, b: Name)
    ensures Strcmp(a, b) == 0 <==> a == b
    ensures (Strcmp(a, b) < 0 <==> Strcmp(b, a) > 0) && (Strcmp(a, b) > 0 <==> Strcmp(b, a) < 0)
  {
    if a != [] && b != [] && a[0] == b[0] {
      StrcmpFacts(a[1..], b[1..]);
      assert a == [a[0]] + a[1..] && b == [b[0]] + b[1..];
    }
  }

  lemma {:induction false} StrcmpTransitive(a: Name, b: Name, c: Name)
    requires Strcmp(a, b) <= 0 && Strcmp(b, c) <= 0
    ensures Strcmp(a, c) <= 0 && (Strcmp(a, b) < 0 || Strcmp(b, c) < 0 ==> Strcmp(a, c) < 0)
  {
    if a != [] && b != [] && c != [] && a[0] == b[0] == c[0] {
      StrcmpTransitive(a[1..], b[1..], c[1..]);
    }
  }

  lemma KeyLessFacts(a: Key, b: Key)
    ensures KeyLess(a, b) ==> !KeyLess(b, a)
    ensures !KeyLess(a, b) && !KeyLess(b, a) <==> a == b
  {
    StrcmpFacts(a.name, b.name);
  }

  lemma KeyLessTransitive(a: Key, b: Key, c: Key)
    requires !KeyLess(b, a) && !KeyLess(c, b)
    ensures !KeyLess(c, a) && (KeyLess(a, b) || KeyLess(b, c) ==> KeyLess(a, c))
  {
    StrcmpFacts(a.name, b.name);
    StrcmpFacts(b.name, c.name);
    StrcmpFacts(a.name, c.name);
    if a.hash == b.hash == c.hash {
      StrcmpTransitive(a.name, b.name, c.name);
    }
  }

  lemma KeysOrdered(ks: seq<Key>, l: seq<int>)
    requires forall i :: 0 <= i < |l| ==> 0 <= l[i] < |ks|
    ensures Ordered(KeyLess, ks, l)
  {
    hide KeyLess;
    forall a, b | a in l && b in l && KeyLess(ks[a], ks[b]) ensures !KeyLess(ks[b], ks[a]) {
      KeyLessFacts(ks[a], ks[b]);
    }
    forall a, b, c | a in l && b in l && c in l && !KeyLess(ks[a], ks[b]) && !KeyLess(ks[b], ks[c])
      ensures !KeyLess(ks[a], ks[c])
    {
      KeyLessTransitive(ks[c], ks[b], ks[a]);
    }
  }

  /** Everything on the left is smaller than the key, everything on the right larger. */
  ghost predicate Encloses(ks: seq<Key>, k: Key, before: seq<int>, after: seq<int>) {
    && (forall i :: 0 <= i < |before| ==> 0 <= before[i] < |ks| && KeyLess(ks[before[i]], k))
    && (forall i :: 0 <= i < |after| ==> 0 <= after[i] < |ks| && KeyLess(k, ks[after[i]]))
  }

  /** Sorted keys stay smaller before a smaller one and larger after a larger one. */
  lemma SortedSides(ks: seq<Key>, k: Key, l: seq<int>, n: nat, i: nat)
    requires Sorted(KeyLess, ks, l) && n < |l| && i < |l|
    ensures 0 <= l[n] < |ks| && 0 <= l[i] < |ks|
    ensures KeyLess(k, ks[l[n]]) && n <= i ==> KeyLess(k, ks[l[i]])
    ensures KeyLess(ks[l[n]], k) && i <= n ==> KeyLess(ks[l[i]], k)
  {
    hide KeyLess;
    if KeyLess(k, ks[l[n]]) && n < i {
      KeyLessFacts(k, ks[l[n]]);
      KeyLessTransitive(k, ks[l[n]], ks[l[i]]);
    }
    if KeyLess(ks[l[n]], k) && i < n {
      KeyLessFacts(ks[l[n]], k);
      KeyLessTransitive(ks[l[i]], ks[l[n]], k);
    }
  }

  /** One step of ngx_open_file_lookup. */
  lemma LookupStep(ks: seq<Key>, k: Key, p: Path, t: Tree, left: bool)
    requires Sorted(KeyLess, ks, Nodes(p, t)) && Encloses(ks, k, Before(p), After(p)) && t.Node? && 0 <= t.x < |ks|
    requires if left then KeyLess(k, ks[t.x]) else KeyLess(ks[t.x], k)
    ensures var p' := In(p, left, t.x, t.red, Near(!left, t)); Encloses(ks, k, Before(p'), After(p'))
  {
    hide KeyLess, Sorted, Encloses, Before, After, Inorder;
    assert Nodes(p, t) == Before(p) + Inorder(t.l) + [t.x] + Inorder(t.r) + After(p) by { InnerOrder(p, t); }
    SideStep(ks, k, Before(p), Inorder(t.l), t.x, Inorder(t.r), After(p));
    StepSides(p, t, left);
  }

  lemma InnerOrder(p: Path, t: Tree)
    requires t.Node?
    ensures Nodes(p, t) == Before(p) + Inorder(t.l) + [t.x] + Inorder(t.r) + After(p)
  {
    hide Before, After;
  }

  lemma StepSides(p: Path, t: Tree, left: bool)
    requires t.Node?
    ensures var p' := In(p, left, t.x, t.red, Near(!left, t));
            && Before(p') == (if left then Before(p) else Before(p) + (Inorder(t.l) + [t.x]))
            && After(p') == if left then ([t.x] + Inorder(t.r)) + After(p) else After(p)
  {
    hide Inorder;
  }

  lemma SideStep(ks: seq<Key>, k: Key, before: seq<int>, a: seq<int>, x: int, b: seq<int>, after: seq<int>)
    requires Sorted(KeyLess, ks, before + a + [x] + b + after) && Encloses(ks, k, before, after) && 0 <= x < |ks|
    ensures KeyLess(k, ks[x]) ==> Encloses(ks, k, before, ([x] + b) + after)
    ensures KeyLess(ks[x], k) ==> Encloses(ks, k, before + (a + [x]), after)
  {
    hide KeyLess, Sorted;
    var l, n := before + a + [x] + b + after, |before| + |a|;
    assert l[n] == x;
    forall i | 0 <= i < |b| ensures 0 <= b[i] < |ks| && (KeyLess(k, ks[x]) ==> KeyLess(k, ks[b[i]])) {
      assert l[n + 1 + i] == b[i];
      SortedSides(ks, k, l, n, n + 1 + i);
    }
    forall i | 0 <= i < |a| ensures 0 <= a[i] < |ks| && (KeyLess(ks[x], k) ==> KeyLess(ks[a[i]], k)) {
      assert l[|before| + i] == a[i];
      SortedSides(ks, k, l, n, |before| + i);
    }
    if KeyLess(k, ks[x]) {
      ApartAfter(ks, k, before, [x] + b, after);
    }
    if KeyLess(ks[x], k) {
      ApartBefore(ks, k, before, a + [x], after);
    }
  }

  lemma ApartAfter(ks: seq<Key>, k: Key, before: seq<int>, mid: seq<int>, after: seq<int>)
    requires Encloses(ks, k, before, after)
    requires forall i :: 0 <= i < |mid| ==> 0 <= mid[i] < |ks| && KeyLess(k, ks[mid[i]])
    ensures Encloses(ks, k, before, mid + after)
  {
    hide KeyLess;
  }

  lemma ApartBefore(ks: seq<Key>, k: Key, before: seq<int>, mid: seq<int>, after: seq<int>)
    requires Encloses(ks, k, before, after)
    requires forall i :: 0 <= i < |mid| ==> 0 <= mid[i] < |ks| && KeyLess(ks[mid[i]], k)
    ensures Encloses(ks, k, before + mid, after)
  {
    hide KeyLess;
  }

  lemma NotFound(ks: seq<Key>, k: Key, l: seq<int>, before: seq<int>, after: seq<int>)
    requires Encloses(ks, k, before, after) && l == before + after
    ensures forall x :: x in l ==> 0 <= x < |ks| && ks[x] != k
  {
    hide KeyLess;
    forall i | 0 <= i < |l| ensures 0 <= l[i] < |ks| && ks[l[i]] != k {
      var x := if i < |before| then before[i] else after[i - |before|];
      KeyLessFacts(ks[x], k);
    }
  }

  /** ngx_open_file_lookup: by hash and name, down from the root. */
  method Lookup(tree: RbTree<Key>, hash: int, name: Name) returns (file: int)
    requires tree.Valid() && Sorted(KeyLess, tree.key, tree.Order())
    ensures file == NULL <==> forall x :: x in tree.Order() ==> 0 <= x < |tree.key| && tree.key[x] != Key(hash, name)
    ensures file != NULL ==> file in tree.Order() && 0 <= file < |tree.key| && tree.key[file] == Key(hash, name)
  {
    hide Zip, RedBlack, Sorted, KeyLess, Encloses, Before, After, Inorder;
    ghost var m, k := tree.mem[..], Key(hash, name);
    ghost var p, u := Top, tree.t;
    var node := tree.root;
    assert Encloses(tree.key, k, Before(Top), After(Top)) by { Unbounded(tree.key, k); }
    ZipReads(m, tree.s, tree.root, p, u);
    while node != tree.s
      invariant tree.Linked(p, u) && node == Ptr(u, tree.s) && Plug(p, u) == tree.t
      invariant Encloses(tree.key, k, Before(p), After(p))
      decreases u
    {
      ZipReads(m, tree.s, tree.root, p, u);
      PlugFacts(p, u);
      assert node in tree.Order() by { InMiddle(p, u); }
      var rc := if hash != tree.key[node].hash then hash - tree.key[node].hash else Strcmp(name, tree.key[node].name);
      CompareKeys(k, tree.key[node], rc);
      if rc == 0 {
        return node;
      }
      LookupStep(tree.key, k, p, u, rc < 0);
      ghost var q := In(p, rc < 0, u.x, u.red, Near(rc >= 0, u));
      ZipUp(m, tree.s, tree.root, q, Near(rc < 0, u));
      node := if rc < 0 then tree.mem[node].left else tree.mem[node].right;
      p, u := q, Near(rc < 0, u);
    }
    ZipReads(m, tree.s, tree.root, p, u);
    assert tree.Order() == Before(p) + After(p) by { LeafNodes(p); }
    NotFound(tree.key, k, tree.Order(), Before(p), After(p));
    file := NULL;
  }

  lemma Unbounded(ks: seq<Key>, k: Key)
    ensures Encloses(ks, k, Before(Top), After(Top))
  {
  }

  lemma InMiddle(p: Path, u: Tree)
    requires u.Node?
    ensures u.x in Nodes(p, u)
  {
    hide Before, After;
    assert Inorder(u)[|Inorder(u.l)|] == u.x;
  }

  lemma CompareKeys(a: Key, b: Key, rc: int)
    requires rc == if a.hash != b.hash then a.hash - b.hash else Strcmp(a.name, b.name)
    ensures rc == 0 <==> a == b
    ensures rc < 0 ==> KeyLess(a, b)
    ensures rc > 0 ==> KeyLess(b, a)
  {
    StrcmpFacts(a.name, b.name);
  }
}
