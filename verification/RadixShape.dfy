/**
 Binary tries over bit strings, as values: what src/core/ngx_radix_tree.c keeps, and
 positions in it.
 */
module RadixShape {

  const NO_VALUE: int := 0xFFFF_FFFF_FFFF_FFFF

  type Bits = seq<bool>

  datatype Trie = Nil | Node(l: Trie, x: int, value: int, r: Trie)

  /** From a subtrie up to the root: on which side it is, the node, its value, and
      the other side. */
  datatype Path = Top | In(up: Path, right: bool, x: int, value: int, sib: Trie)

  function Mk(right: bool, near: Trie, x: int, value: int, far: Trie): (t: Trie)
    ensures t.Node? && t.x == x && t.value == value
  {
    if right then Node(far, x, value, near) else Node(near, x, value, far)
  }

  function Side(right: bool, t: Trie): Trie
    requires t.Node?
  {
    if right then t.r else t.l
  }

  function Plug(p: Path, t: Trie): Trie
    decreases p
  {
    if p.Top? then t else Plug(p.up, Mk(p.right, t, p.x, p.value, p.sib))
  }

  /** The bits that lead to a position. */
  function Way(p: Path): Bits { if p.Top? then [] else Way(p.up) + [p.right] }

  /** The value stored under exactly these bits. */
  function Get(t: Trie, q: Bits): int
    decreases q
  {
    if t.Nil? then NO_VALUE else if q == [] then t.value else Get(Side(q[0], t), q[1..])
  }

  function Depth(t: Trie): nat {
    if t.Nil? then 0 else 1 + if Depth(t.l) < Depth(t.r) then Depth(t.r) else Depth(t.l)
  }

  /** No leaf without a value, but for the root. */
  predicate Lean(t: Trie) {
    t.Node? ==> Lean(t.l) && Lean(t.r) && (t.l.Nil? && t.r.Nil? ==> t.value != NO_VALUE)
  }

  predicate LeanRoot(t: Trie) { t.Node? && Lean(t.l) && Lean(t.r) }

  predicate LeanPath(p: Path) { p.In? ==> Lean(p.sib) && LeanPath(p.up) }

  /** What is beside the way does not reach below the last bit. */
  predicate PathFits(p: Path, n: nat) { p.In? ==> Depth(p.sib) + |Way(p)| <= n && PathFits(p.up, n) }

  /** The focus can be in a lean trie. */
  predicate LeanAt(p: Path, t: Trie) {
    && LeanPath(p)
    && (if p.Top? then LeanRoot(t) else Lean(t))
    && (t.Nil? && p.In? && p.up.In? && p.sib.Nil? ==> p.value != NO_VALUE)
  }

  lemma {:induction false} LeanPlug(p: Path, t: Trie)
    ensures LeanAt(p, t) <==> LeanRoot(Plug(p, t))
    decreases p
  {
    if p.In? {
      LeanUp(p, t);
      LeanPlug(p.up, Mk(p.right, t, p.x, p.value, p.sib));
    }
  }

  lemma LeanUp(p: Path, t: Trie)
    requires p.In?
    ensures LeanAt(p, t) <==> LeanAt(p.up, Mk(p.right, t, p.x, p.value, p.sib))
  {
  }

  lemma {:induction false} DepthPlug(p: Path, t: Trie, n: nat)
    ensures Depth(Plug(p, t)) <= n <==> Depth(t) + |Way(p)| <= n && PathFits(p, n)
    decreases p
  {
    if p.In? {
      DepthPlug(p.up, Mk(p.right, t, p.x, p.value, p.sib), n);
    }
  }

  /** Below a position the plugged trie is the subtrie; elsewhere it does not matter. */
  lemma {:induction false} GetPlug(p: Path, t: Trie, q: Bits)
    ensures Get(Plug(p, t), Way(p) + q) == Get(t, q)
    decreases p
  {
    if p.In? {
      var t1 := Mk(p.right, t, p.x, p.value, p.sib);
      GetPlug(p.up, t1, [p.right] + q);
      assert ([p.right] + q)[1..] == q;
      assert Way(p) + q == Way(p.up) + ([p.right] + q);
    } else {
      assert Way(p) + q == q;
    }
  }

  lemma {:induction false} GetElsewhere(p: Path, t: Trie, t': Trie, q: Bits)
    requires !(Way(p) <= q)
    ensures Get(Plug(p, t), q) == Get(Plug(p, t'), q)
    decreases p
  {
    if p.up.Top? || !(Way(p.up) <= q) {
      if p.up.In? {
        GetElsewhere(p.up, Mk(p.right, t, p.x, p.value, p.sib), Mk(p.right, t', p.x, p.value, p.sib), q);
      } else {
        assert Way(p) == [p.right];
      }
    } else {
      var n := |Way(p.up)|;
      var rest := q[n..];
      assert q == Way(p.up) + rest;
      GetPlug(p.up, Mk(p.right, t, p.x, p.value, p.sib), rest);
      GetPlug(p.up, Mk(p.right, t', p.x, p.value, p.sib), rest);
      if rest != [] {
        assert rest == [rest[0]] + rest[1..];
        assert rest[0] != p.right;
      }
    }
  }

  // --------------------------------------------------------- nodes

  /** There is a node for exactly these bits, with or without a value. */
  predicate NodeAt(t: Trie, q: Bits)
    decreases q
  {
    t.Node? && (q == [] || NodeAt(Side(q[0], t), q[1..]))
  }

  predicate LeafAt(t: Trie, q: Bits) { NodeAt(t, q) && !NodeAt(t, q + [false]) && !NodeAt(t, q + [true]) }

  lemma {:induction false} NodePlug(p: Path, t: Trie, q: Bits)
    ensures NodeAt(Plug(p, t), Way(p) + q) == NodeAt(t, q)
    decreases p
  {
    if p.In? {
      NodePlug(p.up, Mk(p.right, t, p.x, p.value, p.sib), [p.right] + q);
      assert ([p.right] + q)[1..] == q;
      assert Way(p) + q == Way(p.up) + ([p.right] + q);
    } else {
      assert Way(p) + q == q;
    }
  }

  /** Nodes are added only. */
  ghost predicate More(t: Trie, t': Trie) { forall q :: NodeAt(t, q) ==> NodeAt(t', q) }

  lemma {:induction false} MorePlug(p: Path, t: Trie, t': Trie)
    requires More(t, t')
    ensures More(Plug(p, t), Plug(p, t'))
    decreases p
  {
    if p.In? {
      var u, u' := Mk(p.right, t, p.x, p.value, p.sib), Mk(p.right, t', p.x, p.value, p.sib);
      forall q | NodeAt(u, q) ensures NodeAt(u', q) {
      }
      MorePlug(p.up, u, u');
    }
  }

  lemma MoreNil(t: Trie)
    ensures More(Nil, t)
  {
  }

  lemma MoreMore(t: Trie, t': Trie, t'': Trie)
    requires More(t, t') && More(t', t'')
    ensures More(t, t'')
  {
  }

  lemma MoreValue(t: Trie, v: int)
    requires t.Node?
    ensures More(t, t.(value := v))
  {
    var t' := t.(value := v);
    forall q | NodeAt(t, q) ensures NodeAt(t', q) {
      assert q != [] ==> Side(q[0], t') == Side(q[0], t);
    }
  }

  lemma LeafPlug(p: Path, u: Trie)
    requires u.Node?
    ensures LeafAt(Plug(p, u), Way(p)) <==> u.l.Nil? && u.r.Nil?
  {
    NodePlug(p, u, []);
    NodePlug(p, u, [false]);
    NodePlug(p, u, [true]);
    assert Way(p) + [] == Way(p);
  }

  // --------------------------------------------------------- values

  /** A subtrie that stores the same makes a trie that stores the same. */
  lemma GetSame(p: Path, t: Trie, t': Trie, q: Bits)
    requires forall r :: Get(t, r) == Get(t', r)
    ensures Get(Plug(p, t), q) == Get(Plug(p, t'), q)
  {
    if Way(p) <= q {
      assert q == Way(p) + q[|Way(p)|..];
      GetPlug(p, t, q[|Way(p)|..]);
      GetPlug(p, t', q[|Way(p)|..]);
    } else {
      GetElsewhere(p, t, t', q);
    }
  }

  /** The value of the focused node is the value under the way to it. */
  lemma GetValue(p: Path, t: Trie, v: int, q: Bits)
    requires t.Node?
    ensures Get(Plug(p, t.(value := v)), q) == if q == Way(p) then v else Get(Plug(p, t), q)
  {
    var t' := t.(value := v);
    if Way(p) <= q {
      var rest := q[|Way(p)|..];
      assert q == Way(p) + rest;
      GetPlug(p, t, rest);
      GetPlug(p, t', rest);
    } else {
      GetElsewhere(p, t, t', q);
    }
  }

  // ------------------------------------------------------- the longest prefix

  /** The value of the longest prefix of the key that is stored, among those of up to
      n bits. */
  function Longest(t: Trie, key: Bits, n: nat): int
    requires n <= |key|
  {
    if Get(t, key[..n]) != NO_VALUE || n == 0 then Get(t, key[..n]) else Longest(t, key, n - 1)
  }

  lemma {:induction false} LongestIsBest(t: Trie, key: Bits, n: nat)
    requires n <= |key|
    ensures Longest(t, key, n) == NO_VALUE <==> forall i :: 0 <= i <= n ==> Get(t, key[..i]) == NO_VALUE
    ensures forall k :: 0 <= k <= n && Get(t, key[..k]) != NO_VALUE &&
                        (forall i :: k < i <= n ==> Get(t, key[..i]) == NO_VALUE) ==>
              Longest(t, key, n) == Get(t, key[..k])
  {
    if Get(t, key[..n]) == NO_VALUE && n > 0 {
      LongestIsBest(t, key, n - 1);
    }
  }

  lemma {:induction false} LongestStop(t: Trie, key: Bits, d: nat, n: nat)
    requires 1 <= d <= n + 1 && n <= |key| && forall i :: d <= i <= n ==> Get(t, key[..i]) == NO_VALUE
    ensures Longest(t, key, n) == Longest(t, key, d - 1)
  {
    if d <= n {
      LongestStop(t, key, d, n - 1);
    }
  }
}
