/**
 The radix tree of src/core/ngx_radix_tree.c: longest-prefix lookup over 32-bit keys,
 with nodes pruned and reused.

 A 32-bit word is the sequence of its bits, the most significant one first, and the
 variable `bit` of the source is the index of its only one.
 */
module RadixTree {
  import opened Common
  import opened RadixShape
  import opened RadixMemory

  const WIDTH: nat := 32
  const PAGE_BITS: nat := 6     // to preallocate by default, with 4096 bytes a page and 32 a node

  type Word = w: Bits | |w| == WIDTH witness seq(WIDTH, i => false)

  /** `Fault` is a null pointer followed. */
  datatype Status = Ok | Busy | Error | Fault

  /** word & bit */
  predicate Test(word: Word, bit: nat) { bit < WIDTH && word[bit] }

  /** How many bits a mask has from the left. */
  function Ones(mask: Word, bit: nat): (n: nat)
    requires bit <= WIDTH
    ensures bit <= n <= WIDTH && (forall i :: bit <= i < n ==> mask[i]) && !Test(mask, n)
    decreases WIDTH - bit
  {
    if Test(mask, bit) then Ones(mask, bit + 1) else bit
  }

  /** The bits that a key and a mask stand for. */
  function Prefix(key: Word, mask: Word): Bits { key[..Ones(mask, 0)] }

  class RadixTree {
    var mem: Memory
    var root: int
    var free: int
    ghost var t: Trie
    ghost var l: seq<int>         // the nodes on the free list
    ghost var lean: bool          // no node was asked for without a value

    ghost predicate Linked(p: Path, u: Trie)
      reads this
    {
      Zip(mem, root, p, u, free, l)
    }

    ghost predicate Valid()
      reads this
    {
      Linked(Top, t) && t.Node? && Depth(t) <= WIDTH + 1 && (lean ==> LeanRoot(t))
    }

    /** What is stored under some bits. */
    ghost function Stored(q: Bits): int
      reads this
    {
      Get(t, q)
    }

    /** ngx_radix_tree_create: nothing is stored, and there are nodes for all prefixes of
        up to `preallocate` bits, or as many as fill a page on this platform if it is -1. */
    constructor (preallocate: int)
      requires -1 <= preallocate <= WIDTH
      ensures Valid() && (forall q :: Stored(q) == NO_VALUE) && (lean <==> preallocate == 0)
      ensures forall q: Bits :: |q| <= (if preallocate == -1 then PAGE_BITS else preallocate) ==> NodeAt(t, q)
    {
      mem := [Record(NULL, NULL, NULL, NO_VALUE)];
      root, free := 0, NULL;
      t, l, lean := Node(Nil, 0, NO_VALUE, Nil), [], true;
      new;
      Empty();
      if preallocate != 0 {
        Preallocate(if preallocate == -1 then PAGE_BITS else preallocate);
      }
    }

    method Preallocate(count: nat)
      requires Valid() && 0 < count <= WIDTH && (forall q :: Stored(q) == NO_VALUE)
      modifies this
      ensures Valid() && (forall q :: Stored(q) == NO_VALUE) && !lean
      ensures forall q: Bits :: |q| <= count ==> NodeAt(t, q)
    {
      hide Zip, Get, NodeAt, Depth, LeanRoot;
      var bits := 0;
      RootIs(t);
      while bits < count
        invariant bits <= count && Valid() && (forall q :: Stored(q) == NO_VALUE) && (bits > 0 ==> !lean)
        invariant forall q: Bits :: |q| <= bits ==> NodeAt(t, q)
      {
        bits := bits + 1;
        PreallocateBits(bits);
      }
    }

    /** The nodes for all prefixes of one length, in the order of their numbers. */
    method PreallocateBits(bits: nat)
      requires Valid() && 0 < bits <= WIDTH && (forall q :: Stored(q) == NO_VALUE)
      modifies this
      ensures Valid() && (forall q :: Stored(q) == NO_VALUE) && !lean
      ensures More(old(t), t) && forall q: Bits :: |q| == bits ==> NodeAt(t, q)
    {
      hide Zip, Get, NodeAt, Depth, LeanRoot, More, Pow2;
      var mask: Word := seq(WIDTH, i => i < bits);
      MaskOnes(mask, bits, 0);
      MoreSelf(t);
      var k := 0;
      while true
        invariant 0 <= k < Pow2(bits) && Valid() && (forall q :: Stored(q) == NO_VALUE) && (k > 0 ==> !lean)
        invariant More(old(t), t) && forall j :: 0 <= j < k ==> NodeAt(t, Number(j, bits))
        decreases Pow2(bits) - k
      {
        var key: Word := Number(k, bits) + seq(WIDTH - bits, i => false);
        assert Prefix(key, mask) == Number(k, bits);
        ghost var t1 := t;
        var rc := Insert(key, mask, NO_VALUE);
        assert rc == Ok;
        MoreMore(old(t), t1, t);
        StillThere(t1, t, k, bits);
        k := k + 1;
        if k == Pow2(bits) {
          break;
        }
      }
      forall q: Bits | |q| == bits ensures NodeAt(t, q) {
        var j := NumberOf(q);
      }
    }

    /** ngx_radix_alloc: a node from the free list, or a new one. */
    method Alloc(ghost p: Path, ghost u: Trie) returns (id: int)
      requires Linked(p, u)
      modifies this`mem, this`free, this`l
      ensures Linked(p, u) && 0 <= id < |mem| && id !in PathBag(p) && id !in Bag(u) && id !in l
    {
      hide Zip, Bag, PathBag;
      ZipBounds(mem, root, p, u, free, l);
      if free != NULL {
        ZipTake(mem, root, p, u, free, l);
        id := free;
        free := mem[free].right;
        l := l[1..];
      } else {
        var r := Record(NULL, NULL, NULL, NO_VALUE);
        ZipGrow(mem, root, p, u, free, l, r);
        id := |mem|;
        mem := mem + [r];
      }
    }

    /** ngx_radix32tree_find */
    method Find(key: Word) returns (value: int)
      requires Valid()
      ensures value == Longest(t, key, WIDTH)
    {
      hide Zip, Longest, Get;
      var bit := 0;
      value := NO_VALUE;
      var node := root;
      ghost var p, u := Top, t;
      ZipReads(mem, root, Top, t, free, l);
      DepthPlug(Top, t, WIDTH + 1);
      while node != NULL
        invariant Linked(p, u) && node == Ptr(u) && Plug(p, u) == t && |Way(p)| == bit <= WIDTH + 1
        invariant bit <= WIDTH ==> Way(p) == key[..bit]
        invariant value == if bit == 0 then NO_VALUE else Longest(t, key, bit - 1)
        decreases u
      {
        ZipReads(mem, root, p, u, free, l);
        PtrNull(mem, root, p, u, free, l);
        DepthPlug(p, u, WIDTH + 1);
        FindStep(t, p, u, key, bit);
        if mem[node].value != NO_VALUE {
          value := mem[node].value;
        }
        var right := Test(key, bit);
        ghost var q := In(p, right, u.x, u.value, Side(!right, u));
        ZipUp(mem, root, q, Side(right, u), free, l);
        node := Child(mem[node], right);
        p, u := q, Side(right, u);
        bit := bit + 1;
      }
      PtrNull(mem, root, p, u, free, l);
      FindEnd(t, p, u, key, bit);
    }

    /** ngx_radix32tree_insert: a prefix that is taken stays as it is. */
    method Insert(key: Word, mask: Word, value: int) returns (rc: Status)
      requires Valid()
      modifies this
      ensures Valid() && (rc == Ok || rc == Busy) && lean == (old(lean) && value != NO_VALUE)
      ensures rc == Busy <==> old(Stored(Prefix(key, mask))) != NO_VALUE
      ensures rc == Busy ==> t == old(t)
      ensures rc == Ok ==> forall q :: Stored(q) == if q == Prefix(key, mask) then value else old(Stored(q))
      ensures More(old(t), t) && NodeAt(t, Prefix(key, mask))
    {
      hide Zip, Get, Lean, LeanRoot, LeanPath, PathFits, Depth, Ones, More, NodeAt;
      lean := lean && value != NO_VALUE;
      var bit, node, next, p, u := Descend(key, mask);
      GetHere(p, u);
      LeanPlug(p, u);
      DepthPlug(p, u, WIDTH + 1);
      MoreSelf(t);
      if next != NULL {
        NodeHere(p, u);
        ZipReads(mem, root, p, u, free, l);
        if mem[node].value != NO_VALUE {
          return Busy;
        }
        if lean {
          LeanParts(p, u);
        }
        SetValue(node, value, p, u);
        NodeHere(p, u.(value := value));
        return Ok;
      }
      Absent(t, p, key, bit + 1, Ones(mask, 0));
      if lean {
        LeanOf(p, u);
      }
      Grow(key, mask, bit, value, p, node);
      return Ok;
    }

    /** Down along the key, until the mask or the trie ends. */
    method Descend(key: Word, mask: Word) returns (bit: nat, node: int, next: int, ghost p: Path, ghost u: Trie)
      requires Valid()
      ensures Linked(p, u) && Plug(p, u) == t && bit <= WIDTH && Ones(mask, 0) == Ones(mask, bit)
      ensures next != NULL ==> u.Node? && u.x == node && Way(p) == Prefix(key, mask)
      ensures next == NULL ==>
                u.Nil? && p.In? && p.x == node && Test(mask, bit) && p.right == key[bit] && Way(p) == key[..bit + 1]
      ensures next == NULL ==> bit < Ones(mask, 0)
    {
      hide Zip, Get, Lean, LeanPath, PathFits, Depth;
      bit := 0;
      node, next := root, root;
      p, u := Top, t;
      ZipReads(mem, root, p, u, free, l);
      PtrNull(mem, root, p, u, free, l);
      while Test(mask, bit)
        invariant Linked(p, u) && u.Node? && node == u.x && next != NULL && Plug(p, u) == t
        invariant bit <= WIDTH && Way(p) == key[..bit] && Ones(mask, 0) == Ones(mask, bit)
        decreases WIDTH - bit
      {
        next, p, u := Down(node, key[bit], p, u);
        if next == NULL {
          return;
        }
        bit := bit + 1;
        node := next;
      }
    }

    /** To the child on one side. */
    method Down(node: int, right: bool, ghost p0: Path, ghost u0: Trie)
      returns (next: int, ghost p: Path, ghost u: Trie)
      requires Linked(p0, u0) && u0.Node? && node == u0.x
      ensures Linked(p, u) && Plug(p, u) == Plug(p0, u0) && Way(p) == Way(p0) + [right]
      ensures p.In? && p.x == node && p.right == right && if next == NULL then u.Nil? else u.Node? && u.x == next
    {
      hide Zip, Get, Lean, LeanPath, PathFits, Depth;
      ZipReads(mem, root, p0, u0, free, l);
      next := Child(mem[node], right);
      p, u := In(p0, right, u0.x, u0.value, Side(!right, u0)), Side(right, u0);
      ZipUp(mem, root, p, u, free, l);
      PtrNull(mem, root, p, u, free, l);
    }

    /** The focused node gets a value, or loses it. */
    method SetValue(node: int, value: int, ghost p: Path, ghost u: Trie)
      requires Linked(p, u) && u.Node? && u.x == node && PathFits(p, WIDTH + 1) && Depth(u) + |Way(p)| <= WIDTH + 1
      requires lean ==> LeanPath(p) && if p.Top? then LeanRoot(u) else Lean(u.l) && Lean(u.r)
      requires lean ==> value != NO_VALUE || u.l.Node? || u.r.Node?
      modifies this`mem, this`t
      ensures Valid() && t == Plug(p, u.(value := value))
      ensures forall q :: Get(t, q) == if q == Way(p) then value else Get(Plug(p, u), q)
      ensures More(Plug(p, u), t)
    {
      hide Zip, Get, PathFits, More, NodeAt;
      ghost var u' := u.(value := value);
      ZipReads(mem, root, p, u, free, l);
      ZipValue(mem, root, p, u, free, l, value);
      mem := mem[node := mem[node].(value := value)];
      ZipPlug(mem, root, p, u', free, l);
      LeanPlug(p, u');
      DepthPlug(p, u', WIDTH + 1);
      MoreValue(u, value);
      MorePlug(p, u, u');
      PlugNode(p, u');
      forall q ensures Get(Plug(p, u'), q) == if q == Way(p) then value else Get(Plug(p, u), q) {
        GetValue(p, u, value, q);
      }
      t := Plug(p, u');
    }

    /** New nodes for the bits from `start` on; the last one gets the value. */
    method Grow(key: Word, mask: Word, start: nat, value: int, ghost p0: Path, parent: int)
      requires start < WIDTH && mask[start] && Way(p0) == key[..start + 1]
      requires Linked(p0, Nil) && p0.In? && p0.x == parent && p0.right == key[start] && Plug(p0, Nil) == t
                 && PathFits(p0, WIDTH + 1)
      requires lean ==> LeanPath(p0) && value != NO_VALUE
      modifies this
      ensures Valid() && lean == old(lean)
      ensures forall q :: Stored(q) == if q == key[..Ones(mask, start)] then value else old(Stored(q))
      ensures More(old(t), t) && NodeAt(t, key[..Ones(mask, start)])
    {
      hide Zip, Get, Lean, LeanRoot, LeanPath, PathFits, Depth, NodeAt, More, Same;
      var bit, node := start, parent;
      ghost var p, t0 := p0, t;
      SameSelf(t);
      while true
        invariant start <= bit < WIDTH && mask[bit] && Way(p) == key[..bit + 1] && Ones(mask, start) == Ones(mask, bit)
        invariant Linked(p, Nil) && p.In? && p.x == node && p.right == key[bit] && PathFits(p, WIDTH + 1)
                    && (lean ==> LeanPath(p))
        invariant Same(t0, Plug(p, Nil)) && lean == old(lean)
        decreases WIDTH - bit
      {
        var next := NewNode(p, node, key[bit]);
        ghost var u := Node(Nil, next, NO_VALUE, Nil);
        SameLeaf(t0, p, next);
        bit := bit + 1;
        node := next;
        if !Test(mask, bit) {
          LeafFits(p, next);
          SetValue(node, value, p, u);
          SameThen(t0, Plug(p, u), t, Way(p), value);
          NodeHere(p, u.(value := value));
          return;
        }
        ghost var p' := In(p, key[bit], next, NO_VALUE, Nil);
        assert Mk(key[bit], Nil, next, NO_VALUE, Nil) == u;
        ZipUp(mem, root, p', Nil, free, l);
        LeafFits(p, next);
        PathOn(p, key[bit], next);
        p := p';
      }
    }

    /** A node without a value at an empty place. */
    method NewNode(ghost p: Path, node: int, right: bool) returns (next: int)
      requires Linked(p, Nil) && p.In? && p.x == node && p.right == right
      modifies this`mem, this`free, this`l
      ensures Linked(p, Node(Nil, next, NO_VALUE, Nil))
    {
      hide Zip;
      next := Alloc(p, Nil);
      ZipReads(mem, root, p, Nil, free, l);
      ZipAttach(mem, root, p, next, free, l);
      mem := mem[next := Record(NULL, NULL, node, NO_VALUE)];
      mem := mem[node := SetChild(mem[node], right, next)];
    }

    /** ngx_radix32tree_delete: the prefix goes if it is there, and with it the nodes
        that are no longer needed; a leaf without a value counts as being there.  Asked to
        delete the empty prefix from a tree without other nodes, it follows the null
        parent of the root, and in no other case. */
    method Delete(key: Word, mask: Word) returns (rc: Status)
      requires Valid()
      modifies this
      ensures Valid() && rc != Busy && lean == old(lean)
      ensures rc == Fault <==> Ones(mask, 0) == 0 && old(t.l.Nil? && t.r.Nil?)
      ensures rc == Fault ==> mem == old(mem) && root == old(root) && free == old(free) && t == old(t)
      ensures rc != Fault ==>
                (rc == Ok <==> old(Stored(Prefix(key, mask))) != NO_VALUE || LeafAt(old(t), Prefix(key, mask)))
      ensures rc != Fault && lean ==> (rc == Ok <==> old(Stored(Prefix(key, mask))) != NO_VALUE)
      ensures rc != Fault ==> forall q :: Stored(q) == if q == Prefix(key, mask) then NO_VALUE else old(Stored(q))
    {
      hide Zip, Get, Lean, LeanRoot, LeanPath, PathFits, Depth, Ones, LeafAt, NodeAt;
      var bit, node, p, u := DescendTo(key, mask);
      GetHere(p, u);
      LeanPlug(p, u);
      DepthPlug(p, u, WIDTH + 1);
      PtrNull(mem, root, p, u, free, l);
      if node == NULL {
        Absent(t, p, key, bit, Ones(mask, 0));
        return Error;
      }
      ZipReads(mem, root, p, u, free, l);
      LeafPlug(p, u);
      if lean {
        LeanParts(p, u);
      }
      if mem[node].right != NULL || mem[node].left != NULL {
        if mem[node].value != NO_VALUE {
          SetValue(node, NO_VALUE, p, u);
          return Ok;
        }
        return Error;
      }
      assert u == Node(Nil, node, u.value, Nil);
      TopPtr(mem, root, p, u, free, l);
      if mem[node].parent == NULL {
        return Fault;
      }
      LeafCleared(t, p, node, u.value);
      if lean {
        LeafHasValue(p, u);
      }
      Prune(node, p, u, Way(p));
      return Ok;
    }

    /** Down along the key, to the node of the prefix or off the trie. */
    method DescendTo(key: Word, mask: Word) returns (bit: nat, node: int, ghost p: Path, ghost u: Trie)
      requires Valid()
      ensures Linked(p, u) && Plug(p, u) == t && node == Ptr(u) && bit <= Ones(mask, 0) && Way(p) == key[..bit]
      ensures node != NULL ==> bit == Ones(mask, 0)
    {
      hide Zip, Get, Lean, LeanPath, PathFits, Depth;
      bit := 0;
      node := root;
      p, u := Top, t;
      ZipReads(mem, root, p, u, free, l);
      PtrNull(mem, root, p, u, free, l);
      while node != NULL && Test(mask, bit)
        invariant Linked(p, u) && node == Ptr(u) && Plug(p, u) == t && (node == NULL <==> u.Nil?)
        invariant bit <= WIDTH && Way(p) == key[..bit] && Ones(mask, 0) == Ones(mask, bit)
        decreases WIDTH - bit
      {
        ZipReads(mem, root, p, u, free, l);
        ghost var q := In(p, key[bit], u.x, u.value, Side(!key[bit], u));
        ZipUp(mem, root, q, Side(key[bit], u), free, l);
        PtrNull(mem, root, q, Side(key[bit], u), free, l);
        node := Child(mem[node], key[bit]);
        p, u := q, Side(key[bit], u);
        bit := bit + 1;
      }
    }

    /** The leaf goes, and every node above it that has become a leaf without a value. */
    method Prune(start: int, ghost p0: Path, ghost u0: Trie, ghost bits: Bits)
      requires Linked(p0, u0) && u0.Node? && u0.x == start && u0.l.Nil? && u0.r.Nil? && p0.In?
      requires PathFits(p0, WIDTH + 1) && Cleared(t, Plug(p0, Nil), bits) && (lean ==> LeanPath(p0))
      modifies this
      ensures Valid() && Cleared(old(t), t, bits) && lean == old(lean)
    {
      hide Zip, Get, Depth, Cleared;
      var node := start;
      ghost var p, u, t0 := p0, u0, t;
      while true
        invariant Linked(p, u) && u.Node? && u.x == node && u.l.Nil? && u.r.Nil? && p.In?
        invariant PathFits(p, WIDTH + 1) && Cleared(t0, Plug(p, Nil), bits) && (lean ==> LeanPath(p))
                    && lean == old(lean)
        decreases p
      {
        node := CutLeaf(node, p, u);
        ghost var u1 := Mk(p.right, Nil, p.x, p.value, p.sib);
        ZipUp(mem, root, p, Nil, free, l);
        ZipReads(mem, root, p.up, u1, free, l);
        PtrNull(mem, root, p.up, u1, free, l);
        if mem[node].right != NULL || mem[node].left != NULL || mem[node].value != NO_VALUE
            || mem[node].parent == NULL {
          TopPtr(mem, root, p.up, u1, free, l);
          LeanUp(p, Nil);
          LeanPlug(p.up, u1);
          FitsNil(p);
          DepthPlug(p, Nil, WIDTH + 1);
          ZipPlug(mem, root, p.up, u1, free, l);
          t := Plug(p.up, u1);
          PlugNode(p.up, u1);
          return;
        }
        TopPtr(mem, root, p.up, u1, free, l);
        StillCleared(t0, p.up, node, bits);
        p, u := p.up, u1;
      }
    }

    /** The leaf is unlinked and put on the free list. */
    method CutLeaf(node: int, ghost p: Path, ghost u: Trie) returns (parent: int)
      requires Linked(p, u) && u.Node? && u.x == node && u.l.Nil? && u.r.Nil? && p.In?
      modifies this`mem, this`free, this`l
      ensures Linked(p, Nil) && parent == p.x
    {
      hide Zip;
      ZipReads(mem, root, p, u, free, l);
      NotBoth(mem, root, p, u, free, l);
      ZipRemove(mem, root, p, u, free, l);
      parent := mem[node].parent;
      if mem[parent].right == node {
        mem := mem[parent := mem[parent].(right := NULL)];
      } else {
        mem := mem[parent := mem[parent].(left := NULL)];
      }
      mem := mem[node := mem[node].(right := free)];
      l := [node] + l;
      free := node;
    }
  }

  /** The same is stored, but for these bits. */
  ghost predicate Cleared(t: Trie, t': Trie, bits: Bits) {
    forall q :: Get(t', q) == if q == bits then NO_VALUE else Get(t, q)
  }

  lemma LeafCleared(t: Trie, p: Path, x: int, v: int)
    requires Plug(p, Node(Nil, x, v, Nil)) == t
    ensures Cleared(t, Plug(p, Nil), Way(p))
  {
    hide Get;
    var u := Node(Nil, x, v, Nil);
    var u' := u.(value := NO_VALUE);
    forall q ensures Get(Plug(p, Nil), q) == if q == Way(p) then NO_VALUE else Get(t, q) {
      GetValue(p, u, NO_VALUE, q);
      forall r ensures Get(u', r) == Get(Nil, r) {
        LeafGet(x, r);
        NilGet(r);
      }
      GetSame(p, u', Nil, q);
    }
  }

  lemma NilGet(q: Bits)
    ensures Get(Nil, q) == NO_VALUE
  {
  }

  lemma StillCleared(t0: Trie, p: Path, x: int, bits: Bits)
    requires Cleared(t0, Plug(p, Node(Nil, x, NO_VALUE, Nil)), bits)
    ensures Cleared(t0, Plug(p, Nil), bits)
  {
    hide Get;
    var u := Node(Nil, x, NO_VALUE, Nil);
    forall q ensures Get(Plug(p, Nil), q) == Get(Plug(p, u), q) {
      forall r ensures Get(u, r) == Get(Nil, r) {
        LeafGet(x, r);
        NilGet(r);
      }
      GetSame(p, u, Nil, q);
    }
  }

  lemma LeafHasValue(p: Path, u: Trie)
    requires LeanAt(p, u) && u.Node? && u.l.Nil? && u.r.Nil? && p.In?
    ensures u.value != NO_VALUE
  {
  }

  /** Nothing is stored below an empty place. */
  lemma Absent(t: Trie, p: Path, key: Word, bit: nat, n: nat)
    requires Plug(p, Nil) == t && bit <= n <= WIDTH && Way(p) == key[..bit]
    ensures Get(t, key[..n]) == NO_VALUE && !LeafAt(t, key[..n])
  {
    GetPlug(p, Nil, key[bit..n]);
    NodePlug(p, Nil, key[bit..n]);
    assert key[..bit] + key[bit..n] == key[..n];
  }

  lemma FitsNil(p: Path)
    requires p.In? && PathFits(p, WIDTH + 1)
    ensures Depth(Nil) + |Way(p)| <= WIDTH + 1
  {
  }

  /** The root alone has no parent. */
  lemma TopPtr(m: Memory, root: int, p: Path, u: Trie, free: int, l: seq<int>)
    requires Zip(m, root, p, u, free, l)
    ensures Above(p) == NULL <==> p.Top?
  {
  }

  /** A node is on one side of its parent only. */
  lemma NotBoth(m: Memory, root: int, p: Path, u: Trie, free: int, l: seq<int>)
    requires Zip(m, root, p, u, free, l) && p.In? && u.Node?
    ensures Ptr(p.sib) != u.x
  {
    Separate(p, u, l);
    SibInPath(p);
  }

  lemma SibInPath(p: Path)
    requires p.In?
    ensures p.sib.Node? ==> p.sib.x in PathBag(p)
  {
  }

  lemma Empty()
    ensures var t := Node(Nil, 0, NO_VALUE, Nil);
            && Zip([Record(NULL, NULL, NULL, NO_VALUE)], 0, Top, t, NULL, []) && LeanRoot(t) && Depth(t) == 1
            && forall q :: Get(t, q) == NO_VALUE
  {
    var t := Node(Nil, 0, NO_VALUE, Nil);
    assert Bag(t) == multiset{0};
    assert PathBag(Top) + Bag(t) + multiset([]) == multiset{0};
    forall q ensures Get(t, q) == NO_VALUE {
      LeafGet(0, q);
    }
  }

  lemma LeafGet(x: int, q: Bits)
    ensures Get(Node(Nil, x, NO_VALUE, Nil), q) == NO_VALUE
  {
  }

  lemma LeafFits(p: Path, x: int)
    requires p.In? && PathFits(p, WIDTH + 1) && |Way(p)| <= WIDTH
    ensures var u := Node(Nil, x, NO_VALUE, Nil);
            Depth(u) == 1 && Depth(Nil) == 0 && Lean(Nil) && Depth(u) + |Way(p)| <= WIDTH + 1
  {
  }

  lemma PathOn(p: Path, right: bool, x: int)
    requires PathFits(p, WIDTH + 1) && |Way(p)| <= WIDTH
    ensures var p' := In(p, right, x, NO_VALUE, Nil); PathFits(p', WIDTH + 1) && (LeanPath(p) ==> LeanPath(p'))
  {
  }

  lemma LeanOf(p: Path, u: Trie)
    requires LeanAt(p, u)
    ensures LeanPath(p)
  {
  }

  // ----------------------------------------------------------- growing

  /** The same is stored, and no node has gone. */
  ghost predicate Same(t: Trie, t': Trie) { (forall q :: Get(t', q) == Get(t, q)) && More(t, t') }

  lemma SameSelf(t: Trie)
    ensures Same(t, t)
  {
  }

  lemma MoreSelf(t: Trie)
    ensures More(t, t)
  {
  }

  lemma SameLeaf(t0: Trie, p: Path, x: int)
    requires Same(t0, Plug(p, Nil))
    ensures Same(t0, Plug(p, Node(Nil, x, NO_VALUE, Nil)))
  {
    hide Get, NodeAt, More;
    var u := Node(Nil, x, NO_VALUE, Nil);
    Unvalued(p, x, t0);
    MoreNil(u);
    MorePlug(p, Nil, u);
    MoreMore(t0, Plug(p, Nil), Plug(p, u));
  }

  lemma SameThen(t0: Trie, t1: Trie, t: Trie, bits: Bits, value: int)
    requires Same(t0, t1) && More(t1, t) && forall q :: Get(t, q) == if q == bits then value else Get(t1, q)
    ensures More(t0, t) && forall q :: Get(t, q) == if q == bits then value else Get(t0, q)
  {
    hide Get, NodeAt, More;
    MoreMore(t0, t1, t);
  }

  lemma NodeHere(p: Path, u: Trie)
    requires u.Node?
    ensures NodeAt(Plug(p, u), Way(p))
  {
    NodePlug(p, u, []);
    assert Way(p) + [] == Way(p);
  }

  lemma {:induction false} PlugNode(p: Path, u: Trie)
    requires u.Node?
    ensures Plug(p, u).Node?
    decreases p
  {
    if p.In? {
      PlugNode(p.up, Mk(p.right, u, p.x, p.value, p.sib));
    }
  }

  // ------------------------------------------------------ preallocation

  /** The bits of a number, the most significant one first. */
  function Number(k: nat, bits: nat): (q: Bits)
    ensures |q| == bits
  {
    if bits == 0 then [] else Number(k / 2, bits - 1) + [k % 2 == 1]
  }

  /** Every string of bits is a number. */
  lemma {:induction false} NumberOf(q: Bits) returns (k: nat)
    ensures k < Pow2(|q|) && Number(k, |q|) == q
  {
    if q == [] {
      k := 0;
    } else {
      var n := |q| - 1;
      var h := NumberOf(q[..n]);
      k := 2 * h + if q[n] then 1 else 0;
      assert k / 2 == h && q == q[..n] + [q[n]];
    }
  }

  lemma {:induction false} MaskOnes(mask: Word, bits: nat, bit: nat)
    requires bit <= bits <= WIDTH && forall i :: 0 <= i < WIDTH ==> mask[i] == (i < bits)
    ensures Ones(mask, bit) == bits
    decreases bits - bit
  {
    if bit < bits {
      MaskOnes(mask, bits, bit + 1);
    }
  }

  /** For a mask that is all ones and then zeros, an address has the prefix exactly if it
      agrees with the key under the mask. */
  lemma PrefixIsMask(address: Word, key: Word, mask: Word, k: nat)
    requires k <= WIDTH && forall i :: 0 <= i < WIDTH ==> mask[i] == (i < k)
    ensures Prefix(key, mask) <= address <==> forall i :: 0 <= i < WIDTH && mask[i] ==> address[i] == key[i]
  {
    MaskOnes(mask, k, 0);
    var p := Prefix(key, mask);
    if forall i :: 0 <= i < WIDTH && mask[i] ==> address[i] == key[i] {
      assert address[..k] == p;
    } else {
      var i :| 0 <= i < WIDTH && mask[i] && address[i] != key[i];
      assert p[i] == key[i];
    }
  }

  lemma StillThere(t: Trie, t': Trie, k: nat, bits: nat)
    requires More(t, t') && NodeAt(t', Number(k, bits)) && forall j :: 0 <= j < k ==> NodeAt(t, Number(j, bits))
    ensures forall j :: 0 <= j < k + 1 ==> NodeAt(t', Number(j, bits))
  {
    hide NodeAt, Number;
  }

  lemma RootIs(t: Trie)
    requires t.Node?
    ensures forall q: Bits :: |q| <= 0 ==> NodeAt(t, q)
  {
  }

  lemma LeanParts(p: Path, u: Trie)
    requires LeanAt(p, u) && u.Node?
    ensures LeanPath(p) && if p.Top? then LeanRoot(u) else Lean(u.l) && Lean(u.r)
  {
  }

  lemma GetHere(p: Path, u: Trie)
    ensures Get(Plug(p, u), Way(p)) == if u.Nil? then NO_VALUE else u.value
  {
    GetPlug(p, u, []);
    assert Way(p) + [] == Way(p);
  }

  /** A node without a value and children stores nothing. */
  lemma Unvalued(p: Path, x: int, t0: Trie)
    requires forall q :: Get(Plug(p, Nil), q) == Get(t0, q)
    ensures forall q :: Get(Plug(p, Node(Nil, x, NO_VALUE, Nil)), q) == Get(t0, q)
  {
    var u := Node(Nil, x, NO_VALUE, Nil);
    forall q ensures Get(Plug(p, u), q) == Get(t0, q) {
      forall r ensures Get(u, r) == Get(Nil, r) {
        LeafGet(x, r);
      }
      GetSame(p, u, Nil, q);
    }
  }

  lemma FindStep(t: Trie, p: Path, u: Trie, key: Word, bit: nat)
    requires Plug(p, u) == t && u.Node? && bit <= WIDTH && Way(p) == key[..bit]
    ensures Longest(t, key, bit) == if u.value != NO_VALUE then u.value else if bit == 0 then NO_VALUE
              else Longest(t, key, bit - 1)
  {
    GetPlug(p, u, []);
    assert key[..bit] + [] == key[..bit];
  }

  lemma FindEnd(t: Trie, p: Path, u: Trie, key: Word, bit: nat)
    requires Plug(p, u) == t && u.Nil? && 1 <= bit <= WIDTH + 1 && (bit <= WIDTH ==> Way(p) == key[..bit])
    ensures Longest(t, key, WIDTH) == Longest(t, key, bit - 1)
  {
    forall i | bit <= i <= WIDTH ensures Get(t, key[..i]) == NO_VALUE {
      GetPlug(p, u, key[bit..i]);
      assert key[..bit] + key[bit..i] == key[..i];
    }
    LongestStop(t, key, bit, WIDTH);
  }
}
