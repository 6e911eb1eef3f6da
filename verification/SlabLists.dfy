/**
 Page descriptors of src/core/ngx_slab.c and the doubly linked rings they form.

 All descriptors live in one table, as pointers do in memory: the pages come
 first, then the head of the free list, then one head per slot.  A link is an
 index into that table; NULL is -1.  The word `prev` of the source carries a
 pointer and a two-bit page type, modelled as the fields `prev` and `tag`.
 */
module SlabLists {
  import opened Circular

  const NULL: int := -1

  const TYPE_PAGE: nat := 0
  const TYPE_BIG: nat := 1
  const TYPE_EXACT: nat := 2
  const TYPE_SMALL: nat := 3

  /** The word `slab`, by what it means for the page it is in. */
  datatype Slab =
    | Count(n: nat)                          // free run of n pages; 0 inside one
    | Start(n: nat)                          // first page of an allocated run
    | Busy                                   // a further page of such a run
    | Shift(shift: nat)                      // small chunks, bitmap in the page
    | Map(bits: seq<bool>)                   // exact chunks
    | ShiftMap(shift: nat, bits: seq<bool>)  // big chunks

  datatype Desc = Desc(slab: Slab, next: int, prev: int, tag: nat)

  type Table = seq<Desc>

  /** What the memory holds after it was zeroed. */
  const ZERO: Desc := Desc(Count(0), NULL, NULL, TYPE_PAGE)

  // ----------------------------------------------------------------- rings

  /** `l` lists the pages linked behind the head `s`, in order. */
  ghost predicate Ring(m: Table, s: int, l: seq<int>) {
    && 0 <= s < |m|
    && Distinct(l)
    && (forall k :: 0 <= k < |l| ==> 0 <= l[k] < |m| && l[k] != s)
    && m[s].next == At(l, s, 0)
    && (forall k :: 0 <= k < |l| ==> m[l[k]].next == At(l, s, k + 1))
    && (forall k :: 0 <= k < |l| ==> m[l[k]].prev == At(l, s, k - 1))
  }

  function SetNext(m: Table, i: int, x: int): (m': Table)
    requires 0 <= i < |m|
    ensures |m'| == |m|
  {
    m[i := m[i].(next := x)]
  }

  function SetPrev(m: Table, i: int, x: int, tag: nat): (m': Table)
    requires 0 <= i < |m|
    ensures |m'| == |m|
  {
    m[i := m[i].(prev := x, tag := tag)]
  }

  predicate Linked(m: Table, i: int) {
    && 0 <= i < |m|
    && 0 <= m[i].next < |m|
    && 0 <= m[i].prev < |m|
  }

  /** Take `i` out of the ring it is in; the links of `i` stay as they were. */
  function Unlinked(m: Table, i: int): (m': Table)
    requires Linked(m, i)
    ensures |m'| == |m|
  {
    SetPrev(SetNext(m, m[i].prev, m[i].next), m[i].next, m[i].prev, m[i].tag)
  }

  /** Put `i` first in the ring of `s`, with page type `tag`. */
  function Pushed(m: Table, s: int, i: int, tag: nat): (m': Table)
    requires 0 <= i < |m| && 0 <= s < |m| && 0 <= m[s].next < |m|
    ensures |m'| == |m|
  {
    var m1 := SetNext(SetPrev(m, i, s, tag), i, m[s].next);
    SetNext(SetPrev(m1, m[s].next, i, tag), s, i)
  }

  lemma RingDistinct(m: Table, s: int, l: seq<int>)
    requires Ring(m, s, l)
    ensures Distinct(l)
  {
  }

  lemma RingMember(m: Table, s: int, l: seq<int>, k: nat)
    requires Ring(m, s, l) && k < |l|
    ensures Linked(m, l[k])
    ensures m[l[k]].next == At(l, s, k + 1) && m[l[k]].prev == At(l, s, k - 1)
  {
    assert k > 0 ==> 0 <= l[k - 1] < |m|;
    assert k + 1 < |l| ==> 0 <= l[k + 1] < |m|;
  }

  /** A ring does not notice changes to other descriptors, to the word `slab`,
      or to the back link of its head. */
  lemma RingFrame(m: Table, m': Table, s: int, l: seq<int>)
    requires Ring(m, s, l) && |m'| == |m|
    requires m'[s].next == m[s].next
    requires forall k :: 0 <= k < |l| ==> m'[l[k]].next == m[l[k]].next && m'[l[k]].prev == m[l[k]].prev
    ensures Ring(m', s, l)
  {
  }

  lemma UnlinkedAt(m: Table, i: int, x: int)
    requires Linked(m, i) && 0 <= x < |m|
    ensures Unlinked(m, i)[x].next == if x == m[i].prev then m[i].next else m[x].next
    ensures Unlinked(m, i)[x].prev == if x == m[i].next then m[i].prev else m[x].prev
    ensures Unlinked(m, i)[x].tag == if x == m[i].next then m[i].tag else m[x].tag
    ensures Unlinked(m, i)[x].slab == m[x].slab
  {
  }

  lemma RingApartHead(m: Table, s: int, l: seq<int>, k: nat)
    requires Ring(m, s, l) && k < |l|
    ensures At(l, s, k - 1) == s <==> k == 0
  {
  }

  lemma RingApart(m: Table, s: int, l: seq<int>, j: int, k: int)
    requires Ring(m, s, l) && -1 <= j <= |l| && 0 <= k < |l|
    ensures At(l, s, j) == l[k] <==> j == k
  {
  }

  /** `m'` differs from `m` as the removal of a page between `p` and `n` makes it. */
  ghost predicate Bridged(m: Table, m': Table, p: int, n: int) {
    && |m'| == |m|
    && (forall x :: 0 <= x < |m| ==> m'[x].next == if x == p then n else m[x].next)
    && (forall x :: 0 <= x < |m| ==> m'[x].prev == if x == n then p else m[x].prev)
  }

  lemma RingUnlinkAt(m: Table, s: int, l: seq<int>, k: nat, m': Table, j: nat)
    requires Ring(m, s, l) && k < |l| && j < |l| && j != k
    requires Bridged(m, m', At(l, s, k - 1), At(l, s, k + 1))
    ensures m'[l[j]].next == At(l, s, if j + 1 == k then k + 1 else j + 1)
    ensures m'[l[j]].prev == At(l, s, if j - 1 == k then k - 1 else j - 1)
  {
    RingMember(m, s, l, j);
    RingApart(m, s, l, k - 1, j);
    RingApart(m, s, l, k + 1, j);
  }

  lemma RingUnlinkTo(m: Table, s: int, l: seq<int>, k: nat, m': Table, l': seq<int>)
    requires Ring(m, s, l) && k < |l|
    requires Bridged(m, m', At(l, s, k - 1), At(l, s, k + 1))
    requires l' == Without(l, k)
    ensures Ring(m', s, l')
  {
    hide Ring, Distinct;
    RingDistinct(m, s, l);
    WithoutDistinct(l, k);
    RingHead(m, s, l);
    forall j | 0 <= j < |l'|
      ensures 0 <= l'[j] < |m| && l'[j] != s
      ensures m'[l'[j]].next == At(l', s, j + 1) && m'[l'[j]].prev == At(l', s, j - 1)
    {
      var j0 := if j < k then j else j + 1;
      assert l'[j] == l[j0];
      RingBounds(m, s, l, j0);
      RingUnlinkAt(m, s, l, k, m', j0);
      WithoutAt(l, s, k, j + 1);
      WithoutAt(l, s, k, j - 1);
    }
    WithoutAt(l, s, k, 0);
    RingApartHead(m, s, l, k);
    RingIntro(m', s, l');
  }

  lemma RingUnlink(m: Table, s: int, l: seq<int>, k: nat)
    requires Ring(m, s, l) && k < |l| && Linked(m, l[k])
    ensures Ring(Unlinked(m, l[k]), s, Without(l, k))
  {
    var m' := Unlinked(m, l[k]);
    RingMember(m, s, l, k);
    forall x | 0 <= x < |m|
      ensures m'[x].next == if x == m[l[k]].prev then m[l[k]].next else m[x].next
      ensures m'[x].prev == if x == m[l[k]].next then m[l[k]].prev else m[x].prev
    {
      UnlinkedAt(m, l[k], x);
    }
    RingUnlinkTo(m, s, l, k, m', Without(l, k));
  }

  lemma PushedAt(m: Table, s: int, i: int, tag: nat, x: int)
    requires 0 <= i < |m| && 0 <= s < |m| && 0 <= m[s].next < |m| && 0 <= x < |m|
    requires i != s && m[s].next != i
    ensures Pushed(m, s, i, tag)[x].next == if x == s then i else if x == i then m[s].next else m[x].next
    ensures Pushed(m, s, i, tag)[x].prev == if x == m[s].next then i else if x == i then s else m[x].prev
    ensures Pushed(m, s, i, tag)[x].tag == if x == m[s].next || x == i then tag else m[x].tag
    ensures Pushed(m, s, i, tag)[x].slab == m[x].slab
  {
  }

  lemma RingPush(m: Table, s: int, l: seq<int>, i: int, tag: nat)
    requires Ring(m, s, l) && 0 <= i < |m| && i != s && i !in l
    ensures 0 <= m[s].next < |m|
    ensures Ring(Pushed(m, s, i, tag), s, [i] + l)
  {
    assert l != [] ==> 0 <= l[0] < |m|;
    var m', l' := Pushed(m, s, i, tag), [i] + l;
    assert Distinct(l');
    forall j | 0 <= j < |l'|
      ensures 0 <= l'[j] < |m| && l'[j] != s
      ensures m'[l'[j]].next == At(l', s, j + 1) && m'[l'[j]].prev == At(l', s, j - 1)
    {
      PushedAt(m, s, i, tag, l'[j]);
      if j > 0 {
        assert l'[j] == l[j - 1];
        RingMember(m, s, l, j - 1);
        RingApart(m, s, l, 0, j - 1);
      }
    }
    PushedAt(m, s, i, tag, s);
  }

  /** Put `q` where `i` was in the ring; used when the front of a free run is
      cut off and `q` becomes the head of what is left. */
  function Replaced(m: Table, i: int, q: int): (m': Table)
    requires Linked(m, i) && 0 <= q < |m|
    ensures |m'| == |m|
  {
    var m1 := SetNext(SetPrev(m, q, m[i].prev, m[i].tag), q, m[i].next);
    SetPrev(SetNext(m1, m[i].prev, q), m[i].next, q, TYPE_PAGE)
  }

  lemma ReplacedAt(m: Table, i: int, q: int, x: int)
    requires Linked(m, i) && 0 <= q < |m| && 0 <= x < |m| && q != m[i].prev && q != m[i].next
    ensures Replaced(m, i, q)[x].next == if x == m[i].prev then q else if x == q then m[i].next else m[x].next
    ensures Replaced(m, i, q)[x].prev == if x == m[i].next then q else if x == q then m[i].prev else m[x].prev
    ensures Replaced(m, i, q)[x].tag == if x == m[i].next then TYPE_PAGE else if x == q then m[i].tag else m[x].tag
    ensures Replaced(m, i, q)[x].slab == m[x].slab
  {
  }

  lemma RingReplaceAt(m: Table, s: int, l: seq<int>, k: nat, q: int, j: nat)
    requires Ring(m, s, l) && k < |l| && j < |l| && Linked(m, l[k])
    requires 0 <= q < |m| && q != s && q !in l
    ensures var x := if j == k then q else l[j];
            && Replaced(m, l[k], q)[x].next == (if j + 1 == k then q else At(l, s, j + 1))
            && Replaced(m, l[k], q)[x].prev == (if j - 1 == k then q else At(l, s, j - 1))
  {
    RingMember(m, s, l, k);
    RingMember(m, s, l, j);
    RingApart(m, s, l, k - 1, j);
    RingApart(m, s, l, k + 1, j);
    assert q != At(l, s, k - 1) && q != At(l, s, k + 1);
    hide Ring, Replaced;
    ReplacedAt(m, l[k], q, if j == k then q else l[j]);
  }

  lemma RingReplace(m: Table, s: int, l: seq<int>, k: nat, q: int)
    requires Ring(m, s, l) && k < |l| && Linked(m, l[k])
    requires 0 <= q < |m| && q != s && q !in l
    ensures Ring(Replaced(m, l[k], q), s, l[k := q])
  {
    var m', l' := Replaced(m, l[k], q), l[k := q];
    assert Distinct(l') && m[s].next == At(l, s, 0);
    RingMember(m, s, l, k);
    assert q != At(l, s, k - 1) && q != At(l, s, k + 1);
    RingApart(m, s, l, k - 1, 0);
    hide Ring, Replaced, Linked, Distinct;
    forall j | 0 <= j < |l'|
      ensures 0 <= l'[j] < |m| && l'[j] != s
      ensures m'[l'[j]].next == At(l', s, j + 1) && m'[l'[j]].prev == At(l', s, j - 1)
    {
      RingBounds(m, s, l, j);
      RingReplaceAt(m, s, l, k, q, j);
    }
    ReplacedAt(m, l[k], q, s);
    assert m'[s].next == At(l', s, 0) by {
      if k != 0 {
        RingBounds(m, s, l, k - 1);
      }
    }
    RingIntro(m', s, l');
  }

  lemma RingBounds(m: Table, s: int, l: seq<int>, k: nat)
    requires Ring(m, s, l) && k < |l|
    ensures 0 <= s < |m| && 0 <= l[k] < |m| && l[k] != s
  {
  }

  lemma RingIntro(m: Table, s: int, l: seq<int>)
    requires 0 <= s < |m| && Distinct(l) && m[s].next == At(l, s, 0)
    requires forall k :: 0 <= k < |l| ==> 0 <= l[k] < |m| && l[k] != s
    requires forall k :: 0 <= k < |l| ==> m[l[k]].next == At(l, s, k + 1) && m[l[k]].prev == At(l, s, k - 1)
    ensures Ring(m, s, l)
  {
  }

  // ------------------------------------------------------ all rings together

  /** The free list and one list per slot; shifts 3 to 11. */
  const LISTS: nat := 10

  ghost predicate Absent(ls: seq<seq<int>>, i: int) {
    forall j :: 0 <= j < |ls| ==> i !in ls[j]
  }

  ghost predicate Apart(ls: seq<seq<int>>) {
    forall a, b, x :: 0 <= a < |ls| && 0 <= b < |ls| && x in ls[a] && x in ls[b] ==> a == b
  }

  /** List j hangs off the descriptor n + j, holds pages only, and no page is in
      two lists. */
  ghost predicate Rings(m: Table, n: nat, ls: seq<seq<int>>) {
    && |ls| == LISTS && |m| == n + LISTS
    && (forall j :: 0 <= j < LISTS ==> Ring(m, n + j, ls[j]))
    && (forall j, x :: 0 <= j < LISTS && x in ls[j] ==> 0 <= x < n)
    && Apart(ls)
  }

  lemma RingsFrame(m: Table, m': Table, n: nat, ls: seq<seq<int>>)
    requires Rings(m, n, ls) && |m'| == |m|
    requires forall x :: n <= x < |m| ==> m'[x].next == m[x].next
    requires forall j, x :: 0 <= j < LISTS && x in ls[j] ==>
               0 <= x < |m| && m'[x].next == m[x].next && m'[x].prev == m[x].prev
    ensures Rings(m', n, ls)
  {
    hide Ring, Apart;
    forall j | 0 <= j < LISTS ensures Ring(m', n + j, ls[j]) {
      assert Ring(m, n + j, ls[j]);
      forall k | 0 <= k < |ls[j]|
        ensures 0 <= ls[j][k] < |m|
        ensures m'[ls[j][k]].next == m[ls[j][k]].next && m'[ls[j][k]].prev == m[ls[j][k]].prev
      {
        assert ls[j][k] in ls[j];
      }
      RingFrame(m, m', n + j, ls[j]);
    }
  }

  lemma RingsLinked(m: Table, n: nat, ls: seq<seq<int>>, j: nat, k: nat)
    requires Rings(m, n, ls) && j < LISTS && k < |ls[j]|
    ensures 0 <= ls[j][k] < n && Linked(m, ls[j][k])
    ensures m[ls[j][k]].next == At(ls[j], n + j, k + 1) && m[ls[j][k]].prev == At(ls[j], n + j, k - 1)
  {
    hide Ring, Linked, At;
    assert Ring(m, n + j, ls[j]);
    assert ls[j][k] in ls[j];
    RingMember(m, n + j, ls[j], k);
  }

  /** A change confined to list j and one further page spares the other lists. */
  lemma RingSpared(m: Table, m': Table, n: nat, ls: seq<seq<int>>, j: nat, i: int, a: nat)
    requires Rings(m, n, ls) && |m'| == |m| && j < LISTS && a < LISTS && a != j
    requires 0 <= i < n && i !in ls[a]
    requires forall x :: 0 <= x < |m| && x !in ls[j] && x != n + j && x != i ==>
                           m'[x].next == m[x].next && m'[x].prev == m[x].prev
    ensures Ring(m', n + a, ls[a])
  {
    hide Ring;
    assert Ring(m, n + a, ls[a]);
    forall c | 0 <= c < |ls[a]|
      ensures 0 <= ls[a][c] < |m|
      ensures m'[ls[a][c]].next == m[ls[a][c]].next && m'[ls[a][c]].prev == m[ls[a][c]].prev
    {
      assert ls[a][c] in ls[a];
    }
    assert n + a !in ls[j];
    RingFrame(m, m', n + a, ls[a]);
  }

  lemma RingsUnlink(m: Table, n: nat, ls: seq<seq<int>>, j: nat, k: nat)
    requires Rings(m, n, ls) && j < LISTS && k < |ls[j]|
    requires Linked(m, ls[j][k])
    ensures Rings(Unlinked(m, ls[j][k]), n, ls[j := Without(ls[j], k)])
    ensures Absent(ls[j := Without(ls[j], k)], ls[j][k])
    ensures forall x :: x in Without(ls[j], k) <==> x in ls[j] && x != ls[j][k]
  {
    hide Ring, Unlinked, Without, Linked;
    var i := ls[j][k];
    var m', ls' := Unlinked(m, i), ls[j := Without(ls[j], k)];
    assert Ring(m, n + j, ls[j]);
    RingDistinct(m, n + j, ls[j]);
    WithoutDistinct(ls[j], k);
    RingsLinked(m, n, ls, j, k);
    assert m[i].next in ls[j] || m[i].next == n + j;
    assert m[i].prev in ls[j] || m[i].prev == n + j;
    forall x | 0 <= x < |m| && x !in ls[j] && x != n + j
      ensures m'[x].next == m[x].next && m'[x].prev == m[x].prev
    {
      UnlinkedAt(m, i, x);
    }
    forall a | 0 <= a < LISTS ensures Ring(m', n + a, ls'[a]) {
      if a == j {
        RingUnlink(m, n + j, ls[j], k);
      } else {
        assert i in ls[j];
        RingSpared(m, m', n, ls, j, i, a);
      }
    }
    forall a, x | 0 <= a < |ls'| && x in ls'[a] ensures x in ls[a] && x != i {
      if a != j {
        assert i in ls[j] && x in ls[a];
      }
    }
  }

  lemma RingsPush(m: Table, n: nat, ls: seq<seq<int>>, j: nat, i: int, tag: nat)
    requires Rings(m, n, ls) && j < LISTS && 0 <= i < n && Absent(ls, i)
    ensures 0 <= m[n + j].next < |m|
    ensures Rings(Pushed(m, n + j, i, tag), n, ls[j := [i] + ls[j]])
  {
    hide Ring, Pushed;
    var s := n + j;
    assert Ring(m, s, ls[j]);
    RingPush(m, s, ls[j], i, tag);
    RingHead(m, s, ls[j]);
    var m', ls' := Pushed(m, s, i, tag), ls[j := [i] + ls[j]];
    assert m[s].next in ls[j] || m[s].next == s;
    forall x | 0 <= x < |m| && x !in ls[j] && x != s && x != i
      ensures m'[x].next == m[x].next && m'[x].prev == m[x].prev
    {
      PushedAt(m, s, i, tag, x);
    }
    forall a | 0 <= a < LISTS ensures Ring(m', n + a, ls'[a]) {
      if a != j {
        RingSpared(m, m', n, ls, j, i, a);
      }
    }
    forall a, x | 0 <= a < |ls'| && x in ls'[a] ensures x in ls[a] || (a == j && x == i) {
    }
  }

  lemma RingHead(m: Table, s: int, l: seq<int>)
    requires Ring(m, s, l)
    ensures 0 <= s < |m| && m[s].next == At(l, s, 0)
    ensures m[s].next in l || m[s].next == s
  {
  }

  lemma RingsReplace(m: Table, n: nat, ls: seq<seq<int>>, j: nat, k: nat, q: int)
    requires Rings(m, n, ls) && j < LISTS && k < |ls[j]| && 0 <= q < n && Absent(ls, q)
    requires Linked(m, ls[j][k])
    ensures Rings(Replaced(m, ls[j][k], q), n, ls[j := ls[j][k := q]])
    ensures Absent(ls[j := ls[j][k := q]], ls[j][k])
  {
    hide Ring, Replaced, Linked;
    var i, l' := ls[j][k], ls[j][k := q];
    var m', ls' := Replaced(m, i, q), ls[j := l'];
    assert Ring(m, n + j, ls[j]);
    RingReplace(m, n + j, ls[j], k, q);
    RingDistinct(m, n + j, ls[j]);
    ReplaceMembers(ls[j], k, q);
    RingsLinked(m, n, ls, j, k);
    assert m[i].next in ls[j] || m[i].next == n + j;
    assert m[i].prev in ls[j] || m[i].prev == n + j;
    forall x | 0 <= x < |m| && x !in ls[j] && x != n + j && x != q
      ensures m'[x].next == m[x].next && m'[x].prev == m[x].prev
    {
      ReplacedAt(m, i, q, x);
    }
    forall a | 0 <= a < LISTS ensures Ring(m', n + a, ls'[a]) {
      if a != j {
        RingSpared(m, m', n, ls, j, q, a);
      }
    }
    forall a, x | 0 <= a < |ls'| && x in ls'[a] ensures x != i && (x in ls[a] || (a == j && x == q)) {
      if a != j {
        assert i in ls[j] && x in ls[a];
      }
    }
  }

  lemma ReplaceMembers(l: seq<int>, k: nat, q: int)
    requires k < |l| && Distinct(l) && q !in l
    ensures forall x :: x in l[k := q] <==> (x in l && x != l[k]) || x == q
  {
    var l' := l[k := q];
    forall x | x in l && x != l[k] ensures x in l' {
      var j :| 0 <= j < |l| && l[j] == x;
      assert l'[j] == x;
    }
    assert l'[k] == q;
    forall x | x in l' ensures x == q || (x in l && x != l[k]) {
      var j :| 0 <= j < |l'| && l'[j] == x;
    }
  }
}
