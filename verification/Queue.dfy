/**
 The intrusive ring of src/core/ngx_queue.h: every element holds the links `prev`
 and `next`, and a head closes the ring.
 */
module Queue {
  import opened Circular

  /** From the head h, the links run through l both ways. */
  ghost predicate Ring(next: seq<int>, prev: seq<int>, h: int, l: seq<int>) {
    && |prev| == |next| && 0 <= h < |next| && Distinct(l)
    && (forall k :: 0 <= k < |l| ==> 0 <= l[k] < |next| && l[k] != h)
    && next[h] == At(l, h, 0) && prev[h] == At(l, h, |l| - 1)
    && (forall k :: 0 <= k < |l| ==> next[l[k]] == At(l, h, k + 1))
    && (forall k :: 0 <= k < |l| ==> prev[l[k]] == At(l, h, k - 1))
  }

  lemma RingAt(next: seq<int>, prev: seq<int>, h: int, l: seq<int>, k: int)
    requires Ring(next, prev, h, l) && -1 <= k <= |l|
    ensures var x := At(l, h, k);
            && 0 <= x < |next| == |prev| && (x == h <==> k < 0 || k == |l|)
            && (k < |l| ==> next[x] == At(l, h, k + 1)) && (0 <= k ==> prev[x] == At(l, h, k - 1))
            && forall j :: 0 <= j < |l| ==> (l[j] == x <==> j == k)
  {
    assert k == -1 && |l| > 0 ==> next[h] == l[0];
    if 0 <= k < |l| {
      assert next[l[k]] == At(l, h, k + 1);
      assert prev[l[k]] == At(l, h, k - 1);
    }
  }

  lemma RingInsert(next: seq<int>, prev: seq<int>, h: int, l: seq<int>, x: int, next': seq<int>, prev': seq<int>)
    requires Ring(next, prev, h, l) && 0 <= x < |next| && x != h && x !in l
    requires 0 <= next[h] < |next| && next' == next[x := next[h]][h := x] && prev' == prev[next[h] := x][x := h]
    ensures Ring(next', prev', h, [x] + l)
  {
    hide Ring;
    var l' := [x] + l;
    forall k | -1 <= k <= |l| ensures At(l', h, k + 1) == At(l, h, k) || k == -1 {
    }
    RingAt(next, prev, h, l, -1);
    RingAt(next, prev, h, l, 0);
    RingAt(next, prev, h, l, |l|);
    forall k | 0 <= k < |l'|
      ensures 0 <= l'[k] < |next| && l'[k] != h && next'[l'[k]] == At(l', h, k + 1) && prev'[l'[k]] == At(l', h, k - 1)
    {
      if k > 0 {
        RingAt(next, prev, h, l, k - 1);
        assert l'[k] == l[k - 1] && l[k - 1] in l;
        assert At(l', h, k + 1) == At(l, h, k);
      }
    }
    assert Distinct(l') by { DistinctOf(next, prev, h, l); }
    assert prev'[h] == At(l', h, |l'| - 1);
    assert next'[h] == At(l', h, 0);
    MakeRing(next', prev', h, l');
  }

  lemma DistinctOf(next: seq<int>, prev: seq<int>, h: int, l: seq<int>)
    requires Ring(next, prev, h, l)
    ensures Distinct(l)
  {
  }

  lemma MakeRing(next: seq<int>, prev: seq<int>, h: int, l: seq<int>)
    requires |prev| == |next| && 0 <= h < |next| && Distinct(l)
    requires next[h] == At(l, h, 0) && prev[h] == At(l, h, |l| - 1)
    requires forall k :: 0 <= k < |l| ==>
      0 <= l[k] < |next| && l[k] != h && next[l[k]] == At(l, h, k + 1) && prev[l[k]] == At(l, h, k - 1)
    ensures Ring(next, prev, h, l)
  {
  }

  lemma RingRemove(next: seq<int>, prev: seq<int>, h: int, l: seq<int>, k: nat, next': seq<int>, prev': seq<int>)
    requires Ring(next, prev, h, l) && k < |l|
    requires var n, p := At(l, h, k + 1), At(l, h, k - 1);
             0 <= n < |prev| && 0 <= p < |next| && prev' == prev[n := p] && next' == next[p := n]
    ensures Ring(next', prev', h, Without(l, k))
  {
    hide Ring, Without;
    var l' := Without(l, k);
    assert |l'| == |l| - 1 && Distinct(l') by {
      DistinctOf(next, prev, h, l);
      WithoutDistinct(l, k);
      WithoutSize(l, k);
    }
    RingAt(next, prev, h, l, k - 1);
    RingAt(next, prev, h, l, k + 1);
    RingAt(next, prev, h, l, -1);
    RingAt(next, prev, h, l, |l|);
    WithoutAt(l, h, k, 0);
    WithoutAt(l, h, k, |l'| - 1);
    forall j | 0 <= j < |l'|
      ensures 0 <= l'[j] < |next| && l'[j] != h && next'[l'[j]] == At(l', h, j + 1) && prev'[l'[j]] == At(l', h, j - 1)
    {
      RingAt(next, prev, h, l, if j < k then j else j + 1);
      WithoutAt(l, h, k, j);
      WithoutAt(l, h, k, j + 1);
      WithoutAt(l, h, k, j - 1);
    }
    MakeRing(next', prev', h, l');
  }

  lemma WithoutSize(l: seq<int>, k: nat)
    requires k < |l|
    ensures |Without(l, k)| == |l| - 1
  {
  }

  class Queue {
    const head: int
    const next: array<int>
    const prev: array<int>
    ghost var items: seq<int>

    ghost predicate Valid()
      reads this, next, prev
    {
      next != prev && Ring(next[..], prev[..], head, items)
    }

    /** ngx_queue_init */
    constructor (size: nat, h: int)
      requires 0 <= h < size
      ensures Valid() && items == [] && next.Length == size && head == h && fresh(next) && fresh(prev)
    {
      head := h;
      next := new int[size];
      prev := new int[size];
      items := [];
      new;
      next[h] := h;
      prev[h] := h;
    }

    /** ngx_queue_empty */
    method Empty() returns (b: bool)
      requires Valid()
      ensures b <==> items == []
    {
      RingAt(next[..], prev[..], head, items, |items| - 1);
      b := head == prev[head];
    }

    /** ngx_queue_last */
    method Last() returns (x: int)
      requires Valid() && items != []
      ensures x == items[|items| - 1]
    {
      x := prev[head];
    }

    /** ngx_queue_insert_head */
    method InsertHead(x: int)
      requires Valid() && 0 <= x < next.Length && x != head && x !in items
      modifies this`items, next, prev
      ensures Valid() && items == [x] + old(items)
    {
      ghost var n, p := next[..], prev[..];
      RingAt(n, p, head, items, 0);
      next[x] := next[head];
      prev[next[x]] := x;
      prev[x] := head;
      next[head] := x;
      RingInsert(n, p, head, items, x, next[..], prev[..]);
      items := [x] + items;
    }

    /** ngx_queue_remove */
    method Remove(x: int) returns (ghost k: nat)
      requires Valid() && x in items
      modifies this`items, next, prev
      ensures Valid() && k < |old(items)| && old(items)[k] == x && items == Without(old(items), k)
    {
      ghost var n, p := next[..], prev[..];
      k :| 0 <= k < |items| && items[k] == x;
      RingAt(n, p, head, items, k);
      RingAt(n, p, head, items, k - 1);
      RingAt(n, p, head, items, k + 1);
      prev[next[x]] := prev[x];
      next[prev[x]] := next[x];
      RingRemove(n, p, head, items, k, next[..], prev[..]);
      items := Without(items, k);
    }
  }
}
