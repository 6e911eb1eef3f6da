/**
 Elements of a ring, listed from its head: what the slab lists and the queue of
 src/core/ngx_queue.h have in common.
 */
module Circular {

  /** The k-th element, and the head on either side of the list. */
  function At(l: seq<int>, h: int, k: int): int { if 0 <= k < |l| then l[k] else h }

  ghost predicate Distinct(l: seq<int>) { forall i, j :: 0 <= i < j < |l| ==> l[i] != l[j] }

  function Without<T>(l: seq<T>, k: nat): (r: seq<T>)
    requires k < |l|
  {
    l[..k] + l[k + 1..]
  }

  lemma WithoutAt(l: seq<int>, h: int, k: nat, j: int)
    requires k < |l|
    ensures At(Without(l, k), h, j) == At(l, h, if j < k then j else j + 1)
  {
  }

  lemma WithoutDistinct(l: seq<int>, k: nat)
    requires k < |l| && Distinct(l)
    ensures Distinct(Without(l, k)) && forall x :: x in Without(l, k) <==> x in l && x != l[k]
  {
    var l' := Without(l, k);
    forall x | x in l && x != l[k] ensures x in l' {
      var j :| 0 <= j < |l| && l[j] == x;
      assert l'[if j < k then j else j - 1] == x;
    }
  }
}
