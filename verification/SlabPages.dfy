/**
 The page layer of src/core/ngx_slab.c: the descriptors partition into runs of
 pages, each free, allocated, or a single page cut into chunks.

 `head` is ghost: it maps every page to the first page of its run.  The code
 keeps no such table; it finds a run by its count, and a free run also from its
 last page, whose back link leads to the head.
 */
module SlabPages {
  import opened Circular
  import opened SlabLists

  predicate FreeHead(d: Desc) { d.tag == TYPE_PAGE && d.slab.Count? && d.slab.n > 0 }

  predicate UsedHead(d: Desc) { d.tag == TYPE_PAGE && d.slab.Start? && d.slab.n > 0 }

  predicate Chunked(d: Desc) { d.tag != TYPE_PAGE }

  function RunLength(d: Desc): nat {
    if Chunked(d) then 1
    else if d.slab.Count? || d.slab.Start? then d.slab.n
    else 0
  }

  /** A first page of a run.  Only heads of free runs and pages of chunks are
      ever linked. */
  predicate Head(d: Desc) {
    || (FreeHead(d) && d.next != NULL)
    || (UsedHead(d) && d.next == NULL)
    || Chunked(d)
  }

  /** A further page of the run that starts with `h`. */
  predicate Inside(d: Desc, h: Desc) {
    && d.tag == TYPE_PAGE && d.next == NULL
    && d.slab == (if FreeHead(h) then Count(0) else Busy)
  }

  ghost predicate Covers(head: seq<int>, h: int, e: int) {
    0 <= h <= e <= |head| && forall k :: h <= k < e ==> head[k] == h
  }

  /** What the partition says of page i. */
  ghost predicate Local(m: Table, head: seq<int>, i: int)
    requires 0 <= i < |head| <= |m|
  {
    var h := head[i];
    && 0 <= h <= i < h + RunLength(m[h])
    && head[h] == h
    && if h == i then
         && Head(m[i])
         && Covers(head, i, i + RunLength(m[i]))
         && (FreeHead(m[i]) ==> FreeRun(m, |head|, i))
       else
         Inside(m[i], m[h])
  }

  /** A free run that ends before the last page has a back link from its tail
      and is not followed by another free run. */
  predicate FreeRun(m: Table, n: nat, h: int)
    requires 0 <= h < n <= |m| && FreeHead(m[h])
  {
    var e := h + m[h].slab.n;
    e < n ==>
      && !FreeHead(m[e])
      && (h + 1 < e ==> m[e - 1].prev == h)
  }

  ghost predicate Partition(m: Table, n: nat, head: seq<int>) {
    && |head| == n <= |m|
    && forall i :: 0 <= i < n ==> Local(m, head, i)
  }

  // ---------------------------------------------------------------- framing

  /** The partition looks at no more of a descriptor than this, apart from the
      back link of a tail. */
  predicate Same(d: Desc, d': Desc) {
    d'.slab == d.slab && d'.tag == d.tag && (d'.next == NULL <==> d.next == NULL)
  }

  /** A window [a, e) of whole runs is re-partitioned; the runs outside stay. */
  ghost predicate Outside(m: Table, head: seq<int>, m': Table, head': seq<int>, a: int, e: int) {
    && |head'| == |head| <= |m| == |m'|
    && 0 <= a < e <= |head|
    && head[a] == a && (e < |head| ==> head[e] == e)
    && (forall i :: 0 <= i < |head| && !(a <= i < e) ==>
          && head'[i] == head[i]
          && Same(m[i], m'[i])
          && (head[i] != i ==> m'[i].prev == m[i].prev))
  }

  lemma CoversNoOther(head: seq<int>, h: int, e: int, a: int)
    requires Covers(head, h, e) && 0 <= a < |head| && head[a] == a
    ensures !(h < a < e)
  {
  }

  predicate AfterFree(m: Table, head: seq<int>, a: int)
    requires 0 <= a < |head|
  {
    a > 0 && 0 <= head[a - 1] < |m| && FreeHead(m[head[a - 1]])
  }

  /** A run of an undisturbed page lies wholly outside the window. */
  lemma RunOutside(m: Table, n: nat, head: seq<int>, a: int, e: int, i: int)
    requires Partition(m, n, head)
    requires 0 <= a < e <= n && head[a] == a && (e < n ==> head[e] == e)
    requires 0 <= i < n && !(a <= i < e)
    ensures 0 <= head[i] <= i && Local(m, head, head[i]) && head[head[i]] == head[i]
    ensures !(a <= head[i] < e)
    ensures head[i] + RunLength(m[head[i]]) <= a || e <= head[i]
  {
    hide FreeRun, Inside, Head, RunLength, FreeHead;
    var h := head[i];
    assert Local(m, head, i);
    assert Local(m, head, h);
    assert Covers(head, h, h + RunLength(m[h]));
    CoversNoOther(head, h, h + RunLength(m[h]), a);
    if e < n {
      CoversNoOther(head, h, h + RunLength(m[h]), e);
    }
  }

  lemma LocalOutside(m: Table, n: nat, head: seq<int>, m': Table, head': seq<int>, a: int, e: int, i: int)
    requires Partition(m, n, head) && Outside(m, head, m', head', a, e)
    requires 0 <= i < n && !(a <= i < e)
    requires AfterFree(m, head, a) ==> !FreeHead(m'[a])
    ensures Local(m', head', i)
  {
    RunOutside(m, n, head, a, e, i);
    var h := head[i];
    assert Local(m, head, i);
    assert Same(m[h], m'[h]) && Same(m[i], m'[i]);
    if h == i {
      CoversOutside(m, n, head, m', head', a, e, i);
      if FreeHead(m[i]) {
        FreeRunOutside(m, n, head, m', head', a, e, i);
      }
    }
  }

  lemma CoversOutside(m: Table, n: nat, head: seq<int>, m': Table, head': seq<int>, a: int, e: int, h: int)
    requires Partition(m, n, head) && Outside(m, head, m', head', a, e)
    requires 0 <= h < n && head[h] == h && (h + RunLength(m[h]) <= a || e <= h)
    ensures Covers(head', h, h + RunLength(m[h]))
  {
    assert Local(m, head, h);
    assert Covers(head, h, h + RunLength(m[h]));
  }

  lemma FreeRunOutside(m: Table, n: nat, head: seq<int>, m': Table, head': seq<int>, a: int, e: int, h: int)
    requires Partition(m, n, head) && Outside(m, head, m', head', a, e)
    requires 0 <= h < n && head[h] == h && (h + RunLength(m[h]) <= a || e <= h)
    requires FreeHead(m[h]) && FreeHead(m'[h])
    requires AfterFree(m, head, a) ==> !FreeHead(m'[a])
    ensures FreeRun(m', n, h)
  {
    assert Local(m, head, h);
    var t := h + RunLength(m[h]);
    assert FreeRun(m, n, h);
    assert Covers(head, h, t);
    assert head[t - 1] == h;
    if t < n {
      assert t == a || !(a <= t < e);
      assert t != a ==> Same(m[t], m'[t]);
      assert !FreeHead(m'[t]);
    }
  }

  lemma RePartition(m: Table, n: nat, head: seq<int>, m': Table, head': seq<int>, a: int, e: int)
    requires Partition(m, n, head) && Outside(m, head, m', head', a, e)
    requires AfterFree(m, head, a) ==> !FreeHead(m'[a])
    requires forall i :: a <= i < e ==> Local(m', head', i)
    ensures Partition(m', n, head')
  {
    forall i | 0 <= i < n ensures Local(m', head', i) {
      if !(a <= i < e) {
        LocalOutside(m, n, head, m', head', a, e, i);
      }
    }
  }

  // ------------------------------------------------ runs and lists together

  /** The list a linked page belongs to: 0 for free runs, shift - 2 for pages
      cut into chunks of 1 << shift bytes. */
  function Home(d: Desc): (j: nat)
    ensures j < LISTS
    ensures j == 0 <==> d.tag == TYPE_PAGE
  {
    if d.tag == TYPE_PAGE then 0
    else if (d.slab.Shift? || d.slab.ShiftMap?) && 3 <= d.slab.shift <= 11 then d.slab.shift - 2
    else 4
  }

  /** The page type shared by the pages of list j. */
  function TagOf(j: nat): nat {
    if j == 0 then TYPE_PAGE else if j <= 3 then TYPE_SMALL else if j == 4 then TYPE_EXACT else TYPE_BIG
  }

  /** A page is linked exactly when it is in the list it belongs to. */
  ghost predicate Homes(m: Table, n: nat, ls: seq<seq<int>>) {
    && |ls| == LISTS && n <= |m|
    && (forall j, x :: 0 <= j < LISTS && x in ls[j] ==> AtHome(m, n, j, x))
    && (forall i :: 0 <= i < n && m[i].next != NULL ==> i in ls[Home(m[i])])
  }

  predicate AtHome(m: Table, n: nat, j: nat, x: int)
    requires n <= |m|
  {
    0 <= x < n && Home(m[x]) == j && m[x].tag == TagOf(j)
  }

  ghost predicate PagesValid(m: Table, n: nat, head: seq<int>, ls: seq<seq<int>>) {
    && |ls| == LISTS && |m| == n + LISTS && |head| == n
    && Partition(m, n, head) && Rings(m, n, ls) && Homes(m, n, ls)
  }

  lemma HeadFacts(m: Table, n: nat, head: seq<int>, ls: seq<seq<int>>, i: int)
    requires PagesValid(m, n, head, ls) && 0 <= i < n
    ensures Local(m, head, i)
    ensures m[i].next != NULL <==> i in ls[Home(m[i])]
    ensures head[i] != i ==> Absent(ls, i) && m[i].tag == TYPE_PAGE
    ensures i in ls[0] <==> head[i] == i && FreeHead(m[i])
    ensures UsedHead(m[i]) && head[i] == i ==> Absent(ls, i)
  {
    hide Rings, Covers;
    assert Local(m, head, i);
    RingsMembersLinked(m, n, ls, i);
  }

  lemma RingsMembersLinked(m: Table, n: nat, ls: seq<seq<int>>, i: int)
    requires Rings(m, n, ls) && 0 <= i < n
    ensures m[i].next == NULL ==> Absent(ls, i)
  {
    hide Ring, Apart;
    if m[i].next == NULL {
      forall j | 0 <= j < LISTS ensures i !in ls[j] {
        if i in ls[j] {
          var k :| 0 <= k < |ls[j]| && ls[j][k] == i;
          RingsLinked(m, n, ls, j, k);
          assert false;
        }
      }
    }
  }

  // ------------------------------------------------------- taking pages away

  predicate Fits(m: Table, n: nat, h: int, pages: nat) {
    0 <= h < n <= |m| && FreeHead(m[h]) && 1 <= pages <= m[h].slab.n && h + m[h].slab.n <= n && Linked(m, h)
  }

  /** Cut `pages` pages off the front of the free run at h: the rest takes its
      place in the free list, or nothing does. */
  function Carved(m: Table, n: nat, h: int, pages: nat): (m': Table)
    requires Fits(m, n, h, pages)
    ensures |m'| == |m|
  {
    var len := m[h].slab.n;
    if len > pages then Replaced(Remainder(m, n, h, pages), h, h + pages) else Unlinked(m, h)
  }

  function Remainder(m: Table, n: nat, h: int, pages: nat): (m': Table)
    requires Fits(m, n, h, pages) && pages < m[h].slab.n
    ensures |m'| == |m| && m'[h] == m[h]
  {
    var len, q := m[h].slab.n, h + pages;
    var m1 := SetPrev(m, h + len - 1, q, TYPE_PAGE);
    m1[q := m1[q].(slab := Count(len - pages))]
  }

  /** Mark the pages as one allocated run. */
  function Taken(m: Table, h: int, pages: nat): (m': Table)
    requires 0 <= h && h + pages <= |m|
    ensures |m'| == |m|
  {
    seq(|m|, i requires 0 <= i < |m| => TakenAt(m[i], i, h, pages))
  }

  function TakenAt(d: Desc, i: int, h: int, pages: nat): Desc {
    if i == h then Desc(Start(pages), NULL, NULL, TYPE_PAGE)
    else if h < i < h + pages then Desc(Busy, NULL, NULL, TYPE_PAGE)
    else d
  }

  function AllocatedAt(m: Table, n: nat, h: int, pages: nat): (m': Table)
    requires Fits(m, n, h, pages)
    ensures |m'| == |m|
  {
    Taken(Carved(m, n, h, pages), h, pages)
  }

  ghost function AllocatedLists(m: Table, n: nat, ls: seq<seq<int>>, k: nat, pages: nat): (r: seq<seq<int>>)
    requires |ls| == LISTS && k < |ls[0]| && Fits(m, n, ls[0][k], pages)
    ensures |r| == LISTS
  {
    ls[0 := if m[ls[0][k]].slab.n > pages then ls[0][k := ls[0][k] + pages] else Without(ls[0], k)]
  }

  ghost function AllocatedHeads(head: seq<int>, h: int, len: nat, pages: nat): (head': seq<int>)
    ensures |head'| == |head|
  {
    seq(|head|, i requires 0 <= i < |head| =>
      if h <= i < h + pages then h else if h + pages <= i < h + len then h + pages else head[i])
  }

  /** Everything the first-fit search relies on about the k-th free run. */
  lemma FreeListFacts(m: Table, n: nat, head: seq<int>, ls: seq<seq<int>>, k: nat)
    requires PagesValid(m, n, head, ls) && k < |ls[0]|
    ensures var h := ls[0][k]; 0 <= h < n && head[h] == h && FreeHead(m[h]) && Linked(m, h)
    ensures var h := ls[0][k]; h + m[h].slab.n <= n && Covers(head, h, h + m[h].slab.n)
    ensures var h := ls[0][k]; m[h].next == At(ls[0], n, k + 1) && m[h].next != h && m[h].prev != h
  {
    hide Ring, Apart, Partition;
    var h := ls[0][k];
    assert h in ls[0];
    RingsLinked(m, n, ls, 0, k);
    assert Ring(m, n + 0, ls[0]);
    RingNotSelf(m, n, ls[0], k);
    HeadFacts(m, n, head, ls, h);
  }

  lemma InsideAbsent(m: Table, n: nat, head: seq<int>, ls: seq<seq<int>>, h: int, i: int)
    requires PagesValid(m, n, head, ls) && 0 <= h < n && head[h] == h && h < i < h + RunLength(m[h])
    ensures i < n && head[i] == h && Absent(ls, i) && m[i].next == NULL && m[i].tag == TYPE_PAGE
    ensures m[i].slab == if FreeHead(m[h]) then Count(0) else Busy
  {
    hide Rings, Homes, FreeRun;
    assert Local(m, head, h);
    assert Covers(head, h, h + RunLength(m[h]));
    assert head[i] == h;
    HeadFacts(m, n, head, ls, i);
  }

  lemma CarveRings(m: Table, n: nat, head: seq<int>, ls: seq<seq<int>>, k: nat, pages: nat)
    requires PagesValid(m, n, head, ls) && k < |ls[0]| && Fits(m, n, ls[0][k], pages)
    ensures Rings(Carved(m, n, ls[0][k], pages), n, AllocatedLists(m, n, ls, k, pages))
    ensures Absent(AllocatedLists(m, n, ls, k, pages), ls[0][k])
  {
    hide Ring, Apart, Replaced, Unlinked, Partition, Homes;
    var h := ls[0][k];
    var len, q := m[h].slab.n, h + pages;
    FreeListFacts(m, n, head, ls, k);
    if len > pages {
      var m1 := Remainder(m, n, h, pages);
      InsideAbsent(m, n, head, ls, h, q);
      InsideAbsent(m, n, head, ls, h, h + len - 1);
      RingsFrame(m, m1, n, ls);
      RingsReplace(m1, n, ls, 0, k, q);
    } else {
      RingsUnlink(m, n, ls, 0, k);
    }
  }

  lemma AllocateRings(m: Table, n: nat, head: seq<int>, ls: seq<seq<int>>, k: nat, pages: nat)
    requires PagesValid(m, n, head, ls) && k < |ls[0]| && Fits(m, n, ls[0][k], pages)
    ensures Rings(AllocatedAt(m, n, ls[0][k], pages), n, AllocatedLists(m, n, ls, k, pages))
  {
    hide Ring, Apart, Carved, Partition, Homes;
    var h := ls[0][k];
    FreeListFacts(m, n, head, ls, k);
    CarveRings(m, n, head, ls, k, pages);
    var m1, ls' := Carved(m, n, h, pages), AllocatedLists(m, n, ls, k, pages);
    var m' := AllocatedAt(m, n, h, pages);
    forall j, x | 0 <= j < LISTS && x in ls'[j] ensures 0 <= x < |m| && m'[x] == m1[x] {
      assert x in ls[j] || (j == 0 && x == h + pages) by {
        AllocatedMembers(m, n, ls, k, pages, j, x);
      }
      if h < x < h + pages {
        InsideAbsent(m, n, head, ls, h, x);
        assert false;
      }
    }
    RingsFrame(m1, m', n, ls');
  }

  lemma AllocatedMembers(m: Table, n: nat, ls: seq<seq<int>>, k: nat, pages: nat, j: nat, x: int)
    requires |ls| == LISTS && k < |ls[0]| && Fits(m, n, ls[0][k], pages) && j < LISTS
    requires x in AllocatedLists(m, n, ls, k, pages)[j]
    ensures x in ls[j] || (j == 0 && x == ls[0][k] + pages)
  {
  }

  /** Page i after the allocation. */
  ghost predicate AllocatedShape(m: Table, head: seq<int>, m': Table, h: int, len: nat, pages: nat, i: int)
    requires 0 <= i < |head| <= |m| == |m'|
  {
    if h <= i < h + pages then
      m'[i] == TakenAt(m[i], i, h, pages)
    else if h + pages <= i < h + len then
      && m'[i].tag == TYPE_PAGE
      && (if i == h + pages then m'[i].slab == Count(len - pages) && m'[i].next != NULL
          else m'[i].slab == Count(0) && m'[i].next == NULL)
      && (i == h + len - 1 && i != h + pages ==> m'[i].prev == h + pages)
    else
      Same(m[i], m'[i]) && (head[i] != i ==> m'[i].prev == m[i].prev)
  }

  lemma CarvedShape(m: Table, n: nat, head: seq<int>, ls: seq<seq<int>>, k: nat, pages: nat, i: int)
    requires PagesValid(m, n, head, ls) && k < |ls[0]| && Fits(m, n, ls[0][k], pages)
    requires 0 <= i < n && !(ls[0][k] <= i < ls[0][k] + pages)
    ensures AllocatedShape(m, head, Carved(m, n, ls[0][k], pages), ls[0][k], m[ls[0][k]].slab.n, pages, i)
  {
    hide Ring, Apart, Partition, Homes, Replaced, Unlinked, Local;
    var h := ls[0][k];
    var len, q := m[h].slab.n, h + pages;
    var m' := Carved(m, n, h, pages);
    FreeListFacts(m, n, head, ls, k);
    if h < i < h + len {
      InsideAbsent(m, n, head, ls, h, i);
    }
    NeighbourFacts(m, n, head, ls, 0, k);
    if len > pages {
      InsideAbsent(m, n, head, ls, h, q);
      InsideAbsent(m, n, head, ls, h, h + len - 1);
      ReplacedAt(Remainder(m, n, h, pages), h, q, i);
    } else {
      UnlinkedAt(m, h, i);
    }
  }

  /** The neighbours of a listed page are linked heads of the same list. */
  lemma NeighbourFacts(m: Table, n: nat, head: seq<int>, ls: seq<seq<int>>, j: nat, k: nat)
    requires PagesValid(m, n, head, ls) && j < LISTS && k < |ls[j]|
    ensures var i := ls[j][k]; Linked(m, i) && m[i].next != i && m[i].prev != i
    ensures var x := m[ls[j][k]].next;
            x == n + j || (0 <= x < n && x in ls[j] && head[x] == x && m[x].next != NULL && Home(m[x]) == j
                && m[x].tag == TagOf(j))
    ensures var x := m[ls[j][k]].prev;
            x == n + j || (0 <= x < n && x in ls[j] && head[x] == x && m[x].next != NULL && Home(m[x]) == j
                && m[x].tag == TagOf(j))
  {
    hide Ring, Apart, Partition, Local;
    RingsLinked(m, n, ls, j, k);
    RingNotSelf(m, n + j, ls[j], k);
    if k + 1 < |ls[j]| {
      RingsLinked(m, n, ls, j, k + 1);
      HeadFacts(m, n, head, ls, ls[j][k + 1]);
      assert AtHome(m, n, j, ls[j][k + 1]);
    }
    if k > 0 {
      RingsLinked(m, n, ls, j, k - 1);
      HeadFacts(m, n, head, ls, ls[j][k - 1]);
      assert AtHome(m, n, j, ls[j][k - 1]);
    }
  }

  lemma RingNotSelf(m: Table, s: int, l: seq<int>, k: nat)
    requires Ring(m, s, l) && k < |l|
    ensures m[l[k]].next != l[k] && m[l[k]].prev != l[k]
  {
    RingMember(m, s, l, k);
    RingApart(m, s, l, k + 1, k);
    RingApart(m, s, l, k - 1, k);
  }

  lemma AllocateShapes(m: Table, n: nat, head: seq<int>, ls: seq<seq<int>>, k: nat, pages: nat, i: int)
    requires PagesValid(m, n, head, ls) && k < |ls[0]| && Fits(m, n, ls[0][k], pages) && 0 <= i < n
    ensures AllocatedShape(m, head, AllocatedAt(m, n, ls[0][k], pages), ls[0][k], m[ls[0][k]].slab.n, pages, i)
  {
    hide Rings, Homes, Carved, Local;
    var h := ls[0][k];
    if !(h <= i < h + pages) {
      CarvedShape(m, n, head, ls, k, pages, i);
    }
  }

  lemma AllocatePartition(m: Table, n: nat, head: seq<int>, ls: seq<seq<int>>, k: nat, pages: nat)
    requires PagesValid(m, n, head, ls) && k < |ls[0]| && Fits(m, n, ls[0][k], pages)
    ensures Partition(AllocatedAt(m, n, ls[0][k], pages), n, AllocatedHeads(head, ls[0][k], m[ls[0][k]].slab.n, pages))
  {
    hide Rings, Homes, Local, AllocatedAt;
    var h := ls[0][k];
    var len := m[h].slab.n;
    var m' := AllocatedAt(m, n, h, pages);
    var head' := AllocatedHeads(head, h, len, pages);
    FreeListFacts(m, n, head, ls, k);
    forall i | 0 <= i < n ensures AllocatedShape(m, head, m', h, len, pages, i) {
      AllocateShapes(m, n, head, ls, k, pages, i);
    }
    NextRunHead(m, n, head, h);
    forall i | h <= i < h + len ensures Local(m', head', i) {
      AllocateLocal(m, n, head, h, pages, m', head', i);
    }
    AllocateOutside(m, head, h, len, pages, m', head');
    RePartition(m, n, head, m', head', h, h + len);
  }

  lemma AllocateOutside(m: Table, head: seq<int>, h: int, len: nat, pages: nat, m': Table, head': seq<int>)
    requires |head| <= |m| == |m'| && 0 <= h && h + len <= |head| && 1 <= pages <= len
    requires head[h] == h && (h + len < |head| ==> head[h + len] == h + len)
    requires forall x :: 0 <= x < |head| ==> AllocatedShape(m, head, m', h, len, pages, x)
    requires head' == AllocatedHeads(head, h, len, pages)
    ensures Outside(m, head, m', head', h, h + len)
    ensures !FreeHead(m'[h])
  {
    assert AllocatedShape(m, head, m', h, len, pages, h);
    forall i | 0 <= i < |head| && !(h <= i < h + len)
      ensures head'[i] == head[i] && Same(m[i], m'[i]) && (head[i] != i ==> m'[i].prev == m[i].prev)
    {
      assert AllocatedShape(m, head, m', h, len, pages, i);
    }
  }

  lemma AllocateLocal(m: Table, n: nat, head: seq<int>, h: int, pages: nat, m': Table, head': seq<int>, i: int)
    requires Partition(m, n, head) && 0 <= h < n && head[h] == h && FreeHead(m[h]) && |m'| == |m|
    requires 1 <= pages <= m[h].slab.n && h <= i < h + m[h].slab.n <= n
    requires forall x :: 0 <= x < n ==> AllocatedShape(m, head, m', h, m[h].slab.n, pages, x)
    requires head' == AllocatedHeads(head, h, m[h].slab.n, pages)
    ensures Local(m', head', i)
  {
    var len, q, e := m[h].slab.n, h + pages, h + m[h].slab.n;
    assert Local(m, head, h);
    assert FreeRun(m, n, h);
    assert AllocatedShape(m, head, m', h, len, pages, i);
    assert AllocatedShape(m, head, m', h, len, pages, h);
    if i < q {
      assert Covers(head', h, q);
    } else {
      assert AllocatedShape(m, head, m', h, len, pages, q);
      assert AllocatedShape(m, head, m', h, len, pages, e - 1);
      assert Covers(head', q, e);
      if e < n {
        assert AllocatedShape(m, head, m', h, len, pages, e);
      }
      assert FreeRun(m', n, q);
    }
  }

  lemma NextRunHead(m: Table, n: nat, head: seq<int>, h: int)
    requires Partition(m, n, head) && 0 <= h < n && head[h] == h
    ensures h + RunLength(m[h]) <= n
    ensures h + RunLength(m[h]) < n ==> head[h + RunLength(m[h])] == h + RunLength(m[h])
  {
    assert Local(m, head, h);
    var e := h + RunLength(m[h]);
    assert Covers(head, h, e);
    if e < n {
      assert Local(m, head, e);
      var g := head[e];
      assert Local(m, head, g);
    }
  }

  lemma AllocateHomes(m: Table, n: nat, head: seq<int>, ls: seq<seq<int>>, k: nat, pages: nat)
    requires PagesValid(m, n, head, ls) && k < |ls[0]| && Fits(m, n, ls[0][k], pages)
    ensures Homes(AllocatedAt(m, n, ls[0][k], pages), n, AllocatedLists(m, n, ls, k, pages))
  {
    hide Ring, Apart, Partition, Local, AllocatedAt, AllocatedLists, Covers, FreeRun;
    var h := ls[0][k];
    var len := m[h].slab.n;
    var m', ls' := AllocatedAt(m, n, h, pages), AllocatedLists(m, n, ls, k, pages);
    FreeListFacts(m, n, head, ls, k);
    AllocatedMembership(m, n, head, ls, k, pages);
    forall j, x | 0 <= j < LISTS && x in ls'[j] ensures AtHome(m', n, j, x) {
      if x in ls[j] {
        HeadFacts(m, n, head, ls, x);
        AllocateShapes(m, n, head, ls, k, pages, x);
        if h < x < h + len {
          InsideAbsent(m, n, head, ls, h, x);
        }
      } else {
        AllocateShapes(m, n, head, ls, k, pages, h + pages);
      }
    }
    forall i | 0 <= i < n && m'[i].next != NULL ensures i in ls'[Home(m'[i])] {
      AllocateShapes(m, n, head, ls, k, pages, i);
      if h < i < h + len {
        InsideAbsent(m, n, head, ls, h, i);
      } else {
        assert i in ls[Home(m[i])];
      }
    }
  }

  lemma AllocatedMembership(m: Table, n: nat, head: seq<int>, ls: seq<seq<int>>, k: nat, pages: nat)
    requires PagesValid(m, n, head, ls) && k < |ls[0]| && Fits(m, n, ls[0][k], pages)
    ensures var ls', h := AllocatedLists(m, n, ls, k, pages), ls[0][k];
            forall j, x :: 0 <= j < LISTS ==>
              (x in ls'[j] <==> (x in ls[j] && x != h) || (j == 0 && pages < m[h].slab.n && x == h + pages))
  {
    hide Partition, Local, Covers, FreeRun, Homes, Ring, Distinct, Without;
    var h := ls[0][k];
    var len := m[h].slab.n;
    FreeListFacts(m, n, head, ls, k);
    ListDistinct(m, n, ls, 0);
    assert h in ls[0];
    if pages < len {
      InsideAbsent(m, n, head, ls, h, h + pages);
      ReplaceMembers(ls[0], k, h + pages);
    } else {
      WithoutDistinct(ls[0], k);
    }
  }

  lemma ListDistinct(m: Table, n: nat, ls: seq<seq<int>>, j: nat)
    requires Rings(m, n, ls) && j < LISTS
    ensures Distinct(ls[j])
  {
    assert Ring(m, n + j, ls[j]);
  }

  /** Taking pages off a free run keeps every invariant of the page layer. */
  lemma AllocateValid(m: Table, n: nat, head: seq<int>, ls: seq<seq<int>>, k: nat, pages: nat)
    requires PagesValid(m, n, head, ls) && k < |ls[0]| && Fits(m, n, ls[0][k], pages)
    ensures PagesValid(AllocatedAt(m, n, ls[0][k], pages), n,
                       AllocatedHeads(head, ls[0][k], m[ls[0][k]].slab.n, pages), AllocatedLists(m, n, ls, k, pages))
  {
    AllocateHomes(m, n, head, ls, k, pages);
    AllocatePartition(m, n, head, ls, k, pages);
    AllocateRings(m, n, head, ls, k, pages);
  }

  // ------------------------------------------------------ giving pages back

  /** While pages are given back, [a, e) is a run that is in no list yet; the
      rest is as it was in m0. */
  ghost predicate Floating(m0: Table, n: nat, head: seq<int>, ls0: seq<seq<int>>,
                           m: Table, ls: seq<seq<int>>, a: int, e: int)
  {
    && |ls| == |ls0| == LISTS && |m| == |m0| == n + LISTS && |head| == n
    && 0 <= a < e <= n && head[a] == a && (e < n ==> head[e] == e)
    && Rings(m, n, ls)
    && (forall j, x :: 0 <= j < LISTS ==> (x in ls[j] <==> x in ls0[j] && !(a <= x < e)))
    && (forall i :: 0 <= i < n && !(a <= i < e) ==> Kept(m0[i], m[i], head[i] != i))
    && m[a].slab == Count(e - a)
    && (forall i :: a < i < e ==> m[i].slab == Count(0) && m[i].tag == TYPE_PAGE && m[i].next == NULL)
  }

  predicate Kept(d: Desc, d': Desc, inside: bool) {
    Same(d, d') && (inside ==> d'.prev == d.prev)
  }

  function Cleared(m: Table, p: int, pages: nat): (m': Table)
    requires 0 <= p && 1 <= pages && p + pages <= |m|
    ensures |m'| == |m|
  {
    seq(|m|, i requires 0 <= i < |m| =>
      if i == p then m[p].(slab := Count(pages)) else if p < i < p + pages then ZERO else m[i])
  }

  /** ngx_slab_free_pages up to the first test for a neighbour. */
  function Detached(m: Table, p: int, pages: nat): (m': Table)
    requires 0 <= p && 1 <= pages && p + pages <= |m|
    requires m[p].next != NULL ==> Linked(m, p)
    ensures |m'| == |m|
  {
    var m1 := Cleared(m, p, pages);
    if m[p].next != NULL then Unlinked(m1, p) else m1
  }

  ghost function Removed(ls: seq<seq<int>>, j: nat, x: int): (r: seq<seq<int>>)
    requires j < |ls| && x in ls[j]
    ensures |r| == |ls|
  {
    var k :| 0 <= k < |ls[j]| && ls[j][k] == x;
    ls[j := Without(ls[j], k)]
  }

  /** Unlink a page from the list it is in. */
  lemma RemovedRings(m: Table, n: nat, ls: seq<seq<int>>, j: nat, x: int)
    requires Rings(m, n, ls) && j < LISTS && x in ls[j]
    ensures Linked(m, x) && Rings(Unlinked(m, x), n, Removed(ls, j, x))
    ensures m[x].next != x && m[x].prev != x
    ensures forall b, y :: 0 <= b < LISTS ==> (y in Removed(ls, j, x)[b] <==> y in ls[b] && y != x)
  {
    hide Ring, Unlinked, Without, Linked;
    var k :| 0 <= k < |ls[j]| && ls[j][k] == x && Removed(ls, j, x) == ls[j := Without(ls[j], k)];
    RingsLinked(m, n, ls, j, k);
    RingsUnlink(m, n, ls, j, k);
    assert Ring(m, n + j, ls[j]);
    RingNotSelf(m, n + j, ls[j], k);
  }

  lemma UnlinkKeeps(m: Table, n: nat, ls: seq<seq<int>>, j: nat, x: int, i: int)
    requires Rings(m, n, ls) && j < LISTS && x in ls[j] && Linked(m, x) && 0 <= i < n
    requires i in ls[j] ==> m[i].tag == m[x].tag
    ensures Kept(m[i], Unlinked(m, x)[i], i !in ls[j])
  {
    hide Ring, Unlinked, Linked;
    var k :| 0 <= k < |ls[j]| && ls[j][k] == x;
    RingsLinked(m, n, ls, j, k);
    UnlinkedAt(m, x, i);
    if i in ls[j] {
      var c :| 0 <= c < |ls[j]| && ls[j][c] == i;
      RingsLinked(m, n, ls, j, c);
      LinkedNotNull(m, x);
      LinkedNotNull(m, i);
    }
  }

  lemma LinkedNotNull(m: Table, i: int)
    requires Linked(m, i)
    ensures 0 <= i < |m| && m[i].next != NULL && 0 <= m[i].next < |m| && 0 <= m[i].prev < |m|
  {
  }

  lemma {:induction false} DetachFloats(m0: Table, n: nat, head: seq<int>, ls0: seq<seq<int>>, p: int, pages: nat)
    returns (ls: seq<seq<int>>)
    requires PagesValid(m0, n, head, ls0) && 0 <= p < n && head[p] == p && pages == RunLength(m0[p])
    ensures p + pages <= n && 1 <= pages
    ensures m0[p].next != NULL ==> Linked(m0, p) && m0[p].next != p && m0[p].prev != p
    ensures Floating(m0, n, head, ls0, Detached(m0, p, pages), ls, p, p + pages)
  {
    hide Ring, Apart, Unlinked, Linked, Local, Partition, Cleared, FreeRun;
    RunFacts(m0, n, head, ls0, p);
    var e := p + pages;
    var m1 := Cleared(m0, p, pages);
    ClearedRings(m0, n, head, ls0, p, pages);
    var j := Home(m0[p]);
    ls := if m0[p].next != NULL then Removed(ls0, j, p) else ls0;
    if m0[p].next != NULL {
      RemovedRings(m0, n, ls0, j, p);
      RemovedRings(m1, n, ls0, j, p);
    } else {
      RingsMembersLinked(m0, n, ls0, p);
    }
    var m := Detached(m0, p, pages);
    forall b, x | 0 <= b < LISTS ensures x in ls[b] <==> x in ls0[b] && !(p <= x < e) {
      if p < x < e {
        InsideAbsent(m0, n, head, ls0, p, x);
      }
    }
    forall i | 0 <= i < n
      ensures !(p <= i < e) ==> Kept(m0[i], m[i], head[i] != i)
      ensures i == p ==> m[i].slab == Count(pages)
      ensures p < i < e ==> m[i].slab == Count(0) && m[i].tag == TYPE_PAGE && m[i].next == NULL
    {
      DetachedAt(m0, n, head, ls0, p, pages, i);
    }
  }

  lemma RunFacts(m: Table, n: nat, head: seq<int>, ls: seq<seq<int>>, p: int)
    requires PagesValid(m, n, head, ls) && 0 <= p < n && head[p] == p
    ensures 1 <= RunLength(m[p]) && p + RunLength(m[p]) <= n && Head(m[p])
    ensures p + RunLength(m[p]) < n ==> head[p + RunLength(m[p])] == p + RunLength(m[p])
    ensures m[p].next != NULL ==> Linked(m, p) && p in ls[Home(m[p])] && m[p].next != p && m[p].prev != p
  {
    hide Rings, FreeRun;
    NextRunHead(m, n, head, p);
    assert Local(m, head, p);
    if m[p].next != NULL {
      assert p in ls[Home(m[p])];
      RemovedRings(m, n, ls, Home(m[p]), p);
    }
  }

  lemma ClearedRings(m: Table, n: nat, head: seq<int>, ls: seq<seq<int>>, p: int, pages: nat)
    requires PagesValid(m, n, head, ls) && 0 <= p < n && head[p] == p && pages == RunLength(m[p]) && 1 <= pages
               && p + pages <= n
    ensures Rings(Cleared(m, p, pages), n, ls)
  {
    hide Ring, Apart, Local, Partition, FreeRun;
    forall j, x | 0 <= j < LISTS && x in ls[j] ensures 0 <= x < n && !(p < x < p + pages) {
      if p < x < p + pages {
        InsideAbsent(m, n, head, ls, p, x);
      }
    }
    RingsFrame(m, Cleared(m, p, pages), n, ls);
  }

  lemma DetachedAt(m: Table, n: nat, head: seq<int>, ls: seq<seq<int>>, p: int, pages: nat, i: int)
    requires PagesValid(m, n, head, ls) && 0 <= p < n && head[p] == p && pages == RunLength(m[p]) && 1 <= pages
               && p + pages <= n
    requires m[p].next != NULL ==> Linked(m, p) && p in ls[Home(m[p])]
    requires 0 <= i < n
    ensures !(p <= i < p + pages) ==> Kept(m[i], Detached(m, p, pages)[i], head[i] != i)
    ensures i == p ==> Detached(m, p, pages)[i].slab == Count(pages)
    ensures p < i < p + pages ==> Detached(m, p, pages)[i] == ZERO
  {
    hide Ring, Apart, Local, Partition, FreeRun, Unlinked;
    ClearedRings(m, n, head, ls, p, pages);
    var m1, j := Cleared(m, p, pages), Home(m[p]);
    HeadFacts(m, n, head, ls, i);
    if m[p].next != NULL {
      UnlinkKeeps(m1, n, ls, j, p, i);
      if p < i < p + pages {
        InsideAbsent(m, n, head, ls, p, i);
        UnlinkLeaves(m1, n, ls, j, p, i);
      }
    }
  }

  lemma UnlinkLeaves(m: Table, n: nat, ls: seq<seq<int>>, j: nat, x: int, i: int)
    requires Rings(m, n, ls) && j < LISTS && x in ls[j] && Linked(m, x) && 0 <= i < n && i !in ls[j]
    ensures Unlinked(m, x)[i] == m[i]
  {
    hide Ring, Unlinked, Linked;
    var k :| 0 <= k < |ls[j]| && ls[j][k] == x;
    RingsLinked(m, n, ls, j, k);
    UnlinkedAt(m, x, i);
  }

  predicate JoinsRight(m: Table, n: nat, p: int)
    requires 0 <= p < n <= |m| && m[p].slab.Count?
  {
    var q := p + m[p].slab.n;
    q < n && m[q].tag == TYPE_PAGE && m[q].next != NULL
  }

  /** Append the free run that follows the run at p. */
  function JoinedRight(m: Table, n: nat, p: int): (m': Table)
    requires 0 <= p < n <= |m| && m[p].slab.Count? && JoinsRight(m, n, p)
    requires var q := p + m[p].slab.n; q != p && Linked(m, q) && m[q].slab.Count?
    ensures |m'| == |m|
  {
    var q := p + m[p].slab.n;
    var m1 := m[p := m[p].(slab := Count(m[p].slab.n + m[q].slab.n))];
    Unlinked(m1, q)[q := ZERO]
  }

  /** A free run has no free neighbour. */
  lemma NoAdjacentFree(m: Table, n: nat, head: seq<int>, ls: seq<seq<int>>, h: int)
    requires PagesValid(m, n, head, ls) && 0 <= h < n && head[h] == h && FreeHead(m[h])
    ensures h + m[h].slab.n < n ==> !FreeHead(m[h + m[h].slab.n])
    ensures !AfterFree(m, head, h)
  {
    hide Rings, Homes, Covers;
    assert Local(m, head, h);
    assert FreeRun(m, n, h);
    if h > 0 {
      RunEndsAt(m, n, head, h);
      assert Local(m, head, h - 1);
      assert Local(m, head, head[h - 1]);
    }
  }

  /** The free run after the floating one is found where the code looks. */
  lemma RightNeighbour(m0: Table, n: nat, head: seq<int>, ls0: seq<seq<int>>, m: Table, ls: seq<seq<int>>, a: int,
                       e: int)
    requires PagesValid(m0, n, head, ls0) && Floating(m0, n, head, ls0, m, ls, a, e)
    ensures JoinsRight(m, n, a) <==> e < n && FreeHead(m0[e])
    ensures e < n && FreeHead(m0[e]) ==>
      && m[e].slab == m0[e].slab && m[e].tag == TYPE_PAGE
      && e in ls[0] && Linked(m, e) && m[e].prev != e && e + m0[e].slab.n <= n && m[e].slab.n == RunLength(m0[e])
      && (e + m0[e].slab.n < n ==> head[e + m0[e].slab.n] == e + m0[e].slab.n && !FreeHead(m0[e + m0[e].slab.n]))
  {
    hide Ring, Apart, Partition, FreeRun, Covers;
    if e < n {
      RunFacts(m0, n, head, ls0, e);
      HeadFacts(m0, n, head, ls0, e);
      assert Kept(m0[e], m[e], head[e] != e);
      if FreeHead(m0[e]) {
        assert e in ls[0];
        RemovedRings(m, n, ls, 0, e);
        NoAdjacentFree(m0, n, head, ls0, e);
      }
    }
  }

  lemma JoinRightFloats(m0: Table, n: nat, head: seq<int>, ls0: seq<seq<int>>, m: Table, ls: seq<seq<int>>, a: int,
                        e: int, w: nat, m': Table)
    returns (ls': seq<seq<int>>)
    requires 0 <= a < e < n <= |m| && m[a].slab == Count(e - a) && m[e].slab == Count(w)
    requires JoinsRight(m, n, a) && Linked(m, e) && m' == JoinedRight(m, n, a)
    requires PagesValid(m0, n, head, ls0) && Floating(m0, n, head, ls0, m, ls, a, e)
    ensures Floating(m0, n, head, ls0, m', ls', a, e + w)
  {
    hide Ring, Apart, Partition, Local, FreeRun, Covers, Unlinked, Linked;
    RightNeighbour(m0, n, head, ls0, m, ls, a, e);
    var e' := e + w;
    var m1 := m[a := m[a].(slab := Count(m[a].slab.n + m[e].slab.n))];
    RingsFrame(m, m1, n, ls);
    RemovedRings(m1, n, ls, 0, e);
    ls' := Removed(ls, 0, e);
    var m2 := Unlinked(m1, e);
    hide Removed, JoinedRight;
    RingsFrame(m2, m', n, ls');
    forall b, x | 0 <= b < LISTS ensures x in ls'[b] <==> x in ls0[b] && !(a <= x < e') {
      assert x in ls[b] <==> x in ls0[b] && !(a <= x < e);
      if e < x < e' {
        InsideAbsent(m0, n, head, ls0, e, x);
      }
    }
    forall i | 0 <= i < n && i != e
      ensures Kept(m1[i], m'[i], i !in ls[0])
    {
      FloatingTag(m0, n, head, ls0, m, ls, a, e, i);
      UnlinkKeeps(m1, n, ls, 0, e, i);
    }
    forall i | e < i < e'
      ensures m'[i].slab == Count(0) && m'[i].tag == TYPE_PAGE && m'[i].next == NULL
    {
      InsideAbsent(m0, n, head, ls0, e, i);
      assert Kept(m0[i], m[i], head[i] != i);
    }
    forall i | 0 <= i < n && !(a <= i < e') ensures Kept(m0[i], m'[i], head[i] != i) {
      assert Kept(m0[i], m[i], head[i] != i);
      if head[i] != i {
        HeadFacts(m0, n, head, ls0, i);
      }
    }
  }

  /** The pages still in the free list have the page type of free pages. */
  lemma FloatingTag(m0: Table, n: nat, head: seq<int>, ls0: seq<seq<int>>, m: Table, ls: seq<seq<int>>, a: int,
                    e: int, i: int)
    requires PagesValid(m0, n, head, ls0) && Floating(m0, n, head, ls0, m, ls, a, e) && 0 <= i < n
    ensures i in ls[0] ==> m[i].tag == TYPE_PAGE && !(a <= i < e)
  {
    hide Rings, Partition, Local;
    if i in ls[0] {
      assert i in ls0[0] && !(a <= i < e);
      assert Kept(m0[i], m[i], head[i] != i);
    }
  }

  /** The page that is taken for the head of the run before p: through the back
      link when the page before p looks like the inside of a free run. */
  function LeftHead(m: Table, p: int): int
    requires 0 < p <= |m|
  {
    if m[p - 1].slab == Count(0) then m[p - 1].prev else p - 1
  }

  /** Append the run at p to the free run at g. */
  function JoinedLeft(m: Table, p: int, g: int): (m': Table)
    requires 0 <= g < p < |m| && m[p].slab.Count? && m[g].slab.Count? && Linked(m, g)
    ensures |m'| == |m|
  {
    var m1 := m[g := m[g].(slab := Count(m[g].slab.n + m[p].slab.n))];
    Unlinked(m1, g)[p := ZERO]
  }

  lemma LeftNeighbour(m0: Table, n: nat, head: seq<int>, ls0: seq<seq<int>>, m: Table, ls: seq<seq<int>>, a: int,
                      e: int)
    requires PagesValid(m0, n, head, ls0) && Floating(m0, n, head, ls0, m, ls, a, e) && a > 0
    ensures m[a - 1].tag == TYPE_PAGE ==> 0 <= LeftHead(m, a) < n
    ensures m[a - 1].tag == TYPE_PAGE && m[LeftHead(m, a)].next != NULL <==> AfterFree(m0, head, a)
    ensures AfterFree(m0, head, a) ==>
      var g := head[a - 1];
      && LeftHead(m, a) == g && 0 <= g < a && head[g] == g
      && m[g].slab == m0[g].slab == Count(a - g) && RunLength(m0[g]) == a - g && m[g].tag == TYPE_PAGE
      && g in ls[0] && Linked(m, g) && m[g].prev != g && FreeHead(m0[g]) && !AfterFree(m0, head, g)
  {
    hide Ring, Apart, Partition, Covers;
    var g := head[a - 1];
    HeadFacts(m0, n, head, ls0, a - 1);
    HeadFacts(m0, n, head, ls0, g);
    RunEndsAt(m0, n, head, a);
    assert Kept(m0[g], m[g], head[g] != g);
    assert Kept(m0[a - 1], m[a - 1], head[a - 1] != a - 1);
    if FreeHead(m0[g]) {
      assert FreeRun(m0, n, g);
      assert g in ls[0];
      RemovedRings(m, n, ls, 0, g);
      NoAdjacentFree(m0, n, head, ls0, g);
    }
  }

  lemma RunEndsAt(m: Table, n: nat, head: seq<int>, a: int)
    requires Partition(m, n, head) && 0 < a < n && head[a] == a
    ensures 0 <= head[a - 1] < a && head[a - 1] + RunLength(m[head[a - 1]]) == a
  {
    hide FreeRun;
    var g := head[a - 1];
    assert Local(m, head, a - 1);
    assert Local(m, head, g);
    CoversNoOther(head, g, g + RunLength(m[g]), a);
  }

  lemma JoinLeftFloats(m0: Table, n: nat, head: seq<int>, ls0: seq<seq<int>>, m: Table, ls: seq<seq<int>>, a: int,
                       e: int, g: int, m': Table)
    returns (ls': seq<seq<int>>)
    requires 0 <= g < a < e <= n < |m| && m[a].slab == Count(e - a) && m[g].slab == Count(a - g)
    requires Linked(m, g) && m' == JoinedLeft(m, a, g)
    requires PagesValid(m0, n, head, ls0) && Floating(m0, n, head, ls0, m, ls, a, e)
    requires g == head[a - 1] && AfterFree(m0, head, a)
    ensures Floating(m0, n, head, ls0, m', ls', g, e)
  {
    hide Ring, Apart, Partition, Local, FreeRun, Covers, Unlinked, Linked;
    LeftNeighbour(m0, n, head, ls0, m, ls, a, e);
    var m1 := m[g := m[g].(slab := Count(m[g].slab.n + m[a].slab.n))];
    RingsFrame(m, m1, n, ls);
    RemovedRings(m1, n, ls, 0, g);
    ls' := Removed(ls, 0, g);
    var m2 := Unlinked(m1, g);
    hide Removed, JoinedLeft;
    RingsFrame(m2, m', n, ls');
    forall b, x | 0 <= b < LISTS ensures x in ls'[b] <==> x in ls0[b] && !(g <= x < e) {
      assert x in ls[b] <==> x in ls0[b] && !(a <= x < e);
      if g < x < a {
        InsideAbsent(m0, n, head, ls0, g, x);
      }
    }
    forall i | 0 <= i < n && i != a && i != g
      ensures Kept(m1[i], m'[i], i !in ls[0])
    {
      FloatingTag(m0, n, head, ls0, m, ls, a, e, i);
      UnlinkKeeps(m1, n, ls, 0, g, i);
    }
    forall i | g < i < e
      ensures m'[i].slab == Count(0) && m'[i].tag == TYPE_PAGE && m'[i].next == NULL
    {
      if i < a {
        InsideAbsent(m0, n, head, ls0, g, i);
        assert Kept(m0[i], m[i], head[i] != i);
      }
    }
    forall i | 0 <= i < n && !(g <= i < e) ensures Kept(m0[i], m'[i], head[i] != i) {
      assert Kept(m0[i], m[i], head[i] != i);
      if head[i] != i {
        HeadFacts(m0, n, head, ls0, i);
      }
    }
    assert m'[g].slab == Count(e - g) by {
      UnlinkKeeps(m1, n, ls, 0, g, g);
    }
  }

  /** Set the back link of the tail and put the run first in the free list. */
  function Sealed(m: Table, n: nat, a: int): (m': Table)
    requires 0 <= a < n < |m| && m[a].slab.Count? && 1 <= m[a].slab.n && a + m[a].slab.n <= n
    requires 0 <= m[n].next < |m|
    ensures |m'| == |m|
  {
    Pushed(Tailed(m, a), n, a, TYPE_PAGE)
  }

  function Tailed(m: Table, a: int): (m': Table)
    requires 0 <= a < |m| && m[a].slab.Count? && 1 <= m[a].slab.n && a + m[a].slab.n <= |m|
    ensures |m'| == |m|
  {
    var t := m[a].slab.n - 1;
    if t > 0 then SetPrev(m, a + t, a, TYPE_PAGE) else m
  }

  ghost function FreedHeads(head: seq<int>, a: int, e: int): (head': seq<int>)
    ensures |head'| == |head|
  {
    seq(|head|, i requires 0 <= i < |head| => if a <= i < e then a else head[i])
  }

  ghost predicate FreedShape(m: Table, head: seq<int>, m': Table, a: int, e: int, i: int)
    requires 0 <= i < |head| <= |m| == |m'| && a < e
  {
    if i == a then m'[i].slab == Count(e - a) && m'[i].tag == TYPE_PAGE && m'[i].next != NULL
    else if a < i < e then
      && m'[i].slab == Count(0) && m'[i].tag == TYPE_PAGE && m'[i].next == NULL
      && (i == e - 1 ==> m'[i].prev == a)
    else Kept(m[i], m'[i], head[i] != i)
  }

  lemma SealRings(m: Table, n: nat, ls: seq<seq<int>>, a: int, e: int)
    requires 0 <= a < e <= n < |m| && m[a].slab == Count(e - a)
    requires Rings(m, n, ls) && forall x, j :: a <= x < e && 0 <= j < LISTS ==> x !in ls[j]
    ensures Rings(Tailed(m, a), n, ls) && 0 <= m[n].next < |m|
    ensures Rings(Sealed(m, n, a), n, ls[0 := [a] + ls[0]])
  {
    hide Ring, Apart, Pushed;
    var m1 := Tailed(m, a);
    RingsFrame(m, m1, n, ls);
    assert Absent(ls, a);
    RingsPush(m1, n, ls, 0, a, TYPE_PAGE);
  }

  lemma SealShape(m0: Table, n: nat, head: seq<int>, ls0: seq<seq<int>>, m: Table, ls: seq<seq<int>>, a: int, e: int,
                  m': Table, i: int)
    requires 0 <= a < e <= n < |m| && m[a].slab == Count(e - a) && 0 <= m[n].next < |m| && m' == Sealed(m, n, a)
    requires PagesValid(m0, n, head, ls0) && Floating(m0, n, head, ls0, m, ls, a, e) && 0 <= i < n
    ensures FreedShape(m0, head, m', a, e, i)
  {
    hide Ring, Apart, Partition, Local, FreeRun, Covers, Pushed;
    var m1 := Tailed(m, a);
    var x := m[n].next;
    FreeListHead(m, n, ls);
    assert x in ls[0] ==> x in ls0[0] && !(a <= x < e);
    assert x != a;
    PushedAt(m1, n, a, TYPE_PAGE, i);
    if i == x {
      HeadFacts(m0, n, head, ls0, x);
      FloatingTag(m0, n, head, ls0, m, ls, a, e, x);
    }
    if !(a <= i < e) {
      assert Kept(m0[i], m[i], head[i] != i);
    }
  }

  lemma FreeListHead(m: Table, n: nat, ls: seq<seq<int>>)
    requires Rings(m, n, ls)
    ensures 0 <= m[n].next < |m| && m[n].next == At(ls[0], n, 0)
    ensures m[n].next == n || (m[n].next in ls[0] && 0 <= m[n].next < n)
  {
    hide Ring, Apart;
    assert Ring(m, n + 0, ls[0]);
    RingHead(m, n, ls[0]);
  }

  lemma SealPartition(m0: Table, n: nat, head: seq<int>, m': Table, a: int, e: int)
    requires Partition(m0, n, head) && |m'| == |m0| && 0 <= a < e <= n
    requires head[a] == a && (e < n ==> head[e] == e && !FreeHead(m0[e])) && !AfterFree(m0, head, a)
    requires forall i :: 0 <= i < n ==> FreedShape(m0, head, m', a, e, i)
    ensures Partition(m', n, FreedHeads(head, a, e))
  {
    hide Local;
    var head' := FreedHeads(head, a, e);
    assert FreedShape(m0, head, m', a, e, a);
    assert FreedShape(m0, head, m', a, e, e - 1);
    assert e < n ==> FreedShape(m0, head, m', a, e, e);
    assert Covers(head', a, e);
    forall i | a <= i < e ensures Local(m', head', i) {
      assert FreedShape(m0, head, m', a, e, i);
      SealLocal(m', head', a, e, i);
    }
    forall i | 0 <= i < n && !(a <= i < e)
      ensures head'[i] == head[i] && Same(m0[i], m'[i]) && (head[i] != i ==> m'[i].prev == m0[i].prev)
    {
      assert FreedShape(m0, head, m', a, e, i);
    }
    RePartition(m0, n, head, m', head', a, e);
  }

  lemma SealLocal(m: Table, head: seq<int>, a: int, e: int, i: int)
    requires 0 <= a <= i < e <= |head| <= |m| && Covers(head, a, e)
    requires m[a].slab == Count(e - a) && m[a].tag == TYPE_PAGE && m[a].next != NULL
    requires e < |head| ==> !FreeHead(m[e]) && (a + 1 < e ==> m[e - 1].prev == a)
    requires i != a ==> m[i].slab == Count(0) && m[i].tag == TYPE_PAGE && m[i].next == NULL
    ensures Local(m, head, i)
  {
  }

  lemma SealHomes(m0: Table, n: nat, head: seq<int>, ls0: seq<seq<int>>, ls: seq<seq<int>>, a: int, e: int, m': Table)
    requires PagesValid(m0, n, head, ls0) && |m'| == |m0| && 0 <= a < e <= n && |ls| == LISTS
    requires forall j, x :: 0 <= j < LISTS ==> (x in ls[j] <==> x in ls0[j] && !(a <= x < e))
    requires forall i :: 0 <= i < n ==> FreedShape(m0, head, m', a, e, i)
    ensures Homes(m', n, ls[0 := [a] + ls[0]])
  {
    hide Partition, Local, Ring, Apart;
    var ls' := ls[0 := [a] + ls[0]];
    assert FreedShape(m0, head, m', a, e, a);
    forall j, x | 0 <= j < LISTS && x in ls'[j] ensures AtHome(m', n, j, x) {
      if x != a {
        assert x in ls[j] && x in ls0[j] && !(a <= x < e);
        assert Home(m0[x]) == j;
        assert FreedShape(m0, head, m', a, e, x);
      }
    }
    forall i | 0 <= i < n && m'[i].next != NULL ensures i in ls'[Home(m'[i])] {
      assert FreedShape(m0, head, m', a, e, i);
      if i != a {
        assert i in ls0[Home(m0[i])];
      }
    }
  }

  /** A floating run with no free neighbour goes back in one piece. */
  lemma SealValid(m0: Table, n: nat, head: seq<int>, ls0: seq<seq<int>>, m: Table, ls: seq<seq<int>>, a: int, e: int,
                  m': Table)
    requires 0 <= a < e <= n < |m| && m[a].slab == Count(e - a) && 0 <= m[n].next < |m| && m' == Sealed(m, n, a)
    requires PagesValid(m0, n, head, ls0) && Floating(m0, n, head, ls0, m, ls, a, e)
    requires (e < n ==> !FreeHead(m0[e])) && !AfterFree(m0, head, a)
    ensures PagesValid(m', n, FreedHeads(head, a, e), ls[0 := [a] + ls[0]])
    ensures forall i :: 0 <= i < n ==> FreedShape(m0, head, m', a, e, i)
  {
    hide Ring, Apart, Local, FreeRun, Covers, Sealed, Tailed, FreedHeads;
    forall i | 0 <= i < n ensures FreedShape(m0, head, m', a, e, i) {
      SealShape(m0, n, head, ls0, m, ls, a, e, m', i);
    }
    SealRings(m, n, ls, a, e);
    SealHomes(m0, n, head, ls0, ls, a, e, m');
    SealPartition(m0, n, head, m', a, e);
  }

  // ---------------------------------------------------- nothing is allocated

  /** When every run is free there is just one run, and it is the free list. */
  lemma AllFreeIsOneRun(m: Table, n: nat, head: seq<int>, ls: seq<seq<int>>)
    requires PagesValid(m, n, head, ls) && 0 < n
    requires forall i :: 0 <= i < n && head[i] == i ==> FreeHead(m[i])
    ensures m[0].slab == Count(n) && m[0].tag == TYPE_PAGE
    ensures ls[0] == [0] && forall j :: 1 <= j < LISTS ==> ls[j] == []
    ensures forall i :: 0 <= i < n ==> head[i] == 0
  {
    hide Ring, Apart, Partition, FreeRun;
    HeadFacts(m, n, head, ls, 0);
    assert FreeHead(m[0]);
    RunFacts(m, n, head, ls, 0);
    NoAdjacentFree(m, n, head, ls, 0);
    assert m[0].slab.n == n;
    assert Covers(head, 0, n);
    ListDistinct(m, n, ls, 0);
    forall j, x | 0 <= j < LISTS && x in ls[j] ensures j == 0 && x == 0 {
      HeadFacts(m, n, head, ls, x);
    }
    assert 0 in ls[0];
    OnlyElement(ls[0], 0);
    forall j | 1 <= j < LISTS ensures ls[j] == [] {
      if ls[j] != [] {
        var x := First(ls[j]);
        assert false;
      }
    }
  }

  lemma First(l: seq<int>) returns (x: int)
    requires l != []
    ensures x in l && x == l[0]
  {
    x := l[0];
  }

  lemma Second(l: seq<int>) returns (x: int)
    requires |l| > 1
    ensures x in l && x == l[1]
  {
    x := l[1];
  }

  lemma OnlyElement(l: seq<int>, x: int)
    requires Distinct(l) && x in l && forall y :: y in l ==> y == x
    ensures l == [x]
  {
    var y := First(l);
    if |l| > 1 {
      var z := Second(l);
      assert false;
    }
  }
}
