/**
 The slab pool of src/core/ngx_slab.c, updated in place.
 */
module SlabPool {
  import opened Common
  import opened Circular
  import opened SlabLists
  import opened SlabPages
  import opened SlabChunks

  lemma FloatingFacts(m0: Table, n: nat, head: seq<int>, ls0: seq<seq<int>>, m: Table, ls: seq<seq<int>>, a: int,
                      e: int)
    requires Floating(m0, n, head, ls0, m, ls, a, e)
    ensures |m| == n + LISTS && |ls| == LISTS && 0 <= a < e <= n && m[a].slab == Count(e - a)
    ensures 0 <= m[n].next < |m| && m[n].next != a
  {
    hide Ring, Apart;
    FreeListHead(m, n, ls);
  }

  predicate Small(m: Table, i: int, pages: nat) {
    0 <= i < |m| && m[i].slab.Count? && m[i].slab.n < pages
  }

  lemma Sizes(m: Table, n: nat, head: seq<int>, ls: seq<seq<int>>)
    requires PagesValid(m, n, head, ls)
    ensures |ls| == LISTS && |m| == n + LISTS && |head| == n && Rings(m, n, ls)
    ensures forall x :: x in ls[0] ==> 0 <= x < n
  {
  }

  lemma NothingFits(m: Table, n: nat, head: seq<int>, ls: seq<seq<int>>, pages: nat)
    requires PagesValid(m, n, head, ls) && forall c :: 0 <= c < |ls[0]| ==> Small(m, ls[0][c], pages)
    ensures forall i :: 0 <= i < n && FreeHead(m[i]) && head[i] == i ==> m[i].slab.n < pages
  {
    hide Partition, Rings, Homes;
    forall i | 0 <= i < n && FreeHead(m[i]) && head[i] == i ensures m[i].slab.n < pages {
      HeadFacts(m, n, head, ls, i);
      var c :| 0 <= c < |ls[0]| && ls[0][c] == i;
    }
  }

  // ---------------------------------------------------------- ngx_slab_init

  const DESC_SIZE: nat := 24       // sizeof(ngx_slab_page_t)
  const SLOTS: nat := PAGE_SHIFT - MIN_SHIFT

  /** First guess: as many pages as there are shares of a page and its descriptor. */
  function Shares(p: nat, end: int): nat { if end <= p then 0 else (end - p) / (PAGE_SIZE + DESC_SIZE) }

  /** The first page boundary that is not before x. */
  function AlignUp(x: int): (r: int)
    ensures x <= r < x + PAGE_SIZE && r % PAGE_SIZE == 0
  {
    (x + (PAGE_SIZE - 1)) / PAGE_SIZE * PAGE_SIZE
  }

  function PageStart(p: nat, end: int): int { AlignUp(p + (SLOTS + Shares(p, end)) * DESC_SIZE) }

  /** The guess, less what the alignment has eaten. */
  function PageCount(p: nat, end: int): int {
    var room := (end - PageStart(p, end)) / PAGE_SIZE;
    if Shares(p, end) - room > 0 then room else Shares(p, end)
  }

  /** The descriptors and the pages fit, and do not overlap; and of all that is given no
      more is wasted than three pages with their descriptors. */
  lemma PageArea(p: nat, end: int)
    requires 0 < p && PageCount(p, end) >= 1
    ensures var n, start := PageCount(p, end), PageStart(p, end);
            && start > 0 && start % PAGE_SIZE == 0
            && p + (SLOTS + n) * DESC_SIZE <= start && start + n * PAGE_SIZE <= end
            && end - p < (n + 3) * (PAGE_SIZE + DESC_SIZE)
            && (end - start < (n + 1) * PAGE_SIZE || end - p < (n + 1) * (PAGE_SIZE + DESC_SIZE))
            && start < p + (SLOTS + n + 3) * DESC_SIZE + PAGE_SIZE
  {
  }

  /** And there is no page at all only where there is no room for three. */
  lemma NoPageArea(p: nat, end: int)
    requires PageCount(p, end) < 1
    ensures end - p < 3 * (PAGE_SIZE + DESC_SIZE)
  {
  }

  /** One free run of all pages, and empty slots. */
  ghost predicate Initial(m: Table, n: nat, head: seq<int>, ls: seq<seq<int>>) {
    && |m| == n + LISTS && |head| == n && 1 <= n
    && |ls| == LISTS && ls[0] == [0] && (forall j :: 1 <= j < LISTS ==> ls[j] == [])
    && m[0] == Desc(Count(n), n, n, TYPE_PAGE) && m[n].next == 0
    && (forall i :: 1 <= i < n ==> m[i] == ZERO)
    && (forall i :: n < i < |m| ==> m[i].next == i)
    && (forall i :: 0 <= i < n ==> head[i] == 0)
  }

  lemma InitialPool(m: Table, n: nat, head: seq<int>, ls: seq<seq<int>>, bms: Bitmaps, start: int)
    requires Initial(m, n, head, ls) && |bms| == n && 0 < start && start % PAGE_SIZE == 0
    ensures PoolValid(m, n, head, ls, bms, start, map[])
  {
    assert ChunkPages(m, n, bms);
    forall off ensures !IsBlock(m, n, bms, off) {
    }
    hide Initial, IsBlock, ChunkPages;
    InitialPages(m, n, head, ls);
  }

  lemma InitialPages(m: Table, n: nat, head: seq<int>, ls: seq<seq<int>>)
    requires Initial(m, n, head, ls)
    ensures PagesValid(m, n, head, ls)
  {
    assert Covers(head, 0, n);
    forall i | 0 <= i < n ensures Local(m, head, i) {
    }
    assert Homes(m, n, ls);
    hide Local, Homes;
    forall j | 0 <= j < LISTS ensures Ring(m, n + j, ls[j]) {
    }
  }

  // -------------------------------------------------- facts about valid pools

  lemma PageWithRoom(m: Table, n: nat, head: seq<int>, ls: seq<seq<int>>, bms: Bitmaps, start: int,
                     live: map<int, nat>, i: int)
    requires PoolValid(m, n, head, ls, bms, start, live) && 0 <= i < n && Chunked(m[i]) && m[i].next != NULL
    ensures |ls| == LISTS && |head| == n && |m| == n + LISTS && |bms| == n
    ensures ShiftOk(m[i]) && |Bits(m[i], bms[i])| == Chunks(ShiftOf(m[i])) && !Full(Bits(m[i], bms[i]))
    ensures Linked(m, i) && m[i].prev != i && i in ls[Home(m[i])]
    ensures m[i].tag == TYPE_SMALL ==> |bms[i]| % 64 == 0
  {
    hide *;
    PoolParts(m, n, head, ls, bms, start, live);
    ListedFacts(m, n, head, ls, i);
    ChunkPageAt(m, n, bms, i);
  }

  lemma PoolParts(m: Table, n: nat, head: seq<int>, ls: seq<seq<int>>, bms: Bitmaps, start: int, live: map<int, nat>)
    requires PoolValid(m, n, head, ls, bms, start, live)
    ensures PagesValid(m, n, head, ls) && ChunkPages(m, n, bms) && Tracks(m, n, bms, start, live)
    ensures |ls| == LISTS && |head| == n && |m| == n + LISTS && |bms| == n && start > 0
  {
    hide Rings, Partition, Homes;
  }

  lemma ListedFacts(m: Table, n: nat, head: seq<int>, ls: seq<seq<int>>, i: int)
    requires PagesValid(m, n, head, ls) && 0 <= i < n && Chunked(m[i]) && m[i].next != NULL
    ensures Linked(m, i) && m[i].prev != i && i in ls[Home(m[i])]
  {
    hide Rings, Homes, Linked;
    BlockHead(m, n, head, i);
    RunFacts(m, n, head, ls, i);
  }

  lemma ChunkPageAt(m: Table, n: nat, bms: Bitmaps, i: int)
    requires ChunkPages(m, n, bms) && 0 <= i < n && Chunked(m[i])
    ensures ShiftOk(m[i]) && |Bits(m[i], bms[i])| == Chunks(ShiftOf(m[i]))
    ensures m[i].next == NULL <==> Full(Bits(m[i], bms[i]))
    ensures m[i].tag == TYPE_SMALL ==> |bms[i]| % 64 == 0
  {
    hide Full, InUse;
    assert ChunkPage(m[i], bms[i]);
  }

  lemma EmptySlot(m: Table, n: nat, head: seq<int>, ls: seq<seq<int>>, j: nat)
    requires PagesValid(m, n, head, ls) && 1 <= j < LISTS && m[n + j].next == n + j
    ensures ls[j] == []
  {
    hide Ring, Apart, Partition, Homes;
    SlotHead(m, n, ls, j);
    if ls[j] != [] {
      var x := First(ls[j]);
      assert false;
    }
  }

  /** Blocks of `size` bytes are cut from pages like d. */
  predicate Serves(d: Desc, size: nat) {
    ShiftOk(d) && size <= Size(ShiftOf(d)) && (ShiftOf(d) == MIN_SHIFT || Size(ShiftOf(d) - 1) < size)
  }

  lemma ServesOne(d: Desc, size: nat, shift: nat)
    requires Serves(d, size) && IsShift(shift) && size <= Size(shift) && (shift == MIN_SHIFT || Size(shift - 1) < size)
    ensures ShiftOf(d) == shift && Home(d) == shift - 2
  {
  }

  lemma NoneListed(m: Table, n: nat, head: seq<int>, ls: seq<seq<int>>, j: nat)
    requires PagesValid(m, n, head, ls) && j < LISTS && ls[j] == []
    ensures forall i :: 0 <= i < n && m[i].next != NULL ==> Home(m[i]) != j
  {
    hide Rings, Partition;
    forall i | 0 <= i < n && m[i].next != NULL ensures Home(m[i]) != j {
      assert i in ls[Home(m[i])];
    }
  }

  lemma NoFreePage(m: Table, n: nat, head: seq<int>, ls: seq<seq<int>>)
    requires PagesValid(m, n, head, ls)
    requires forall i :: 0 <= i < n && FreeHead(m[i]) && head[i] == i ==> m[i].slab.n < 1
    ensures forall i :: 0 <= i < n ==> !FreeHead(m[i])
  {
    hide Rings, Homes, Covers, FreeRun;
    forall i | 0 <= i < n ensures !FreeHead(m[i]) {
      assert Local(m, head, i);
    }
  }

  /** The page behind a slot head has a free chunk of the right size, or is the
      slot head itself. */
  lemma SlotFacts(m: Table, n: nat, head: seq<int>, ls: seq<seq<int>>, bms: Bitmaps, start: int, live: map<int, nat>,
                  shift: nat)
    requires PoolValid(m, n, head, ls, bms, start, live) && IsShift(shift)
    ensures |m| == n + LISTS && start > 0
    ensures var s, page := n + (shift - 2), m[n + (shift - 2)].next;
            && 0 <= page < |m|
            && (m[page].next == page ==> page == s)
            && (m[page].next != page ==>
                  0 <= page < n && Chunked(m[page]) && m[page].next != NULL && ShiftOk(m[page])
                      && ShiftOf(m[page]) == shift)
  {
    hide Ring, Apart, Partition, Tracks;
    var j := shift - 2;
    SlotHead(m, n, ls, j);
    var page := m[n + j].next;
    if page != n + j {
      assert page in ls[j];
      RemovedRings(m, n, ls, j, page);
      assert AtHome(m, n, j, page);
      assert ChunkPage(m[page], bms[page]);
    }
  }

  /** The bit of chunk k of page i is set, which is all the code looks at. */
  predicate Marked(m: Table, n: nat, bms: Bitmaps, i: int, k: int) {
    && |bms| == n && |m| == n + LISTS && 0 <= i < n
    && Chunked(m[i]) && ShiftOk(m[i])
    && |Bits(m[i], bms[i])| == Chunks(ShiftOf(m[i]))
    && 0 <= k < |Bits(m[i], bms[i])| && Bits(m[i], bms[i])[k]
  }

  lemma GiveFacts(m: Table, n: nat, head: seq<int>, ls: seq<seq<int>>, bms: Bitmaps, start: int, live: map<int, nat>,
                  i: int, k: int)
    requires PoolValid(m, n, head, ls, bms, start, live) && Marked(m, n, bms, i, k)
    ensures |ls| == LISTS && |head| == n && |m| == n + LISTS && |bms| == n && 0 <= i < n
    ensures ShiftOk(m[i]) && |Bits(m[i], bms[i])| == Chunks(ShiftOf(m[i])) && k < |Bits(m[i], bms[i])|
    ensures m[i].next == NULL <==> Full(Bits(m[i], bms[i]))
    ensures 0 <= m[n + Home(m[i])].next < |m| && m[n + Home(m[i])].next != n + Home(m[i]) ==>
              0 <= m[n + Home(m[i])].next < n
    ensures m[i].next == NULL ==> m[n + Home(m[i])].next != i
    ensures 0 <= m[n + Home(m[i])].next < |m|
    ensures m[i].tag == TYPE_SMALL ==> |bms[i]| % 64 == 0
  {
    hide Rings, Partition, Homes, Tracks, Full, InUse;
    ChunkPageAt(m, n, bms, i);
    SlotHead(m, n, ls, Home(m[i]));
    RingsMembersLinked(m, n, ls, i);
  }

  lemma RelistedSame(m: Table, n: nat, i: int, bm: seq<bool>)
    requires 0 <= i < n && |m| == n + LISTS && 0 <= m[n + Home(m[i])].next < |m| && ShiftOk(m[i])
    requires m[i].next == NULL ==> m[n + Home(m[i])].next != i
    ensures var d := Relisted(m, n, i)[i];
            d.slab == m[i].slab && d.tag == m[i].tag && ShiftOk(d) && Bits(d, bm) == Bits(m[i], bm)
  {
  }

  lemma GaveIs(m: Table, n: nat, bms: Bitmaps, i: int, k: int, m': Table, bits: seq<bool>)
    requires InChunks(m, n, bms, i, k) && 0 <= m[n + Home(m[i])].next < |m|
    requires m[i].next == NULL ==> m[n + Home(m[i])].next != i
    requires var m1 := Relisted(m, n, i); ShiftOk(m1[i]) && m' == m1[i := WithBits(m1[i], bits)]
    requires bits == GivenBits(m, n, bms, i, k)
    ensures m' == GaveChunk(m, n, bms, i, k)
    ensures InPageBits(Relisted(m, n, i)[i], bms[i], bits) == InPageBits(m[i], bms[i], bits)
  {
    RelistedSame(m, n, i, bms[i]);
  }

  lemma ClearedBit(d: Desc, bm: seq<bool>, bits: seq<bool>)
    requires Chunked(d) && ShiftOk(d)
    ensures var d' := WithBits(d, bits);
            Chunked(d') && ShiftOk(d') && ShiftOf(d') == ShiftOf(d) && Bits(d', InPageBits(d, bm, bits)) == bits
  {
  }

  lemma UsedMeans(bits: seq<bool>, reserved: nat)
    ensures reserved == 0 ==> (InUse(bits, reserved) <==> exists x :: 0 <= x < |bits| && bits[x])
  {
  }

  lemma EmptyingFacts(m: Table, n: nat, head: seq<int>, ls: seq<seq<int>>, bms: Bitmaps, start: int,
                      live: map<int, nat>, i: int)
    requires Emptying(m, n, head, ls, bms, start, live, i) && Chunked(m[i])
    ensures PagesValid(m, n, head, ls) && |ls| == LISTS && |head| == n && |m| == n + LISTS && |bms| == n
    ensures 0 <= i < n && head[i] == i && RunLength(m[i]) == 1 && 0 < n && 0 < start && start % PAGE_SIZE == 0
  {
    hide Rings, Homes, Tracks;
    BlockHead(m, n, head, i);
  }

  lemma NoneUsed(d: Desc, bm: seq<bool>)
    requires Chunked(d) && ShiftOk(d) && !InUse(Bits(d, bm), Reserved(ShiftOf(d)))
    ensures forall r :: 0 <= r < PAGE_SIZE ==> !InPage(d, bm, r)
  {
  }

  /** The chunk at r in this page is one of those that hold its bitmap. */
  predicate HoldsBitmap(d: Desc, r: int) {
    d.tag == TYPE_SMALL && ShiftOk(d) && r % Size(ShiftOf(d)) == 0 && r / Size(ShiftOf(d)) < Reserved(ShiftOf(d))
  }

  /** Why such a pointer must not be freed: its bit is set, so the code takes it for a
      chunk in use, and without that bit the page is no page of chunks any more, listed
      or not. */
  lemma BitmapChunkLooksUsed(m: Table, n: nat, bms: Bitmaps, i: int, k: nat, m': Table, bms': Bitmaps)
    requires Marked(m, n, bms, i, k) && k < Reserved(ShiftOf(m[i]))
    requires |m'| == |m| && |bms'| == n && Chunked(m'[i]) && ShiftOk(m'[i]) && ShiftOf(m'[i]) == ShiftOf(m[i])
    requires Bits(m'[i], bms'[i]) == Bits(m[i], bms[i])[k := false]
    ensures !ChunkPages(m', n, bms')
  {
    assert !Bits(m'[i], bms'[i])[k];
    assert !ChunkPage(m'[i], bms'[i]);
  }

  /** What a search for a chunk in this page comes to first. */
  ghost predicate Offers(m: Table, n: nat, bms: Bitmaps, i: int, k: nat, shift: nat) {
    && 0 <= i < n == |bms| && |m| == n + LISTS && m[i].tag == TYPE_SMALL && ShiftOk(m[i]) && ShiftOf(m[i]) == shift
    && k < |bms[i]| && |bms[i]| % 64 == 0 && !bms[i][k] && forall x :: 0 <= x < k ==> bms[i][x]
  }

  ghost predicate OffersAddress(m: Table, n: nat, bms: Bitmaps, start: int, p: int) {
    && start <= p < start + n * PAGE_SIZE && |m| == n + LISTS
    && var i := (p - start) / PAGE_SIZE;
    && i < n && ShiftOk(m[i]) && (p - start) % PAGE_SIZE % Size(ShiftOf(m[i])) == 0
    && Offers(m, n, bms, i, (p - start) % PAGE_SIZE / Size(ShiftOf(m[i])), ShiftOf(m[i]))
  }

  /** The page is the first in the list of its size. */
  ghost predicate Leads(m: Table, n: nat, i: int) {
    0 <= i < n && |m| == n + LISTS && m[n + Home(m[i])].next == i && m[i].next != i
  }

  /** A page that leads its list and offers an address: the list leads to the page, and the
      address is that of the chunk offered. */
  lemma OfferedFirst(m: Table, n: nat, bms: Bitmaps, start: int, p: int)
    requires OffersAddress(m, n, bms, start, p) && Leads(m, n, (p - start) / PAGE_SIZE)
    ensures var i := (p - start) / PAGE_SIZE;
            && |m| == n + LISTS && 0 <= i < n == |bms| && ShiftOk(m[i])
            && var shift := ShiftOf(m[i]);
            && shift >= 2 && n + (shift - 2) < |m| && m[n + (shift - 2)].next == i
            && p == start + (i * PAGE_SIZE + (p - start) % PAGE_SIZE / Size(shift) * Size(shift))
  {
  }

  /** The tables after the page was relisted if it was full and the bit of the chunk cleared. */
  ghost predicate BitCleared(m: Table, n: nat, bms: Bitmaps, i: int, k: nat, bits: seq<bool>, m': Table,
                             bms': Bitmaps) {
    && |m| == n + LISTS && |bms| == n && 0 <= i < n && ShiftOk(m[i]) && k < |Bits(m[i], bms[i])|
    && 0 <= m[n + Home(m[i])].next < |m| && (m[i].next == NULL ==> m[n + Home(m[i])].next != i)
    && bits == Bits(m[i], bms[i])[k := false]
    && var d := Relisted(m, n, i)[i];
    && ShiftOk(d) && m' == Relisted(m, n, i)[i := WithBits(d, bits)] && bms' == bms[i := InPageBits(d, bms[i], bits)]
  }

  /** A freed chunk of the bitmap is offered next, by a page that was full, or first in
      its list, and is first now. */
  lemma BitmapOffered(m: Table, n: nat, bms: Bitmaps, i: int, k: nat, m': Table, bms': Bitmaps)
    requires Marked(m, n, bms, i, k) && ChunkPage(m[i], bms[i]) && k < Reserved(ShiftOf(m[i])) && i < n
    requires BitCleared(m, n, bms, i, k, Bits(m[i], bms[i])[k := false], m', bms')
    ensures Offers(m', n, bms', i, k, ShiftOf(m[i])) && (m[i].next == NULL || Leads(m, n, i) ==> Leads(m', n, i))
  {
    RelistedSame(m, n, i, bms[i]);
    hide InUse, Full;
  }

  /** All that is asked of a page by the search for a clear bit. */
  predicate Searchable(m: Table, n: nat, bms: Bitmaps, i: int) {
    && |bms| == n && |m| == n + LISTS && 0 <= i < n && Chunked(m[i]) && ShiftOk(m[i]) && m[i].next != NULL
    && |Bits(m[i], bms[i])| == Chunks(ShiftOf(m[i])) && !Full(Bits(m[i], bms[i]))
    && Linked(m, i) && m[i].prev != i && (m[i].tag == TYPE_SMALL ==> |bms[i]| % 64 == 0)
  }

  /** The first clear bit was set, and nothing else done but what that calls for. */
  ghost predicate BitTaken(m: Table, n: nat, bms: Bitmaps, i: int, k: nat, m': Table, bms': Bitmaps) {
    && HasRoom(m, n, bms, i, k) && Linked(m, i) && m' == TookChunk(m, n, bms, i, k)
    && bms' == bms[i := InPageBits(m[i], bms[i], TakenBits(m, n, bms, i, k))]
    && forall x :: 0 <= x < k ==> Bits(m[i], bms[i])[x]
  }

  /** The bit of the chunk at p was cleared. */
  ghost predicate BitFreed(m: Table, n: nat, bms: Bitmaps, start: int, p: int, m': Table, bms': Bitmaps) {
    && start <= p < start + n * PAGE_SIZE && |m| == n + LISTS && |bms| == n
    && var i := (p - start) / PAGE_SIZE;
    && ShiftOk(m[i])
    && var k := (p - start) % PAGE_SIZE / Size(ShiftOf(m[i]));
    && Marked(m, n, bms, i, k) && k < Reserved(ShiftOf(m[i]))
    && BitCleared(m, n, bms, i, k, Bits(m[i], bms[i])[k := false], m', bms')
  }

  lemma FreedIs(m: Table, n: nat, bms: Bitmaps, start: int, p: int, i: int, k: nat, m': Table, bms': Bitmaps)
    requires start <= p < start + n * PAGE_SIZE && i == (p - start) / PAGE_SIZE && Marked(m, n, bms, i, k)
    requires k == (p - start) % PAGE_SIZE / Size(ShiftOf(m[i])) && k < Reserved(ShiftOf(m[i]))
    requires BitCleared(m, n, bms, i, k, Bits(m[i], bms[i])[k := false], m', bms')
    ensures BitFreed(m, n, bms, start, p, m', bms')
  {
    hide BitCleared;
  }

  /** A page of chunks that is on its list, if it is to be. */
  predicate Settled(m: Table, n: nat, bms: Bitmaps, i: int) {
    && |bms| == n && |m| == n + LISTS && 0 <= i < n && Chunked(m[i]) && ChunkPage(m[i], bms[i])
    && (m[i].next != NULL ==> Linked(m, i) && m[i].prev != i)
    && (m[i].tag == TYPE_SMALL ==> |bms[i]| % 64 == 0)
  }

  lemma SettledPage(m: Table, n: nat, head: seq<int>, ls: seq<seq<int>>, bms: Bitmaps, start: int,
                    live: map<int, nat>, i: int, k: nat)
    requires PoolValid(m, n, head, ls, bms, start, live) && Marked(m, n, bms, i, k)
    ensures Settled(m, n, bms, i)
  {
    hide PoolValid, Marked, ChunkPage, Linked;
    InUseAt(m, n, head, ls, bms, start, live, i, k);
    MarkedPage(m, n, bms, i, k);
    if m[i].next != NULL {
      PageWithRoom(m, n, head, ls, bms, start, live, i);
    }
  }

  lemma MarkedPage(m: Table, n: nat, bms: Bitmaps, i: int, k: nat)
    requires Marked(m, n, bms, i, k)
    ensures |bms| == n && |m| == n + LISTS && 0 <= i < n && Chunked(m[i])
    ensures m[i].tag == TYPE_SMALL ==> |bms[i]| % 64 == 0
  {
  }

  lemma ClearedSearchable(m: Table, n: nat, bms: Bitmaps, i: int, k: nat, m': Table, bms': Bitmaps)
    requires Settled(m, n, bms, i) && Marked(m, n, bms, i, k)
    requires BitCleared(m, n, bms, i, k, Bits(m[i], bms[i])[k := false], m', bms')
    ensures Searchable(m', n, bms', i)
  {
    hide InUse;
    var bits := Bits(m[i], bms[i])[k := false];
    assert !bits[k];
    RelistedSame(m, n, i, bms[i]);
    assert Bits(m'[i], bms'[i]) == bits;
  }

  lemma FreedSearchable(m: Table, n: nat, head: seq<int>, ls: seq<seq<int>>, bms: Bitmaps, start: int,
                        live: map<int, nat>, p: int, m': Table, bms': Bitmaps)
    requires PoolValid(m, n, head, ls, bms, start, live) && BitFreed(m, n, bms, start, p, m', bms')
    ensures Searchable(m', n, bms', (p - start) / PAGE_SIZE)
  {
    hide PoolValid, Marked, Settled, BitCleared, Searchable, Bits;
    var i := (p - start) / PAGE_SIZE;
    var k := (p - start) % PAGE_SIZE / Size(ShiftOf(m[i]));
    SettledPage(m, n, head, ls, bms, start, live, i, k);
    ClearedSearchable(m, n, bms, i, k, m', bms');
  }

  /** The search comes to the bit that was cleared, and setting it again puts back what was
      there. */
  lemma ClearedTaken(m: Table, n: nat, bms: Bitmaps, i: int, k: nat, m1: Table, bms1: Bitmaps, k': nat, m2: Table,
                     bms2: Bitmaps)
    requires Settled(m, n, bms, i) && Marked(m, n, bms, i, k) && k < Reserved(ShiftOf(m[i]))
    requires BitCleared(m, n, bms, i, k, Bits(m[i], bms[i])[k := false], m1, bms1)
    requires BitTaken(m1, n, bms1, i, k', m2, bms2)
    ensures k' == k && bms2 == bms && (m[i].next != NULL ==> m2 == m)
    ensures |m1| > i && ShiftOk(m1[i]) && ShiftOf(m1[i]) == ShiftOf(m[i])
  {
    hide InUse;
    var bits := Bits(m[i], bms[i])[k := false];
    RelistedSame(m, n, i, bms[i]);
    assert Bits(m1[i], bms1[i]) == bits;
    assert k' == k;
    assert bits[k := true] == Bits(m[i], bms[i]);
  }

  lemma TakenAgain(m: Table, n: nat, head: seq<int>, ls: seq<seq<int>>, bms: Bitmaps, start: int,
                   live: map<int, nat>, p: int, m1: Table, bms1: Bitmaps, k: nat, m2: Table, bms2: Bitmaps)
    requires PoolValid(m, n, head, ls, bms, start, live) && BitFreed(m, n, bms, start, p, m1, bms1)
    requires BitTaken(m1, n, bms1, (p - start) / PAGE_SIZE, k, m2, bms2)
    ensures var i := (p - start) / PAGE_SIZE;
            |m1| > i && ShiftOk(m1[i]) && k == (p - start) % PAGE_SIZE / Size(ShiftOf(m1[i]))
    ensures bms2 == bms && (m[(p - start) / PAGE_SIZE].next != NULL ==> m2 == m)
  {
    hide PoolValid, Marked, Settled, BitCleared, BitTaken, Bits;
    var i := (p - start) / PAGE_SIZE;
    var k' := (p - start) % PAGE_SIZE / Size(ShiftOf(m[i]));
    SettledPage(m, n, head, ls, bms, start, live, i, k');
    ClearedTaken(m, n, bms, i, k', m1, bms1, k, m2, bms2);
  }

  lemma NoPool(m: Table, n: nat, head: seq<int>, ls: seq<seq<int>>, bms: Bitmaps, start: int, live: map<int, nat>)
    requires !ChunkPages(m, n, bms)
    ensures !PoolValid(m, n, head, ls, bms, start, live)
  {
  }

  /** A page is given back only for a chunk that was in use. */
  lemma LastInUse(bits: seq<bool>, k: nat, reserved: nat)
    requires k < |bits| && InUse(bits, reserved) && !InUse(bits[k := false], reserved)
    ensures reserved <= k
  {
    var x :| reserved <= x < |bits| && bits[x];
    assert bits[k := false][x] || x == k;
  }

  lemma InUseAt(m: Table, n: nat, head: seq<int>, ls: seq<seq<int>>, bms: Bitmaps, start: int, live: map<int, nat>,
                i: int, k: int)
    requires PoolValid(m, n, head, ls, bms, start, live) && Marked(m, n, bms, i, k)
    ensures InUse(Bits(m[i], bms[i]), Reserved(ShiftOf(m[i]))) && ChunkPage(m[i], bms[i])
    ensures Reserved(ShiftOf(m[i])) <= k ==> InChunks(m, n, bms, i, k)
  {
    hide PagesValid, Tracks;
    assert ChunkPage(m[i], bms[i]);
  }

  lemma RunHead(m: Table, n: nat, head: seq<int>, ls: seq<seq<int>>, i: int)
    requires PagesValid(m, n, head, ls) && 0 <= i < n && (UsedHead(m[i]) || FreeHead(m[i]))
    ensures head[i] == i && RunLength(m[i]) == m[i].slab.n
  {
    hide Rings, Homes, FreeRun;
    assert Local(m, head, i);
  }

  lemma PoolEmptying(m: Table, n: nat, head: seq<int>, ls: seq<seq<int>>, bms: Bitmaps, start: int,
                     live: map<int, nat>, i: int)
    requires PoolValid(m, n, head, ls, bms, start, live) && 0 <= i < n
    ensures Emptying(m, n, head, ls, bms, start, live, i)
  {
    hide PagesValid, Tracks;
  }

  lemma RunInPage(d: Desc, bm: seq<bool>)
    requires UsedHead(d) || FreeHead(d)
    ensures forall r :: 0 <= r < PAGE_SIZE ==> (InPage(d, bm, r) <==> UsedHead(d) && r == 0)
  {
  }

  lemma RunTracked(m: Table, n: nat, bms: Bitmaps, start: int, live: map<int, nat>, i: int)
    requires Tracks(m, n, bms, start, live) && 0 <= i < n
    ensures FreeHead(m[i]) ==> live - {start + (i * PAGE_SIZE + 0)} == live
  {
    if FreeHead(m[i]) {
      FreeNotTracked(m, n, bms, start, live, i, 0);
    }
  }

  lemma OutsideNotLive(m: Table, n: nat, bms: Bitmaps, start: int, live: map<int, nat>, p: int)
    requires Tracks(m, n, bms, start, live) && !(start <= p < start + n * PAGE_SIZE)
    ensures live - {p} == live
  {
    assert p == start + (p - start);
    assert !IsBlock(m, n, bms, p - start);
  }

  /** What the tests of ngx_slab_free_locked mean for a pointer into the pages. */
  lemma PointerFacts(m: Table, n: nat, head: seq<int>, ls: seq<seq<int>>, bms: Bitmaps, start: int,
                     live: map<int, nat>, p: int, i: int, r: int)
    requires PoolValid(m, n, head, ls, bms, start, live) && start <= p < start + n * PAGE_SIZE
    requires i == (p - start) / PAGE_SIZE && r == (p - start) % PAGE_SIZE
    ensures 0 <= i < n && 0 <= r < PAGE_SIZE && p == start + (i * PAGE_SIZE + r) && p % PAGE_SIZE == r
    ensures !Chunked(m[i]) ==> !HoldsBitmap(m[i], r)
    ensures !Chunked(m[i]) ==>
              (p in live <==> UsedHead(m[i]) && r == 0)
                  && (m[i].slab == Count(0) || m[i].slab == Busy || UsedHead(m[i]) || FreeHead(m[i]))
    ensures Chunked(m[i]) ==>
      && ShiftOk(m[i])
      && var shift := ShiftOf(m[i]);
         && (p % Size(shift) == 0 <==> r % Size(shift) == 0)
         && 0 <= r / Size(shift) < |Bits(m[i], bms[i])|
         && (p % Size(shift) == 0 ==> p == start + (i * PAGE_SIZE + (r / Size(shift)) * Size(shift)))
         && (!HoldsBitmap(m[i], r) ==>
               && (p in live <==> p % Size(shift) == 0 && Bits(m[i], bms[i])[r / Size(shift)]))
         && (HoldsBitmap(m[i], r) <==> p % Size(shift) == 0 && r / Size(shift) < Reserved(shift))
         && (HoldsBitmap(m[i], r) ==> Bits(m[i], bms[i])[r / Size(shift)] && p !in live)
         && (p % Size(shift) == 0 && Bits(m[i], bms[i])[r / Size(shift)] ==> Marked(m, n, bms, i, r / Size(shift)))
    ensures p !in live ==> live - {p} == live
  {
    hide Rings, Homes, FreeRun, Covers, Full, InUse;
    var off := p - start;
    assert p == start + off;
    assert p in live <==> IsBlock(m, n, bms, off);
    assert Local(m, head, i);
    PageMod(start, off);
    if Chunked(m[i]) {
      ChunkPageAt(m, n, bms, i);
      var shift := ShiftOf(m[i]);
      SizeMod(shift, start, i, r);
      ChunkIndex(shift, r);
    }
  }

  lemma PageMod(start: int, off: int)
    requires start % PAGE_SIZE == 0
    ensures (start + off) % PAGE_SIZE == off % PAGE_SIZE
  {
  }

  lemma SizeMod(shift: nat, start: int, i: int, r: int)
    requires IsShift(shift) && start % PAGE_SIZE == 0
    ensures (start + (i * PAGE_SIZE + r)) % Size(shift) == r % Size(shift)
  {
    var z, c := Size(shift), Chunks(shift);
    var q := (start / PAGE_SIZE + i) * c;
    assert start + i * PAGE_SIZE == (start / PAGE_SIZE + i) * PAGE_SIZE;
    assert (start / PAGE_SIZE + i) * PAGE_SIZE == q * z;
    ModAdd(q, z, r);
  }

  lemma ModAdd(q: int, z: int, r: int)
    requires z > 0
    ensures (q * z + r) % z == r % z
  {
    assert q * z + r == (q + r / z) * z + r % z;
    ModUnique(q + r / z, z, r % z);
  }

  lemma ModUnique(q: int, z: int, r: int)
    requires z > 0 && 0 <= r < z
    ensures (q * z + r) % z == r
  {
    var x := q * z + r;
    var k := q - x / z;
    assert k * z == x % z - r;
    assert k >= 1 ==> k * z >= z;
    assert k <= -1 ==> k * z <= -z;
  }

  lemma ChunkIndex(shift: nat, r: int)
    requires IsShift(shift) && 0 <= r < PAGE_SIZE
    ensures 0 <= r / Size(shift) < Chunks(shift)
    ensures r % Size(shift) == 0 ==> r == (r / Size(shift)) * Size(shift)
  {
    var z := Size(shift);
    LessFromProduct(r / z, Chunks(shift), z);
  }

  lemma LessFromProduct(a: nat, b: nat, z: nat)
    requires a * z < b * z
    ensures a < b
  {
    if a >= b {
      MulMono(b, a, z);
    }
  }

  lemma TookIsDropped(m: Table, n: nat, bms: Bitmaps, i: int, k: int)
    requires HasRoom(m, n, bms, i, k) && Linked(m, i) && Full(TakenBits(m, n, bms, i, k))
    ensures var m1 := m[i := WithBits(m[i], TakenBits(m, n, bms, i, k))];
            Linked(m1, i) && TookChunk(m, n, bms, i, k) == DroppedFull(m1, i)
  {
  }

  lemma TookIsKept(m: Table, n: nat, bms: Bitmaps, i: int, k: int)
    requires HasRoom(m, n, bms, i, k) && Linked(m, i) && !Full(TakenBits(m, n, bms, i, k))
    ensures TookChunk(m, n, bms, i, k) == m[i := WithBits(m[i], TakenBits(m, n, bms, i, k))]
  {
  }

  lemma LinkedWithBits(m: Table, i: int, bits: seq<bool>)
    requires Linked(m, i) && ShiftOk(m[i]) && m[i].prev != i
    ensures Linked(m[i := WithBits(m[i], bits)], i)
  {
  }

  lemma FullMeans(bits: seq<bool>)
    ensures Full(bits) <==> forall x :: 0 <= x < |bits| ==> bits[x]
  {
  }

  // ------------------------------------------------------------- arithmetic

  /** s == x >> shift, where p == 1 << shift */
  predicate Shifted(x: nat, p: nat, s: nat) { s * p <= x < s * p + p }

  lemma Halve(x: nat, p: nat, s: nat)
    requires Shifted(x, p, s)
    ensures Shifted(x, 2 * p, s / 2)
    ensures s >= 1 ==> x >= p
  {
    var h := s / 2;
    DoubleRight(h, p);
    if s == 2 * h {
      DoubleLeft(h, p);
    } else {
      DoubleLeft(h, p);
      AddOne(2 * h, p);
    }
    if s >= 1 {
      AddOne(s - 1, p);
    }
  }

  lemma DoubleLeft(h: nat, p: nat)
    ensures (2 * h) * p == 2 * (h * p)
  {
  }

  lemma DoubleRight(h: nat, p: nat)
    ensures h * (2 * p) == 2 * (h * p)
  {
  }

  lemma AddOne(h: nat, p: nat)
    ensures (h + 1) * p == h * p + p
  {
  }

  lemma PowTable()
    ensures Pow2(0) == 1 && Pow2(1) == 2 && Pow2(2) == 4 && Pow2(3) == 8 && Pow2(4) == 16 && Pow2(5) == 32
    ensures Pow2(6) == 64 && Pow2(7) == 128 && Pow2(8) == 256 && Pow2(9) == 512 && Pow2(10) == 1024 && Pow2(11) == 2048
  {
    assert Pow2(5) == 32;
    assert Pow2(8) == 256;
  }

  lemma FirstShift(x: nat)
    ensures Shifted(x, 1, x)
  {
  }

  lemma NextPow(k: nat)
    ensures Pow2(k + 1) == 2 * Pow2(k)
  {
  }

  lemma ShiftFound(shift: nat, size: nat)
    requires 1 <= shift && 8 < size < 2048 && Pow2(shift - 1) <= size - 1 && Shifted(size - 1, Pow2(shift), 0)
    ensures 3 < shift <= 11 && Size(shift - 1) < size <= Size(shift)
  {
    PowTable();
    if shift > 11 {
      PowGrows(11, shift - 1);
      assert false;
    }
    if shift <= 3 {
      PowGrows(shift, 3);
      assert false;
    }
  }

  /** The 64-bit word holds no clear bit. */
  predicate Busy64(bits: seq<bool>, word: nat)
    requires word * 64 + 64 <= |bits|
  {
    forall k :: word * 64 <= k < word * 64 + 64 ==> bits[k]
  }

  class Pool {
    const n: nat                      // pages in the pool
    const d: array<Desc>              // pages, free list head, slot heads
    const bitmaps: array<seq<bool>>   // the bitmaps at the start of small pages
    const start: int                  // address of the first page
    const end: int
    ghost var head: seq<int>
    ghost var ls: seq<seq<int>>
    ghost var live: map<int, nat>     // address to requested size

    ghost predicate Valid()
      reads this, d, bitmaps
    {
      && d.Length == n + LISTS && bitmaps.Length == n
      && start + n * PAGE_SIZE <= end
      && PoolValid(d[..], n, head, ls, bitmaps[..], start, live)
    }

    /** ngx_slab_init, for a pool whose header ends at p: descriptors first, then
        the pages, from the next page boundary on. */
    constructor (p: nat, end: int)
      requires 0 < p && PageCount(p, end) >= 1
      ensures Valid() && live == map[] && n == PageCount(p, end) && this.end == end
      ensures p + (SLOTS + n) * DESC_SIZE <= start && start + n * PAGE_SIZE <= end
      ensures end - p < (n + 3) * (PAGE_SIZE + DESC_SIZE) && start < p + (SLOTS + n + 3) * DESC_SIZE + PAGE_SIZE
      ensures end - start < (n + 1) * PAGE_SIZE || end - p < (n + 1) * (PAGE_SIZE + DESC_SIZE)
    {
      var pages := PageCount(p, end);
      n := pages;
      start := PageStart(p, end);
      this.end := end;
      d := new Desc[pages + LISTS](i =>
        if i == 0 then Desc(Count(pages), pages, pages, TYPE_PAGE)
        else if i < pages then ZERO
        else if i == pages then Desc(Count(0), 0, NULL, TYPE_PAGE)
        else Desc(Count(0), i, NULL, TYPE_PAGE));
      bitmaps := new seq<bool>[pages](i => []);
      head := seq(pages, i => 0);
      ls := [[0]] + seq(LISTS - 1, j => []);
      live := map[];
      new;
      InitialPool(d[..], n, head, ls, bitmaps[..], start);
      PageArea(p, end);
    }

    ghost predicate PageLayer()
      reads this, d
    {
      d.Length == n + LISTS && PagesValid(d[..], n, head, ls)
    }

    /** The first run in the free list that is long enough. */
    method FirstFit(pages: nat) returns (page: int, ghost k: nat)
      requires PageLayer() && 1 <= pages
      ensures page == NULL ==> forall i :: 0 <= i < n && FreeHead(d[i]) && head[i] == i ==> d[i].slab.n < pages
      ensures page != NULL ==>
        && k < |ls[0]| && page == ls[0][k] && Fits(d[..], n, page, pages) && d[page].prev != page
        && forall c :: 0 <= c < k ==> Small(d[..], ls[0][c], pages)
    {
      hide PagesValid;
      ghost var m := d[..];
      Sizes(m, n, head, ls);
      FreeListHead(m, n, ls);
      page, k := d[n].next, 0;
      while page != n
        invariant 0 <= k <= |ls[0]| && page == At(ls[0], n, k)
        invariant forall c :: 0 <= c < k ==> Small(m, ls[0][c], pages)
        decreases |ls[0]| - k
      {
        FreeListFacts(m, n, head, ls, k);
        if d[page].slab.n >= pages {
          return;
        }
        page, k := d[page].next, k + 1;
      }
      NothingFits(m, n, head, ls, pages);
      page := NULL;
    }

    /** ngx_slab_alloc_pages: take the pages off the front of the first fit. */
    method AllocPages(pages: nat) returns (page: int, ghost k: nat)
      requires PageLayer() && 1 <= pages
      modifies d, this`head, this`ls
      ensures PageLayer()
      ensures page == NULL ==>
        && d[..] == old(d[..]) && head == old(head) && ls == old(ls)
        && forall i :: 0 <= i < n && FreeHead(d[i]) && head[i] == i ==> d[i].slab.n < pages
      ensures page != NULL ==>
        && k < |old(ls[0])| && page == old(ls[0][k]) && Fits(old(d[..]), n, page, pages)
        && d[..] == AllocatedAt(old(d[..]), n, page, pages)
        && head == AllocatedHeads(old(head), page, old(d[..])[page].slab.n, pages)
        && ls == AllocatedLists(old(d[..]), n, old(ls), k, pages)
    {
      hide PagesValid, AllocatedHeads, AllocatedLists, Carved, Taken;
      page, k := FirstFit(pages);
      if page != NULL {
        ghost var m0 := d[..];
        Sizes(m0, n, head, ls);
        AllocateValid(m0, n, head, ls, k, pages);
        Carve(page, pages);
        Mark(page, pages);
        head := AllocatedHeads(head, page, m0[page].slab.n, pages);
        ls := AllocatedLists(m0, n, ls, k, pages);
      }
    }

    /** Mark the pages as one allocated run. */
    method Mark(page: int, pages: nat)
      requires 0 <= page && page + pages <= d.Length && 1 <= pages
      modifies d
      ensures d[..] == Taken(old(d[..]), page, pages)
    {
      ghost var m0 := d[..];
      d[page] := Desc(Start(pages), NULL, NULL, TYPE_PAGE);
      var p := page + 1;
      while p < page + pages
        invariant page < p <= page + pages
        invariant forall i :: 0 <= i < d.Length ==> d[i] == if i < p then TakenAt(m0[i], i, page, pages) else m0[i]
      {
        d[p] := Desc(Busy, NULL, NULL, TYPE_PAGE);
        p := p + 1;
      }
    }

    method Carve(page: int, pages: nat)
      requires d.Length >= n && Fits(d[..], n, page, pages) && d[page].prev != page
      modifies d
      ensures d[..] == Carved(old(d[..]), n, page, pages)
    {
      ghost var m0 := d[..];
      var len := d[page].slab.n;
      if len > pages {
        var q := page + pages;
        d[page + len - 1] := d[page + len - 1].(prev := q, tag := TYPE_PAGE);
        d[q] := d[q].(slab := Count(len - pages));
        ghost var m1 := d[..];
        assert m1 == Remainder(m0, n, page, pages);
        d[q] := d[q].(next := d[page].next);
        d[q] := d[q].(prev := d[page].prev, tag := d[page].tag);
        assert d[..] == SetNext(SetPrev(m1, q, m1[page].prev, m1[page].tag), q, m1[page].next);
        var p := d[page].prev;
        d[p] := d[p].(next := q);
        d[d[page].next] := d[d[page].next].(prev := q, tag := TYPE_PAGE);
        assert d[..] == Replaced(m1, page, q);
      } else {
        Unlink(page);
      }
    }

    /** Take a descriptor out of the ring it is in. */
    method Unlink(i: int)
      requires Linked(d[..], i) && d[i].prev != i
      modifies d
      ensures d[..] == Unlinked(old(d[..]), i)
    {
      var p := d[i].prev;
      d[p] := d[p].(next := d[i].next);
      d[d[i].next] := d[d[i].next].(prev := d[i].prev, tag := d[i].tag);
    }

    /** ngx_slab_free_pages: the run at p goes back, joined with the free runs
        on both sides.  [a, e) is the resulting free run. */
    method FreePages(p: int, pages: nat) returns (ghost a: int, ghost e: int)
      requires PageLayer() && 0 <= p < n && head[p] == p && pages == RunLength(d[p])
      modifies d, this`head, this`ls
      ensures PageLayer()
      ensures a == (if AfterFree(old(d[..]), old(head), p) then old(head)[p - 1] else p)
      ensures var q := p + pages;
              q <= n && e == if q < n && FreeHead(old(d[..])[q]) then q + old(d[..])[q].slab.n else q
      ensures 0 <= a <= p < p + pages <= e <= n && head == FreedHeads(old(head), a, e)
      ensures forall i :: 0 <= i < n ==> FreedShape(old(d[..]), old(head), d[..], a, e, i)
    {
      hide PagesValid, Floating, FreedHeads, Linked, Detached, Sealed, FreedShape, AfterFree;
      ghost var m0, h0, ls0 := d[..], head, ls;
      Sizes(m0, n, h0, ls0);
      ghost var l := DetachFloats(m0, n, h0, ls0, p, pages);
      Detach(p, pages);
      FloatingFacts(m0, n, h0, ls0, d[..], l, p, p + pages);
      l, e := JoinNext(p, m0, h0, ls0, l, p + pages);
      FloatingFacts(m0, n, h0, ls0, d[..], l, p, e);
      var page;
      page, l := JoinPrevious(p, m0, h0, ls0, l, e);
      a := page;
      FloatingFacts(m0, n, h0, ls0, d[..], l, a, e);
      SealValid(m0, n, h0, ls0, d[..], l, a, e, Sealed(d[..], n, a));
      Seal(page);
      head, ls := FreedHeads(h0, a, e), l[0 := [a] + l[0]];
    }

    /** Join the free run that follows, if there is one. */
    method JoinNext(p: int, ghost m0: Table, ghost h0: seq<int>, ghost ls0: seq<seq<int>>, ghost l: seq<seq<int>>,
                    ghost e: int)
      returns (ghost l': seq<seq<int>>, ghost e': int)
      requires 0 <= p < n <= d.Length && d[p].slab.Count? && e == p + d[p].slab.n && n <= |m0|
      requires PagesValid(m0, n, h0, ls0) && Floating(m0, n, h0, ls0, d[..], l, p, e)
      modifies d
      ensures e' == if e < n && FreeHead(m0[e]) then e + m0[e].slab.n else e
      ensures Floating(m0, n, h0, ls0, d[..], l', p, e') && (e' < n ==> !FreeHead(m0[e']))
    {
      hide PagesValid, Floating, Linked, JoinedRight;
      l', e' := l, e;
      var join := p + d[p].slab.n;
      RightNeighbour(m0, n, h0, ls0, d[..], l, p, e);
      FloatingFacts(m0, n, h0, ls0, d[..], l, p, e);
      if join < n {
        if d[join].tag == TYPE_PAGE {
          if d[join].next != NULL {
            l' := JoinRightFloats(m0, n, h0, ls0, d[..], l, p, e, d[join].slab.n, JoinedRight(d[..], n, p));
            e' := e + d[join].slab.n;
            JoinRight(p, join);
          }
        }
      }
    }

    /** Join the free run that precedes, if there is one. */
    method JoinPrevious(p: int, ghost m0: Table, ghost h0: seq<int>, ghost ls0: seq<seq<int>>,
                        ghost l: seq<seq<int>>, ghost e: int)
      returns (page: int, ghost l': seq<seq<int>>)
      requires 0 <= p < e <= n < d.Length && d[p].slab == Count(e - p) && |h0| == n
      requires PagesValid(m0, n, h0, ls0) && Floating(m0, n, h0, ls0, d[..], l, p, e)
      modifies d
      ensures page == if AfterFree(m0, h0, p) then h0[p - 1] else p
      ensures 0 <= page <= p && Floating(m0, n, h0, ls0, d[..], l', page, e) && !AfterFree(m0, h0, page)
    {
      hide PagesValid, Floating, Linked, JoinedLeft, FreeHead;
      page, l' := p, l;
      if page > 0 {
        LeftNeighbour(m0, n, h0, ls0, d[..], l, p, e);
        var join := page - 1;
        if d[join].tag == TYPE_PAGE {
          if d[join].slab == Count(0) {
            join := d[join].prev;
          }
          if d[join].next != NULL {
            l' := JoinLeftFloats(m0, n, h0, ls0, d[..], l, p, e, join, JoinedLeft(d[..], p, join));
            JoinLeft(p, join);
            page := join;
          }
        }
      }
    }

    method Detach(p: int, pages: nat)
      requires 0 <= p && 1 <= pages && p + pages <= d.Length
      requires d[p].next != NULL ==> Linked(d[..], p) && d[p].prev != p && d[p].next != p
      modifies d
      ensures d[..] == Detached(old(d[..]), p, pages)
    {
      ghost var m0 := d[..];
      d[p] := d[p].(slab := Count(pages));
      var i := p + 1;
      while i < p + pages
        invariant p < i <= p + pages
        invariant forall x :: 0 <= x < d.Length ==>
          d[x] == if x == p then m0[p].(slab := Count(pages)) else if p < x < i then ZERO else m0[x]
      {
        d[i] := ZERO;
        i := i + 1;
      }
      assert d[..] == Cleared(m0, p, pages);
      if d[p].next != NULL {
        Unlink(p);
      }
    }

    method JoinRight(p: int, q: int)
      requires 0 <= p < n <= d.Length && d[p].slab.Count? && JoinsRight(d[..], n, p) && q == p + d[p].slab.n
      requires q != p && Linked(d[..], q) && d[q].slab.Count? && d[q].prev != q
      modifies d
      ensures d[..] == JoinedRight(old(d[..]), n, p)
    {
      ghost var m0 := d[..];
      d[p] := d[p].(slab := Count(d[p].slab.n + d[q].slab.n));
      assert d[..] == m0[p := m0[p].(slab := Count(m0[p].slab.n + m0[q].slab.n))];
      Unlink(q);
      d[q] := ZERO;
    }

    method JoinLeft(p: int, g: int)
      requires 0 <= g < p < d.Length && d[p].slab.Count? && d[g].slab.Count? && Linked(d[..], g) && d[g].prev != g
      modifies d
      ensures d[..] == JoinedLeft(old(d[..]), p, g)
    {
      ghost var m0 := d[..];
      d[g] := d[g].(slab := Count(d[g].slab.n + d[p].slab.n));
      assert d[..] == m0[g := m0[g].(slab := Count(m0[g].slab.n + m0[p].slab.n))];
      Unlink(g);
      d[p] := ZERO;
    }

    method Seal(page: int)
      requires 0 <= page < n < d.Length && d[page].slab.Count? && 1 <= d[page].slab.n && page + d[page].slab.n <= n
      requires 0 <= d[n].next < d.Length && d[n].next != page
      modifies d
      ensures d[..] == Sealed(old(d[..]), n, page)
    {
      ghost var m0 := d[..];
      var pages := d[page].slab.n - 1;
      if pages > 0 {
        d[page + pages] := d[page + pages].(prev := page, tag := TYPE_PAGE);
      }
      assert d[..] == Tailed(m0, page);
      d[page] := d[page].(prev := n, tag := TYPE_PAGE);
      d[page] := d[page].(next := d[n].next);
      d[d[page].next] := d[d[page].next].(prev := page, tag := TYPE_PAGE);
      d[n] := d[n].(next := page);
    }

    // -------------------------------------------------------------- allocation

    /** The smallest shift whose chunks hold `size` bytes. */
    static method ShiftFor(size: nat) returns (shift: nat)
      requires Size(MIN_SHIFT) < size < MAX_SIZE
      ensures MIN_SHIFT < shift < PAGE_SHIFT && Size(shift - 1) < size <= Size(shift)
    {
      hide Shifted, Pow2, Size;
      PowTable();
      shift := 1;
      var s: nat := (size - 1) / 2;
      assert Shifted(size - 1, 1, size - 1) && Pow2(1) == 2 * 1 by { FirstShift(size - 1); }
      Halve(size - 1, 1, size - 1);
      while s != 0
        invariant 1 <= shift && Shifted(size - 1, Pow2(shift), s) && size - 1 >= Pow2(shift - 1)
        decreases s
      {
        Halve(size - 1, Pow2(shift), s);
        NextPow(shift);
        s := s / 2;
        shift := shift + 1;
      }
      ShiftFound(shift, size);
    }

    /** The first clear bit of a bitmap in the page, word by word. */
    static method FirstClearWord(bits: seq<bool>) returns (word: nat, bit: nat)
      requires |bits| % 64 == 0 && !Full(bits)
      ensures bit < 64 && word * 64 + bit < |bits| && !bits[word * 64 + bit]
      ensures forall k :: 0 <= k < word * 64 + bit ==> bits[k]
    {
      var words := |bits| / 64;
      word := 0;
      while word < words && Busy64(bits, word)
        invariant word <= words && forall k :: 0 <= k < word * 64 ==> bits[k]
      {
        word := word + 1;
      }
      bit := 0;
      while bits[word * 64 + bit]
        invariant word < words && bit < 64 && (forall k :: 0 <= k < word * 64 + bit ==> bits[k])
        invariant !Busy64(bits, word)
        decreases 64 - bit
      {
        bit := bit + 1;
      }
    }

    /** The first clear bit of a map in the descriptor. */
    static method FirstClear(bits: seq<bool>) returns (bit: nat)
      requires !Full(bits)
      ensures bit < |bits| && !bits[bit] && forall k :: 0 <= k < bit ==> bits[k]
    {
      bit := 0;
      while bits[bit]
        invariant bit < |bits| && forall k :: 0 <= k < bit ==> bits[k]
        decreases |bits| - bit
      {
        bit := bit + 1;
      }
    }

    /** No clear bit is left, given that the words before `word` have none. */
    static method FullFrom(bits: seq<bool>, word: nat) returns (full: bool)
      requires |bits| % 64 == 0 && word * 64 < |bits| && forall k :: 0 <= k < word * 64 ==> bits[k]
      ensures full <==> Full(bits)
    {
      if !Busy64(bits, word) {
        return false;
      }
      var w := word + 1;
      while w < |bits| / 64
        invariant word < w <= |bits| / 64 && forall k :: 0 <= k < w * 64 ==> bits[k]
      {
        if !Busy64(bits, w) {
          return false;
        }
        w := w + 1;
      }
      full := true;
    }

    /** Find the first clear bit of a page and set it; a page that fills up leaves its
        list. */
    method TakeBit(i: int) returns (k: nat)
      requires d.Length == n + LISTS && bitmaps.Length == n && Searchable(d[..], n, bitmaps[..], i)
      modifies d, bitmaps
      ensures BitTaken(old(d[..]), n, old(bitmaps[..]), i, k, d[..], bitmaps[..])
    {
      hide TookChunk, Linked, Unlinked, Full;
      ghost var m0, b0 := d[..], bitmaps[..];
      var full, bits, kind := false, [], d[i].tag;
      if kind == TYPE_SMALL {
        var word, bit := FirstClearWord(bitmaps[i]);
        k := word * 64 + bit;
        bits := bitmaps[i][k := true];
        bitmaps[i] := bits;
        full := FullFrom(bits, word);
      } else {
        k := FirstClear(d[i].slab.bits);
        bits := d[i].slab.bits[k := true];
        d[i] := d[i].(slab := d[i].slab.(bits := bits));
        full := forall x :: 0 <= x < |bits| ==> bits[x];
        FullMeans(bits);
      }
      assert d[..] == m0[i := WithBits(m0[i], bits)];
      if full {
        TookIsDropped(m0, n, b0, i, k);
        LinkedWithBits(m0, i, bits);
        Unlink(i);
        d[i] := d[i].(next := NULL);
        d[i] := d[i].(prev := NULL, tag := kind);
        assert d[..] == TookChunk(m0, n, b0, i, k);
      } else {
        TookIsKept(m0, n, b0, i, k);
      }
      assert bitmaps[..] == b0[i := InPageBits(m0[i], b0[i], bits)];
    }

    /** Hand out the first free chunk of the page at the head of a slot list. */
    method TakeChunk(i: int, ghost size: nat) returns (k: nat)
      requires Valid() && 0 <= i < n && Chunked(d[i]) && d[i].next != NULL
      requires ShiftOk(d[i]) && Snug(size, Size(ShiftOf(d[i])))
      modifies d, bitmaps, this`ls, this`live
      ensures Valid() && ShiftOk(old(d[i]))
      ensures var p := start + (i * PAGE_SIZE + k * Size(ShiftOf(old(d[i]))));
              p !in old(live) && live == old(live)[p := size]
    {
      hide PoolValid, TookChunk, TookLists, Linked, Unlinked, Full;
      ghost var m0, b0 := d[..], bitmaps[..];
      PageWithRoom(m0, n, head, ls, b0, start, live, i);
      k := TakeBit(i);
      TakeValid(m0, n, head, ls, b0, start, live, i, k, size, TookChunk(m0, n, b0, i, k));
      ls := TookLists(m0, n, b0, i, k, ls);
      live := live[start + (i * PAGE_SIZE + k * Size(ShiftOf(m0[i]))) := size];
    }

    /** A fresh page of chunks of the given size starts its slot list. */
    method StartPage(shift: nat, ghost size: nat) returns (p: int)
      requires Valid() && IsShift(shift) && Snug(size, Size(shift)) && d[n + (shift - 2)].next == n + (shift - 2)
      modifies d, bitmaps, this`head, this`ls, this`live
      ensures Valid()
      ensures p == 0 ==>
        && d[..] == old(d[..]) && bitmaps[..] == old(bitmaps[..]) && live == old(live)
        && (forall i :: 0 <= i < n ==> !FreeHead(d[i]))
        && (forall i :: 0 <= i < n && d[i].next != NULL ==> Home(d[i]) != shift - 2)
      ensures p != 0 ==> p !in old(live) && live == old(live)[p := size]
    {
      hide PoolValid, PagesValid, AllocatedAt, AllocatedHeads, AllocatedLists, InitialSlab, InitialBits, Reserved;
      ghost var m0, b0, ls0, h0 := d[..], bitmaps[..], ls, head;
      PoolParts(m0, n, head, ls, b0, start, live);
      EmptySlot(m0, n, head, ls, shift - 2);
      var page, k := AllocPages(1);
      if page == NULL {
        NoFreePage(d[..], n, head, ls);
        NoneListed(d[..], n, head, ls, shift - 2);
        return 0;
      }
      ghost var m1, ls1 := d[..], ls;
      if shift < EXACT_SHIFT {
        bitmaps[page] := InitialBits(shift);
      }
      var s := n + (shift - 2);
      d[page] := Desc(InitialSlab(shift), s, s, TagOf(shift - 2));
      d[s] := d[s].(next := page);
      assert d[..] == Started(m1, page, s, InitialSlab(shift), TagOf(shift - 2));
      NewPageValid(m0, n, h0, ls0, b0, start, live, k, shift, size, m1, ls1, d[..], bitmaps[..]);
      ls := ls[shift - 2 := [page]];
      live := live[start + (page * PAGE_SIZE + Reserved(shift) * Size(shift)) := size];
      p := start + (page * PAGE_SIZE + Reserved(shift) * Size(shift));
    }

    /** Pages needed for a block that is not served from chunks. */
    static function PagesFor(size: nat): (pages: nat)
      requires size >= MAX_SIZE
      ensures 1 <= pages && (pages - 1) * PAGE_SIZE < size <= pages * PAGE_SIZE
    {
      size / PAGE_SIZE + if size % PAGE_SIZE != 0 then 1 else 0
    }

    /** ngx_slab_alloc_locked */
    method Alloc(size: nat) returns (p: int)
      requires Valid()
      modifies d, bitmaps, this`head, this`ls, this`live
      ensures Valid()
      ensures p != 0 ==> p !in old(live) && live == old(live)[p := size]
      ensures p == 0 ==>
        && d[..] == old(d[..]) && bitmaps[..] == old(bitmaps[..]) && live == old(live)
        && (if size >= MAX_SIZE then forall i :: 0 <= i < n && FreeHead(d[i]) && head[i] == i ==>
           d[i].slab.n < PagesFor(size)
            else forall i :: 0 <= i < n ==>
                !FreeHead(d[i]) && !(Chunked(d[i]) && Serves(d[i], size) && d[i].next != NULL))
    {
      hide PoolValid, PagesValid, AllocatedAt, AllocatedHeads, AllocatedLists, FreeHead;
      ghost var m0, ls0, h0 := d[..], ls, head;
      PoolParts(m0, n, head, ls, bitmaps[..], start, live);
      if size >= MAX_SIZE {
        var page, k := AllocPages(PagesFor(size));
        if page == NULL {
          return 0;
        }
        RunValid(m0, n, h0, ls0, bitmaps[..], start, live, k, PagesFor(size), size, d[..]);
        live := live[start + (page * PAGE_SIZE + 0) := size];
        return start + page * PAGE_SIZE;
      }
      var shift := MIN_SHIFT;
      if size > Size(MIN_SHIFT) {
        shift := ShiftFor(size);
      }
      SlotFacts(m0, n, head, ls, bitmaps[..], start, live, shift);
      var page := d[n + (shift - 2)].next;
      if d[page].next != page {
        var k := TakeChunk(page, size);
        return start + (page * PAGE_SIZE + k * Size(shift));
      }
      p := StartPage(shift, size);
      if p == 0 {
        forall i | 0 <= i < n && Chunked(d[i]) && Serves(d[i], size) ensures d[i].next == NULL {
          ServesOne(d[i], size, shift);
        }
      }
    }

    // ---------------------------------------------------------------- freeing

    /** Some chunk past the bitmap is in use: the rest of the first word, then
        the other words. */
    static method AnyUsed(bits: seq<bool>, reserved: nat) returns (used: bool)
      requires |bits| % 64 == 0 && |bits| > 0 && reserved < 64
      ensures used <==> InUse(bits, reserved)
    {
      var k := reserved;
      while k < 64
        invariant reserved <= k <= 64 && forall x :: reserved <= x < k ==> !bits[x]
      {
        if bits[k] {
          return true;
        }
        k := k + 1;
      }
      while k < |bits|
        invariant 64 <= k <= |bits| && forall x :: reserved <= x < k ==> !bits[x]
      {
        if bits[k] {
          return true;
        }
        k := k + 1;
      }
      used := false;
    }

    /** A full page returns to the front of its slot list. */
    method Relist(i: int)
      requires d.Length == n + LISTS && bitmaps.Length == n && 0 <= i < n && ShiftOk(d[i])
      requires d[i].next == NULL <==> Full(Bits(d[i], bitmaps[i]))
      requires 0 <= d[n + Home(d[i])].next < d.Length && (d[i].next == NULL ==> d[n + Home(d[i])].next != i)
      modifies d
      ensures d[..] == Relisted(old(d[..]), n, i)
    {
      hide Full;
      var kind, s := d[i].tag, n + (ShiftOf(d[i]) - 2);
      FullMeans(Bits(d[i], bitmaps[i]));
      var full := if kind == TYPE_EXACT then (forall x :: 0 <= x < |d[i].slab.bits| ==> d[i].slab.bits[x])
          else d[i].next == NULL;
      if full {
        d[i] := d[i].(next := d[s].next);
        d[s] := d[s].(next := i);
        d[i] := d[i].(prev := s, tag := kind);
        d[d[i].next] := d[d[i].next].(prev := i, tag := kind);
      }
    }

    method ClearBit(i: int, k: nat) returns (bits: seq<bool>)
      requires 0 <= i < bitmaps.Length <= d.Length && ShiftOk(d[i]) && k < |Bits(d[i], bitmaps[i])|
      modifies d, bitmaps
      ensures bits == Bits(old(d[i]), old(bitmaps[i]))[k := false]
      ensures d[..] == old(d[..])[i := WithBits(old(d[i]), bits)]
      ensures bitmaps[..] == old(bitmaps[..])[i := InPageBits(old(d[i]), old(bitmaps[i]), bits)]
    {
      bits := Bits(d[i], bitmaps[i])[k := false];
      if d[i].tag == TYPE_SMALL {
        bitmaps[i] := bits;
      } else {
        d[i] := d[i].(slab := d[i].slab.(bits := bits));
      }
    }

    /** The page is relisted if it was full, and the bit cleared; is any other left? */
    method ClearChunk(i: int, k: nat) returns (bits: seq<bool>, used: bool)
      requires Valid() && Marked(d[..], n, bitmaps[..], i, k)
      modifies d, bitmaps
      ensures BitCleared(old(d[..]), n, old(bitmaps[..]), i, k, bits, d[..], bitmaps[..])
      ensures used <==> InUse(bits, Reserved(ShiftOf(old(d[..])[i])))
    {
      hide PoolValid, PagesValid, Relisted, Full, InUse, WithBits, InPageBits, Bits, Reserved;
      ghost var m0, b0 := d[..], bitmaps[..];
      GiveFacts(m0, n, head, ls, b0, start, live, i, k);
      InUseAt(m0, n, head, ls, b0, start, live, i, k);
      var shift := ShiftOf(d[i]);
      Relist(i);
      RelistedSame(m0, n, i, b0[i]);
      bits := ClearBit(i, k);
      if shift < EXACT_SHIFT {
        used := AnyUsed(bits, Reserved(shift));
      } else {
        used := exists x :: 0 <= x < |bits| && bits[x];
      }
      UsedMeans(bits, Reserved(shift));
    }

    /** Give chunk k of page i back, and the page with it if it was the last.  A chunk
        that holds the bitmap is given back like any other, and that breaks the page. */
    method GiveChunk(i: int, k: nat)
      requires Valid() && Marked(d[..], n, bitmaps[..], i, k)
      modifies d, bitmaps, this`head, this`ls, this`live
      ensures k >= Reserved(ShiftOf(old(d[i]))) ==>
        Valid() && live == old(live) - {start + (i * PAGE_SIZE + k * Size(ShiftOf(old(d[i]))))}
      ensures k < Reserved(ShiftOf(old(d[i]))) ==>
        && !Valid() && !ChunkPages(d[..], n, bitmaps[..]) && Offers(d[..], n, bitmaps[..], i, k, ShiftOf(old(d[i])))
        && (old(d[i]).next == NULL || Leads(old(d[..]), n, i) ==> Leads(d[..], n, i))
      ensures k < Reserved(ShiftOf(old(d[i]))) ==>
        && BitCleared(old(d[..]), n, old(bitmaps[..]), i, k, Bits(old(d[i]), old(bitmaps[i]))[k := false], d[..],
                      bitmaps[..])
        && head == old(head) && ls == old(ls) && live == old(live)
    {
      hide PoolValid, PagesValid, GaveChunk, RelistedLists, Emptying, Relisted, Full, InUse, InChunks, WithBits,
          InPageBits, Bits, Reserved;
      hide ChunkPages, ChunkPage, Offers, Leads;
      ghost var m0, b0, ls0, h0, live0 := d[..], bitmaps[..], ls, head, live;
      GiveFacts(m0, n, h0, ls0, b0, start, live0, i, k);
      InUseAt(m0, n, h0, ls0, b0, start, live0, i, k);
      ghost var shift := ShiftOf(d[i]);
      var bits, used := ClearChunk(i, k);
      if used {
        if Reserved(shift) <= k {
          GaveIs(m0, n, b0, i, k, d[..], bits);
          live, ls := live0 - {start + (i * PAGE_SIZE + k * Size(shift))}, RelistedLists(m0, n, i, ls0);
          GiveValid(m0, n, h0, ls0, b0, start, live0, i, k, d[..], bitmaps[..]);
        } else {
          RelistedSame(m0, n, i, b0[i]);
          ClearedBit(Relisted(m0, n, i)[i], b0[i], bits);
          BitmapChunkLooksUsed(m0, n, b0, i, k, d[..], bitmaps[..]);
          BitmapOffered(m0, n, b0, i, k, d[..], bitmaps[..]);
          NoPool(d[..], n, head, ls, bitmaps[..], start, live);
        }
      } else {
        LastInUse(Bits(m0[i], b0[i]), k, Reserved(shift));
        GaveIs(m0, n, b0, i, k, d[..], bits);
        live, ls := live0 - {start + (i * PAGE_SIZE + k * Size(shift))}, RelistedLists(m0, n, i, ls0);
        GiveTracks(m0, n, h0, ls0, b0, start, live0, i, k, d[..], bitmaps[..]);
        FreeEmptied(i);
      }
    }

    /** The last chunk of page i is gone: the page goes back. */
    method FreeEmptied(i: int)
      requires d.Length == n + LISTS && bitmaps.Length == n && start + n * PAGE_SIZE <= end && 0 <= i < n
      requires Emptying(d[..], n, head, ls, bitmaps[..], start, live, i) && Chunked(d[i]) && ShiftOk(d[i])
      requires !InUse(Bits(d[i], bitmaps[i]), Reserved(ShiftOf(d[i])))
      modifies d, this`head, this`ls
      ensures Valid()
    {
      hide PoolValid, PagesValid, Emptying, OthersSame, FreedShape, InUse;
      ghost var m0, b, ls0, h0 := d[..], bitmaps[..], ls, head;
      EmptyingFacts(m0, n, h0, ls0, b, start, live, i);
      ghost var a, e := FreePages(i, 1);
      FreedOthers(m0, n, h0, ls0, b, d[..], i, 1, a, e);
      NoneUsed(m0[i], b[i]);
      FreedValid(m0, n, h0, ls0, b, start, live, i, d[..], head, ls, live);
    }

    /** Give a whole run back; a second free of a run that is already free, and
        was not joined to an earlier one, only moves it to the front of the list. */
    method GiveRun(i: int, pages: nat)
      requires Valid() && 0 <= i < n && (UsedHead(d[i]) || FreeHead(d[i])) && pages == d[i].slab.n
      modifies d, this`head, this`ls, this`live
      ensures Valid() && live == old(live) - {start + (i * PAGE_SIZE + 0)}
    {
      hide PoolValid, PagesValid, Emptying, OthersSame, FreedShape, FreeHead;
      ghost var m0, b, ls0, h0, live0 := d[..], bitmaps[..], ls, head, live;
      PoolParts(m0, n, h0, ls0, b, start, live0);
      RunHead(m0, n, h0, ls0, i);
      PoolEmptying(m0, n, h0, ls0, b, start, live0, i);
      ghost var a, e := FreePages(i, pages);
      FreedOthers(m0, n, h0, ls0, b, d[..], i, pages, a, e);
      RunInPage(m0[i], b[i]);
      live := live0 - {start + (i * PAGE_SIZE + 0)};
      RunTracked(m0, n, b, start, live0, i);
      FreedValid(m0, n, h0, ls0, b, start, live0, i, d[..], head, ls, live);
    }

    /** The pointer is to a chunk that holds the bitmap of its page. */
    ghost predicate OnBitmap(p: int)
      reads this, d
    {
      && start <= p < start + n * PAGE_SIZE <= start + d.Length * PAGE_SIZE
      && HoldsBitmap(d[(p - start) / PAGE_SIZE], (p - start) % PAGE_SIZE)
    }

    /** The pointer is to the first page of a free run. */
    ghost predicate OnFreeRun(p: int)
      reads this, d
    {
      && start <= p < start + n * PAGE_SIZE <= start + d.Length * PAGE_SIZE
      && (p - start) % PAGE_SIZE == 0 && FreeHead(d[(p - start) / PAGE_SIZE])
    }

    /** A pointer into a page of chunks. */
    method FreeChunk(p: int) returns (ok: bool)
      requires Valid() && start <= p < start + n * PAGE_SIZE <= start + d.Length * PAGE_SIZE
      requires d[(p - start) / PAGE_SIZE].tag != TYPE_PAGE
      modifies d, bitmaps, this`head, this`ls, this`live
      ensures Valid() <==> !old(OnBitmap(p))
      ensures old(OnBitmap(p)) ==> ok && p !in old(live) && !ChunkPages(d[..], n, bitmaps[..])
      ensures Valid() ==> live == old(live) - {p}
      ensures !old(OnBitmap(p)) ==> (ok <==> p in old(live))
      ensures !ok ==> d[..] == old(d[..]) && bitmaps[..] == old(bitmaps[..])
      ensures old(OnBitmap(p)) ==> OffersAddress(d[..], n, bitmaps[..], start, p)
      ensures old(OnBitmap(p)) ==>
                && BitFreed(old(d[..]), n, old(bitmaps[..]), start, p, d[..], bitmaps[..])
                && head == old(head) && ls == old(ls) && live == old(live)
      ensures old(OnBitmap(p) && (d[(p - start) / PAGE_SIZE].next == NULL
                || Leads(d[..], n, (p - start) / PAGE_SIZE))) ==>
                Leads(d[..], n, (p - start) / PAGE_SIZE)
    {
      hide PoolValid, InChunks, HoldsBitmap, Bits, Reserved, IsBlock, Tracks, ChunkPages, Marked, Leads, Size, ShiftOf,
          BitFreed, BitCleared;
      ghost var m0, b := d[..], bitmaps[..];
      PoolParts(m0, n, head, ls, b, start, live);
      var i := (p - start) / PAGE_SIZE;
      var r := (p - start) % PAGE_SIZE;
      PointerFacts(m0, n, head, ls, b, start, live, p, i, r);
      var shift := ShiftOf(d[i]);
      if p % Size(shift) != 0 {
        return false;
      }
      var k := r / Size(shift);
      if !Bits(d[i], bitmaps[i])[k] {
        return false;
      }
      GiveChunk(i, k);
      if k < Reserved(shift) {
        FreedIs(m0, n, b, start, p, i, k, d[..], bitmaps[..]);
      }
      ok := true;
    }

    /** ngx_slab_free_locked; `ok` is false when an alert is logged instead.

        The pointer may be anything but one between the last page and `end`, whose
        descriptor the code would read past the table.  The pool survives exactly if
        the pointer is not to a chunk that holds a page's own bitmap. */
    method Free(p: int) returns (ok: bool)
      requires Valid() && !(start + n * PAGE_SIZE <= p <= end)
      modifies d, bitmaps, this`head, this`ls, this`live
      ensures Valid() <==> !old(OnBitmap(p))
      ensures old(OnBitmap(p)) ==> ok && p !in old(live) && !ChunkPages(d[..], n, bitmaps[..])
      ensures Valid() ==> live == old(live) - {p}
      ensures !old(OnBitmap(p)) ==> (ok <==> p in old(live) || old(OnFreeRun(p)))
      ensures !ok ==> d[..] == old(d[..]) && bitmaps[..] == old(bitmaps[..])
      ensures old(OnBitmap(p)) ==> OffersAddress(d[..], n, bitmaps[..], start, p)
      ensures old(OnBitmap(p)) ==>
                && BitFreed(old(d[..]), n, old(bitmaps[..]), start, p, d[..], bitmaps[..])
                && head == old(head) && ls == old(ls) && live == old(live)
      ensures old(OnBitmap(p) && (d[(p - start) / PAGE_SIZE].next == NULL
                || Leads(d[..], n, (p - start) / PAGE_SIZE))) ==>
                Leads(d[..], n, (p - start) / PAGE_SIZE)
    {
      hide PoolValid, InChunks, HoldsBitmap, Bits, Reserved, IsBlock, Tracks, ChunkPages, Marked, Leads, Size, ShiftOf,
          BitFreed, BitCleared;
      ghost var m0, b := d[..], bitmaps[..];
      PoolParts(m0, n, head, ls, b, start, live);
      if p < start || p > end {
        OutsideNotLive(m0, n, b, start, live, p);
        return false;
      }
      var i := (p - start) / PAGE_SIZE;
      var r := (p - start) % PAGE_SIZE;
      PointerFacts(m0, n, head, ls, b, start, live, p, i, r);
      if d[i].tag == TYPE_PAGE {
        if p % PAGE_SIZE != 0 || d[i].slab == Count(0) || d[i].slab == Busy {
          return false;
        }
        GiveRun(i, d[i].slab.n);
        return true;
      }
      ok := FreeChunk(p);
    }

    /** The bitmap of a page that is full, or first in its list, is freed: the next
        request of that size is given this very piece of the bitmap. */
    method HandOutBitmap(p: int) returns (q: int)
      requires Valid() && OnBitmap(p)
      requires d[(p - start) / PAGE_SIZE].next == NULL || Leads(d[..], n, (p - start) / PAGE_SIZE)
      modifies d, bitmaps, this`head, this`ls, this`live
      ensures q == p && live == old(live) && bitmaps[..] == old(bitmaps[..])
      ensures old(d[(p - start) / PAGE_SIZE].next != NULL) ==> Valid() && d[..] == old(d[..])
    {
      hide PoolValid, ChunkPages, OffersAddress, Leads, Size, Full, HoldsBitmap, Searchable, BitTaken, BitFreed;
      ghost var i, m0, b0 := (p - start) / PAGE_SIZE, d[..], bitmaps[..];
      var ok := Free(p);
      ghost var m1, b1 := d[..], bitmaps[..];
      OfferedFirst(m1, n, b1, start, p);
      FreedSearchable(m0, n, head, ls, b0, start, live, p, m1, b1);
      var shift := ShiftOf(d[(p - start) / PAGE_SIZE]);
      assert d[i] == m1[i] && d[n + (shift - 2)] == m1[n + (shift - 2)];
      var page := d[n + (shift - 2)].next;
      var k := TakeBit(page);
      TakenAgain(m0, n, head, ls, b0, start, live, p, m1, b1, k, d[..], bitmaps[..]);
      q := start + (page * PAGE_SIZE + k * Size(shift));
    }
  }
}
