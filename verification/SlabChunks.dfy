/**
 The chunk layer of src/core/ngx_slab.c: pages of 4096 bytes cut into chunks of
 1 << shift bytes, shift from 3 to 11, with one allocation bit per chunk.

 The bits are in three places.  Small chunks (shift < 6) keep them in the first
 bytes of the page itself, and the chunks those bytes occupy are marked as
 allocated for good.  Exact chunks (shift == 6, 64 to a page) keep them in the
 word `slab`; big chunks keep them in its upper half.
 */
module SlabChunks {
  import opened Common
  import opened Circular
  import opened SlabLists
  import opened SlabPages

  const PAGE_SIZE: nat := 4096
  const PAGE_SHIFT: nat := 12
  const MIN_SHIFT: nat := 3
  const EXACT_SHIFT: nat := 6
  const MAX_SIZE: nat := 2048

  predicate IsShift(shift: nat) { MIN_SHIFT <= shift < PAGE_SHIFT }

  /** 1 << shift */
  function Size(shift: nat): (r: nat)
    requires IsShift(shift)
    ensures r == Pow2(shift)
  {
    match shift
    case 3 => 8 case 4 => 16 case 5 => 32 case 6 => 64 case 7 => 128
    case 8 => 256 case 9 => 512 case 10 => 1024 case _ => 2048
  }

  /** 1 << (ngx_pagesize_shift - shift) */
  function Chunks(shift: nat): (r: nat)
    requires IsShift(shift)
    ensures r * Size(shift) == PAGE_SIZE && 2 <= r
  {
    match shift
    case 3 => 512 case 4 => 256 case 5 => 128 case 6 => 64 case 7 => 32
    case 8 => 16 case 9 => 8 case 10 => 4 case _ => 2
  }

  /** Chunks at the start of the page that hold its bitmap. */
  function Reserved(shift: nat): (r: nat)
    requires IsShift(shift)
    ensures r + 1 < Chunks(shift) || shift >= EXACT_SHIFT
    ensures shift < EXACT_SHIFT ==> Chunks(shift) / 8 <= r * Size(shift) && 1 <= r < 30
    ensures r > 1 ==> (r - 1) * Size(shift) < Chunks(shift) / 8
    ensures shift >= EXACT_SHIFT ==> r == 0
  {
    if shift >= EXACT_SHIFT then 0
    else
      var n := Chunks(shift) / 8 / Size(shift);
      if n == 0 then 1 else n
  }

  // ---------------------------------------------------------- pages of chunks

  predicate ShiftOk(d: Desc) {
    || (d.tag == TYPE_SMALL && d.slab.Shift? && MIN_SHIFT <= d.slab.shift < EXACT_SHIFT)
    || (d.tag == TYPE_EXACT && d.slab.Map?)
    || (d.tag == TYPE_BIG && d.slab.ShiftMap? && EXACT_SHIFT < d.slab.shift < PAGE_SHIFT)
  }

  function ShiftOf(d: Desc): (shift: nat)
    requires ShiftOk(d)
    ensures IsShift(shift)
    ensures Home(d) == shift - 2 && d.tag == TagOf(shift - 2)
  {
    if d.slab.Map? then EXACT_SHIFT else d.slab.shift
  }

  /** The allocation bits of a page, `bm` being the bitmap inside the page. */
  function Bits(d: Desc, bm: seq<bool>): seq<bool>
    requires ShiftOk(d)
  {
    if d.tag == TYPE_SMALL then bm else d.slab.bits
  }

  predicate Full(bits: seq<bool>) { forall k :: 0 <= k < |bits| ==> bits[k] }

  predicate InUse(bits: seq<bool>, from: nat) { exists k :: from <= k < |bits| && bits[k] }

  /** One bit per chunk, the bitmap's own chunks taken, at least one chunk in
      use; the page is off its slot list exactly when no chunk is left. */
  predicate ChunkPage(d: Desc, bm: seq<bool>) {
    && ShiftOk(d)
    && |Bits(d, bm)| == Chunks(ShiftOf(d))
    && (forall k :: 0 <= k < Reserved(ShiftOf(d)) ==> Bits(d, bm)[k])
    && InUse(Bits(d, bm), Reserved(ShiftOf(d)))
    && (d.next == NULL <==> Full(Bits(d, bm)))
  }

  /** The bitmaps inside the pages, by page. */
  type Bitmaps = seq<seq<bool>>

  ghost predicate ChunkPages(m: Table, n: nat, bms: Bitmaps) {
    && |bms| == n <= |m|
    && forall i :: 0 <= i < n && Chunked(m[i]) ==> ChunkPage(m[i], bms[i])
  }

  // ----------------------------------------------------------- live blocks

  /** A block in use starts r bytes into the page. */
  predicate InPage(d: Desc, bm: seq<bool>, r: int)
    requires 0 <= r < PAGE_SIZE
  {
    if !Chunked(d) then UsedHead(d) && r == 0
    else
      && ShiftOk(d)
      && r % Size(ShiftOf(d)) == 0
      && Reserved(ShiftOf(d)) <= r / Size(ShiftOf(d)) < |Bits(d, bm)|
      && Bits(d, bm)[r / Size(ShiftOf(d))]
  }

  /** A block in use starts `off` bytes into the page area. */
  predicate IsBlock(m: Table, n: nat, bms: Bitmaps, off: int)
    requires |bms| == n <= |m|
  {
    0 <= off < n * PAGE_SIZE && InPage(m[off / PAGE_SIZE], bms[off / PAGE_SIZE], off % PAGE_SIZE)
  }

  /** The size of the blocks that start in this page. */
  function Capacity(d: Desc): nat {
    if !Chunked(d) then RunLength(d) * PAGE_SIZE
    else if ShiftOk(d) then Size(ShiftOf(d)) else 0
  }

  /** A block of `size` bytes is in the smallest chunk that holds it, or from half a page on
      in the smallest number of pages. */
  predicate Snug(size: nat, capacity: nat) {
    && size <= capacity
    && if size < PAGE_SIZE / 2 then capacity < PAGE_SIZE && (capacity == 8 || capacity < 2 * size)
       else capacity % PAGE_SIZE == 0 && capacity < size + PAGE_SIZE
  }

  /** A block lies in the run of the page it starts in; a chunk lies in one
      page, past the bitmap, and is aligned to its size. */
  lemma BlockExtent(m: Table, n: nat, head: seq<int>, bms: Bitmaps, off: int)
    requires Partition(m, n, head) && ChunkPages(m, n, bms) && IsBlock(m, n, bms, off)
    ensures var i := off / PAGE_SIZE;
            && 0 <= i < n && head[i] == i && i + RunLength(m[i]) <= n
            && i * PAGE_SIZE <= off && off + Capacity(m[i]) <= (i + RunLength(m[i])) * PAGE_SIZE
    ensures var i := off / PAGE_SIZE;
            if Chunked(m[i]) then
              var shift := ShiftOf(m[i]);
              && off % Size(shift) == 0
              && (shift < EXACT_SHIFT ==> i * PAGE_SIZE + Chunks(shift) / 8 <= off)
            else off % PAGE_SIZE == 0
  {
    var i, r := off / PAGE_SIZE, off % PAGE_SIZE;
    BlockHead(m, n, head, i);
    if Chunked(m[i]) {
      var shift := ShiftOf(m[i]);
      assert ChunkPage(m[i], bms[i]);
      ChunkExtent(shift, i, r);
    }
  }

  lemma BlockHead(m: Table, n: nat, head: seq<int>, i: int)
    requires Partition(m, n, head) && 0 <= i < n && (UsedHead(m[i]) || Chunked(m[i]))
    ensures head[i] == i && i + RunLength(m[i]) <= n
  {
    assert Local(m, head, i);
  }

  lemma ChunkExtent(shift: nat, i: nat, r: nat)
    requires IsShift(shift) && r < PAGE_SIZE && r % Size(shift) == 0 && Reserved(shift) <= r / Size(shift)
    ensures r + Size(shift) <= PAGE_SIZE
    ensures (i * PAGE_SIZE + r) % Size(shift) == 0
    ensures shift < EXACT_SHIFT ==> Chunks(shift) / 8 <= r
  {
    ChunksOrdered(shift, r, PAGE_SIZE) by { PageAligned(shift, 1); }
    PageAligned(shift, i);
    AlignedSum(shift, i * PAGE_SIZE, r);
    if shift < EXACT_SHIFT {
      assert r == (r / Size(shift)) * Size(shift);
      MulMono(Reserved(shift), r / Size(shift), Size(shift));
    }
  }

  lemma MulMono(a: nat, b: nat, c: nat)
    requires a <= b
    ensures a * c <= b * c
  {
  }

  lemma PageAligned(shift: nat, i: int)
    requires IsShift(shift)
    ensures (i * PAGE_SIZE) % Size(shift) == 0
  {
    var z, c := Size(shift), Chunks(shift);
    assert i * PAGE_SIZE == (i * c) * z;
    Multiple(i * c, z);
  }

  lemma AlignedSum(shift: nat, a: int, b: int)
    requires IsShift(shift) && a % Size(shift) == 0 && b % Size(shift) == 0
    ensures (a + b) % Size(shift) == 0
  {
    var z := Size(shift);
    assert a + b == (a / z + b / z) * z;
    Multiple(a / z + b / z, z);
  }

  lemma Multiple(q: int, z: int)
    requires z > 0
    ensures (q * z) % z == 0 && (q * z) / z == q
  {
    var k := q - (q * z) / z;
    assert k * z == (q * z) % z;
    assert k >= 1 ==> k * z >= z;
    assert k <= -1 ==> k * z <= -z;
  }

  /** No two blocks in use overlap. */
  lemma BlocksDisjoint(m: Table, n: nat, head: seq<int>, bms: Bitmaps, a: int, b: int)
    requires Partition(m, n, head) && ChunkPages(m, n, bms)
    requires IsBlock(m, n, bms, a) && IsBlock(m, n, bms, b) && a < b
    ensures a + Capacity(m[a / PAGE_SIZE]) <= b
  {
    BlockExtent(m, n, head, bms, a);
    BlockExtent(m, n, head, bms, b);
    var i, j := a / PAGE_SIZE, b / PAGE_SIZE;
    if i < j {
      RunsOrdered(m, n, head, i, j);
    } else {
      assert i == j;
      var shift := ShiftOf(m[i]);
      ChunksOrdered(shift, a, b);
    }
  }

  lemma RunsOrdered(m: Table, n: nat, head: seq<int>, i: int, j: int)
    requires Partition(m, n, head) && 0 <= i < j < n && head[i] == i && head[j] == j
    ensures i + RunLength(m[i]) <= j
  {
    assert Local(m, head, i);
    CoversNoOther(head, i, i + RunLength(m[i]), j);
  }

  lemma ChunksOrdered(shift: nat, a: int, b: int)
    requires IsShift(shift) && a < b && a % Size(shift) == 0 && b % Size(shift) == 0
    ensures a + Size(shift) <= b
  {
    Multiples(Size(shift), a, b);
  }

  lemma Multiples(z: nat, a: int, b: int)
    requires z > 0 && a < b && a % z == 0 && b % z == 0
    ensures a + z <= b
  {
    var k := b / z - a / z;
    assert b - a == k * z;
    assert k >= 1 ==> k * z >= z;
    assert k <= 0 ==> k * z <= 0;
  }

  // ------------------------------------------- changes to one page of chunks

  /** Only page i changed, and it is or becomes a page of chunks. */
  lemma ChunkPartition(m: Table, n: nat, head: seq<int>, m': Table, i: int)
    requires Partition(m, n, head) && |m'| == |m| && 0 <= i < n && head[i] == i
    requires RunLength(m[i]) == 1 && Chunked(m'[i])
    requires forall x :: 0 <= x < n && x != i ==> Kept(m[x], m'[x], head[x] != x)
    ensures Partition(m', n, head)
  {
    hide FreeRun;
    NextRunHead(m, n, head, i);
    assert Local(m', head, i) by {
      assert Covers(head, i, i + 1);
    }
    hide Local;
    RePartition(m, n, head, m', head, i, i + 1);
  }

  /** The word `slab` of a page of chunks changes, but not its chunk size. */
  lemma SlabChange(m: Table, n: nat, head: seq<int>, ls: seq<seq<int>>, i: int, slab: Slab)
    requires PagesValid(m, n, head, ls) && 0 <= i < n && Chunked(m[i])
    requires Home(m[i].(slab := slab)) == Home(m[i])
    ensures PagesValid(m[i := m[i].(slab := slab)], n, head, ls)
  {
    hide Ring, Apart, Local;
    var m' := m[i := m[i].(slab := slab)];
    RingsFrame(m, m', n, ls);
    BlockHead(m, n, head, i);
    ChunkPartition(m, n, head, m', i);
  }

  /** A page of chunks that has filled up leaves its slot list. */
  function DroppedFull(m: Table, i: int): (m': Table)
    requires Linked(m, i)
    ensures |m'| == |m|
  {
    var m1 := Unlinked(m, i);
    m1[i := m1[i].(next := NULL, prev := NULL, tag := m[i].tag)]
  }

  lemma DropFull(m: Table, n: nat, head: seq<int>, ls: seq<seq<int>>, i: int)
    requires PagesValid(m, n, head, ls) && 0 <= i < n && Chunked(m[i]) && m[i].next != NULL
    ensures Linked(m, i) && m[i].prev != i && i in ls[Home(m[i])]
    ensures PagesValid(DroppedFull(m, i), n, head, Removed(ls, Home(m[i]), i))
    ensures forall x :: 0 <= x < n && x != i ==> Kept(m[x], DroppedFull(m, i)[x], head[x] != x)
    ensures DroppedFull(m, i)[i].slab == m[i].slab && DroppedFull(m, i)[i].tag == m[i].tag
  {
    hide Ring, Apart, Local, Partition, Unlinked, Linked, Removed;
    var j := Home(m[i]);
    BlockHead(m, n, head, i);
    RunFacts(m, n, head, ls, i);
    RemovedRings(m, n, ls, j, i);
    var m1, ls' := Unlinked(m, i), Removed(ls, j, i);
    var m' := DroppedFull(m, i);
    RingsFrame(m1, m', n, ls');
    forall x | 0 <= x < n && x != i ensures Kept(m[x], m'[x], head[x] != x) {
      UnlinkKeeps(m, n, ls, j, i, x);
      HeadFacts(m, n, head, ls, x);
    }
    UnlinkKeeps(m, n, ls, j, i, i);
    ChunkPartition(m, n, head, m', i);
    HomesOthers(m, n, ls, m', ls', i);
  }

  /** Pages other than i are where they were. */
  lemma HomesOthers(m: Table, n: nat, ls: seq<seq<int>>, m': Table, ls': seq<seq<int>>, i: int)
    requires Homes(m, n, ls) && |m'| == |m| && |ls'| == LISTS && 0 <= i < n
    requires forall x :: 0 <= x < n && x != i ==> Same(m[x], m'[x])
    requires forall j, x :: 0 <= j < LISTS && x != i ==> (x in ls'[j] <==> x in ls[j])
    requires forall j :: 0 <= j < LISTS && i in ls'[j] ==> Home(m'[i]) == j && m'[i].tag == TagOf(j)
    requires m'[i].next != NULL ==> i in ls'[Home(m'[i])]
    ensures Homes(m', n, ls')
  {
    forall j, x | 0 <= j < LISTS && x in ls'[j] ensures AtHome(m', n, j, x) {
      if x != i {
        assert x in ls[j];
        assert Same(m[x], m'[x]);
      }
    }
    forall x | 0 <= x < n && m'[x].next != NULL ensures x in ls'[Home(m'[x])] {
      if x != i {
        assert Same(m[x], m'[x]);
        assert x in ls[Home(m[x])];
      }
    }
  }

  lemma SlotHead(m: Table, n: nat, ls: seq<seq<int>>, j: nat)
    requires Rings(m, n, ls) && j < LISTS
    ensures |m| == n + LISTS && 0 <= m[n + j].next < |m| && m[n + j].next == At(ls[j], n + j, 0)
    ensures m[n + j].next == n + j || (m[n + j].next in ls[j] && 0 <= m[n + j].next < n)
  {
    hide Ring, Apart;
    assert Ring(m, n + j, ls[j]);
    RingHead(m, n + j, ls[j]);
  }

  /** A full page of chunks from which a chunk is freed returns to its list. */
  lemma AddBack(m: Table, n: nat, head: seq<int>, ls: seq<seq<int>>, i: int, j: nat, m': Table)
    requires 0 <= i < n && |m| == n + LISTS && |head| == n && j == Home(m[i]) && m[i].tag == TagOf(j)
    requires Chunked(m[i]) && m[i].next == NULL && 0 <= m[n + j].next < |m| && m' == Pushed(m, n + j, i, m[i].tag)
    requires PagesValid(m, n, head, ls)
    ensures PagesValid(m', n, head, ls[j := [i] + ls[j]])
    ensures forall x :: 0 <= x < n && x != i ==> Kept(m[x], m'[x], head[x] != x)
    ensures m'[i].slab == m[i].slab && m'[i].tag == m[i].tag && m'[i].next != NULL
  {
    hide Ring, Apart, Local, Partition, Pushed;
    var s, l := n + j, ls[j];
    BlockHead(m, n, head, i);
    RingsMembersLinked(m, n, ls, i);
    SlotHead(m, n, ls, j);
    RingsPush(m, n, ls, j, i, m[i].tag);
    var ls' := ls[j := [i] + l];
    forall x | 0 <= x < n ensures x != i ==> Kept(m[x], m'[x], head[x] != x)
      ensures m'[x].slab == m[x].slab && (x == i ==> m'[x].tag == m[i].tag && m'[x].next != NULL)
    {
      PushedAt(m, s, i, m[i].tag, x);
      HeadFacts(m, n, head, ls, x);
    }
    ChunkPartition(m, n, head, m', i);
    HomesOthers(m, n, ls, m', ls', i);
  }

  /** A page just taken from the free pages starts an empty slot list. */
  function Started(m: Table, i: int, s: int, slab: Slab, tag: nat): (m': Table)
    requires 0 <= i < |m| && 0 <= s < |m|
    ensures |m'| == |m|
  {
    SetNext(m[i := Desc(slab, s, s, tag)], s, i)
  }

  lemma StartList(m: Table, n: nat, head: seq<int>, ls: seq<seq<int>>, i: int, j: nat, slab: Slab, tag: nat, m': Table)
    requires 0 <= i < n && |m| == n + LISTS && 1 <= j < LISTS && tag == TagOf(j)
    requires m' == Started(m, i, n + j, slab, tag) && Home(Desc(slab, n + j, n + j, tag)) == j
    requires UsedHead(m[i]) && m[i].slab.n == 1
    requires PagesValid(m, n, head, ls) && ls[j] == []
    ensures PagesValid(m', n, head, ls[j := [i]])
  {
    hide Ring, Apart, Local, Partition;
    BlockHead(m, n, head, i);
    HeadFacts(m, n, head, ls, i);
    var ls' := ls[j := [i]];
    forall a | 0 <= a < LISTS ensures Ring(m', n + a, ls'[a]) {
      if a == j {
        RingSingle(m', n + j, i);
      } else {
        assert Ring(m, n + a, ls[a]);
        RingFrameOther(m, m', n, ls, a, i, j);
      }
    }
    assert Apart(ls') by {
      ApartAdd(ls, j, i);
    }
    ChunkPartition(m, n, head, m', i);
    HomesOthers(m, n, ls, m', ls', i);
  }

  lemma RingSingle(m: Table, s: int, i: int)
    requires 0 <= s < |m| && 0 <= i < |m| && i != s && m[s].next == i && m[i].next == s && m[i].prev == s
    ensures Ring(m, s, [i])
  {
  }

  lemma ApartAdd(ls: seq<seq<int>>, j: nat, i: int)
    requires j < |ls| && ls[j] == [] && Apart(ls) && Absent(ls, i)
    ensures Apart(ls[j := [i]])
  {
  }

  lemma RingFrameOther(m: Table, m': Table, n: nat, ls: seq<seq<int>>, a: nat, i: int, j: nat)
    requires Rings(m, n, ls) && |m'| == |m| && a < LISTS && j < LISTS && a != j && 0 <= i < n && i !in ls[a]
    requires forall x :: 0 <= x < |m| && x != i && x != n + j ==> m'[x] == m[x]
    ensures Ring(m', n + a, ls[a])
  {
    hide Ring;
    assert Ring(m, n + a, ls[a]);
    forall c | 0 <= c < |ls[a]|
      ensures 0 <= ls[a][c] < n && m'[ls[a][c]] == m[ls[a][c]]
    {
      assert ls[a][c] in ls[a];
    }
    RingFrame(m, m', n + a, ls[a]);
  }

  // ------------------------------------------------------------ the whole pool

  /** `live` is the history of the pool: which addresses are handed out, and for
      what size.  They are exactly the blocks in use, and each is big enough. */
  ghost predicate Tracks(m: Table, n: nat, bms: Bitmaps, start: int, live: map<int, nat>) {
    && |bms| == n <= |m|
    && (forall off :: start + off in live <==> IsBlock(m, n, bms, off))
    && (forall off :: IsBlock(m, n, bms, off) ==>
       start + off in live && Snug(live[start + off], Capacity(m[off / PAGE_SIZE])))
  }

  ghost predicate PoolValid(m: Table, n: nat, head: seq<int>, ls: seq<seq<int>>, bms: Bitmaps, start: int,
                            live: map<int, nat>) {
    && 0 < n && 0 < start && start % PAGE_SIZE == 0
    && PagesValid(m, n, head, ls)
    && ChunkPages(m, n, bms)
    && Tracks(m, n, bms, start, live)
  }

  /** A block of `size` bytes at `off`, in page i: aligned, inside its chunk, and
      past the bitmap when the page carries one. */
  predicate Placed(d: Desc, bm: seq<bool>, i: int, off: int, size: nat) {
    if Chunked(d) then
      && ShiftOk(d)
      && size <= Size(ShiftOf(d)) && off % Size(ShiftOf(d)) == 0
      && (d.tag == TYPE_SMALL ==> i * PAGE_SIZE + |bm| / 8 <= off)
    else
      off % PAGE_SIZE == 0 && size <= RunLength(d) * PAGE_SIZE
  }

  /** Across any run of allocations and frees: what is handed out lies in the
      page area, is as big as requested, aligned to its chunk or page size, and
      apart from everything else handed out and from the bitmaps. */
  lemma LiveBlocks(m: Table, n: nat, head: seq<int>, ls: seq<seq<int>>, bms: Bitmaps, start: int,
                   live: map<int, nat>, a: int)
    requires PoolValid(m, n, head, ls, bms, start, live) && a in live
    ensures start <= a && a + live[a] <= start + n * PAGE_SIZE
    ensures forall b :: b in live && a < b ==> a + live[a] <= b
    ensures var i := (a - start) / PAGE_SIZE;
            0 <= i < n && Placed(m[i], bms[i], i, a - start, live[a]) && Snug(live[a], Capacity(m[i]))
  {
    hide PagesValid;
    var off := a - start;
    assert a == start + off;
    assert Partition(m, n, head) by { PartitionOf(m, n, head, ls); }
    hide Partition, Local;
    BlockExtent(m, n, head, bms, off);
    forall b | b in live && a < b ensures a + live[a] <= b {
      assert b == start + (b - start);
      BlocksDisjoint(m, n, head, bms, off, b - start);
    }
    if Chunked(m[off / PAGE_SIZE]) {
      assert ChunkPage(m[off / PAGE_SIZE], bms[off / PAGE_SIZE]);
    }
  }

  lemma PartitionOf(m: Table, n: nat, head: seq<int>, ls: seq<seq<int>>)
    requires PagesValid(m, n, head, ls)
    ensures Partition(m, n, head)
  {
  }

  /** Once everything is given back, the pool is one free run again. */
  lemma NothingLive(m: Table, n: nat, head: seq<int>, ls: seq<seq<int>>, bms: Bitmaps, start: int, live: map<int, nat>)
    requires PoolValid(m, n, head, ls, bms, start, live) && live == map[]
    ensures m[0].slab == Count(n) && ls[0] == [0]
    ensures forall j :: 1 <= j < LISTS ==> ls[j] == []
    ensures forall i :: 0 <= i < n ==> head[i] == 0
  {
    hide Rings, Homes;
    forall i | 0 <= i < n && head[i] == i ensures FreeHead(m[i]) {
      assert Local(m, head, i);
      if Chunked(m[i]) {
        assert ChunkPage(m[i], bms[i]);
        var k :| Reserved(ShiftOf(m[i])) <= k < |Bits(m[i], bms[i])| && Bits(m[i], bms[i])[k];
        ChunkOffset(m, n, bms, i, k);
        assert false;
      } else if UsedHead(m[i]) {
        RunOffset(m, n, bms, i);
        assert false;
      }
    }
    AllFreeIsOneRun(m, n, head, ls);
  }

  lemma RunOffset(m: Table, n: nat, bms: Bitmaps, i: int)
    requires |bms| == n <= |m| && 0 <= i < n && UsedHead(m[i])
    ensures IsBlock(m, n, bms, i * PAGE_SIZE)
  {
    assert (i * PAGE_SIZE) / PAGE_SIZE == i && (i * PAGE_SIZE) % PAGE_SIZE == 0;
  }

  lemma ChunkOffset(m: Table, n: nat, bms: Bitmaps, i: int, k: int)
    requires |bms| == n <= |m| && 0 <= i < n && Chunked(m[i]) && ChunkPage(m[i], bms[i])
    requires Reserved(ShiftOf(m[i])) <= k < |Bits(m[i], bms[i])| && Bits(m[i], bms[i])[k]
    ensures IsBlock(m, n, bms, i * PAGE_SIZE + k * Size(ShiftOf(m[i])))
  {
    var shift := ShiftOf(m[i]);
    ChunkStart(shift, k);
    var off := i * PAGE_SIZE + k * Size(shift);
    assert off / PAGE_SIZE == i && off % PAGE_SIZE == k * Size(shift);
  }

  /** Chunk k starts inside the page, and its number can be read off. */
  lemma ChunkStart(shift: nat, k: int)
    requires IsShift(shift) && 0 <= k < Chunks(shift)
    ensures 0 <= k * Size(shift) < PAGE_SIZE
    ensures (k * Size(shift)) % Size(shift) == 0 && (k * Size(shift)) / Size(shift) == k
  {
    Multiple(k, Size(shift));
    MulMono(k, Chunks(shift) - 1, Size(shift));
  }

  // ------------------------------------------- how the blocks in use change

  ghost predicate SameBlocks(d: Desc, bm: seq<bool>, d': Desc, bm': seq<bool>) {
    forall r :: 0 <= r < PAGE_SIZE ==>
      && (InPage(d', bm', r) <==> InPage(d, bm, r))
      && (InPage(d, bm, r) ==> Capacity(d') == Capacity(d))
  }

  lemma SameSlabSameBlocks(d: Desc, bm: seq<bool>, d': Desc)
    requires d'.slab == d.slab && d'.tag == d.tag
    ensures SameBlocks(d, bm, d', bm)
  {
  }

  lemma NoBlocks(d: Desc, bm: seq<bool>, d': Desc, bm': seq<bool>)
    requires forall r :: 0 <= r < PAGE_SIZE ==> !InPage(d, bm, r) && !InPage(d', bm', r)
    ensures SameBlocks(d, bm, d', bm')
  {
  }

  ghost predicate OthersSame(m: Table, n: nat, bms: Bitmaps, m': Table, bms': Bitmaps, i: int) {
    && |bms| == |bms'| == n <= |m| == |m'|
    && forall x :: 0 <= x < n && x != i ==> SameBlocks(m[x], bms[x], m'[x], bms'[x])
  }

  lemma OffsetParts(i: int, r: int, off: int)
    requires 0 <= r < PAGE_SIZE
    ensures off == i * PAGE_SIZE + r <==> off / PAGE_SIZE == i && off % PAGE_SIZE == r
  {
  }

  /** One block appears at r in page i. */
  lemma TracksAdd(m: Table, n: nat, bms: Bitmaps, m': Table, bms': Bitmaps, start: int, live: map<int, nat>, i: int,
                  r: int, size: nat)
    requires Tracks(m, n, bms, start, live) && OthersSame(m, n, bms, m', bms', i)
    requires 0 <= i < n && 0 <= r < PAGE_SIZE && Snug(size, Capacity(m'[i]))
    requires forall x :: 0 <= x < PAGE_SIZE ==> (InPage(m'[i], bms'[i], x) <==> InPage(m[i], bms[i], x) || x == r)
    requires forall x :: 0 <= x < PAGE_SIZE && InPage(m[i], bms[i], x) ==> Capacity(m'[i]) == Capacity(m[i])
    ensures Tracks(m', n, bms', start, live[start + (i * PAGE_SIZE + r) := size])
  {
    hide InPage, Capacity;
    var live' := live[start + (i * PAGE_SIZE + r) := size];
    forall off
      ensures start + off in live' <==> IsBlock(m', n, bms', off)
      ensures IsBlock(m', n, bms', off) ==>
                start + off in live' && Snug(live'[start + off], Capacity(m'[off / PAGE_SIZE]))
    {
      OffsetParts(i, r, off);
      var p := off / PAGE_SIZE;
      assert 0 <= off < n * PAGE_SIZE && p != i ==> SameBlocks(m[p], bms[p], m'[p], bms'[p]);
      assert start + off in live <==> IsBlock(m, n, bms, off);
    }
  }

  /** One block disappears at r from page i. */
  lemma TracksRemove(m: Table, n: nat, bms: Bitmaps, m': Table, bms': Bitmaps, start: int, live: map<int, nat>,
                     i: int, r: int)
    requires Tracks(m, n, bms, start, live) && OthersSame(m, n, bms, m', bms', i)
    requires 0 <= i < n && 0 <= r < PAGE_SIZE
    requires forall x :: 0 <= x < PAGE_SIZE ==> (InPage(m'[i], bms'[i], x) <==> InPage(m[i], bms[i], x) && x != r)
    requires forall x :: 0 <= x < PAGE_SIZE && InPage(m'[i], bms'[i], x) ==> Capacity(m'[i]) == Capacity(m[i])
    ensures Tracks(m', n, bms', start, live - {start + (i * PAGE_SIZE + r)})
  {
    hide InPage, Capacity;
    var live' := live - {start + (i * PAGE_SIZE + r)};
    forall off
      ensures start + off in live' <==> IsBlock(m', n, bms', off)
      ensures IsBlock(m', n, bms', off) ==>
                start + off in live' && Snug(live'[start + off], Capacity(m'[off / PAGE_SIZE]))
    {
      OffsetParts(i, r, off);
      var p := off / PAGE_SIZE;
      assert 0 <= off < n * PAGE_SIZE && p != i ==> SameBlocks(m[p], bms[p], m'[p], bms'[p]);
      assert start + off in live <==> IsBlock(m, n, bms, off);
    }
  }

  lemma TracksKeep(m: Table, n: nat, bms: Bitmaps, m': Table, bms': Bitmaps, start: int, live: map<int, nat>)
    requires Tracks(m, n, bms, start, live) && OthersSame(m, n, bms, m', bms', -1)
    ensures Tracks(m', n, bms', start, live)
  {
    hide InPage, Capacity;
    forall off
      ensures start + off in live <==> IsBlock(m', n, bms', off)
      ensures IsBlock(m', n, bms', off) ==>
                start + off in live && Snug(live[start + off], Capacity(m'[off / PAGE_SIZE]))
    {
      var p := off / PAGE_SIZE;
      assert 0 <= off < n * PAGE_SIZE ==> SameBlocks(m[p], bms[p], m'[p], bms'[p]);
      assert start + off in live <==> IsBlock(m, n, bms, off);
    }
  }

  // ---------------------------------------------------------- taking a chunk

  /** The descriptor with new allocation bits, where they are kept in it. */
  function WithBits(d: Desc, bits: seq<bool>): (d': Desc)
    requires ShiftOk(d)
    ensures ShiftOk(d') && ShiftOf(d') == ShiftOf(d) && d'.tag == d.tag && d'.next == d.next && d'.prev == d.prev
  {
    if d.tag == TYPE_SMALL then d else d.(slab := d.slab.(bits := bits))
  }

  /** The bitmap in the page, where the bits are kept there. */
  function InPageBits(d: Desc, bm: seq<bool>, bits: seq<bool>): (bm': seq<bool>)
    requires ShiftOk(d)
    ensures Bits(WithBits(d, bits), bm') == bits
  {
    if d.tag == TYPE_SMALL then bits else bm
  }

  lemma BitBlocks(d: Desc, bm: seq<bool>, d': Desc, bm': seq<bool>, k: nat, b: bool)
    requires ShiftOk(d) && ShiftOk(d') && ShiftOf(d') == ShiftOf(d) && d'.tag == d.tag
    requires Reserved(ShiftOf(d)) <= k < |Bits(d, bm)| == Chunks(ShiftOf(d))
    requires Bits(d', bm') == Bits(d, bm)[k := b]
    ensures var r := k * Size(ShiftOf(d));
            && 0 <= r < PAGE_SIZE
            && forall x :: 0 <= x < PAGE_SIZE ==> (InPage(d', bm', x) <==> if x == r then b else InPage(d, bm, x))
    ensures Capacity(d') == Capacity(d) == Size(ShiftOf(d))
  {
    var shift := ShiftOf(d);
    ChunkStart(shift, k);
    var r := k * Size(shift);
    forall x | 0 <= x < PAGE_SIZE ensures InPage(d', bm', x) <==> if x == r then b else InPage(d, bm, x) {
      if x % Size(shift) == 0 && x / Size(shift) == k {
        assert x == r;
      }
    }
  }

  /** Pages other than i keep their chunks when they keep their descriptors. */
  lemma OthersKept(m: Table, n: nat, head: seq<int>, bms: Bitmaps, m': Table, bms': Bitmaps, i: int)
    requires |bms| == |bms'| == n == |head| <= |m| == |m'| && 0 <= i < n
    requires forall x :: 0 <= x < n && x != i ==> Kept(m[x], m'[x], head[x] != x) && bms'[x] == bms[x]
    ensures OthersSame(m, n, bms, m', bms', i)
    ensures forall x :: 0 <= x < n && x != i && Chunked(m[x]) && ChunkPage(m[x], bms[x]) ==> ChunkPage(m'[x], bms'[x])
  {
    hide SameBlocks, ChunkPage;
    forall x | 0 <= x < n && x != i
      ensures SameBlocks(m[x], bms[x], m'[x], bms'[x])
      ensures Chunked(m[x]) && ChunkPage(m[x], bms[x]) ==> ChunkPage(m'[x], bms'[x])
    {
      assert Kept(m[x], m'[x], head[x] != x);
      SameSlabSameBlocks(m[x], bms[x], m'[x]);
      SameChunkPage(m[x], bms[x], m'[x]);
    }
  }

  lemma SameChunkPage(d: Desc, bm: seq<bool>, d': Desc)
    requires Same(d, d')
    ensures ChunkPage(d, bm) ==> ChunkPage(d', bm)
  {
  }

  predicate HasRoom(m: Table, n: nat, bms: Bitmaps, i: int, k: int) {
    && |bms| == n && |m| == n + LISTS && 0 <= i < n
    && Chunked(m[i]) && ShiftOk(m[i]) && m[i].next != NULL
    && |Bits(m[i], bms[i])| == Chunks(ShiftOf(m[i]))
    && 0 <= k < |Bits(m[i], bms[i])| && !Bits(m[i], bms[i])[k]
  }

  function TakenBits(m: Table, n: nat, bms: Bitmaps, i: int, k: int): (bits: seq<bool>)
    requires HasRoom(m, n, bms, i, k)
  {
    Bits(m[i], bms[i])[k := true]
  }

  /** Chunk k of page i is handed out; a page that fills up leaves its list. */
  function TookChunk(m: Table, n: nat, bms: Bitmaps, i: int, k: int): (m': Table)
    requires HasRoom(m, n, bms, i, k) && Linked(m, i)
    ensures |m'| == |m|
  {
    var bits := TakenBits(m, n, bms, i, k);
    var m1 := m[i := WithBits(m[i], bits)];
    if Full(bits) then DroppedFull(m1, i) else m1
  }

  ghost function TookLists(m: Table, n: nat, bms: Bitmaps, i: int, k: int, ls: seq<seq<int>>): (ls': seq<seq<int>>)
    requires HasRoom(m, n, bms, i, k) && |ls| == LISTS && i in ls[Home(m[i])]
  {
    if Full(TakenBits(m, n, bms, i, k)) then Removed(ls, Home(m[i]), i) else ls
  }

  lemma TookPages(m: Table, n: nat, head: seq<int>, ls: seq<seq<int>>, bms: Bitmaps, i: int, k: int, m': Table)
    requires HasRoom(m, n, bms, i, k) && Linked(m, i) && m' == TookChunk(m, n, bms, i, k)
    requires |ls| == LISTS && i in ls[Home(m[i])] && |head| == n
    requires PagesValid(m, n, head, ls)
    ensures PagesValid(m', n, head, TookLists(m, n, bms, i, k, ls))
    ensures forall x :: 0 <= x < n && x != i ==> Kept(m[x], m'[x], head[x] != x)
    ensures var bits := TakenBits(m, n, bms, i, k);
            && m'[i].slab == WithBits(m[i], bits).slab && m'[i].tag == m[i].tag
            && (m'[i].next == NULL <==> Full(bits))
  {
    hide PagesValid, DroppedFull, Removed, Full;
    var bits := TakenBits(m, n, bms, i, k);
    var d1 := WithBits(m[i], bits);
    SlabChange(m, n, head, ls, i, d1.slab);
    var m1 := m[i := d1];
    assert m1 == m[i := m[i].(slab := d1.slab)];
    if Full(bits) {
      DropFull(m1, n, head, ls, i);
      DroppedNull(m1, i);
    }
  }

  lemma DroppedNull(m: Table, i: int)
    requires Linked(m, i)
    ensures DroppedFull(m, i)[i].next == NULL
  {
  }

  lemma TakeValid(m: Table, n: nat, head: seq<int>, ls: seq<seq<int>>, bms: Bitmaps, start: int, live: map<int, nat>,
                  i: int, k: int, size: nat, m': Table)
    requires HasRoom(m, n, bms, i, k) && Linked(m, i) && m' == TookChunk(m, n, bms, i, k)
    requires |ls| == LISTS && i in ls[Home(m[i])] && |head| == n && Snug(size, Size(ShiftOf(m[i])))
    requires PoolValid(m, n, head, ls, bms, start, live)
    ensures var bits := TakenBits(m, n, bms, i, k);
            PoolValid(m', n, head, TookLists(m, n, bms, i, k, ls), bms[i := InPageBits(m[i], bms[i], bits)], start,
                      live[start + (i * PAGE_SIZE + k * Size(ShiftOf(m[i]))) := size])
    ensures start + (i * PAGE_SIZE + k * Size(ShiftOf(m[i]))) !in live
  {
    hide PagesValid, TookChunk, TookLists, Tracks, SameBlocks, InPage, ChunkPage;
    var bits := TakenBits(m, n, bms, i, k);
    var bms' := bms[i := InPageBits(m[i], bms[i], bits)];
    TookPages(m, n, head, ls, bms, i, k, m');
    OthersKept(m, n, head, bms, m', bms', i);
    ChunkPageFacts(m[i], bms[i]);
    TakenChunkPage(m[i], bms[i], k, m'[i], bms'[i]);
    BitBlocks(m[i], bms[i], m'[i], bms'[i], k, true);
    TracksAdd(m, n, bms, m', bms', start, live, i, k * Size(ShiftOf(m[i])), size);
    NotTracked(m, n, bms, start, live, i, k);
  }

  lemma ChunkPageFacts(d: Desc, bm: seq<bool>)
    requires ChunkPage(d, bm)
    ensures ShiftOk(d) && |Bits(d, bm)| == Chunks(ShiftOf(d))
    ensures forall k :: 0 <= k < |Bits(d, bm)| && !Bits(d, bm)[k] ==> Reserved(ShiftOf(d)) <= k
    ensures d.next == NULL <==> Full(Bits(d, bm))
  {
  }

  lemma TakenChunkPage(d: Desc, bm: seq<bool>, k: nat, d': Desc, bm': seq<bool>)
    requires ChunkPage(d, bm) && ShiftOk(d') && ShiftOf(d') == ShiftOf(d) && d'.tag == d.tag
    requires k < |Bits(d, bm)| && !Bits(d, bm)[k] && Bits(d', bm') == Bits(d, bm)[k := true]
    requires d'.next == NULL <==> Full(Bits(d', bm'))
    ensures ChunkPage(d', bm')
  {
    assert Bits(d', bm')[k];
  }

  lemma NotTracked(m: Table, n: nat, bms: Bitmaps, start: int, live: map<int, nat>, i: int, k: int)
    requires HasRoom(m, n, bms, i, k) && Tracks(m, n, bms, start, live)
    ensures start + (i * PAGE_SIZE + k * Size(ShiftOf(m[i]))) !in live
  {
    var shift := ShiftOf(m[i]);
    ChunkStart(shift, k);
    var off := i * PAGE_SIZE + k * Size(shift);
    OffsetParts(i, k * Size(shift), off);
    assert !IsBlock(m, n, bms, off);
  }

  // ----------------------------------------------------------- taking pages

  lemma AllocatedOthers(m: Table, n: nat, head: seq<int>, ls: seq<seq<int>>, bms: Bitmaps, m': Table, k: nat,
                        pages: nat)
    requires |ls| == LISTS && k < |ls[0]| && Fits(m, n, ls[0][k], pages) && |bms| == n == |head|
    requires m' == AllocatedAt(m, n, ls[0][k], pages)
    requires PagesValid(m, n, head, ls)
    ensures OthersSame(m, n, bms, m', bms, ls[0][k])
    ensures forall x :: 0 <= x < n && Chunked(m'[x]) ==> Same(m[x], m'[x])
    ensures m'[ls[0][k]].slab == Start(pages) && m'[ls[0][k]].tag == TYPE_PAGE
    ensures FreeHead(m[ls[0][k]])
  {
    hide PagesValid, SameBlocks, AllocatedAt, InPage;
    var h := ls[0][k];
    var len := m[h].slab.n;
    FreeListFacts(m, n, head, ls, k);
    forall x | 0 <= x < n
      ensures x != h ==> SameBlocks(m[x], bms[x], m'[x], bms[x])
      ensures Chunked(m'[x]) ==> Same(m[x], m'[x])
      ensures x == h ==> m'[x].slab == Start(pages) && m'[x].tag == TYPE_PAGE
    {
      AllocateShapes(m, n, head, ls, k, pages, x);
      if h < x < h + len {
        InsideAbsent(m, n, head, ls, h, x);
        FreePagesNoBlocks(m[x], bms[x], m'[x], bms[x]);
      } else if x != h {
        SameSlabSameBlocks(m[x], bms[x], m'[x]);
      }
    }
  }

  lemma FreePagesNoBlocks(d: Desc, bm: seq<bool>, d': Desc, bm': seq<bool>)
    requires !Chunked(d) && !UsedHead(d) && !Chunked(d') && !UsedHead(d')
    ensures SameBlocks(d, bm, d', bm')
  {
  }

  /** A run of pages is handed out. */
  lemma RunValid(m: Table, n: nat, head: seq<int>, ls: seq<seq<int>>, bms: Bitmaps, start: int, live: map<int, nat>,
                 k: nat, pages: nat, size: nat, m': Table)
    requires |ls| == LISTS && k < |ls[0]| && Fits(m, n, ls[0][k], pages) && |bms| == n == |head|
    requires m' == AllocatedAt(m, n, ls[0][k], pages) && Snug(size, pages * PAGE_SIZE)
    requires PoolValid(m, n, head, ls, bms, start, live)
    ensures PoolValid(m', n, AllocatedHeads(head, ls[0][k], m[ls[0][k]].slab.n, pages),
              AllocatedLists(m, n, ls, k, pages),
                      bms, start, live[start + (ls[0][k] * PAGE_SIZE + 0) := size])
    ensures start + (ls[0][k] * PAGE_SIZE + 0) !in live
  {
    hide PagesValid, AllocatedAt, AllocatedHeads, AllocatedLists, SameBlocks, Tracks, ChunkPage;
    var h := ls[0][k];
    AllocatedOthers(m, n, head, ls, bms, m', k, pages);
    AllocateValid(m, n, head, ls, k, pages);
    forall x | 0 <= x < n && Chunked(m'[x]) ensures ChunkPage(m'[x], bms[x]) {
      SameChunkPage(m[x], bms[x], m'[x]);
    }
    TracksAdd(m, n, bms, m', bms, start, live, h, 0, size);
    FreeNotTracked(m, n, bms, start, live, h, 0);
  }

  lemma FreeNotTracked(m: Table, n: nat, bms: Bitmaps, start: int, live: map<int, nat>, h: int, r: int)
    requires Tracks(m, n, bms, start, live) && 0 <= h < n && FreeHead(m[h]) && 0 <= r < PAGE_SIZE
    ensures start + (h * PAGE_SIZE + r) !in live
  {
    OffsetParts(h, r, h * PAGE_SIZE + r);
    assert !IsBlock(m, n, bms, h * PAGE_SIZE + r);
  }

  /** The bits of a new page: those of the bitmap itself and the first chunk. */
  function InitialBits(shift: nat): (bits: seq<bool>)
    requires IsShift(shift)
    ensures |bits| == Chunks(shift)
  {
    seq(Chunks(shift), k requires 0 <= k < Chunks(shift) => k <= Reserved(shift))
  }

  function InitialSlab(shift: nat): Slab
    requires IsShift(shift)
  {
    if shift < EXACT_SHIFT then Shift(shift)
    else if shift == EXACT_SHIFT then Map(InitialBits(shift))
    else ShiftMap(shift, InitialBits(shift))
  }

  lemma InitialPage(shift: nat, d: Desc, bm: seq<bool>)
    requires IsShift(shift) && d.slab == InitialSlab(shift) && d.tag == TagOf(shift - 2) && d.next != NULL
    requires shift < EXACT_SHIFT ==> bm == InitialBits(shift)
    ensures ChunkPage(d, bm) && ShiftOf(d) == shift && Home(d) == shift - 2
    ensures Reserved(shift) * Size(shift) < PAGE_SIZE
    ensures forall x :: 0 <= x < PAGE_SIZE ==> (InPage(d, bm, x) <==> x == Reserved(shift) * Size(shift))
  {
    var bits, r := InitialBits(shift), Reserved(shift);
    assert Bits(d, bm) == bits;
    assert bits[r];
    assert r + 1 < |bits| ==> !bits[r + 1];
    assert !Full(bits);
    ChunkStart(shift, r);
    forall x | 0 <= x < PAGE_SIZE ensures InPage(d, bm, x) <==> x == r * Size(shift) {
      OnlyMultiple(x, Size(shift), r);
    }
  }

  lemma OnlyMultiple(x: nat, z: nat, r: nat)
    requires z > 0
    ensures x % z == 0 && x / z == r <==> x == r * z
  {
    Multiple(r, z);
  }

  /** A fresh page of chunks, with its first chunk handed out. */
  lemma NewPageValid(m: Table, n: nat, head: seq<int>, ls: seq<seq<int>>, bms: Bitmaps, start: int, live: map<int, nat>,
                     k: nat, shift: nat, size: nat, m1: Table, ls1: seq<seq<int>>, m': Table, bms': Bitmaps)
    requires |ls| == LISTS && k < |ls[0]| && Fits(m, n, ls[0][k], 1) && |bms| == |bms'| == n == |head|
               && |m| == n + LISTS
    requires m1 == AllocatedAt(m, n, ls[0][k], 1) && ls1 == AllocatedLists(m, n, ls, k, 1)
    requires IsShift(shift) && Snug(size, Size(shift)) && ls[shift - 2] == []
    requires m' == Started(m1, ls[0][k], n + (shift - 2), InitialSlab(shift), TagOf(shift - 2))
    requires shift < EXACT_SHIFT ==> bms'[ls[0][k]] == InitialBits(shift)
    requires forall x :: 0 <= x < n && x != ls[0][k] ==> bms'[x] == bms[x]
    requires PoolValid(m, n, head, ls, bms, start, live)
    ensures PoolValid(m', n, AllocatedHeads(head, ls[0][k], m[ls[0][k]].slab.n, 1), ls1[shift - 2 := [ls[0][k]]],
                      bms', start, live[start + (ls[0][k] * PAGE_SIZE + Reserved(shift) * Size(shift)) := size])
    ensures start + (ls[0][k] * PAGE_SIZE + Reserved(shift) * Size(shift)) !in live
  {
    hide PagesValid, AllocatedAt, AllocatedHeads, AllocatedLists, SameBlocks, Tracks, ChunkPage, InPage, InitialSlab;
    var h, j := ls[0][k], shift - 2;
    AllocatedOthers(m, n, head, ls, bms, m1, k, 1);
    AllocateValid(m, n, head, ls, k, 1);
    InitialPage(shift, Desc(InitialSlab(shift), n + j, n + j, TagOf(j)), bms'[h]);
    OtherListKept(m, n, ls, k, j);
    StartList(m1, n, AllocatedHeads(head, h, m[h].slab.n, 1), ls1, h, j, InitialSlab(shift), TagOf(j), m');
    forall x | 0 <= x < n && x != h ensures m'[x] == m1[x] && SameBlocks(m[x], bms[x], m'[x], bms'[x]) {
    }
    forall x | 0 <= x < n && Chunked(m'[x]) ensures ChunkPage(m'[x], bms'[x]) {
      if x != h {
        SameChunkPage(m[x], bms[x], m'[x]);
      }
    }
    NoneInFree(m[h], bms[h]);
    TracksAdd(m, n, bms, m', bms', start, live, h, Reserved(shift) * Size(shift), size);
    FreeNotTracked(m, n, bms, start, live, h, Reserved(shift) * Size(shift));
  }

  lemma NoneInFree(d: Desc, bm: seq<bool>)
    requires FreeHead(d)
    ensures forall r :: 0 <= r < PAGE_SIZE ==> !InPage(d, bm, r)
  {
  }

  lemma OtherListKept(m: Table, n: nat, ls: seq<seq<int>>, k: nat, j: nat)
    requires |ls| == LISTS && k < |ls[0]| && Fits(m, n, ls[0][k], 1) && 1 <= j < LISTS
    ensures AllocatedLists(m, n, ls, k, 1)[j] == ls[j]
  {
  }

  // -------------------------------------------------------- giving chunks back

  predicate InChunks(m: Table, n: nat, bms: Bitmaps, i: int, k: int) {
    && |bms| == n && |m| == n + LISTS && 0 <= i < n
    && Chunked(m[i]) && ShiftOk(m[i])
    && |Bits(m[i], bms[i])| == Chunks(ShiftOf(m[i]))
    && Reserved(ShiftOf(m[i])) <= k < |Bits(m[i], bms[i])| && Bits(m[i], bms[i])[k]
  }

  function GivenBits(m: Table, n: nat, bms: Bitmaps, i: int, k: int): (bits: seq<bool>)
    requires InChunks(m, n, bms, i, k)
  {
    Bits(m[i], bms[i])[k := false]
  }

  /** A full page goes back to the front of its slot list first. */
  function Relisted(m: Table, n: nat, i: int): (m': Table)
    requires 0 <= i < n && |m| == n + LISTS && 0 <= m[n + Home(m[i])].next < |m|
    ensures |m'| == |m|
  {
    if m[i].next == NULL then Pushed(m, n + Home(m[i]), i, m[i].tag) else m
  }

  ghost function RelistedLists(m: Table, n: nat, i: int, ls: seq<seq<int>>): (ls': seq<seq<int>>)
    requires 0 <= i < n && |m| == n + LISTS && |ls| == LISTS
    ensures |ls'| == LISTS
  {
    var j := Home(m[i]);
    if m[i].next == NULL then ls[j := [i] + ls[j]] else ls
  }

  function GaveChunk(m: Table, n: nat, bms: Bitmaps, i: int, k: int): (m': Table)
    requires InChunks(m, n, bms, i, k) && 0 <= m[n + Home(m[i])].next < |m|
    ensures |m'| == |m|
  {
    var m1 := Relisted(m, n, i);
    m1[i := m1[i].(slab := WithBits(m[i], GivenBits(m, n, bms, i, k)).slab)]
  }

  /** A freed chunk leaves the page layer intact; the page is listed now. */
  lemma GavePages(m: Table, n: nat, head: seq<int>, ls: seq<seq<int>>, bms: Bitmaps, i: int, k: int, m': Table)
    requires InChunks(m, n, bms, i, k) && 0 <= m[n + Home(m[i])].next < |m| && m' == GaveChunk(m, n, bms, i, k)
    requires |head| == n && |ls| == LISTS
    requires PagesValid(m, n, head, ls)
    ensures PagesValid(m', n, head, RelistedLists(m, n, i, ls))
    ensures forall x :: 0 <= x < n && x != i ==> Kept(m[x], m'[x], head[x] != x)
    ensures m'[i].slab == WithBits(m[i], GivenBits(m, n, bms, i, k)).slab && m'[i].tag == m[i].tag && m'[i].next != NULL
  {
    hide PagesValid, Pushed;
    var m1, ls1 := Relisted(m, n, i), RelistedLists(m, n, i, ls);
    if m[i].next == NULL {
      AddBack(m, n, head, ls, i, Home(m[i]), m1);
    }
    var d1 := WithBits(m1[i], GivenBits(m, n, bms, i, k));
    SlabChange(m1, n, head, ls1, i, d1.slab);
  }

  /** All is as before, save that page i has lost chunk k and may be empty. */
  ghost predicate Emptying(m: Table, n: nat, head: seq<int>, ls: seq<seq<int>>, bms: Bitmaps, start: int,
                           live: map<int, nat>, i: int) {
    && 0 < n && 0 < start && start % PAGE_SIZE == 0
    && PagesValid(m, n, head, ls) && Tracks(m, n, bms, start, live)
    && |bms| == n && 0 <= i < n
    && forall x :: 0 <= x < n && x != i && Chunked(m[x]) ==> ChunkPage(m[x], bms[x])
  }

  lemma GiveTracks(m: Table, n: nat, head: seq<int>, ls: seq<seq<int>>, bms: Bitmaps, start: int, live: map<int, nat>,
                   i: int, k: int, m': Table, bms': Bitmaps)
    requires InChunks(m, n, bms, i, k) && 0 <= m[n + Home(m[i])].next < |m| && m' == GaveChunk(m, n, bms, i, k)
    requires |head| == n && |ls| == LISTS && bms' == bms[i := InPageBits(m[i], bms[i], GivenBits(m, n, bms, i, k))]
    requires PoolValid(m, n, head, ls, bms, start, live)
    ensures Emptying(m', n, head, RelistedLists(m, n, i, ls), bms', start,
                     live - {start + (i * PAGE_SIZE + k * Size(ShiftOf(m[i])))}, i)
    ensures ShiftOk(m'[i]) && Bits(m'[i], bms'[i]) == GivenBits(m, n, bms, i, k) && m'[i].next != NULL
    ensures ShiftOf(m'[i]) == ShiftOf(m[i])
  {
    hide PagesValid, GaveChunk, RelistedLists, Tracks, SameBlocks, InPage, ChunkPage;
    GavePages(m, n, head, ls, bms, i, k, m');
    OthersKept(m, n, head, bms, m', bms', i);
    BitBlocks(m[i], bms[i], m'[i], bms'[i], k, false);
    assert forall x :: 0 <= x < n && x != i && Chunked(m'[x]) ==> Chunked(m[x]) by {
      forall x | 0 <= x < n && x != i ensures m'[x].tag == m[x].tag {
        assert Kept(m[x], m'[x], head[x] != x);
      }
    }
    TracksRemove(m, n, bms, m', bms', start, live, i, k * Size(ShiftOf(m[i])));
  }

  /** Some other chunk of the page is still in use: the pool is valid again. */
  lemma GiveValid(m: Table, n: nat, head: seq<int>, ls: seq<seq<int>>, bms: Bitmaps, start: int, live: map<int, nat>,
                  i: int, k: int, m': Table, bms': Bitmaps)
    requires InChunks(m, n, bms, i, k) && 0 <= m[n + Home(m[i])].next < |m| && m' == GaveChunk(m, n, bms, i, k)
    requires |head| == n && |ls| == LISTS && bms' == bms[i := InPageBits(m[i], bms[i], GivenBits(m, n, bms, i, k))]
    requires PoolValid(m, n, head, ls, bms, start, live)
    requires InUse(GivenBits(m, n, bms, i, k), Reserved(ShiftOf(m[i])))
    ensures PoolValid(m', n, head, RelistedLists(m, n, i, ls), bms', start,
                      live - {start + (i * PAGE_SIZE + k * Size(ShiftOf(m[i])))})
  {
    hide PagesValid, GaveChunk, RelistedLists, Tracks;
    GiveTracks(m, n, head, ls, bms, start, live, i, k, m', bms');
    assert ChunkPage(m[i], bms[i]);
    assert !GivenBits(m, n, bms, i, k)[k];
    assert ChunkPage(m'[i], bms'[i]);
  }

  // -------------------------------------------------------- giving pages back

  lemma FreedOthers(m: Table, n: nat, head: seq<int>, ls: seq<seq<int>>, bms: Bitmaps, m': Table, p: int, pages: nat,
                    a: int, e: int)
    requires |m| == |m'| == n + LISTS && |head| == |bms| == n && 0 <= a <= p < p + pages <= e <= n
    requires a == (if AfterFree(m, head, p) then head[p - 1] else p)
    requires var q := p + pages; e == if q < n && FreeHead(m[q]) then q + m[q].slab.n else q
    requires forall i :: 0 <= i < n ==> FreedShape(m, head, m', a, e, i)
    requires PagesValid(m, n, head, ls) && head[p] == p && pages == RunLength(m[p])
    ensures OthersSame(m, n, bms, m', bms, p)
    ensures forall x :: 0 <= x < n && Chunked(m'[x]) ==> Same(m[x], m'[x]) && x != p
    ensures !Chunked(m'[p]) && !UsedHead(m'[p])
  {
    hide PagesValid, SameBlocks, InPage;
    forall x | 0 <= x < n
      ensures x != p ==> SameBlocks(m[x], bms[x], m'[x], bms[x])
      ensures Chunked(m'[x]) ==> Same(m[x], m'[x]) && x != p
      ensures x == p ==> !Chunked(m'[p]) && !UsedHead(m'[p])
    {
      assert FreedShape(m, head, m', a, e, x);
      if a <= x < e {
        if x != p {
          WindowFree(m, n, head, ls, p, pages, a, e, x);
          FreePagesNoBlocks(m[x], bms[x], m'[x], bms[x]);
        }
      } else {
        SameSlabSameBlocks(m[x], bms[x], m'[x]);
      }
    }
  }

  /** In the window of a freed run, only its first page ever holds blocks. */
  lemma WindowFree(m: Table, n: nat, head: seq<int>, ls: seq<seq<int>>, p: int, pages: nat, a: int, e: int, x: int)
    requires |m| == n + LISTS && |head| == n && 0 <= a <= p < p + pages <= e <= n && a <= x < e && x != p
    requires a == (if AfterFree(m, head, p) then head[p - 1] else p)
    requires var q := p + pages; e == if q < n && FreeHead(m[q]) then q + m[q].slab.n else q
    requires PagesValid(m, n, head, ls) && head[p] == p && pages == RunLength(m[p])
    ensures !Chunked(m[x]) && !UsedHead(m[x])
  {
    hide Rings, Homes, FreeRun;
    var q := p + pages;
    if x < p {
      RunEndsAt(m, n, head, p);
      HeadFacts(m, n, head, ls, p - 1);
      if x != a {
        InsideAbsent(m, n, head, ls, a, x);
      }
    } else if x < q {
      InsideAbsent(m, n, head, ls, p, x);
    } else {
      NextRunHead(m, n, head, p);
      if x != q {
        InsideAbsent(m, n, head, ls, q, x);
      }
    }
  }

  /** After FreePages the page holds no block, whatever it held before. */
  lemma FreedValid(m: Table, n: nat, head: seq<int>, ls: seq<seq<int>>, bms: Bitmaps, start: int,
                   live: map<int, nat>, p: int,
                   m': Table, head': seq<int>, ls': seq<seq<int>>, live': map<int, nat>)
    requires Emptying(m, n, head, ls, bms, start, live, p) && OthersSame(m, n, bms, m', bms, p)
    requires forall x :: 0 <= x < n && Chunked(m'[x]) ==> Same(m[x], m'[x]) && x != p
    requires !Chunked(m'[p]) && !UsedHead(m'[p])
    requires PagesValid(m', n, head', ls')
    requires if UsedHead(m[p]) then live' == live - {start + (p * PAGE_SIZE + 0)}
             else live' == live && forall r :: 0 <= r < PAGE_SIZE ==> !InPage(m[p], bms[p], r)
    ensures PoolValid(m', n, head', ls', bms, start, live')
  {
    hide PagesValid, SameBlocks, Tracks, ChunkPage;
    forall x | 0 <= x < n && Chunked(m'[x]) ensures ChunkPage(m'[x], bms[x]) {
      SameChunkPage(m[x], bms[x], m'[x]);
    }
    if UsedHead(m[p]) {
      TracksRemove(m, n, bms, m', bms, start, live, p, 0);
    } else {
      NoBlocks(m[p], bms[p], m'[p], bms[p]);
      TracksKeep(m, n, bms, m', bms, start, live);
    }
  }
}
