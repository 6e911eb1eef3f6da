/**
 The output chain of src/core/ngx_output_chain.c, which copies what cannot be sent
 as it is into a limited number of its own buffers and takes them back when they
 are sent (ngx_chain_update_chains of src/core/ngx_buf.c).

 The output filter below it is any filter that sends buffers in order: it keeps
 what it was given, sends as much as it likes from the front, and reads the bytes
 only then.
 */
module OutputChain {
  import opened Common
  import opened Bufs

  datatype Status = Ok | Error | Again | Done | None

  /** What the filter does when it is called: it sends all it has, or so many bytes of it. */
  datatype Turn = Turn(rc: Status, all: bool, most: nat)

  ghost predicate Drains(turns: nat -> Turn) { forall k :: turns(k).all }

  ghost predicate Succeeds(turns: nat -> Turn) { forall k :: turns(k).rc == Ok }

  /** What a call of the filter is answered with. */
  function Reply(t: Turn): Status { if t.rc == None then Again else t.rc }

  /** What the chain answers: what the filter has said in the end, unless a file could not
      be read, and that it has to be called again where input is left. */
  ghost predicate Answers(turns: nat -> Turn, rc: Status, waiting: bool, faulty: bool) {
    && (rc != Error && rc != Done && waiting ==> rc == Again)
    && ((rc == Error && faulty) || (rc == Again && waiting) || exists k :: Reply(turns(k)) == rc)
  }

  lemma OkOrWaiting(turns: nat -> Turn, rc: Status, waiting: bool)
    requires Answers(turns, rc, waiting, false) && Succeeds(turns)
    ensures rc == if waiting then Again else Ok
  {
  }

  ghost predicate Healthy(fs: Contents, h: Heap, next: int) {
    forall x :: x in h ==> 0 <= x < next && Sound(fs, h[x])
  }

  /** A buffer that was made here: there is room in it, and it may be written. */
  predicate Ours(b: Buf) { |b.data| > 0 && b.temporary && !b.memory && !b.mmap }

  /** The chain's own buffers, recognised by their tag, are each in one place. */
  ghost predicate Placed(h: Heap, tag: int, mine: set<int>, free: seq<int>, busy: seq<int>, out: seq<int>, buf: int) {
    && (forall x :: x in mine ==> x in h && h[x].tag == tag && Ours(h[x]))
    && (forall x :: x in h && h[x].tag == tag ==> x in mine)
    && (forall x :: x in mine ==>
       multiset(free)[x] + multiset(busy)[x] + multiset(out)[x] + (if buf == x then 1 else 0) == 1)
    && (forall x :: x in free ==> x in mine)
  }

  predicate Blank(b: Buf) { b.pos == b.last == 0 && Ours(b) }

  /** Free buffers are empty and in nobody else's hands; what the filter holds of
      ours is not yet sent. */
  ghost predicate Reusable(h: Heap, mine: set<int>, free: seq<int>, buf: int, held: seq<int>, ready: seq<int>,
                           inq: seq<int>) {
    && (forall x :: x in free ==> x in h && Blank(h[x]) && x !in held)
    && (buf != NULL ==> buf in h && Blank(h[buf]) && buf !in held && buf !in ready && buf !in inq)
    && (forall x :: x in mine && (x in held || x in ready) ==> x in h && Size(h[x]) > 0)
    && (forall x :: x in inq ==> x !in mine)
  }

  /** What was taken from the callers is what was sent, then what the filter holds,
      then what is about to be given to it, then what is still to be looked at. */
  ghost predicate Flows(fs: Contents, h: Heap, taken: seq<Byte>, sent: seq<Byte>, held: seq<int>, ready: seq<int>,
                        inq: seq<int>) {
    && All(fs, h, held) && All(fs, h, ready) && All(fs, h, inq)
    && Once(multiset(inq) + multiset(ready) + multiset(held))
    && taken == sent + Stream(fs, h, held) + Stream(fs, h, ready) + Stream(fs, h, inq)
  }

  lemma OnceParts(h: Heap, held: seq<int>, ready: seq<int>, inq: seq<int>)
    requires Once(multiset(inq) + multiset(ready) + multiset(held)) && inq != []
    ensures inq[0] !in held && inq[0] !in ready && inq[0] !in inq[1..]
    ensures Once(multiset(inq[1..]) + multiset(ready) + multiset(held))
    ensures Once(multiset(inq[1..]) + multiset(ready + [inq[0]]) + multiset(held))
  {
    var x := inq[0];
    assert inq == [x] + inq[1..];
    assert multiset(inq) == multiset{x} + multiset(inq[1..]);
    var all := multiset(inq) + multiset(ready) + multiset(held);
    assert all[x] == 1 + multiset(inq[1..])[x] + multiset(ready)[x] + multiset(held)[x];
    assert multiset(inq[1..]) + multiset(ready + [x]) + multiset(held) == all;
    assert forall y :: (multiset(inq[1..]) + multiset(ready) + multiset(held))[y] <= all[y];
  }

  lemma HeadOf(fs: Contents, h: Heap, l: seq<int>)
    requires All(fs, h, l) && l != []
    ensures l[0] in h && Sound(fs, h[l[0]]) && All(fs, h, l[1..])
    ensures Stream(fs, h, l) == Bytes(fs, h[l[0]]) + Stream(fs, h, l[1..])
  {
  }

  /** A buffer goes to the filter as it is. */
  lemma FlowMove(fs: Contents, h: Heap, taken: seq<Byte>, sent: seq<Byte>, held: seq<int>, ready: seq<int>,
                 inq: seq<int>)
    requires Flows(fs, h, taken, sent, held, ready, inq) && inq != []
    ensures Flows(fs, h, taken, sent, held, ready + [inq[0]], inq[1..])
  {
    hide Sound, Bytes, Stream, All, Once;
    OnceParts(h, held, ready, inq);
    HeadOf(fs, h, inq);
    StreamOne(fs, h, inq[0]);
    StreamConcat(fs, h, ready, [inq[0]]);
  }

  /** An empty buffer is dropped. */
  lemma FlowDrop(fs: Contents, h: Heap, taken: seq<Byte>, sent: seq<Byte>, held: seq<int>, ready: seq<int>,
                 inq: seq<int>)
    requires Flows(fs, h, taken, sent, held, ready, inq) && inq != [] && (inq[0] in h ==> Size(h[inq[0]]) == 0)
    ensures Flows(fs, h, taken, sent, held, ready, inq[1..])
  {
    hide Sound, Bytes, Stream, All, Once;
    OnceParts(h, held, ready, inq);
    HeadOf(fs, h, inq);
    assert Bytes(fs, h[inq[0]]) == [];
  }

  /** A change that keeps the bytes of a buffer. */
  lemma FlowSame(fs: Contents, h: Heap, taken: seq<Byte>, sent: seq<Byte>, held: seq<int>, ready: seq<int>,
                 inq: seq<int>, x: int, b: Buf)
    requires Flows(fs, h, taken, sent, held, ready, inq) && x in h && Sound(fs, h[x]) && Sound(fs, b)
               && Bytes(fs, b) == Bytes(fs, h[x])
    ensures Flows(fs, h[x := b], taken, sent, held, ready, inq)
  {
    hide Sound, Bytes, Stream, Once;
    StreamFrame(fs, h, h[x := b], held);
    StreamFrame(fs, h, h[x := b], ready);
    StreamFrame(fs, h, h[x := b], inq);
  }

  lemma FlowElsewhere(fs: Contents, h: Heap, taken: seq<Byte>, sent: seq<Byte>, held: seq<int>, ready: seq<int>,
                      inq: seq<int>, x: int, b: Buf)
    requires Flows(fs, h, taken, sent, held, ready, inq) && x !in held && x !in ready && x !in inq
    ensures Flows(fs, h[x := b], taken, sent, held, ready, inq)
  {
    hide Sound, Bytes, Stream, Once, All;
    StreamElsewhere(fs, h, held, x, b);
    StreamElsewhere(fs, h, ready, x, b);
    StreamElsewhere(fs, h, inq, x, b);
  }

  /** The first n bytes of the first buffer move into another one. */
  lemma FlowCopy(fs: Contents, h: Heap, taken: seq<Byte>, sent: seq<Byte>, held: seq<int>, ready: seq<int>,
                 inq: seq<int>,
                 d: int, n: nat, b: Buf)
    requires Flows(fs, h, taken, sent, held, ready, inq) && inq != [] && d !in held && d !in ready && d !in inq
    requires inq[0] in h && Sound(fs, h[inq[0]]) && n <= Size(h[inq[0]])
    requires Sound(fs, b) && Bytes(fs, b) == Bytes(fs, h[inq[0]])[..n]
    ensures Flows(fs, h[d := b][inq[0] := Advanced(h[inq[0]], n)], taken, sent, held, ready + [d], inq)
    ensures All(fs, h[d := b][inq[0] := Advanced(h[inq[0]], n)], inq) && All(fs, h, inq)
    ensures |Stream(fs, h[d := b][inq[0] := Advanced(h[inq[0]], n)], inq)| == |Stream(fs, h, inq)| - n
  {
    hide Sound, Bytes, Stream, Once, All, Size, Advanced;
    var x, rest := inq[0], inq[1..];
    var h1 := h[d := b];
    var h2 := h1[x := Advanced(h[x], n)];
    OnceParts(h, held, ready, inq);
    AdvancedBytes(fs, h[x], n);
    HeadOf(fs, h, inq);
    StreamElsewhere(fs, h, held, d, b);
    StreamElsewhere(fs, h, ready, d, b);
    StreamElsewhere(fs, h, rest, d, b);
    StreamElsewhere(fs, h1, held, x, Advanced(h[x], n));
    StreamElsewhere(fs, h1, ready, x, Advanced(h[x], n));
    StreamElsewhere(fs, h1, rest, x, Advanced(h[x], n));
    StreamOne(fs, h2, x);
    StreamConcat(fs, h2, [x], rest);
    assert [x] + rest == inq;
    StreamOne(fs, h2, d);
    StreamConcat(fs, h2, ready, [d]);
    OnceMore(multiset(inq), ready, multiset(held), d);
    Shift(sent + Stream(fs, h2, held), Stream(fs, h2, ready), Bytes(fs, h2[d]), Bytes(fs, h2[x]), Stream(fs, h2, rest));
  }

  lemma Shift(a: seq<Byte>, b: seq<Byte>, c: seq<Byte>, d: seq<Byte>, e: seq<Byte>)
    ensures a + b + ((c + d) + e) == a + (b + c) + (d + e)
  {
  }

  lemma OnceMore(a: multiset<int>, ready: seq<int>, b: multiset<int>, d: int)
    requires Once(a + multiset(ready) + b) && d !in a && d !in ready && d !in b
    ensures Once(a + multiset(ready + [d]) + b)
  {
    assert a + multiset(ready + [d]) + b == a + multiset(ready) + b + multiset{d};
  }

  /** The ready buffers are given to the filter. */
  lemma FlowGive(fs: Contents, h: Heap, taken: seq<Byte>, sent: seq<Byte>, held: seq<int>, ready: seq<int>,
                 inq: seq<int>)
    requires Flows(fs, h, taken, sent, held, ready, inq)
    ensures Flows(fs, h, taken, sent, held + ready, [], inq)
  {
    hide Sound, Bytes, Once, All, Stream;
    StreamConcat(fs, h, held, ready);
    assert multiset(inq) + multiset([]) + multiset(held + ready) == multiset(inq) + multiset(ready) + multiset(held);
    EmptyStream(fs, h);
    Shift(sent, Stream(fs, h, held), Stream(fs, h, ready), [], Stream(fs, h, inq));
    assert [] + Stream(fs, h, inq) == Stream(fs, h, inq) && Stream(fs, h, ready) + [] == Stream(fs, h, ready);
  }

  /** The filter sends n bytes of the buffer at its front, and drops it when they
      were the last. */
  lemma FlowSend(fs: Contents, h: Heap, taken: seq<Byte>, sent: seq<Byte>, held: seq<int>, inq: seq<int>, n: nat)
    requires Flows(fs, h, taken, sent, held, [], inq) && held != [] && held[0] in h && Sound(fs, h[held[0]])
               && n <= Size(h[held[0]])
    ensures var x := held[0];
            var h' := h[x := Advanced(h[x], n)];
            Flows(fs, h', taken, sent + Bytes(fs, h[x])[..n], if n == Size(h[x]) then held[1..] else held, [], inq)
  {
    hide Sound, Bytes, Stream, Once, All, Size, Advanced;
    var x, rest := held[0], held[1..];
    var h' := h[x := Advanced(h[x], n)];
    SendOnce(held, inq);
    AdvancedBytes(fs, h[x], n);
    HeadOf(fs, h, held);
    StreamElsewhere(fs, h, rest, x, Advanced(h[x], n));
    StreamElsewhere(fs, h, inq, x, Advanced(h[x], n));
    StreamElsewhere(fs, h, [], x, Advanced(h[x], n));
    StreamOne(fs, h', x);
    StreamConcat(fs, h', [x], rest);
    assert [x] + rest == held;
    EmptyStream(fs, h);
    EmptyStream(fs, h');
    assert n == Size(h[x]) ==> Bytes(fs, h'[x]) == [];
  }

  lemma EmptyStream(fs: Contents, h: Heap)
    ensures All(fs, h, []) && Stream(fs, h, []) == []
  {
  }

  lemma SendOnce(held: seq<int>, inq: seq<int>)
    requires Once(multiset(inq) + multiset([]) + multiset(held)) && held != []
    ensures held[0] !in inq && held[0] !in held[1..] && Once(multiset(inq) + multiset([]) + multiset(held[1..]))
  {
    var x := held[0];
    assert held == [x] + held[1..];
    assert multiset(held) == multiset{x} + multiset(held[1..]);
    var all := multiset(inq) + multiset([]) + multiset(held);
    assert all[x] == 1 + multiset(inq)[x] + multiset(held[1..])[x];
    assert forall y :: (multiset(inq) + multiset([]) + multiset(held[1..]))[y] <= all[y];
  }

  // -------------------------------------------------------------------- copying

  /** The copy buffer after n bytes of src were copied into it. */
  function Filled(fs: Contents, dst: Buf, src: Buf, n: nat, sendfile: bool): Buf
    requires Sound(fs, src) && n <= Size(src) && Blank(dst) && n <= |dst.data|
  {
    var s, e := src.inFile && sendfile, n == Size(src);
    Buf(Bytes(fs, src)[..n] + dst.data[n..], 0, n,
        if s then src.file else dst.file, if s then src.filePos else dst.filePos,
        if s then src.filePos + n else dst.fileLast,
        dst.tag, true, dst.memory, dst.mmap, s,
        if e then src.flush else dst.flush, dst.sync, if e then src.lastBuf else dst.lastBuf,
        if e then src.lastInChain else dst.lastInChain, dst.recycled)
  }

  lemma FilledBytes(fs: Contents, dst: Buf, src: Buf, n: nat, sendfile: bool)
    requires Sound(fs, src) && Sound(fs, dst) && n <= Size(src) && Blank(dst) && n <= |dst.data|
    ensures var d := Filled(fs, dst, src, n, sendfile);
            Sound(fs, d) && Bytes(fs, d) == Bytes(fs, src)[..n] && Size(d) == n && d.tag == dst.tag
            && Ours(d) && |d.data| == |dst.data| && d.inFile == (src.inFile && sendfile)
            && (d.inFile ==> d.file == src.file)
  {
    var d, chunk := Filled(fs, dst, src, n, sendfile), Bytes(fs, src)[..n];
    if src.inFile {
      ChunkInFile(fs, src, n);
    }
    hide Bytes;
    assert d.data == chunk + dst.data[n..] && d.pos == 0 && d.last == n;
    assert d.data[d.pos..d.last] == chunk;
    MemoryBytes(fs, d);
  }

  predicate Flagged(b: Buf) { b.flush || b.lastBuf || b.lastInChain }

  /** The flags of a buffer are on the copy of its last bytes, and on no other. */
  predicate FlagsRight(d: Buf, src: Buf, n: nat) {
    if n == Size(src) then d.flush == src.flush && d.lastBuf == src.lastBuf && d.lastInChain == src.lastInChain
    else !Flagged(d)
  }

  /** The copy of the last bytes takes over the flags; an earlier one leaves them alone. */
  lemma FilledFlags(fs: Contents, dst: Buf, src: Buf, n: nat, sendfile: bool)
    requires Sound(fs, src) && n <= Size(src) && Blank(dst) && n <= |dst.data|
    ensures var d := Filled(fs, dst, src, n, sendfile);
            && |d.data| == |dst.data| && Flagged(d) == Flagged(if n == Size(src) then src else dst)
            && (FlagsRight(d, src, n) <==> n == Size(src) || !Flagged(dst))
  {
  }

  /** What matters of a buffer for its flags: whether it is copied, and how much there is. */
  datatype Item = Item(size: int, copied: bool, flagged: bool, last: bool)

  /** The copy buffer between two copies: its room, none before it is made, and whether it
      has flags left from its last use. */
  datatype Slot = Slot(room: int, dirty: bool)

  function RoomFor(e: Item, size: nat, num: nat): int {
    if e.last && (e.size < size || (num == 1 && e.size < size + size / 4)) then e.size else size
  }

  predicate Copies(e: Item) { e.copied && e.size > 0 }

  function Made(e: Item, s: Slot, size: nat, num: nat): Slot {
    if Copies(e) && s.room == 0 then Slot(RoomFor(e, size, num), false) else s
  }

  function After(e: Item, s: Slot, size: nat, num: nat): Slot {
    if Copies(e) then Made(e, s, size, num).(dirty := e.flagged) else s
  }

  /** No buffer that has to be copied in parts comes right behind a copied one with flags. */
  predicate Careful(l: seq<Item>, s: Slot, size: nat, num: nat) {
    l == [] ||
    ((Copies(l[0]) && l[0].size > Made(l[0], s, size, num).room ==> !Made(l[0], s, size, num).dirty)
     && Careful(l[1..], After(l[0], s, size, num), size, num))
  }

  /** Whatever a caller of this kind passes on, in any order, is careful exactly if it
      never sets flags on a buffer that needs a copy. */
  lemma NeverFlagged(may: Item -> bool, long: Item, size: nat, num: nat)
    requires size > 0 && may(long) && long.copied && long.size > size + size / 4
    ensures (forall l: seq<Item> :: (forall e :: e in l ==> may(e)) ==> Careful(l, Slot(0, false), size, num))
            <==> forall e :: may(e) && Copies(e) ==> !e.flagged
  {
    if forall e :: may(e) && Copies(e) ==> !e.flagged {
      forall l: seq<Item> | forall e :: e in l ==> may(e) ensures Careful(l, Slot(0, false), size, num) {
        CleanIsCareful(l, Slot(0, false), size, num);
      }
    } else {
      var e :| may(e) && Copies(e) && e.flagged;
      FlaggedThenLong(e, long, size, num);
      var l := [e, long];
      assert forall x :: x in l ==> may(x);
    }
  }

  lemma {:induction false} CleanIsCareful(l: seq<Item>, s: Slot, size: nat, num: nat)
    requires !s.dirty && forall e :: e in l && Copies(e) ==> !e.flagged
    ensures Careful(l, s, size, num)
  {
    if l != [] {
      CleanIsCareful(l[1..], After(l[0], s, size, num), size, num);
    }
  }

  lemma FlaggedThenLong(e: Item, long: Item, size: nat, num: nat)
    requires size > 0 && Copies(e) && e.flagged && long.copied && long.size > size + size / 4
    ensures !Careful([e, long], Slot(0, false), size, num)
  {
    var l := [e, long];
    assert l[1..] == [long];
    assert RoomFor(e, size, num) <= size + size / 4;
  }

  lemma {:induction false} CarefulConcat(a: seq<Item>, b: seq<Item>, s: Slot, size: nat, num: nat)
    ensures Careful(a + b, s, size, num) <==>
              Careful(a, s, size, num) && Careful(b, AfterAll(a, s, size, num), size, num)
    ensures AfterAll(a + b, s, size, num) == AfterAll(b, AfterAll(a, s, size, num), size, num)
  {
    if a == [] {
      assert a + b == b;
    } else {
      assert (a + b)[0] == a[0] && (a + b)[1..] == a[1..] + b;
      CarefulConcat(a[1..], b, After(a[0], s, size, num), size, num);
    }
  }

  function AfterAll(l: seq<Item>, s: Slot, size: nat, num: nat): Slot {
    if l == [] then s else AfterAll(l[1..], After(l[0], s, size, num), size, num)
  }

  /** A copy of as much as fits: it is right or wrong just as foretold. */
  lemma CopyForetold(l: seq<Item>, s: Slot, n: int, size: nat, num: nat)
    requires l != [] && Copies(l[0]) && s.room > 0 && n == Least(l[0].size, s.room)
    ensures var e := l[0];
            var right := n == e.size || !s.dirty;
            Careful(l, s, size, num) <==>
            right && Careful(l[0 := e.(size := e.size - n)], s.(dirty := if n == e.size then e.flagged else s.dirty),
                size, num)
    ensures var e := l[0];
            AfterAll(l, s, size, num) ==
            AfterAll(l[0 := e.(size := e.size - n)], s.(dirty := if n == e.size then e.flagged else s.dirty), size, num)
  {
    var e, s' := l[0], s.(dirty := if n == l[0].size then l[0].flagged else s.dirty);
    var l' := l[0 := e.(size := e.size - n)];
    assert l'[1..] == l[1..];
    assert n < e.size ==> After(l'[0], s', size, num) == After(e, s, size, num);
  }

  /** A new buffer for the first item is the one that was expected. */
  lemma MakeForetold(l: seq<Item>, size: nat, num: nat)
    requires l != [] && Copies(l[0])
    ensures Careful(l, Slot(0, false), size, num) <==> Careful(l, Slot(RoomFor(l[0], size, num), false), size, num)
    ensures AfterAll(l, Slot(0, false), size, num) == AfterAll(l, Slot(RoomFor(l[0], size, num), false), size, num)
  {
  }

  // -------------------------------------------------- several copy buffers

  /** What is left when the first item has been copied into a buffer with this room. */
  function Left(l: seq<Item>, room: int): seq<Item>
    requires l != []
  {
    if l[0].size <= room then l[1..] else l[0 := l[0].(size := l[0].size - room)]
  }

  /** The free buffers are used in their order, one for each part that is copied, and none
      with flags left gets a part that is not the last of its buffer.  A new buffer has
      none, and it ends the round. */
  predicate Orderly(l: seq<Item>, free: seq<Slot>)
    decreases |l|, |free|, 0
  {
    l == [] || free == [] ||
    if !Copies(l[0]) then Orderly(l[1..], free) else Handed(l, free[0], free[1..])
  }

  predicate Handed(l: seq<Item>, s: Slot, free: seq<Slot>)
    requires l != []
    decreases |l|, |free|, 1
  {
    (l[0].size <= s.room || !s.dirty) && Orderly(Left(l, s.room), free)
  }

  lemma FreshHanded(l: seq<Item>, n: int)
    requires l != []
    ensures Handed(l, Slot(n, false), [])
  {
  }

  /** What was waiting and what was free when a round began. */
  datatype Round = Round(items: seq<Item>, free: seq<Slot>)

  ghost predicate AllOrderly(rounds: seq<Round>) {
    forall i :: 0 <= i < |rounds| ==> Orderly(rounds[i].items, rounds[i].free)
  }

  /** Where no free buffer has flags left, a round is in order, whatever is waiting. */
  lemma {:induction false} CleanIsOrderly(l: seq<Item>, free: seq<Slot>)
    requires forall i :: 0 <= i < |free| ==> !free[i].dirty
    ensures Orderly(l, free)
    decreases |l|, |free|
  {
    if l != [] && free != [] {
      if !Copies(l[0]) {
        CleanIsOrderly(l[1..], free);
      } else {
        CleanIsOrderly(Left(l, free[0].room), free[1..]);
      }
    }
  }

  lemma MemoryBytes(fs: Contents, b: Buf)
    requires Sound(fs, b) && InMemory(b)
    ensures Bytes(fs, b) == b.data[b.pos..b.last]
  {
  }

  /** The first bytes of a buffer that is in a file are those of the file. */
  lemma ChunkInFile(fs: Contents, src: Buf, n: nat)
    requires Sound(fs, src) && src.inFile && n <= Size(src)
    ensures src.filePos + n <= |fs(src.file)| && Bytes(fs, src)[..n] == fs(src.file)[src.filePos..src.filePos + n]
    ensures Size(src) == src.fileLast - src.filePos
  {
    assert Bytes(fs, src) == fs(src.file)[src.filePos..src.fileLast];
    assert fs(src.file)[src.filePos..src.fileLast][..n] == fs(src.file)[src.filePos..src.filePos + n];
    assert |fs(src.file)[src.filePos..src.fileLast]| == src.fileLast - src.filePos;
  }

  // ------------------------------------------------------------ places of buffers

  lemma PlaceMove(h: Heap, tag: int, mine: set<int>, free: seq<int>, busy: seq<int>, out: seq<int>, buf: int,
                  held: seq<int>, inq: seq<int>)
    requires Placed(h, tag, mine, free, busy, out, buf) && Reusable(h, mine, free, buf, held, out, inq) && inq != []
               && buf == NULL
    ensures Placed(h, tag, mine, free, busy, out + [inq[0]], buf)
              && Reusable(h, mine, free, buf, held, out + [inq[0]], inq[1..])
    ensures Reusable(h, mine, free, buf, held, out, inq[1..])
  {
    hide Size, Blank;
    assert inq[0] in inq && forall x :: x in inq[1..] ==> x in inq;
    assert multiset(out + [inq[0]]) == multiset(out) + multiset{inq[0]};
  }

  /** A free buffer is taken. */
  lemma PlaceTake(h: Heap, tag: int, mine: set<int>, free: seq<int>, busy: seq<int>, out: seq<int>, held: seq<int>,
                  inq: seq<int>)
    requires Placed(h, tag, mine, free, busy, out, NULL) && Reusable(h, mine, free, NULL, held, out, inq) && free != []
    requires NULL !in h
    ensures Placed(h, tag, mine, free[1..], busy, out, free[0]) && Reusable(h, mine, free[1..], free[0], held, out, inq)
  {
    hide Size, Blank;
    var x := free[0];
    assert x in free && forall y :: y in free[1..] ==> y in free;
    assert free == [x] + free[1..];
    assert multiset(free) == multiset{x} + multiset(free[1..]);
    assert multiset(free)[x] >= 1;
    assert multiset(out)[x] == 0;
  }

  /** A buffer is made: with the tag it is one more of ours. */
  lemma PlaceNew(h: Heap, tag: int, mine: set<int>, free: seq<int>, busy: seq<int>, out: seq<int>, held: seq<int>,
                 inq: seq<int>, id: int, b: Buf)
    requires Placed(h, tag, mine, free, busy, out, NULL) && Reusable(h, mine, free, NULL, held, out, inq)
    requires NULL !in h && id !in h && id != NULL && Blank(b) && id !in busy && id !in out && id !in held && id !in inq
    ensures var mine' := if b.tag == tag then mine + {id} else mine;
            Placed(h[id := b], tag, mine', free, busy, out, id) && Reusable(h[id := b], mine', free, id, held, out, inq)
  {
    hide Size;
    assert id !in free && id !in mine;
  }

  /** The current buffer was filled, and goes out. */
  lemma PlaceCopy(h: Heap, h': Heap, tag: int, mine: set<int>, free: seq<int>, busy: seq<int>, out: seq<int>,
                  buf: int, held: seq<int>, inq: seq<int>)
    requires Placed(h, tag, mine, free, busy, out, buf) && Reusable(h, mine, free, buf, held, out, inq) && inq != []
               && buf != NULL
    requires NULL !in h && h'.Keys == h.Keys && inq[0] in h
               && forall y :: y in h && y != buf && y != inq[0] ==> h'[y] == h[y]
    requires h'[inq[0]].tag == h[inq[0]].tag && h'[buf].tag == h[buf].tag && Ours(h'[buf]) && Size(h'[buf]) > 0
    ensures Placed(h', tag, mine, free, busy, out + [buf], NULL)
              && Reusable(h', mine, free, NULL, held, out + [buf], inq)
  {
    hide Size, Blank;
    assert inq[0] in inq;
    assert multiset(out + [buf]) == multiset(out) + multiset{buf};
    assert buf !in free by { assert buf in mine ==> multiset(free)[buf] == 0; }
  }

  /** The filter has sent what it liked of what it holds. */
  lemma PlaceSend(h: Heap, h': Heap, tag: int, mine: set<int>, free: seq<int>, busy: seq<int>, out: seq<int>,
                  ready: seq<int>,
                  held: seq<int>, held': seq<int>, inq: seq<int>)
    requires Placed(h, tag, mine, free, busy, out, NULL) && Reusable(h, mine, free, NULL, held, ready, inq)
    requires (forall x :: x in free ==> x !in ready) && SentOf(h, h', held + ready, held')
    ensures Placed(h', tag, mine, free, busy, out, NULL) && Reusable(h', mine, free, NULL, held', [], inq)
  {
    hide Size;
    MembersOf(held, ready);
  }

  lemma FreeNotOut(h: Heap, tag: int, mine: set<int>, free: seq<int>, busy: seq<int>, out: seq<int>, buf: int)
    requires Placed(h, tag, mine, free, busy, out, buf)
    ensures forall x :: x in free ==> x !in out
  {
    forall x | x in free ensures x !in out {
      assert multiset(free)[x] >= 1;
      assert multiset(out)[x] == 0;
    }
  }

  lemma InHandNotFree(h: Heap, tag: int, mine: set<int>, free: seq<int>, busy: seq<int>, out: seq<int>, buf: int,
                      held: seq<int>, inq: seq<int>)
    requires Placed(h, tag, mine, free, busy, out, buf) && Reusable(h, mine, free, buf, held, out, inq)
    requires buf != NULL && inq != []
    ensures buf !in free && inq[0] !in free
  {
    hide Size, Blank;
    var x := inq[0];
    assert x in inq;
    assert x in free ==> x in mine;
    assert buf in mine ==> multiset(free)[buf] == 0;
  }

  /** What went out is awaited. */
  lemma PlaceAwait(h: Heap, tag: int, mine: set<int>, free: seq<int>, busy: seq<int>, out: seq<int>)
    requires Placed(h, tag, mine, free, busy, out, NULL)
    ensures Placed(h, tag, mine, free, busy + out, [], NULL)
  {
    assert multiset(busy + out) == multiset(busy) + multiset(out);
  }

  /** A sent buffer is no longer awaited, and free if it is ours. */
  lemma PlaceBack(h: Heap, tag: int, mine: set<int>, free: seq<int>, busy: seq<int>, held: seq<int>, inq: seq<int>,
                  b: Buf)
    requires Placed(h, tag, mine, free, busy, [], NULL) && Reusable(h, mine, free, NULL, held, [], inq) && busy != []
    requires busy[0] in h && h[busy[0]].tag == tag && Size(h[busy[0]]) == 0 && b == h[busy[0]].(pos := 0, last := 0)
    ensures Placed(h[busy[0] := b], tag, mine, [busy[0]] + free, busy[1..], [], NULL)
    ensures Reusable(h[busy[0] := b], mine, [busy[0]] + free, NULL, held, [], inq)
    ensures busy[0] !in held && busy[0] !in inq
  {
    hide Size;
    var x := busy[0];
    assert busy == [x] + busy[1..];
    assert multiset(busy) == multiset{x} + multiset(busy[1..]);
    assert multiset([x] + free) == multiset{x} + multiset(free);
  }

  /** Our own among these buffers, the last one first: as they come back to the free list. */
  function Back(h: Heap, tag: int, l: seq<int>): seq<int> {
    if l == [] then []
    else
      var x := l[|l| - 1];
      (if x in h && h[x].tag == tag then [x] else []) + Back(h, tag, l[..|l| - 1])
  }

  lemma BackNone(h: Heap, tag: int, free: seq<int>)
    ensures Back(h, tag, []) + free == free
  {
  }

  lemma BackMore(h: Heap, tag: int, all: seq<int>, n: nat, free: seq<int>)
    requires n < |all|
    ensures Back(h, tag, all[..n + 1]) + free ==
              (if all[n] in h && h[all[n]].tag == tag then [all[n]] else []) + (Back(h, tag, all[..n]) + free)
  {
    assert all[..n + 1][..n] == all[..n];
  }

  lemma PlaceForget(h: Heap, tag: int, mine: set<int>, free: seq<int>, busy: seq<int>)
    requires Placed(h, tag, mine, free, busy, [], NULL) && busy != [] && busy[0] in h && h[busy[0]].tag != tag
    ensures Placed(h, tag, mine, free, busy[1..], [], NULL)
  {
    var x := busy[0];
    assert busy == [x] + busy[1..];
    assert multiset(busy) == multiset{x} + multiset(busy[1..]);
  }

  lemma PlaceSame(h: Heap, tag: int, mine: set<int>, free: seq<int>, busy: seq<int>, out: seq<int>, held: seq<int>,
                  inq: seq<int>, x: int, b: Buf)
    requires Placed(h, tag, mine, free, busy, out, NULL) && Reusable(h, mine, free, NULL, held, out, inq)
    requires x in h && x !in mine && b.tag == h[x].tag
    ensures Placed(h[x := b], tag, mine, free, busy, out, NULL) && Reusable(h[x := b], mine, free, NULL, held, out, inq)
  {
    hide Size, Blank;
  }

  // -------------------------------------------------------------------- the chain

  class OutputChain {
    const fs: Contents
    const directioFile: int -> bool
    const sendfile: bool
    const needInMemory: bool
    const needInTemp: bool
    const alignment: nat
    const num: nat                // bufs.num
    const size: nat               // bufs.size
    const tag: int
    const faulty: bool            // reading a file can fail
    var bufs: Heap
    var inq: seq<int>             // ctx->in
    var busy: seq<int>
    var free: seq<int>
    var buf: int
    var inUse: nat                // ctx->allocated
    var directio: bool
    var held: seq<int>            // what the filter has and has not sent
    var next: int                 // the allocator
    ghost var taken: seq<Byte>    // all that came in
    ghost var sent: seq<Byte>     // all that the filter has sent
    ghost var mine: set<int>
    ghost var flagsKept: bool     // every copy so far had the flags it should have
    ghost var rounds: seq<Round>  // how the rounds of the inner loop began

    /** `out` is the local list of the source; `ready` the part of it that the filter
        has not been given. */
    ghost predicate Inv(out: seq<int>, ready: seq<int>)
      reads this
    {
      && Healthy(fs, bufs, next) && 0 <= next && tag != 0 && size > 0 && alignment > 0
      && Flows(fs, bufs, taken, sent, held, ready, inq)
      && Placed(bufs, tag, mine, free, busy, out, buf)
      && Reusable(bufs, mine, free, buf, held, ready, inq)
      && (forall x :: x in busy ==> x in bufs)
      && inUse == |mine| <= num
      && !directioFile(NULL) && Fit(bufs, held) && Fit(bufs, ready)
    }

    ghost predicate Valid()
      reads this
    {
      Inv([], []) && buf == NULL
    }

    constructor (fs: Contents, directioFile: int -> bool, sendfile: bool, needInMemory: bool, needInTemp: bool,
                 alignment: nat, num: nat, size: nat, tag: int, faulty: bool)
      requires tag != 0 && size > 0 && alignment > 0
      ensures Valid() && taken == sent == [] && inUse == 0 && inq == [] && bufs == map[]
      ensures Settled() && Clean() && Lone() && flagsKept && rounds == [] && SlotOf(bufs, mine) == Slot(0, false)
      ensures this.fs == fs && this.sendfile == sendfile && this.needInMemory == needInMemory
      ensures forall x :: this.directioFile(x) <==> x != NULL && directioFile(x)
      ensures this.needInTemp == needInTemp && this.num == num && this.size == size && this.tag == tag
                && this.faulty == faulty
    {
      this.fs, this.directioFile := fs, x => x != NULL && directioFile(x);
      this.sendfile, this.needInMemory, this.needInTemp := sendfile, needInMemory, needInTemp;
      this.alignment, this.num, this.size, this.tag, this.faulty := alignment, num, size, tag, faulty;
      bufs, inq, busy, free, held := map[], [], [], [], [];
      buf, inUse, directio, next := NULL, 0, false, 0;
      taken, sent, mine, flagsKept, rounds := [], [], {}, true, [];
    }

    /** The buffer can be sent without a copy. */
    predicate Passes(b: Buf) {
      Special(b) ||
      (!(b.inFile && directioFile(b.file)) && (sendfile || InMemory(b))
       && (needInMemory ==> InMemory(b)) && (needInTemp ==> !b.memory && !b.mmap))
    }

    /** What the filter can send: it is in memory where that is asked for, in memory that may
        be written where that is, in memory and in no file where files are not sent as such,
        and in no file that is read directly.  A special buffer has nothing to be sent. */
    predicate Sendable(b: Buf) {
      var resident := b.temporary || b.memory || b.mmap;
      || ((b.flush || b.lastBuf || b.sync) && !resident && !b.inFile)
      || (&& (needInMemory ==> resident)
          && (needInTemp ==> !b.memory && !b.mmap)
          && (!sendfile ==> resident && !b.inFile)
          && (b.inFile ==> !directioFile(b.file)))
    }

    ghost predicate Fit(h: Heap, l: seq<int>) { forall x :: x in l ==> x in h && Sendable(h[x]) }

    lemma FitsStill(h: Heap, held: seq<int>, ready: seq<int>, x: int, b: Buf)
      requires Fit(h, held) && Fit(h, ready) && x !in held && x !in ready
      ensures Fit(h[x := b], held) && Fit(h[x := b], ready)
    {
      hide Sendable;
    }

    lemma FitConcat(h: Heap, a: seq<int>, b: seq<int>)
      requires Fit(h, a) && Fit(h, b)
      ensures Fit(h, a + b)
    {
      hide Sendable;
    }

    lemma FitOne(h: Heap, x: int)
      requires x in h && Sendable(h[x])
      ensures Fit(h, [x]) && Fit(h, [])
    {
    }

    lemma FitHead(h: Heap, l: seq<int>)
      requires l != []
      ensures Fit(h, l) ==> l[0] in h && Sendable(h[l[0]]) && Fit(h, l[1..])
      ensures l[0] in h ==> Worthy(h, l) == (if Worth(h[l[0]]) then [l[0]] else []) + Worthy(h, l[1..])
    {
      hide Sendable;
      var x := l[0];
      assert x in l;
    }

    /** There is something in it. */
    predicate Worth(b: Buf) { Size(b) != 0 || Special(b) }

    ghost function Worthy(h: Heap, l: seq<int>): seq<int> {
      if l == [] then [] else (if l[0] in h && Worth(h[l[0]]) then [l[0]] else []) + Worthy(h, l[1..])
    }

    lemma WorthyNone(h: Heap)
      ensures Worthy(h, []) == []
    {
    }

    lemma FitSent(h: Heap, h': Heap, all: seq<int>, held: seq<int>)
      requires Fit(h, all) && SentOf(h, h', all, held)
      ensures Fit(h', held) && Fit(h', [])
    {
      hide Size, Flagged;
    }

    /** A copy can always be sent. */
    lemma CopyFits(h: Heap, held: seq<int>, out: seq<int>, d: int, b: Buf, x: int, src: Buf, a: Buf)
      requires Ours(b) && (b.inFile ==> src.inFile && sendfile && !directioFile(src.file) && b.file == src.file)
      requires Fit(h, held) && Fit(h, out) && d !in held && d !in out && x !in held && x !in out && x != d
      ensures Fit(h[d := b][x := a], held) && Fit(h[d := b][x := a], out + [d])
    {
      assert Sendable(b);
      hide Sendable, Ours;
    }

    // ---------------------------------------------------------------- the flags

    function View(b: Buf): Item { Item(Size(b), !Passes(b), Flagged(b), b.lastInChain) }

    ghost function Items(h: Heap, l: seq<int>): seq<Item> {
      seq(|l|, i requires 0 <= i < |l| => if l[i] in h then View(h[l[i]]) else Item(0, false, false, false))
    }

    ghost function Some(mine: set<int>): int {
      if exists x :: x in mine then var x :| x in mine; x else NULL
    }

    /** The copy buffer, where there is at most one. */
    ghost function SlotOf(h: Heap, mine: set<int>): Slot {
      var x := Some(mine);
      if x in h then Slot(|h[x].data|, Flagged(h[x])) else Slot(0, false)
    }

    /** No copy buffer has flags, nor has anything that is to be copied. */
    ghost predicate CleanIn(h: Heap, mine: set<int>, buf: int, inq: seq<int>) {
      && (forall x :: x in mine && x in h ==> !Flagged(h[x]))
      && (buf in h ==> !Flagged(h[buf]))
      && (forall x :: x in inq && x in h && !Passes(h[x]) ==> !Flagged(h[x]))
    }

    ghost predicate Ordinary(h: Heap, l: seq<int>) {
      forall x :: x in l && x in h ==> h[x].file == NULL || !directioFile(h[x].file)
    }

    ghost predicate Clean()
      reads this`bufs, this`mine, this`buf, this`inq
    {
      CleanIn(bufs, mine, buf, inq)
    }

    /** There is one copy buffer at most, and no file is read directly. */
    ghost predicate Lone()
      reads this`bufs, this`mine, this`directio, this`inq, this`busy
    {
      |mine| <= 1 && !directio && Ordinary(bufs, inq) && (num <= 1 || busy == [])
    }

    /** The flags have been right and will be right for what is waiting. */
    ghost predicate Foretold()
      reads this`bufs, this`mine, this`inq, this`flagsKept
    {
      flagsKept && Careful(Items(bufs, inq), SlotOf(bufs, mine), size, num)
    }

    ghost function Ending(): Slot
      reads this`bufs, this`mine, this`inq
    {
      AfterAll(Items(bufs, inq), SlotOf(bufs, mine), size, num)
    }

    /** A step that spoils no flags, and none but those foretold. */
    twostate predicate FlagsTracked()
      reads this
    {
      && (old(Clean()) ==> Clean() && flagsKept == old(flagsKept))
      && (old(Lone()) ==> Lone() && (Foretold() <==> old(Foretold())) && Ending() == old(Ending()))
    }

    function SlotAt(h: Heap, x: int): Slot { if x in h then Slot(|h[x].data|, Flagged(h[x])) else Slot(0, false) }

    ghost function Slots(h: Heap, l: seq<int>): seq<Slot> {
      seq(|l|, i requires 0 <= i < |l| => SlotAt(h, l[i]))
    }

    /** The flags have been right, and will be in the rest of the round. */
    ghost predicate InOrder()
      reads this
    {
      flagsKept && Orderly(Items(bufs, inq), Slots(bufs, free))
    }

    /** The same with a buffer in hand. */
    ghost predicate InHand()
      reads this
    {
      flagsKept && inq != [] && Handed(Items(bufs, inq), SlotAt(bufs, buf), Slots(bufs, free))
    }

    /** A step of a round, in which no file is read directly. */
    twostate predicate RoundKept()
      reads this
    {
      old(Ordinary(bufs, inq)) ==> Ordinary(bufs, inq) && (InOrder() <==> old(InOrder()))
    }

    /** Where no file is read directly, whatever the filter does and however many copy
        buffers there are: the flags have been right exactly if every round since was in
        order. */
    twostate predicate RoundsTold()
      reads this
    {
      && old(rounds) <= rounds
      && (old(Ordinary(bufs, inq)) ==>
            Ordinary(bufs, inq) && (flagsKept <==> old(flagsKept) && AllOrderly(rounds[|old(rounds)|..])))
    }

    /** Nothing is with the filter. */
    ghost predicate Settled()
      reads this
    {
      held == [] && busy == []
    }

    /** Buffers may be written, but not their flags, nor what is waiting. */
    ghost predicate Alike(h: Heap, h': Heap, inq: seq<int>) {
      && h'.Keys == h.Keys
      && (forall y :: y in h ==>
         Flagged(h'[y]) == Flagged(h[y]) && |h'[y].data| == |h[y].data| && h'[y].file == h[y].file)
      && (forall y :: y in inq && y in h ==> View(h'[y]) == View(h[y]))
    }

    /** What is sent is not waiting. */
    lemma SentAlike(h: Heap, h': Heap, all: seq<int>, held: seq<int>, inq: seq<int>)
      requires SentOf(h, h', all, held) && forall x :: x in inq ==> x !in all
      ensures Alike(h, h', inq) && (held == [] ==> forall x :: x in all ==> x in h' && Size(h'[x]) == 0)
    {
      hide View, Flagged, Size;
    }

    lemma StartAlike(h: Heap, inq: seq<int>)
      ensures Alike(h, h, inq)
    {
    }

    lemma ResetAlike(h: Heap, h': Heap, inq: seq<int>, x: int)
      requires Alike(h, h', inq) && x in h' && x !in inq
      ensures Alike(h, h'[x := h'[x].(pos := 0, last := 0)], inq)
    {
      hide View;
    }

    lemma AlikeFlags(h: Heap, h': Heap, mine: set<int>, buf: int, inq: seq<int>)
      requires Alike(h, h', inq)
      ensures CleanIn(h, mine, buf, inq) ==> CleanIn(h', mine, buf, inq)
      ensures Items(h', inq) == Items(h, inq) && SlotOf(h', mine) == SlotOf(h, mine)
      ensures Ordinary(h, inq) ==> Ordinary(h', inq)
    {
      hide Size, Passes, Flagged;
      forall x | x in inq && x in h && !Passes(h'[x]) ensures Flagged(h'[x]) ==> !CleanIn(h, mine, buf, inq) {
        assert View(h'[x]) == View(h[x]);
      }
      forall i | 0 <= i < |inq| ensures Items(h', inq)[i] == Items(h, inq)[i] {
        var y := inq[i];
        assert y in inq && (y in h <==> y in h'.Keys);
        assert y in h ==> View(h'[y]) == View(h[y]);
      }
    }

    lemma SlotsAlike(h: Heap, h': Heap, inq: seq<int>, l: seq<int>)
      requires Alike(h, h', inq)
      ensures Slots(h', l) == Slots(h, l)
    {
      hide View, Flagged;
      forall i | 0 <= i < |l| ensures Slots(h', l)[i] == Slots(h, l)[i] {
        assert l[i] in h <==> l[i] in h'.Keys;
      }
    }

    /** In a round, too, what needs no copy does not matter. */
    lemma FirstPasses(h: Heap, inq: seq<int>, free: seq<Slot>)
      requires inq != [] && inq[0] in h && !Copies(View(h[inq[0]]))
      ensures Orderly(Items(h, inq), free) <==> Orderly(Items(h, inq[1..]), free)
    {
      hide View;
      assert Items(h, inq)[1..] == Items(h, inq[1..]);
    }

    /** The first of those waiting goes without a copy. */
    lemma FirstGone(h: Heap, inq: seq<int>, s: Slot)
      requires inq != [] && inq[0] in h && !Copies(View(h[inq[0]]))
      ensures Careful(Items(h, inq), s, size, num) <==> Careful(Items(h, inq[1..]), s, size, num)
      ensures AfterAll(Items(h, inq), s, size, num) == AfterAll(Items(h, inq[1..]), s, size, num)
    {
      hide View;
      assert Items(h, inq)[1..] == Items(h, inq[1..]);
    }

    lemma FewerFlags(h: Heap, mine: set<int>, buf: int, inq: seq<int>)
      requires inq != []
      ensures CleanIn(h, mine, buf, inq) ==> CleanIn(h, mine, buf, inq[1..])
      ensures Ordinary(h, inq) ==> Ordinary(h, inq[1..])
    {
      hide Flagged, Passes;
      assert forall x :: x in inq[1..] ==> x in inq;
    }

    /** A new buffer has no flags and is not among those waiting. */
    lemma NewFlags(h: Heap, mine: set<int>, inq: seq<int>, id: int, b: Buf)
      requires id !in h && !Flagged(b) && id !in inq && NULL !in h
      ensures CleanIn(h, mine, NULL, inq) ==>
                CleanIn(h[id := b], mine, id, inq) && CleanIn(h[id := b], mine + {id}, id, inq)
      ensures Items(h[id := b], inq) == Items(h, inq) && (Ordinary(h, inq) ==> Ordinary(h[id := b], inq))
    {
      hide View, Flagged, Passes;
    }

    lemma SlotOfNone(h: Heap)
      requires NULL !in h
      ensures SlotOf(h, {}) == Slot(0, false)
    {
    }

    lemma FirstItem(h: Heap, inq: seq<int>)
      requires inq != [] && inq[0] in h
      ensures Items(h, inq) != [] && Items(h, inq)[0] == View(h[inq[0]])
    {
    }

    lemma OrdinaryAt(h: Heap, l: seq<int>, x: int)
      requires x in l && x in h
      ensures Ordinary(h, l) ==> h[x].file == NULL || !directioFile(h[x].file)
    {
    }

    lemma SlotIs(h: Heap, mine: set<int>, x: int)
      requires x in mine && |mine| <= 1 && x in h
      ensures SlotOf(h, mine) == Slot(|h[x].data|, Flagged(h[x])) && mine == {x}
    {
      assert |mine - {x}| == |mine| - 1;
      assert mine == {x} + (mine - {x});
    }

    /** ngx_output_chain_as_is */
    method AsIs(x: int) returns (yes: bool)
      requires x in bufs && Sound(fs, bufs[x])
      modifies this`bufs
      ensures yes <==> Passes(old(bufs)[x])
      ensures x in bufs && (yes <==> Passes(bufs[x]))
      ensures x in bufs && bufs == old(bufs)[x := bufs[x]]
      ensures bufs[x] == old(bufs)[x] || (InMemory(old(bufs)[x]) && bufs[x] == old(bufs)[x].(inFile := false))
      ensures (yes <==> Sendable(bufs[x])) && (Sendable(old(bufs)[x]) ==> yes && bufs[x] == old(bufs)[x])
    {
      var b := bufs[x];
      if Special(b) {
        return true;
      }
      if b.inFile && directioFile(b.file) {
        return false;
      }
      if !sendfile {
        if !InMemory(b) {
          return false;
        }
        bufs := bufs[x := b.(inFile := false)];
      }
      if needInMemory && !InMemory(b) {
        return false;
      }
      if needInTemp && (b.memory || b.mmap) {
        return false;
      }
      return true;
    }

    /** The first buffer is looked at, which may take its file away. */
    method TestFirst(ghost out: seq<int>) returns (yes: bool)
      requires Inv(out, out) && buf == NULL && inq != []
      modifies this`bufs
      ensures Inv(out, out) && inq[0] in bufs && Size(bufs[inq[0]]) == old(Size(bufs[inq[0]]))
      ensures (old(Special(bufs[inq[0]])) ==> yes) && (yes <==> Passes(bufs[inq[0]]))
      ensures (yes <==> Sendable(bufs[inq[0]])) && (old(Sendable(bufs[inq[0]])) ==> yes && bufs == old(bufs))
      ensures |Stream(fs, bufs, inq)| == old(|Stream(fs, bufs, inq)|) && FlagsTracked() && RoundKept()
    {
      hide Fit, Sendable, Flows, Placed, Reusable, Stream, All, CleanIn, Items, SlotOf, Ordinary, Careful, AfterAll,
          Slots;
      hide Healthy, Sound, Bytes, Passes, View, Alike, Size, Special, InMemory;
      FlowHead(fs, bufs, taken, sent, held, out, inq);
      ghost var x, h := inq[0], bufs;
      SpecialPasses(h[x]);
      HealthyAt(fs, h, next, x);
      yes := AsIs(inq[0]);
      NoFileBytes(fs, h[x], bufs[x]);
      CopyHealthy(fs, h, next, x, bufs[x], x, bufs[x]);
      assert h[x := bufs[x]][x := bufs[x]] == bufs;
      TestedAlike(h, bufs, inq, x);
      AlikeFlags(h, bufs, mine, buf, inq);
      SlotsAlike(h, bufs, inq, free);
      FlowSame(fs, h, taken, sent, held, out, inq, x, bufs[x]);
      FlowOnce(fs, h, taken, sent, held, out, inq);
      FitsStill(h, held, out, x, bufs[x]);
      NotMine(h, mine, free, buf, held, out, inq);
      PlaceSame(h, tag, mine, free, busy, out, held, inq, x, bufs[x]);
      StreamSame(fs, h, inq, x, bufs[x]);
    }

    /** ngx_create_temp_buf, or a buffer of our own. */
    method Make(n: nat, t: int, recycled: bool, ghost out: seq<int>)
      requires Inv(out, out) && buf == NULL && n > 0 && (t == 0 || (t == tag && inUse < num))
      modifies this`bufs, this`buf, this`next, this`mine, this`inUse
      ensures Inv(out, out) && buf != NULL && inUse <= num
      ensures All(fs, bufs, inq) && old(All(fs, bufs, inq)) && |Stream(fs, bufs, inq)| == old(|Stream(fs, bufs, inq)|)
      ensures inq != [] ==> bufs[inq[0]] == old(bufs[inq[0]])
      ensures old(Clean()) ==> Clean()
      ensures t == tag ==> buf in mine
      ensures Items(bufs, inq) == old(Items(bufs, inq)) && (old(Ordinary(bufs, inq)) ==> Ordinary(bufs, inq))
      ensures t == tag && old(mine) == {} ==> |mine| == 1 && SlotOf(bufs, mine) == Slot(n, false)
      ensures t == 0 ==> mine == old(mine)
      ensures buf in bufs && |bufs[buf].data| == n && bufs[buf].recycled == recycled && bufs[buf].tag == t
      ensures SlotAt(bufs, buf) == Slot(n, false)
    {
      hide Fit, Healthy, Sound, Passes, View, Size, Flows, Placed, Reusable, Stream, All, CleanIn, Items, SlotOf,
          Ordinary;
      var b := Buf(seq(n, i => 0), 0, 0, NULL, 0, 0, t, true, false, false, false, false, false, false, false,
          recycled);
      MadeHealthy(fs, bufs, next, b);
      FlowHead(fs, bufs, taken, sent, held, out, inq);
      NewIsElsewhere(fs, bufs, next, held);
      NewIsElsewhere(fs, bufs, next, out);
      NewIsElsewhere(fs, bufs, next, inq);
      FlowElsewhere(fs, bufs, taken, sent, held, out, inq, next, b);
      StreamElsewhere(fs, bufs, inq, next, b);
      PlaceNew(bufs, tag, mine, free, busy, out, held, inq, next, b);
      FitsStill(bufs, held, out, next, b);
      NewFlags(bufs, mine, inq, next, b);
      bufs := bufs[next := b];
      buf := next;
      if t == tag {
        FreshMine(old(bufs), tag, mine, free, busy, out, next);
        mine := mine + {next};
        inUse := inUse + 1;
        if old(mine) == {} {
          SlotIs(bufs, mine, next);
        }
      }
      next := next + 1;
    }

    /** ngx_output_chain_align_file_buf: a buffer of its own for an unaligned part of a
        file that is read directly. */
    method AlignFileBuf(ghost out: seq<int>) returns (made: bool)
      requires Inv(out, out) && buf == NULL && inq != [] && Size(bufs[inq[0]]) > 0
      modifies this`bufs, this`buf, this`next, this`mine, this`inUse, this`directio
      ensures Inv(out, out) && (made <==> buf != NULL) && inUse <= num && (made ==> directio)
      ensures directioFile(bufs[inq[0]].file) ==> directio
      ensures made ==> directioFile(bufs[inq[0]].file) && buf in bufs && bufs[buf].tag == 0 && mine == old(mine)
      ensures made ==>
                var r, n, all := bufs[inq[0]].filePos % alignment, |bufs[buf].data|, Size(bufs[inq[0]]);
                if r == 0 then n == all < size else n <= all && r + n <= alignment && (n == all || r + n == alignment)
      ensures !made && directioFile(bufs[inq[0]].file) ==>
                bufs[inq[0]].filePos % alignment == 0 && Size(bufs[inq[0]]) >= size
      ensures if made then !old(Ordinary(bufs, inq)) else RoundKept()
      ensures |Stream(fs, bufs, inq)| == old(|Stream(fs, bufs, inq)|) && bufs[inq[0]] == old(bufs[inq[0]])
                && FlagsTracked()
    {
      hide Fit, Flows, Placed, Reusable, Stream, All, CleanIn, Items, SlotOf, Careful, AfterAll;
      FlowHead(fs, bufs, taken, sent, held, out, inq);
      OrdinaryAt(bufs, inq, inq[0]);
      var b, bsize := bufs[inq[0]], Size(bufs[inq[0]]);
      if b.file == NULL || !directioFile(b.file) {
        return false;
      }
      directio := true;
      var n: int := b.filePos % alignment;
      if n == 0 {
        if bsize >= size {
          return false;
        }
        n := bsize;
      } else {
        n := alignment - n;
        if n > bsize {
          n := bsize;
        }
      }
      Make(n, 0, false, out);
      return true;
    }

    /** ngx_output_chain_get_buf: one more buffer of our own; a small one for the last
        bytes. */
    method GetBuf()
      requires Inv([], []) && buf == NULL && inq != [] && Size(bufs[inq[0]]) > 0 && !Passes(bufs[inq[0]])
                 && inUse < num && free == []
      modifies this`bufs, this`buf, this`next, this`mine, this`inUse
      ensures Inv([], []) && buf != NULL && inUse <= num
      ensures |Stream(fs, bufs, inq)| == old(|Stream(fs, bufs, inq)|) && bufs[inq[0]] == old(bufs[inq[0]])
                && FlagsTracked()
      ensures buf in bufs
      ensures var n, all := |bufs[buf].data|, Size(bufs[inq[0]]);
              && (bufs[buf].recycled ==> n == size) && (!bufs[buf].recycled ==> n == all)
              && (!bufs[buf].recycled <==>
                    bufs[inq[0]].lastInChain && (all < size || (all < size + size / 4 && num == 1 && !directio)))
      ensures buf in mine && (old(Ordinary(bufs, inq)) ==> Ordinary(bufs, inq) && (InHand() <==> old(InOrder())))
    {
      hide Fit, Flows, Placed, Reusable, Stream, All, CleanIn, Items, SlotOf, Ordinary, Careful, AfterAll;
      FlowHead(fs, bufs, taken, sent, held, [], inq);
      if Lone() {
        NoneMade(bufs, tag, mine, free, busy);
        FirstItem(bufs, inq);
        MakeForetold(Items(bufs, inq), size, num);
        SlotOfNone(bufs);
      }
      var bsize := Size(bufs[inq[0]]);
      var n, recycled := size, true;
      if bufs[inq[0]].lastInChain {
        if bsize < size {
          n, recycled := bsize, false;
        } else if !directio && num == 1 && bsize < size + size / 4 {
          n, recycled := bsize, false;
        }
      }
      NoneFree(bufs, inq);
      Make(n, tag, recycled, []);
      FlowHead(fs, bufs, taken, sent, held, [], inq);
      FirstItem(bufs, inq);
      FreshHanded(Items(bufs, inq), n);
      assert Slots(bufs, free) == [];
    }

    /** A buffer to copy into, if one can be had. */
    method Obtain(out: seq<int>) returns (have: bool)
      requires Inv(out, out) && buf == NULL && inq != [] && Size(bufs[inq[0]]) > 0 && !Passes(bufs[inq[0]])
      modifies this`bufs, this`buf, this`next, this`mine, this`inUse, this`free, this`directio
      ensures Inv(out, out) && (have <==> buf != NULL) && (!have ==> free == [] && (out != [] || inUse == num))
      ensures |Stream(fs, bufs, inq)| == old(|Stream(fs, bufs, inq)|) && bufs[inq[0]] == old(bufs[inq[0]])
                && FlagsTracked()
      ensures directioFile(bufs[inq[0]].file) ==> directio
      ensures Lone() && have ==> buf in mine
      ensures old(Ordinary(bufs, inq)) ==>
                Ordinary(bufs, inq) && (if have then InHand() else flagsKept) == old(InOrder())
    {
      hide Fit, Flows, Placed, Reusable, Stream, All, Items, SlotOf, Ordinary, Careful, AfterAll, Passes, Orderly,
          Handed;
      have := AlignFileBuf(out);
      if !have {
        if free != [] {
          PlaceTake(bufs, tag, mine, free, busy, out, held, inq);
          FreeIsKnown(bufs, mine, free, buf, held, out, inq);
          FreeIsMine(bufs, tag, mine, free, busy, out, buf);
          FlowHead(fs, bufs, taken, sent, held, out, inq);
          TakeFirst(bufs, inq, free);
          buf, free := free[0], free[1..];
          have := true;
        } else if out != [] || inUse == num {
          NoneFree(bufs, inq);
          return false;
        } else {
          GetBuf();
          have := true;
        }
      }
    }

    lemma TakeFirst(h: Heap, inq: seq<int>, free: seq<int>)
      requires inq != [] && inq[0] in h && free != [] && Copies(View(h[inq[0]]))
      ensures Orderly(Items(h, inq), Slots(h, free)) <==>
                Handed(Items(h, inq), SlotAt(h, free[0]), Slots(h, free[1..]))
    {
      hide View;
      assert Slots(h, free)[1..] == Slots(h, free[1..]);
    }

    lemma NoneFree(h: Heap, inq: seq<int>)
      ensures Orderly(Items(h, inq), Slots(h, []))
    {
    }

    /** ngx_output_chain_copy_buf: as much as fits, from memory or from the file; a
        read can fail. */
    method CopyBuf() returns (ok: bool)
      requires inq != [] && inq[0] in bufs && buf in bufs && buf != inq[0] && Sound(fs, bufs[inq[0]])
                 && Blank(bufs[buf])
      modifies this`bufs
      ensures ok ==>
        var src, dst := old(bufs)[inq[0]], old(bufs)[buf];
        var n := Least(Size(src), |dst.data|);
        bufs == old(bufs)[buf := Filled(fs, dst, src, n, sendfile && !directio)][inq[0] := Advanced(src, n)]
      ensures !ok ==>
        && faulty && !InMemory(old(bufs)[inq[0]]) && buf in bufs && |bufs[buf].data| == |old(bufs)[buf].data|
        && bufs == old(bufs)[buf := old(bufs)[buf].(data := bufs[buf].data)]
    {
      hide Filled, Put;
      var src, dst := bufs[inq[0]], bufs[buf];
      var n := Least(Size(src), |dst.data| - dst.pos);
      var send := sendfile && !directio;
      var chunk, sub;
      if InMemory(src) {
        chunk, sub := src.data[src.pos..src.pos + n], src.inFile;
        MemoryBytes(fs, src);
        assert src.data[src.pos..src.last][..n] == chunk;
      } else {
        var fails: bool := *;
        if faulty && fails {
          var garbled := ShortRead(dst, n);
          bufs := bufs[buf := garbled];
          return false;
        }
        NotInMemory(fs, src, n);
        chunk, sub := if src.inFile then fs(src.file)[src.filePos..src.filePos + n] else [], src.inFile;
      }
      var d := Put(dst, chunk, sub && send, src, n == Size(src));
      FilledIs(fs, dst, src, n, send, chunk);
      bufs := bufs[buf := d][inq[0] := Advanced(src, n)];
      return true;
    }

    /** One buffer is filled from the first of those waiting. */
    ghost predicate Copied(h: Heap, buf: int, inq: seq<int>, n: nat, h': Heap) {
      && inq != [] && inq[0] in h && buf in h && buf !in inq && inq[0] !in inq[1..]
      && h'.Keys == h.Keys && (forall y :: y in h && y != buf && y != inq[0] ==> h'[y] == h[y])
      && 0 < n == Least(Size(h[inq[0]]), |h[buf].data|) && !Passes(h[inq[0]])
      && View(h'[inq[0]]) == View(h[inq[0]]).(size := Size(h[inq[0]]) - n) && h'[inq[0]].file == h[inq[0]].file
      && |h'[buf].data| == |h[buf].data| && Flagged(h'[buf]) == Flagged(h[if n == Size(h[inq[0]]) then inq[0] else buf])
    }

    lemma FilledCopied(h: Heap, mine: set<int>, buf: int, inq: seq<int>, n: nat, b: Buf)
      requires inq != [] && inq[0] in h && buf in h && buf !in inq && inq[0] !in inq[1..]
      requires Sound(fs, h[inq[0]]) && Blank(h[buf]) && Size(h[inq[0]]) > 0 && !Passes(h[inq[0]])
      requires n == Least(Size(h[inq[0]]), |h[buf].data|)
                 && b == Filled(fs, h[buf], h[inq[0]], n, sendfile && !directio)
      ensures Copied(h, buf, inq, n, h[buf := b][inq[0] := Advanced(h[inq[0]], n)])
      ensures FlagsRight(b, h[inq[0]], n) <==> n == Size(h[inq[0]]) || !Flagged(h[buf])
    {
      AdvancedView(h[inq[0]], n);
      FilledFlags(fs, h[buf], h[inq[0]], n, sendfile && !directio);
      hide Filled, Advanced, Passes, Size, Sound;
      assert inq[0] in inq;
    }

    lemma CopyClean(h: Heap, h': Heap, mine: set<int>, buf: int, inq: seq<int>, n: nat)
      requires Copied(h, buf, inq, n, h') && inq[0] !in mine && NULL !in h
      ensures CleanIn(h, mine, buf, inq) ==> CleanIn(h', mine, NULL, inq) && !Flagged(h[buf])
      ensures Ordinary(h, inq) ==> Ordinary(h', inq)
    {
      hide Size, Flagged, Passes;
      assert inq[0] in inq && forall y :: y in inq ==> y == inq[0] || y in inq[1..];
    }

    /** Where there is one buffer for copies, a copy is right as foretold. */
    lemma CopyCareful(h: Heap, h': Heap, mine: set<int>, buf: int, inq: seq<int>, n: nat)
      requires Copied(h, buf, inq, n, h') && inq[0] !in mine && buf in mine && |mine| <= 1
      ensures Careful(Items(h, inq), SlotOf(h, mine), size, num) <==>
              (n == Size(h[inq[0]]) || !Flagged(h[buf])) && Careful(Items(h', inq), SlotOf(h', mine), size, num)
      ensures AfterAll(Items(h, inq), SlotOf(h, mine), size, num) ==
                AfterAll(Items(h', inq), SlotOf(h', mine), size, num)
    {
      hide Size, Flagged, Passes, Careful, AfterAll, SlotOf;
      var l, l' := Items(h, inq), Items(h', inq);
      forall i | 0 < i < |inq| ensures l'[i] == l[i] {
        assert inq[i] in inq && inq[i] == inq[1..][i - 1];
      }
      assert l' == l[0 := View(h'[inq[0]])];
      SlotIs(h, mine, buf);
      SlotIs(h', mine, buf);
      CopyForetold(l, SlotOf(h, mine), n, size, num);
    }

    /** A copy into the buffer in hand is right as foretold. */
    lemma CopyHanded(h: Heap, h': Heap, buf: int, inq: seq<int>, n: nat, free: seq<int>)
      requires Copied(h, buf, inq, n, h') && buf !in free && inq[0] !in free
      ensures Slots(h', free) == Slots(h, free)
      ensures Handed(Items(h, inq), SlotAt(h, buf), Slots(h, free)) <==>
              (n == Size(h[inq[0]]) || !Flagged(h[buf])) && Orderly(Items(h', inq), Slots(h', free))
    {
      hide Size, Flagged, Passes;
      var l, l' := Items(h, inq), Items(h', inq);
      forall i | 0 < i < |inq| ensures l'[i] == l[i] {
        assert inq[i] in inq && inq[i] == inq[1..][i - 1];
      }
      assert l' == l[0 := View(h'[inq[0]])];
      forall i | 0 <= i < |free| ensures Slots(h', free)[i] == Slots(h, free)[i] {
        assert free[i] in free;
        assert free[i] in h <==> free[i] in h'.Keys;
      }
      if n == Size(h[inq[0]]) {
        assert l'[1..] == Left(l, |h[buf].data|);
      } else {
        assert l' == Left(l, |h[buf].data|);
      }
    }

    lemma AdvancedView(b: Buf, n: nat)
      requires Sound(fs, b) && n <= Size(b)
      ensures View(Advanced(b, n)) == View(b).(size := Size(b) - n) && Advanced(b, n).file == b.file
    {
    }

    /** A read that fails or falls short may have written some bytes. */
    method ShortRead(dst: Buf, n: nat) returns (d: Buf)
      requires n <= |dst.data|
      ensures d == dst.(data := d.data) && |d.data| == |dst.data|
    {
      var some: seq<Byte> := *;
      d := if |some| <= n then dst.(data := some + dst.data[|some|..]) else dst;
    }

    ghost function Weight(): nat
      requires All(fs, bufs, inq)
      reads this
    {
      |Stream(fs, bufs, inq)| + |inq|
    }

    /** Part of the first buffer is copied and goes out. */
    method CopyOut(out: seq<int>) returns (ok: bool, out': seq<int>)
      requires Inv(out, out) && buf != NULL && inq != [] && Size(bufs[inq[0]]) > 0
      requires directioFile(bufs[inq[0]].file) ==> directio
      modifies this`bufs, this`buf, this`flagsKept
      ensures ok ==> Inv(out', out') && buf == NULL && out' != [] && Weight() < old(Weight())
      ensures ok ==>
        var src, dst := old(bufs)[inq[0]], old(bufs)[old(buf)];
        var n := Least(Size(src), |dst.data|);
        && Sound(fs, src) && Blank(dst)
        && var b := Filled(fs, dst, src, n, sendfile && !directio);
        && bufs == old(bufs)[old(buf) := b][inq[0] := Advanced(src, n)]
        && flagsKept == (old(flagsKept) && FlagsRight(b, src, n))
      ensures !ok ==> faulty
    {
      hide Fit, Sendable, Flows, Placed, Reusable, Stream, All, Healthy, Filled, Size, Advanced, Sound, Bytes,
          FlagsRight;
      FlowHead(fs, bufs, taken, sent, held, out, inq);
      BufIsBlank(bufs, mine, free, buf, held, out, inq);
      HealthyAt(fs, bufs, next, buf);
      ghost var h, src, dst := bufs, bufs[inq[0]], bufs[buf];
      ghost var n := Least(Size(src), |dst.data|);
      ghost var b := Filled(fs, dst, src, n, sendfile && !directio);
      FilledBytes(fs, dst, src, n, sendfile && !directio);
      AdvancedBytes(fs, src, n);
      ok := CopyBuf();
      out' := out;
      if !ok {
        return;
      }
      flagsKept := flagsKept && FlagsRight(b, src, n);
      CopyHealthy(fs, h, next, buf, b, inq[0], Advanced(src, n));
      FlowCopy(fs, h, taken, sent, held, out, inq, buf, n, b);
      FlowOnce(fs, h, taken, sent, held, out, inq);
      CopyFits(h, held, out, buf, b, inq[0], src, Advanced(src, n));
      PlaceCopy(h, bufs, tag, mine, free, busy, out, buf, held, inq);
      out' := out + [buf];
      buf := NULL;
    }

    /** A source that is copied to the end leaves the front. */
    method CopyFirst(out: seq<int>) returns (ok: bool, out': seq<int>)
      requires Inv(out, out) && buf != NULL && inq != [] && Size(bufs[inq[0]]) > 0 && !Passes(bufs[inq[0]])
      requires directioFile(bufs[inq[0]].file) ==> directio
      requires Lone() ==> buf in mine
      modifies this`bufs, this`inq, this`buf, this`flagsKept
      ensures ok ==> Inv(out', out') && buf == NULL && out' != [] && Weight() < old(Weight()) && FlagsTracked()
      ensures ok && old(Ordinary(bufs, inq)) ==> Ordinary(bufs, inq) && (InOrder() <==> old(InHand()))
      ensures !ok ==> faulty
    {
      hide Fit, Flows, Placed, Reusable, Stream, All, Healthy, CleanIn, Items, SlotOf, Ordinary, Careful, AfterAll,
          Passes, Filled, Size, Orderly, Handed, Slots, SlotAt;
      hide Advanced, Sound, Bytes, FlagsRight, Copied, Flagged, Blank;
      FlowHead(fs, bufs, taken, sent, held, out, inq);
      BufIsBlank(bufs, mine, free, buf, held, out, inq);
      FlowOnce(fs, bufs, taken, sent, held, out, inq);
      NotMine(bufs, mine, free, buf, held, out, inq);
      HealthyAt(fs, bufs, next, buf);
      ghost var h, d := bufs, buf;
      ghost var n := Least(Size(h[inq[0]]), |h[d].data|);
      ok, out' := CopyOut(out);
      if !ok {
        return;
      }
      FilledCopied(h, mine, d, inq, n, Filled(fs, h[d], h[inq[0]], n, sendfile && !directio));
      CopyClean(h, bufs, mine, d, inq, n);
      InHandNotFree(h, tag, mine, free, busy, out, d, held, inq);
      CopyHanded(h, bufs, d, inq, n, free);
      if old(Lone()) {
        CopyCareful(h, bufs, mine, d, inq, n);
      }
      if Size(bufs[inq[0]]) == 0 {
        DropFirst(out');
      }
    }

    /** An empty buffer leaves the front. */
    method DropFirst(ghost out: seq<int>)
      requires Inv(out, out) && buf == NULL && inq != [] && Size(bufs[inq[0]]) == 0
      modifies this`inq
      ensures Inv(out, out) && Weight() < old(Weight()) && FlagsTracked() && RoundKept()
      ensures inq == old(inq)[1..]
    {
      hide Fit, Placed, Reusable, Healthy, Sound, CleanIn, Items, SlotOf, Ordinary, Careful, AfterAll, Slots, Orderly;
      HeadOf(fs, bufs, inq);
      FirstGone(bufs, inq, SlotOf(bufs, mine));
      FirstPasses(bufs, inq, Slots(bufs, free));
      FewerFlags(bufs, mine, buf, inq);
      FlowDrop(fs, bufs, taken, sent, held, out, inq);
      PlaceMove(bufs, tag, mine, free, busy, out, buf, held, inq);
      inq := inq[1..];
    }

    /** A buffer goes out as it is. */
    method MoveFirst(out: seq<int>) returns (out': seq<int>)
      requires Inv(out, out) && buf == NULL && inq != [] && inq[0] in bufs && Passes(bufs[inq[0]])
                 && Sendable(bufs[inq[0]])
      modifies this`inq
      ensures out' == out + [old(inq)[0]] && inq == old(inq)[1..]
      ensures Inv(out', out') && out' != [] && Weight() < old(Weight()) && FlagsTracked() && RoundKept()
    {
      hide Fit, Sendable, Placed, Reusable, Healthy, Sound, CleanIn, Items, SlotOf, Ordinary, Careful, AfterAll, Slots,
          Orderly;
      HeadOf(fs, bufs, inq);
      FirstGone(bufs, inq, SlotOf(bufs, mine));
      FirstPasses(bufs, inq, Slots(bufs, free));
      FewerFlags(bufs, mine, buf, inq);
      FlowMove(fs, bufs, taken, sent, held, out, inq);
      PlaceMove(bufs, tag, mine, free, busy, out, buf, held, inq);
      FitOne(bufs, inq[0]);
      FitConcat(bufs, out, [inq[0]]);
      out' := out + [inq[0]];
      inq := inq[1..];
    }

    /** One turn of the inner loop. */
    method Turnover(out: seq<int>) returns (ok: bool, more: bool, out': seq<int>)
      requires Inv(out, out) && buf == NULL && inq != []
      modifies this`bufs, this`inq, this`buf, this`next, this`mine, this`inUse, this`free, this`directio, this`flagsKept
      ensures (ok ==> FlagsTracked()) && (!ok ==> faulty) && inUse <= num
      ensures ok ==> Inv(out', out') && buf == NULL && (out != [] ==> out' != [])
      ensures ok && more ==> Weight() < old(Weight()) && RoundKept()
      ensures ok && !more ==>
                && out' == out && Weight() <= old(Weight())
                && (old(Ordinary(bufs, inq)) ==> Ordinary(bufs, inq) && (flagsKept <==> old(InOrder())))
                && inq != [] && free == [] && (out != [] || inUse == num) && inq[0] in bufs && !Passes(bufs[inq[0]])
      ensures old(Fit(bufs, inq)) ==>
                && ok && more && Fit(bufs, inq) && bufs == old(bufs) && next == old(next) && mine == old(mine)
                && free == old(free) && inq == old(inq)[1..]
                && out' + Worthy(bufs, inq) == out + Worthy(bufs, old(inq))
    {
      hide Clean, Foretold, Ending, Worthy, Fit, Sendable, Flows, Placed, Reusable, Stream, Healthy, Sound, CleanIn,
          Items, SlotOf, Ordinary, Careful, AfterAll, Passes, Size, Slots, Orderly, Handed;
      ok, more, out' := true, true, out;
      FitHead(bufs, inq);
      FlowHead(fs, bufs, taken, sent, held, out, inq);
      var bsize := Size(bufs[inq[0]]);
      SizePositive(fs, bufs[inq[0]]);
      if bsize == 0 && !Special(bufs[inq[0]]) {
        DropFirst(out);
        return;
      }
      var plain := TestFirst(out);
      if plain {
        out' := MoveFirst(out);
        return;
      }
      more := Obtain(out);
      FlowHead(fs, bufs, taken, sent, held, out, inq);
      if more {
        ok, out' := CopyFirst(out);
      }
    }

    /** The inner loop of ngx_output_chain: while there is input, and a buffer where
        one is needed. */
    method Fill() returns (ok: bool, out: seq<int>)
      requires Valid()
      modifies this`bufs, this`inq, this`buf, this`next, this`mine, this`inUse, this`free, this`directio, this`flagsKept
      ensures (ok ==> FlagsTracked()) && (!ok ==> faulty)
      ensures ok && old(Ordinary(bufs, inq)) ==> Ordinary(bufs, inq) && (flagsKept <==> old(InOrder()))
      ensures ok ==>
                Inv(out, out) && buf == NULL && Weight() <= old(Weight()) && (out != [] ==> Weight() < old(Weight()))
      ensures ok && inq != [] ==> free == [] && (out != [] || inUse == num) && inq[0] in bufs && !Passes(bufs[inq[0]])
      ensures inUse <= num
      ensures old(Fit(bufs, inq)) ==>
                && ok && inq == [] && bufs == old(bufs) && next == old(next) && mine == old(mine) && free == old(free)
                && out == Worthy(bufs, old(inq))
    {
      hide Clean, Lone, Foretold, Ending, Fit, Worthy, Flows, Placed, Reusable, Stream, Healthy, Sound, CleanIn, Items,
          SlotOf, Ordinary, Careful, AfterAll, Passes, Size, Slots, Orderly, Handed;
      ok, out := true, [];
      WorthyNone(bufs);
      assert [] + Worthy(bufs, inq) == Worthy(bufs, inq);
      FlowHead(fs, bufs, taken, sent, held, out, inq);
      var more := true;
      while inq != [] && more
        invariant ok && Inv(out, out) && buf == NULL && All(fs, bufs, inq) && FlagsTracked()
        invariant more ==> RoundKept()
        invariant old(Fit(bufs, inq)) ==>
                    && more && Fit(bufs, inq) && bufs == old(bufs) && next == old(next) && mine == old(mine)
                    && free == old(free) && out + Worthy(bufs, inq) == Worthy(bufs, old(inq))
        invariant Weight() <= old(Weight()) && (out != [] ==> Weight() < old(Weight()))
        invariant !more ==>
                    && (old(Ordinary(bufs, inq)) ==> Ordinary(bufs, inq) && (flagsKept <==> old(InOrder())))
                    && inq != [] && free == [] && (out != [] || inUse == num) && inq[0] in bufs && !Passes(bufs[inq[0]])
        decreases Weight(), more
      {
        ok, more, out := Turnover(out);
        if !ok {
          return;
        }
        FlowHead(fs, bufs, taken, sent, held, out, inq);
      }
      assert out + [] == out;
      if more {
        NoneWaiting(bufs, Slots(bufs, free));
      }
    }

    /** The same, with the round on record. */
    method FillRound() returns (ok: bool, out: seq<int>)
      requires Valid()
      modifies this`bufs, this`inq, this`buf, this`next, this`mine, this`inUse, this`free, this`directio, this`flagsKept
      modifies this`rounds
      ensures (ok ==> FlagsTracked()) && (!ok ==> faulty) && inUse <= num
      ensures rounds == old(rounds) + [Round(old(Items(bufs, inq)), old(Slots(bufs, free)))]
      ensures ok && old(Ordinary(bufs, inq)) ==> Ordinary(bufs, inq) && (flagsKept <==> old(InOrder()))
      ensures ok ==>
                Inv(out, out) && buf == NULL && Weight() <= old(Weight()) && (out != [] ==> Weight() < old(Weight()))
      ensures ok && inq != [] ==> free == [] && (out != [] || inUse == num) && inq[0] in bufs && !Passes(bufs[inq[0]])
      ensures old(Fit(bufs, inq)) ==> ok && inq == [] && next == old(next) && mine == old(mine)
    {
      hide Clean, Lone, Foretold, Ending, Fit, Worthy, Flows, Placed, Reusable, Stream, Healthy, Sound, CleanIn, Items,
          SlotOf, Ordinary, Careful, AfterAll, Passes, Size, Slots, Orderly, Handed;
      rounds := rounds + [Round(Items(bufs, inq), Slots(bufs, free))];
      ok, out := Fill();
    }

    lemma NoneWaiting(h: Heap, free: seq<Slot>)
      ensures Orderly(Items(h, []), free)
    {
    }

    // ------------------------------------------------------------ the filter

    /** Any filter that sends in order: it takes the buffers, sends some of the bytes it
        holds, reading them now, and lets go of the buffers it has sent. */
    method Filter(out: seq<int>, ghost placed: seq<int>, turn: Turn) returns (rc: Status)
      requires Inv(placed, out) && buf == NULL && forall x :: x in free ==> x !in out
      modifies this`bufs, this`held, this`sent
      ensures Inv(placed, []) && rc != None && bufs.Keys == old(bufs).Keys
      ensures old(sent) <= sent
      ensures All(fs, bufs, inq) && old(All(fs, bufs, inq)) && Weight() == old(Weight())
      ensures FlagsTracked() && rc == Reply(turn) && (old(Ordinary(bufs, inq)) ==> Ordinary(bufs, inq))
      ensures turn.all ==> held == [] && forall x :: x in out ==> x in bufs && Size(bufs[x]) == 0
    {
      hide Fit, Flows, Placed, Reusable, Stream, Healthy, Sound, All, Size, SentOf, CleanIn, Items, SlotOf, Ordinary,
          Careful, AfterAll;
      var n := turn.most;
      rc := if turn.rc == None then Again else turn.rc;
      FlowHead(fs, bufs, taken, sent, held, out, inq);
      FlowGive(fs, bufs, taken, sent, held, out, inq);
      FlowHead(fs, bufs, taken, sent, held + out, [], inq);
      StartSent(fs, bufs, held + out);
      FlowApart(fs, bufs, taken, sent, held + out, inq);
      ghost var h, all := bufs, held + out;
      FitConcat(bufs, held, out);
      held := held + out;
      while (turn.all || n > 0) && held != []
        invariant Healthy(fs, bufs, next) && Flows(fs, bufs, taken, sent, held, [], inq) && SentOf(h, bufs, all, held)
        invariant All(fs, h, inq) && All(fs, bufs, inq) && Stream(fs, bufs, inq) == Stream(fs, h, inq)
        invariant old(sent) <= sent
        decreases |held|, n
      {
        n := Send(n, turn.all, h, all);
      }
      SentAlike(h, bufs, all, held, inq);
      AlikeFlags(h, bufs, mine, buf, inq);
      FitSent(h, bufs, all, held);
      PlaceSend(h, bufs, tag, mine, free, busy, placed, out, old(held), held, inq);
    }

    /** The filter sends from the buffer at its front. */
    method Send(n: nat, most: bool, ghost h: Heap, ghost all: seq<int>) returns (left: nat)
      requires (most || n > 0) && held != [] && Healthy(fs, bufs, next)
                 && Flows(fs, bufs, taken, sent, held, [], inq) && SentOf(h, bufs, all, held)
      modifies this`bufs, this`held, this`sent
      ensures Healthy(fs, bufs, next) && Flows(fs, bufs, taken, sent, held, [], inq) && SentOf(h, bufs, all, held)
      ensures All(fs, bufs, inq) && old(All(fs, bufs, inq)) && Stream(fs, bufs, inq) == old(Stream(fs, bufs, inq))
      ensures old(sent) <= sent && |held| <= old(|held|) && (|held| == old(|held|) ==> !most && left < n)
    {
      hide Stream, Healthy, Sound, All, Bytes, Once, Size, SentOf, Flows, Advanced;
      HeldHead(fs, bufs, taken, sent, held, inq);
      var x := held[0];
      var s := Size(bufs[x]);
      SizePositive(fs, bufs[x]);
      var k := if most then s else Least(s, n);
      AdvancedBytes(fs, bufs[x], k);
      FlowSend(fs, bufs, taken, sent, held, inq, k);
      CopyHealthy(fs, bufs, next, x, Advanced(bufs[x], k), x, Advanced(bufs[x], k));
      StreamElsewhere(fs, bufs, inq, x, Advanced(bufs[x], k));
      SentMore(h, bufs, all, held, k);
      sent := sent + Bytes(fs, bufs[x])[..k];
      assert bufs[x := Advanced(bufs[x], k)][x := Advanced(bufs[x], k)] == bufs[x := Advanced(bufs[x], k)];
      bufs := bufs[x := Advanced(bufs[x], k)];
      if k == s {
        held := held[1..];
      }
      left := if most then n else n - k;
    }

    /** A sent buffer of ours is emptied and free again. */
    method TakeBack(ghost h: Heap)
      requires Valid() && busy != [] && busy[0] in bufs && Size(bufs[busy[0]]) == 0 && bufs[busy[0]].tag == tag
                 && Alike(h, bufs, inq)
      modifies this`bufs, this`busy, this`free
      ensures Valid() && busy == old(busy)[1..] && free == [old(busy)[0]] + old(free) && Alike(h, bufs, inq)
      ensures forall y :: y in bufs ==> y in old(bufs) && bufs[y].tag == old(bufs)[y].tag
      ensures All(fs, bufs, inq) && old(All(fs, bufs, inq)) && Stream(fs, bufs, inq) == old(Stream(fs, bufs, inq))
      ensures forall y :: y in bufs && y in old(bufs) && Size(old(bufs)[y]) == 0 ==> Size(bufs[y]) == 0
    {
      hide Fit, Flows, Placed, Reusable, Stream, Healthy, Sound, All, Alike;
      FlowHead(fs, bufs, taken, sent, held, [], inq);
      var x := busy[0];
      var b := bufs[x].(pos := 0, last := 0);
      HealthyAt(fs, bufs, next, x);
      MineIsTemporary(bufs, tag, mine, free, busy, [], buf, x);
      EmptiedIsSound(fs, bufs[x]);
      PlaceBack(bufs, tag, mine, free, busy, held, inq, b);
      FlowElsewhere(fs, bufs, taken, sent, held, [], inq, x, b);
      StreamElsewhere(fs, bufs, inq, x, b);
      FitsStill(bufs, held, [], x, b);
      ResetAlike(h, bufs, inq, x);
      CopyHealthy(fs, bufs, next, x, b, x, b);
      assert bufs[x := b][x := b] == bufs[x := b];
      bufs := bufs[x := b];
      busy, free := busy[1..], [x] + free;
    }

    /** A sent buffer is no longer awaited. */
    method LetGo(ghost h: Heap)
      requires Valid() && busy != [] && busy[0] in bufs && Size(bufs[busy[0]]) == 0 && Alike(h, bufs, inq)
      modifies this`bufs, this`busy, this`free
      ensures Valid() && busy == old(busy)[1..] && Alike(h, bufs, inq)
      ensures free == (if old(bufs[busy[0]].tag) == tag then [old(busy)[0]] else []) + old(free)
      ensures forall y :: y in bufs ==> y in old(bufs) && bufs[y].tag == old(bufs)[y].tag
      ensures All(fs, bufs, inq) && old(All(fs, bufs, inq)) && Stream(fs, bufs, inq) == old(Stream(fs, bufs, inq))
      ensures forall y :: y in bufs && y in old(bufs) && Size(old(bufs)[y]) == 0 ==> Size(bufs[y]) == 0
    {
      hide Fit, Flows, Placed, Reusable, Stream, Healthy, Sound, All, Alike, Size;
      FlowHead(fs, bufs, taken, sent, held, [], inq);
      if bufs[busy[0]].tag != tag {
        PlaceForget(bufs, tag, mine, free, busy);
        busy := busy[1..];
        assert [] + free == free;
      } else {
        TakeBack(h);
      }
    }

    /** ngx_chain_update_chains: sent buffers come back from the front, and ours are
        free again. */
    method UpdateChains(out: seq<int>) returns (ghost n: nat)
      requires Inv(out, []) && buf == NULL && forall x :: x in out ==> x in bufs
      modifies this`bufs, this`busy, this`free
      ensures Valid() && All(fs, bufs, inq) && old(All(fs, bufs, inq)) && Weight() == old(Weight())
      ensures busy != [] ==> busy[0] in bufs && Size(bufs[busy[0]]) != 0
      ensures (old(Clean()) ==> Clean()) && (num <= 1 || busy == [] ==> FlagsTracked())
      ensures old(Ordinary(bufs, inq)) ==> Ordinary(bufs, inq)
      ensures n <= |old(busy) + out| && busy == (old(busy) + out)[n..]
      ensures free == Back(old(bufs), tag, (old(busy) + out)[..n]) + old(free) && Alike(old(bufs), bufs, inq)
      ensures old(busy) == [] && (forall x :: x in out ==> Size(old(bufs)[x]) == 0) ==> busy == []
    {
      hide Fit, Flows, Placed, Reusable, Stream, Healthy, Sound, All, Alike, CleanIn, Items, SlotOf, Ordinary, Careful,
          AfterAll, Back, Size, View;
      StartAlike(bufs, inq);
      BackNone(bufs, tag, free);
      ghost var drained := busy == [] && forall x :: x in out ==> Size(bufs[x]) == 0;
      FlowHead(fs, bufs, taken, sent, held, [], inq);
      PlaceAwait(bufs, tag, mine, free, busy, out);
      busy := busy + out;
      ghost var all := busy;
      n := 0;
      while busy != []
        invariant n <= |all| && busy == all[n..] && free == Back(old(bufs), tag, all[..n]) + old(free)
        invariant forall y :: y in bufs ==> y in old(bufs) && bufs[y].tag == old(bufs)[y].tag
        invariant Inv([], []) && All(fs, bufs, inq) && Stream(fs, bufs, inq) == old(Stream(fs, bufs, inq))
        invariant Alike(old(bufs), bufs, inq) && (drained ==> forall x :: x in busy ==> Size(bufs[x]) == 0)
        decreases |busy|
      {
        var x := busy[0];
        assert x in busy;
        if Size(bufs[x]) != 0 {
          break;
        }
        BackMore(old(bufs), tag, all, n, old(free));
        n := n + 1;
        LetGo(old(bufs));
      }
      AlikeFlags(old(bufs), bufs, mine, buf, inq);
    }

    // ------------------------------------------------------------ the whole

    /** Input is left over only for want of a buffer to copy it into. */
    ghost predicate Stuck()
      reads this
    {
      inq != [] ==> inq[0] in bufs && !Passes(bufs[inq[0]]) && free == [] && inUse == num
    }

    /** Buffers that a caller may hand over: sound, not ours, and none of them pending. */
    ghost predicate Acceptable(given: seq<int>)
      reads this
    {
      All(fs, bufs, given) && Once(multiset(inq + given) + multiset([]) + multiset(held))
          && forall x :: x in given ==> bufs[x].tag != tag
    }

    /** Nothing of it that needs a copy has flags. */
    ghost predicate Unflagged(given: seq<int>)
      reads this
    {
      forall x :: x in given && x in bufs && !Passes(bufs[x]) ==> !Flagged(bufs[x])
    }

    ghost predicate ForetoldWith(given: seq<int>)
      reads this
    {
      flagsKept && Careful(Items(bufs, inq + given), SlotOf(bufs, mine), size, num)
    }

    ghost function EndingWith(given: seq<int>): Slot
      reads this
    {
      AfterAll(Items(bufs, inq + given), SlotOf(bufs, mine), size, num)
    }

    /** There is one copy buffer at most, now and while the filter does as told. */
    ghost predicate Exact(turns: nat -> Turn)
      reads this
    {
      Lone() && (num <= 1 || (Drains(turns) && Settled()))
    }

    /** A buffer of a caller, as good as those it has. */
    method Receive(b: Buf, ghost given: seq<int>) returns (x: int)
      requires Valid() && Acceptable(given) && Sound(fs, b) && b.tag != tag
      modifies this`bufs, this`next
      ensures Valid() && x !in old(bufs) && bufs == old(bufs)[x := b] && Acceptable(given + [x])
      ensures Clean() == old(Clean()) && Lone() == old(Lone()) && Items(bufs, inq) == old(Items(bufs, inq))
      ensures SlotOf(bufs, mine) == old(SlotOf(bufs, mine))
    {
      hide Fit, Flows, Placed, Reusable, Stream, Healthy, Sound, Once, Flagged, Passes, View;
      FlowHead(fs, bufs, taken, sent, held, [], inq);
      NewIsElsewhere(fs, bufs, next, held);
      NewIsElsewhere(fs, bufs, next, inq);
      NewIsElsewhere(fs, bufs, next, given);
      NewIsElsewhere(fs, bufs, next, []);
      FlowElsewhere(fs, bufs, taken, sent, held, [], inq, next, b);
      ReceivedPlaces(fs, bufs, next, tag, mine, free, busy, held, inq, b);
      FitsStill(bufs, held, [], next, b);
      OnceReceived(inq, given, held, next);
      x := next;
      bufs := bufs[x := b];
      next := next + 1;
    }

    lemma UnflaggedIs(h: Heap, given: seq<int>)
      requires NULL !in h
      ensures CleanIn(h, {}, NULL, given) <==> forall x :: x in given && x in h && !Passes(h[x]) ==> !Flagged(h[x])
    {
      hide Flagged, Passes;
    }

    lemma SpecialPasses(b: Buf)
      ensures Special(b) ==> Passes(b)
    {
    }

    lemma TestedAlike(h: Heap, h': Heap, l: seq<int>, x: int)
      requires x in h && x in h' && h' == h[x := h'[x]] && Passes(h[x]) == Passes(h'[x])
      requires h'[x] == h[x] || (InMemory(h[x]) && h'[x] == h[x].(inFile := false))
      ensures Alike(h, h', l)
    {
      assert View(h'[x]) == View(h[x]);
      hide View, Passes;
    }

    lemma MoreFlags(h: Heap, mine: set<int>, buf: int, inq: seq<int>, given: seq<int>)
      ensures CleanIn(h, mine, buf, inq) && (forall x :: x in given && x in h && !Passes(h[x]) ==> !Flagged(h[x])) ==>
                CleanIn(h, mine, buf, inq + given)
      ensures Ordinary(h, inq) && Ordinary(h, given) ==> Ordinary(h, inq + given)
    {
      hide Flagged, Passes;
      MembersOf(inq, given);
    }

    /** ngx_output_chain_add_copy */
    method AddCopy(given: seq<int>)
      requires Valid() && Acceptable(given)
      modifies this`inq, this`taken
      ensures Valid() && inq == old(inq) + given && taken == old(taken) + old(Stream(fs, bufs, given))
      ensures old(Clean() && Unflagged(given)) ==> Clean()
      ensures old(Lone() && Ordinary(bufs, given)) ==> Lone()
      ensures old(Ordinary(bufs, inq) && Ordinary(bufs, given)) ==> Ordinary(bufs, inq)
    {
      hide Fit, Sound, Bytes, Stream, Once, All, Healthy, Flows, Placed, Reusable, CleanIn, Items, SlotOf, Ordinary,
          Careful, AfterAll;
      MoreFlags(bufs, mine, buf, inq, given);
      FlowTake(fs, bufs, taken, sent, held, inq, given);
      AddPlaces(fs, bufs, tag, mine, free, busy, held, inq, given);
      var cl := 0;
      ghost var was := inq;
      while cl < |given|
        invariant 0 <= cl <= |given| && inq == was + given[..cl] && taken == old(taken)
      {
        inq := inq + [given[cl]];
        cl := cl + 1;
      }
      assert given[..cl] == given;
      taken := taken + Stream(fs, bufs, given);
    }

    /** The short path: nothing is pending, and there is nothing to copy. */
    method Direct(given: seq<int>, turn: Turn) returns (rc: Status)
      requires Valid() && Acceptable(given) && inq == [] && |given| <= 1 && Fit(bufs, given)
      modifies this`bufs, this`held, this`sent, this`taken
      ensures Valid() && rc != None && taken == old(taken) + old(Stream(fs, bufs, given)) && old(sent) <= sent
      ensures FlagsTracked() && (turn.all ==> held == []) && rc == Reply(turn)
      ensures old(Ordinary(bufs, inq)) ==> Ordinary(bufs, inq)
    {
      hide Fit, Sound, Bytes, Stream, Once, All, Healthy, Flows, Placed, Reusable, CleanIn, Items, SlotOf, Ordinary,
          Careful, AfterAll;
      FlowTake(fs, bufs, taken, sent, held, inq, given);
      AddPlaces(fs, bufs, tag, mine, free, busy, held, inq, given);
      assert [] + given == given;
      taken := taken + Stream(fs, bufs, given);
      if given != [] {
        FlowMove(fs, bufs, taken, sent, held, [], given);
        assert [] + [given[0]] == given && given[1..] == [];
      }
      DirectPlaces(bufs, tag, mine, free, busy, held, given);
      rc := Filter(given, [], turn);
    }

    /** Where a caller never flags what needs a copy, no flag is ever wrong; and where
        there is one copy buffer, the flags are right exactly if the input is careful. */
    twostate predicate FlagsKept(given: seq<int>, turns: nat -> Turn)
      reads this
    {
      && (old(Clean()) && old(Unflagged(given)) ==> Clean() && flagsKept == old(flagsKept))
      && (old(Exact(turns)) && old(Ordinary(bufs, given)) ==>
            Exact(turns) && (Foretold() <==> old(ForetoldWith(given))) && Ending() == old(EndingWith(given)))
      && (Drains(turns) && old(Settled()) ==> Settled() && (num > 0 ==> inq == []))
    }

    /** However many copy buffers there are and whatever the filter does: the flags are right
        exactly if every round was in order, and the first is the one that the input and the
        free list give. */
    twostate predicate RoundsKept(given: seq<int>)
      reads this
    {
      && old(rounds) <= rounds
      && (rounds == old(rounds)
          || rounds[|old(rounds)|] == Round(old(Items(bufs, inq + given)), old(Slots(bufs, free))))
      && (old(Ordinary(bufs, inq) && Ordinary(bufs, given)) ==>
            Ordinary(bufs, inq) && (flagsKept <==> old(flagsKept) && AllOrderly(rounds[|old(rounds)|..])))
    }

    /** Nothing is pending: a buffer that needs no copy, or none, goes to the filter at once. */
    method ShortPath(given: seq<int>, turns: nat -> Turn) returns (done: bool, rc: Status)
      requires Valid() && Acceptable(given) && inq == [] && busy == [] && |given| <= 1
      modifies this`bufs, this`held, this`sent, this`taken
      ensures Valid() && old(sent) <= sent && (old(Fit(bufs, inq + given)) ==> done)
      ensures done ==> rc == Reply(turns(0)) && taken == old(taken) + old(Stream(fs, bufs, given))
      ensures done ==> FlagsKept(given, turns) && RoundsKept(given)
      ensures !done ==> taken == old(taken) && sent == old(sent) && held == old(held)
      ensures !done ==> Acceptable(given) && Stream(fs, bufs, given) == old(Stream(fs, bufs, given))
      ensures !done ==> (old(Clean()) ==> Clean()) && (old(Unflagged(given)) ==> Unflagged(given))
      ensures !done && old(Lone() && Ordinary(bufs, given)) ==> Lone() && Ordinary(bufs, given)
      ensures !done && old(Ordinary(bufs, inq) && Ordinary(bufs, given)) ==>
                Ordinary(bufs, inq) && Ordinary(bufs, given)
      ensures !done ==>
                Items(bufs, inq + given) == old(Items(bufs, inq + given)) && Slots(bufs, free) == old(Slots(bufs, free))
      ensures !done ==>
                ForetoldWith(given) == old(ForetoldWith(given)) && EndingWith(given) == old(EndingWith(given))
    {
      hide Fit, Sendable, Flows, Placed, Reusable, Stream, Healthy, Sound, Once, All, Size, Passes, CleanIn, Items,
          SlotOf, Ordinary, Careful, AfterAll, Slots, AllOrderly;
      done := true;
      NoRounds(rounds);
      if given == [] {
        assert inq + given == inq;
        rc := Direct(given, turns(0));
        return;
      }
      FitHead(bufs, given);
      assert inq + given == given;
      done := TestGiven(given);
      if done {
        FitOne(bufs, given[0]);
        assert given == [given[0]] && given[1..] == inq;
        FirstGone(bufs, given, SlotOf(bufs, mine));
        rc := Direct(given, turns(0));
      } else {
        rc := None;
      }
    }

    /** ngx_output_chain: unless it fails, everything taken in is sent, held by the
        filter, or still to come, in order. */
    method Output(given: seq<int>, turns: nat -> Turn) returns (rc: Status)
      requires Valid() && Acceptable(given)
      modifies this
      ensures inUse <= num && old(sent) <= sent
      ensures rc != Error && rc != Done ==> Valid() && taken == old(taken) + old(Stream(fs, bufs, given)) && Stuck()
      ensures rc != Error && rc != Done ==> Fit(bufs, held)
      ensures rc != Error && rc != Done ==> FlagsKept(given, turns) && RoundsKept(given)
      ensures rc == Ok ==> inq == []
      ensures !faulty && Succeeds(turns) ==> rc == if inq == [] then Ok else Again
      ensures Answers(turns, rc, inq != [], faulty)
      ensures old(Fit(bufs, inq + given)) && rc != Error && rc != Done ==>
                inq == [] && next == old(next) && mine == old(mine)
    {
      hide Fit, Sendable, Flows, Placed, Reusable, Stream, Healthy, Sound, Once, All, Size, Passes, CleanIn, Items,
          SlotOf, Ordinary, Careful, AfterAll, Slots, AllOrderly;
      if inq == [] && busy == [] && |given| <= 1 {
        var done;
        done, rc := ShortPath(given, turns);
        if done {
          return;
        }
      }
      rc := Enqueue(given, turns);
      if !faulty && Succeeds(turns) {
        OkOrWaiting(turns, rc, inq != []);
      }
    }

    /** The long path. */
    method Enqueue(given: seq<int>, turns: nat -> Turn) returns (rc: Status)
      requires Valid() && Acceptable(given)
      modifies this
      ensures inUse <= num && old(sent) <= sent
      ensures rc != Error && rc != Done ==> Valid() && taken == old(taken) + old(Stream(fs, bufs, given)) && Stuck()
      ensures rc != Error && rc != Done ==> FlagsKept(given, turns) && RoundsKept(given)
      ensures rc == Ok ==> inq == []
      ensures Answers(turns, rc, inq != [], faulty)
      ensures old(Fit(bufs, inq + given)) && rc != Error && rc != Done ==>
                inq == [] && next == old(next) && mine == old(mine)
    {
      hide Fit, Flows, Placed, Reusable, Stream, Healthy, Sound, Once, All, Size, Passes, CleanIn, Items, SlotOf,
          Ordinary, Careful, AfterAll, Slots, AllOrderly;
      AddCopy(given);
      rc := Run(turns);
      if rc != Error && rc != Done && Settled() && num > 0 {
        NotStuck();
      }
    }

    /** With everything sent there is a buffer for whatever is left. */
    lemma NotStuck()
      requires Valid() && Stuck() && Settled() && num > 0
      ensures inq == []
    {
      if inq != [] {
        NoneMade(bufs, tag, mine, free, busy);
      }
    }

    /** The main loop: copy and move what can be, pass it on, take back what is sent. */
    method Run(turns: nat -> Turn) returns (rc: Status)
      requires Valid()
      modifies this`bufs, this`inq, this`buf, this`next, this`mine, this`inUse, this`free, this`directio, this`held,
               this`sent, this`busy
      modifies this`flagsKept, this`rounds
      ensures inUse <= num && old(sent) <= sent
      ensures rc != Error && rc != Done ==> RoundsTold()
      ensures |old(rounds)| < |rounds|
      ensures rounds[|old(rounds)|] == Round(old(Items(bufs, inq)), old(Slots(bufs, free)))
      ensures rc != Error && rc != Done ==> Valid() && Stuck()
      ensures rc != Error && rc != Done && old(Clean()) ==> Clean() && flagsKept == old(flagsKept)
      ensures rc != Error && rc != Done && old(Exact(turns)) ==>
                Exact(turns) && (Foretold() <==> old(Foretold())) && Ending() == old(Ending())
      ensures rc != Error && rc != Done && Drains(turns) && old(Settled()) ==> Settled()
      ensures rc == Ok ==> inq == []
      ensures Answers(turns, rc, inq != [], faulty)
      ensures old(Fit(bufs, inq)) && rc != Error && rc != Done ==> inq == [] && next == old(next) && mine == old(mine)
    {
      hide Fit, Flows, Placed, Reusable, Stream, Healthy, Sound, Once, All, Size, Passes, CleanIn, Items, SlotOf,
          Ordinary, Careful, AfterAll, Slots, AllOrderly, Lone, Foretold, Ending, Clean, Settled;
      var last, k := None, 0;
      FlowHead(fs, bufs, taken, sent, held, [], inq);
      NoRounds(rounds);
      FitNone(bufs);
      while true
        invariant Valid() && All(fs, bufs, inq) && old(sent) <= sent
        invariant last != None ==> exists j :: Reply(turns(j)) == last
        invariant old(Fit(bufs, inq)) ==> next == old(next) && mine == old(mine) && Fit(bufs, inq)
        invariant last != Error && last != Done && RoundsTold()
        invariant if last == None
                  then rounds == old(rounds) && inq == old(inq) && free == old(free) && bufs == old(bufs)
                  else |old(rounds)| < |rounds| &&
                       rounds[|old(rounds)|] == Round(old(Items(bufs, inq)), old(Slots(bufs, free)))
        invariant old(Clean()) ==> Clean() && flagsKept == old(flagsKept)
        invariant old(Exact(turns)) ==> Exact(turns) && (Foretold() <==> old(Foretold())) && Ending() == old(Ending())
        invariant Drains(turns) && old(Settled()) ==> Settled()
        decreases Weight(), if last == None then 1 else 0
      {
        ghost var before := rounds;
        var stop;
        stop, last := Around(last, turns(k));
        MoreRounds(old(rounds), before, rounds);
        if stop {
          return last;
        }
        k := k + 1;
      }
    }

    lemma FitNone(h: Heap)
      ensures forall h': Heap :: Fit(h', [])
    {
    }

    lemma NoRounds(rounds: seq<Round>)
      ensures rounds[|rounds|..] == [] && AllOrderly(rounds[|rounds|..])
    {
    }

    lemma MoreRounds(first: seq<Round>, before: seq<Round>, rounds: seq<Round>)
      requires first <= before && before <= rounds
      ensures first <= rounds
      ensures AllOrderly(rounds[|first|..]) <==> AllOrderly(before[|first|..]) && AllOrderly(rounds[|before|..])
    {
      hide Orderly;
      assert rounds[|first|..] == before[|first|..] + rounds[|before|..];
      if AllOrderly(rounds[|first|..]) {
        forall i | 0 <= i < |rounds[|before|..]|
          ensures Orderly(rounds[|before|..][i].items, rounds[|before|..][i].free)
        {
          assert rounds[|before|..][i] == rounds[|first|..][|before| - |first| + i];
        }
      }
    }

    /** Once around the main loop. */
    method Around(last: Status, turn: Turn) returns (stop: bool, rc: Status)
      requires Valid() && last != Error && last != Done
      modifies this`bufs, this`inq, this`buf, this`next, this`mine, this`inUse, this`free, this`directio, this`held,
               this`sent, this`busy
      modifies this`flagsKept, this`rounds
      ensures inUse <= num && old(sent) <= sent && rc != None && (!stop ==> rc != Error && rc != Done)
      ensures rounds == old(rounds) + [Round(old(Items(bufs, inq)), old(Slots(bufs, free)))]
      ensures rc != Error && rc != Done ==>
                && Valid() && All(fs, bufs, inq) && old(All(fs, bufs, inq))
                && RoundsTold() && (old(Clean()) ==> Clean() && flagsKept == old(flagsKept))
                && (turn.all && old(Settled()) ==> Settled())
                && (num <= 1 || (turn.all && old(Settled())) ==> FlagsTracked())
      ensures stop && rc != Error && rc != Done ==> Stuck() && (rc == Ok ==> inq == [])
      ensures !stop ==> Weight() < old(Weight()) || (Weight() == old(Weight()) && last == None)
      ensures (!stop ==> rc == Reply(turn)) && (stop && rc == Done ==> Reply(turn) == Done)
      ensures stop && rc == Error ==> faulty || Reply(turn) == Error
      ensures stop && rc != Error && rc != Done ==> last != None && rc == if inq != [] then Again else last
      ensures old(Fit(bufs, inq)) && rc != Error && rc != Done ==> inq == [] && next == old(next) && mine == old(mine)
    {
      hide Fit, Flows, Placed, Reusable, Stream, Healthy, Sound, Once, All, Size, Passes,
          CleanIn, Items, SlotOf, Ordinary, Careful, AfterAll, Slots, Orderly;
      FlowHead(fs, bufs, taken, sent, held, [], inq);
      var ok, out := FillRound();
      if !ok {
        return true, Error;
      }
      OneRound(old(rounds), rounds[|old(rounds)|]);
      FlowHead(fs, bufs, taken, sent, held, out, inq);
      if out == [] && last != None {
        return true, if inq != [] then Again else last;
      }
      rc := Give(out, turn);
      stop := rc == Error || rc == Done;
    }

    lemma OneRound(before: seq<Round>, r: Round)
      ensures AllOrderly((before + [r])[|before|..]) <==> Orderly(r.items, r.free)
    {
      hide Orderly;
      assert (before + [r])[|before|..] == [r];
      assert [r][0] == r;
    }

    /** The filter is given what is ready, and what it has sent comes back. */
    method Give(out: seq<int>, turn: Turn) returns (rc: Status)
      requires Inv(out, out) && buf == NULL
      modifies this`bufs, this`held, this`sent, this`busy, this`free
      ensures rc != None && old(sent) <= sent && rc == Reply(turn)
      ensures rc != Error && rc != Done ==>
                Valid() && All(fs, bufs, inq) && old(All(fs, bufs, inq)) && Weight() == old(Weight())
      ensures rc != Error && rc != Done && old(Clean()) ==> Clean()
      ensures rc != Error && rc != Done && old(Ordinary(bufs, inq)) ==> Ordinary(bufs, inq)
      ensures rc != Error && rc != Done && turn.all && old(Settled()) ==> Settled()
      ensures rc != Error && rc != Done && (num <= 1 || (turn.all && old(Settled()))) ==> FlagsTracked()
    {
      hide Fit, Flows, Placed, Reusable, Stream, Healthy, Sound, Once, All, Size, Passes, CleanIn, Items, SlotOf,
          Ordinary, Careful, AfterAll;
      FlowHead(fs, bufs, taken, sent, held, out, inq);
      FreeNotOut(bufs, tag, mine, free, busy, out, buf);
      OutIsKnown(fs, bufs, taken, sent, held, out, inq);
      rc := Filter(out, out, turn);
      if rc != Error && rc != Done {
        ghost var n := UpdateChains(out);
      }
    }

    /** One more buffer, all of which is sent at once. */
    method Pass(b: Buf, turns: nat -> Turn)
      requires Valid() && Settled() && Lone() && inq == [] && num > 0 && !faulty && Drains(turns) && Succeeds(turns)
      requires Sound(fs, b) && b.tag != tag && (b.file == NULL || !directioFile(b.file))
      modifies this
      ensures Valid() && Settled() && Lone() && inq == [] && sent == taken == old(taken) + Bytes(fs, b)
      ensures flagsKept <==> old(flagsKept) && Careful([View(b)], old(SlotOf(bufs, mine)), size, num)
      ensures SlotOf(bufs, mine) == After(View(b), old(SlotOf(bufs, mine)), size, num)
    {
      hide Fit, Flows, Placed, Reusable, Stream, Healthy, Sound, Once, All, Size, Passes, CleanIn, SlotOf, Careful,
          AfterAll, After, View;
      NothingAcceptable();
      var x := Receive(b, []);
      assert [] + [x] == [x];
      StreamOne(fs, bufs, x);
      OneItem(bufs, x, SlotOf(bufs, mine));
      var rc := Output([x], turns);
      NoItem(bufs, SlotOf(bufs, mine));
      AllSent(fs, bufs, taken, sent, held, inq);
    }

    ghost function Views(bs: seq<Buf>): seq<Item> { seq(|bs|, i requires 0 <= i < |bs| => View(bs[i])) }

    ghost predicate Passable(bs: seq<Buf>) {
      forall b :: b in bs ==> Sound(fs, b) && b.tag != tag && (b.file == NULL || !directioFile(b.file))
    }

    /** One call after the other: each is foretold from the copy buffer that the last one
        left, and all of them together from the one there was at first. */
    method PassAll(bs: seq<Buf>, turns: nat -> Turn)
      requires Valid() && Settled() && Lone() && inq == [] && num > 0 && !faulty && Drains(turns) && Succeeds(turns)
      requires Passable(bs) && sent == taken
      modifies this
      ensures Valid() && Settled() && Lone() && inq == [] && sent == taken == old(taken) + Joined(fs, bs)
      ensures flagsKept <==> old(flagsKept) && Careful(Views(bs), old(SlotOf(bufs, mine)), size, num)
      ensures SlotOf(bufs, mine) == AfterAll(Views(bs), old(SlotOf(bufs, mine)), size, num)
    {
      hide Flows, Placed, Reusable, Stream, Healthy, Sound, Once, All, Size, Passes, CleanIn, SlotOf, Careful,
          AfterAll, After, View, Views, Joined, Inv, Lone, Settled, Passable, Ordinary, Drains, Succeeds;
      var i := 0;
      NoViews(SlotOf(bufs, mine));
      assert bs[..0] == [];
      while i < |bs|
        invariant 0 <= i <= |bs| && Valid() && Settled() && Lone() && inq == []
        invariant sent == taken == old(taken) + Joined(fs, bs[..i])
        invariant flagsKept <==> old(flagsKept) && Careful(Views(bs[..i]), old(SlotOf(bufs, mine)), size, num)
        invariant SlotOf(bufs, mine) == AfterAll(Views(bs[..i]), old(SlotOf(bufs, mine)), size, num)
      {
        MoreViews(bs, i, old(SlotOf(bufs, mine)));
        Pass(bs[i], turns);
        i := i + 1;
      }
      assert bs[..i] == bs;
    }

    lemma NoViews(s: Slot)
      ensures Careful(Views([]), s, size, num) && AfterAll(Views([]), s, size, num) == s && Joined(fs, []) == []
    {
    }

    lemma TwoViews(a: Buf, b: Buf)
      requires Sound(fs, a) && Sound(fs, b)
      ensures Views([a, b]) == [View(a), View(b)] && Joined(fs, [a, b]) == Bytes(fs, a) + Bytes(fs, b)
    {
      hide View, Sound, Bytes;
      assert [a, b][..1] == [a] && [a][..0] == [];
      assert Joined(fs, [a]) == Joined(fs, []) + Bytes(fs, a) == Bytes(fs, a);
    }

    lemma MoreViews(bs: seq<Buf>, i: nat, s: Slot)
      requires i < |bs| && Passable(bs)
      ensures Sound(fs, bs[i]) && bs[i].tag != tag && (bs[i].file == NULL || !directioFile(bs[i].file))
      ensures Joined(fs, bs[..i + 1]) == Joined(fs, bs[..i]) + Bytes(fs, bs[i])
      ensures var s' := AfterAll(Views(bs[..i]), s, size, num);
              && (Careful(Views(bs[..i + 1]), s, size, num) <==>
                    Careful(Views(bs[..i]), s, size, num) && Careful([View(bs[i])], s', size, num))
              && AfterAll(Views(bs[..i + 1]), s, size, num) == After(View(bs[i]), s', size, num)
    {
      hide View, Careful, After, Sound, Bytes;
      assert bs[i] in bs;
      assert bs[..i + 1][..i] == bs[..i] && bs[..i + 1][i] == bs[i];
      assert Views(bs[..i + 1]) == Views(bs[..i]) + [View(bs[i])];
      CarefulConcat(Views(bs[..i]), [View(bs[i])], s, size, num);
      assert [View(bs[i])][1..] == [];
    }

    lemma NothingAcceptable()
      requires Valid()
      ensures Acceptable([])
    {
      hide Sound, Stream;
      assert inq + [] == inq;
    }

    lemma OneItem(h: Heap, x: int, s: Slot)
      requires x in h
      ensures Items(h, [x]) == [View(h[x])] && AfterAll(Items(h, [x]), s, size, num) == After(View(h[x]), s, size, num)
    {
      hide View;
      assert [View(h[x])][1..] == [];
    }

    lemma NoItem(h: Heap, s: Slot)
      ensures Careful(Items(h, []), s, size, num) && AfterAll(Items(h, []), s, size, num) == s
    {
    }

    lemma ViewOf(b: Buf)
      requires needInTemp && b.memory && !needInMemory
      ensures View(b).copied && View(b).size == Size(b) && View(b).flagged == Flagged(b)
    {
    }

    method TestGiven(given: seq<int>) returns (yes: bool)
      requires Valid() && Acceptable(given) && given != []
      modifies this`bufs
      ensures Valid() && Acceptable(given) && Stream(fs, bufs, given) == old(Stream(fs, bufs, given))
      ensures given[0] in bufs && (yes <==> Passes(bufs[given[0]])) && (yes <==> Sendable(bufs[given[0]]))
      ensures old(Sendable(bufs[given[0]])) ==> yes
      ensures (old(Clean()) ==> Clean()) && (old(Unflagged(given)) ==> Unflagged(given))
      ensures old(Lone() && Ordinary(bufs, given)) ==> Lone() && Ordinary(bufs, given)
      ensures old(Ordinary(bufs, inq) && Ordinary(bufs, given)) ==> Ordinary(bufs, inq) && Ordinary(bufs, given)
      ensures Items(bufs, inq + given) == old(Items(bufs, inq + given)) && Slots(bufs, free) == old(Slots(bufs, free))
      ensures ForetoldWith(given) == old(ForetoldWith(given)) && EndingWith(given) == old(EndingWith(given))
    {
      hide Fit, Sendable, Flows, Placed, Reusable, Stream, Healthy, Sound, Once, CleanIn, Items, SlotOf, Ordinary,
          Careful, AfterAll;
      hide Bytes, Passes, View, Alike, Size, Special, InMemory, Flagged;
      ghost var x, h := given[0], bufs;
      assert x in given;
      HealthyAt(fs, h, next, x);
      OnceElsewhere(inq, given, held);
      yes := AsIs(given[0]);
      NoFileBytes(fs, h[x], bufs[x]);
      StreamSame(fs, h, given, x, bufs[x]);
      FlowElsewhere(fs, h, taken, sent, held, [], inq, x, bufs[x]);
      CopyHealthy(fs, h, next, x, bufs[x], x, bufs[x]);
      assert h[x := bufs[x]][x := bufs[x]] == bufs;
      MineIsTagged(h, tag, mine, free, busy, [], buf, x);
      PlaceSame(h, tag, mine, free, busy, [], held, inq, x, bufs[x]);
      FitsStill(h, held, [], x, bufs[x]);
      TestedAlike(h, bufs, inq + given, x);
      TestedAlike(h, bufs, inq, x);
      TestedAlike(h, bufs, given, x);
      AlikeFlags(h, bufs, mine, buf, inq + given);
      SlotsAlike(h, bufs, inq, free);
      AlikeFlags(h, bufs, mine, buf, inq);
      AlikeFlags(h, bufs, {}, NULL, given);
      UnflaggedIs(h, given);
      UnflaggedIs(bufs, given);
    }
  }

  /** The bytes of buffers in a row. */
  ghost function Joined(fs: Contents, bs: seq<Buf>): seq<Byte> {
    if bs == [] then []
    else
      var b := bs[|bs| - 1];
      Joined(fs, bs[..|bs| - 1]) + if Sound(fs, b) then Bytes(fs, b) else []
  }

  /** With every pair of buffers such that the first is copied with flags and the second
      is longer than the copy buffer: a filter that sends everything at once gets every
      byte, and a part of the second buffer with the flags of the first. */
  method Misflag(fs: Contents, sendfile: bool, num: nat, size: nat, one: Buf, two: Buf) returns (c: OutputChain)
    requires num > 0 && size > 0 && Sound(fs, one) && Sound(fs, two) && one.tag != 1 && two.tag != 1
    requires one.memory && Flagged(one) && Size(one) > 0 && two.memory && Size(two) > size + size / 4
    ensures fresh(c) && !c.flagsKept && c.sent == Bytes(fs, one) + Bytes(fs, two)
  {
    hide Careful, AfterAll, After, Sound, Bytes, Flagged, Size, Flows, Placed, Reusable, Healthy;
    hide OutputChain.SlotOf, OutputChain.CleanIn, OutputChain.Items, OutputChain.Ordinary, OutputChain.Passes,
        OutputChain.View;
    c := new OutputChain(fs, x => false, sendfile, false, true, 1, num, size, 1, false);
    var turns := (k: nat) => Turn(Ok, true, 0);
    c.ViewOf(one);
    c.ViewOf(two);
    FlaggedThenLong(c.View(one), c.View(two), size, num);
    c.PassAll([one, two], turns);
    c.TwoViews(one, two);
  }

  lemma MineSomewhere(h: Heap, tag: int, mine: set<int>, free: seq<int>, busy: seq<int>, out: seq<int>, buf: int)
    requires Placed(h, tag, mine, free, busy, out, buf)
    ensures forall x :: x in mine ==> x in h && (x in free || x in busy || x in out || x == buf)
  {
    forall x | x in mine ensures x in free || x in busy || x in out || x == buf {
      assert multiset(free)[x] + multiset(busy)[x] + multiset(out)[x] + (if buf == x then 1 else 0) == 1;
    }
  }

  /** Where nothing is free and nothing is out, no buffer has been made. */
  lemma NoneMade(h: Heap, tag: int, mine: set<int>, free: seq<int>, busy: seq<int>)
    requires Placed(h, tag, mine, free, busy, [], NULL) && NULL !in h && free == [] && (busy == [] || mine == {})
    ensures mine == {}
  {
    MineSomewhere(h, tag, mine, free, busy, [], NULL);
    assert forall x :: x !in mine;
  }

  lemma ReceivedPlaces(fs: Contents, h: Heap, next: int, tag: int, mine: set<int>, free: seq<int>, busy: seq<int>,
                       held: seq<int>,
                       inq: seq<int>, b: Buf)
    requires Placed(h, tag, mine, free, busy, [], NULL) && Reusable(h, mine, free, NULL, held, [], inq)
    requires Healthy(fs, h, next) && 0 <= next && Sound(fs, b) && b.tag != tag
    ensures Placed(h[next := b], tag, mine, free, busy, [], NULL)
              && Reusable(h[next := b], mine, free, NULL, held, [], inq)
    ensures Healthy(fs, h[next := b], next + 1) && next !in h && next !in mine
  {
    hide Sound, Blank, Size;
  }

  lemma MadeHealthy(fs: Contents, h: Heap, next: int, b: Buf)
    requires Healthy(fs, h, next) && 0 <= next && b.pos == b.last == b.filePos == b.fileLast == 0 && !b.inFile
    ensures Healthy(fs, h[next := b], next + 1) && next !in h && NULL !in h
  {
  }

  lemma OnceReceived(inq: seq<int>, given: seq<int>, held: seq<int>, x: int)
    requires Once(multiset(inq + given) + multiset([]) + multiset(held)) && x !in inq && x !in given && x !in held
    ensures Once(multiset(inq + (given + [x])) + multiset([]) + multiset(held))
  {
    assert inq + (given + [x]) == (inq + given) + [x];
    assert multiset(inq + (given + [x])) == multiset(inq + given) + multiset{x};
    assert x !in inq + given && multiset(inq + given)[x] == 0;
    var all := multiset(inq + given) + multiset([]) + multiset(held);
    forall y ensures (multiset(inq + (given + [x])) + multiset([]) + multiset(held))[y] <= 1 {
      assert all[y] <= 1;
    }
  }

  lemma OutIsKnown(fs: Contents, h: Heap, taken: seq<Byte>, sent: seq<Byte>, held: seq<int>, out: seq<int>,
                   inq: seq<int>)
    requires Flows(fs, h, taken, sent, held, out, inq)
    ensures forall x :: x in out ==> x in h
  {
    hide Sound;
  }

  lemma OnceElsewhere(inq: seq<int>, given: seq<int>, held: seq<int>)
    requires Once(multiset(inq + given) + multiset([]) + multiset(held)) && given != []
    ensures given[0] !in inq && given[0] !in held
  {
    var x := given[0];
    assert multiset(inq + given) == multiset(inq) + multiset(given);
    assert x in given;
    var all := multiset(inq + given) + multiset([]) + multiset(held);
    assert all[x] == multiset(inq)[x] + multiset(given)[x] + multiset(held)[x];
  }

  lemma MineIsTagged(h: Heap, tag: int, mine: set<int>, free: seq<int>, busy: seq<int>, out: seq<int>, buf: int, x: int)
    requires Placed(h, tag, mine, free, busy, out, buf) && x in h && h[x].tag != tag
    ensures x !in mine
  {
  }

  lemma FlowTake(fs: Contents, h: Heap, taken: seq<Byte>, sent: seq<Byte>, held: seq<int>, inq: seq<int>,
                 given: seq<int>)
    requires Flows(fs, h, taken, sent, held, [], inq) && All(fs, h, given)
    requires Once(multiset(inq + given) + multiset([]) + multiset(held))
    ensures Flows(fs, h, taken + Stream(fs, h, given), sent, held, [], inq + given)
  {
    hide Sound, Bytes, Stream, Once, All;
    StreamConcat(fs, h, inq, given);
    EmptyStream(fs, h);
    Shift(sent + Stream(fs, h, held), [], Stream(fs, h, inq), [], Stream(fs, h, given));
  }

  lemma AddPlaces(fs: Contents, h: Heap, tag: int, mine: set<int>, free: seq<int>, busy: seq<int>, held: seq<int>,
                  inq: seq<int>, given: seq<int>)
    requires Placed(h, tag, mine, free, busy, [], NULL) && Reusable(h, mine, free, NULL, held, [], inq)
    requires All(fs, h, given) && forall x :: x in given ==> h[x].tag != tag
    ensures Reusable(h, mine, free, NULL, held, [], inq + given)
  {
    hide Sound, Size, Blank;
    MembersOf(inq, given);
  }

  lemma DirectPlaces(h: Heap, tag: int, mine: set<int>, free: seq<int>, busy: seq<int>, held: seq<int>, given: seq<int>)
    requires Placed(h, tag, mine, free, busy, [], NULL) && Reusable(h, mine, free, NULL, held, [], given)
    ensures Reusable(h, mine, free, NULL, held, given, []) && forall x :: x in free ==> x !in given
  {
    hide Size, Blank;
  }

  /** Both are the same kind of thing for a filter. */
  predicate Kindred(b: Buf, b': Buf) {
    && b'.temporary == b.temporary && b'.memory == b.memory && b'.mmap == b.mmap && b'.inFile == b.inFile
    && b'.file == b.file && b'.flush == b.flush && b'.lastBuf == b.lastBuf && b'.sync == b.sync
  }

  /** Buffers the filter has changed: those it was given, and only their positions;
      it has let go of those it has sent to the end. */
  ghost predicate SentOf(h: Heap, h': Heap, all: seq<int>, held: seq<int>) {
    && h'.Keys == h.Keys
    && (forall y :: y in h ==> h'[y].tag == h[y].tag && h'[y].data == h[y].data && Kindred(h[y], h'[y]))
    && (forall y :: y in h ==> Flagged(h'[y]) == Flagged(h[y]) && h'[y].file == h[y].file)
    && (forall y :: y in all && y !in held ==> y in h && Size(h'[y]) == 0)
    && (forall y :: y in h && y !in all ==> h'[y] == h[y])
    && (forall y :: y in held ==> y in all && y in h && (Size(h[y]) > 0 ==> Size(h'[y]) > 0))
  }

  lemma StartSent(fs: Contents, h: Heap, all: seq<int>)
    requires All(fs, h, all)
    ensures SentOf(h, h, all, all)
  {
    hide Sound, Size, Flagged;
  }

  lemma SentMore(h: Heap, h': Heap, all: seq<int>, held: seq<int>, k: nat)
    requires SentOf(h, h', all, held) && held != [] && held[0] in h' && 0 <= k <= Size(h'[held[0]])
               && held[0] !in held[1..]
    requires Size(Advanced(h'[held[0]], k)) == Size(h'[held[0]]) - k
    ensures SentOf(h, h'[held[0] := Advanced(h'[held[0]], k)], all, if k == Size(h'[held[0]]) then held[1..] else held)
  {
    var x := held[0];
    var b := Advanced(h'[x], k);
    AdvancedSize(h'[x], k);
    assert Kindred(h[x], h'[x]);
    KindredTwice(h[x], h'[x], b);
    hide Size, Advanced, Flagged, Kindred;
    assert x in held && forall y :: y in held <==> y == x || y in held[1..];
  }

  lemma KindredTwice(a: Buf, b: Buf, c: Buf)
    requires Kindred(a, b) && Kindred(b, c)
    ensures Kindred(a, c)
  {
  }

  lemma AdvancedSize(b: Buf, k: nat)
    ensures var b' := Advanced(b, k);
            b'.tag == b.tag && Kindred(b, b') && b'.data == b.data && (0 <= k < Size(b) ==> Size(b') > 0)
            && Flagged(b') == Flagged(b) && b'.file == b.file
  {
  }

  lemma HeldHead(fs: Contents, h: Heap, taken: seq<Byte>, sent: seq<Byte>, held: seq<int>, inq: seq<int>)
    requires Flows(fs, h, taken, sent, held, [], inq) && held != []
    ensures held[0] in h && Sound(fs, h[held[0]]) && All(fs, h, inq)
    ensures held[0] !in inq && held[0] !in held[1..]
  {
    hide Sound, Stream, Once;
    SendOnce(held, inq);
  }

  lemma MembersOf(a: seq<int>, b: seq<int>)
    ensures forall x :: x in a + b <==> x in a || x in b
  {
  }

  lemma MineIsTemporary(h: Heap, tag: int, mine: set<int>, free: seq<int>, busy: seq<int>, out: seq<int>, buf: int,
                        x: int)
    requires Placed(h, tag, mine, free, busy, out, buf) && x in h && h[x].tag == tag
    ensures Ours(h[x])
  {
  }

  lemma EmptiedIsSound(fs: Contents, b: Buf)
    requires Sound(fs, b) && Size(b) == 0 && b.temporary
    ensures Sound(fs, b.(pos := 0, last := 0))
  {
    if b.inFile {
      assert |fs(b.file)[b.filePos..b.fileLast]| == b.fileLast - b.filePos;
    }
  }

  lemma SizePositive(fs: Contents, b: Buf)
    requires Sound(fs, b)
    ensures Size(b) >= 0
  {
  }

  lemma BufIsBlank(h: Heap, mine: set<int>, free: seq<int>, buf: int, held: seq<int>, ready: seq<int>, inq: seq<int>)
    requires Reusable(h, mine, free, buf, held, ready, inq) && buf != NULL && inq != []
    ensures buf in h && Blank(h[buf]) && buf !in held && buf !in ready && buf !in inq && buf != inq[0]
  {
    var x := inq[0];
    assert x in inq;
  }

  lemma HealthyAt(fs: Contents, h: Heap, next: int, x: int)
    requires Healthy(fs, h, next) && x in h
    ensures Sound(fs, h[x]) && 0 <= x < next && NULL !in h
  {
  }

  lemma CopyHealthy(fs: Contents, h: Heap, next: int, d: int, b: Buf, x: int, a: Buf)
    requires Healthy(fs, h, next) && d in h && x in h && Sound(fs, b) && Sound(fs, a)
    ensures Healthy(fs, h[d := b][x := a], next)
  {
    hide Sound;
  }

  /** The fields of the copy buffer after the bytes are in. */
  function Put(dst: Buf, chunk: seq<Byte>, file: bool, src: Buf, last: bool): Buf
    requires dst.pos + |chunk| <= |dst.data|
  {
    Buf(dst.data[..dst.pos] + chunk + dst.data[dst.pos + |chunk|..], dst.pos, dst.last + |chunk|,
        if file then src.file else dst.file, if file then src.filePos else dst.filePos,
        if file then src.filePos + |chunk| else dst.fileLast,
        dst.tag, dst.temporary, dst.memory, dst.mmap, file,
        if last then src.flush else dst.flush, dst.sync, if last then src.lastBuf else dst.lastBuf,
        if last then src.lastInChain else dst.lastInChain, dst.recycled)
  }

  lemma FilledIs(fs: Contents, dst: Buf, src: Buf, n: nat, send: bool, chunk: seq<Byte>)
    requires Sound(fs, src) && n <= Size(src) && Blank(dst) && n <= |dst.data| && chunk == Bytes(fs, src)[..n]
    ensures |chunk| == n && Put(dst, chunk, src.inFile && send, src, n == Size(src)) == Filled(fs, dst, src, n, send)
  {
    assert dst.data[..0] + chunk + dst.data[n..] == chunk + dst.data[n..];
  }

  lemma NotInMemory(fs: Contents, src: Buf, n: nat)
    requires Sound(fs, src) && !InMemory(src) && n <= Size(src)
    ensures src.inFile ==>
              src.filePos + n <= |fs(src.file)| && fs(src.file)[src.filePos..src.filePos + n] == Bytes(fs, src)[..n]
    ensures !src.inFile ==> n == 0 && Bytes(fs, src)[..n] == []
  {
    if src.inFile {
      ChunkInFile(fs, src, n);
    }
  }

  lemma NewIsElsewhere(fs: Contents, h: Heap, next: int, l: seq<int>)
    requires Healthy(fs, h, next) && All(fs, h, l)
    ensures next !in l
  {
    hide Sound;
  }

  lemma FreshMine(h: Heap, tag: int, mine: set<int>, free: seq<int>, busy: seq<int>, out: seq<int>, x: int)
    requires Placed(h, tag, mine, free, busy, out, NULL) && x !in h
    ensures x !in mine
  {
  }

  lemma FreeIsKnown(h: Heap, mine: set<int>, free: seq<int>, buf: int, held: seq<int>, ready: seq<int>, inq: seq<int>)
    requires Reusable(h, mine, free, buf, held, ready, inq) && free != []
    ensures free[0] in h
  {
    var x := free[0];
    assert x in free;
  }

  lemma FreeIsMine(h: Heap, tag: int, mine: set<int>, free: seq<int>, busy: seq<int>, out: seq<int>, buf: int)
    requires Placed(h, tag, mine, free, busy, out, buf) && free != []
    ensures free[0] in mine && free[0] in h
  {
    var x := free[0];
    assert x in free;
  }

  lemma FlowOnce(fs: Contents, h: Heap, taken: seq<Byte>, sent: seq<Byte>, held: seq<int>, ready: seq<int>,
                 inq: seq<int>)
    requires Flows(fs, h, taken, sent, held, ready, inq) && inq != []
    ensures inq[0] !in inq[1..] && inq[0] !in held && inq[0] !in ready
  {
    hide Sound, Once;
    OnceParts(h, held, ready, inq);
  }

  lemma AllSent(fs: Contents, h: Heap, taken: seq<Byte>, sent: seq<Byte>, held: seq<int>, inq: seq<int>)
    requires Flows(fs, h, taken, sent, held, [], inq) && held == [] && inq == []
    ensures sent == taken
  {
  }

  lemma FlowApart(fs: Contents, h: Heap, taken: seq<Byte>, sent: seq<Byte>, held: seq<int>, inq: seq<int>)
    requires Flows(fs, h, taken, sent, held, [], inq)
    ensures forall x :: x in inq ==> x !in held
  {
    hide Sound, Stream, All;
    forall x | x in inq ensures x !in held {
      var all := multiset(inq) + multiset([]) + multiset(held);
      assert all[x] == multiset(inq)[x] + multiset(held)[x] <= 1;
      assert multiset(inq)[x] >= 1;
    }
  }

  lemma FlowHead(fs: Contents, h: Heap, taken: seq<Byte>, sent: seq<Byte>, held: seq<int>, ready: seq<int>,
                 inq: seq<int>)
    requires Flows(fs, h, taken, sent, held, ready, inq)
    ensures All(fs, h, inq) && All(fs, h, ready) && All(fs, h, held)
    ensures inq != [] ==> inq[0] in h && Sound(fs, h[inq[0]])
  {
  }

  lemma NoFileBytes(fs: Contents, b: Buf, b': Buf)
    requires Sound(fs, b) && (b' == b || (InMemory(b) && b' == b.(inFile := false)))
    ensures Sound(fs, b') && Bytes(fs, b') == Bytes(fs, b) && Size(b') == Size(b) && b'.tag == b.tag
              && (Special(b') ==> b' == b)
  {
  }

  lemma NotMine(h: Heap, mine: set<int>, free: seq<int>, buf: int, held: seq<int>, ready: seq<int>, inq: seq<int>)
    requires Reusable(h, mine, free, buf, held, ready, inq) && inq != []
    ensures inq[0] !in mine
  {
    var x := inq[0];
    assert x in inq;
  }

  lemma StreamSame(fs: Contents, h: Heap, inq: seq<int>, x: int, b: Buf)
    requires All(fs, h, inq) && x in h && Sound(fs, h[x]) && Sound(fs, b) && Bytes(fs, b) == Bytes(fs, h[x])
    ensures All(fs, h[x := b], inq) && Stream(fs, h[x := b], inq) == Stream(fs, h, inq)
  {
    hide Sound, Bytes;
    StreamFrame(fs, h, h[x := b], inq);
  }
}
