/**
 Buffers and the byte streams that chains of them stand for (src/core/ngx_buf.h).

 A buffer's memory from `start` to `end` is the sequence `data`; `pos` and `last`
 are offsets into it.  A buffer can also, or instead, name a part of a file.
 */
module Bufs {

  type Byte = int
  type Contents = int -> seq<Byte>

  const NULL: int := -1

  datatype Buf = Buf(data: seq<Byte>, pos: nat, last: nat, file: int, filePos: nat, fileLast: nat, tag: int,
                     temporary: bool, memory: bool, mmap: bool, inFile: bool, flush: bool, sync: bool,
                     lastBuf: bool, lastInChain: bool, recycled: bool)

  type Heap = map<int, Buf>

  predicate InMemory(b: Buf) { b.temporary || b.memory || b.mmap }

  predicate Special(b: Buf) { (b.flush || b.lastBuf || b.sync) && !InMemory(b) && !b.inFile }

  /** The offsets make sense, and memory and file agree where a buffer has both. */
  predicate Sound(fs: Contents, b: Buf) {
    && b.pos <= b.last <= |b.data|
    && b.filePos <= b.fileLast
    && (b.inFile ==> b.fileLast <= |fs(b.file)|)
    && (!InMemory(b) && !b.inFile ==> b.filePos == b.fileLast)
    && (InMemory(b) && b.inFile ==> b.data[b.pos..b.last] == fs(b.file)[b.filePos..b.fileLast])
  }

  function Size(b: Buf): int { if InMemory(b) then b.last - b.pos else b.fileLast - b.filePos }

  function Bytes(fs: Contents, b: Buf): (r: seq<Byte>)
    requires Sound(fs, b)
    ensures |r| == Size(b)
  {
    if InMemory(b) then b.data[b.pos..b.last] else if b.inFile then fs(b.file)[b.filePos..b.fileLast] else []
  }

  /** n bytes are taken from the front. */
  function Advanced(b: Buf, n: nat): Buf {
    b.(pos := if InMemory(b) then b.pos + n else b.pos, filePos := if b.inFile then b.filePos + n else b.filePos)
  }

  lemma AdvancedBytes(fs: Contents, b: Buf, n: nat)
    requires Sound(fs, b) && n <= Size(b)
    ensures Sound(fs, Advanced(b, n)) && Bytes(fs, b) == Bytes(fs, b)[..n] + Bytes(fs, Advanced(b, n))
    ensures Size(Advanced(b, n)) == Size(b) - n && Advanced(b, n).tag == b.tag
  {
    if InMemory(b) && b.inFile {
      assert b.data[b.pos + n..b.last] == b.data[b.pos..b.last][n..] == fs(b.file)[b.filePos..b.fileLast][n..];
    }
  }

  // ------------------------------------------------------------------ chains

  ghost predicate All(fs: Contents, h: Heap, l: seq<int>) {
    forall i :: 0 <= i < |l| ==> l[i] in h && Sound(fs, h[l[i]])
  }

  /** The bytes of a chain, in order. */
  ghost function Stream(fs: Contents, h: Heap, l: seq<int>): seq<Byte>
    requires All(fs, h, l)
  {
    if l == [] then [] else Bytes(fs, h[l[0]]) + Stream(fs, h, l[1..])
  }

  lemma {:induction false} StreamConcat(fs: Contents, h: Heap, a: seq<int>, b: seq<int>)
    requires All(fs, h, a) && All(fs, h, b)
    ensures All(fs, h, a + b) && Stream(fs, h, a + b) == Stream(fs, h, a) + Stream(fs, h, b)
  {
    hide Sound, Bytes;
    if a == [] {
      assert a + b == b;
    } else {
      StreamConcat(fs, h, a[1..], b);
      assert (a + b)[0] == a[0] && (a + b)[1..] == a[1..] + b;
    }
  }

  lemma StreamOne(fs: Contents, h: Heap, x: int)
    requires x in h && Sound(fs, h[x])
    ensures All(fs, h, [x]) && Stream(fs, h, [x]) == Bytes(fs, h[x])
  {
    assert [x][1..] == [];
    assert Stream(fs, h, [x]) == Bytes(fs, h[x]) + Stream(fs, h, []);
  }

  /** A chain does not notice what happens to other buffers, nor a change that
      leaves the bytes as they were. */
  lemma {:induction false} StreamFrame(fs: Contents, h: Heap, h': Heap, l: seq<int>)
    requires All(fs, h, l)
    requires forall i :: 0 <= i < |l| ==> l[i] in h' && Sound(fs, h'[l[i]]) && Bytes(fs, h'[l[i]]) == Bytes(fs, h[l[i]])
    ensures All(fs, h', l) && Stream(fs, h', l) == Stream(fs, h, l)
  {
    hide Sound, Bytes;
    if l != [] {
      StreamFrame(fs, h, h', l[1..]);
    }
  }

  lemma StreamElsewhere(fs: Contents, h: Heap, l: seq<int>, x: int, b: Buf)
    requires All(fs, h, l) && x !in l
    ensures All(fs, h[x := b], l) && Stream(fs, h[x := b], l) == Stream(fs, h, l)
  {
    StreamFrame(fs, h, h[x := b], l);
  }
}
