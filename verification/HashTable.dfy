/**
 ngx_hash_init and ngx_hash_find of src/core/ngx_hash.c, for the exact table.
 */
module HashTable {
  import opened HashLayout

  /** A bucket holds its elements and ends with a NULL. */
  ghost predicate BucketAt(m: Memory, base: int, es: seq<Name>) {
    if base == NOWHERE then es == []
    else 0 <= base && base % PTR_SIZE == 0 && Placed(m, base, es) && ValueAt(m, base + Used(es), NULL)
  }

  ghost predicate Usable(names: seq<Name>) {
    forall j :: 0 <= j < |names| ==> names[j].value != NULL
  }

  /** Hashes are those of the lower-case keys. */
  ghost predicate Hashed(names: seq<Name>, h: seq<int> -> nat) {
    forall j :: 0 <= j < |names| && names[j].present ==> names[j].hash == h(Lower(names[j].key))
  }

  class HashTable {
    const size: nat
    const buckets: array<int>
    const mem: array<Cell>
    ghost const names: seq<Name>

    ghost predicate Valid()
      reads this, buckets, mem
    {
      && size > 0 && buckets.Length == size && Usable(names)
      && forall i :: 0 <= i < size ==> BucketAt(mem[..], buckets[i], Bucket(names, size, i))
    }

    constructor (size: nat, buckets: array<int>, mem: array<Cell>, ghost names: seq<Name>)
      ensures this.size == size && this.buckets == buckets && this.mem == mem && this.names == names
    {
      this.size, this.buckets, this.mem, this.names := size, buckets, mem, names;
    }

    /** ngx_hash_find: the value of the first name with these bytes. */
    method Find(key: nat, name: seq<int>, ghost h: seq<int> -> nat) returns (value: int)
      requires Valid() && Hashed(names, h) && key == h(name)
      ensures value == Lookup(names, name)
    {
      hide Placed, Used, Bucket, Lookup, EltSize;
      var elt := buckets[key % size];
      ghost var es := Bucket(names, size, key % size);
      BucketLookup(names, size, key % size, name);
      if elt == NOWHERE {
        LookupEmpty(name);
        return NULL;
      }
      ghost var base, j := elt, 0;
      UsedNothing(es);
      while true
        invariant 0 <= j <= |es| && elt == base + Used(es[..j]) && elt % PTR_SIZE == 0
        invariant Lookup(es, name) == Lookup(es[j..], name)
        decreases |es| - j
      {
        if j < |es| {
          PlacedAt(mem[..], base, es, j);
        } else {
          assert es[..j] == es;
        }
        ReadsValue(mem[..], elt, if j < |es| then es[j].value else NULL);
        if mem[elt].value == NULL {
          assert j == |es| && es[j..] == [];
          LookupEmpty(name);
          return NULL;
        }
        ghost var e := es[j];
        LookupFirst(es, j, name);
        var len := mem[elt + PTR_SIZE].len;
        var same := Matches(elt, name, e);
        if same {
          return mem[elt].value;
        }
        Stride(elt, e);
        EltSizeFacts(e);
        AddAligned(elt, EltSize(e));
        elt := Align(elt + PTR_SIZE + 2 + len, PTR_SIZE);
        j := j + 1;
      }
    }

    /** The comparison of one element. */
    method Matches(elt: int, name: seq<int>, ghost e: Name) returns (same: bool)
      requires 0 <= elt && EltAt(mem[..], elt, e)
      ensures same <==> Lower(e.key) == name
    {
      ghost var m := mem[..];
      assert m[elt + PTR_SIZE] == mem[elt + PTR_SIZE];
      var len := mem[elt + PTR_SIZE].len;
      if |name| != len {
        return false;
      }
      var i := 0;
      while i < |name|
        invariant 0 <= i <= |name| && forall j :: 0 <= j < i ==> Lower(e.key)[j] == name[j]
      {
        assert m[elt + PTR_SIZE + 2 + i] == Char(Lower(e.key)[i]);
        if name[i] != mem[elt + PTR_SIZE + 2 + i].c {
          return false;
        }
        i := i + 1;
      }
      return true;
    }
  }

  lemma LookupEmpty(name: seq<int>)
    ensures Lookup([], name) == NULL
  {
  }

  lemma UsedNothing(es: seq<Name>)
    ensures Used(es[..0]) == 0 && es[0..] == es
  {
  }

  lemma ReadsValue(m: Memory, a: nat, v: int)
    requires ValueAt(m, a, v)
    ensures a < |m| && m[a].Part? && m[a].value == v
  {
    assert m[a + 0] == Part(v, 0);
  }

  lemma LookupFirst(es: seq<Name>, j: nat, name: seq<int>)
    requires j < |es| && es[j].present
    ensures Lookup(es[j..], name) == if Lower(es[j].key) == name then es[j].value else Lookup(es[j + 1..], name)
  {
    assert es[j..][0] == es[j] && es[j..][1..] == es[j + 1..];
  }

  // -------------------------------------------------------- the number of buckets

  /** Every bucket of a table of this size is within the limit. */
  ghost predicate Fits(names: seq<Name>, size: nat, limit: nat)
    requires size > 0
  {
    forall i :: 0 <= i < size ==> Used(Bucket(names, size, i)) <= limit
  }

  /** Sums of sizes up to one element over the limit fit into an unsigned short. */
  ghost predicate NoWrap(names: seq<Name>, limit: nat) {
    limit < SHORT && forall n :: 0 <= n < |names| ==> limit + EltSize(names[n]) < SHORT
  }

  lemma BucketNext(names: seq<Name>, n: nat, size: nat, i: nat)
    requires n < |names| && size > 0
    ensures var here := names[n].present && names[n].hash % size == i;
            && Bucket(names[..n + 1], size, i) == Bucket(names[..n], size, i) + (if here then [names[n]] else [])
            && Used(Bucket(names[..n + 1], size, i)) == Used(Bucket(names[..n], size, i)) + if here
               then EltSize(names[n]) else 0
  {
    assert names[..n + 1][..n] == names[..n] && names[..n + 1][n] == names[n];
    var b := Bucket(names[..n], size, i);
    assert (b + [names[n]])[..|b|] == b;
    hide EltSize;
  }

  lemma {:induction false} UsedGrows(names: seq<Name>, n: nat, size: nat, i: nat)
    requires n <= |names| && size > 0
    ensures Used(Bucket(names[..n], size, i)) <= Used(Bucket(names, size, i))
    decreases |names| - n
  {
    hide Used, Bucket, EltSize;
    if n < |names| {
      BucketNext(names, n, size, i);
      UsedGrows(names, n + 1, size, i);
    } else {
      assert names[..n] == names;
    }
  }

  /** What the search goes by: sums kept in unsigned shorts stay within the limit. */
  ghost predicate Passes(names: seq<Name>, size: nat, limit: nat)
    requires size > 0
  {
    forall n :: 0 <= n < |names| && names[n].present ==> Sum16(names, n, size) <= limit % SHORT
  }

  /** The sum of the bucket that names[n] goes into, with it. */
  function Sum16(names: seq<Name>, n: nat, size: nat): nat
    requires n < |names| && size > 0
  {
    Used(Bucket(names[..n + 1], size, names[n].hash % size)) % SHORT
  }

  /** One turn of the search. */
  method Try(names: seq<Name>, size: nat, limit: nat, test: array<int>) returns (ok: bool)
    requires 0 < size <= test.Length
    modifies test
    ensures ok <==> Passes(names, size, limit)
  {
    hide Used, Bucket, EltSize;
    forall i | 0 <= i < size {
      test[i] := 0;
    }
    EmptyBuckets(names, size);
    var n := 0;
    while n < |names|
      invariant 0 <= n <= |names|
      invariant forall i :: 0 <= i < size ==> test[i] == Used(Bucket(names[..n], size, i)) % SHORT
      invariant forall k :: 0 <= k < n && names[k].present ==> Sum16(names, k, size) <= limit % SHORT
    {
      forall i | 0 <= i < size ensures var here := names[n].present && names[n].hash % size == i;
          Used(Bucket(names[..n + 1], size, i)) == Used(Bucket(names[..n], size, i)) + if here
              then EltSize(names[n]) else 0
      {
        BucketNext(names, n, size, i);
      }
      if names[n].present {
        var key := names[n].hash % size;
        AddWrapped(Used(Bucket(names[..n], size, key)), EltSize(names[n]));
        test[key] := (test[key] + EltSize(names[n])) % SHORT;
        assert test[key] == Sum16(names, n, size);
        if test[key] > limit % SHORT {
          return false;
        }
      }
      n := n + 1;
    }
    return true;
  }

  lemma AddWrapped(a: nat, b: nat)
    ensures (a % SHORT + b) % SHORT == (a + b) % SHORT
  {
  }

  /** The sums tell whether the names fit, as long as none can wrap. */
  lemma PassesIsFits(names: seq<Name>, size: nat, limit: nat)
    requires size > 0 && NoWrap(names, limit)
    ensures Passes(names, size, limit) <==> Fits(names, size, limit)
  {
    hide Used, Bucket, EltSize;
    if Fits(names, size, limit) {
      forall n | 0 <= n < |names| && names[n].present ensures Sum16(names, n, size) <= limit % SHORT {
        UsedGrows(names, n + 1, size, names[n].hash % size);
      }
    } else if Passes(names, size, limit) {
      var i :| 0 <= i < size && Used(Bucket(names, size, i)) > limit;
      assert names[..|names|] == names;
      PassesUpTo(names, |names|, size, limit, i);
    }
  }

  lemma {:induction false} PassesUpTo(names: seq<Name>, n: nat, size: nat, limit: nat, i: nat)
    requires n <= |names| && i < size && NoWrap(names, limit) && Passes(names, size, limit)
    ensures Used(Bucket(names[..n], size, i)) <= limit
  {
    hide Used, Bucket, EltSize;
    if n == 0 {
      EmptyBuckets(names, size);
    } else {
      PassesUpTo(names, n - 1, size, limit, i);
      BucketNext(names, n - 1, size, i);
      assert names[n - 1].present && names[n - 1].hash % size == i ==> Sum16(names, n - 1, size) <= limit % SHORT;
    }
  }

  lemma EmptyBuckets(names: seq<Name>, size: nat)
    requires size > 0
    ensures forall i :: 0 <= i < size ==> Bucket(names[..0], size, i) == [] && Used(Bucket(names[..0], size, i)) == 0
  {
  }

  ghost predicate NoneFits(names: seq<Name>, first: nat, last: nat, limit: nat)
    requires first > 0
  {
    forall s :: first <= s <= last ==> !Fits(names, s, limit)
  }

  /** The search for a number of buckets, which ends past maxSize if none will do. */
  method FindSize(names: seq<Name>, start: nat, maxSize: nat, limit: nat) returns (size: nat)
    requires start > 0
    ensures start <= size && (size <= maxSize ==> Passes(names, size, limit))
    ensures forall s :: start <= s <= maxSize && s < size ==> !Passes(names, s, limit)
    ensures NoWrap(names, limit) ==> NoneFits(names, start, if size <= maxSize then size - 1 else maxSize, limit)
    ensures NoWrap(names, limit) && size <= maxSize ==> Fits(names, size, limit)
  {
    hide Passes, Fits, NoWrap;
    var test := new int[maxSize];
    size := start;
    while size <= maxSize
      invariant start <= size && forall s :: start <= s <= maxSize && s < size ==> !Passes(names, s, limit)
    {
      var ok := Try(names, size, limit, test);
      if ok {
        break;
      }
      size := size + 1;
    }
    if NoWrap(names, limit) {
      forall s | start <= s <= maxSize && s <= size ensures Passes(names, s, limit) <==> Fits(names, s, limit) {
        PassesIsFits(names, s, limit);
      }
    }
  }

  // ------------------------------------------------------------------ the layout

  /** The room of a bucket, in whole cache lines; none for an empty one. */
  function Room(names: seq<Name>, size: nat, line: nat, i: nat): nat
    requires size > 0 && line > 0
  {
    if Bucket(names, size, i) == [] then 0 else Align(PTR_SIZE + Used(Bucket(names, size, i)), line)
  }

  /** Where a bucket begins. */
  function Start(names: seq<Name>, size: nat, line: nat, i: nat): nat
    requires size > 0 && line > 0
  {
    if i == 0 then 0 else Start(names, size, line, i - 1) + Room(names, size, line, i - 1)
  }

  lemma AlignFacts(d: nat, a: nat)
    requires a > 0
    ensures d <= Align(d, a) < d + a && Align(d, a) % a == 0
  {
    var q := (d + (a - 1)) / a;
    assert q * a <= d + (a - 1) < q * a + a;
    ModMultiple(q, a);
  }

  lemma ModMultiple(q: nat, a: nat)
    requires a > 0
    ensures q * a % a == 0
  {
    if q > 0 {
      ModMultiple(q - 1, a);
      assert q * a == (q - 1) * a + a;
      ModAdd((q - 1) * a, a);
    }
  }

  lemma ModAdd(x: nat, a: nat)
    requires a > 0
    ensures (x + a) % a == x % a
  {
    var q, r := x / a, x % a;
    var q', r' := (x + a) / a, (x + a) % a;
    assert x == q * a + r && x + a == q' * a + r';
    assert (q' - q - 1) * a == r - r';
    SmallMultiple(q' - q - 1, a);
  }

  lemma SmallMultiple(d: int, a: int)
    requires -a < d * a < a
    ensures d == 0
  {
  }

  /** Buckets do not overlap. */
  lemma {:induction false} StartsApart(names: seq<Name>, size: nat, line: nat, i: nat, j: nat)
    requires size > 0 && line > 0 && i < j
    ensures Start(names, size, line, i) + Room(names, size, line, i) <= Start(names, size, line, j)
    decreases j
  {
    hide Room;
    if i + 1 < j {
      StartsApart(names, size, line, i, j - 1);
    }
  }

  lemma {:induction false} StartAligned(names: seq<Name>, size: nat, line: nat, i: nat)
    requires size > 0 && line > 0 && line % PTR_SIZE == 0
    ensures Start(names, size, line, i) % PTR_SIZE == 0
  {
    hide Bucket, Used;
    if i > 0 {
      StartAligned(names, size, line, i - 1);
      RoomAligned(names, size, line, i - 1);
      AddAligned(Start(names, size, line, i - 1), Room(names, size, line, i - 1));
    }
  }

  lemma RoomAligned(names: seq<Name>, size: nat, line: nat, i: nat)
    requires size > 0 && line > 0 && line % PTR_SIZE == 0
    ensures Room(names, size, line, i) % PTR_SIZE == 0
  {
    hide Bucket, Used;
    if Bucket(names, size, i) != [] {
      var d := PTR_SIZE + Used(Bucket(names, size, i));
      var q := (d + (line - 1)) / line;
      assert q * line == q * (line / PTR_SIZE) * PTR_SIZE by {
        assert line == line / PTR_SIZE * PTR_SIZE;
      }
      ModMultiple(q * (line / PTR_SIZE), PTR_SIZE);
    }
  }

  /** A bucket has room for its elements and the NULL at the end. */
  lemma RoomEnough(names: seq<Name>, size: nat, line: nat, i: nat)
    requires size > 0 && line > 0
    ensures Bucket(names, size, i) != [] ==> Room(names, size, line, i) >= PTR_SIZE + Used(Bucket(names, size, i))
    ensures Bucket(names, size, i) == [] <==> Used(Bucket(names, size, i)) == 0
    ensures Bucket(names, size, i) == [] <==> Room(names, size, line, i) == 0
  {
    var es := Bucket(names, size, i);
    hide Bucket;
    if es != [] {
      AlignFacts(PTR_SIZE + Used(es), line);
      EltSizeFacts(es[|es| - 1]);
    }
  }

  /** Every room, in whole cache lines, fits into an unsigned short, too. */
  ghost predicate RoomsFit(names: seq<Name>, size: nat, line: nat)
    requires size > 0 && line > 0
  {
    forall i :: 0 <= i < size ==> Room(names, size, line, i) < SHORT
  }

  /** The sizes of the buckets, as the second pass over the names adds them up. */
  method Measure(names: seq<Name>, size: nat, ghost limit: nat, line: nat, test: array<int>)
    requires 0 < size <= test.Length && line > 0 && Fits(names, size, limit) && PTR_SIZE + limit < SHORT
    modifies test
    ensures forall i :: 0 <= i < size ==>
              test[i] == if Bucket(names, size, i) == [] then PTR_SIZE else Room(names, size, line, i) % SHORT
  {
    hide Used, Bucket, EltSize, Align, Room;
    AddUp(names, size, limit, test);
    var i := 0;
    while i < size
      invariant 0 <= i <= size
      invariant forall k :: 0 <= k < i ==>
                  test[k] == if Bucket(names, size, k) == [] then PTR_SIZE else Room(names, size, line, k) % SHORT
      invariant forall k :: i <= k < size ==> test[k] == PTR_SIZE + Used(Bucket(names, size, k))
    {
      RoomEnough(names, size, line, i);
      if test[i] != PTR_SIZE {
        RoomIs(names, size, line, i);
        test[i] := Align(test[i], line) % SHORT;
      }
      i := i + 1;
    }
  }

  method AddUp(names: seq<Name>, size: nat, ghost limit: nat, test: array<int>)
    requires 0 < size <= test.Length && Fits(names, size, limit) && PTR_SIZE + limit < SHORT
    modifies test
    ensures forall i :: 0 <= i < size ==> test[i] == PTR_SIZE + Used(Bucket(names, size, i))
  {
    hide Used, Bucket, EltSize, Align, Room;
    forall i | 0 <= i < size {
      test[i] := PTR_SIZE;
    }
    EmptyBuckets(names, size);
    var n := 0;
    while n < |names|
      invariant 0 <= n <= |names|
      invariant forall i :: 0 <= i < size ==> test[i] == PTR_SIZE + Used(Bucket(names[..n], size, i))
    {
      forall i | 0 <= i < size ensures var here := names[n].present && names[n].hash % size == i;
          && Used(Bucket(names[..n + 1], size, i)) ==
             Used(Bucket(names[..n], size, i)) + (if here then EltSize(names[n]) else 0)
          && Used(Bucket(names[..n + 1], size, i)) <= limit
      {
        BucketNext(names, n, size, i);
        UsedGrows(names, n + 1, size, i);
      }
      if names[n].present {
        var key := names[n].hash % size;
        test[key] := (test[key] + EltSize(names[n])) % SHORT;
      }
      n := n + 1;
    }
    assert names[..n] == names;
  }

  lemma RoomIs(names: seq<Name>, size: nat, line: nat, i: nat)
    requires size > 0 && line > 0 && Bucket(names, size, i) != []
    ensures Room(names, size, line, i) == Align(PTR_SIZE + Used(Bucket(names, size, i)), line)
  {
    hide Bucket, Used, Align;
  }

  /** Every bucket with elements gets its place. */
  method Assign(names: seq<Name>, size: nat, line: nat, test: array<int>, buckets: array<int>) returns (len: nat)
    requires 0 < size <= test.Length && buckets.Length == size && line > 0 && test != buckets
    requires forall i :: 0 <= i < size ==>
               test[i] == if Bucket(names, size, i) == [] then PTR_SIZE else Room(names, size, line, i)
    modifies buckets
    ensures len == Start(names, size, line, size)
    ensures forall i :: 0 <= i < size ==>
              buckets[i] == if Bucket(names, size, i) == [] then NOWHERE else Start(names, size, line, i)
  {
    hide Used, Bucket, Room, Start;
    forall i | 0 <= i < size {
      buckets[i] := NOWHERE;
    }
    len := 0;
    StartFirst(names, size, line);
    var i := 0;
    while i < size
      invariant 0 <= i <= size && len == Start(names, size, line, i)
      invariant forall k :: 0 <= k < i ==>
                  buckets[k] == if Bucket(names, size, k) == [] then NOWHERE else Start(names, size, line, k)
      invariant forall k :: i <= k < size ==> buckets[k] == NOWHERE
    {
      RoomEnough(names, size, line, i);
      RoomLarge(names, size, line, i);
      if test[i] != PTR_SIZE {
        buckets[i] := len;
        len := len + test[i];
      }
      i := i + 1;
    }
  }

  lemma RoomLarge(names: seq<Name>, size: nat, line: nat, i: nat)
    requires size > 0 && line > 0
    ensures Bucket(names, size, i) != [] ==> Room(names, size, line, i) > PTR_SIZE
    ensures Start(names, size, line, i + 1) == Start(names, size, line, i) + Room(names, size, line, i)
  {
    hide Room, Bucket;
    RoomEnough(names, size, line, i);
  }

  // ------------------------------------------------------------------- the filling

  /** One element is written: pointer, length and lower-case name. */
  method Write(mem: array<Cell>, a: nat, e: Name)
    requires a + EltSize(e) <= mem.Length
    modifies mem
    ensures EltAt(mem[..], a, e) && Same(old(mem[..]), mem[..], 0, a)
              && Same(old(mem[..]), mem[..], a + EltSize(e), mem.Length)
  {
    EltSizeFacts(e);
    hide EltSize;
    WriteValue(mem, a, e.value);
    mem[a + PTR_SIZE] := Length(|e.key|, 0);
    mem[a + PTR_SIZE + 1] := Length(|e.key|, 1);
    forall i | 0 <= i < |e.key| {
      mem[a + PTR_SIZE + 2 + i] := Char(ToLower(e.key[i]));
    }
  }

  method WriteValue(mem: array<Cell>, a: nat, v: int)
    requires a + PTR_SIZE <= mem.Length
    modifies mem
    ensures ValueAt(mem[..], a, v) && Same(old(mem[..]), mem[..], 0, a)
              && Same(old(mem[..]), mem[..], a + PTR_SIZE, mem.Length)
  {
    forall k | 0 <= k < PTR_SIZE {
      mem[a + k] := Part(v, k);
    }
  }

  lemma StartFirst(names: seq<Name>, size: nat, line: nat)
    requires size > 0 && line > 0
    ensures Start(names, size, line, 0) == 0
  {
  }

  /** The buckets are where the layout says. */
  ghost predicate Assigned(names: seq<Name>, size: nat, line: nat, buckets: seq<int>) {
    && size > 0 && line > 0 && line % PTR_SIZE == 0 && |buckets| == size
    && forall i :: 0 <= i < size ==>
       buckets[i] == if Bucket(names, size, i) == [] then NOWHERE else Start(names, size, line, i)
  }

  /** Where the n-th name goes, and that there is room for it. */
  lemma PlaceOf(names: seq<Name>, size: nat, line: nat, n: nat)
    requires size > 0 && line > 0 && n < |names| && names[n].present
    ensures var key := names[n].hash % size;
            && Bucket(names, size, key) != []
            && Used(Bucket(names[..n], size, key)) + EltSize(names[n]) <= Used(Bucket(names, size, key))
            && Start(names, size, line, key) + PTR_SIZE + Used(Bucket(names, size, key))
               <= Start(names, size, line, key) + Room(names, size, line, key)
            && Start(names, size, line, key) + Room(names, size, line, key) <= Start(names, size, line, size)
  {
    hide Bucket, Used, Room, EltSize, Start;
    var key := names[n].hash % size;
    BucketNext(names, n, size, key);
    UsedGrows(names, n + 1, size, key);
    EltSizeFacts(names[n]);
    RoomEnough(names, size, line, key);
    StartsApart(names, size, line, key, size);
  }

  lemma PlacedAppend(m: Memory, base: nat, es: seq<Name>, e: Name)
    requires Placed(m, base, es) && EltAt(m, base + Used(es), e)
    ensures Placed(m, base, es + [e])
  {
    hide EltAt, Used;
    assert (es + [e])[..|es|] == es;
  }

  /** Two buckets and a place in the first: the other is not touched. */
  lemma Elsewhere(names: seq<Name>, size: nat, line: nat, key: nat, i: nat, n: nat, u: nat, w: nat)
    requires size > 0 && line > 0 && key < size && i < size && i != key && n <= |names|
    requires u + w <= Room(names, size, line, key)
    ensures var a, base := Start(names, size, line, key) + u, Start(names, size, line, i);
            var end := base + Used(Bucket(names[..n], size, i));
            end <= a || a + w <= base
    ensures Bucket(names, size, i) != [] ==>
            var a, base := Start(names, size, line, key) + u, Start(names, size, line, i);
            base + Used(Bucket(names, size, i)) + PTR_SIZE <= a || a + w <= base
  {
    hide Bucket, Used, Room, Start;
    UsedGrows(names, n, size, i);
    RoomEnough(names, size, line, i);
    if i < key {
      StartsApart(names, size, line, i, key);
    } else {
      StartsApart(names, size, line, key, i);
    }
  }

  /** Writing the n-th name keeps what is there and adds it to its bucket. */
  lemma FillOne(names: seq<Name>, size: nat, line: nat, n: nat, m: Memory, m': Memory, i: nat)
    requires size > 0 && line > 0 && n < |names| && names[n].present && i < size
    requires Placed(m, Start(names, size, line, i), Bucket(names[..n], size, i))
    requires var key := names[n].hash % size;
             var a := Start(names, size, line, key) + Used(Bucket(names[..n], size, key));
             EltAt(m', a, names[n]) && Same(m, m', 0, a) && Same(m, m', a + EltSize(names[n]), |m|)
    ensures Placed(m', Start(names, size, line, i), Bucket(names[..n + 1], size, i))
  {
    hide Bucket, Used, Room, EltSize, Start, Placed, EltAt;
    var key := names[n].hash % size;
    var base, es := Start(names, size, line, i), Bucket(names[..n], size, i);
    PlaceOf(names, size, line, n);
    BucketNext(names, n, size, i);
    if i == key {
      PlacedFrame(m, m', base, es);
      PlacedAppend(m', base, es, names[n]);
    } else {
      Elsewhere(names, size, line, key, i, n, Used(Bucket(names[..n], size, key)), EltSize(names[n]));
      PlacedFrame(m, m', base, es);
      assert es + [] == es;
    }
  }

  /** The third pass over the names writes them into their buckets. */
  method Fill(names: seq<Name>, size: nat, line: nat, test: array<int>, buckets: array<int>, mem: array<Cell>)
    requires size <= test.Length && test != buckets && Assigned(names, size, line, buckets[..])
    requires mem.Length >= Start(names, size, line, size)
    requires forall i :: 0 <= i < size ==> Used(Bucket(names, size, i)) < SHORT
    modifies test, mem
    ensures forall i :: 0 <= i < size ==> test[i] == Used(Bucket(names, size, i))
    ensures forall i :: 0 <= i < size ==> Placed(mem[..], Start(names, size, line, i), Bucket(names, size, i))
  {
    hide Bucket, Used, Room, EltSize, Start, Placed, EltAt, Same;
    forall i | 0 <= i < size {
      test[i] := 0;
    }
    EmptyBuckets(names, size);
    NothingPlaced(names, size, line, mem[..]);
    var n := 0;
    while n < |names|
      invariant 0 <= n <= |names|
      invariant forall i :: 0 <= i < size ==> test[i] == Used(Bucket(names[..n], size, i))
      invariant forall i :: 0 <= i < size ==> Placed(mem[..], Start(names, size, line, i), Bucket(names[..n], size, i))
    {
      forall i | 0 <= i < size ensures var here := names[n].present && names[n].hash % size == i;
          && Bucket(names[..n + 1], size, i) == Bucket(names[..n], size, i) + (if here then [names[n]] else [])
          && Used(Bucket(names[..n + 1], size, i)) == Used(Bucket(names[..n], size, i)) + if here
             then EltSize(names[n]) else 0
      {
        BucketNext(names, n, size, i);
      }
      if names[n].present {
        var key := names[n].hash % size;
        PlaceOf(names, size, line, n);
        ghost var m := mem[..];
        Write(mem, buckets[key] + test[key], names[n]);
        forall i | 0 <= i < size ensures Placed(mem[..], Start(names, size, line, i), Bucket(names[..n + 1], size, i)) {
          FillOne(names, size, line, n, m, mem[..], i);
        }
        test[key] := (test[key] + EltSize(names[n])) % SHORT;
      } else {
        SkipOne(names, size, n);
      }
      n := n + 1;
    }
    assert names[..n] == names;
  }

  lemma NothingPlaced(names: seq<Name>, size: nat, line: nat, m: Memory)
    requires size > 0 && line > 0
    ensures forall i :: 0 <= i < size ==> Placed(m, Start(names, size, line, i), Bucket(names[..0], size, i))
  {
  }

  lemma SkipOne(names: seq<Name>, size: nat, n: nat)
    requires size > 0 && n < |names| && !names[n].present
    ensures forall i :: 0 <= i < size ==> Bucket(names[..n + 1], size, i) == Bucket(names[..n], size, i)
  {
    forall i | 0 <= i < size ensures Bucket(names[..n + 1], size, i) == Bucket(names[..n], size, i) {
      BucketNext(names, n, size, i);
    }
    hide Bucket;
  }

  /** The NULL at the end of one bucket leaves the others as they are. */
  lemma EndOne(names: seq<Name>, size: nat, line: nat, m: Memory, m': Memory, key: nat, i: nat)
    requires size > 0 && line > 0 && key < size && i < size && i != key && Bucket(names, size, key) != []
    requires Placed(m, Start(names, size, line, i), Bucket(names, size, i))
    requires var a := Start(names, size, line, key) + Used(Bucket(names, size, key));
             Same(m, m', 0, a) && Same(m, m', a + PTR_SIZE, |m|)
    ensures Placed(m', Start(names, size, line, i), Bucket(names, size, i))
    ensures Bucket(names, size, i) != []
              && ValueAt(m, Start(names, size, line, i) + Used(Bucket(names, size, i)), NULL) ==>
              ValueAt(m', Start(names, size, line, i) + Used(Bucket(names, size, i)), NULL)
  {
    hide Bucket, Used, Room, Start, Placed;
    assert names[..|names|] == names;
    RoomEnough(names, size, line, key);
    Elsewhere(names, size, line, key, i, |names|, Used(Bucket(names, size, key)), PTR_SIZE);
    PlacedFrame(m, m', Start(names, size, line, i), Bucket(names, size, i));
  }

  lemma EndSame(names: seq<Name>, size: nat, line: nat, m: Memory, m': Memory, key: nat)
    requires size > 0 && line > 0 && Placed(m, Start(names, size, line, key), Bucket(names, size, key))
    requires var a := Start(names, size, line, key) + Used(Bucket(names, size, key)); Same(m, m', 0, a)
    ensures Placed(m', Start(names, size, line, key), Bucket(names, size, key))
  {
    hide Bucket, Used, Start, Placed;
    PlacedFrame(m, m', Start(names, size, line, key), Bucket(names, size, key));
  }

  /** The last pass ends every bucket with a NULL. */
  method Terminate(names: seq<Name>, size: nat, line: nat, test: array<int>, buckets: array<int>, mem: array<Cell>)
    requires size <= test.Length && Assigned(names, size, line, buckets[..])
               && mem.Length >= Start(names, size, line, size)
    requires forall i :: 0 <= i < size ==> test[i] == Used(Bucket(names, size, i))
    requires forall i :: 0 <= i < size ==> Placed(mem[..], Start(names, size, line, i), Bucket(names, size, i))
    modifies mem
    ensures forall i :: 0 <= i < size ==> BucketAt(mem[..], buckets[i], Bucket(names, size, i))
  {
    hide Bucket, Used, Room, Start, Placed, Same, ValueAt;
    var i := 0;
    while i < size
      invariant 0 <= i <= size
      invariant forall j :: 0 <= j < size ==> Placed(mem[..], Start(names, size, line, j), Bucket(names, size, j))
      invariant forall j :: 0 <= j < i ==> Ended(names, size, line, mem[..], j)
    {
      assert buckets[..][i] == buckets[i];
      if buckets[i] != NOWHERE {
        ghost var m := mem[..];
        RoomEnough(names, size, line, i);
        StartsApart(names, size, line, i, size);
        WriteValue(mem, buckets[i] + test[i], NULL);
        forall j | 0 <= j < size
          ensures Placed(mem[..], Start(names, size, line, j), Bucket(names, size, j))
                    && (j <= i ==> Ended(names, size, line, mem[..], j))
        {
          if j == i {
            EndSame(names, size, line, m, mem[..], i);
            assert Ended(names, size, line, mem[..], i);
          } else {
            EndOne(names, size, line, m, mem[..], i, j);
            assert j < i ==> Ended(names, size, line, m, j);
            assert j < i ==> Ended(names, size, line, mem[..], j);
          }
        }
      }
      i := i + 1;
    }
    forall j | 0 <= j < size ensures BucketAt(mem[..], buckets[j], Bucket(names, size, j)) {
      assert buckets[..][j] == buckets[j];
      StartAligned(names, size, line, j);
      assert Ended(names, size, line, mem[..], j);
      assert Placed(mem[..], Start(names, size, line, j), Bucket(names, size, j));
    }
  }

  ghost predicate Ended(names: seq<Name>, size: nat, line: nat, m: Memory, i: nat)
    requires size > 0 && line > 0
  {
    Bucket(names, size, i) != [] ==> ValueAt(m, Start(names, size, line, i) + Used(Bucket(names, size, i)), NULL)
  }

  // --------------------------------------------------------------- ngx_hash_init

  /** The bucket size has room for every name and a pointer. */
  ghost predicate Roomy(names: seq<Name>, bucketSize: nat) {
    forall n :: 0 <= n < |names| ==> EltSize(names[n]) + PTR_SIZE <= bucketSize
  }

  method LargeEnough(names: seq<Name>, bucketSize: nat) returns (ok: bool)
    ensures ok <==> Roomy(names, bucketSize)
  {
    hide EltSize;
    var n := 0;
    while n < |names|
      invariant 0 <= n <= |names| && forall k :: 0 <= k < n ==> EltSize(names[k]) + PTR_SIZE <= bucketSize
    {
      if bucketSize < EltSize(names[n]) + PTR_SIZE {
        return false;
      }
      n := n + 1;
    }
    return true;
  }

  /** ngx_hash_init, up to the case that no number of buckets will do: the table it
      builds finds what was put into it.  `line` is the cache line size. */
  method Init(names: seq<Name>, maxSize: nat, bucketSize: nat, line: nat) returns (table: HashTable?)
    requires Usable(names) && (names == [] ==> bucketSize >= 3 * PTR_SIZE)
    requires line > 0 && line % PTR_SIZE == 0
    requires bucketSize >= PTR_SIZE ==>
               var limit := bucketSize - PTR_SIZE;
               NoWrap(names, limit) && forall s :: 0 < s <= maxSize && Fits(names, s, limit) ==>
                   RoomsFit(names, s, line)
    ensures table != null ==> table.Valid() && table.names == names && table.size <= maxSize
    ensures table != null ==>
              Roomy(names, bucketSize) && bucketSize >= PTR_SIZE && Fits(names, table.size, bucketSize - PTR_SIZE)
    ensures !Roomy(names, bucketSize) ==> table == null
    ensures Roomy(names, bucketSize) ==>
              && bucketSize >= 3 * PTR_SIZE
              && var limit := bucketSize - PTR_SIZE;
              && (table == null <==> NoneFits(names, FirstSize(|names|, maxSize, limit), maxSize, limit))
  {
    hide EltSize, Fits, NoWrap, RoomsFit, Align, Usable, Bucket, Used, Room, Start, Placed;
    var ok := LargeEnough(names, bucketSize);
    if !ok {
      return null;
    }
    if names != [] {
      EltSizeFacts(names[0]);
    }
    var limit := bucketSize - PTR_SIZE;
    var start := FirstSize(|names|, maxSize, limit);
    var size := FindSize(names, start, maxSize, limit);
    if size > maxSize {
      return null;
    }
    NeverOver(names, size, limit);
    table := Build(names, size, if names == [] then 0 else limit, line);
  }

  lemma NeverOver(names: seq<Name>, size: nat, limit: nat)
    requires size > 0 && NoWrap(names, limit)
    ensures if names == [] then Fits(names, size, 0) else PTR_SIZE + limit < SHORT
  {
    if names == [] {
      EmptyBuckets(names, size);
      assert names[..0] == names;
    } else {
      EltSizeFacts(names[0]);
    }
  }

  /** Where the search begins. */
  function FirstSize(nelts: nat, maxSize: nat, limit: nat): (start: nat)
    requires limit >= 2 * PTR_SIZE
    ensures start > 0
  {
    if maxSize > 10000 && nelts > 0 && maxSize / nelts < 100 then maxSize - 1000
    else
      var start := nelts / (limit / (2 * PTR_SIZE));
      if start == 0 then 1 else start
  }

  /** How many names a bucket within the limit can hold. */
  lemma {:induction false} FewInBucket(es: seq<Name>)
    ensures 2 * PTR_SIZE * |es| <= Used(es)
  {
    if es != [] {
      FewInBucket(es[..|es| - 1]);
      EltSizeFacts(es[|es| - 1]);
    }
  }

  /** The names in the first buckets. */
  function InBuckets(names: seq<Name>, size: nat, i: nat): nat
    requires size > 0
  {
    if i == 0 then 0 else InBuckets(names, size, i - 1) + |Bucket(names, size, i - 1)|
  }

  lemma {:induction false} OneMoreName(names: seq<Name>, size: nat, i: nat)
    requires size > 0 && names != []
    ensures var n := names[|names| - 1];
            InBuckets(names, size, i) == InBuckets(names[..|names| - 1], size, i) +
              if n.present && n.hash % size < i then 1 else 0
  {
    if i > 0 {
      OneMoreName(names, size, i - 1);
    }
  }

  lemma {:induction false} NoNames(size: nat, i: nat)
    requires size > 0
    ensures InBuckets([], size, i) == 0
  {
    if i > 0 {
      NoNames(size, i - 1);
    }
  }

  /** Every name is in one of the buckets. */
  lemma {:induction false} AllInBuckets(names: seq<Name>, size: nat)
    requires size > 0 && forall j :: 0 <= j < |names| ==> names[j].present
    ensures InBuckets(names, size, size) == |names|
  {
    if names == [] {
      NoNames(size, size);
    } else {
      AllInBuckets(names[..|names| - 1], size);
      OneMoreName(names, size, size);
    }
  }

  lemma {:induction false} FewInBuckets(names: seq<Name>, size: nat, limit: nat, i: nat)
    requires size > 0 && Fits(names, size, limit) && i <= size
    ensures InBuckets(names, size, i) <= i * (limit / (2 * PTR_SIZE))
  {
    if i > 0 {
      FewInBuckets(names, size, limit, i - 1);
      FewInBucket(Bucket(names, size, i - 1));
      hide Bucket, Used;
      OneTimeMore(i, limit / (2 * PTR_SIZE));
      hide *;
    }
  }

  lemma OneTimeMore(i: nat, c: nat)
    ensures i * c == (i - 1) * c + c
  {
  }

  /** The search begins near the maximum for a long list, and otherwise with as many buckets
      as that many names fill, each of them the size of two pointers. */
  lemma SearchBegins(nelts: nat, maxSize: nat, limit: nat)
    requires limit >= 2 * PTR_SIZE
    ensures var c, start := limit / (2 * PTR_SIZE), FirstSize(nelts, maxSize, limit);
            if 10000 < maxSize < 100 * nelts then start == maxSize - 1000
            else if nelts < c then start == 1
            else start * c <= nelts < (start + 1) * c
  {
    if nelts > 0 {
      assert maxSize / nelts < 100 <==> maxSize < 100 * nelts by {
        DivideBelow(maxSize, nelts, 100);
      }
    }
    var c := limit / (2 * PTR_SIZE);
    assert nelts == nelts / c * c + nelts % c;
    assert (nelts / c + 1) * c == nelts / c * c + c;
    DivideBelow(nelts, c, 1);
  }

  lemma DivideBelow(a: nat, b: nat, k: nat)
    requires b > 0
    ensures a / b < k <==> a < k * b
  {
    var q, m := a / b, a % b;
    assert a == q * b + m;
    if q < k {
      assert (q + 1) * b <= k * b;
    } else {
      assert q * b >= k * b;
    }
  }

  /** In the second case no size that it leaves out would do. */
  lemma NothingSkipped(names: seq<Name>, size: nat, maxSize: nat, limit: nat)
    requires limit >= 2 * PTR_SIZE && forall j :: 0 <= j < |names| ==> names[j].present
    requires !(10000 < maxSize < 100 * |names|) && 0 < size < FirstSize(|names|, maxSize, limit)
    ensures !Fits(names, size, limit)
  {
    hide Fits, FirstSize;
    var c, start := limit / (2 * PTR_SIZE), FirstSize(|names|, maxSize, limit);
    SearchBegins(|names|, maxSize, limit);
    Below(size, start, c);
    if Fits(names, size, limit) {
      AllInBuckets(names, size);
      FewInBuckets(names, size, limit, size);
    }
  }

  lemma Below(a: nat, b: nat, c: nat)
    requires a < b && c > 0
    ensures a * c < b * c
  {
  }

  method Build(names: seq<Name>, size: nat, ghost limit: nat, line: nat) returns (table: HashTable)
    requires size > 0 && line > 0 && line % PTR_SIZE == 0 && PTR_SIZE + limit < SHORT
    requires Usable(names) && Fits(names, size, limit) && RoomsFit(names, size, line)
    ensures table.Valid() && table.names == names && table.size == size
  {
    hide EltSize, Usable, Bucket, Used, Room, Start, Placed, Align;
    var test := new int[size];
    Measure(names, size, limit, line, test);
    var buckets := new int[size];
    var len := Assign(names, size, line, test, buckets);
    var mem := new Cell[len + line](i => Junk);
    Fill(names, size, line, test, buckets, mem);
    Terminate(names, size, line, test, buckets, mem);
    table := new HashTable(size, buckets, mem, names);
  }

  // -------------------------------------------------- where the rooms go wrong

  /** Where a bucket begins by the sizes that were kept in unsigned shorts. */
  function Start16(names: seq<Name>, size: nat, line: nat, i: nat): nat
    requires size > 0 && line > 0
  {
    if i == 0 then 0 else Start16(names, size, line, i - 1) + Room(names, size, line, i - 1) % SHORT
  }

  /** The bucket begins where it would without the cut exactly if all rooms before it fit. */
  lemma {:induction false} StartExactly(names: seq<Name>, size: nat, line: nat, i: nat)
    requires size > 0 && line > 0
    ensures Start16(names, size, line, i) <= Start(names, size, line, i)
    ensures Start16(names, size, line, i) == Start(names, size, line, i) <==>
              forall k :: 0 <= k < i ==> Room(names, size, line, k) < SHORT
  {
    hide Room;
    if i > 0 {
      StartExactly(names, size, line, i - 1);
    }
  }

  /** A bucket ends, with its NULL, before the next one begins exactly if its room fits
      into an unsigned short. */
  lemma RoomExactly(names: seq<Name>, size: nat, limit: nat, line: nat, i: nat, j: nat)
    requires size > 0 && 0 < line <= SHORT / 2 && Fits(names, size, limit) && PTR_SIZE + limit < SHORT
    requires i < j < size && Bucket(names, size, i) != [] && forall k :: i < k < j ==> Bucket(names, size, k) == []
    ensures Start16(names, size, line, i) + Used(Bucket(names, size, i)) + PTR_SIZE
              <= Start16(names, size, line, j) <==>
            Room(names, size, line, i) < SHORT
  {
    hide Bucket, Used, Align, Fits, Room, Start16;
    FitsAt(names, size, limit, i);
    RoomIs(names, size, line, i);
    AlignFacts(PTR_SIZE + Used(Bucket(names, size, i)), line);
    WrappedRoom(PTR_SIZE + Used(Bucket(names, size, i)), Room(names, size, line, i), line);
    NextStart(names, size, line, i, j);
  }

  lemma WrappedRoom(t: nat, room: nat, line: nat)
    requires t < SHORT && t <= room < t + line && line <= SHORT / 2
    ensures t <= room % SHORT <==> room < SHORT
  {
    if room >= SHORT {
      assert room % SHORT == room - SHORT;
    }
  }

  lemma FitsAt(names: seq<Name>, size: nat, limit: nat, i: nat)
    requires i < size && Fits(names, size, limit)
    ensures Used(Bucket(names, size, i)) <= limit
  {
  }

  lemma {:induction false} NextStart(names: seq<Name>, size: nat, line: nat, i: nat, j: nat)
    requires size > 0 && line > 0 && i < j && forall k :: i < k < j ==> Bucket(names, size, k) == []
    ensures Start16(names, size, line, j) == Start16(names, size, line, i) + Room(names, size, line, i) % SHORT
    decreases j
  {
    hide Bucket, Used, Align;
    if i + 1 < j {
      NextStart(names, size, line, i, j - 1);
    }
  }

  /** The search settles for two buckets, which begin at the same place. */
  lemma RoomsOverlap() returns (names: seq<Name>)
    ensures NoWrap(names, 65480) && FirstSize(|names|, 1000, 65480) == 1
    ensures !Fits(names, 1, 65480) && Fits(names, 2, 65480)
    ensures Bucket(names, 2, 0) != [] && Bucket(names, 2, 1) != []
    ensures Start16(names, 2, 64, 0) == Start16(names, 2, 64, 1)
  {
    hide EltSize, Row, Bucket, Used;
    var front, last := Row(4092), Sized(16, 0).(hash := 1);
    RowFacts(4092);
    RowHash(4092);
    names := front + [last];
    assert EltSize(last) == 16 by { SameSize(Sized(16, 0), last); }
    forall i | 0 <= i < 2 ensures Bucket(names, 2, i) == if i == 0 then front else [last] {
      BucketOfOne(front, last, 2, i);
    }
    BucketOfOne(front, last, 1, 0);
    UsedNext(front, last);
    UsedNext([], last);
    assert [] + [last] == [last];
    UsedNothing([]);
  }

  lemma SameSize(a: Name, b: Name)
    requires b == a.(hash := b.hash)
    ensures EltSize(b) == EltSize(a)
  {
  }

  predicate ZeroHash(names: seq<Name>) { forall n :: 0 <= n < |names| ==> names[n].hash == 0 }

  lemma {:induction false} RowHash(k: nat)
    ensures |Row(k)| == k && ZeroHash(Row(k))
  {
    hide EltSize;
    if k > 0 {
      RowHash(k - 1);
    }
  }

  /** Names with hash zero are in the first bucket, in a table of any size. */
  lemma {:induction false} FirstBucket(names: seq<Name>, size: nat, i: nat)
    requires Crowd(names) && ZeroHash(names) && i < size
    ensures Bucket(names, size, i) == if i == 0 then names else []
  {
    if names != [] {
      FirstBucket(names[..|names| - 1], size, i);
    }
  }

  lemma BucketOfOne(front: seq<Name>, last: Name, size: nat, i: nat)
    requires Crowd(front) && ZeroHash(front) && last.present && i < size
    ensures Bucket(front + [last], size, i) ==
            (if i == 0 then front else []) + (if last.hash % size == i then [last] else [])
  {
    FirstBucket(front, size, i);
    assert (front + [last])[..|front|] == front;
    hide EltSize;
  }

  /** More names of one hash than a bucket holds fit no table, however large. */
  lemma NoTable(limit: nat, first: nat, last: nat) returns (names: seq<Name>)
    requires first > 0 && limit >= 16
    ensures Roomy(names, limit + PTR_SIZE) && |names| == limit / 16 + 1 && NoneFits(names, first, last, limit)
  {
    hide EltSize, Row, Used, Bucket;
    var k := limit / 16 + 1;
    RowFacts(k);
    RowHash(k);
    names := Row(k);
    forall s | first <= s <= last ensures !Fits(names, s, limit) {
      FirstBucket(names, s, 0);
    }
  }

  // ------------------------------------------------- where the search goes wrong

  /** For names of up to e bytes each, passing the search means to fit. */
  ghost predicate SearchTells(limit: nat, e: nat) {
    forall names, size :: size > 0 && Upto(names, e) ==> (Passes(names, size, limit) <==> Fits(names, size, limit))
  }

  predicate Upto(names: seq<Name>, e: nat) { forall n :: 0 <= n < |names| ==> EltSize(names[n]) <= e }

  /** A name whose element takes e bytes. */
  function Sized(e: nat, id: int): (r: Name)
    requires 16 <= e && e % PTR_SIZE == 0
    ensures EltSize(r) == e && r.present
  {
    Name([id] + seq(e - 11, i => 0), 0, 1, true)
  }

  /** k different names of 16 bytes, all with one hash. */
  function Row(k: nat): seq<Name> { if k == 0 then [] else Row(k - 1) + [Sized(16, k)] }

  lemma {:induction false} RowFacts(k: nat)
    ensures Used(Row(k)) == 16 * k && Upto(Row(k), 16) && Crowd(Row(k))
  {
    hide EltSize;
    if k > 0 {
      RowFacts(k - 1);
      assert Row(k)[..|Row(k)| - 1] == Row(k - 1);
    }
  }

  predicate Crowd(names: seq<Name>) { forall n :: 0 <= n < |names| ==> names[n].present }

  lemma {:induction false} OneBucket(names: seq<Name>)
    requires Crowd(names)
    ensures Bucket(names, 1, 0) == names
  {
    if names != [] {
      OneBucket(names[..|names| - 1]);
    }
  }

  lemma OneSum(names: seq<Name>, n: nat)
    requires Crowd(names) && n < |names|
    ensures Sum16(names, n, 1) == Used(names[..n + 1]) % SHORT
  {
    hide Bucket, Used;
    OneBucket(names[..n + 1]);
    assert names[n].hash % 1 == 0;
  }

  lemma FrontSum(front: seq<Name>, last: Name, n: nat)
    requires Crowd(front) && n < |front|
    ensures (front + [last])[..n + 1] == front[..n + 1] && Used(front[..n + 1]) <= Used(front)
  {
    hide EltSize, Bucket, Used;
    OneBucket(front);
    OneBucket(front[..n + 1]);
    UsedGrows(front, n + 1, 1, 0);
  }

  lemma Wrapped(a: nat, b: nat, limit: nat)
    requires a <= limit < SHORT && b <= limit && a + b >= SHORT
    ensures (a + b) % SHORT <= limit
  {
    assert (a + b) % SHORT == a + b - SHORT;
  }

  /** One more element wraps the sum of a bucket that is nearly full. */
  lemma Wraps(front: seq<Name>, last: Name, limit: nat)
    requires Crowd(front) && last.present && EltSize(last) <= limit < SHORT
    requires Used(front) <= limit && Used(front) + EltSize(last) >= SHORT
    ensures Passes(front + [last], 1, limit) && !Fits(front + [last], 1, limit)
  {
    hide EltSize, Bucket, Used, Sum16;
    var names := front + [last];
    OneBucket(names);
    UsedNext(front, last);
    forall n | 0 <= n < |names| && names[n].present ensures Sum16(names, n, 1) <= limit % SHORT {
      OneSum(names, n);
      if n < |front| {
        FrontSum(front, last, n);
      } else {
        assert names[..n + 1] == names;
        Wrapped(Used(front), EltSize(last), limit);
      }
    }
    assert Used(Bucket(names, 1, 0)) > limit;
  }

  /** Names of 16 bytes, and one of 24 if that is called for, up to a sum. */
  lemma Crowded(units: nat, odd: bool) returns (front: seq<Name>)
    requires odd ==> units >= 3
    ensures Crowd(front) && Upto(front, if odd then 24 else 16)
    ensures Used(front) == if odd then 16 * ((units - 3) / 2) + 24 else 16 * (units / 2)
  {
    hide EltSize, Used, Row;
    var k := if odd then (units - 3) / 2 else units / 2;
    RowFacts(k);
    front := Row(k);
    if odd {
      UsedNext(front, Sized(24, 0));
      front := front + [Sized(24, 0)];
    }
  }

  /** The sum is within the limit, and e bytes more wrap it. */
  lemma NearlyFull(limit: nat, e: nat)
    requires e % PTR_SIZE == 0 && 16 <= e <= limit < SHORT && limit + e >= SHORT
    ensures var units, odd := limit / 8, limit / 8 % 2 == 1 && e > 16;
            var sum := if odd then 16 * ((units - 3) / 2) + 24 else 16 * (units / 2);
            sum <= limit && sum + e >= SHORT && (odd ==> units >= 3 && e >= 24)
  {
    var units, rest := limit / 8, limit % 8;
    var half, size := units / 2, e / 8;
    assert limit == 8 * units + rest && e == 8 * size;
    if units % 2 == 0 {
      assert units == 2 * half;
    } else {
      assert units == 2 * half + 1 && (units - 3) / 2 == half - 1;
    }
  }

  /** The search accepts a table of one bucket that is too small for these names. */
  lemma SearchMistaken(limit: nat, e: nat) returns (names: seq<Name>)
    requires e % PTR_SIZE == 0 && 16 <= e <= limit < SHORT && limit + e >= SHORT
    ensures Upto(names, e) && Passes(names, 1, limit) && !Fits(names, 1, limit)
  {
    hide EltSize, Passes, Fits, Used, Crowd, Sized;
    NearlyFull(limit, e);
    var front := Crowded(limit / 8, limit / 8 % 2 == 1 && e > 16);
    var last := Sized(e, 0);
    Wraps(front, last, limit);
    names := front + [last];
  }

  lemma UsedNext(es: seq<Name>, e: Name)
    ensures Used(es + [e]) == Used(es) + EltSize(e)
  {
    assert (es + [e])[..|es|] == es;
  }

  /** Passing the search means to fit exactly if one more element cannot wrap a sum. */
  lemma SearchExactly(limit: nat, e: nat)
    requires e % PTR_SIZE == 0 && 16 <= e <= limit < SHORT
    ensures SearchTells(limit, e) <==> limit + e < SHORT
  {
    hide EltSize, Passes, Fits;
    if limit + e < SHORT {
      forall names, size | size > 0 && Upto(names, e) ensures Passes(names, size, limit) <==> Fits(names, size, limit) {
        PassesIsFits(names, size, limit);
      }
    } else {
      var names := SearchMistaken(limit, e);
      assert Passes(names, 1, limit) != Fits(names, 1, limit);
    }
  }
}
