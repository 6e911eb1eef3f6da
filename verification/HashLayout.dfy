/**
 The packed buckets of src/core/ngx_hash.c: where elements lie, and what reading
 them gives.

 Memory is a sequence of bytes; a byte of a pointer or of a length remembers which
 value it is part of and at which place, so that overlapping writes would show.
 Addresses count from the first, aligned, byte of the buckets' memory.
 */
module HashLayout {

  const NULL: int := 0
  const NOWHERE: int := -1       // a bucket without elements
  const PTR_SIZE: nat := 8
  const SHORT: nat := 0x1_0000

  datatype Cell = Junk | Part(value: int, at: nat) | Length(len: int, at: nat) | Char(c: int)

  type Memory = seq<Cell>

  /** ngx_hash_key_t; `present` says that key.data is not NULL. */
  datatype Name = Name(key: seq<int>, hash: nat, value: int, present: bool)

  function ToLower(c: int): int { if 'A' as int <= c <= 'Z' as int then c + 32 else c }

  /** Only the twenty-six letters change. */
  lemma ToLowerIs(c: int)
    ensures var upper, lower := "ABCDEFGHIJKLMNOPQRSTUVWXYZ", "abcdefghijklmnopqrstuvwxyz";
            if 65 <= c < 91 then upper[c - 65] as int == c && ToLower(c) == lower[c - 65] as int else ToLower(c) == c
  {
  }

  function Lower(s: seq<int>): (r: seq<int>)
    ensures |r| == |s| && forall i :: 0 <= i < |s| ==> r[i] == ToLower(s[i])
  {
    seq(|s|, i requires 0 <= i < |s| => ToLower(s[i]))
  }

  /** ngx_align */
  function Align(d: nat, a: nat): nat
    requires a > 0
  {
    (d + (a - 1)) / a * a
  }

  /** NGX_HASH_ELT_SIZE */
  function EltSize(e: Name): nat { PTR_SIZE + Align(|e.key| + 2, PTR_SIZE) }

  lemma EltSizeFacts(e: Name)
    ensures EltSize(e) % PTR_SIZE == 0 && EltSize(e) >= 10 + |e.key| && EltSize(e) >= 16 && EltSize(e) <= |e.key| + 17
  {
  }

  /** The reader's stride is the writer's. */
  lemma Stride(a: nat, e: Name)
    requires a % PTR_SIZE == 0
    ensures Align(a + 10 + |e.key|, PTR_SIZE) == a + EltSize(e)
  {
  }

  // ------------------------------------------------------------- one element

  predicate ValueAt(m: Memory, a: nat, v: int) {
    a + PTR_SIZE <= |m| && forall k :: 0 <= k < PTR_SIZE ==> m[a + k] == Part(v, k)
  }

  predicate LengthAt(m: Memory, a: nat, len: int) {
    a + 2 <= |m| && m[a] == Length(len, 0) && m[a + 1] == Length(len, 1)
  }

  predicate NameAt(m: Memory, a: nat, s: seq<int>) {
    a + |s| <= |m| && forall i :: 0 <= i < |s| ==> m[a + i] == Char(s[i])
  }

  predicate EltAt(m: Memory, a: nat, e: Name) {
    && ValueAt(m, a, e.value) && LengthAt(m, a + PTR_SIZE, |e.key|) && NameAt(m, a + PTR_SIZE + 2, Lower(e.key))
    && a + EltSize(e) <= |m|
  }

  /** Bytes from a up to b are the same. */
  ghost predicate Same(m: Memory, m': Memory, a: int, b: int) {
    |m'| == |m| && forall i :: a <= i < b && 0 <= i < |m| ==> m'[i] == m[i]
  }

  lemma EltFrame(m: Memory, m': Memory, a: nat, e: Name)
    requires EltAt(m, a, e) && Same(m, m', a, a + EltSize(e))
    ensures EltAt(m', a, e)
  {
    EltSizeFacts(e);
  }

  // ---------------------------------------------------------------- a bucket

  function Used(es: seq<Name>): nat { if es == [] then 0 else Used(es[..|es| - 1]) + EltSize(es[|es| - 1]) }

  /** Elements one after the other. */
  predicate Placed(m: Memory, base: nat, es: seq<Name>) {
    es != [] ==>
      var k := |es| - 1;
      Placed(m, base, es[..k]) && EltAt(m, base + Used(es[..k]), es[k])
  }

  lemma {:induction false} PlacedFrame(m: Memory, m': Memory, base: nat, es: seq<Name>)
    requires Placed(m, base, es) && Same(m, m', base, base + Used(es))
    ensures Placed(m', base, es)
  {
    if es != [] {
      var k := |es| - 1;
      PlacedFrame(m, m', base, es[..k]);
      EltFrame(m, m', base + Used(es[..k]), es[k]);
    }
  }

  lemma {:induction false} PlacedAt(m: Memory, base: nat, es: seq<Name>, j: nat)
    requires Placed(m, base, es) && j < |es|
    ensures EltAt(m, base + Used(es[..j]), es[j])
    ensures Used(es[..j + 1]) == Used(es[..j]) + EltSize(es[j]) <= Used(es)
  {
    var k := |es| - 1;
    if j < k {
      PlacedAt(m, base, es[..k], j);
      assert es[..k][..j] == es[..j] && es[..k][..j + 1] == es[..j + 1];
    } else {
      assert es[..j + 1] == es;
    }
  }

  lemma AddAligned(a: nat, b: nat)
    requires a % PTR_SIZE == 0 && b % PTR_SIZE == 0
    ensures (a + b) % PTR_SIZE == 0
  {
  }

  /** The names that go into bucket i, in order. */
  function Bucket(names: seq<Name>, size: nat, i: nat): seq<Name>
    requires size > 0
  {
    if names == [] then []
    else
      var k := |names| - 1;
      var rest := Bucket(names[..k], size, i);
      if names[k].present && names[k].hash % size == i then rest + [names[k]] else rest
  }

  /** What a table of names gives for a key: the value of the first such name. */
  function Lookup(names: seq<Name>, name: seq<int>): int {
    if names == [] then NULL
    else if names[0].present && Lower(names[0].key) == name then names[0].value
    else Lookup(names[1..], name)
  }

  /** There is a name with these bytes, and none before it. */
  ghost predicate FirstMatch(names: seq<Name>, name: seq<int>, k: int) {
    && 0 <= k < |names| && names[k].present && Lower(names[k].key) == name
    && forall j :: 0 <= j < k && names[j].present ==> Lower(names[j].key) != name
  }

  lemma {:induction false} LookupIs(names: seq<Name>, name: seq<int>)
    ensures (exists k :: FirstMatch(names, name, k) && Lookup(names, name) == names[k].value) ||
            (Lookup(names, name) == NULL && forall j :: 0 <= j < |names| && names[j].present ==>
                                              Lower(names[j].key) != name)
  {
    if names != [] && (!names[0].present || Lower(names[0].key) != name) {
      var rest := names[1..];
      LookupIs(rest, name);
      if exists k :: FirstMatch(rest, name, k) && Lookup(rest, name) == rest[k].value {
        var k :| FirstMatch(rest, name, k) && Lookup(rest, name) == rest[k].value;
        assert FirstMatch(names, name, k + 1) by {
          forall j | 0 <= j < k + 1 && names[j].present ensures Lower(names[j].key) != name {
            assert j > 0 ==> names[j] == rest[j - 1];
          }
        }
      } else {
        forall j | 0 <= j < |names| && names[j].present ensures Lower(names[j].key) != name {
          assert j > 0 ==> names[j] == rest[j - 1];
        }
      }
    } else if names != [] {
      assert FirstMatch(names, name, 0);
    }
  }

  /** The first match of a list, where all of it is present. */
  lemma {:induction false} LookupAppend(es: seq<Name>, e: Name, name: seq<int>)
    requires forall i :: 0 <= i < |es| ==> es[i].value != NULL
    ensures Lookup(es + [e], name) ==
              if Lookup(es, name) != NULL then Lookup(es, name)
              else if e.present && Lower(e.key) == name then e.value else NULL
  {
    if es == [] {
      assert es + [e] == [e] && [e][1..] == [];
    } else {
      assert (es + [e])[0] == es[0] && (es + [e])[1..] == es[1..] + [e];
      LookupAppend(es[1..], e, name);
    }
  }

  /** Looking in one bucket is enough, if it is the right one. */
  lemma {:induction false} BucketLookup(names: seq<Name>, size: nat, i: nat, name: seq<int>)
    requires size > 0 && (forall j :: 0 <= j < |names| ==> names[j].value != NULL)
    requires forall j :: 0 <= j < |names| && names[j].present && Lower(names[j].key) == name ==>
               names[j].hash % size == i
    ensures Lookup(Bucket(names, size, i), name) == Lookup(names, name)
    ensures forall j :: 0 <= j < |Bucket(names, size, i)| ==>
              Bucket(names, size, i)[j].value != NULL && Bucket(names, size, i)[j].present
  {
    if names != [] {
      var k := |names| - 1;
      BucketLookup(names[..k], size, i, name);
      assert names == names[..k] + [names[k]];
      LookupAppend(names[..k], names[k], name);
      LookupAppend(Bucket(names[..k], size, i), names[k], name);
    }
  }
}
