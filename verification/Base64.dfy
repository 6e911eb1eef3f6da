/**
 Base64 of src/core/ngx_string.c (ngx_encode_base64_internal and
 ngx_decode_base64_internal), in both alphabets of RFC 4648.

 Shifts and masks of bytes are written as division and remainder.
 */
module Base64 {

  type Byte = x: int | 0 <= x < 256
  type Sextet = x: int | 0 <= x < 64

  const PAD: Byte := '=' as int
  const NONE: int := 77          // what the decoding tables hold for other characters

  datatype Result = Ok(value: seq<Byte>) | Error

  /** The character of six bits: section 4 of RFC 4648, or section 5 for `url`. */
  function Letter(v: Sextet, url: bool): Byte {
    if v < 26 then 'A' as int + v
    else if v < 52 then 'a' as int + (v - 26)
    else if v < 62 then '0' as int + (v - 52)
    else if v == 62 then (if url then '-' as int else '+' as int)
    else (if url then '_' as int else '/' as int)
  }

  /** The decoding tables. */
  function Value(c: Byte, url: bool): int {
    if 'A' as int <= c <= 'Z' as int then c - 'A' as int
    else if 'a' as int <= c <= 'z' as int then c - 'a' as int + 26
    else if '0' as int <= c <= '9' as int then c - '0' as int + 52
    else if c == (if url then '-' as int else '+' as int) then 62
    else if c == (if url then '_' as int else '/' as int) then 63
    else NONE
  }

  const UPPER := "ABCDEFGHIJKLMNOPQRSTUVWXYZ"
  const LOWER := "abcdefghijklmnopqrstuvwxyz"
  const FIGURES := "0123456789"

  /** The letters are those of the standard, in its order. */
  lemma LetterIs(v: Sextet, url: bool)
    ensures var alphabet := UPPER + LOWER + FIGURES + (if url then "-_" else "+/");
            |alphabet| == 64 && Letter(v, url) == alphabet[v] as int
  {
    Four(UPPER, LOWER, FIGURES, if url then "-_" else "+/", v);
    UpperAt(v);
    LowerAt(v - 26);
    FigureAt(v - 52);
  }

  lemma Four(a: string, b: string, c: string, d: string, v: Sextet)
    requires |a| == 26 && |b| == 26 && |c| == 10 && |d| == 2
    ensures |a + b + c + d| == 64
    ensures (a + b + c + d)[v] ==
              if v < 26 then a[v] else if v < 52 then b[v - 26] else if v < 62 then c[v - 52] else d[v - 62]
  {
  }

  lemma UpperAt(k: int)
    ensures |UPPER| == 26 && (0 <= k < 26 ==> UPPER[k] as int == 'A' as int + k)
  {
  }

  lemma LowerAt(k: int)
    ensures |LOWER| == 26 && (0 <= k < 26 ==> LOWER[k] as int == 'a' as int + k)
  {
  }

  lemma FigureAt(k: int)
    ensures |FIGURES| == 10 && (0 <= k < 10 ==> FIGURES[k] as int == '0' as int + k)
  {
  }

  lemma ValueOfLetter(v: Sextet, url: bool)
    ensures Value(Letter(v, url), url) == v && Letter(v, url) != PAD
  {
  }

  lemma LetterOfValue(c: Byte, url: bool)
    requires Value(c, url) != NONE
    ensures 0 <= Value(c, url) < 64 && Letter(Value(c, url), url) == c
  {
  }

  // ---------------------------------------------------------------- encoding

  // the four groups of six bits in three bytes

  function Bits1(a: Byte): Sextet { a / 4 }

  function Bits2(a: Byte, b: Byte): Sextet { a % 4 * 16 + b / 16 }

  function Bits3(b: Byte, c: Byte): Sextet { b % 16 * 4 + c / 64 }

  function Bits4(c: Byte): Sextet { c % 64 }

  function Group(a: Byte, b: Byte, c: Byte, url: bool): seq<Byte> {
    [Letter(Bits1(a), url), Letter(Bits2(a, b), url), Letter(Bits3(b, c), url), Letter(Bits4(c), url)]
  }

  /** What the last one or two bytes become. */
  function Tail(s: seq<Byte>, url: bool): seq<Byte>
    requires |s| < 3
  {
    if s == [] then []
    else if |s| == 1 then [Letter(Bits1(s[0]), url), Letter(Bits2(s[0], 0), url), PAD] + (if url then [] else [PAD])
    else
      [Letter(Bits1(s[0]), url), Letter(Bits2(s[0], s[1]), url), Letter(Bits3(s[1], 0), url)] +
          (if url then [] else [PAD])
  }

  function Encoded(s: seq<Byte>, url: bool): seq<Byte> {
    if |s| > 2 then Group(s[0], s[1], s[2], url) + Encoded(s[3..], url) else Tail(s, url)
  }

  /** ngx_base64_encoded_length */
  lemma {:induction false} EncodedLength(s: seq<Byte>)
    ensures |Encoded(s, false)| == (|s| + 2) / 3 * 4
  {
    hide Letter, Bits1, Bits2, Bits3, Bits4;
    if |s| > 2 {
      EncodedLength(s[3..]);
      assert (|s| + 2) / 3 == (|s| - 3 + 2) / 3 + 1;
    } else {
      assert |Tail(s, false)| == if s == [] then 0 else 4;
    }
  }

  /** ngx_encode_base64 and ngx_encode_base64url */
  method Encode(src: seq<Byte>, url: bool) returns (dst: seq<Byte>)
    ensures dst == Encoded(src, url)
  {
    hide Group, Tail, Letter;
    var s := 0;
    dst := [];
    while |src| - s > 2
      invariant 0 <= s <= |src| && dst + Encoded(src[s..], url) == Encoded(src, url)
    {
      ghost var rest := Encoded(src[s + 3..], url);
      assert src[s..][3..] == src[s + 3..];
      EncodeGroup(src, s, url);
      var more := Group(src[s], src[s + 1], src[s + 2], url);
      assert dst + (more + rest) == (dst + more) + rest;
      dst := dst + more;
      s := s + 3;
    }
    EncodeTail(src[s..], url);
    dst := dst + Tail(src[s..], url);
  }

  lemma EncodeGroup(src: seq<Byte>, s: nat, url: bool)
    requires s + 2 < |src|
    ensures Encoded(src[s..], url) == Group(src[s], src[s + 1], src[s + 2], url) + Encoded(src[s + 3..], url)
  {
    hide Group;
    assert src[s..][3..] == src[s + 3..];
  }

  lemma EncodeTail(s: seq<Byte>, url: bool)
    requires |s| <= 2
    ensures Encoded(s, url) == Tail(s, url)
  {
  }

  // ---------------------------------------------------------------- decoding

  /** How far the characters of the alphabet go: to the end or a pad; NONE in between
      is an error. */
  function Span(s: seq<Byte>, url: bool): (n: int)
    ensures -1 <= n <= |s|
  {
    if s == [] || s[0] == PAD then 0
    else if Value(s[0], url) == NONE then -1
    else
      var n := Span(s[1..], url);
      if n < 0 then -1 else n + 1
  }

  function First(a: int, b: int): Byte
    requires 0 <= a < 64 && 0 <= b < 64
  {
    a * 4 + b / 16
  }

  function Second(b: int, c: int): Byte
    requires 0 <= b < 64 && 0 <= c < 64
  {
    b % 16 * 16 + c / 4
  }

  function Third(c: int, d: int): Byte
    requires 0 <= c < 64 && 0 <= d < 64
  {
    c % 4 * 64 + d
  }

  /** The bytes of a sequence of sextets. */
  function Packed(v: seq<Sextet>): seq<Byte> {
    if |v| > 3 then [First(v[0], v[1]), Second(v[1], v[2]), Third(v[2], v[3])] + Packed(v[4..])
    else (if |v| > 1 then [First(v[0], v[1])] else []) + (if |v| > 2 then [Second(v[1], v[2])] else [])
  }

  function Sextets(s: seq<Byte>, url: bool): (v: seq<Sextet>)
    requires forall i :: 0 <= i < |s| ==> Value(s[i], url) != NONE
    ensures |v| == |s| && forall i :: 0 <= i < |s| ==> v[i] == Value(s[i], url)
  {
    if s == [] then [] else LetterOfValue(s[0], url); [Value(s[0], url)] + Sextets(s[1..], url)
  }

  lemma {:induction false} SpanIsValid(s: seq<Byte>, url: bool)
    ensures var n := Span(s, url); forall i :: 0 <= i < n ==> Value(s[i], url) != NONE && s[i] != PAD
    ensures Span(s, url) >= 0 && Span(s, url) < |s| ==> s[Span(s, url)] == PAD
  {
    if s != [] && s[0] != PAD && Value(s[0], url) != NONE {
      SpanIsValid(s[1..], url);
      forall i | 0 <= i < Span(s, url) ensures Value(s[i], url) != NONE && s[i] != PAD {
        if i > 0 {
          assert s[i] == s[1..][i - 1];
        }
      }
    }
  }

  function Decoded(s: seq<Byte>, url: bool): Result {
    var n := Span(s, url);
    if n < 0 || n % 4 == 1 then Error
    else SpanIsValid(s, url); Ok(Packed(Sextets(s[..n], url)))
  }

  lemma {:induction false} SpanExactly(s: seq<Byte>, url: bool, n: nat)
    requires n <= |s| && (forall i :: 0 <= i < n ==> s[i] != PAD) && (n < |s| ==> s[n] == PAD)
    ensures Span(s, url) == if forall i :: 0 <= i < n ==> Value(s[i], url) != NONE then n else -1
  {
    hide Value;
    if n > 0 && Value(s[0], url) != NONE {
      SpanExactly(s[1..], url, n - 1);
      assert forall i :: 0 < i < n ==> s[i] == s[1..][i - 1];
      assert forall i :: 0 <= i < n - 1 ==> s[1..][i] == s[i + 1];
    }
  }

  lemma {:induction false} PackedLength(v: seq<Sextet>)
    ensures |Packed(v)| == 6 * |v| / 8
  {
    hide First, Second, Third;
    if |v| > 3 {
      PackedLength(v[4..]);
    }
  }

  /** An input is refused exactly if, before the first pad, there is a character outside the
      alphabet or one character is left over; otherwise as many bytes come out as there are
      whole ones. */
  lemma DecodedExactly(s: seq<Byte>, url: bool, n: nat)
    requires n <= |s| && (forall i :: 0 <= i < n ==> s[i] != PAD) && (n < |s| ==> s[n] == PAD)
    ensures Decoded(s, url).Error? <==> n % 4 == 1 || exists i :: 0 <= i < n && Value(s[i], url) == NONE
    ensures Decoded(s, url).Ok? ==> |Decoded(s, url).value| == 6 * n / 8
  {
    hide Value, Span, Packed, Sextets;
    SpanExactly(s, url, n);
    if Decoded(s, url).Ok? {
      SpanIsValid(s, url);
      PackedLength(Sextets(s[..n], url));
    }
  }

  /** ngx_decode_base64 and ngx_decode_base64url */
  method Decode(src: seq<Byte>, url: bool) returns (r: Result)
    ensures r == Decoded(src, url)
  {
    hide Packed, Value;
    var len := Measure(src, url);
    if len < 0 || len % 4 == 1 {
      return Error;
    }
    SpanIsValid(src, url);
    var d := Unpack(src[..len], url);
    return Ok(d);
  }

  /** The length up to a pad, or -1 for a character outside the alphabet. */
  method Measure(src: seq<Byte>, url: bool) returns (len: int)
    ensures len == Span(src, url)
  {
    hide Value;
    len := 0;
    while len < |src|
      invariant 0 <= len <= |src|
      invariant var n := Span(src[len..], url); Span(src, url) == if n < 0 then -1 else len + n
    {
      assert src[len..][0] == src[len] && src[len..][1..] == src[len + 1..];
      if src[len] == PAD {
        break;
      }
      if Value(src[len], url) == NONE {
        return -1;
      }
      len := len + 1;
    }
  }

  /** Four characters to three bytes. */
  method Unpack(src: seq<Byte>, url: bool) returns (d: seq<Byte>)
    requires forall i :: 0 <= i < |src| ==> Value(src[i], url) != NONE
    ensures d == Packed(Sextets(src, url))
  {
    hide Packed, Value, First, Second, Third, Sextets;
    ghost var v := Sextets(src, url);
    var s := 0;
    d := [];
    while |src| - s > 3
      invariant 0 <= s <= |src| && d + Packed(v[s..]) == Packed(v)
    {
      ThreeBytes(v, s);
      ghost var rest := Packed(v[s + 4..]);
      var a, b, c, e := Value(src[s], url), Value(src[s + 1], url), Value(src[s + 2], url), Value(src[s + 3], url);
      var more := [First(a, b), Second(b, c), Third(c, e)];
      assert d + (more + rest) == (d + more) + rest;
      d := d + more;
      s := s + 4;
    }
    LastBytes(v[s..]);
    if |src| - s > 1 {
      d := d + [First(Value(src[s], url), Value(src[s + 1], url))];
    }
    if |src| - s > 2 {
      d := d + [Second(Value(src[s + 1], url), Value(src[s + 2], url))];
    }
  }

  lemma ThreeBytes(v: seq<Sextet>, s: nat)
    requires s + 3 < |v|
    ensures Packed(v[s..]) == [First(v[s], v[s + 1]), Second(v[s + 1], v[s + 2]), Third(v[s + 2], v[s + 3])] +
              Packed(v[s + 4..])
  {
    assert v[s..][4..] == v[s + 4..];
  }

  lemma LastBytes(v: seq<Sextet>)
    requires |v| <= 3
    ensures Packed(v) == (if |v| > 1 then [First(v[0], v[1])] else []) + (if |v| > 2 then [Second(v[1], v[2])] else [])
  {
  }

  // -------------------------------------------------------------- round trip

  /** The sextets of an encoding, without the pads. */
  function Split(s: seq<Byte>): (v: seq<Sextet>) {
    if |s| > 2 then [Bits1(s[0]), Bits2(s[0], s[1]), Bits3(s[1], s[2]), Bits4(s[2])] + Split(s[3..])
    else if s == [] then []
    else if |s| == 1 then [Bits1(s[0]), Bits2(s[0], 0)]
    else [Bits1(s[0]), Bits2(s[0], s[1]), Bits3(s[1], 0)]
  }

  /** A number written with these digits, the first one being the highest. */
  function Number(digits: seq<int>, base: int): int {
    if digits == [] then 0 else Number(digits[..|digits| - 1], base) * base + digits[|digits| - 1]
  }

  lemma NumberThree(a: int, b: int, c: int, base: int)
    ensures Number([a], base) == a && Number([a, b], base) == a * base + b
    ensures Number([a, b, c], base) == (a * base + b) * base + c
  {
    assert [a, b, c][..2] == [a, b] && [a, b][..1] == [a] && [a][..0] == [];
    assert Number([a], base) == 0 * base + a;
  }

  lemma NumberFour(a: int, b: int, c: int, d: int, base: int)
    ensures Number([a, b, c, d], base) == ((a * base + b) * base + c) * base + d
  {
    NumberThree(a, b, c, base);
    assert [a, b, c, d][..3] == [a, b, c];
  }

  /** Four sextets are the same number as the three bytes they stand for; what is left at
      the end is filled up with zero bits. */
  lemma SplitMeans(s: seq<Byte>)
    ensures |s| >= 3 ==>
              |Split(s)| >= 4 && Split(s)[4..] == Split(s[3..]) && Number(Split(s)[..4], 64) == Number(s[..3], 256)
    ensures |s| == 2 ==> |Split(s)| == 3 && Number(Split(s), 64) == Number(s, 256) * 4
    ensures |s| == 1 ==> |Split(s)| == 2 && Number(Split(s), 64) == Number(s, 256) * 16
    ensures s == [] ==> Split(s) == []
  {
    if |s| >= 3 {
      var v := Split(s);
      assert v[..4] == [v[0], v[1], v[2], v[3]] && s[..3] == [s[0], s[1], s[2]] && v[4..] == Split(s[3..]);
      NumberFour(v[0], v[1], v[2], v[3], 64);
      NumberThree(s[0], s[1], s[2], 256);
    } else if |s| == 2 {
      var v := Split(s);
      assert v == [v[0], v[1], v[2]] && s == [s[0], s[1]];
      NumberThree(v[0], v[1], v[2], 64);
      NumberThree(s[0], s[1], 0, 256);
    } else if |s| == 1 {
      var v := Split(s);
      assert v == [v[0], v[1]] && s == [s[0]];
      NumberThree(v[0], v[1], 0, 64);
      NumberThree(s[0], 0, 0, 256);
    }
  }

  lemma {:induction false} PackedSplit(s: seq<Byte>)
    ensures Packed(Split(s)) == s && |Split(s)| % 4 != 1
  {
    hide First, Second, Third, Bits1, Bits2, Bits3, Bits4;
    if |s| > 2 {
      PackedSplit(s[3..]);
      GroupSplit(s);
    } else if |s| == 2 {
      Regroup(s[0], s[1], 0);
      LastBytes(Split(s));
      assert s == [s[0], s[1]];
    } else if |s| == 1 {
      Regroup(s[0], 0, 0);
      LastBytes(Split(s));
      assert s == [s[0]];
    }
  }

  lemma GroupSplit(s: seq<Byte>)
    requires |s| > 2
    ensures Packed(Split(s)) == [s[0], s[1], s[2]] + Packed(Split(s[3..])) && |Split(s)| == 4 + |Split(s[3..])|
    ensures s == [s[0], s[1], s[2]] + s[3..]
  {
    hide *;
    SplitIs(s);
    PackedGroup(Bits1(s[0]), Bits2(s[0], s[1]), Bits3(s[1], s[2]), Bits4(s[2]), Split(s[3..]));
    Regroup(s[0], s[1], s[2]);
  }

  lemma SplitIs(s: seq<Byte>)
    requires |s| > 2
    ensures Split(s) == [Bits1(s[0]), Bits2(s[0], s[1]), Bits3(s[1], s[2]), Bits4(s[2])] + Split(s[3..])
  {
    hide Bits1, Bits2, Bits3, Bits4;
  }

  lemma PackedGroup(a: Sextet, b: Sextet, c: Sextet, d: Sextet, rest: seq<Sextet>)
    ensures Packed([a, b, c, d] + rest) == [First(a, b), Second(b, c), Third(c, d)] + Packed(rest)
  {
    hide First, Second, Third;
    assert ([a, b, c, d] + rest)[4..] == rest;
  }

  lemma Regroup(a: Byte, b: Byte, c: Byte)
    ensures First(Bits1(a), Bits2(a, b)) == a && Second(Bits2(a, b), Bits3(b, c)) == b
              && Third(Bits3(b, c), Bits4(c)) == c
  {
  }

  /** As many sextets as eight bits a byte take, the last one begun. */
  lemma {:induction false} SplitLength(s: seq<Byte>)
    ensures |Split(s)| == (8 * |s| + 5) / 6
  {
    hide Bits1, Bits2, Bits3, Bits4;
    if |s| > 2 {
      SplitLength(s[3..]);
    }
  }

  /** How many pads there are behind the letters. */
  function Pads(n: nat, url: bool): nat {
    if n % 3 == 0 then 0 else if n % 3 == 1 then (if url then 1 else 2) else (if url then 0 else 1)
  }

  /** The letters of the sextets and then the pads, and nothing else. */
  lemma {:induction false} EncodedIsLetters(s: seq<Byte>, url: bool)
    ensures var e, v := Encoded(s, url), Split(s);
            && |e| == |v| + Pads(|s|, url)
            && (forall i :: 0 <= i < |v| ==> e[i] == Letter(v[i], url))
            && (forall i :: |v| <= i < |e| ==> e[i] == PAD)
  {
    hide Letter, Bits1, Bits2, Bits3, Bits4;
    if |s| > 2 {
      EncodedIsLetters(s[3..], url);
      var e, v, e', v' := Encoded(s, url), Split(s), Encoded(s[3..], url), Split(s[3..]);
      forall i | 0 <= i < |e| ensures if i < |v| then e[i] == Letter(v[i], url) else e[i] == PAD {
        if i >= 4 {
          assert e[i] == e'[i - 4] && (i < |v| ==> v[i] == v'[i - 4]);
        }
      }
    }
  }

  lemma {:induction false} SpanOfLetters(e: seq<Byte>, v: seq<Sextet>, url: bool)
    requires |v| <= |e| && (forall i :: 0 <= i < |v| ==> e[i] == Letter(v[i], url)) && (|v| < |e| ==> e[|v|] == PAD)
    ensures Span(e, url) == |v|
  {
    if v != [] {
      ValueOfLetter(v[0], url);
      SpanOfLetters(e[1..], v[1..], url);
    }
  }

  /** Decoding undoes encoding, for every input and in both alphabets. */
  lemma RoundTrip(s: seq<Byte>, url: bool)
    ensures Decoded(Encoded(s, url), url) == Ok(s)
  {
    var e, v := Encoded(s, url), Split(s);
    EncodedIsLetters(s, url);
    SpanOfLetters(e, v, url);
    SpanIsValid(e, url);
    var w := Sextets(e[..|v|], url);
    forall i | 0 <= i < |v| ensures w[i] == v[i] {
      ValueOfLetter(v[i], url);
    }
    assert w == v;
    PackedSplit(s);
    hide Packed, Split, Encoded;
  }
}
