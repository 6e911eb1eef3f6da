/**
 Percent-encoding of src/core/ngx_string.c: ngx_escape_uri with its tables, and
 ngx_unescape_uri.
 */
module UriEscape {
  import opened Base64
  import opened Common

  const PERCENT: Byte := '%' as int
  const PLUS: Byte := '+' as int
  const SPACE: Byte := ' ' as int
  const QUESTION: Byte := '?' as int

  // -------------------------------------------------------------- the tables

  datatype Type = Uri | Args | Component | Html | Refresh | Memcached | MailAuth | Form

  /** The i-th word of a table. */
  function Word(t: Type, i: nat): int
    requires i < 8
  {
    if i == 0 then 0xffffffff
    else if i == 1 then
      match t {
        case Uri => 0x80000029
        case Args => 0x88000869
        case Component => 0xfc009fff
        case Html => 0x000000ad
        case Refresh => 0x00000085
        case Memcached => 0x00000021
        case MailAuth => 0x00000021
        case Form => 0xfc009ffe
      }
    else if i == 2 then
      (if t == Component || t == Form then 0x78000001 else 0x00000000)
    else if i == 3 then
      match t {
        case Component => 0xb8000001
        case Form => 0xf8000001
        case Memcached => 0x00000000
        case MailAuth => 0x00000000
        case _ => 0x80000000
      }
    else
      (if t == Memcached || t == MailAuth then 0x00000000 else 0xffffffff)
  }

  lemma PowersOfTwo()
    ensures Pow2(8) == 256 && Pow2(16) == 65536 && Pow2(24) == 16777216 && Pow2(31) == 2147483648
  {
  }

  /** The masks of a word, written out. */
  function Mask(k: nat): (r: nat)
    requires k < 32
    ensures r == Pow2(k)
  {
    PowersOfTwo();
    if k == 0 then 1 else if k == 1 then 2 else if k == 2 then 4 else if k == 3 then 8
    else if k == 4 then 16 else if k == 5 then 32 else if k == 6 then 64 else if k == 7 then 128
    else if k == 8 then 256 else if k == 9 then 512 else if k == 10 then 1024 else if k == 11 then 2048
    else if k == 12 then 4096 else if k == 13 then 8192 else if k == 14 then 16384 else if k == 15 then 32768
    else if k == 16 then 65536 else if k == 17 then 131072 else if k == 18 then 262144 else if k == 19 then 524288
    else if k == 20 then 1048576 else if k == 21 then 2097152 else if k == 22 then 4194304 else if k == 23 then 8388608
    else if k == 24 then 16777216 else if k == 25 then 33554432 else if k == 26 then 67108864
        else if k == 27 then 134217728
    else if k == 28 then 268435456 else if k == 29 then 536870912 else if k == 30 then 1073741824 else 2147483648
  }

  /** Bit k of a word. */
  predicate Marked(w: int, k: nat)
    requires k < 32
  {
    w / Mask(k) % 2 == 1
  }

  /** The table says that the byte is to be escaped. */
  predicate Escaped(t: Type, ch: Byte) { Marked(Word(t, ch / 32), ch % 32) }

  /** Section 2.3 of RFC 3986. */
  predicate Unreserved(ch: Byte) {
    || 'A' as int <= ch <= 'Z' as int || 'a' as int <= ch <= 'z' as int || '0' as int <= ch <= '9' as int
    || ch == '-' as int || ch == '.' as int || ch == '_' as int || ch == '~' as int
  }

  /** The component table is that of the unreserved characters. */
  lemma ComponentIsUnreserved(ch: Byte)
    ensures Escaped(Component, ch) <==> !Unreserved(ch)
  {
    hide Marked;
    var i, k := ch / 32, ch % 32;
    if i == 1 {
      Punctuation(k);
    } else if i == 2 {
      UpperCase(k);
    } else if i == 3 {
      LowerCase(k);
    } else {
      AllMarked(k);
    }
  }

  lemma AllMarked(k: nat)
    requires k < 32
    ensures Marked(0xffffffff, k)
  {
    hide Pow2;
  }

  lemma Punctuation(k: nat)
    requires k < 32
    ensures Marked(0xfc009fff, k) <==> !Unreserved(32 + k)
  {
    hide Pow2;
  }

  lemma UpperCase(k: nat)
    requires k < 32
    ensures Marked(0x78000001, k) <==> !Unreserved(64 + k)
  {
    hide Pow2;
  }

  lemma LowerCase(k: nat)
    requires k < 32
    ensures Marked(0xb8000001, k) <==> !Unreserved(96 + k)
  {
    hide Pow2;
  }

  /** Every table but one escapes the percent sign. */
  lemma PercentIsEscaped(t: Type)
    ensures Escaped(t, PERCENT) <==> t != Refresh
  {
  }

  /** What each kind of escaping is for, in characters. */
  predicate Listed(t: Type, ch: Byte) {
    var c, control := ch as char, ch < 0x20;
    match t
    case Uri => control || ch >= 0x7f || c in {' ', '#', '%', '?'}
    case Args => control || ch >= 0x7f || c in {' ', '#', '%', '&', '+', ';', '?'}
    case Component => !Unreserved(ch)
    case Html => control || ch >= 0x7f || c in {' ', '"', '#', '%', '\''}
    case Refresh => control || ch >= 0x7f || c in {' ', '"', '\''}
    case Memcached => control || c in {' ', '%'}
    case MailAuth => control || c in {' ', '%'}
    case Form => ch != SPACE && (!Unreserved(ch) || c == '~')
  }

  /** The bits of every table are these characters and no others. */
  lemma TableExactly(t: Type, ch: Byte)
    ensures Escaped(t, ch) <==> Listed(t, ch)
  {
    hide Marked;
    var i, k := ch / 32, ch % 32;
    assert ch == 32 * i + k;
    AllMarked(k);
    NoneMarked(k);
    if i == 1 {
      match t
      case Uri => UriMarks(k);
      case Args => ArgsMarks(k);
      case Html => HtmlMarks(k);
      case Refresh => RefreshMarks(k);
      case Component => Punctuation(k);
      case Form => FormMarks(k);
      case _ => MemcachedMarks(k);
    } else if i == 2 {
      UpperCase(k);
    } else if i == 3 {
      LowerCase(k);
      DeleteMarked(k);
      TildeMarked(k);
    }
  }

  lemma NoneMarked(k: nat)
    requires k < 32
    ensures !Marked(0, k)
  {
    hide Pow2;
  }

  lemma DeleteMarked(k: nat)
    requires k < 32
    ensures Marked(0x80000000, k) <==> k == 31
  {
    hide Pow2;
  }

  lemma TildeMarked(k: nat)
    requires k < 32
    ensures Marked(0xf8000001, k) <==> k == 0 || k >= 27
  {
    hide Pow2;
  }

  lemma UriMarks(k: nat)
    requires k < 32
    ensures Marked(0x80000029, k) <==> k in {0, 3, 5, 31}
  {
    hide Pow2;
  }

  lemma ArgsMarks(k: nat)
    requires k < 32
    ensures Marked(0x88000869, k) <==> k in {0, 3, 5, 6, 11, 27, 31}
  {
    hide Pow2;
  }

  lemma HtmlMarks(k: nat)
    requires k < 32
    ensures Marked(0x000000ad, k) <==> k in {0, 2, 3, 5, 7}
  {
    hide Pow2;
  }

  lemma RefreshMarks(k: nat)
    requires k < 32
    ensures Marked(0x00000085, k) <==> k in {0, 2, 7}
  {
    hide Pow2;
  }

  lemma MemcachedMarks(k: nat)
    requires k < 32
    ensures Marked(0x00000021, k) <==> k in {0, 5}
  {
    hide Pow2;
  }

  lemma FormMarks(k: nat)
    requires k < 32
    ensures Marked(0xfc009ffe, k) <==> k != 0 && !Unreserved(32 + k)
  {
    hide Pow2;
  }

  lemma FormTable()
    ensures Escaped(Form, PLUS) && !Escaped(Form, SPACE) && !Escaped(Refresh, '4' as int)
              && !Escaped(Refresh, '1' as int)
  {
  }

  // ---------------------------------------------------------------- escaping

  function Hex(v: int): Byte
    requires 0 <= v < 16
  {
    if v < 10 then '0' as int + v else 'a' as int + (v - 10)
  }

  const DIGITS := "0123456789abcdef"

  lemma HexIs(v: int)
    requires 0 <= v < 16
    ensures Hex(v) == DIGITS[v] as int
  {
  }

  /** What one byte becomes. */
  function EscapeByte(t: Type, ch: Byte): seq<Byte> {
    if Escaped(t, ch) then [PERCENT, Hex(ch / 16), Hex(ch % 16)]
    else if t == Form && ch == SPACE then [PLUS]
    else [ch]
  }

  function Escape(t: Type, s: seq<Byte>): seq<Byte> {
    if s == [] then [] else EscapeByte(t, s[0]) + Escape(t, s[1..])
  }

  /** How many bytes are to be escaped. */
  function Count(t: Type, s: seq<Byte>): nat {
    if s == [] then 0 else (if Escaped(t, s[0]) then 1 else 0) + Count(t, s[1..])
  }

  /** The counting pass predicts the length, and zero means that nothing changes. */
  lemma {:induction false} CountPredicts(t: Type, s: seq<Byte>)
    ensures |Escape(t, s)| == |s| + 2 * Count(t, s)
    ensures Count(t, s) == 0 && t != Form ==> Escape(t, s) == s
  {
    hide Escaped;
    if s != [] {
      CountPredicts(t, s[1..]);
      assert s == [s[0]] + s[1..];
    }
  }

  /** ngx_escape_uri without a destination */
  method CountEscapes(src: seq<Byte>, t: Type) returns (n: nat)
    ensures n == Count(t, src)
  {
    hide Escaped;
    n := 0;
    var i := 0;
    while i < |src|
      invariant 0 <= i <= |src| && n + Count(t, src[i..]) == Count(t, src)
    {
      assert src[i..][0] == src[i] && src[i..][1..] == src[i + 1..];
      if Escaped(t, src[i]) {
        n := n + 1;
      }
      i := i + 1;
    }
  }

  /** ngx_escape_uri */
  method EscapeUri(src: seq<Byte>, t: Type) returns (dst: seq<Byte>)
    ensures dst == Escape(t, src)
  {
    hide Escaped, Hex;
    dst := [];
    var i := 0;
    while i < |src|
      invariant 0 <= i <= |src| && dst + Escape(t, src[i..]) == Escape(t, src)
    {
      assert src[i..][0] == src[i] && src[i..][1..] == src[i + 1..];
      ghost var rest := Escape(t, src[i + 1..]);
      assert dst + (EscapeByte(t, src[i]) + rest) == (dst + EscapeByte(t, src[i])) + rest;
      if Escaped(t, src[i]) {
        dst := dst + [PERCENT, Hex(src[i] / 16), Hex(src[i] % 16)];
      } else if t == Form && src[i] == SPACE {
        dst := dst + [PLUS];
      } else {
        dst := dst + [src[i]];
      }
      i := i + 1;
    }
  }

  // -------------------------------------------------------------- unescaping

  /** NGX_UNESCAPE_URI, NGX_UNESCAPE_REDIRECT and NGX_UNESCAPE_WWW_FORM */
  datatype Flags = Flags(uri: bool, redirect: bool, form: bool)

  const PLAIN := Flags(false, false, false)

  /** `digit` is the first digit of a quoted byte as it was written. */
  datatype Mode = Usual | Quoted | QuotedSecond(decoded: int, digit: Byte)

  function Lower(ch: Byte): Byte { if ch / 32 % 2 == 1 then ch else ch + 32 }

  /** The value of a hexadecimal digit, or -1. */
  function Digit(ch: Byte): int {
    if '0' as int <= ch <= '9' as int then ch - '0' as int
    else if 'a' as int <= Lower(ch) <= 'f' as int then Lower(ch) - 'a' as int + 10
    else -1
  }

  const UPPER_DIGITS := "0123456789ABCDEF"

  /** A digit counts in either case, and nothing else does. */
  lemma DigitExactly(ch: Byte)
    ensures var d := Digit(ch);
            if d < 0 then forall i :: 0 <= i < 16 ==> ch != DIGITS[i] as int && ch != UPPER_DIGITS[i] as int
            else d < 16 && (ch == DIGITS[d] as int || ch == UPPER_DIGITS[d] as int)
  {
  }

  predicate Printable(ch: int) { PERCENT < ch < 0x7f }

  /** What a decoded byte becomes; only a byte with a letter for its second digit can
      be a question mark, which ends the path. */
  function Unquoted(ch: Byte, first: Byte, second: Byte, f: Flags): (seq<Byte>, bool) {
    var letter := !('0' as int <= second <= '9' as int);
    if letter && (f.uri || f.redirect) && ch == QUESTION then ([ch], true)
    else if letter && f.uri then ([ch], false)
    else if f.redirect && !Printable(ch) then ([PERCENT, first, second], false)
    else ([ch], false)
  }

  /** One byte: what is written, the next mode, and whether this is the end. */
  function Step(ch: Byte, mode: Mode, f: Flags): (seq<Byte>, Mode, bool) {
    match mode {
      case Usual =>
        if ch == PLUS && f.form then ([SPACE], Usual, false)
        else if ch == QUESTION && (f.uri || f.redirect) then ([ch], Usual, true)
        else if ch == PERCENT then ([], Quoted, false)
        else ([ch], Usual, false)
      case Quoted =>
        if Digit(ch) >= 0 then ([], QuotedSecond(Digit(ch), ch), false) else ([PERCENT, ch], Usual, false)
      case QuotedSecond(decoded, first) =>
        if Digit(ch) >= 0 && 0 <= decoded < 16 then
          var (w, stop) := Unquoted(decoded * 16 + Digit(ch), first, ch, f);
          (w, Usual, stop)
        else ([PERCENT, first, ch], Usual, false)
    }
  }

  /** All that is written, and how many bytes were read. */
  function Run(s: seq<Byte>, mode: Mode, f: Flags): (seq<Byte>, nat) {
    if s == [] then ([], 0)
    else
      var (w, next, stop) := Step(s[0], mode, f);
      if stop then (w, 1)
      else
        var (rest, n) := Run(s[1..], next, f);
        (w + rest, n + 1)
  }

  function Unescape(s: seq<Byte>, f: Flags): seq<Byte> { Run(s, Usual, f).0 }

  /** ngx_unescape_uri */
  method UnescapeUri(src: seq<Byte>, f: Flags) returns (dst: seq<Byte>, read: nat)
    ensures (dst, read) == Run(src, Usual, f) == ByUnits(src, f)
  {
    hide Step, ByUnits;
    RunByUnits(src, f);
    dst, read := [], 0;
    var mode := Usual;
    assert src[0..] == src && [] + Run(src, Usual, f).0 == Run(src, Usual, f).0;
    while read < |src|
      invariant 0 <= read <= |src|
      invariant var (rest, n) := Run(src[read..], mode, f); Run(src, Usual, f) == (dst + rest, read + n)
    {
      assert src[read..][0] == src[read] && src[read..][1..] == src[read + 1..];
      ghost var was := dst;
      var w, next, stop := Feed(src[read], mode, f);
      ghost var rest := Run(src[read + 1..], next, f).0;
      assert was + (w + rest) == (was + w) + rest;
      dst := dst + w;
      read := read + 1;
      mode := next;
      if stop {
        return;
      }
    }
    assert src[read..] == [] && dst + [] == dst;
  }

  /** The body of the loop. */
  method Feed(ch: Byte, mode: Mode, f: Flags) returns (w: seq<Byte>, next: Mode, stop: bool)
    ensures (w, next, stop) == Step(ch, mode, f)
  {
    w, next, stop := [], Usual, false;
    match mode {
      case Usual =>
        if ch == PLUS && f.form {
          w := [SPACE];
        } else if ch == QUESTION && (f.uri || f.redirect) {
          w, stop := [ch], true;
        } else if ch == PERCENT {
          next := Quoted;
        } else {
          w := [ch];
        }
      case Quoted =>
        if '0' as int <= ch <= '9' as int {
          next := QuotedSecond(ch - '0' as int, ch);
        } else if 'a' as int <= Lower(ch) <= 'f' as int {
          next := QuotedSecond(Lower(ch) - 'a' as int + 10, ch);
        } else {
          w := [PERCENT, ch];
        }
      case QuotedSecond(decoded, first) =>
        if 0 <= decoded < 16 && '0' as int <= ch <= '9' as int {
          var c := decoded * 16 + (ch - '0' as int);
          if f.redirect && !Printable(c) {
            w := [PERCENT, first, ch];
          } else {
            w := [c];
          }
        } else if 0 <= decoded < 16 && 'a' as int <= Lower(ch) <= 'f' as int {
          var c := decoded * 16 + (Lower(ch) - 'a' as int + 10);
          if f.uri {
            w, stop := [c], c == QUESTION;
          } else if f.redirect {
            if c == QUESTION {
              w, stop := [c], true;
            } else if Printable(c) {
              w := [c];
            } else {
              w := [PERCENT, first, ch];
            }
          } else {
            w := [c];
          }
        } else {
          w := [PERCENT, first, ch];
        }
    }
  }

  function Pending(mode: Mode): nat {
    match mode
    case Usual => 0
    case Quoted => 1
    case QuotedSecond(_, _) => 2
  }

  /** Unescaping can be done in place: it never writes ahead of what it has read. */
  lemma {:induction false} NeverAhead(s: seq<Byte>, mode: Mode, f: Flags)
    ensures var (w, n) := Run(s, mode, f); |w| <= n + Pending(mode) && n <= |s|
  {
    if s != [] {
      NeverAhead(s[1..], Step(s[0], mode, f).1, f);
    }
  }

  // ------------------------------------------------- the text in its units

  /** A byte by itself, an escape, one that is not, or one that is cut off. */
  datatype Unit = Raw(ch: Byte) | Coded(ch: Byte, text: seq<Byte>) | Broken(text: seq<Byte>) | Dangling(text: seq<Byte>)

  function Source(u: Unit): seq<Byte> { if u.Raw? then [u.ch] else u.text }

  function Front(s: seq<Byte>): Unit
    requires s != []
  {
    if s[0] != PERCENT then Raw(s[0])
    else if |s| == 1 then Dangling(s)
    else if Digit(s[1]) < 0 then Broken(s[..2])
    else if |s| == 2 then Dangling(s)
    else if Digit(s[2]) < 0 then Broken(s[..3])
    else DigitBound(s[1]); DigitBound(s[2]); Coded(Digit(s[1]) * 16 + Digit(s[2]), s[..3])
  }

  /** A question mark, escaped or not, ends a path. */
  predicate Ends(u: Unit, f: Flags) {
    (f.uri || f.redirect) && (u.Raw? || u.Coded?) && u.ch == QUESTION
  }

  /** What is made of it: an escape is resolved, except that of a byte that may not stand
      in a redirect.  (With both flags, such a byte is resolved if its last digit is a
      letter.) */
  function Shown(u: Unit, f: Flags): seq<Byte> {
    match u
    case Raw(ch) => if ch == PLUS && f.form then [SPACE] else [ch]
    case Coded(ch, text) =>
      if f.redirect && (ch <= PERCENT || ch >= 0x7f) && !(f.uri && ch % 16 >= 10) then text else [ch]
    case Broken(text) => text
    case Dangling(_) => []
  }

  lemma FrontLength(s: seq<Byte>)
    requires s != []
    ensures 0 < |Source(Front(s))| <= |s| && s[..|Source(Front(s))|] == Source(Front(s))
  {
    hide Digit;
  }

  /** Unit by unit, up to the first that ends the path. */
  function ByUnits(s: seq<Byte>, f: Flags): (seq<Byte>, nat) {
    if s == [] then ([], 0)
    else
      FrontLength(s);
      var u := Front(s);
      if Ends(u, f) then (Shown(u, f), |Source(u)|)
      else
        var (rest, n) := ByUnits(s[|Source(u)|..], f);
        (Shown(u, f) + rest, |Source(u)| + n)
  }

  lemma RunNext(ch: Byte, rest: seq<Byte>, mode: Mode, f: Flags)
    ensures var (w, next, stop) := Step(ch, mode, f);
            Run([ch] + rest, mode, f) == if stop then (w, 1) else (w + Run(rest, next, f).0, Run(rest, next, f).1 + 1)
  {
    hide Step;
    assert ([ch] + rest)[1..] == rest;
  }

  lemma RunFront(s: seq<Byte>, f: Flags)
    requires s != []
    ensures var u := Front(s);
            var n := |Source(u)|;
            && n <= |s|
            && Run(s, Usual, f) ==
               if Ends(u, f) then (Shown(u, f), n)
               else (Shown(u, f) + Run(s[n..], Usual, f).0, n + Run(s[n..], Usual, f).1)
  {
    FrontLength(s);
    assert s == [s[0]] + s[1..];
    RunNext(s[0], s[1..], Usual, f);
    if s[0] == PERCENT {
      RunBehind(s, f);
      assert [] + Run(s[1..], Quoted, f).0 == Run(s[1..], Quoted, f).0;
    }
    hide Front, Shown, Run;
  }

  lemma RunBehind(s: seq<Byte>, f: Flags)
    requires s != [] && s[0] == PERCENT
    ensures var u := Front(s);
            var n := |Source(u)|;
            && n <= |s|
            && Run(s[1..], Quoted, f) ==
               if Ends(u, f) then (Shown(u, f), n - 1)
               else (Shown(u, f) + Run(s[n..], Usual, f).0, n - 1 + Run(s[n..], Usual, f).1)
  {
    hide Digit, Run;
    FrontLength(s);
    if |s| == 1 {
      RunNone(Quoted, f);
      RunNone(Usual, f);
      assert s[1..] == [] && [] + Run([], Usual, f).0 == [];
    } else {
      DigitBound(s[1]);
      assert s[1..] == [s[1]] + s[2..];
      RunNext(s[1], s[2..], Quoted, f);
      if Digit(s[1]) >= 0 {
        RunThird(s, f);
        var w := Run(s[2..], QuotedSecond(Digit(s[1]), s[1]), f).0;
        assert [] + w == w;
      } else {
        assert s[..2] == [s[0], s[1]];
      }
    }
  }

  lemma RunThird(s: seq<Byte>, f: Flags)
    requires |s| > 1 && s[0] == PERCENT && Digit(s[1]) >= 0
    ensures var u := Front(s);
            var n := |Source(u)|;
            && n <= |s|
            && Run(s[2..], QuotedSecond(Digit(s[1]), s[1]), f) ==
               if Ends(u, f) then (Shown(u, f), n - 2)
               else (Shown(u, f) + Run(s[n..], Usual, f).0, n - 2 + Run(s[n..], Usual, f).1)
  {
    hide Run;
    FrontLength(s);
    DigitBound(s[1]);
    var mode := QuotedSecond(Digit(s[1]), s[1]);
    if |s| == 2 {
      RunNone(mode, f);
      RunNone(Usual, f);
      assert s[2..] == [] && [] + Run([], Usual, f).0 == [];
    } else {
      DigitBound(s[2]);
      assert s[2..] == [s[2]] + s[3..];
      assert s[..3] == [s[0], s[1], s[2]];
      RunNext(s[2], s[3..], mode, f);
      if Digit(s[2]) >= 0 {
        LetterLast(s[1], s[2]);
      }
      hide Digit;
    }
  }

  lemma LetterLast(a: Byte, b: Byte)
    requires 0 <= Digit(a) < 16 && 0 <= Digit(b) < 16
    ensures (Digit(a) * 16 + Digit(b)) % 16 >= 10 <==> !('0' as int <= b <= '9' as int)
    ensures Digit(a) * 16 + Digit(b) == QUESTION ==> !('0' as int <= b <= '9' as int)
  {
  }

  lemma RunNone(mode: Mode, f: Flags)
    ensures Run([], mode, f) == ([], 0)
  {
  }

  /** The state machine does the same, whatever the flags. */
  lemma {:induction false} RunByUnits(s: seq<Byte>, f: Flags)
    ensures Run(s, Usual, f) == ByUnits(s, f)
    decreases |s|
  {
    hide Front, Shown, Run;
    if s == [] {
      RunNone(Usual, f);
    } else {
      RunFront(s, f);
      FrontLength(s);
      RunByUnits(s[|Source(Front(s))|..], f);
    }
  }

  lemma UnitsFirst(s: seq<Byte>, f: Flags)
    requires s != []
    ensures var u := Front(s);
            var k := |Source(u)|;
            && 0 < k <= |s|
            && ByUnits(s, f) == if Ends(u, f) then (Shown(u, f), k)
                                else (Shown(u, f) + ByUnits(s[k..], f).0, k + ByUnits(s[k..], f).1)
  {
    hide Front, Shown;
    FrontLength(s);
  }

  lemma UnitsNone(f: Flags)
    ensures ByUnits([], f) == ([], 0)
  {
  }

  lemma EndIsShown(u: Unit, f: Flags)
    requires Ends(u, f)
    ensures Shown(u, f) == [QUESTION]
  {
  }

  /** For a URI, what is read is unescaped as if it were all there is, and it ends with a
      question mark or with the input. */
  lemma {:induction false} UriIsPlain(s: seq<Byte>, form: bool)
    ensures var (w, n) := ByUnits(s, Flags(true, false, form));
            && n <= |s| && w == ByUnits(s[..n], Flags(false, false, form)).0
            && (n < |s| ==> w != [] && w[|w| - 1] == QUESTION)
    decreases |s|
  {
    hide Front, Source, ByUnits, Shown;
    var f, g := Flags(true, false, form), Flags(false, false, form);
    UnitsNone(f);
    UnitsNone(g);
    if s != [] {
      var u := Front(s);
      var k := |Source(u)|;
      UnitsFirst(s, f);
      UriIsPlain(s[k..], form);
      var n := ByUnits(s, f).1;
      FrontSame(s, n);
      UnitsFirst(s[..n], g);
      SameForUri(u, form);
      assert s[..n][k..] == s[k..][..n - k];
      if Ends(u, f) {
        EndIsShown(u, f);
        assert Shown(u, g) + [] == Shown(u, g);
      }
    }
  }

  lemma SameForUri(u: Unit, form: bool)
    ensures Shown(u, Flags(true, false, form)) == Shown(u, Flags(false, false, form))
  {
  }

  /** A unit is not changed by what is behind it. */
  lemma FrontSame(s: seq<Byte>, n: nat)
    requires s != [] && |Source(Front(s))| <= n <= |s|
    ensures s[..n] != [] && (Front(s) == Front(s[..n]))
  {
    hide Digit;
    assert n > 1 ==> s[..n][..2] == s[..2];
    assert n > 2 ==> s[..n][..3] == s[..3];
    assert Front(s).Dangling? ==> s[..n] == s;
    FrontLength(s);
  }

  /** For a redirect, what is written stands for the same bytes as what is read. */
  lemma {:induction false} RedirectIsPlain(s: seq<Byte>, form: bool)
    ensures var (w, n) := ByUnits(s, Flags(false, true, form));
            && n <= |s| && ByUnits(w, PLAIN).0 == ByUnits(s[..n], Flags(false, false, form)).0
            && (n < |s| ==> w != [] && w[|w| - 1] == QUESTION)
    decreases |s|
  {
    hide Front, Source, ByUnits, Shown;
    var f, g := Flags(false, true, form), Flags(false, false, form);
    UnitsNone(f);
    UnitsNone(g);
    UnitsNone(PLAIN);
    if s != [] {
      var u := Front(s);
      var k := |Source(u)|;
      UnitsFirst(s, f);
      RedirectIsPlain(s[k..], form);
      var n := ByUnits(s, f).1;
      FrontSame(s, n);
      UnitsFirst(s[..n], g);
      assert s[..n][k..] == s[k..][..n - k];
      if Ends(u, f) {
        EndIsShown(u, f);
        ShownIsUnit(s, [], form);
        assert Shown(u, f) + [] == Shown(u, f);
      } else {
        DanglingIsLast(s);
        assert k == |s| ==> s[k..] == [];
        ShownIsUnit(s, ByUnits(s[k..], f).0, form);
      }
    }
  }

  lemma DanglingIsLast(s: seq<Byte>)
    requires s != []
    ensures Front(s).Dangling? ==> |Source(Front(s))| == |s|
  {
    hide Digit;
  }

  lemma ShownIsUnit(s: seq<Byte>, rest: seq<Byte>, form: bool)
    requires s != [] && (Front(s).Dangling? ==> rest == [])
    ensures var u := Front(s);
            var w := Shown(u, Flags(false, true, form));
            ByUnits(w + rest, PLAIN).0 == Shown(u, Flags(false, false, form)) + ByUnits(rest, PLAIN).0
  {
    hide ByUnits;
    var u := Front(s);
    var w := Shown(u, Flags(false, true, form));
    if w == [] {
      assert w + rest == rest;
    } else {
      ShownAgain(s, rest, form);
      UnitsFirst(w + rest, PLAIN);
      assert (w + rest)[|w|..] == rest;
    }
  }

  lemma ShownAgain(s: seq<Byte>, rest: seq<Byte>, form: bool)
    requires s != [] && !Front(s).Dangling?
    ensures var u := Front(s);
            var w := Shown(u, Flags(false, true, form));
            && w != [] && Source(Front(w + rest)) == w
            && Shown(Front(w + rest), PLAIN) == Shown(u, Flags(false, false, form))
  {
    hide Digit;
    var u := Front(s);
    var w := Shown(u, Flags(false, true, form));
    assert |w| == 3 ==> (w + rest)[..3] == w;
    assert |w| == 2 ==> (w + rest)[..2] == w;
  }

  // -------------------------------------------------------------- round trips

  lemma DigitOfHex(v: int)
    requires 0 <= v < 16
    ensures Digit(Hex(v)) == v
  {
  }

  /** A plain byte is kept. */
  lemma RunByte(ch: Byte, rest: seq<Byte>, form: bool)
    requires ch != PERCENT && (form ==> ch != PLUS)
    ensures Unescape([ch] + rest, Flags(false, false, form)) == [ch] + Unescape(rest, Flags(false, false, form))
  {
    assert ([ch] + rest)[1..] == rest;
  }

  lemma RunPlus(rest: seq<Byte>)
    ensures Unescape([PLUS] + rest, Flags(false, false, true)) == [SPACE] + Unescape(rest, Flags(false, false, true))
  {
    assert ([PLUS] + rest)[1..] == rest;
  }

  /** A quoted byte is decoded. */
  lemma RunQuoted(ch: Byte, rest: seq<Byte>, form: bool)
    ensures Unescape([PERCENT, Hex(ch / 16), Hex(ch % 16)] + rest, Flags(false, false, form)) ==
              [ch] + Unescape(rest, Flags(false, false, form))
  {
    hide Hex, Digit;
    var f, a, b := Flags(false, false, form), Hex(ch / 16), Hex(ch % 16);
    DigitOfHex(ch / 16);
    DigitOfHex(ch % 16);
    var s := [PERCENT, a, b] + rest;
    assert s[1..] == [a, b] + rest && s[1..][1..] == [b] + rest && s[1..][1..][1..] == rest;
    assert Run([b] + rest, QuotedSecond(ch / 16, a), f).0 == [ch] + Unescape(rest, f);
    assert Run([a, b] + rest, Quoted, f).0 == [] + Run([b] + rest, QuotedSecond(ch / 16, a), f).0;
    assert Run(s, Usual, f).0 == [] + Run([a, b] + rest, Quoted, f).0;
  }

  /** A table that escapes the percent sign can be undone. */
  lemma {:induction false} EscapeIsUndone(t: Type, s: seq<Byte>)
    requires Escaped(t, PERCENT)
    ensures Unescape(Escape(t, s), Flags(false, false, t == Form)) == s
  {
    hide Escaped, Run, Unescape, Hex;
    if s == [] {
      UnescapeEmpty(t == Form);
    } else {
      var ch, rest := s[0], Escape(t, s[1..]);
      EscapeIsUndone(t, s[1..]);
      FormTable();
      assert s == [ch] + s[1..];
      if Escaped(t, ch) {
        RunQuoted(ch, rest, t == Form);
      } else if t == Form && ch == SPACE {
        RunPlus(rest);
      } else {
        RunByte(ch, rest, t == Form);
      }
    }
  }

  lemma UnescapeEmpty(form: bool)
    ensures Unescape([], Flags(false, false, form)) == []
  {
  }

  /** The refresh table leaves the percent sign alone, and "%41" comes back as "A". */
  lemma RefreshIsNotUndone()
    ensures var s := [PERCENT, '4' as int, '1' as int];
            Escape(Refresh, s) == s && Unescape(s, PLAIN) == ['A' as int] != s
  {
    hide Escaped;
    FormTable();
    PercentIsEscaped(Refresh);
    var s := [PERCENT, '4' as int, '1' as int];
    assert s[1..] == ['4' as int, '1' as int] && s[1..][1..] == ['1' as int] && s[1..][1..][1..] == [];
    assert Escape(Refresh, s[1..][1..]) == ['1' as int] + Escape(Refresh, []);
    assert Escape(Refresh, s[1..]) == ['4' as int] + Escape(Refresh, s[1..][1..]);
    assert Escape(Refresh, s) == [PERCENT] + Escape(Refresh, s[1..]);
    assert s == [PERCENT] + (['4' as int] + (['1' as int] + []));
    RunQuoted(0x41, [], false);
    assert [PERCENT, Hex(4), Hex(1)] + [] == s;
    UnescapeEmpty(false);
  }

  /** Unescaping undoes every table but that one, on every input. */
  lemma UndoneExactly(t: Type)
    ensures (forall s :: Unescape(Escape(t, s), Flags(false, false, t == Form)) == s) <==> t != Refresh
  {
    hide Escape, Unescape, Escaped;
    PercentIsEscaped(t);
    if t == Refresh {
      RefreshIsNotUndone();
    } else {
      forall s ensures Unescape(Escape(t, s), Flags(false, false, t == Form)) == s {
        EscapeIsUndone(t, s);
      }
    }
  }

  // ------------------------------------------- what survives the refresh table

  /** What comes back. */
  function Back(s: seq<Byte>): seq<Byte> { Unescape(Escape(Refresh, s), PLAIN) }

  /** No percent sign that is read as one starts an escape, whole or cut short, and none
      has a byte behind it that is escaped itself. */
  predicate Harmless(s: seq<Byte>) {
    s == [] ||
    if s[0] != PERCENT then Harmless(s[1..])
    else if |s| == 1 || Escaped(Refresh, s[1]) then false
    else if Digit(s[1]) < 0 then Harmless(s[2..])
    else |s| > 2 && !Escaped(Refresh, s[2]) && Digit(s[2]) < 0 && Harmless(s[3..])
  }

  /** The bytes that are read together at the front, and what they come back as. */
  function Piece(s: seq<Byte>): (nat, seq<Byte>)
    requires s != []
  {
    if s[0] != PERCENT then (1, [s[0]])
    else if |s| == 1 then (1, [])
    else if Escaped(Refresh, s[1]) then (2, [PERCENT, PERCENT, Hex(s[1] / 16), Hex(s[1] % 16)])
    else if Digit(s[1]) < 0 then (2, [PERCENT, s[1]])
    else if |s| == 2 then (2, [])
    else if Escaped(Refresh, s[2]) then (3, [PERCENT, s[1], PERCENT, Hex(s[2] / 16), Hex(s[2] % 16)])
    else if Digit(s[2]) < 0 then (3, [PERCENT, s[1], s[2]])
    else (3, [Digit(s[1]) * 16 + Digit(s[2])])
  }

  lemma RunOne(ch: Byte, rest: seq<Byte>, mode: Mode)
    ensures var (w, next, stop) := Step(ch, mode, PLAIN);
            !stop && Run([ch] + rest, mode, PLAIN).0 == w + Run(rest, next, PLAIN).0
  {
    assert ([ch] + rest)[1..] == rest;
  }

  lemma RunHex(v: int, u: int, rest: seq<Byte>)
    requires 0 <= v < 16 && 0 <= u < 16
    ensures Run([Hex(v), Hex(u)] + rest, Usual, PLAIN).0 == [Hex(v), Hex(u)] + Run(rest, Usual, PLAIN).0
  {
    RunOne(Hex(v), [Hex(u)] + rest, Usual);
    RunOne(Hex(u), rest, Usual);
    assert [Hex(v)] + ([Hex(u)] + rest) == [Hex(v), Hex(u)] + rest;
  }

  lemma EscapeNext(s: seq<Byte>)
    requires s != []
    ensures Escape(Refresh, s) == (if Escaped(Refresh, s[0]) then [PERCENT, Hex(s[0] / 16), Hex(s[0] % 16)]
              else [s[0]]) + Escape(Refresh, s[1..])
  {
    hide Escaped, Hex;
  }

  lemma StepQuoted(ch: Byte)
    ensures Step(ch, Quoted, PLAIN) == if Digit(ch) >= 0 then ([], QuotedSecond(Digit(ch), ch), false)
              else ([PERCENT, ch], Usual, false)
  {
  }

  lemma StepSecond(ch: Byte, first: Byte)
    requires Digit(first) >= 0
    ensures Digit(ch) >= 0 ==> 0 <= Digit(first) * 16 + Digit(ch) < 256
    ensures Step(ch, QuotedSecond(Digit(first), first), PLAIN) ==
              if Digit(ch) >= 0 then ([Digit(first) * 16 + Digit(ch)], Usual, false)
                  else ([PERCENT, first, ch], Usual, false)
  {
    hide Digit;
    DigitBound(first);
    DigitBound(ch);
  }

  lemma PercentIsNoDigit()
    ensures Digit(PERCENT) < 0
  {
  }

  /** An escaped byte behind a percent sign: its own percent sign ends the escape, and
      its digits are taken as they are. */
  lemma RunOver(ch: Byte, rest: seq<Byte>, mode: Mode, w: seq<Byte>)
    requires Step(PERCENT, mode, PLAIN) == (w + [PERCENT], Usual, false)
    ensures Run([PERCENT, Hex(ch / 16), Hex(ch % 16)] + rest, mode, PLAIN).0
            == w + [PERCENT, Hex(ch / 16), Hex(ch % 16)] + Run(rest, Usual, PLAIN).0
  {
    hide Hex, Step, Run;
    var h := [Hex(ch / 16), Hex(ch % 16)];
    RunOne(PERCENT, h + rest, mode);
    RunHex(ch / 16, ch % 16, rest);
    assert [PERCENT] + (h + rest) == [PERCENT, Hex(ch / 16), Hex(ch % 16)] + rest;
    assert w + [PERCENT] + (h + Run(rest, Usual, PLAIN).0) ==
             w + [PERCENT, Hex(ch / 16), Hex(ch % 16)] + Run(rest, Usual, PLAIN).0;
  }

  lemma PieceIs(s: seq<Byte>)
    requires s != []
    ensures var (n, w) := Piece(s); 0 < n <= |s| && Back(s) == w + Back(s[n..])
  {
    hide Escaped, Hex, Digit, Run, Escape;
    PercentIsEscaped(Refresh);
    EscapeNext(s);
    if s[0] != PERCENT {
      if Escaped(Refresh, s[0]) {
        RunQuoted(s[0], Escape(Refresh, s[1..]), false);
      } else {
        RunByte(s[0], Escape(Refresh, s[1..]), false);
      }
    } else {
      RunOne(PERCENT, Escape(Refresh, s[1..]), Usual);
      PieceQuoted(s[1..]);
      if |s| > 1 && Digit(s[1]) >= 0 {
        PieceSecond(s[1], s[2..]);
      }
      assert |s| > 1 ==> s[1..][1..] == s[2..];
      assert |s| > 2 ==> s[2..][1..] == s[3..];
      BackNothing();
      assert |s| <= 2 ==> s[|s|..] == [];
    }
  }

  lemma BackNothing()
    ensures Back([]) == []
  {
  }

  lemma BackIs(s: seq<Byte>)
    ensures Back(s) == Run(Escape(Refresh, s), Usual, PLAIN).0
  {
  }

  lemma QuotedOver(s: seq<Byte>)
    requires s != [] && Escaped(Refresh, s[0])
    ensures Run(Escape(Refresh, s), Quoted, PLAIN).0 ==
              [PERCENT, PERCENT, Hex(s[0] / 16), Hex(s[0] % 16)] + Back(s[1..])
  {
    hide Escaped, Hex, Digit, Run, Escape, Step, Back;
    BackIs(s[1..]);
    EscapeNext(s);
    PercentIsNoDigit();
    StepQuoted(PERCENT);
    assert [PERCENT] + [PERCENT] == [PERCENT, PERCENT];
    RunOver(s[0], Escape(Refresh, s[1..]), Quoted, [PERCENT]);
    assert [PERCENT] + [PERCENT, Hex(s[0] / 16), Hex(s[0] % 16)] == [PERCENT, PERCENT, Hex(s[0] / 16), Hex(s[0] % 16)];
  }

  /** The same behind a percent sign. */
  lemma PieceQuoted(s: seq<Byte>)
    ensures var w := Run(Escape(Refresh, s), Quoted, PLAIN).0;
            if s == [] then w == []
            else if Escaped(Refresh, s[0]) then w == [PERCENT, PERCENT, Hex(s[0] / 16), Hex(s[0] % 16)] + Back(s[1..])
            else if Digit(s[0]) < 0 then w == [PERCENT, s[0]] + Back(s[1..])
            else w == Run(Escape(Refresh, s[1..]), QuotedSecond(Digit(s[0]), s[0]), PLAIN).0
  {
    hide Escaped, Hex, Digit, Run, Escape, Step, Back;
    if s == [] {
      RunNothing(Quoted);
    } else if Escaped(Refresh, s[0]) {
      QuotedOver(s);
    } else {
      EscapeNext(s);
      StepQuoted(s[0]);
      RunOne(s[0], Escape(Refresh, s[1..]), Quoted);
      BackIs(s[1..]);
    }
  }

  lemma RunNothing(mode: Mode)
    ensures Escape(Refresh, []) == [] && Run([], mode, PLAIN).0 == []
  {
  }

  lemma PieceSecond(first: Byte, s: seq<Byte>)
    requires Digit(first) >= 0
    ensures var w := Run(Escape(Refresh, s), QuotedSecond(Digit(first), first), PLAIN).0;
            if s == [] then w == []
            else if Escaped(Refresh, s[0])
                then w == [PERCENT, first, PERCENT, Hex(s[0] / 16), Hex(s[0] % 16)] + Back(s[1..])
            else if Digit(s[0]) < 0 then w == [PERCENT, first, s[0]] + Back(s[1..])
            else 0 <= Digit(first) * 16 + Digit(s[0]) < 256 && w == [Digit(first) * 16 + Digit(s[0])] + Back(s[1..])
  {
    hide Escaped, Hex, Digit, Run, Escape, Step;
    var mode := QuotedSecond(Digit(first), first);
    if s == [] {
      RunNothing(mode);
    } else {
      EscapeNext(s);
      StepSecond(s[0], first);
      if Escaped(Refresh, s[0]) {
        PercentIsNoDigit();
        StepSecond(PERCENT, first);
        assert [PERCENT, first] + [PERCENT] == [PERCENT, first, PERCENT];
        RunOver(s[0], Escape(Refresh, s[1..]), mode, [PERCENT, first]);
      } else {
        RunOne(s[0], Escape(Refresh, s[1..]), mode);
      }
    }
  }

  lemma DigitBound(ch: Byte)
    ensures -1 <= Digit(ch) < 16
  {
  }

  /** A digit is never escaped. */
  lemma DigitIsKept(v: int, ch: Byte)
    requires 0 <= v < 16 && Escaped(Refresh, ch)
    ensures Hex(v) != ch && ch != PERCENT
  {
  }

  lemma SplitAt(w: seq<Byte>, x: seq<Byte>, v: seq<Byte>, y: seq<Byte>)
    requires w + x == v + y && |w| <= |v|
    ensures v[..|w|] == w && x == v[|w|..] + y
  {
    assert (w + x)[..|w|] == w && (w + x)[|w|..] == x;
    assert (v + y)[..|w|] == v[..|w|] && (v + y)[|w|..] == v[|w|..] + y;
  }

  /** The output does not catch up within a group. */
  lemma NotLevel(q: seq<Byte>, s: seq<Byte>)
    requires |q| > 0 && s != []
    ensures Piece(s).0 <= |s| && q + s[..Piece(s).0] != Piece(s).1
  {
    hide Escaped, Hex, Digit;
    var (n, w) := Piece(s);
    var v := q + s[..n];
    assert v[|v| - 1] == s[n - 1];
    if |w| >= 4 {
      DigitIsKept(s[n - 1] % 16, s[n - 1]);
      assert w[|w| - 1] == Hex(s[n - 1] % 16);
    }
  }

  /** One group, read with the output behind by q. */
  lemma BehindStep(q: seq<Byte>, s: seq<Byte>) returns (q': seq<Byte>)
    requires |q| > 0 && |q| % 2 == 0 && s != [] && Back(s) == q + s
    ensures |q'| > 0 && |q'| % 2 == 0 && Back(s[Piece(s).0..]) == q' + s[Piece(s).0..]
  {
    hide Escaped, Hex, Digit, Back;
    PieceIs(s);
    BackNothing();
    var (n, w) := Piece(s);
    var v := q + s[..n];
    assert q + s == v + s[n..];
    assert n == |s| ==> s[n..] == [];
    SplitAt(w, Back(s[n..]), v, s[n..]);
    NotLevel(q, s);
    q' := v[|w|..];
  }

  /** What is behind by an even number of bytes stays behind: only an escaped byte
      catches up, by two, and then ends in a digit. */
  lemma {:induction false} StaysBehind(q: seq<Byte>, s: seq<Byte>)
    requires |q| > 0 && |q| % 2 == 0
    ensures Back(s) != q + s
    decreases |s|
  {
    hide Piece, Back;
    if s == [] {
      BackNothing();
    } else if Back(s) == q + s {
      var q' := BehindStep(q, s);
      PieceIs(s);
      StaysBehind(q', s[Piece(s).0..]);
    }
  }

  /** Escaped for refresh, exactly the harmless inputs come back. */
  lemma {:induction false} RefreshExactly(s: seq<Byte>)
    ensures Back(s) == s <==> Harmless(s)
    decreases |s|
  {
    hide Escaped, Hex, Digit, Back;
    BackNothing();
    if s != [] {
      PieceIs(s);
      var (n, w) := Piece(s);
      RefreshExactly(s[n..]);
      assert s == s[..n] + s[n..];
      if w == s[..n] {
        assert Back(s) == s <==> Back(s[n..]) == s[n..];
      } else {
        PieceChanged(s);
      }
    }
  }

  /** Once a group has changed nothing behind it can make up for that. */
  lemma PieceChanged(s: seq<Byte>)
    requires s != [] && Piece(s).1 != s[..Piece(s).0]
    ensures Back(s) != s && !Harmless(s)
  {
    hide Escaped, Hex, Digit, Back;
    PieceIs(s);
    var (n, w) := Piece(s);
    var v := s[..n];
    assert s == v + s[n..];
    BackNothing();
    if |w| == 1 {
      if Back(s) == s {
        SplitAt(w, Back(s[n..]), v, s[n..]);
        StaysBehind(v[1..], s[n..]);
      }
    } else if |w| == 4 {
      DigitIsKept(0, s[1]);
      assert Back(s)[1] == w[1];
    } else if |w| == 5 {
      DigitIsKept(0, s[2]);
      assert Back(s)[2] == w[2];
    } else {
      assert s[n..] == [];
    }
  }

  /** The path of an OCSP request by GET (appendix A.1 of RFC 6960), as
      src/event/ngx_event_openssl_stapling.c composes it: the server gets back the
      request, and the length reserved for it is right. */
  lemma OcspPath(request: seq<Byte>)
    ensures var b := Encoded(request, false);
            var path := if Count(Component, b) == 0 then b else Escape(Component, b);
            && Decoded(Unescape(path, PLAIN), false) == Ok(request)
            && |path| == |b| + 2 * Count(Component, b) && |b| == (|request| + 2) / 3 * 4
  {
    hide Encoded, Decoded, Escape, Unescape, Count, Escaped;
    var b := Encoded(request, false);
    CountPredicts(Component, b);
    PercentIsEscaped(Component);
    EscapeIsUndone(Component, b);
    RoundTrip(request, false);
    EncodedLength(request);
  }
}
