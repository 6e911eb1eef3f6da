/**
 CRC-32 of src/core/ngx_crc32.h and its two tables of src/core/ngx_crc32.c, against
 the bit-by-bit definition in Annex D of the PNG specification.
 */
module Crc32 {

  type Byte = bv8

  const POLYNOMIAL: bv32 := 0xedb88320

  // ---------------------------------------------------------- the definition

  /** One bit. */
  function Shift(c: bv32): bv32 { if Odd(c) then Xor(Half(c), POLYNOMIAL) else Half(c) }

  predicate Odd(c: bv32) { c & 1 == 1 }

  function Half(c: bv32): bv32 { c >> 1 }

  function Xor(a: bv32, b: bv32): bv32 { a ^ b }

  function Shift4(c: bv32): bv32 { Shift(Shift(Shift(Shift(c)))) }

  function Shift8(c: bv32): bv32 { Shift4(Shift4(c)) }

  /** The register after some bytes. */
  function Register(c: bv32, p: seq<Byte>): bv32
    decreases |p|
  {
    if p == [] then c else Register(Shift8(c ^ (p[0] as bv32)), p[1..])
  }

  function Crc(p: seq<Byte>): bv32 { Register(0xffffffff, p) ^ 0xffffffff }

  // --------------------------------------------------------------- the tables

  /** ngx_crc32_table16, by index */
  function Table16(i: bv8): bv32 {
    if i == 0 then 0x00000000 else if i == 1 then 0x1db71064 else if i == 2 then 0x3b6e20c8
        else if i == 3 then 0x26d930ac
    else if i == 4 then 0x76dc4190 else if i == 5 then 0x6b6b51f4 else if i == 6 then 0x4db26158
        else if i == 7 then 0x5005713c
    else if i == 8 then 0xedb88320 else if i == 9 then 0xf00f9344 else if i == 10 then 0xd6d6a3e8
        else if i == 11 then 0xcb61b38c
    else if i == 12 then 0x9b64c2b0 else if i == 13 then 0x86d3d2d4 else if i == 14 then 0xa00ae278 else 0xbdbdf21c
  }

  function Row0(i: bv8): bv32 {
    if i == 0 then 0x00000000 else if i == 1 then 0x77073096 else if i == 2 then 0xee0e612c
        else if i == 3 then 0x990951ba
    else if i == 4 then 0x076dc419 else if i == 5 then 0x706af48f else if i == 6 then 0xe963a535
        else if i == 7 then 0x9e6495a3
    else if i == 8 then 0x0edb8832 else if i == 9 then 0x79dcb8a4 else if i == 10 then 0xe0d5e91e
        else if i == 11 then 0x97d2d988
    else if i == 12 then 0x09b64c2b else if i == 13 then 0x7eb17cbd else if i == 14 then 0xe7b82d07 else 0x90bf1d91
  }

  function Row1(i: bv8): bv32 {
    if i == 0 then 0x1db71064 else if i == 1 then 0x6ab020f2 else if i == 2 then 0xf3b97148
        else if i == 3 then 0x84be41de
    else if i == 4 then 0x1adad47d else if i == 5 then 0x6ddde4eb else if i == 6 then 0xf4d4b551
        else if i == 7 then 0x83d385c7
    else if i == 8 then 0x136c9856 else if i == 9 then 0x646ba8c0 else if i == 10 then 0xfd62f97a
        else if i == 11 then 0x8a65c9ec
    else if i == 12 then 0x14015c4f else if i == 13 then 0x63066cd9 else if i == 14 then 0xfa0f3d63 else 0x8d080df5
  }

  function Row2(i: bv8): bv32 {
    if i == 0 then 0x3b6e20c8 else if i == 1 then 0x4c69105e else if i == 2 then 0xd56041e4
        else if i == 3 then 0xa2677172
    else if i == 4 then 0x3c03e4d1 else if i == 5 then 0x4b04d447 else if i == 6 then 0xd20d85fd
        else if i == 7 then 0xa50ab56b
    else if i == 8 then 0x35b5a8fa else if i == 9 then 0x42b2986c else if i == 10 then 0xdbbbc9d6
        else if i == 11 then 0xacbcf940
    else if i == 12 then 0x32d86ce3 else if i == 13 then 0x45df5c75 else if i == 14 then 0xdcd60dcf else 0xabd13d59
  }

  function Row3(i: bv8): bv32 {
    if i == 0 then 0x26d930ac else if i == 1 then 0x51de003a else if i == 2 then 0xc8d75180
        else if i == 3 then 0xbfd06116
    else if i == 4 then 0x21b4f4b5 else if i == 5 then 0x56b3c423 else if i == 6 then 0xcfba9599
        else if i == 7 then 0xb8bda50f
    else if i == 8 then 0x2802b89e else if i == 9 then 0x5f058808 else if i == 10 then 0xc60cd9b2
        else if i == 11 then 0xb10be924
    else if i == 12 then 0x2f6f7c87 else if i == 13 then 0x58684c11 else if i == 14 then 0xc1611dab else 0xb6662d3d
  }

  function Row4(i: bv8): bv32 {
    if i == 0 then 0x76dc4190 else if i == 1 then 0x01db7106 else if i == 2 then 0x98d220bc
        else if i == 3 then 0xefd5102a
    else if i == 4 then 0x71b18589 else if i == 5 then 0x06b6b51f else if i == 6 then 0x9fbfe4a5
        else if i == 7 then 0xe8b8d433
    else if i == 8 then 0x7807c9a2 else if i == 9 then 0x0f00f934 else if i == 10 then 0x9609a88e
        else if i == 11 then 0xe10e9818
    else if i == 12 then 0x7f6a0dbb else if i == 13 then 0x086d3d2d else if i == 14 then 0x91646c97 else 0xe6635c01
  }

  function Row5(i: bv8): bv32 {
    if i == 0 then 0x6b6b51f4 else if i == 1 then 0x1c6c6162 else if i == 2 then 0x856530d8
        else if i == 3 then 0xf262004e
    else if i == 4 then 0x6c0695ed else if i == 5 then 0x1b01a57b else if i == 6 then 0x8208f4c1
        else if i == 7 then 0xf50fc457
    else if i == 8 then 0x65b0d9c6 else if i == 9 then 0x12b7e950 else if i == 10 then 0x8bbeb8ea
        else if i == 11 then 0xfcb9887c
    else if i == 12 then 0x62dd1ddf else if i == 13 then 0x15da2d49 else if i == 14 then 0x8cd37cf3 else 0xfbd44c65
  }

  function Row6(i: bv8): bv32 {
    if i == 0 then 0x4db26158 else if i == 1 then 0x3ab551ce else if i == 2 then 0xa3bc0074
        else if i == 3 then 0xd4bb30e2
    else if i == 4 then 0x4adfa541 else if i == 5 then 0x3dd895d7 else if i == 6 then 0xa4d1c46d
        else if i == 7 then 0xd3d6f4fb
    else if i == 8 then 0x4369e96a else if i == 9 then 0x346ed9fc else if i == 10 then 0xad678846
        else if i == 11 then 0xda60b8d0
    else if i == 12 then 0x44042d73 else if i == 13 then 0x33031de5 else if i == 14 then 0xaa0a4c5f else 0xdd0d7cc9
  }

  function Row7(i: bv8): bv32 {
    if i == 0 then 0x5005713c else if i == 1 then 0x270241aa else if i == 2 then 0xbe0b1010
        else if i == 3 then 0xc90c2086
    else if i == 4 then 0x5768b525 else if i == 5 then 0x206f85b3 else if i == 6 then 0xb966d409
        else if i == 7 then 0xce61e49f
    else if i == 8 then 0x5edef90e else if i == 9 then 0x29d9c998 else if i == 10 then 0xb0d09822
        else if i == 11 then 0xc7d7a8b4
    else if i == 12 then 0x59b33d17 else if i == 13 then 0x2eb40d81 else if i == 14 then 0xb7bd5c3b else 0xc0ba6cad
  }

  function Row8(i: bv8): bv32 {
    if i == 0 then 0xedb88320 else if i == 1 then 0x9abfb3b6 else if i == 2 then 0x03b6e20c
        else if i == 3 then 0x74b1d29a
    else if i == 4 then 0xead54739 else if i == 5 then 0x9dd277af else if i == 6 then 0x04db2615
        else if i == 7 then 0x73dc1683
    else if i == 8 then 0xe3630b12 else if i == 9 then 0x94643b84 else if i == 10 then 0x0d6d6a3e
        else if i == 11 then 0x7a6a5aa8
    else if i == 12 then 0xe40ecf0b else if i == 13 then 0x9309ff9d else if i == 14 then 0x0a00ae27 else 0x7d079eb1
  }

  function Row9(i: bv8): bv32 {
    if i == 0 then 0xf00f9344 else if i == 1 then 0x8708a3d2 else if i == 2 then 0x1e01f268
        else if i == 3 then 0x6906c2fe
    else if i == 4 then 0xf762575d else if i == 5 then 0x806567cb else if i == 6 then 0x196c3671
        else if i == 7 then 0x6e6b06e7
    else if i == 8 then 0xfed41b76 else if i == 9 then 0x89d32be0 else if i == 10 then 0x10da7a5a
        else if i == 11 then 0x67dd4acc
    else if i == 12 then 0xf9b9df6f else if i == 13 then 0x8ebeeff9 else if i == 14 then 0x17b7be43 else 0x60b08ed5
  }

  function Row10(i: bv8): bv32 {
    if i == 0 then 0xd6d6a3e8 else if i == 1 then 0xa1d1937e else if i == 2 then 0x38d8c2c4
        else if i == 3 then 0x4fdff252
    else if i == 4 then 0xd1bb67f1 else if i == 5 then 0xa6bc5767 else if i == 6 then 0x3fb506dd
        else if i == 7 then 0x48b2364b
    else if i == 8 then 0xd80d2bda else if i == 9 then 0xaf0a1b4c else if i == 10 then 0x36034af6
        else if i == 11 then 0x41047a60
    else if i == 12 then 0xdf60efc3 else if i == 13 then 0xa867df55 else if i == 14 then 0x316e8eef else 0x4669be79
  }

  function Row11(i: bv8): bv32 {
    if i == 0 then 0xcb61b38c else if i == 1 then 0xbc66831a else if i == 2 then 0x256fd2a0
        else if i == 3 then 0x5268e236
    else if i == 4 then 0xcc0c7795 else if i == 5 then 0xbb0b4703 else if i == 6 then 0x220216b9
        else if i == 7 then 0x5505262f
    else if i == 8 then 0xc5ba3bbe else if i == 9 then 0xb2bd0b28 else if i == 10 then 0x2bb45a92
        else if i == 11 then 0x5cb36a04
    else if i == 12 then 0xc2d7ffa7 else if i == 13 then 0xb5d0cf31 else if i == 14 then 0x2cd99e8b else 0x5bdeae1d
  }

  function Row12(i: bv8): bv32 {
    if i == 0 then 0x9b64c2b0 else if i == 1 then 0xec63f226 else if i == 2 then 0x756aa39c
        else if i == 3 then 0x026d930a
    else if i == 4 then 0x9c0906a9 else if i == 5 then 0xeb0e363f else if i == 6 then 0x72076785
        else if i == 7 then 0x05005713
    else if i == 8 then 0x95bf4a82 else if i == 9 then 0xe2b87a14 else if i == 10 then 0x7bb12bae
        else if i == 11 then 0x0cb61b38
    else if i == 12 then 0x92d28e9b else if i == 13 then 0xe5d5be0d else if i == 14 then 0x7cdcefb7 else 0x0bdbdf21
  }

  function Row13(i: bv8): bv32 {
    if i == 0 then 0x86d3d2d4 else if i == 1 then 0xf1d4e242 else if i == 2 then 0x68ddb3f8
        else if i == 3 then 0x1fda836e
    else if i == 4 then 0x81be16cd else if i == 5 then 0xf6b9265b else if i == 6 then 0x6fb077e1
        else if i == 7 then 0x18b74777
    else if i == 8 then 0x88085ae6 else if i == 9 then 0xff0f6a70 else if i == 10 then 0x66063bca
        else if i == 11 then 0x11010b5c
    else if i == 12 then 0x8f659eff else if i == 13 then 0xf862ae69 else if i == 14 then 0x616bffd3 else 0x166ccf45
  }

  function Row14(i: bv8): bv32 {
    if i == 0 then 0xa00ae278 else if i == 1 then 0xd70dd2ee else if i == 2 then 0x4e048354
        else if i == 3 then 0x3903b3c2
    else if i == 4 then 0xa7672661 else if i == 5 then 0xd06016f7 else if i == 6 then 0x4969474d
        else if i == 7 then 0x3e6e77db
    else if i == 8 then 0xaed16a4a else if i == 9 then 0xd9d65adc else if i == 10 then 0x40df0b66
        else if i == 11 then 0x37d83bf0
    else if i == 12 then 0xa9bcae53 else if i == 13 then 0xdebb9ec5 else if i == 14 then 0x47b2cf7f else 0x30b5ffe9
  }

  function Row15(i: bv8): bv32 {
    if i == 0 then 0xbdbdf21c else if i == 1 then 0xcabac28a else if i == 2 then 0x53b39330
        else if i == 3 then 0x24b4a3a6
    else if i == 4 then 0xbad03605 else if i == 5 then 0xcdd70693 else if i == 6 then 0x54de5729
        else if i == 7 then 0x23d967bf
    else if i == 8 then 0xb3667a2e else if i == 9 then 0xc4614ab8 else if i == 10 then 0x5d681b02
        else if i == 11 then 0x2a6f2b94
    else if i == 12 then 0xb40bbe37 else if i == 13 then 0xc30c8ea1 else if i == 14 then 0x5a05df1b else 0x2d02ef8d
  }

  /** ngx_crc32_table256, by index: sixteen rows of sixteen */
  function Table256(i: bv8): bv32 {
    var row, column := i >> 4, i & 0xf;
    if row == 0 then Row0(column)
    else if row == 1 then Row1(column)
    else if row == 2 then Row2(column)
    else if row == 3 then Row3(column)
    else if row == 4 then Row4(column)
    else if row == 5 then Row5(column)
    else if row == 6 then Row6(column)
    else if row == 7 then Row7(column)
    else if row == 8 then Row8(column)
    else if row == 9 then Row9(column)
    else if row == 10 then Row10(column)
    else if row == 11 then Row11(column)
    else if row == 12 then Row12(column)
    else if row == 13 then Row13(column)
    else if row == 14 then Row14(column)
    else Row15(column)
  }

  lemma Table16Is(i: bv8)
    requires i < 16
    ensures Table16(i) == Shift4(i as bv32)
  {
  }

  /** The first row, entry by entry. */
  lemma Row0Is(i: bv8)
    requires i < 16
    ensures Row0(i) == Shift8(i as bv32)
  {
    if i == 0 {} else if i == 1 {} else if i == 2 {} else if i == 3 {}
    else if i == 4 {} else if i == 5 {} else if i == 6 {} else if i == 7 {}
    else if i == 8 {} else if i == 9 {} else if i == 10 {} else if i == 11 {}
    else if i == 12 {} else if i == 13 {} else if i == 14 {} else {}
  }

  // Every other row is the first one, moved by its own first entry.

  lemma Row1Is(i: bv8)
    requires i < 16
    ensures Row1(i) == Xor(Row1(0), Row0(i))
  {
  }

  lemma Row2Is(i: bv8)
    requires i < 16
    ensures Row2(i) == Xor(Row2(0), Row0(i))
  {
  }

  lemma Row3Is(i: bv8)
    requires i < 16
    ensures Row3(i) == Xor(Row3(0), Row0(i))
  {
  }

  lemma Row4Is(i: bv8)
    requires i < 16
    ensures Row4(i) == Xor(Row4(0), Row0(i))
  {
  }

  lemma Row5Is(i: bv8)
    requires i < 16
    ensures Row5(i) == Xor(Row5(0), Row0(i))
  {
  }

  lemma Row6Is(i: bv8)
    requires i < 16
    ensures Row6(i) == Xor(Row6(0), Row0(i))
  {
  }

  lemma Row7Is(i: bv8)
    requires i < 16
    ensures Row7(i) == Xor(Row7(0), Row0(i))
  {
  }

  lemma Row8Is(i: bv8)
    requires i < 16
    ensures Row8(i) == Xor(Row8(0), Row0(i))
  {
  }

  lemma Row9Is(i: bv8)
    requires i < 16
    ensures Row9(i) == Xor(Row9(0), Row0(i))
  {
  }

  lemma Row10Is(i: bv8)
    requires i < 16
    ensures Row10(i) == Xor(Row10(0), Row0(i))
  {
  }

  lemma Row11Is(i: bv8)
    requires i < 16
    ensures Row11(i) == Xor(Row11(0), Row0(i))
  {
  }

  lemma Row12Is(i: bv8)
    requires i < 16
    ensures Row12(i) == Xor(Row12(0), Row0(i))
  {
  }

  lemma Row13Is(i: bv8)
    requires i < 16
    ensures Row13(i) == Xor(Row13(0), Row0(i))
  {
  }

  lemma Row14Is(i: bv8)
    requires i < 16
    ensures Row14(i) == Xor(Row14(0), Row0(i))
  {
  }

  lemma Row15Is(i: bv8)
    requires i < 16
    ensures Row15(i) == Xor(Row15(0), Row0(i))
  {
  }

  lemma FirstEntries()
    ensures Row1(0) == Shift8(0x10) && Row2(0) == Shift8(0x20) && Row3(0) == Shift8(0x30) && Row4(0) == Shift8(0x40)
    ensures Row5(0) == Shift8(0x50) && Row6(0) == Shift8(0x60) && Row7(0) == Shift8(0x70) && Row8(0) == Shift8(0x80)
    ensures Row9(0) == Shift8(0x90) && Row10(0) == Shift8(0xa0) && Row11(0) == Shift8(0xb0) && Row12(0) == Shift8(0xc0)
    ensures Row13(0) == Shift8(0xd0) && Row14(0) == Shift8(0xe0) && Row15(0) == Shift8(0xf0)
  {
  }

  lemma ZeroHead(c: bv32)
    ensures Shift8(0) == 0 && Xor(0, c) == c
  {
  }

  function RowStart(row: bv8): bv32 {
    if row == 0 then 0 else if row == 1 then 0x10 else if row == 2 then 0x20 else if row == 3 then 0x30
        else if row == 4 then 0x40 else if row == 5 then 0x50
    else if row == 6 then 0x60 else if row == 7 then 0x70 else if row == 8 then 0x80 else if row == 9 then 0x90
        else if row == 10 then 0xa0 else if row == 11 then 0xb0
    else if row == 12 then 0xc0 else if row == 13 then 0xd0 else if row == 14 then 0xe0 else 0xf0
  }

  lemma RowStartIs(i: bv8)
    ensures RowStart(i >> 4) == (i & 0xf0) as bv32 && i >> 4 < 16 && i & 0xf < 16
  {
  }

  /** Each row follows from its first entry and the first row. */
  lemma RowsAre(i: bv8, row: bv8, column: bv8)
    requires row == i >> 4 && column == i & 0xf && row < 16 && column < 16
    ensures Table256(i) == Xor(Shift8(RowStart(row)), Row0(column))
  {
    hide Shift8, Xor, Row0, Row1, Row2, Row3, Row4, Row5, Row6, Row7, Row8, Row9, Row10, Row11, Row12, Row13, Row14,
        Row15;
    FirstEntries();
    if row == 0 { ZeroHead(Row0(column)); } else if row == 1 { Row1Is(column); } else if row == 2 { Row2Is(column); }
    else if row == 3 { Row3Is(column); } else if row == 4 { Row4Is(column); } else if row == 5 { Row5Is(column); }
    else if row == 6 { Row6Is(column); } else if row == 7 { Row7Is(column); } else if row == 8 { Row8Is(column); }
    else if row == 9 { Row9Is(column); } else if row == 10 { Row10Is(column); } else if row == 11 { Row11Is(column); }
    else if row == 12 { Row12Is(column); } else if row == 13 { Row13Is(column); } else if row == 14 { Row14Is(column); }
    else { Row15Is(column); }
  }

  lemma IndexSplit(i: bv8)
    ensures i as bv32 == Xor((i & 0xf0) as bv32, (i & 0xf) as bv32)
  {
  }

  /** Every entry of the large table is eight steps of its index. */
  lemma Table256Is(i: bv8)
    ensures Table256(i) == Shift8(i as bv32)
  {
    IndexSplit(i);
    RowStartIs(i);
    hide Shift8, Table256, Row0, Xor, RowStart;
    RowsAre(i, i >> 4, i & 0xf);
    Row0Is(i & 0xf);
    Shift8Linear((i & 0xf0) as bv32, (i & 0xf) as bv32);
  }

  // ------------------------------------------------------------ table steps

  // The bit operations of the source by name, so that the proofs below can be about
  // equations between registers and not about their bits.

  function Low(c: bv32, eight: bool): bv32 { if eight then c & 0xff else c & 0xf }

  function High(c: bv32, eight: bool): bv32 { if eight then c & 0xffffff00 else c & 0xfffffff0 }

  function Right(c: bv32, eight: bool): bv32 { if eight then c >> 8 else c >> 4 }

  function Index(c: bv32, eight: bool): bv8 {
    if eight then (c & 0xff) as bv8 else (c & 0xf) as bv8
  }

  function Wide(i: bv8): bv32 { i as bv32 }

  lemma Split(c: bv32, eight: bool)
    ensures c == Xor(Low(c, eight), High(c, eight)) && Low(c, eight) == Wide(Index(c, eight))
              && (!eight ==> Index(c, eight) < 16)
  {
  }

  lemma XorFacts(a: bv32, b: bv32)
    ensures Half(Xor(a, b)) == Xor(Half(a), Half(b)) && Odd(Xor(a, b)) == (Odd(a) != Odd(b))
  {
  }

  lemma XorMove(x: bv32, y: bv32, p: bv32)
    ensures Xor(Xor(x, p), y) == Xor(Xor(x, y), p) && Xor(x, Xor(y, p)) == Xor(Xor(x, y), p)
              && Xor(Xor(x, p), Xor(y, p)) == Xor(x, y)
  {
  }

  lemma ShiftLinear(a: bv32, b: bv32)
    ensures Shift(Xor(a, b)) == Xor(Shift(a), Shift(b))
  {
    hide Xor, Odd, Half;
    XorFacts(a, b);
    XorMove(Half(a), Half(b), POLYNOMIAL);
  }

  lemma Shift4Linear(a: bv32, b: bv32)
    ensures Shift4(Xor(a, b)) == Xor(Shift4(a), Shift4(b))
  {
    hide Shift, Xor;
    ShiftLinear(a, b);
    ShiftLinear(Shift(a), Shift(b));
    ShiftLinear(Shift(Shift(a)), Shift(Shift(b)));
    ShiftLinear(Shift(Shift(Shift(a))), Shift(Shift(Shift(b))));
  }

  lemma Shift8Linear(a: bv32, b: bv32)
    ensures Shift8(Xor(a, b)) == Xor(Shift8(a), Shift8(b))
  {
    hide Shift4, Xor;
    Shift4Linear(a, b);
    Shift4Linear(Shift4(a), Shift4(b));
  }

  /** Without low bits the steps are a plain shift. */
  lemma Shift4High(c: bv32)
    ensures Shift4(High(c, false)) == Right(c, false)
  {
  }

  lemma Shift8High(c: bv32)
    ensures Shift8(High(c, true)) == Right(c, true)
  {
  }

  /** Four steps by the small table. */
  lemma NibbleStep(c: bv32)
    ensures Shift4(c) == Xor(Table16(Index(c, false)), Right(c, false))
  {
    hide *;
    Split(c, false);
    WideTable16(Index(c, false));
    Shift4Linear(Low(c, false), High(c, false));
    Shift4High(c);
  }

  lemma WideTable16(i: bv8)
    requires i < 16
    ensures Table16(i) == Shift4(Wide(i))
  {
    hide Table16, Shift4;
    Table16Is(i);
  }

  lemma WideTable256(i: bv8)
    ensures Table256(i) == Shift8(Wide(i))
  {
    hide Table256, Shift8;
    Table256Is(i);
  }

  /** Eight steps by the large table. */
  lemma ByteStep(c: bv32)
    ensures Shift8(c) == Xor(Table256(Index(c, true)), Right(c, true))
  {
    hide *;
    Split(c, true);
    WideTable256(Index(c, true));
    Shift8Linear(Low(c, true), High(c, true));
    Shift8High(c);
  }

  /** The source's step by the small table, with a nibble of the data. */
  function ShortStep(crc: bv32, n: bv32): bv32 { Xor(Table16(Index(Xor(crc, n), false)), Right(crc, false)) }

  /** The source's step by the large table, with a byte of the data. */
  function LongStep(crc: bv32, b: Byte): bv32 { Xor(Table256(Index(Xor(crc, Wide(b)), true)), Right(crc, true)) }

  lemma RightXor(a: bv32, b: bv32, eight: bool)
    ensures Right(Xor(a, b), eight) == Xor(Right(a, eight), Right(b, eight))
  {
    if eight {
      RightXor8(a, b);
    } else {
      RightXor4(a, b);
    }
  }

  lemma RightXor4(a: bv32, b: bv32)
    ensures (a ^ b) >> 4 == (a >> 4) ^ (b >> 4)
  {
  }

  lemma RightXor8(a: bv32, b: bv32)
    ensures (a ^ b) >> 8 == (a >> 8) ^ (b >> 8)
  {
  }

  lemma XorZero(a: bv32)
    ensures Xor(a, 0) == a
  {
  }

  lemma SmallRight(n: bv32, eight: bool)
    requires n < if eight then 256 else 16
    ensures Right(n, eight) == 0
  {
  }

  lemma RightSame(crc: bv32, n: bv32, eight: bool)
    requires n < if eight then 256 else 16
    ensures Right(Xor(crc, n), eight) == Right(crc, eight)
  {
    hide *;
    RightXor(crc, n, eight);
    SmallRight(n, eight);
    XorZero(Right(crc, eight));
  }

  lemma ShortStepIs(crc: bv32, n: bv32)
    requires n < 16
    ensures ShortStep(crc, n) == Shift4(Xor(crc, n))
  {
    hide Shift4, Table16, Xor, Index, Right;
    NibbleStep(Xor(crc, n));
    RightSame(crc, n, false);
  }

  lemma LongStepIs(crc: bv32, b: Byte)
    ensures LongStep(crc, b) == Shift8(Xor(crc, Wide(b)))
  {
    hide Shift8, Table256, Xor, Index, Right;
    ByteStep(Xor(crc, Wide(b)));
    RightSame(crc, Wide(b), true);
  }

  function LowNibble(b: Byte): bv32 { (b & 0xf) as bv32 }

  function HighNibble(b: Byte): bv32 { (b >> 4) as bv32 }

  function Raised(b: Byte): bv32 { ((b >> 4) as bv32) << 4 }

  lemma Nibbles(crc: bv32, b: Byte)
    ensures Xor(crc, Wide(b)) == Xor(Xor(crc, LowNibble(b)), Raised(b))
    ensures LowNibble(b) < 16 && HighNibble(b) < 16
  {
  }

  lemma RaisedStep(b: Byte)
    ensures Shift4(Raised(b)) == HighNibble(b)
  {
  }

  /** Two steps by the small table are the step of a byte. */
  lemma ShortStepsAreByte(crc: bv32, b: Byte)
    ensures ShortStep(ShortStep(crc, LowNibble(b)), HighNibble(b)) == Shift8(Xor(crc, Wide(b)))
  {
    hide *;
    Nibbles(crc, b);
    ShortStepIs(crc, LowNibble(b));
    ShortStepIs(ShortStep(crc, LowNibble(b)), HighNibble(b));
    Shift4Linear(Xor(crc, LowNibble(b)), Raised(b));
    RaisedStep(b);
    TwoFours(Xor(crc, Wide(b)));
  }

  lemma TwoFours(c: bv32)
    ensures Shift8(c) == Shift4(Shift4(c))
  {
    hide Shift4;
  }

  // ------------------------------------------------------------- the functions

  lemma {:induction false} RegisterSplit(c: bv32, a: seq<Byte>, b: seq<Byte>)
    ensures Register(c, a + b) == Register(Register(c, a), b)
    decreases |a|
  {
    hide Shift8;
    if a == [] {
      assert a + b == b;
    } else {
      assert (a + b)[0] == a[0] && (a + b)[1..] == a[1..] + b;
      RegisterSplit(Shift8(c ^ (a[0] as bv32)), a[1..], b);
    }
  }

  lemma RegisterNext(c: bv32, p: seq<Byte>, i: nat)
    requires i < |p|
    ensures Register(c, p[..i + 1]) == Shift8(Xor(Register(c, p[..i]), Wide(p[i])))
  {
    hide Shift8;
    assert p[..i + 1] == p[..i] + [p[i]];
    RegisterSplit(c, p[..i], [p[i]]);
    assert [p[i]][1..] == [];
  }

  /** ngx_crc32_short */
  method CrcShort(p: seq<Byte>) returns (crc: bv32)
    ensures crc == Crc(p)
  {
    hide Shift8, Shift4, Table16, Register, ShortStep;
    crc := 0xffffffff;
    var i := 0;
    assert p[..0] == [];
    RegisterEmpty(crc);
    while i < |p|
      invariant 0 <= i <= |p| && crc == Register(0xffffffff, p[..i])
    {
      var c := p[i];
      ShortStepsAreByte(crc, c);
      RegisterNext(0xffffffff, p, i);
      crc := ShortStep(crc, (c & 0xf) as bv32);
      crc := ShortStep(crc, (c >> 4) as bv32);
      i := i + 1;
    }
    assert p[..i] == p;
    crc := crc ^ 0xffffffff;
  }

  lemma RegisterEmpty(c: bv32)
    ensures Register(c, []) == c
  {
  }

  /** ngx_crc32_long */
  method CrcLong(p: seq<Byte>) returns (crc: bv32)
    ensures crc == Crc(p)
  {
    crc := Update(0xffffffff, p);
    crc := crc ^ 0xffffffff;
  }

  /** ngx_crc32_update */
  method Update(given: bv32, p: seq<Byte>) returns (crc: bv32)
    ensures crc == Register(given, p)
  {
    hide Shift8, Table256, Register, LongStep;
    crc := given;
    var i := 0;
    assert p[..0] == [];
    RegisterEmpty(crc);
    while i < |p|
      invariant 0 <= i <= |p| && crc == Register(given, p[..i])
    {
      LongStepIs(crc, p[i]);
      RegisterNext(given, p, i);
      crc := LongStep(crc, p[i]);
      i := i + 1;
    }
    assert p[..i] == p;
  }

  /** However the data is cut, the updates give the sum of the whole. */
  lemma {:induction false} Incremental(parts: seq<seq<Byte>>, c: bv32)
    ensures Updates(c, parts) == Register(c, Joined(parts))
    ensures c == 0xffffffff ==> Updates(c, parts) ^ 0xffffffff == Crc(Joined(parts))
    decreases |parts|
  {
    hide Register;
    if parts == [] {
      RegisterEmpty(c);
    } else {
      RegisterSplit(c, parts[0], Joined(parts[1..]));
      Incremental(parts[1..], Register(c, parts[0]));
    }
  }

  function Joined(parts: seq<seq<Byte>>): seq<Byte> {
    if parts == [] then [] else parts[0] + Joined(parts[1..])
  }

  /** One update after another. */
  function Updates(c: bv32, parts: seq<seq<Byte>>): bv32
    decreases |parts|
  {
    if parts == [] then c else Updates(Register(c, parts[0]), parts[1..])
  }

  // ---------------------------------------------------------- a known value

  lemma KnownNext(c: bv32, p: seq<Byte>, d: bv32)
    requires p != [] && Shift8(c ^ (p[0] as bv32)) == d
    ensures Register(c, p) == Register(d, p[1..])
  {
    hide Shift8;
  }

  /** The check value of this CRC, that of the nine digits. */
  lemma CheckValue()
    ensures Crc([0x31, 0x32, 0x33, 0x34, 0x35, 0x36, 0x37, 0x38, 0x39]) == 0xcbf43926
  {
    hide Register;
    var p: seq<Byte> := [0x31, 0x32, 0x33, 0x34, 0x35, 0x36, 0x37, 0x38, 0x39];
    KnownNext(0xffffffff, p[0..], 0x7c231048);
    assert p[0..][1..] == p[1..];
    KnownNext(0x7c231048, p[1..], 0xb0acbb32);
    assert p[1..][1..] == p[2..];
    KnownNext(0xb0acbb32, p[2..], 0x77b79c2d);
    assert p[2..][1..] == p[3..];
    KnownNext(0x77b79c2d, p[3..], 0x641c1f5c);
    assert p[3..][1..] == p[4..];
    KnownNext(0x641c1f5c, p[4..], 0x340ac5e3);
    assert p[4..][1..] == p[5..];
    KnownNext(0x340ac5e3, p[5..], 0xf68d2c9e);
    assert p[5..][1..] == p[6..];
    KnownNext(0xf68d2c9e, p[6..], 0xaffc9660);
    assert p[6..][1..] == p[7..];
    KnownNext(0xaffc9660, p[7..], 0x651f2550);
    assert p[7..][1..] == p[8..];
    KnownNext(0x651f2550, p[8..], 0x340bc6d9);
    assert p[8..][1..] == p[9..];
    RegisterDone(0x340bc6d9);
    assert p[0..] == p && p[9..] == [];
  }

  lemma RegisterDone(c: bv32)
    ensures Register(c, []) == c
  {
  }
}
