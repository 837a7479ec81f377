/**
 * The CRC of MPEG-TS sections (ISO/IEC 13818-1, Annex A): a table-driven loop and the bitwise division it stands
 * for.
 */
module Crc32 {

  // ---------- the bitwise definition ----------

  const POLYNOMIAL: bv32 := 0x04C11DB7
  const INITIAL: bv32 := 0xFFFFFFFF

  // Words are atoms in the proofs below; these functions keep their bits out of sight.

  function Xor(x: bv32, y: bv32): bv32 { x ^ y }

  predicate TopBit(m: bv32) { m & 0x80000000 != 0 }

  function Up(m: bv32): bv32 {
    var one: bv6 := 1;
    m << one
  }

  /** One step of the division: the remainder moves up a bit, and the polynomial is taken off if a bit falls out. */
  function ShiftOut(r: bv32): bv32 {
    if TopBit(r) then Xor(Up(r), POLYNOMIAL) else Up(r)
  }

  /** A message bit meets the top bit of the remainder. */
  function FeedBit(r: bv32, bit: bool): bv32 {
    ShiftOut(if bit then Xor(r, 0x80000000) else r)
  }

  /** The k top bits of m, most significant first. */
  function FeedBits(r: bv32, m: bv32, k: nat): bv32
    decreases k
  {
    if k == 0 then r else FeedBits(FeedBit(r, TopBit(m)), Up(m), k - 1)
  }

  function FeedByte(r: bv32, b: bv8): bv32 {
    FeedBits(r, Top(b), 8)
  }

  function Remainder(r: bv32, src: seq<bv8>): bv32 {
    if src == [] then r else FeedByte(Remainder(r, src[..|src| - 1]), src[|src| - 1])
  }

  /** The CRC of a byte string, bit by bit. */
  function BitwiseCrc(src: seq<bv8>): bv32 { Remainder(INITIAL, src) }

  // ---------- the table ----------

  function Table(j: bv8): bv32 {
    var four: bv4 := 4;
    var l := (j & 0x0F) as bv4;
    match (j >> four) as bv4
    case 0 => Row0(l)
    case 1 => Row1(l)
    case 2 => Row2(l)
    case 3 => Row3(l)
    case 4 => Row4(l)
    case 5 => Row5(l)
    case 6 => Row6(l)
    case 7 => Row7(l)
    case 8 => Row8(l)
    case 9 => Row9(l)
    case 10 => Row10(l)
    case 11 => Row11(l)
    case 12 => Row12(l)
    case 13 => Row13(l)
    case 14 => Row14(l)
    case _ => Row15(l)
  }

  function Row0(l: bv4): bv32 {
    match l
    case 0 => 0x00000000 case 1 => 0x04c11db7 case 2 => 0x09823b6e case 3 => 0x0d4326d9
    case 4 => 0x130476dc case 5 => 0x17c56b6b case 6 => 0x1a864db2 case 7 => 0x1e475005
    case 8 => 0x2608edb8 case 9 => 0x22c9f00f case 10 => 0x2f8ad6d6 case 11 => 0x2b4bcb61
    case 12 => 0x350c9b64 case 13 => 0x31cd86d3 case 14 => 0x3c8ea00a case _ => 0x384fbdbd
  }

  function Row1(l: bv4): bv32 {
    match l
    case 0 => 0x4c11db70 case 1 => 0x48d0c6c7 case 2 => 0x4593e01e case 3 => 0x4152fda9
    case 4 => 0x5f15adac case 5 => 0x5bd4b01b case 6 => 0x569796c2 case 7 => 0x52568b75
    case 8 => 0x6a1936c8 case 9 => 0x6ed82b7f case 10 => 0x639b0da6 case 11 => 0x675a1011
    case 12 => 0x791d4014 case 13 => 0x7ddc5da3 case 14 => 0x709f7b7a case _ => 0x745e66cd
  }

  function Row2(l: bv4): bv32 {
    match l
    case 0 => 0x9823b6e0 case 1 => 0x9ce2ab57 case 2 => 0x91a18d8e case 3 => 0x95609039
    case 4 => 0x8b27c03c case 5 => 0x8fe6dd8b case 6 => 0x82a5fb52 case 7 => 0x8664e6e5
    case 8 => 0xbe2b5b58 case 9 => 0xbaea46ef case 10 => 0xb7a96036 case 11 => 0xb3687d81
    case 12 => 0xad2f2d84 case 13 => 0xa9ee3033 case 14 => 0xa4ad16ea case _ => 0xa06c0b5d
  }

  function Row3(l: bv4): bv32 {
    match l
    case 0 => 0xd4326d90 case 1 => 0xd0f37027 case 2 => 0xddb056fe case 3 => 0xd9714b49
    case 4 => 0xc7361b4c case 5 => 0xc3f706fb case 6 => 0xceb42022 case 7 => 0xca753d95
    case 8 => 0xf23a8028 case 9 => 0xf6fb9d9f case 10 => 0xfbb8bb46 case 11 => 0xff79a6f1
    case 12 => 0xe13ef6f4 case 13 => 0xe5ffeb43 case 14 => 0xe8bccd9a case _ => 0xec7dd02d
  }

  function Row4(l: bv4): bv32 {
    match l
    case 0 => 0x34867077 case 1 => 0x30476dc0 case 2 => 0x3d044b19 case 3 => 0x39c556ae
    case 4 => 0x278206ab case 5 => 0x23431b1c case 6 => 0x2e003dc5 case 7 => 0x2ac12072
    case 8 => 0x128e9dcf case 9 => 0x164f8078 case 10 => 0x1b0ca6a1 case 11 => 0x1fcdbb16
    case 12 => 0x018aeb13 case 13 => 0x054bf6a4 case 14 => 0x0808d07d case _ => 0x0cc9cdca
  }

  function Row5(l: bv4): bv32 {
    match l
    case 0 => 0x7897ab07 case 1 => 0x7c56b6b0 case 2 => 0x71159069 case 3 => 0x75d48dde
    case 4 => 0x6b93dddb case 5 => 0x6f52c06c case 6 => 0x6211e6b5 case 7 => 0x66d0fb02
    case 8 => 0x5e9f46bf case 9 => 0x5a5e5b08 case 10 => 0x571d7dd1 case 11 => 0x53dc6066
    case 12 => 0x4d9b3063 case 13 => 0x495a2dd4 case 14 => 0x44190b0d case _ => 0x40d816ba
  }

  function Row6(l: bv4): bv32 {
    match l
    case 0 => 0xaca5c697 case 1 => 0xa864db20 case 2 => 0xa527fdf9 case 3 => 0xa1e6e04e
    case 4 => 0xbfa1b04b case 5 => 0xbb60adfc case 6 => 0xb6238b25 case 7 => 0xb2e29692
    case 8 => 0x8aad2b2f case 9 => 0x8e6c3698 case 10 => 0x832f1041 case 11 => 0x87ee0df6
    case 12 => 0x99a95df3 case 13 => 0x9d684044 case 14 => 0x902b669d case _ => 0x94ea7b2a
  }

  function Row7(l: bv4): bv32 {
    match l
    case 0 => 0xe0b41de7 case 1 => 0xe4750050 case 2 => 0xe9362689 case 3 => 0xedf73b3e
    case 4 => 0xf3b06b3b case 5 => 0xf771768c case 6 => 0xfa325055 case 7 => 0xfef34de2
    case 8 => 0xc6bcf05f case 9 => 0xc27dede8 case 10 => 0xcf3ecb31 case 11 => 0xcbffd686
    case 12 => 0xd5b88683 case 13 => 0xd1799b34 case 14 => 0xdc3abded case _ => 0xd8fba05a
  }

  function Row8(l: bv4): bv32 {
    match l
    case 0 => 0x690ce0ee case 1 => 0x6dcdfd59 case 2 => 0x608edb80 case 3 => 0x644fc637
    case 4 => 0x7a089632 case 5 => 0x7ec98b85 case 6 => 0x738aad5c case 7 => 0x774bb0eb
    case 8 => 0x4f040d56 case 9 => 0x4bc510e1 case 10 => 0x46863638 case 11 => 0x42472b8f
    case 12 => 0x5c007b8a case 13 => 0x58c1663d case 14 => 0x558240e4 case _ => 0x51435d53
  }

  function Row9(l: bv4): bv32 {
    match l
    case 0 => 0x251d3b9e case 1 => 0x21dc2629 case 2 => 0x2c9f00f0 case 3 => 0x285e1d47
    case 4 => 0x36194d42 case 5 => 0x32d850f5 case 6 => 0x3f9b762c case 7 => 0x3b5a6b9b
    case 8 => 0x0315d626 case 9 => 0x07d4cb91 case 10 => 0x0a97ed48 case 11 => 0x0e56f0ff
    case 12 => 0x1011a0fa case 13 => 0x14d0bd4d case 14 => 0x19939b94 case _ => 0x1d528623
  }

  function Row10(l: bv4): bv32 {
    match l
    case 0 => 0xf12f560e case 1 => 0xf5ee4bb9 case 2 => 0xf8ad6d60 case 3 => 0xfc6c70d7
    case 4 => 0xe22b20d2 case 5 => 0xe6ea3d65 case 6 => 0xeba91bbc case 7 => 0xef68060b
    case 8 => 0xd727bbb6 case 9 => 0xd3e6a601 case 10 => 0xdea580d8 case 11 => 0xda649d6f
    case 12 => 0xc423cd6a case 13 => 0xc0e2d0dd case 14 => 0xcda1f604 case _ => 0xc960ebb3
  }

  function Row11(l: bv4): bv32 {
    match l
    case 0 => 0xbd3e8d7e case 1 => 0xb9ff90c9 case 2 => 0xb4bcb610 case 3 => 0xb07daba7
    case 4 => 0xae3afba2 case 5 => 0xaafbe615 case 6 => 0xa7b8c0cc case 7 => 0xa379dd7b
    case 8 => 0x9b3660c6 case 9 => 0x9ff77d71 case 10 => 0x92b45ba8 case 11 => 0x9675461f
    case 12 => 0x8832161a case 13 => 0x8cf30bad case 14 => 0x81b02d74 case _ => 0x857130c3
  }

  function Row12(l: bv4): bv32 {
    match l
    case 0 => 0x5d8a9099 case 1 => 0x594b8d2e case 2 => 0x5408abf7 case 3 => 0x50c9b640
    case 4 => 0x4e8ee645 case 5 => 0x4a4ffbf2 case 6 => 0x470cdd2b case 7 => 0x43cdc09c
    case 8 => 0x7b827d21 case 9 => 0x7f436096 case 10 => 0x7200464f case 11 => 0x76c15bf8
    case 12 => 0x68860bfd case 13 => 0x6c47164a case 14 => 0x61043093 case _ => 0x65c52d24
  }

  function Row13(l: bv4): bv32 {
    match l
    case 0 => 0x119b4be9 case 1 => 0x155a565e case 2 => 0x18197087 case 3 => 0x1cd86d30
    case 4 => 0x029f3d35 case 5 => 0x065e2082 case 6 => 0x0b1d065b case 7 => 0x0fdc1bec
    case 8 => 0x3793a651 case 9 => 0x3352bbe6 case 10 => 0x3e119d3f case 11 => 0x3ad08088
    case 12 => 0x2497d08d case 13 => 0x2056cd3a case 14 => 0x2d15ebe3 case _ => 0x29d4f654
  }

  function Row14(l: bv4): bv32 {
    match l
    case 0 => 0xc5a92679 case 1 => 0xc1683bce case 2 => 0xcc2b1d17 case 3 => 0xc8ea00a0
    case 4 => 0xd6ad50a5 case 5 => 0xd26c4d12 case 6 => 0xdf2f6bcb case 7 => 0xdbee767c
    case 8 => 0xe3a1cbc1 case 9 => 0xe760d676 case 10 => 0xea23f0af case 11 => 0xeee2ed18
    case 12 => 0xf0a5bd1d case 13 => 0xf464a0aa case 14 => 0xf9278673 case _ => 0xfde69bc4
  }

  function Row15(l: bv4): bv32 {
    match l
    case 0 => 0x89b8fd09 case 1 => 0x8d79e0be case 2 => 0x803ac667 case 3 => 0x84fbdbd0
    case 4 => 0x9abc8bd5 case 5 => 0x9e7d9662 case 6 => 0x933eb0bb case 7 => 0x97ffad0c
    case 8 => 0xafb010b1 case 9 => 0xab710d06 case 10 => 0xa6322bdf case 11 => 0xa2f33668
    case 12 => 0xbcb4666d case 13 => 0xb8757bda case 14 => 0xb5365d03 case _ => 0xb1f740b4
  }

  // ---------- the table is right ----------

  function Shift(x: bv32, k: nat): bv32
    decreases k
  {
    if k == 0 then x else Shift(ShiftOut(x), k - 1)
  }

  // Sixteen entries at a time.

  lemma Entries0(l: bv4)
    ensures Row0(l) == Shift((0x00 | l as bv32) << 24, 8)
  {}

  lemma Entries1(l: bv4)
    ensures Row1(l) == Shift((0x10 | l as bv32) << 24, 8)
  {}

  lemma Entries2(l: bv4)
    ensures Row2(l) == Shift((0x20 | l as bv32) << 24, 8)
  {}

  lemma Entries3(l: bv4)
    ensures Row3(l) == Shift((0x30 | l as bv32) << 24, 8)
  {}

  lemma Entries4(l: bv4)
    ensures Row4(l) == Shift((0x40 | l as bv32) << 24, 8)
  {}

  lemma Entries5(l: bv4)
    ensures Row5(l) == Shift((0x50 | l as bv32) << 24, 8)
  {}

  lemma Entries6(l: bv4)
    ensures Row6(l) == Shift((0x60 | l as bv32) << 24, 8)
  {}

  lemma Entries7(l: bv4)
    ensures Row7(l) == Shift((0x70 | l as bv32) << 24, 8)
  {}

  lemma Entries8(l: bv4)
    ensures Row8(l) == Shift((0x80 | l as bv32) << 24, 8)
  {}

  lemma Entries9(l: bv4)
    ensures Row9(l) == Shift((0x90 | l as bv32) << 24, 8)
  {}

  lemma Entries10(l: bv4)
    ensures Row10(l) == Shift((0xA0 | l as bv32) << 24, 8)
  {}

  lemma Entries11(l: bv4)
    ensures Row11(l) == Shift((0xB0 | l as bv32) << 24, 8)
  {}

  lemma Entries12(l: bv4)
    ensures Row12(l) == Shift((0xC0 | l as bv32) << 24, 8)
  {}

  lemma Entries13(l: bv4)
    ensures Row13(l) == Shift((0xD0 | l as bv32) << 24, 8)
  {}

  lemma Entries14(l: bv4)
    ensures Row14(l) == Shift((0xE0 | l as bv32) << 24, 8)
  {}

  lemma Entries15(l: bv4)
    ensures Row15(l) == Shift((0xF0 | l as bv32) << 24, 8)
  {}

  /** Entry j is what eight steps make of the byte j in the top of the remainder. */
  lemma TableEntry(j: bv8)
    ensures Table(j) == Shift(Top(j), 8)
  {
    hide Shift;
    var four: bv4 := 4;
    var l := (j & 0x0F) as bv4;
    match (j >> four) as bv4
    case 0 => Entries0(l); assert j as bv32 == 0x00 | l as bv32;
    case 1 => Entries1(l); assert j as bv32 == 0x10 | l as bv32;
    case 2 => Entries2(l); assert j as bv32 == 0x20 | l as bv32;
    case 3 => Entries3(l); assert j as bv32 == 0x30 | l as bv32;
    case 4 => Entries4(l); assert j as bv32 == 0x40 | l as bv32;
    case 5 => Entries5(l); assert j as bv32 == 0x50 | l as bv32;
    case 6 => Entries6(l); assert j as bv32 == 0x60 | l as bv32;
    case 7 => Entries7(l); assert j as bv32 == 0x70 | l as bv32;
    case 8 => Entries8(l); assert j as bv32 == 0x80 | l as bv32;
    case 9 => Entries9(l); assert j as bv32 == 0x90 | l as bv32;
    case 10 => Entries10(l); assert j as bv32 == 0xA0 | l as bv32;
    case 11 => Entries11(l); assert j as bv32 == 0xB0 | l as bv32;
    case 12 => Entries12(l); assert j as bv32 == 0xC0 | l as bv32;
    case 13 => Entries13(l); assert j as bv32 == 0xD0 | l as bv32;
    case 14 => Entries14(l); assert j as bv32 == 0xE0 | l as bv32;
    case _ => Entries15(l); assert j as bv32 == 0xF0 | l as bv32;
  }

  // ---------- the loop computes the division ----------

  function Low(x: bv32): bv32 { x & 0x00FFFFFF }

  function Top(b: bv8): bv32 {
    var k: bv6 := 24;
    (b as bv32) << k
  }

  function Index(r: bv32, b: bv8): bv8 {
    var k: bv6 := 24;
    ((r >> k) as bv8) ^ b
  }

  function UpByte(r: bv32): bv32 {
    var k: bv6 := 8;
    r << k
  }

  function Ups(m: bv32, k: nat): bv32
    decreases k
  {
    if k == 0 then m else Ups(Up(m), k - 1)
  }

  lemma XorLaws(x: bv32, y: bv32)
    ensures Xor(x, y) == Xor(y, x) && Xor(x, 0) == x && Xor(x, x) == 0
  {}

  lemma Associative(x: bv32, y: bv32, z: bv32)
    ensures (x ^ y) ^ z == x ^ (y ^ z)
  {}

  lemma XorAssociative(x: bv32, y: bv32, z: bv32)
    ensures Xor(Xor(x, y), z) == Xor(x, Xor(y, z))
  {
    Associative(x, y, z);
  }

  lemma XorTopBit(x: bv32, y: bv32)
    ensures TopBit(Xor(x, y)) <==> (TopBit(x) != TopBit(y))
  {}

  lemma UpOfXor(x: bv32, y: bv32, t: bv32, a: bv32, b: bv32)
    requires t == x ^ y && a == Up(x) && b == Up(y)
    ensures Up(t) == a ^ b
  {}

  lemma XorUp(x: bv32, y: bv32)
    ensures Up(Xor(x, y)) == Xor(Up(x), Up(y))
  {
    hide Up;
    UpOfXor(x, y, Xor(x, y), Up(x), Up(y));
  }

  lemma StepIsLinear(x: bv32, y: bv32)
    ensures ShiftOut(Xor(x, y)) == Xor(ShiftOut(x), ShiftOut(y))
  {
    hide Xor, TopBit, Up;
    XorTopBit(x, y);
    XorUp(x, y);
    var a, b, p := Up(x), Up(y), POLYNOMIAL;
    XorAssociative(a, b, p);
    XorAssociative(a, p, b);
    XorLaws(p, b);
    XorAssociative(a, p, Xor(b, p));
    XorAssociative(p, b, p);
    XorAssociative(b, p, p);
    XorLaws(p, p);
    XorLaws(b, 0);
  }

  lemma PolynomialFallsOut()
    ensures ShiftOut(0x80000000) == POLYNOMIAL
  {}

  /** A message bit at the top of m and the bits waiting behind it. */
  lemma FeedStep(r: bv32, m: bv32)
    ensures ShiftOut(Xor(r, m)) == Xor(FeedBit(r, TopBit(m)), Up(m))
  {
    PolynomialFallsOut();
    hide Xor, TopBit, Up;
    StepIsLinear(r, m);
    StepIsLinear(r, 0x80000000);
    var a, b, p := ShiftOut(r), Up(m), POLYNOMIAL;
    XorAssociative(a, p, b);
    XorLaws(p, b);
  }

  /** Feeding bits one by one is putting them on top of the remainder and shifting them out. */
  lemma {:induction false} FeedIsShift(r: bv32, m: bv32, k: nat)
    ensures Xor(FeedBits(r, m, k), Ups(m, k)) == Shift(Xor(r, m), k)
    decreases k
  {
    hide Xor, ShiftOut, FeedBit, TopBit, Up;
    if k > 0 {
      FeedStep(r, m);
      FeedIsShift(FeedBit(r, TopBit(m)), Up(m), k - 1);
    }
  }

  lemma UpsOfByte(b: bv8)
    ensures Ups(Top(b), 8) == 0
  {}

  lemma {:induction false} ShiftIsLinear(x: bv32, y: bv32, k: nat)
    ensures Shift(Xor(x, y), k) == Xor(Shift(x, k), Shift(y, k))
    decreases k
  {
    hide Xor, ShiftOut;
    if k > 0 {
      StepIsLinear(x, y);
      ShiftIsLinear(ShiftOut(x), ShiftOut(y), k - 1);
    }
  }

  /** The k top bits are zero. */
  predicate Clear(x: bv32, k: nat)
    decreases k
  {
    k == 0 || (!TopBit(x) && Clear(Up(x), k - 1))
  }

  lemma StepMoves(x: bv32)
    ensures !TopBit(x) ==> ShiftOut(x) == Up(x)
  {}

  lemma {:induction false} ClearMoves(x: bv32, k: nat)
    requires Clear(x, k)
    ensures Shift(x, k) == Ups(x, k)
    decreases k
  {
    hide ShiftOut, TopBit, Up;
    if k > 0 {
      StepMoves(x);
      ClearMoves(Up(x), k - 1);
    }
  }

  lemma LowIsClear(x: bv32)
    ensures Clear(Low(x), 8) && Ups(Low(x), 8) == UpByte(x)
  {}

  /** The lower three bytes only move up. */
  lemma LowBytesMove(x: bv32)
    ensures Shift(Low(x), 8) == UpByte(x)
  {
    hide Shift, Ups, Clear, Low, UpByte;
    LowIsClear(x);
    ClearMoves(Low(x), 8);
  }

  lemma ByteOnTop(r: bv32, b: bv8)
    ensures Xor(r, Top(b)) == Xor(Low(Xor(r, Top(b))), Top(Index(r, b)))
    ensures UpByte(Xor(r, Top(b))) == UpByte(r)
  {}

  /** What a byte does to the remainder, looked up. */
  lemma FeedIsTable(r: bv32, b: bv8)
    ensures FeedByte(r, b) == Xor(UpByte(r), Table(Index(r, b)))
  {
    hide Xor, Top, Low, Index, UpByte, Table, Shift, FeedBits, Ups;
    var x := Xor(r, Top(b));
    FeedByteIsShift(r, b);
    ByteOnTop(r, b);
    ShiftIsLinear(Low(x), Top(Index(r, b)), 8);
    LowBytesMove(x);
    TableEntry(Index(r, b));
  }

  lemma FeedByteIsShift(r: bv32, b: bv8)
    ensures FeedByte(r, b) == Shift(Xor(r, Top(b)), 8)
  {
    hide Xor, Top, Shift, FeedBits, Ups;
    FeedIsShift(r, Top(b), 8);
    UpsOfByte(b);
    XorLaws(FeedByte(r, b), 0);
  }

  method GenCrc32(src: seq<bv8>) returns (crc32: bv32)
    ensures crc32 == BitwiseCrc(src)
  {
    hide Table, FeedByte, FeedBits;
    crc32 := 0xFFFFFFFF;
    var byte1: bv6, byte3: bv6 := 8, 24;
    for i := 0 to |src|
      invariant crc32 == Remainder(INITIAL, src[..i])
    {
      FeedIsTable(crc32, src[i]);
      assert src[..i + 1][..i] == src[..i];
      var j := ((crc32 >> byte3) as bv8) ^ src[i];
      crc32 := (crc32 << byte1) ^ Table(j);
    }
    assert src[..|src|] == src;
  }

  // ---------- checking a section ----------

  /** A byte in place p of a word, counted from the top. */
  function At(b: bv8, p: nat): bv32
    requires p < 4
  {
    var k1: bv6, k2: bv6, k3: bv6 := 24, 16, 8;
    if p == 0 then (b as bv32) << k1 else if p == 1 then (b as bv32) << k2
    else if p == 2 then (b as bv32) << k3 else b as bv32
  }

  function ByteAt(w: bv32, p: nat): bv8
    requires p < 4
  {
    var k1: bv6, k2: bv6, k3: bv6 := 24, 16, 8;
    if p == 0 then (w >> k1) as bv8 else if p == 1 then ((w >> k2) & 0xFF) as bv8
    else if p == 2 then ((w >> k3) & 0xFF) as bv8 else (w & 0xFF) as bv8
  }

  /** A word, most significant byte first. */
  function WordBytes(w: bv32): seq<bv8> {
    [ByteAt(w, 0), ByteAt(w, 1), ByteAt(w, 2), ByteAt(w, 3)]
  }

  function Part(w: bv32, p: nat): bv32
    requires p < 4
  {
    if p == 0 then w & 0xFF000000 else if p == 1 then w & 0x00FF0000
    else if p == 2 then w & 0x0000FF00 else w & 0x000000FF
  }

  lemma ByteInPlace(w: bv32)
    ensures At(ByteAt(w, 0), 0) == Part(w, 0) && At(ByteAt(w, 1), 1) == Part(w, 1)
    ensures At(ByteAt(w, 2), 2) == Part(w, 2) && At(ByteAt(w, 3), 3) == Part(w, 3)
  {}

  lemma LastParts(w: bv32)
    ensures Xor(Part(w, 2), Part(w, 3)) == w & 0x0000FFFF
  {}

  lemma FirstParts(w: bv32)
    ensures Xor(Part(w, 0), Part(w, 1)) == w & 0xFFFF0000
  {}

  lemma Halves(w: bv32, a: bv32, b: bv32)
    requires a == w & 0xFFFF0000 && b == w & 0x0000FFFF
    ensures Xor(a, b) == w
  {}

  lemma WordIsItsBytes(r: bv32, w: bv32)
    ensures Xor(Xor(Xor(Xor(r, At(ByteAt(w, 0), 0)), At(ByteAt(w, 1), 1)), At(ByteAt(w, 2), 2)), At(ByteAt(w, 3), 3)) ==
            Xor(r, w)
  {
    hide At, ByteAt, Xor, Part;
    ByteInPlace(w);
    var p0, p1, p2, p3 := Part(w, 0), Part(w, 1), Part(w, 2), Part(w, 3);
    FirstParts(w);
    LastParts(w);
    Halves(w, Xor(p0, p1), Xor(p2, p3));
    XorAssociative(r, p0, p1);
    XorAssociative(Xor(r, Xor(p0, p1)), p2, p3);
    XorAssociative(r, Xor(p0, p1), Xor(p2, p3));
  }

  lemma XorIsZero(r: bv32, w: bv32)
    ensures Xor(r, w) == 0 <==> r == w
  {}

  lemma Rises(b: bv8, p: nat)
    requires 0 < p < 4
    ensures Clear(At(b, p), 8) && Ups(At(b, p), 8) == At(b, p - 1)
  {
    if p == 1 {} else if p == 2 {} else {}
  }

  lemma {:induction false} ClearAppend(x: bv32, j: nat, k: nat)
    requires Clear(x, j) && Clear(Ups(x, j), k)
    ensures Clear(x, j + k) && Ups(x, j + k) == Ups(Ups(x, j), k)
    decreases j
  {
    hide TopBit, Up;
    if j > 0 { ClearAppend(Up(x), j - 1, k); }
  }

  /** A byte waiting in place p reaches the top in p bytes. */
  lemma {:induction false} Waits(b: bv8, p: nat)
    requires p < 4
    ensures Clear(At(b, p), 8 * p) && Ups(At(b, p), 8 * p) == Top(b)
  {
    if p > 0 {
      Rises(b, p);
      Waits(b, p - 1);
      ClearAppend(At(b, p), 8, 8 * (p - 1));
    }
  }

  lemma StepToZero(x: bv32)
    ensures ShiftOut(x) == 0 <==> x == 0
  {}

  /** The polynomial is odd, so nothing but zero is ever shifted to zero. */
  lemma {:induction false} ShiftToZero(x: bv32, k: nat)
    ensures Shift(x, k) == 0 <==> x == 0
    decreases k
  {
    if k > 0 {
      StepToZero(x);
      hide ShiftOut;
      ShiftToZero(ShiftOut(x), k - 1);
    }
  }

  lemma {:induction false} ShiftShift(x: bv32, j: nat, k: nat)
    ensures Shift(Shift(x, j), k) == Shift(x, j + k)
    decreases j
  {
    if j > 0 { ShiftShift(ShiftOut(x), j - 1, k); }
  }

  /** When the remainder is a word shifted by p bytes, the next byte could have been put in its place before. */
  lemma FeedNext(r: bv32, a: bv32, b: bv8, p: nat)
    requires p < 4 && r == Shift(a, 8 * p)
    ensures FeedByte(r, b) == Shift(Xor(a, At(b, p)), 8 * (p + 1))
  {
    hide Shift, Clear, Ups, Xor, At, Top, FeedByte;
    FeedByteIsShift(r, b);
    Waits(b, p);
    ClearMoves(At(b, p), 8 * p);
    ShiftIsLinear(a, At(b, p), 8 * p);
    ShiftShift(Xor(a, At(b, p)), 8 * p, 8);
  }

  lemma FeedWord(r: bv32, w: bv32)
    ensures Remainder(r, WordBytes(w)) == 0 <==> r == w
  {
    var b := WordBytes(w);
    hide FeedByte, ByteAt;
    assert b[..0] == [] && b[..1][..0] == b[..0] && b[..2][..1] == b[..1] && b[..3][..2] == b[..2];
    assert Remainder(r, b[..1]) == FeedByte(r, b[0]);
    assert Remainder(r, b[..2]) == FeedByte(Remainder(r, b[..1]), b[1]);
    assert Remainder(r, b[..3]) == FeedByte(Remainder(r, b[..2]), b[2]);
    FourBytes(r, w);
  }

  lemma FourBytes(r: bv32, w: bv32)
    ensures FeedByte(FeedByte(FeedByte(FeedByte(r, ByteAt(w, 0)), ByteAt(w, 1)), ByteAt(w, 2)), ByteAt(w, 3)) == 0
            <==> r == w
  {
    hide Xor, At, ByteAt, FeedByte;
    assert Shift(r, 0) == r;
    hide Shift;
    var a1 := Xor(r, At(ByteAt(w, 0), 0));
    var a2 := Xor(a1, At(ByteAt(w, 1), 1));
    var a3 := Xor(a2, At(ByteAt(w, 2), 2));
    var r1 := FeedByte(r, ByteAt(w, 0));
    var r2 := FeedByte(r1, ByteAt(w, 1));
    var r3 := FeedByte(r2, ByteAt(w, 2));
    FeedNext(r, r, ByteAt(w, 0), 0);
    FeedNext(r1, a1, ByteAt(w, 1), 1);
    FeedNext(r2, a2, ByteAt(w, 2), 2);
    FeedNext(r3, a3, ByteAt(w, 3), 3);
    WordIsItsBytes(r, w);
    ShiftToZero(Xor(r, w), 32);
    XorIsZero(r, w);
  }

  lemma {:induction false} RemainderAppend(r: bv32, s: seq<bv8>, t: seq<bv8>)
    ensures Remainder(r, s + t) == Remainder(Remainder(r, s), t)
  {
    if t == [] {
      assert s + t == s;
    } else {
      var n := |t| - 1;
      RemainderAppend(r, s, t[..n]);
      assert (s + t)[..|s + t| - 1] == s + t[..n] && (s + t)[|s + t| - 1] == t[n];
    }
  }

  /** A section followed by four bytes checks to zero exactly when those bytes are its CRC. */
  lemma SectionChecks(section: seq<bv8>, w: bv32)
    ensures BitwiseCrc(section + WordBytes(w)) == 0 <==> w == BitwiseCrc(section)
  {
    RemainderAppend(INITIAL, section, WordBytes(w));
    FeedWord(BitwiseCrc(section), w);
  }
}
