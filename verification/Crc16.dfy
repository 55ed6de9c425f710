/** The checksum behind hash slots: a table of 256 entries, one per byte, does the division by the polynomial
    x^16 + x^12 + x^5 + 1 eight bits at a time (src/Crc16.cpp). */
module Crc16 {

  /** `crc16tab`, as 16 rows of 16. */
  function Row(h: nat): (r: seq<bv16>)
    requires h < 16
    ensures |r| == 16
  {
    match h
    case 0 => [0x0000, 0x1021, 0x2042, 0x3063, 0x4084, 0x50a5, 0x60c6, 0x70e7,
               0x8108, 0x9129, 0xa14a, 0xb16b, 0xc18c, 0xd1ad, 0xe1ce, 0xf1ef]
    case 1 => [0x1231, 0x0210, 0x3273, 0x2252, 0x52b5, 0x4294, 0x72f7, 0x62d6,
               0x9339, 0x8318, 0xb37b, 0xa35a, 0xd3bd, 0xc39c, 0xf3ff, 0xe3de]
    case 2 => [0x2462, 0x3443, 0x0420, 0x1401, 0x64e6, 0x74c7, 0x44a4, 0x5485,
               0xa56a, 0xb54b, 0x8528, 0x9509, 0xe5ee, 0xf5cf, 0xc5ac, 0xd58d]
    case 3 => [0x3653, 0x2672, 0x1611, 0x0630, 0x76d7, 0x66f6, 0x5695, 0x46b4,
               0xb75b, 0xa77a, 0x9719, 0x8738, 0xf7df, 0xe7fe, 0xd79d, 0xc7bc]
    case 4 => [0x48c4, 0x58e5, 0x6886, 0x78a7, 0x0840, 0x1861, 0x2802, 0x3823,
               0xc9cc, 0xd9ed, 0xe98e, 0xf9af, 0x8948, 0x9969, 0xa90a, 0xb92b]
    case 5 => [0x5af5, 0x4ad4, 0x7ab7, 0x6a96, 0x1a71, 0x0a50, 0x3a33, 0x2a12,
               0xdbfd, 0xcbdc, 0xfbbf, 0xeb9e, 0x9b79, 0x8b58, 0xbb3b, 0xab1a]
    case 6 => [0x6ca6, 0x7c87, 0x4ce4, 0x5cc5, 0x2c22, 0x3c03, 0x0c60, 0x1c41,
               0xedae, 0xfd8f, 0xcdec, 0xddcd, 0xad2a, 0xbd0b, 0x8d68, 0x9d49]
    case 7 => [0x7e97, 0x6eb6, 0x5ed5, 0x4ef4, 0x3e13, 0x2e32, 0x1e51, 0x0e70,
               0xff9f, 0xefbe, 0xdfdd, 0xcffc, 0xbf1b, 0xaf3a, 0x9f59, 0x8f78]
    case 8 => [0x9188, 0x81a9, 0xb1ca, 0xa1eb, 0xd10c, 0xc12d, 0xf14e, 0xe16f,
               0x1080, 0x00a1, 0x30c2, 0x20e3, 0x5004, 0x4025, 0x7046, 0x6067]
    case 9 => [0x83b9, 0x9398, 0xa3fb, 0xb3da, 0xc33d, 0xd31c, 0xe37f, 0xf35e,
               0x02b1, 0x1290, 0x22f3, 0x32d2, 0x4235, 0x5214, 0x6277, 0x7256]
    case 10 => [0xb5ea, 0xa5cb, 0x95a8, 0x8589, 0xf56e, 0xe54f, 0xd52c, 0xc50d,
               0x34e2, 0x24c3, 0x14a0, 0x0481, 0x7466, 0x6447, 0x5424, 0x4405]
    case 11 => [0xa7db, 0xb7fa, 0x8799, 0x97b8, 0xe75f, 0xf77e, 0xc71d, 0xd73c,
               0x26d3, 0x36f2, 0x0691, 0x16b0, 0x6657, 0x7676, 0x4615, 0x5634]
    case 12 => [0xd94c, 0xc96d, 0xf90e, 0xe92f, 0x99c8, 0x89e9, 0xb98a, 0xa9ab,
               0x5844, 0x4865, 0x7806, 0x6827, 0x18c0, 0x08e1, 0x3882, 0x28a3]
    case 13 => [0xcb7d, 0xdb5c, 0xeb3f, 0xfb1e, 0x8bf9, 0x9bd8, 0xabbb, 0xbb9a,
               0x4a75, 0x5a54, 0x6a37, 0x7a16, 0x0af1, 0x1ad0, 0x2ab3, 0x3a92]
    case 14 => [0xfd2e, 0xed0f, 0xdd6c, 0xcd4d, 0xbdaa, 0xad8b, 0x9de8, 0x8dc9,
               0x7c26, 0x6c07, 0x5c64, 0x4c45, 0x3ca2, 0x2c83, 0x1ce0, 0x0cc1]
    case _ => [0xef1f, 0xff3e, 0xcf5d, 0xdf7c, 0xaf9b, 0xbfba, 0x8fd9, 0x9ff8,
               0x6e17, 0x7e36, 0x4e55, 0x5e74, 0x2e93, 0x3eb2, 0x0ed1, 0x1ef0]
  }

  function TableAt(i: bv16): bv16
    requires i <= 0xff
  {
    var n := i as nat;
    Row(n / 16)[n % 16]
  }

  function Xor(a: bv16, b: bv16): bv16 { a ^ b }

  function Shl(a: bv16): bv16 { a << 1 }

  function Shl8(a: bv16): bv16 { a << 8 }

  predicate Top(a: bv16) { a & 0x8000 != 0 }

  /** `((crc>>8) ^ k)&0x00FF`, for a byte or for a `char` that is widened with its sign */
  function Index(crc: bv16, k: bv8): (i: bv16)
    ensures i <= 0xff
  {
    ((crc >> 8) ^ (k as bv16)) & 0xff
  }

  /** `crc = (crc<<8) ^ crc16tab[((crc>>8) ^ k)&0x00FF]` */
  function TableStep(crc: bv16, k: bv8): bv16 { Xor(Shl8(crc), TableAt(Index(crc, k))) }

  // ----- the register of the division -----

  /** The polynomial without its highest term. */
  const POLYNOMIAL: bv16 := 0x1021

  /** The register moves up, and the polynomial is taken off when a bit falls out. */
  function Shift(r: bv16): bv16 { if Top(r) then Xor(Shl(r), POLYNOMIAL) else Shl(r) }

  function Four(r: bv16): bv16 { Shift(Shift(Shift(Shift(r)))) }

  function Eight(r: bv16): bv16 { Four(Four(r)) }

  lemma {:induction false} TopOfXor(a: bv16, b: bv16)
    ensures Top(Xor(a, b)) == (Top(a) != Top(b))
  {
  }

  lemma {:induction false} ShlOfXor(a: bv16, b: bv16)
    ensures Shl(Xor(a, b)) == Xor(Shl(a), Shl(b))
  {
  }

  lemma {:induction false} XorLaws(a: bv16, b: bv16, p: bv16)
    ensures Xor(Xor(a, p), b) == Xor(Xor(a, b), p) == Xor(a, Xor(b, p))
    ensures Xor(Xor(a, p), Xor(b, p)) == Xor(a, b)
  {
    hide Xor;
    XorAssociates(a, p, b);
    XorAssociates(a, b, p);
    XorCommutes(b, p);
    XorAssociates(a, p, Xor(b, p));
    XorAssociates(p, p, b);
    XorSelf(p);
    XorCommutes(0, b);
  }

  lemma {:induction false} XorAssociates(a: bv16, b: bv16, c: bv16)
    ensures Xor(Xor(a, b), c) == Xor(a, Xor(b, c))
  {
  }

  lemma {:induction false} XorSelf(a: bv16)
    ensures Xor(a, a) == 0
  {
  }

  lemma {:induction false} XorCommutes(a: bv16, b: bv16)
    ensures Xor(a, b) == Xor(b, a) && Xor(a, 0) == a
  {
  }

  lemma {:induction false} ShiftIsLinear(a: bv16, b: bv16)
    ensures Shift(Xor(a, b)) == Xor(Shift(a), Shift(b))
  {
    hide Xor, Shl, Top;
    TopOfXor(a, b);
    ShlOfXor(a, b);
    XorLaws(Shl(a), Shl(b), POLYNOMIAL);
  }

  lemma {:induction false} FourIsLinear(a: bv16, b: bv16)
    ensures Four(Xor(a, b)) == Xor(Four(a), Four(b))
  {
    hide Shift, Xor;
    ShiftIsLinear(a, b);
    ShiftIsLinear(Shift(a), Shift(b));
    ShiftIsLinear(Shift(Shift(a)), Shift(Shift(b)));
    ShiftIsLinear(Shift(Shift(Shift(a))), Shift(Shift(Shift(b))));
  }

  lemma {:induction false} EightIsLinear(a: bv16, b: bv16)
    ensures Eight(Xor(a, b)) == Xor(Eight(a), Eight(b))
  {
    hide Four, Xor;
    FourIsLinear(a, b);
    FourIsLinear(Four(a), Four(b));
  }

  /** The low byte only moves up. */
  lemma {:induction false} LowByteMoves(a: bv16)
    requires a <= 0xff
    ensures Eight(a) == Shl8(a)
  {
  }

  lemma {:induction false} Part0IsRight(i: bv16)
    requires 0x00 <= i <= 0x1f
    ensures TableAt(i) == Eight(Shl8(i))
  {
  }

  lemma {:induction false} Part1IsRight(i: bv16)
    requires 0x20 <= i <= 0x3f
    ensures TableAt(i) == Eight(Shl8(i))
  {
  }

  lemma {:induction false} Part2IsRight(i: bv16)
    requires 0x40 <= i <= 0x5f
    ensures TableAt(i) == Eight(Shl8(i))
  {
  }

  lemma {:induction false} Part3IsRight(i: bv16)
    requires 0x60 <= i <= 0x7f
    ensures TableAt(i) == Eight(Shl8(i))
  {
  }

  lemma {:induction false} Part4IsRight(i: bv16)
    requires 0x80 <= i <= 0x9f
    ensures TableAt(i) == Eight(Shl8(i))
  {
  }

  lemma {:induction false} Part5IsRight(i: bv16)
    requires 0xa0 <= i <= 0xbf
    ensures TableAt(i) == Eight(Shl8(i))
  {
  }

  lemma {:induction false} Part6IsRight(i: bv16)
    requires 0xc0 <= i <= 0xdf
    ensures TableAt(i) == Eight(Shl8(i))
  {
  }

  lemma {:induction false} Part7IsRight(i: bv16)
    requires 0xe0 <= i <= 0xff
    ensures TableAt(i) == Eight(Shl8(i))
  {
  }

  /** Every entry is what eight single steps make of its byte. */
  lemma {:induction false} TableIsRight(i: bv16)
    requires i <= 0xff
    ensures TableAt(i) == Eight(Shl8(i))
  {
    hide Row, TableAt, Eight, Shl8;
    if i <= 0x7f {
      if i <= 0x1f { Part0IsRight(i); } else if i <= 0x3f { Part1IsRight(i); }
      else if i <= 0x5f { Part2IsRight(i); } else { Part3IsRight(i); }
    } else {
      if i <= 0x9f { Part4IsRight(i); } else if i <= 0xbf { Part5IsRight(i); }
      else if i <= 0xdf { Part6IsRight(i); } else { Part7IsRight(i); }
    }
  }

  // ----- one bit of the message at a time -----

  function BitStep(r: bv16, bit: bool): bv16 { if Top(r) != bit then Xor(Shl(r), POLYNOMIAL) else Shl(r) }

  function Feed(r: bv16, bits: seq<bool>): bv16
    decreases |bits|
  {
    if bits == [] then r else Feed(BitStep(r, bits[0]), bits[1..])
  }

  /** The `n` highest bits of a word, highest first. */
  function TopBits(w: bv16, n: nat): (bits: seq<bool>)
    ensures |bits| == n
    decreases n
  {
    if n == 0 then [] else [Top(w)] + TopBits(Shl(w), n - 1)
  }

  function InHighByte(k: bv8): bv16 { (k as bv16) << 8 }

  function BitsOf(k: bv8): seq<bool> { TopBits(InHighByte(k), 8) }

  function Message(bytes: seq<bv8>): seq<bool> {
    if bytes == [] then [] else BitsOf(bytes[0]) + Message(bytes[1..])
  }

  function ShiftN(r: bv16, n: nat): bv16
    decreases n
  {
    if n == 0 then r else ShiftN(Shift(r), n - 1)
  }

  function ShlN(w: bv16, n: nat): bv16
    decreases n
  {
    if n == 0 then w else ShlN(Shl(w), n - 1)
  }

  lemma {:induction false} BitStepIsShift(r: bv16, w: bv16)
    ensures Shift(Xor(r, w)) == Xor(BitStep(r, Top(w)), Shl(w))
  {
    hide Xor, Shl, Top;
    TopOfXor(r, w);
    ShlOfXor(r, w);
    XorLaws(Shl(r), Shl(w), POLYNOMIAL);
  }

  /** Feeding bits one by one is the same as adding them all first and shifting. */
  lemma {:induction false} FeedIsShift(r: bv16, w: bv16, n: nat)
    ensures ShiftN(Xor(r, w), n) == Xor(Feed(r, TopBits(w, n)), ShlN(w, n))
    decreases n
  {
    hide Shift, BitStep, Top, Row, Xor, Shl;
    if n > 0 {
      BitStepIsShift(r, w);
      FeedIsShift(BitStep(r, Top(w)), Shl(w), n - 1);
      assert TopBits(w, n)[1..] == TopBits(Shl(w), n - 1);
    }
  }

  lemma {:induction false} EightShifts(r: bv16)
    ensures ShiftN(r, 8) == Eight(r)
  {
    hide Shift;
    var r1 := Shift(r);
    var r2 := Shift(r1);
    var r3 := Shift(r2);
    var r4 := Four(r);
    var r5 := Shift(r4);
    var r6 := Shift(r5);
    var r7 := Shift(r6);
    assert ShiftN(r, 8) == ShiftN(r1, 7) == ShiftN(r2, 6) == ShiftN(r3, 5) == ShiftN(r4, 4);
    assert ShiftN(r4, 4) == ShiftN(r5, 3) == ShiftN(r6, 2) == ShiftN(r7, 1);
  }

  lemma {:induction false} EightShls(k: bv8)
    ensures ShlN(InHighByte(k), 8) == 0
  {
    var w1 := Shl(InHighByte(k));
    var w2 := Shl(w1);
    var w3 := Shl(w2);
    var w4 := Shl(w3);
    var w5 := Shl(w4);
    var w6 := Shl(w5);
    var w7 := Shl(w6);
    assert ShlN(InHighByte(k), 8) == ShlN(w1, 7) == ShlN(w2, 6) == ShlN(w3, 5) == ShlN(w4, 4) by {
      hide Shl, InHighByte;
    }
    assert ShlN(w4, 4) == ShlN(w5, 3) == ShlN(w6, 2) == ShlN(w7, 1) == Shl(w7) by {
      hide Shl, InHighByte;
    }
    AllFallOut(k);
  }

  lemma {:induction false} AllFallOut(k: bv8)
    ensures Shl(Shl(Shl(Shl(Shl(Shl(Shl(Shl(InHighByte(k))))))))) == 0
  {
  }

  function LowByte(crc: bv16): (b: bv16)
    ensures b <= 0xff
  {
    crc & 0xff
  }

  function HighByte(crc: bv16): bv16 { crc >> 8 }

  lemma {:induction false} JoinBytes(crc: bv16)
    ensures Xor(Shl8(HighByte(crc)), LowByte(crc)) == crc
  {
  }

  lemma {:induction false} IndexMoved(crc: bv16, k: bv8)
    ensures Shl8(Index(crc, k)) == Xor(Shl8(HighByte(crc)), InHighByte(k))
  {
  }

  lemma {:induction false} SplitWord(crc: bv16, k: bv8)
    ensures Xor(crc, InHighByte(k)) == Xor(Shl8(Index(crc, k)), LowByte(crc))
  {
    hide Xor, Shl8, Index, InHighByte, LowByte, HighByte;
    JoinBytes(crc);
    IndexMoved(crc, k);
    XorLaws(Shl8(HighByte(crc)), InHighByte(k), LowByte(crc));
  }

  lemma {:induction false} LowByteStays(crc: bv16)
    ensures Shl8(LowByte(crc)) == Shl8(crc)
  {
  }

  /** One step of the table is eight single bits of the byte. */
  lemma {:induction false} TableStepIsEightBits(crc: bv16, k: bv8)
    ensures TableStep(crc, k) == Feed(crc, BitsOf(k))
  {
    hide TableAt, Eight, Shift, Feed, TopBits, ShiftN, ShlN, Xor, Shl8, InHighByte, Index, LowByte;
    var i, w := Index(crc, k), InHighByte(k);
    SplitWord(crc, k);
    LowByteStays(crc);
    FeedIsShift(crc, w, 8);
    EightShifts(Xor(crc, w));
    EightShls(k);
    XorCommutes(Feed(crc, BitsOf(k)), 0);
    EightIsLinear(Shl8(i), LowByte(crc));
    LowByteMoves(LowByte(crc));
    TableIsRight(i);
    XorCommutes(Eight(Shl8(i)), Shl8(crc));
  }

  lemma {:induction false} FeedConcat(r: bv16, a: seq<bool>, b: seq<bool>)
    ensures Feed(r, a + b) == Feed(Feed(r, a), b)
    decreases |a|
  {
    hide BitStep;
    if a == [] {
      assert a + b == b;
    } else {
      FeedConcat(BitStep(r, a[0]), a[1..], b);
      assert (a + b)[1..] == a[1..] + b;
    }
  }

  /** Folding the one-byte step over a message. */
  function Fold(crc: bv16, bytes: seq<bv8>): bv16
    decreases |bytes|
  {
    if bytes == [] then crc else Fold(TableStep(crc, bytes[0]), bytes[1..])
  }

  lemma {:induction false} FoldIsFeed(crc: bv16, bytes: seq<bv8>)
    ensures Fold(crc, bytes) == Feed(crc, Message(bytes))
    decreases |bytes|
  {
    hide TableStep, Feed, BitsOf;
    if bytes == [] {
      FeedNothing(crc);
    } else {
      TableStepIsEightBits(crc, bytes[0]);
      FoldIsFeed(TableStep(crc, bytes[0]), bytes[1..]);
      FeedConcat(crc, BitsOf(bytes[0]), Message(bytes[1..]));
    }
  }

  lemma {:induction false} FeedNothing(r: bv16)
    ensures Feed(r, []) == r
  {
  }

  lemma {:induction false} FoldSnoc(crc: bv16, bytes: seq<bv8>, k: bv8)
    ensures Fold(crc, bytes + [k]) == TableStep(Fold(crc, bytes), k)
    decreases |bytes|
  {
    hide TableStep;
    if bytes == [] {
      assert [k][1..] == [] && bytes + [k] == [k];
    } else {
      FoldSnoc(TableStep(crc, bytes[0]), bytes[1..], k);
      assert (bytes + [k])[1..] == bytes[1..] + [k];
    }
  }

  // ----- long division -----

  /** Coefficient `i` of the register, from the highest. */
  predicate Bit(r: bv16, i: nat) { Top(ShlN(r, i)) }

  function Bits(r: bv16): (bits: seq<bool>)
    ensures |bits| == 16 && forall i :: 0 <= i < 16 ==> bits[i] == Bit(r, i)
  {
    seq(16, i requires 0 <= i < 16 => Bit(r, i))
  }

  /** Subtracting, which is adding, a polynomial of degree below 16 from the first 16 coefficients. */
  function Minus(x: seq<bool>, r: bv16): (y: seq<bool>)
    requires |x| >= 16
    ensures |y| == |x|
    ensures forall i :: 0 <= i < |x| ==> y[i] == if i < 16 then x[i] != Bit(r, i) else x[i]
  {
    seq(|x|, i requires 0 <= i < |x| => if i < 16 then x[i] != Bit(r, i) else x[i])
  }

  /** The remainder of the polynomial with the coefficients `x`, divided by x^16 + x^12 + x^5 + 1: a leading
      coefficient 1 is cancelled by subtracting the divisor under it. */
  function Remainder(x: seq<bool>): seq<bool>
    requires |x| >= 16
    decreases |x|
  {
    if |x| == 16 then x else Remainder(if x[0] then Minus(x[1..], POLYNOMIAL) else x[1..])
  }

  function Zeros(): (z: seq<bool>)
    ensures |z| == 16 && forall i :: 0 <= i < 16 ==> !z[i]
  {
    seq(16, _ => false)
  }

  lemma {:induction false} ShlNOfXor(a: bv16, b: bv16, n: nat)
    ensures ShlN(Xor(a, b), n) == Xor(ShlN(a, n), ShlN(b, n))
    decreases n
  {
    hide Xor, Shl;
    if n > 0 {
      ShlOfXor(a, b);
      ShlNOfXor(Shl(a), Shl(b), n - 1);
    }
  }

  lemma {:induction false} BitOfXor(a: bv16, b: bv16, i: nat)
    ensures Bit(Xor(a, b), i) == (Bit(a, i) != Bit(b, i))
  {
    hide Xor, ShlN, Top;
    ShlNOfXor(a, b, i);
    TopOfXor(ShlN(a, i), ShlN(b, i));
  }

  lemma {:induction false} FourShls(a: bv16, n: nat)
    ensures ShlN(a, n + 4) == ShlN(a << 4, n)
  {
    var a1 := Shl(a);
    var a2 := Shl(a1);
    var a3 := Shl(a2);
    assert ShlN(a, n + 4) == ShlN(a1, n + 3) == ShlN(a2, n + 2) by { hide Shl; }
    assert ShlN(a2, n + 2) == ShlN(a3, n + 1) == ShlN(Shl(a3), n) by { hide Shl; }
    assert Shl(a3) == a << 4;
  }

  lemma {:induction false} NothingLeft(a: bv16)
    ensures !Bit(a, 16)
  {
    AllShiftedOut(a);
  }

  lemma {:induction false} BitOfShl(a: bv16, i: nat)
    requires i < 16
    ensures Bit(Shl(a), i) == (i < 15 && Bit(a, i + 1))
  {
    hide Shl, Top;
    if i == 15 { NothingLeft(a); }
  }

  lemma {:induction false} BitOfNothing(i: nat)
    ensures !Bit(0, i)
    decreases i
  {
    assert Shl(0) == 0;
    if i > 0 { BitOfNothing(i - 1); }
  }

  lemma {:induction false} TopIsBit(a: bv16)
    ensures Top(a) == Bit(a, 0)
  {
  }

  lemma {:induction false} MinusTwice(x: seq<bool>, a: bv16, b: bv16)
    requires |x| >= 16
    ensures Minus(Minus(x, a), b) == Minus(x, Xor(a, b))
  {
    hide Bit, Xor;
    forall i: nat | i < 16 { BitOfXor(a, b, i); }
  }

  lemma {:induction false} MinusTail(x: seq<bool>, r: bv16)
    requires |x| > 16
    ensures Minus(x, r)[1..] == Minus(x[1..], Shl(r)) && Minus(x, r)[0] == (x[0] != Top(r))
  {
    hide Bit, Shl, Top;
    assert Top(r) == Bit(r, 0) by { TopIsBit(r); }
    forall i: nat | i < 16 { BitOfShl(r, i); }
  }

  /** The division with the message fed bit by bit into a register is long division of the message, with 16 zeros
      behind it. */
  lemma {:induction false} FeedIsRemainder(r: bv16, bits: seq<bool>)
    ensures Remainder(Minus(bits + Zeros(), r)) == Bits(Feed(r, bits))
    decreases |bits|
  {
    hide Bit, Shl, Top, Xor, Zeros, Minus;
    if bits == [] {
      assert Minus(bits + Zeros(), r) == Bits(r);
    } else {
      var x, r1 := bits + Zeros(), BitStep(r, bits[0]);
      var m := Minus(x, r);
      MinusTail(x, r);
      assert x[1..] == bits[1..] + Zeros();
      MinusTwice(x[1..], Shl(r), POLYNOMIAL);
      assert Remainder(m) == Remainder(Minus(x[1..], r1));
      FeedIsRemainder(r1, bits[1..]);
    }
  }

  lemma {:induction false} MinusNothing(x: seq<bool>)
    requires |x| >= 16
    ensures Minus(x, 0) == x
  {
    hide Bit;
    forall i: nat { BitOfNothing(i); }
  }

  /** For every byte string the table gives the remainder of the long division. */
  lemma {:induction false} TableDivides(bytes: seq<bv8>)
    ensures Bits(Fold(0, bytes)) == Remainder(Message(bytes) + Zeros())
  {
    hide Bits, Fold, Feed, Message, Remainder, Minus, Zeros;
    FoldIsFeed(0, bytes);
    FeedIsRemainder(0, Message(bytes));
    MinusNothing(Message(bytes) + Zeros());
  }

  /** `Hash::crc16` over a buffer */
  method Checksum(buf: seq<bv8>) returns (crc: bv16)
    ensures crc == Fold(0, buf) && Bits(crc) == Remainder(Message(buf) + Zeros())
  {
    hide TableStep, Bits, Remainder, Message, Zeros, Fold;
    crc := 0;
    FoldNothing(0);
    for counter := 0 to |buf|
      invariant crc == Fold(0, buf[..counter])
    {
      FoldSnoc(0, buf[..counter], buf[counter]);
      assert buf[..counter + 1] == buf[..counter] + [buf[counter]];
      crc := TableStep(crc, buf[counter]);
    }
    assert buf[..|buf|] == buf;
    TableDivides(buf);
  }

  /** A word is known by its bits. */
  lemma {:induction false} SameBits(a: bv16, b: bv16)
    requires Bits(a) == Bits(b)
    ensures a == b
  {
    hide Top, ShlN, Xor;
    var x := Xor(a, b);
    forall i: nat | i < 16 ensures !Top(ShlN(x, i)) {
      assert Bits(a)[i] == Bits(b)[i];
      ShlNOfXor(a, b, i);
      TopOfXor(ShlN(a, i), ShlN(b, i));
    }
    AllShiftedOut(x);
    NoTopsIsNothing(x, 16);
    XorIsNothing(a, b);
  }

  lemma {:induction false} XorIsNothing(a: bv16, b: bv16)
    requires Xor(a, b) == 0
    ensures a == b
  {
  }

  lemma {:induction false} NoTopsIsNothing(x: bv16, n: nat)
    requires ShlN(x, n) == 0 && forall i: nat :: i < n ==> !Top(ShlN(x, i))
    ensures x == 0
    decreases n
  {
    hide Top, Shl;
    if n > 0 {
      forall i: nat | i < n - 1 ensures !Top(ShlN(Shl(x), i)) { assert ShlN(x, i + 1) == ShlN(Shl(x), i); }
      NoTopsIsNothing(Shl(x), n - 1);
      assert ShlN(x, 0) == x;
      NoTopIsNothing(x);
    }
  }

  lemma {:induction false} NoTopIsNothing(x: bv16)
    requires !Top(x) && Shl(x) == 0
    ensures x == 0
  {
  }

  lemma {:induction false} AllShiftedOut(a: bv16)
    ensures ShlN(a, 16) == 0
  {
    FourShls(a, 12);
    FourShls(a << 4, 8);
    FourShls(a << 4 << 4, 4);
    FourShls(a << 4 << 4 << 4, 0);
    assert a << 4 << 4 << 4 << 4 == 0;
  }

  lemma {:induction false} FoldNothing(crc: bv16)
    ensures Fold(crc, []) == crc
  {
  }
}
