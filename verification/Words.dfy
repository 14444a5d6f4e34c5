// A byte as a number and as eight bits.
module ByteBits {
  import opened Powers

  // ----- numbers as digits, lowest first -----

  function Num(d: seq<bool>): (v: nat)
    ensures v < Pow2(|d|)
  {
    if d == [] then 0 else (if d[0] then 1 else 0) + 2 * Num(d[1..])
  }

  function Digits(v: int, n: nat): (d: seq<bool>)
    ensures |d| == n
    decreases n
  {
    if n == 0 then [] else [v % 2 == 1] + Digits(v / 2, n - 1)
  }

  lemma {:induction false} NumOfDigits(v: int, n: nat)
    requires 0 <= v < Pow2(n)
    ensures Num(Digits(v, n)) == v
  {
    if n > 0 {
      NumOfDigits(v / 2, n - 1);
    }
  }

  lemma {:induction false} DigitsOfNum(d: seq<bool>)
    ensures Digits(Num(d), |d|) == d
  {
    if d != [] {
      DigitsOfNum(d[1..]);
    }
  }

  lemma NumTail(d: seq<bool>)
    requires d != []
    ensures Num(d) == (if d[0] then 1 else 0) + 2 * Num(d[1..])
  {
  }

  lemma {:induction false} NumAppend(d: seq<bool>, e: seq<bool>)
    ensures Num(d + e) == Num(d) + Pow2(|d|) * Num(e)
  {
    if d == [] {
      assert d + e == e;
    } else {
      assert (d + e)[1..] == d[1..] + e;
      NumAppend(d[1..], e);
      NumTail(d);
      NumTail(d + e);
      Distribute(if d[0] then 1 else 0, Num(d[1..]), Pow2(|d| - 1), Num(e));
    }
  }

  lemma Distribute(h: int, a: int, p: int, n: int)
    ensures h + 2 * (a + p * n) == (h + 2 * a) + (2 * p) * n
  {
  }

  lemma NumPadded(d: seq<bool>)
    ensures Num(d + [false]) == Num(d)
  {
    NumAppend(d, [false]);
    NumTail([false]);
  }

  // ----- digits as bits -----

  function Join(d: seq<bool>): bv8
    requires |d| == 8
  {
    (if d[0] then 1 else 0) | (if d[1] then 2 else 0) | (if d[2] then 4 else 0) | (if d[3] then 8 else 0)
    | (if d[4] then 16 else 0) | (if d[5] then 32 else 0) | (if d[6] then 64 else 0) | (if d[7] then 128 else 0)
  }

  function Bits(b: bv8): (d: seq<bool>)
    ensures |d| == 8
  {
    [b & 1 != 0, b & 2 != 0, b & 4 != 0, b & 8 != 0, b & 16 != 0, b & 32 != 0, b & 64 != 0, b & 128 != 0]
  }

  lemma BitsOfJoin(d: seq<bool>)
    requires |d| == 8
    ensures Bits(Join(d)) == d
  {
  }

  lemma JoinOfBits(b: bv8)
    ensures Join(Bits(b)) == b
  {
  }

  // ----- bytes -----

  lemma Pow2Eight()
    ensures Pow2(8) == 256
  {
    assert Pow2(4) == 16;
  }

  // The byte with this number.
  function Byte8(v: int): bv8
    requires 0 <= v < 256
  {
    Join(Digits(v, 8))
  }

  function ByteValue(b: bv8): (v: int)
    ensures 0 <= v < 256
  {
    Pow2Eight();
    Num(Bits(b))
  }

  // Number and byte determine each other.
  lemma ByteOfValue(v: int)
    requires 0 <= v < 256
    ensures ByteValue(Byte8(v)) == v
  {
    hide Join, Bits, Digits, Num, Pow2;
    Pow2Eight();
    BitsOfJoin(Digits(v, 8));
    NumOfDigits(v, 8);
  }

  lemma ValueOfByte(b: bv8)
    ensures Byte8(ByteValue(b)) == b
  {
    hide Join, Bits, Digits, Num, Pow2;
    JoinOfBits(b);
    DigitsOfNum(Bits(b));
  }
}

// 32-bit words, and the 64-bit `unsigned long` variables that hold them in
// helper/mt19937ar.c.  Every operator has a name, so that the proofs about
// tempering and twisting below combine a few bit-level facts.
module Words {
  import opened ByteBits

  // ----- operators on words -----

  function Xor(x: bv32, y: bv32): bv32 { x ^ y }

  function Shr11(x: bv32): bv32 { x >> 11 }

  function Shr18(x: bv32): bv32 { x >> 18 }

  function Shl7(x: bv32): bv32 { (x << 7) & 0x9d2c5680 }

  function Shl15(x: bv32): bv32 { (x << 15) & 0xefc60000 }

  function Half(x: bv32): bv32 { x >> 1 }

  function Upper(x: bv32): bv32 { x & 0x80000000 }

  function Lower(x: bv32): bv32 { x & 0x7fffffff }

  function Or(x: bv32, y: bv32): bv32 { x | y }

  function Shr30(x: bv32): bv32 { x >> 30 }

  function Mag01(y: bv32): bv32 { if y & 1 == 0 then 0 else 0x9908b0df }

  // ----- the same operators on `unsigned long` -----

  function Widen(x: bv32): bv64 { x as bv64 }

  // The word kept by `& 0xffffffffUL`.
  function Low32(x: bv64): bv32 { (x & 0xffffffff) as bv32 }

  function XorLong(x: bv64, y: bv64): bv64 { x ^ y }

  function Shr11Long(x: bv64): bv64 { x >> 11 }

  function Shr18Long(x: bv64): bv64 { x >> 18 }

  function Shl7Long(x: bv64): bv64 { (x << 7) & 0x9d2c5680 }

  function Shl15Long(x: bv64): bv64 { (x << 15) & 0xefc60000 }

  function HalfLong(x: bv64): bv64 { x >> 1 }

  function UpperLong(x: bv64): bv64 { x & 0x80000000 }

  function LowerLong(x: bv64): bv64 { x & 0x7fffffff }

  function OrLong(x: bv64, y: bv64): bv64 { x | y }

  function Shr30Long(x: bv64): bv64 { x >> 30 }

  function Mask32(x: bv64): bv64 { x & 0xffffffff }

  function Mag01Long(y: bv64): bv64 { if y & 1 == 0 then 0 else 0x9908b0df }

  lemma WidenXor(x: bv32, y: bv32)
    ensures XorLong(Widen(x), Widen(y)) == Widen(Xor(x, y))
  {
  }

  lemma WidenShifts(x: bv32)
    ensures Shr11Long(Widen(x)) == Widen(Shr11(x))
    ensures Shr18Long(Widen(x)) == Widen(Shr18(x))
    ensures Shl7Long(Widen(x)) == Widen(Shl7(x))
    ensures Shl15Long(Widen(x)) == Widen(Shl15(x))
    ensures HalfLong(Widen(x)) == Widen(Half(x))
  {
  }

  lemma WidenParts(x: bv32)
    ensures UpperLong(Widen(x)) == Widen(Upper(x))
    ensures LowerLong(Widen(x)) == Widen(Lower(x))
    ensures Shr30Long(Widen(x)) == Widen(Shr30(x))
  {
  }

  lemma WidenOr(x: bv32, y: bv32)
    ensures OrLong(Widen(x), Widen(y)) == Widen(Or(x, y))
  {
  }

  lemma WidenMag01(y: bv32)
    ensures Mag01Long(Widen(y)) == Widen(Mag01(y))
  {
  }

  lemma MaskWide(x: bv64)
    ensures Mask32(x) == Widen(Low32(x))
  {
  }

  // ----- tempering -----

  function TemperRight11(w: bv32): bv32 { Xor(w, Shr11(w)) }

  function TemperLeft7(w: bv32): bv32 { w ^ ((w << 7) & 0x9d2c5680) }

  function TemperLeft15(w: bv32): bv32 { Xor(w, Shl15(w)) }

  function TemperRight18(w: bv32): bv32 { Xor(w, Shr18(w)) }

  function Temper(w: bv32): bv32
  {
    TemperRight18(TemperLeft15(TemperLeft7(TemperRight11(w))))
  }

  function TemperLong(y: bv64): bv64
  {
    var y1 := XorLong(y, Shr11Long(y));
    var y2 := XorLong(y1, Shl7Long(y1));
    var y3 := XorLong(y2, Shl15Long(y2));
    XorLong(y3, Shr18Long(y3))
  }

  lemma Left7IsXor(w: bv32)
    ensures TemperLeft7(w) == Xor(w, Shl7(w))
  {
  }

  lemma TemperWide(w: bv32)
    ensures TemperLong(Widen(w)) == Widen(Temper(w))
  {
    var w1 := TemperRight11(w);
    var w2 := TemperLeft7(w1);
    var w3 := TemperLeft15(w2);
    WidenShifts(w);
    WidenXor(w, Shr11(w));
    WidenShifts(w1);
    WidenXor(w1, Shl7(w1));
    Left7IsXor(w1);
    WidenShifts(w2);
    WidenXor(w2, Shl15(w2));
    WidenShifts(w3);
    WidenXor(w3, Shr18(w3));
  }

  // Undoing the steps of Temper, last step first.
  function Untemper(w: bv32): bv32
  {
    UntemperRight11(UntemperLeft7(TemperLeft15(TemperRight18(w))))
  }

  function UntemperRight11(w: bv32): bv32
  {
    TemperRight11(TemperRight11(TemperRight11(w)))
  }

  function UntemperLeft7(w: bv32): bv32
  {
    var a := w ^ ((w << 7) & 0x9d2c5680);
    var b := w ^ ((a << 7) & 0x9d2c5680);
    var c := w ^ ((b << 7) & 0x9d2c5680);
    w ^ ((c << 7) & 0x9d2c5680)
  }

  lemma XorCancel(x: bv32, y: bv32)
    ensures Xor(Xor(x, y), y) == x
  {
  }

  lemma XorTelescope(x: bv32, y: bv32, z: bv32)
    ensures Xor(Xor(x, y), Xor(y, z)) == Xor(x, z)
  {
  }

  lemma Right18Involution(w: bv32)
    ensures TemperRight18(TemperRight18(w)) == w
  {
    assert Shr18(Xor(w, Shr18(w))) == Shr18(w);
    XorCancel(w, Shr18(w));
  }

  lemma Left15Involution(w: bv32)
    ensures TemperLeft15(TemperLeft15(w)) == w
  {
    assert Shl15(Xor(w, Shl15(w))) == Shl15(w);
    XorCancel(w, Shl15(w));
  }

  lemma Left7Inverse(w: bv32)
    ensures UntemperLeft7(TemperLeft7(w)) == w
    ensures TemperLeft7(UntemperLeft7(w)) == w
  {
  }

  lemma Shr11Xor(x: bv32, y: bv32)
    ensures Shr11(Xor(x, y)) == Xor(Shr11(x), Shr11(y))
  {
  }

  lemma Shr11Twice(w: bv32)
    ensures Shr11(Shr11(Xor(w, Shr11(Shr11(w))))) == Shr11(Shr11(w))
  {
  }

  lemma Right11Twice(w: bv32)
    ensures TemperRight11(TemperRight11(w)) == Xor(w, Shr11(Shr11(w)))
  {
    Shr11Xor(w, Shr11(w));
    XorTelescope(w, Shr11(w), Shr11(Shr11(w)));
  }

  lemma Right11Inverse(w: bv32)
    ensures UntemperRight11(TemperRight11(w)) == w
    ensures TemperRight11(UntemperRight11(w)) == w
  {
    var v := Xor(w, Shr11(Shr11(w)));
    Right11Twice(w);
    Right11Twice(v);
    Shr11Twice(w);
    XorCancel(w, Shr11(Shr11(w)));
  }

  // Tempering is a bijection on words, with Untemper as its inverse.
  lemma TemperBijective(w: bv32)
    ensures Untemper(Temper(w)) == w
    ensures Temper(Untemper(w)) == w
  {
    var w1 := TemperRight11(w);
    var w2 := TemperLeft7(w1);
    Right18Involution(TemperLeft15(w2));
    Left15Involution(w2);
    Left7Inverse(w1);
    Right11Inverse(w);
    var u3 := TemperRight18(w);
    var u2 := TemperLeft15(u3);
    Right11Inverse(UntemperLeft7(u2));
    Left7Inverse(u2);
    Left15Involution(u3);
    Right18Involution(w);
  }

  // ----- the twist -----

  // The word that replaces `current`, from its successor and the word M ahead.
  function Twist(current: bv32, next: bv32, far: bv32): bv32
  {
    var y := Or(Upper(current), Lower(next));
    Xor(Xor(far, Half(y)), Mag01(y))
  }

  function TwistLong(current: bv64, next: bv64, far: bv64): bv64
  {
    var y := OrLong(UpperLong(current), LowerLong(next));
    XorLong(XorLong(far, HalfLong(y)), Mag01Long(y))
  }

  lemma TwistWide(current: bv32, next: bv32, far: bv32)
    ensures TwistLong(Widen(current), Widen(next), Widen(far)) == Widen(Twist(current, next, far))
  {
    var y := Or(Upper(current), Lower(next));
    WidenParts(current);
    WidenParts(next);
    WidenOr(Upper(current), Lower(next));
    WidenShifts(y);
    WidenMag01(y);
    WidenXor(far, Half(y));
    WidenXor(Xor(far, Half(y)), Mag01(y));
  }

  lemma NarrowWide(w: bv32)
    ensures Low32(Widen(w)) == w
  {
  }

  // A new word and its far partner fix the upper bit and the lower bits that
  // went into it.
  lemma TwistInjective(c: bv32, n: bv32, c': bv32, n': bv32, far: bv32)
    requires Twist(c, n, far) == Twist(c', n', far)
    ensures Upper(c) == Upper(c') && Lower(n) == Lower(n')
  {
    hide Xor, Half, Mag01, Or, Upper, Lower;
    var y, y' := Or(Upper(c), Lower(n)), Or(Upper(c'), Lower(n'));
    XorAssociates(far, Half(y), Mag01(y));
    XorAssociates(far, Half(y'), Mag01(y'));
    XorInjective(far, Xor(Half(y), Mag01(y)), Xor(Half(y'), Mag01(y')));
    HalfMagInjective(y, y');
    JoinInjective(c, n, c', n');
  }

  lemma XorAssociates(x: bv32, y: bv32, z: bv32)
    ensures Xor(Xor(x, y), z) == Xor(x, Xor(y, z))
  {
  }

  lemma XorInjective(x: bv32, y: bv32, z: bv32)
    requires Xor(x, y) == Xor(x, z)
    ensures y == z
  {
  }

  lemma HalfMagInjective(y: bv32, y': bv32)
    requires Xor(Half(y), Mag01(y)) == Xor(Half(y'), Mag01(y'))
    ensures y == y'
  {
  }

  lemma JoinInjective(c: bv32, n: bv32, c': bv32, n': bv32)
    requires Or(Upper(c), Lower(n)) == Or(Upper(c'), Lower(n'))
    ensures Upper(c) == Upper(c') && Lower(n) == Lower(n')
  {
  }

  lemma PartsInjective(x: bv32, y: bv32)
    requires Upper(x) == Upper(y) && Lower(x) == Lower(y)
    ensures x == y
  {
  }

  lemma Shr30Injective(x: bv32, y: bv32)
    requires Xor(x, Shr30(x)) == Xor(y, Shr30(y))
    ensures x == y
  {
  }

  // ----- words as numbers -----

  function Pack(b3: bv8, b2: bv8, b1: bv8, b0: bv8): bv32
  {
    ((b3 as bv32) << 24) | ((b2 as bv32) << 16) | ((b1 as bv32) << 8) | (b0 as bv32)
  }

  function Byte0(w: bv32): bv8 { (w & 0xff) as bv8 }

  function Byte1(w: bv32): bv8 { ((w >> 8) & 0xff) as bv8 }

  function Byte2(w: bv32): bv8 { ((w >> 16) & 0xff) as bv8 }

  function Byte3(w: bv32): bv8 { (w >> 24) as bv8 }

  lemma PackedBytes(b3: bv8, b2: bv8, b1: bv8, b0: bv8)
    ensures var w := Pack(b3, b2, b1, b0);
      Byte3(w) == b3 && Byte2(w) == b2 && Byte1(w) == b1 && Byte0(w) == b0
  {
  }

  lemma BytesPacked(w: bv32)
    ensures Pack(Byte3(w), Byte2(w), Byte1(w), Byte0(w)) == w
  {
  }

  // The word with this value.
  function ToWord(v: int): bv32
    requires 0 <= v < 0x1_0000_0000
  {
    Pack(Byte8(v / 256 / 256 / 256), Byte8(v / 256 / 256 % 256), Byte8(v / 256 % 256), Byte8(v % 256))
  }

  // The value of a word.
  function Value(w: bv32): (v: int)
    ensures 0 <= v < 0x1_0000_0000
  {
    ByteValue(Byte0(w)) + 256 * (ByteValue(Byte1(w))
    + 256 * (ByteValue(Byte2(w)) + 256 * ByteValue(Byte3(w))))
  }

  // Word and value determine each other.
  lemma ValueOfWord(v: int)
    requires 0 <= v < 0x1_0000_0000
    ensures Value(ToWord(v)) == v
  {
    hide Pack, Byte8, ByteValue, Byte0, Byte1, Byte2, Byte3;
    PackedBytes(Byte8(v / 256 / 256 / 256), Byte8(v / 256 / 256 % 256), Byte8(v / 256 % 256), Byte8(v % 256));
    ByteOfValue(v / 256 / 256 / 256);
    ByteOfValue(v / 256 / 256 % 256);
    ByteOfValue(v / 256 % 256);
    ByteOfValue(v % 256);
  }

  lemma LowByte(b: int, rest: int)
    requires 0 <= b < 256
    ensures (b + 256 * rest) % 256 == b && (b + 256 * rest) / 256 == rest
  {
  }

  lemma WordOfValue(w: bv32)
    ensures ToWord(Value(w)) == w
  {
    hide Pack, Byte8, ByteValue, Byte0, Byte1, Byte2, Byte3;
    var b0, b1, b2, b3 := Byte0(w), Byte1(w), Byte2(w), Byte3(w);
    var r2 := ByteValue(b2) + 256 * ByteValue(b3);
    LowByte(ByteValue(b2), ByteValue(b3));
    LowByte(ByteValue(b1), r2);
    LowByte(ByteValue(b0), ByteValue(b1) + 256 * r2);
    ValueOfByte(b0);
    ValueOfByte(b1);
    ValueOfByte(b2);
    ValueOfByte(b3);
    BytesPacked(w);
  }

  lemma ToWordInjective(v: int, w: int)
    requires 0 <= v < 0x1_0000_0000 && 0 <= w < 0x1_0000_0000 && ToWord(v) == ToWord(w)
    ensures v == w
  {
    hide ToWord, Value;
    ValueOfWord(v);
    ValueOfWord(w);
  }

  lemma ValueInjective(v: bv32, w: bv32)
    requires Value(v) == Value(w)
    ensures v == w
  {
    hide ToWord, Value;
    WordOfValue(v);
    WordOfValue(w);
  }

  // ----- shifts of words as divisions -----

  function Bits32(w: bv32): (d: seq<bool>)
    ensures |d| == 32
  {
    Bits(Byte0(w)) + (Bits(Byte1(w)) + (Bits(Byte2(w)) + Bits(Byte3(w))))
  }

  lemma ValueIsNum(w: bv32)
    ensures Value(w) == Num(Bits32(w))
  {
    hide Byte0, Byte1, Byte2, Byte3, Bits, Num;
    NumAppend(Bits(Byte2(w)), Bits(Byte3(w)));
    NumAppend(Bits(Byte1(w)), Bits(Byte2(w)) + Bits(Byte3(w)));
    NumAppend(Bits(Byte0(w)), Bits(Byte1(w)) + (Bits(Byte2(w)) + Bits(Byte3(w))));
    Pow2Eight();
  }

  predicate Odd(w: bv32) { w & 1 == 1 }

  // A byte moves one place down, and the lowest bit of the byte above comes in.
  function Shifted(b: bv8, above: bv8): bv8 { (b >> 1) | (above << 7) }

  lemma HalfBytes(w: bv32)
    ensures Byte0(Half(w)) == Shifted(Byte0(w), Byte1(w)) && Byte1(Half(w)) == Shifted(Byte1(w), Byte2(w))
    ensures Byte2(Half(w)) == Shifted(Byte2(w), Byte3(w)) && Byte3(Half(w)) == Shifted(Byte3(w), 0)
  {
  }

  lemma ShiftedBits(b: bv8, above: bv8)
    ensures Bits(Shifted(b, above)) == Bits(b)[1..] + [Bits(above)[0]]
  {
  }

  lemma LowestBit(w: bv32)
    ensures Bits(Byte0(w))[0] == Odd(w) && !Bits(0)[0]
  {
  }

  lemma HalfBits(w: bv32)
    ensures Bits32(Half(w)) == Bits32(w)[1..] + [false]
    ensures Bits32(w)[0] == Odd(w)
  {
    hide Half, Odd, Bits, Byte0, Byte1, Byte2, Byte3, Shifted;
    HalfBytes(w);
    ShiftedBits(Byte0(w), Byte1(w));
    ShiftedBits(Byte1(w), Byte2(w));
    ShiftedBits(Byte2(w), Byte3(w));
    ShiftedBits(Byte3(w), 0);
    LowestBit(w);
    ShiftedDigits(Bits(Byte0(w)), Bits(Byte1(w)), Bits(Byte2(w)), Bits(Byte3(w)));
  }

  lemma ShiftedDigits(d0: seq<bool>, d1: seq<bool>, d2: seq<bool>, d3: seq<bool>)
    requires d0 != [] && d1 != [] && d2 != [] && d3 != []
    ensures (d0[1..] + [d1[0]]) + ((d1[1..] + [d2[0]]) + ((d2[1..] + [d3[0]]) + (d3[1..] + [false])))
         == (d0 + (d1 + (d2 + d3)))[1..] + [false]
  {
    assert [d1[0]] + d1[1..] == d1 && [d2[0]] + d2[1..] == d2 && [d3[0]] + d3[1..] == d3;
  }

  // A shift to the right halves the number, and drops its parity.
  lemma HalfValue(w: bv32)
    ensures Value(Half(w)) == Value(w) / 2
    ensures Value(w) % 2 == 1 <==> Odd(w)
  {
    hide Half, Odd, Value, Bits32, Num;
    ValueIsNum(w);
    ValueIsNum(Half(w));
    HalfBits(w);
    NumTail(Bits32(w));
    NumPadded(Bits32(w)[1..]);
  }

  function High32(x: bv64): bv32 { (x >> 32) as bv32 }

  function ValueLong(x: bv64): int
  {
    Value(Low32(x)) + 0x1_0000_0000 * Value(High32(x))
  }

  lemma ValueWide(w: bv32)
    ensures ValueLong(Widen(w)) == Value(w)
  {
    NarrowWide(w);
    HighWide(w);
    ValueZero();
  }

  lemma HighWide(w: bv32)
    ensures High32(Widen(w)) == 0
  {
  }

  lemma ValueZero()
    ensures Value(0) == 0
  {
  }

  // ----- seeding -----

  const SEED_MULTIPLIER := 1812433253

  // (SEED_MULTIPLIER * (p xor (p >> 30)) + i) mod 2^32
  function SeedStep(previous: bv32, i: nat): bv32
  {
    ToWord((SEED_MULTIPLIER * Value(Xor(previous, Shr30(previous))) + i) % 0x1_0000_0000)
  }

  // The step of Knuth's initializer, in numbers.
  lemma SeedStepValue(previous: bv32, i: nat)
    ensures Value(SeedStep(previous, i)) == (1812433253 * Value(previous ^ (previous >> 30)) + i) % 0x1_0000_0000
  {
    hide ToWord, Value;
    ValueOfWord((SEED_MULTIPLIER * Value(Xor(previous, Shr30(previous))) + i) % 0x1_0000_0000);
  }

  // The product and the sum are `unsigned long`, taken modulo 2^64; the mask
  // keeps the low 32 bits.
  function SeedStepLong(previous: bv64, i: nat): bv64
  {
    var product := (SEED_MULTIPLIER * ValueLong(XorLong(previous, Shr30Long(previous)))) % 0x1_0000_0000_0000_0000;
    var sum := (product + i) % 0x1_0000_0000_0000_0000;
    Widen(ToWord(sum % 0x1_0000_0000))
  }

  lemma SeedStepWide(previous: bv32, i: nat)
    ensures SeedStepLong(Widen(previous), i) == Widen(SeedStep(previous, i))
  {
    hide ToWord, Value, ValueLong, Xor, XorLong, Shr30, Shr30Long, Widen;
    WidenParts(previous);
    WidenXor(previous, Shr30(previous));
    ValueWide(Xor(previous, Shr30(previous)));
    WrapTwice(SEED_MULTIPLIER * Value(Xor(previous, Shr30(previous))), i);
  }

  lemma WrapTwice(x: int, i: int)
    ensures ((x % 0x1_0000_0000_0000_0000 + i) % 0x1_0000_0000_0000_0000) % 0x1_0000_0000 == (x + i) % 0x1_0000_0000
  {
  }

  // A seeding step loses nothing: the multiplier has an inverse modulo 2^32.
  lemma SeedStepInjective(p: bv32, q: bv32, i: nat)
    requires SeedStep(p, i) == SeedStep(q, i)
    ensures p == q
  {
    hide ToWord, Value, Xor, Shr30;
    var v, w := Value(Xor(p, Shr30(p))), Value(Xor(q, Shr30(q)));
    ToWordInjective((SEED_MULTIPLIER * v + i) % 0x1_0000_0000, (SEED_MULTIPLIER * w + i) % 0x1_0000_0000);
    MultiplierInjective(v, w, i);
    ValueInjective(Xor(p, Shr30(p)), Xor(q, Shr30(q)));
    Shr30Injective(p, q);
  }

  lemma MultiplierInjective(v: int, w: int, i: int)
    requires 0 <= v < 0x1_0000_0000 && 0 <= w < 0x1_0000_0000
    requires (SEED_MULTIPLIER * v + i) % 0x1_0000_0000 == (SEED_MULTIPLIER * w + i) % 0x1_0000_0000
    ensures v == w
  {
    var d := v - w;
    var m := (SEED_MULTIPLIER * v + i) / 0x1_0000_0000 - (SEED_MULTIPLIER * w + i) / 0x1_0000_0000;
    assert SEED_MULTIPLIER * d == 0x1_0000_0000 * m;
    assert 2520285293 * SEED_MULTIPLIER == 1 + 1063535193 * 0x1_0000_0000;
    assert d == 0x1_0000_0000 * (2520285293 * m - 1063535193 * d);
  }
}
