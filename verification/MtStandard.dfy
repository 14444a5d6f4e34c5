// mt19937 as ISO/IEC 14882:2011, section 26.5.3.2, defines it: the
// mersenne_twister_engine with word size 32, state size 624, shift size 397,
// mask bits 31, xor mask 0x9908b0df, and the tempering parameters 11,
// 0xffffffff, 7, 0x9d2c5680, 15, 0xefc60000 and 18.  The words of helper/mt19937ar.c
// are the words of this engine.
module MtStandard {
  import opened Mt19937
  import opened Words

  // ----- the engine -----

  // Addition of bits.
  function Sum(x: bv32, y: bv32): bv32 { x ^ y }

  function Right11(z: bv32): bv32 { Sum(z, z >> 11) }

  function Right18(z: bv32): bv32 { Sum(z, z >> 18) }

  function Left7(z: bv32): bv32 { Sum(z, (z << 7) & 0x9d2c5680) }

  function Left15(z: bv32): bv32 { Sum(z, (z << 15) & 0xefc60000) }

  function Tempered(x: bv32): bv32
  {
    Right18(Left15(Left7(Right11(x))))
  }

  // The upper bit of one word, and the other 31 bits of the next one.
  function Joined(x: bv32, next: bv32): bv32
  {
    (x & 0x80000000) | (next & 0x7fffffff)
  }

  function XorMask(y: bv32): bv32
  {
    if y & 1 == 1 then 0x9908b0df else 0
  }

  function Transition(x: bv32, next: bv32, far: bv32): bv32
  {
    Sum(Sum(far, Joined(x, next) >> 1), XorMask(Joined(x, next)))
  }

  // ----- tempering -----

  lemma SumIsXor(x: bv32, y: bv32)
    ensures Sum(x, y) == Xor(x, y)
  {
  }

  lemma SameShifts(w: bv32)
    ensures w >> 11 == Shr11(w) && w >> 18 == Shr18(w) && w >> 1 == Half(w)
    ensures (w << 7) & 0x9d2c5680 == Shl7(w) && (w << 15) & 0xefc60000 == Shl15(w)
  {
  }

  lemma SameSteps(w: bv32)
    ensures Right11(w) == TemperRight11(w) && Right18(w) == TemperRight18(w)
    ensures Left7(w) == TemperLeft7(w) && Left15(w) == TemperLeft15(w)
  {
    hide Sum, Xor, Shr11, Shr18, Shl7, Shl15, TemperLeft7;
    SameShifts(w);
    SumIsXor(w, w >> 11);
    SumIsXor(w, w >> 18);
    SumIsXor(w, (w << 7) & 0x9d2c5680);
    SumIsXor(w, (w << 15) & 0xefc60000);
    Left7IsXor(w);
  }

  lemma TemperIsStandard(w: bv32)
    ensures Temper(w) == Tempered(w)
  {
    hide Right11, Right18, Left7, Left15, TemperRight11, TemperRight18, TemperLeft7, TemperLeft15;
    SameSteps(w);
    SameSteps(TemperRight11(w));
    SameSteps(TemperLeft7(TemperRight11(w)));
    SameSteps(TemperLeft15(TemperLeft7(TemperRight11(w))));
  }

  // ----- the recurrence -----

  lemma JoinedParts(x: bv32, next: bv32)
    ensures Joined(x, next) == Or(Upper(x), Lower(next))
  {
  }

  lemma MaskIsMag(y: bv32)
    ensures XorMask(y) == Mag01(y)
  {
  }

  lemma TwistIsStandard(x: bv32, next: bv32, far: bv32)
    ensures Twist(x, next, far) == Transition(x, next, far)
  {
    hide Joined, Or, Upper, Lower, XorMask, Mag01, Sum, Xor, Half;
    JoinedParts(x, next);
    SameShifts(Joined(x, next));
    SumIsXor(far, Joined(x, next) >> 1);
    SumIsXor(Xor(far, Half(Joined(x, next))), XorMask(Joined(x, next)));
    MaskIsMag(Joined(x, next));
  }

  // ----- the sequence of words -----

  // The engine's initial state: the seed, and word i, for 0 < i < 624, in numbers.
  lemma InitialWord(seed: bv32, i: nat)
    requires 0 < i < 624
    ensures Word(SeedVector(seed), 0) == seed
    ensures var previous := Word(SeedVector(seed), i - 1);
      Value(Word(SeedVector(seed), i)) == (1812433253 * Value(previous ^ (previous >> 30)) + i) % 0x1_0000_0000
  {
    hide SeedStep, Value, Twist;
    SeedStepValue(SeedWord(seed, i - 1), i);
  }

  lemma LaterWord(init: StateVector, n: nat)
    ensures Word(init, n + 624) == Transition(Word(init, n), Word(init, n + 1), Word(init, n + 397))
  {
    hide Twist, Transition;
    TwistIsStandard(Word(init, n), Word(init, n + 1), Word(init, n + 397));
  }

  lemma OutputIsStandard(seed: bv32, k: nat)
    ensures Output(seed, k) == Tempered(Word(SeedVector(seed), 624 + k))
  {
    hide Temper, Tempered, Word;
    TemperIsStandard(Word(SeedVector(seed), 624 + k));
  }
}
