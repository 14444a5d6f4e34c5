// The Mersenne Twister of helper/mt19937ar.c against the recurrence of
// mersenne_twister_engine (ISO/IEC 14882:2011, section 26.5.3.2).
module Mt19937 {
  import opened Words

  const N: nat := 624
  const M: nat := 397

  type StateVector = s: seq<bv32> | |s| == 624 witness seq(624, _ => 0)

  // ----- the recurrence -----

  // The infinite word sequence that starts with the N words of `init`.
  function Word(init: StateVector, n: nat): bv32
  {
    if n < N then init[n] else Twist(Word(init, n - N), Word(init, n - N + 1), Word(init, n - N + M))
  }

  // Word i of the state vector that a seed gives.
  function SeedWord(s: bv32, i: nat): bv32
    requires i < N
  {
    if i == 0 then s else SeedStep(SeedWord(s, i - 1), i)
  }

  function SeedVector(s: bv32): (init: StateVector)
    ensures forall i :: 0 <= i < N ==> init[i] == SeedWord(s, i)
  {
    seq(N, i requires 0 <= i < N => SeedWord(s, i))
  }

  // The tempered word at this position.
  function OutputAt(init: StateVector, n: nat): bv32
  {
    Temper(Word(init, n))
  }

  // Output k, counted from 0, of the engine with this seed.
  function Output(s: bv32, k: nat): bv32
  {
    OutputAt(SeedVector(s), N + k)
  }

  const DEFAULT_SEED: bv32 := 5489

  lemma SeedFirst(s: bv64)
    ensures Mask32(s) == Widen(SeedWord(Low32(s), 0))
  {
    MaskWide(s);
  }

  lemma SeedStepAt(s: bv32, i: nat)
    requires 0 < i < N
    ensures SeedStepLong(Widen(SeedWord(s, i - 1)), i) == Widen(SeedWord(s, i))
  {
    hide SeedStepLong, Widen, SeedStep;
    SeedStepWide(SeedWord(s, i - 1), i);
  }

  lemma NextWord(init: StateVector, n: nat)
    ensures TwistLong(Widen(Word(init, n)), Widen(Word(init, n + 1)), Widen(Word(init, n + M)))
         == Widen(Word(init, n + N))
  {
    hide TwistLong, Widen, Twist;
    TwistWide(Word(init, n), Word(init, n + 1), Word(init, n + M));
  }

  // ----- the generator -----

  // struct mt19937ar_state.  The static mt and mti of the global functions are
  // one more instance, constructed unseeded.
  class State {
    const mt: array<bv64>
    var mti: int
    // The vector of the last seeding, and where in its word sequence mt[0] is.
    ghost var init: StateVector
    ghost var position: nat

    ghost predicate Valid()
      reads this, mt
    {
      && mt.Length == N
      && (mti == N + 1 || (0 <= mti <= N && 0 <= Drawn() && Holds(position)))
    }

    // The array holds the N words from this position of the sequence.
    ghost predicate Holds(base: nat)
      reads this, mt
    {
      mt.Length == N && forall i :: 0 <= i < N ==> mt[i] == Widen(Word(init, base + i))
    }

    ghost predicate Unseeded()
      reads this
    {
      mti == N + 1
    }

    // The number of outputs since the last seeding.
    ghost function Drawn(): int
      reads this
    {
      position + mti - N
    }

    constructor ()
      ensures Valid() && Unseeded() && fresh(mt)
    {
      mt := new bv64[N];
      mti := N + 1;
      init, position := SeedVector(DEFAULT_SEED), 0;
    }

    // init_genrand and init_genrand_r
    method Seed(s: bv64)
      requires mt.Length == N
      modifies this, mt
      ensures Valid() && !Unseeded()
      ensures init == SeedVector(Low32(s)) && Drawn() == 0 && mti == N
    {
      hide SeedStepLong, Widen, SeedStep, Mask32, Low32, SeedWord;
      ghost var low := Low32(s);
      mt[0] := Mask32(s);
      SeedFirst(s);
      mti := 1;
      while mti < N
        invariant 1 <= mti <= N
        invariant forall i :: 0 <= i < mti ==> mt[i] == Widen(SeedWord(low, i))
      {
        mt[mti] := SeedStepLong(mt[mti - 1], mti);
        SeedStepAt(low, mti);
        mti := mti + 1;
      }
      init, position := SeedVector(low), 0;
    }

    ghost predicate PartlyNew(base: nat, kk: nat)
      reads this, mt
    {
      && mt.Length == N
      && (forall i :: 0 <= i < N && i < kk ==> mt[i] == Widen(Word(init, base + N + i)))
      && (forall i :: kk <= i < N ==> mt[i] == Widen(Word(init, base + i)))
    }

    method Replace(ghost base: nat, kk: nat, next: nat, far: nat)
      requires kk < N && next < N && far < N && PartlyNew(base, kk)
      requires mt[next] == Widen(Word(init, base + kk + 1))
      requires mt[far] == Widen(Word(init, base + kk + M))
      modifies mt
      ensures PartlyNew(base, kk + 1)
    {
      hide Word, TwistLong, Widen;
      NextWord(init, base + kk);
      mt[kk] := TwistLong(mt[kk], mt[next], mt[far]);
    }

    // The block of N words is replaced in place by the next N words: first the
    // words whose partner M ahead is still old, then those whose partner is
    // already new, then the last word, whose successor is the new first word.
    method Regenerate()
      requires Holds(position)
      modifies mt, `position
      ensures position == old(position) + N && Holds(position)
    {
      hide Word, Widen;
      var kk := 0;
      while kk < N - M
        invariant 0 <= kk <= N - M
        invariant position == old(position) && PartlyNew(position, kk)
      {
        Replace(position, kk, kk + 1, kk + M);
        kk := kk + 1;
      }
      while kk < N - 1
        invariant N - M <= kk <= N - 1
        invariant position == old(position) && PartlyNew(position, kk)
      {
        Replace(position, kk, kk + 1, kk + (M - N));
        kk := kk + 1;
      }
      Replace(position, N - 1, 0, M - 1);
      position := position + N;
    }

    // genrand_int32 and genrand_int32_r
    method Next() returns (y: bv64)
      requires Valid()
      modifies this, mt
      ensures Valid() && !Unseeded()
      ensures init == if old(Unseeded()) then SeedVector(5489) else old(init)
      ensures Drawn() == if old(Unseeded()) then 1 else old(Drawn()) + 1
      ensures y == Widen(OutputAt(init, N + Drawn() - 1))
    {
      hide TemperLong, Temper, Widen, Word, Low32;
      if mti >= N {
        if mti == N + 1 {
          Seed(5489);
          SeedConstant();
        }
        Regenerate();
        mti := 0;
      }
      y := mt[mti];
      mti := mti + 1;
      TemperWide(Word(init, N + Drawn() - 1));
      y := TemperLong(y);
    }
  }

  lemma SeedConstant()
    ensures Low32(5489) == DEFAULT_SEED
  {
  }

  // ----- recovering the state from outputs -----

  ghost predicate AreOutputs(outs: StateVector, init: StateVector, position: nat)
  {
    forall i :: 0 <= i < N ==> outs[i] == OutputAt(init, position + i)
  }

  function Recovered(outs: StateVector): (init: StateVector)
  {
    seq(N, i requires 0 <= i < N => Untemper(outs[i]))
  }

  // From N consecutive outputs the state vector is recovered, and it generates
  // every later word.
  lemma {:induction false} RecoveredWords(outs: StateVector, init: StateVector, position: nat, n: nat)
    requires AreOutputs(outs, init, position)
    ensures Word(Recovered(outs), n) == Word(init, position + n)
  {
    hide Twist, Temper, Untemper;
    if n < N {
      assert outs[n] == OutputAt(init, position + n);
      TemperBijective(Word(init, position + n));
    } else {
      RecoveredWords(outs, init, position, n - N);
      RecoveredWords(outs, init, position, n - N + 1);
      RecoveredWords(outs, init, position, n - N + M);
    }
  }

  ghost predicate SameOutput(a: StateVector, b: StateVector, p: nat, q: nat, i: nat)
  {
    OutputAt(a, p + i) == OutputAt(b, q + i)
  }

  // Two generators that agree on N consecutive outputs, wherever each of them
  // stands, agree on all later outputs.
  lemma OutputsDetermineFuture(a: StateVector, b: StateVector, p: nat, q: nat, n: nat)
    requires forall i: nat :: i < N ==> SameOutput(a, b, p, q, i)
    ensures OutputAt(a, p + n) == OutputAt(b, q + n)
  {
    hide Word, Temper, Untemper;
    var outs: StateVector := seq(N, i requires 0 <= i < N => OutputAt(a, p + i));
    assert AreOutputs(outs, a, p);
    forall i | 0 <= i < N
      ensures outs[i] == OutputAt(b, q + i)
    {
      assert SameOutput(a, b, p, q, i);
    }
    RecoveredWords(outs, a, p, n);
    RecoveredWords(outs, b, q, n);
  }

  // ----- running the recurrence backwards -----

  ghost predicate SameWords(a: StateVector, b: StateVector, from: nat)
  {
    forall n :: from <= n < from + N ==> Word(a, n) == Word(b, n)
  }

  lemma WordAhead(init: StateVector, n: nat)
    ensures Word(init, n + N) == Twist(Word(init, n), Word(init, n + 1), Word(init, n + M))
  {
  }

  // N words fix the word before them, as long as it is not the first one.
  lemma WordBefore(a: StateVector, b: StateVector, from: nat)
    requires 2 <= from && SameWords(a, b, from)
    ensures Word(a, from - 1) == Word(b, from - 1)
  {
    PartsBefore(a, b, from, from - 1);
    PartsBefore(a, b, from, from - 2);
    PartsInjective(Word(a, from - 1), Word(b, from - 1));
  }

  lemma PartsBefore(a: StateVector, b: StateVector, from: nat, n: nat)
    requires SameWords(a, b, from)
    requires from <= n + M && n < from
    ensures Upper(Word(a, n)) == Upper(Word(b, n))
    ensures Lower(Word(a, n + 1)) == Lower(Word(b, n + 1))
  {
    hide Twist, Upper, Lower, Word;
    WordAhead(a, n);
    WordAhead(b, n);
    TwistInjective(Word(a, n), Word(a, n + 1), Word(b, n), Word(b, n + 1), Word(a, n + M));
  }

  lemma {:induction false} SecondWord(a: StateVector, b: StateVector, from: nat)
    requires 1 <= from && SameWords(a, b, from)
    ensures Word(a, 1) == Word(b, 1)
  {
    if from > 1 {
      WordBefore(a, b, from);
      SecondWord(a, b, from - 1);
    }
  }

  // ----- outputs and seeds -----

  // A word of the seed vector fixes the seed.
  lemma {:induction false} SeedWordInjective(s: bv32, t: bv32, i: nat)
    requires i < N && SeedWord(s, i) == SeedWord(t, i)
    ensures s == t
  {
    hide SeedStep;
    if i > 0 {
      SeedStepInjective(SeedWord(s, i - 1), SeedWord(t, i - 1), i);
      SeedWordInjective(s, t, i - 1);
    }
  }

  // Equal outputs k and M ahead of the words that made output k agree on the
  // bits of those words that the twist used.
  lemma SamePartsAt(s: bv32, t: bv32, n: nat)
    requires N <= n + M && Output(s, n) == Output(t, n) && Output(s, n + M - N) == Output(t, n + M - N)
    ensures Upper(Word(SeedVector(s), n)) == Upper(Word(SeedVector(t), n))
    ensures Lower(Word(SeedVector(s), n + 1)) == Lower(Word(SeedVector(t), n + 1))
  {
    hide Twist, Upper, Lower, Word, Temper;
    var a, b := SeedVector(s), SeedVector(t);
    SameTempered(s, t, n);
    SameTempered(s, t, n + M - N);
    WordAhead(a, n);
    WordAhead(b, n);
    TwistInjective(Word(a, n), Word(a, n + 1), Word(b, n), Word(b, n + 1), Word(a, n + M));
  }

  // N - M
  const GAP: nat := 227

  // Outputs 0 and 1 are the far partners in outputs GAP and GAP + 1, so
  // that these four outputs fix word GAP + 1 of the seed vector.
  ghost predicate SameFour(s: bv32, t: bv32)
  {
    && Output(s, 0) == Output(t, 0) && Output(s, 1) == Output(t, 1)
    && Output(s, GAP) == Output(t, GAP) && Output(s, GAP + 1) == Output(t, GAP + 1)
  }

  // Four outputs are the same exactly when the seeds are the same.
  lemma OutputsDetermineSeed(s: bv32, t: bv32)
    ensures SameFour(s, t) <==> s == t
  {
    hide Output, Upper, Lower, SeedWord;
    if SameFour(s, t) {
      assert GAP == N - M;
      var i := GAP + 1;
      SamePartsAt(s, t, i - 1);
      SamePartsAt(s, t, i);
      PartsInjective(Word(SeedVector(s), i), Word(SeedVector(t), i));
      SeedWordInjective(s, t, i);
    }
  }

  // So are any N consecutive outputs, wherever they start.
  lemma LaterOutputsDetermineSeed(s: bv32, t: bv32, p: nat)
    ensures (forall k :: p <= k < p + N ==> Output(s, k) == Output(t, k)) <==> s == t
  {
    hide SeedStep;
    if forall k :: p <= k < p + N ==> Output(s, k) == Output(t, k) {
      var a, b := SeedVector(s), SeedVector(t);
      forall n | N + p <= n < N + p + N
        ensures Word(a, n) == Word(b, n)
      {
        SameTempered(s, t, n - N);
      }
      SecondWord(a, b, N + p);
      SeedWordInjective(s, t, 1);
    }
  }

  lemma SameTempered(s: bv32, t: bv32, k: nat)
    requires Output(s, k) == Output(t, k)
    ensures Word(SeedVector(s), N + k) == Word(SeedVector(t), N + k)
  {
    hide Temper, Untemper, Word;
    TemperBijective(Word(SeedVector(s), N + k));
    TemperBijective(Word(SeedVector(t), N + k));
  }
}
