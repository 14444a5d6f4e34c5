// When two digests give the same 4 KiB block, for each kind of generator.
module BlockIdentity {
  import opened Bytes
  import opened FillBlock
  import opened Sequences
  import Lcg
  import Mt19937
  import Words

  lemma SegmentsParts(g: Generator, a: seq<byte>, rows: nat)
    requires |a| % 32 == 0 && |a| >= 32
    ensures |a[32..]| % 32 == 0 && Segments(g, a, rows) == Segment(g, a[..32], rows) + Segments(g, a[32..], rows)
  {
    hide Segment;
  }

  lemma SegmentsSplit(g: Generator, a: seq<byte>, b: seq<byte>, rows: nat)
    requires |a| == |b| && |a| % 32 == 0 && |a| >= 32
    ensures |a[32..]| % 32 == 0
    ensures Segments(g, a, rows) == Segments(g, b, rows) <==>
            Segment(g, a[..32], rows) == Segment(g, b[..32], rows) &&
            Segments(g, a[32..], rows) == Segments(g, b[32..], rows)
  {
    hide Segment, Segments;
    SegmentsParts(g, a, rows);
    SegmentsParts(g, b, rows);
    SameParts(Segment(g, a[..32], rows), Segments(g, a[32..], rows),
              Segment(g, b[..32], rows), Segments(g, b[32..], rows));
  }

  // ----- no generator: the digest is copied -----

  lemma CopiesInjective(x: seq<byte>, y: seq<byte>, n: nat)
    requires |x| == |y| == 32 && n > 0 && Copies(x, n) == Copies(y, n)
    ensures x == y
  {
    assert Copies(x, n)[32 * (n - 1)..] == x;
    assert Copies(y, n)[32 * (n - 1)..] == y;
  }

  lemma {:induction false} NullSegments(g: Generator, a: seq<byte>, b: seq<byte>, rows: nat)
    requires g.kind == GenNull && rows > 0
    requires |a| == |b| && |a| % 32 == 0
    ensures Segments(g, a, rows) == Segments(g, b, rows) <==> a == b
  {
    hide Segments, Copies;
    if a == [] {
      assert b == [];
    } else {
      SegmentsSplit(g, a, b, rows);
      NullSegments(g, a[32..], b[32..], rows);
      assert a == a[..32] + a[32..] && b == b[..32] + b[32..];
      if Segment(g, a[..32], rows) == Segment(g, b[..32], rows) {
        CopiesInjective(a[..32], b[..32], rows);
      }
    }
  }

  // Without a generator, digests of one length give the same block exactly when
  // they are the same digest.
  lemma NullBlocks(g: Generator, a: Digest, b: Digest)
    requires g.kind == GenNull && |a| == |b|
    ensures Block(g, a) == Block(g, b) <==> a == b
  {
    NullSegments(g, a, b, Rows(|a|));
  }

  // ----- a seeded generator: only the first four bytes of each group count -----

  function Seeds(md5: seq<byte>): (s: seq<uint32>)
    requires |md5| % 32 == 0
  {
    if md5 == [] then [] else [Load32(md5[..32])] + Seeds(md5[32..])
  }

  lemma SeedsParts(a: seq<byte>)
    requires |a| % 32 == 0 && a != []
    ensures |Seeds(a)| > 0 && Seeds(a)[0] == Load32(a[..32]) && Seeds(a)[1..] == Seeds(a[32..])
  {
    hide Load32;
  }

  lemma SeedsCons(a: seq<byte>, b: seq<byte>)
    requires |a| == |b| && |a| % 32 == 0 && a != []
    ensures Seeds(a) == Seeds(b) <==> Load32(a[..32]) == Load32(b[..32]) && Seeds(a[32..]) == Seeds(b[32..])
  {
    hide Load32, Seeds;
    SeedsParts(a);
    SeedsParts(b);
    assert Seeds(a) == [Seeds(a)[0]] + Seeds(a)[1..];
    assert Seeds(b) == [Seeds(b)[0]] + Seeds(b)[1..];
  }

  lemma {:induction false} SeedsGiveSegments(g: Generator, a: seq<byte>, b: seq<byte>, rows: nat)
    requires g.kind != GenNull
    requires |a| == |b| && |a| % 32 == 0 && Seeds(a) == Seeds(b)
    ensures Segments(g, a, rows) == Segments(g, b, rows)
  {
    hide Load32, SeededBytes, Seeds;
    if a != [] {
      SeedsCons(a, b);
      SeedsGiveSegments(g, a[32..], b[32..], rows);
    }
  }

  // With any seeded generator the block depends on nothing but those bytes, and
  // not on what the generator produced before.
  lemma SeedsGiveBlock(g: Generator, a: Digest, b: Digest)
    requires g.kind != GenNull && |a| == |b| && Seeds(a) == Seeds(b)
    ensures Block(g, a) == Block(g, b)
  {
    hide Seeds, Segments;
    SeedsGiveSegments(g, a, b, Rows(|a|));
  }

  lemma {:induction false} SeededBytesEqual(g: Generator, s: uint32, t: uint32, n: nat)
    requires g.kind != GenNull
    ensures SeededBytes(g, s, n) == SeededBytes(g, t, n) <==>
            forall j :: 0 <= j < n ==> SeededWord(g, s, j) == SeededWord(g, t, j)
  {
    hide SeededWord, Store32, Load32;
    if n > 0 {
      SeededBytesEqual(g, s, t, n - 1);
      var x, y := SeededBytes(g, s, n - 1), SeededBytes(g, t, n - 1);
      var v, w := Store32(SeededWord(g, s, n - 1)), Store32(SeededWord(g, t, n - 1));
      if x + v == y + w {
        assert (x + v)[..4 * (n - 1)] == x && (y + w)[..4 * (n - 1)] == y;
        assert (x + v)[4 * (n - 1)..] == v && (y + w)[4 * (n - 1)..] == w;
        assert Load32(v) == Load32(w);
      }
    }
  }

  // ----- the LCG -----

  ghost predicate SameLow31(s: seq<uint32>, t: seq<uint32>)
  {
    |s| == |t| && forall i :: 0 <= i < |s| ==> s[i] % Lcg.TWO_31 == t[i] % Lcg.TWO_31
  }

  lemma LcgSegment(g: Generator, s: uint32, t: uint32, n: nat)
    requires g.kind == GenLcg && n > 0
    ensures SeededBytes(g, s, n) == SeededBytes(g, t, n) <==> s % Lcg.TWO_31 == t % Lcg.TWO_31
  {
    var x, y := ToSigned(s), ToSigned(t);
    SeededBytesEqual(g, s, t, n);
    SignedResidues(s, t);
    if Lcg.Congruent(x, y) {
      forall j | 0 <= j < n
        ensures SeededWord(g, s, j) == SeededWord(g, t, j)
      {
        Lcg.IterateSame(j + 1, x, y);
      }
    } else {
      FirstLcgWord(g, s);
      FirstLcgWord(g, t);
      Lcg.StepInjective(x, y);
      assert SeededWord(g, s, 0) != SeededWord(g, t, 0);
    }
  }

  lemma SignedResidues(s: uint32, t: uint32)
    ensures Lcg.Congruent(ToSigned(s), ToSigned(t)) <==> s % Lcg.TWO_31 == t % Lcg.TWO_31
  {
  }

  lemma FirstLcgWord(g: Generator, s: uint32)
    requires g.kind == GenLcg
    ensures SeededWord(g, s, 0) == Lcg.RandR(ToSigned(s))
  {
    assert Lcg.Iterate(0, ToSigned(s)) == ToSigned(s);
  }

  lemma {:induction false} LcgSegments(g: Generator, a: seq<byte>, b: seq<byte>, rows: nat)
    requires g.kind == GenLcg && rows > 0
    requires |a| == |b| && |a| % 32 == 0
    ensures Segments(g, a, rows) == Segments(g, b, rows) <==> SameLow31(Seeds(a), Seeds(b))
  {
    hide SameLow31, Load32, SeededBytes, Segments;
    if a == [] {
      assert b == [] && SameLow31([], []) by { EmptySame(); }
    } else {
      SegmentsSplit(g, a, b, rows);
      LcgSegment(g, Load32(a[..32]), Load32(b[..32]), 8 * rows);
      LcgSegments(g, a[32..], b[32..], rows);
      SameLow31Cons(Load32(a[..32]), Seeds(a[32..]), Load32(b[..32]), Seeds(b[32..]));
    }
  }

  lemma EmptySame()
    ensures SameLow31([], [])
  {
  }

  lemma SameLow31Cons(x: uint32, s: seq<uint32>, y: uint32, t: seq<uint32>)
    ensures SameLow31([x] + s, [y] + t) <==> x % Lcg.TWO_31 == y % Lcg.TWO_31 && SameLow31(s, t)
  {
    var u, v := [x] + s, [y] + t;
    assert u[0] == x && v[0] == y;
    assert forall i :: 0 <= i < |s| ==> s[i] == u[i + 1];
    assert forall i :: 0 <= i < |t| ==> t[i] == v[i + 1];
  }

  // With the LCG two digests of one length give the same block exactly when the
  // low 31 bits of the seeds of all their groups agree.
  lemma LcgBlocks(g: Generator, a: Digest, b: Digest)
    requires g.kind == GenLcg && |a| == |b|
    ensures Block(g, a) == Block(g, b) <==> SameLow31(Seeds(a), Seeds(b))
  {
    LcgSegments(g, a, b, Rows(|a|));
  }

  // All words that the LCG writes into one segment are distinct.
  lemma LcgWordsDistinct(g: Generator, seed: uint32, i: nat, j: nat)
    requires g.kind == GenLcg && i < j < 1024
    ensures SeededWord(g, seed, i) != SeededWord(g, seed, j)
  {
    Lcg.CongruentNear(j + 1, i + 1);
    Lcg.FullPeriod(ToSigned(seed), j + 1, i + 1);
  }

  // ----- the Mersenne Twister -----

  lemma SameOutputs(g: Generator, s: uint32, t: uint32, k: nat)
    requires g.kind == GenMt19937 && SeededWord(g, s, k) == SeededWord(g, t, k)
    ensures Mt19937.Output(Words.ToWord(s), k) == Mt19937.Output(Words.ToWord(t), k)
  {
    hide Mt19937.Output, Words.ToWord, Words.Value;
    Words.ValueInjective(Mt19937.Output(Words.ToWord(s), k), Mt19937.Output(Words.ToWord(t), k));
  }

  // The words up to the last of the four that fix the seed are GAP + 2.
  lemma MtSegment(g: Generator, s: uint32, t: uint32, n: nat)
    requires g.kind == GenMt19937 && n >= Mt19937.GAP + 2
    ensures SeededBytes(g, s, n) == SeededBytes(g, t, n) <==> s == t
  {
    hide SeededWord, SeededBytes, Mt19937.Output, Words.ToWord;
    SeededBytesEqual(g, s, t, n);
    if SeededBytes(g, s, n) == SeededBytes(g, t, n) {
      SameOutputs(g, s, t, 0);
      SameOutputs(g, s, t, 1);
      SameOutputs(g, s, t, Mt19937.GAP);
      SameOutputs(g, s, t, Mt19937.GAP + 1);
      Mt19937.OutputsDetermineSeed(Words.ToWord(s), Words.ToWord(t));
      Words.ToWordInjective(s, t);
    }
  }

  lemma {:induction false} MtSegments(g: Generator, a: seq<byte>, b: seq<byte>, rows: nat)
    requires g.kind == GenMt19937 && 8 * rows >= Mt19937.GAP + 2
    requires |a| == |b| && |a| % 32 == 0
    ensures Segments(g, a, rows) == Segments(g, b, rows) <==> Seeds(a) == Seeds(b)
  {
    hide Load32, SeededBytes, Segments, Seeds;
    if a == [] {
      assert b == [];
    } else {
      SegmentsSplit(g, a, b, rows);
      MtSegment(g, Load32(a[..32]), Load32(b[..32]), 8 * rows);
      MtSegments(g, a[32..], b[32..], rows);
      SeedsCons(a, b);
    }
  }

  // With the Mersenne Twister two digests of one length, up to 128 characters,
  // give the same block exactly when the first four bytes of all their groups
  // agree.  A group of a longer digest gets 128 words.
  lemma MtBlocks(g: Generator, a: Digest, b: Digest)
    requires g.kind == GenMt19937 && |a| == |b| <= 128
    ensures Block(g, a) == Block(g, b) <==> Seeds(a) == Seeds(b)
  {
    MtSegments(g, a, b, Rows(|a|));
  }
}
