// fill_blk of helper/replay.c: one 4 KiB block written from a digest string.
module FillBlock {
  import opened Bytes
  import opened Splicing
  import Lcg
  import Mt19937
  import Words

  const BLK_SIZE: nat := 4096

  datatype GenKind = GenNull | GenMt19937 | GenStdlib | GenLcg

  // A generator as the program selects it.  `randR` is rand_r of the C library,
  // some deterministic function of the seed it is given.
  datatype Generator = Generator(kind: GenKind, randR: Lcg.int32 -> Lcg.int32)

  // Conversions between `int` and `uint32_t`.
  function ToUnsigned(x: Lcg.int32): uint32
  {
    if x < 0 then x + 0x1_0000_0000 else x
  }

  function ToSigned(x: uint32): Lcg.int32
  {
    if x < 0x8000_0000 then x else x - 0x1_0000_0000
  }

  // ----- what a block contains -----

  function Nth(f: Lcg.int32 -> Lcg.int32, n: nat, x: Lcg.int32): Lcg.int32
  {
    if n == 0 then x else f(Nth(f, n - 1, x))
  }

  // Word j (from 0) that a generator produces after being fed this seed.
  function SeededWord(g: Generator, seed: uint32, j: nat): uint32
    requires g.kind != GenNull
  {
    match g.kind
    case GenMt19937 => Words.Value(Mt19937.Output(Words.ToWord(seed), j))
    case GenStdlib => ToUnsigned(Nth(g.randR, j + 1, ToSigned(seed)))
    case GenLcg => ToUnsigned(Lcg.Iterate(j + 1, ToSigned(seed)))
  }

  function SeededBytes(g: Generator, seed: uint32, n: nat): (b: seq<byte>)
    requires g.kind != GenNull
    ensures |b| == 4 * n
  {
    if n == 0 then [] else SeededBytes(g, seed, n - 1) + Store32(SeededWord(g, seed, n - 1))
  }

  function Copies(d: seq<byte>, n: nat): (b: seq<byte>)
    requires |d| == 32
    ensures |b| == 32 * n
  {
    if n == 0 then [] else Copies(d, n - 1) + d
  }

  predicate DigestLength(n: nat)
  {
    n == 32 || n == 64 || n == 128 || n == 256
  }

  type Digest = d: seq<byte> | DigestLength(|d|) witness seq(32, _ => 0)

  // A step writes BLK_SIZE / (md5_len / 32) bytes, which is this many rows of
  // 32 bytes.
  function Rows(n: nat): (rows: nat)
    requires DigestLength(n)
    ensures 32 * rows == BLK_SIZE / (n / 32)
    ensures (n / 32) * rows == 128
  {
    if n == 32 then 128 else if n == 64 then 64 else if n == 128 then 32 else 16
  }

  // The part of the block made from one group of 32 digest characters.
  function Segment(g: Generator, group: seq<byte>, rows: nat): (b: seq<byte>)
    requires |group| == 32
    ensures |b| == 32 * rows
  {
    if g.kind == GenNull then Copies(group, rows) else SeededBytes(g, Load32(group), 8 * rows)
  }

  function Segments(g: Generator, md5: seq<byte>, rows: nat): (b: seq<byte>)
    requires |md5| % 32 == 0
  {
    if md5 == [] then [] else Segment(g, md5[..32], rows) + Segments(g, md5[32..], rows)
  }

  function Block(g: Generator, md5: Digest): (b: seq<byte>)
  {
    Segments(g, md5, Rows(|md5|))
  }

  lemma {:induction false} SegmentsLength(g: Generator, md5: seq<byte>, rows: nat, k: nat)
    requires |md5| == 32 * k
    ensures |Segments(g, md5, rows)| == 32 * (k * rows)
  {
    if k > 0 {
      SegmentsLength(g, md5[32..], rows, k - 1);
      assert k * rows == rows + (k - 1) * rows;
    }
  }

  // Whatever the digest and the generator, a block is 4096 bytes long.
  lemma BlockLength(g: Generator, md5: Digest)
    ensures |Block(g, md5)| == BLK_SIZE
  {
    SegmentsLength(g, md5, Rows(|md5|), |md5| / 32);
  }

  // ----- the generator state a worker owns -----

  // rand_gener_t: the context behind `ctx` is an MT state or a single int.
  class RandGener {
    const g: Generator
    const mt: Mt19937.State
    var word: Lcg.int32

    constructor (g: Generator)
      ensures this.g == g && fresh(mt) && fresh(mt.mt) && mt.mt.Length == Mt19937.N
    {
      this.g := g;
      mt := new Mt19937.State();
      word := 0;
    }

    ghost function Repr(): set<object>
    {
      {this, mt, mt.mt}
    }

    // The context is j words past being fed this seed.
    ghost predicate Fed(seed: uint32, j: nat)
      reads this, mt, mt.mt
    {
      match g.kind
      case GenNull => true
      case GenMt19937 =>
        && mt.Valid() && !mt.Unseeded()
        && mt.init == Mt19937.SeedVector(Words.ToWord(seed)) && mt.Drawn() == j
      case GenStdlib => word == Nth(g.randR, j, ToSigned(seed))
      case GenLcg => word == Lcg.Iterate(j, ToSigned(seed))
    }

    // The seed_wrapper functions.
    method FeedSeed(seed: uint32)
      requires mt.mt.Length == Mt19937.N && g.kind != GenNull
      modifies this, mt, mt.mt
      ensures Fed(seed, 0)
    {
      if g.kind == GenMt19937 {
        Words.NarrowWide(Words.ToWord(seed));
        mt.Seed(Words.Widen(Words.ToWord(seed)));
      } else {
        word := ToSigned(seed);
      }
    }

    // The gen_wrapper functions; the result is stored as a uint32_t.
    method GenRandom(ghost seed: uint32, ghost j: nat) returns (w: uint32)
      requires g.kind != GenNull && Fed(seed, j)
      modifies this, mt, mt.mt
      ensures w == SeededWord(g, seed, j)
      ensures Fed(seed, j + 1)
    {
      hide Words.Value, Words.ToWord, Words.Widen, Words.Low32, Mt19937.OutputAt, Lcg.RandR;
      if g.kind == GenMt19937 {
        var y := mt.Next();
        Words.NarrowWide(Mt19937.Output(Words.ToWord(seed), j));
        w := Words.Value(Words.Low32(y));
      } else if g.kind == GenStdlib {
        word := g.randR(word);
        w := ToUnsigned(word);
      } else {
        word := Lcg.RandR(word);
        w := ToUnsigned(word);
      }
    }
  }

  // ----- fill_blk -----

  // Writes the block of `md5` into blk[at..at + 4096] and nothing else.
  method FillBlk(blk: array<byte>, at: nat, md5: Digest, gener: RandGener)
    requires at + BLK_SIZE <= blk.Length
    requires gener.mt.mt.Length == Mt19937.N && blk as object !in gener.Repr()
    modifies blk, gener.Repr()
    ensures |Block(gener.g, md5)| == BLK_SIZE
    ensures blk[..] == Splice(old(blk[..]), at, Block(gener.g, md5))
  {
    hide Segment, Segments, Rows, Splice, Block, RandGener.Fed;
    BlockParts(gener.g, md5);
    var step := |md5| / 32;
    assert md5[0..] == md5;
    SpliceEmpty(blk[..], at);
    var rows := Rows(|md5|);
    BlockLength(gener.g, md5);
    ghost var written := [];
    var p, q := at, 0;
    for i := 0 to step
      invariant q == 32 * i && p == at + |written|
      invariant written + Segments(gener.g, md5[q..], rows) == Block(gener.g, md5)
      invariant at + |written| <= |old(blk[..])|
      invariant blk[..] == Splice(old(blk[..]), at, written)
    {
      var group := md5[q..q + 32];
      SegmentsStep(gener.g, md5, q, rows);
      ghost var segment := Segment(gener.g, group, rows);
      FillSegment(blk, p, group, rows, gener);
      SpliceTwice(old(blk[..]), at, written, segment);
      written := written + segment;
      p, q := p + 32 * rows, q + 32;
    }
    SegmentsEnd(gener.g, md5, rows);
    assert written == Block(gener.g, md5);
  }

  lemma BlockParts(g: Generator, md5: Digest)
    ensures Block(g, md5) == Segments(g, md5, Rows(|md5|))
  {
  }

  lemma SegmentsEnd(g: Generator, md5: seq<byte>, rows: nat)
    requires |md5| % 32 == 0
    ensures Segments(g, md5[|md5|..], rows) == []
  {
  }

  // One step: the part of the block made from one group of the digest.
  method FillSegment(blk: array<byte>, p: nat, group: seq<byte>, rows: nat, gener: RandGener)
    requires |group| == 32 && p + 32 * rows <= blk.Length
    requires gener.mt.mt.Length == Mt19937.N && blk as object !in gener.Repr()
    modifies blk, gener.Repr()
    ensures blk[..] == Splice(old(blk[..]), p, Segment(gener.g, group, rows))
  {
    if gener.g.kind == GenNull {
      CopyRows(blk, p, group, rows);
    } else {
      SeedRows(blk, p, Load32(group), rows, gener);
    }
  }

  lemma SegmentsStep(g: Generator, md5: seq<byte>, q: nat, rows: nat)
    requires q + 32 <= |md5| && |md5| % 32 == 0 && q % 32 == 0
    ensures Segments(g, md5[q..], rows)
         == Segment(g, md5[q..q + 32], rows) + Segments(g, md5[q + 32..], rows)
  {
    assert md5[q..][..32] == md5[q..q + 32];
    assert md5[q..][32..] == md5[q + 32..];
  }

  // The memcpy loop of one step.
  method CopyRows(blk: array<byte>, p: nat, group: seq<byte>, rows: nat)
    requires |group| == 32 && p + 32 * rows <= blk.Length
    modifies blk
    ensures blk[..] == Splice(old(blk[..]), p, Copies(group, rows))
  {
    hide Splice;
    SpliceEmpty(blk[..], p);
    for r := 0 to rows
      invariant blk[..] == Splice(old(blk[..]), p, Copies(group, r))
    {
      SpliceTwice(old(blk[..]), p, Copies(group, r), group);
      Copy(blk, p + 32 * r, group);
    }
  }

  lemma SeededNone(g: Generator, seed: uint32)
    requires g.kind != GenNull
    ensures SeededBytes(g, seed, 0) == []
  {
  }

  lemma SeededNext(g: Generator, seed: uint32, n: nat)
    requires g.kind != GenNull
    ensures SeededBytes(g, seed, n + 1) == SeededBytes(g, seed, n) + Store32(SeededWord(g, seed, n))
  {
    hide SeededWord, Store32;
  }

  // The generator loop of one step.
  method SeedRows(blk: array<byte>, p: nat, seed: uint32, rows: nat, gener: RandGener)
    requires gener.g.kind != GenNull && gener.mt.mt.Length == Mt19937.N
    requires p + 32 * rows <= blk.Length && blk as object !in gener.Repr()
    modifies blk, gener.Repr()
    ensures blk[..] == Splice(old(blk[..]), p, SeededBytes(gener.g, seed, 8 * rows))
  {
    hide Splice, SeededWord, SeededBytes, Store32, RandGener.Fed;
    gener.FeedSeed(seed);
    SeededNone(gener.g, seed);
    SpliceEmpty(blk[..], p);
    for n := 0 to 8 * rows
      invariant gener.Fed(seed, n)
      invariant blk[..] == Splice(old(blk[..]), p, SeededBytes(gener.g, seed, n))
    {
      var w := gener.GenRandom(seed, n);
      SeededNext(gener.g, seed, n);
      SpliceTwice(old(blk[..]), p, SeededBytes(gener.g, seed, n), Store32(w));
      Copy(blk, p + 4 * n, Store32(w));
    }
  }
}
