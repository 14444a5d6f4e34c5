// What a 4 KiB block contains, byte by byte and word by word.
module BlockContent {
  import opened Bytes
  import opened FillBlock
  import opened Sequences
  import Lcg
  import Mt19937
  import Words

  // ----- where the segments are -----

  function StartOf(rows: nat, k: nat): (at: nat)
    ensures at == 32 * rows * k
  {
    if k == 0 then 0 else StartOf(rows, k - 1) + 32 * rows
  }

  lemma {:induction false} SegmentAt(g: Generator, md5: seq<byte>, rows: nat, k: nat)
    requires |md5| % 32 == 0 && 32 * k + 32 <= |md5|
    ensures StartOf(rows, k) + 32 * rows <= |Segments(g, md5, rows)|
    ensures Segments(g, md5, rows)[StartOf(rows, k)..StartOf(rows, k) + 32 * rows]
         == Segment(g, md5[32 * k..32 * k + 32], rows)
  {
    hide Segment, Segments;
    SegmentsHead(g, md5, rows);
    var head, rest := Segment(g, md5[..32], rows), Segments(g, md5[32..], rows);
    if k == 0 {
      assert md5[0..32] == md5[..32];
    } else {
      SegmentAt(g, md5[32..], rows, k - 1);
      assert md5[32..][32 * (k - 1)..32 * (k - 1) + 32] == md5[32 * k..32 * k + 32];
      Behind(head, rest, StartOf(rows, k - 1), StartOf(rows, k - 1) + 32 * rows);
    }
  }

  lemma SegmentsHead(g: Generator, md5: seq<byte>, rows: nat)
    requires |md5| % 32 == 0 && |md5| >= 32
    ensures |md5[32..]| % 32 == 0 && Segments(g, md5, rows) == Segment(g, md5[..32], rows) + Segments(g, md5[32..], rows)
  {
    hide Segment;
  }

  lemma Behind(head: seq<byte>, rest: seq<byte>, from: nat, end: nat)
    requires from <= end <= |rest|
    ensures (head + rest)[|head| + from..|head| + end] == rest[from..end]
  {
  }

  // The bytes of the block that each group of 32 characters gets.
  function PartSize(len: nat): (n: nat)
    requires DigestLength(len)
    ensures n * (len / 32) == 4096 && n == 32 * Rows(len)
  {
    if len == 32 then 4096 else if len == 64 then 2048 else if len == 128 then 1024 else 512
  }

  lemma BlockSegment(g: Generator, md5: Digest, k: nat)
    requires 32 * k + 32 <= |md5|
    ensures var n := PartSize(|md5|);
      && n * k + n <= |Block(g, md5)|
      && Block(g, md5)[n * k..n * k + n] == Segment(g, md5[32 * k..32 * k + 32], Rows(|md5|))
  {
    hide Segment, Segments, Rows;
    SegmentAt(g, md5, Rows(|md5|), k);
  }

  // ----- no generator -----

  lemma {:induction false} CopiesAt(d: seq<byte>, n: nat, i: nat)
    requires |d| == 32 && i < 32 * n
    ensures Copies(d, n)[i] == d[i % 32]
  {
    if i < 32 * (n - 1) {
      CopiesAt(d, n - 1, i);
    }
  }

  // Group k of 32 characters fills part k of the block, over and over.
  lemma NullBlockByte(g: Generator, md5: Digest, k: nat, i: nat)
    requires g.kind == GenNull && 32 * k + 32 <= |md5| && i < PartSize(|md5|)
    ensures PartSize(|md5|) * k + i < |Block(g, md5)|
    ensures Block(g, md5)[PartSize(|md5|) * k + i] == md5[32 * k + i % 32]
  {
    hide Segments, Copies, Block, PartSize, Rows;
    BlockSegment(g, md5, k);
    PartByte(g, Block(g, md5), PartSize(|md5|) * k, PartSize(|md5|), md5[32 * k..32 * k + 32], Rows(|md5|), i);
  }

  lemma PartByte(g: Generator, block: seq<byte>, at: nat, n: nat, group: seq<byte>, rows: nat, i: nat)
    requires g.kind == GenNull && |group| == 32 && n == 32 * rows && i < n && at + n <= |block|
    requires block[at..at + n] == Segment(g, group, rows)
    ensures block[at + i] == group[i % 32]
  {
    hide Copies;
    CopiesAt(group, rows, i);
    assert block[at..at + n][i] == block[at + i];
  }

  // ----- a generator -----

  lemma {:induction false} SeededAt(g: Generator, seed: uint32, n: nat, j: nat)
    requires g.kind != GenNull && j < n
    ensures SeededBytes(g, seed, n)[4 * j..4 * j + 4] == Store32(SeededWord(g, seed, j))
  {
    hide SeededWord, Store32, SeededBytes;
    SeededNext(g, seed, n - 1);
    if j < n - 1 {
      SeededAt(g, seed, n - 1, j);
    }
  }

  // The four bytes at 4 * j of the part of group k are word j of the stream that
  // is seeded by the first four characters of the group.
  lemma SeededBlockWord(g: Generator, md5: Digest, k: nat, j: nat)
    requires g.kind != GenNull && 32 * k + 32 <= |md5| && 4 * j + 4 <= PartSize(|md5|)
    ensures var at := PartSize(|md5|) * k + 4 * j;
      && at + 4 <= |Block(g, md5)|
      && Load32(Block(g, md5)[at..at + 4]) == SeededWord(g, Load32(md5[32 * k..32 * k + 32]), j)
  {
    hide SeededWord, SeededBytes, Block, Store32, Load32, PartSize, Rows;
    BlockSegment(g, md5, k);
    PartWord(g, Block(g, md5), PartSize(|md5|) * k, PartSize(|md5|), md5[32 * k..32 * k + 32], Rows(|md5|), j);
  }

  lemma PartWord(g: Generator, block: seq<byte>, at: nat, n: nat, group: seq<byte>, rows: nat, j: nat)
    requires g.kind != GenNull && |group| == 32 && n == 32 * rows && 4 * j + 4 <= n && at + n <= |block|
    requires block[at..at + n] == Segment(g, group, rows)
    ensures Load32(block[at + 4 * j..at + 4 * j + 4]) == SeededWord(g, Load32(group), j)
  {
    hide SeededWord, SeededBytes, Store32, Load32;
    SeededAt(g, Load32(group), 8 * rows, j);
    SliceInside(block, at, at + n, 4 * j, 4 * j + 4);
  }

  // The bytes of a word, the lowest first.
  lemma StoredByte(w: uint32)
    ensures var b := Store32(w);
      b[0] == w % 256 && b[1] == w / 256 % 256 && b[2] == w / 256 / 256 % 256 && b[3] == w / 256 / 256 / 256
  {
  }

  // ----- the streams, in numbers -----

  lemma SignedNumber(x: Lcg.int32)
    ensures ToSigned(ToUnsigned(x)) == x && (ToUnsigned(x) - x) % 0x1_0000_0000 == 0
  {
  }

  // rand_r of the C library is applied once for every word.
  lemma StdlibWord(g: Generator, seed: uint32, j: nat)
    requires g.kind == GenStdlib
    ensures SeededWord(g, seed, 0) == ToUnsigned(g.randR(ToSigned(seed)))
    ensures SeededWord(g, seed, j + 1) == ToUnsigned(g.randR(ToSigned(SeededWord(g, seed, j))))
  {
    hide ToUnsigned, ToSigned;
    SignedNumber(Nth(g.randR, j + 1, ToSigned(seed)));
    assert Nth(g.randR, 0, ToSigned(seed)) == ToSigned(seed);
  }

  // So is the step of the LCG.
  lemma LcgWord(g: Generator, seed: uint32, j: nat)
    requires g.kind == GenLcg
    ensures SeededWord(g, seed, 0) == (seed * 1103515245 + 12345) % 0x8000_0000
    ensures SeededWord(g, seed, j + 1) == (SeededWord(g, seed, j) * 1103515245 + 12345) % 0x8000_0000
  {
    hide Lcg.RandR;
    var x := ToSigned(seed);
    assert Lcg.Iterate(0, x) == x;
    Lcg.RandRWritten(x);
    Lcg.RandRWritten(Lcg.Iterate(j + 1, x));
    SameResidue(x, seed);
  }

  lemma SameResidue(x: Lcg.int32, seed: uint32)
    requires x == ToSigned(seed)
    ensures (x * 1103515245 + 12345) % 0x8000_0000 == (seed * 1103515245 + 12345) % 0x8000_0000
  {
    if x != seed {
      RemainderShift(seed * 1103515245 + 12345, -2 * 1103515245);
    }
  }

  lemma RemainderShift(a: int, q: int)
    ensures (a + q * 0x8000_0000) % 0x8000_0000 == a % 0x8000_0000
  {
  }

  // The Mersenne Twister delivers the outputs of the engine with this seed.
  lemma MtWord(g: Generator, seed: uint32, j: nat)
    requires g.kind == GenMt19937
    ensures Words.ToWord(SeededWord(g, seed, j)) == Mt19937.Output(Words.ToWord(seed), j)
  {
    hide Words.ToWord, Words.Value, Mt19937.Output;
    Words.WordOfValue(Mt19937.Output(Words.ToWord(seed), j));
  }
}
