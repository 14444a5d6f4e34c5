// What replaying lines does to a file: one line at a time, and in the batches
// that hints describe (replay_worker in helper/replay.c).
module Execution {
  import opened Bytes
  import opened Files
  import opened FillBlock
  import opened Grouping
  import opened Hints
  import opened Sequences
  import opened Trace

  datatype Mode = WriteOnly | ReadWrite | AppendOnly

  // What all workers of a run have in common.
  datatype Job = Job(infos: seq<TraceInfo>, g: Generator, mode: Mode)

  // A worker's file, and the bytes its reads delivered so far.
  datatype World = World(file: File, dump: seq<byte>)

  // The block a write of line l writes.
  function BlockOf(job: Job, l: Line): (b: seq<byte>)
    requires l < |job.infos|
    ensures |b| == BLK_SIZE
  {
    BlockLength(job.g, job.infos[l].md5);
    Block(job.g, job.infos[l].md5)
  }

  predicate Writes(job: Job, rw: char)
  {
    job.mode == ReadWrite ==> rw == 'W'
  }

  // ----- one line at a time -----

  function StepLine(job: Job, l: Line, w: World): World
    requires l < |job.infos|
  {
    var info := job.infos[l];
    if job.mode == AppendOnly then World(w.file + BlockOf(job, l), w.dump)
    else if Writes(job, info.rw) then World(WriteAt(w.file, info.Ofs(), BlockOf(job, l)), w.dump)
    else World(w.file, w.dump + ReadAt(w.file, info.Ofs(), BLK_SIZE))
  }

  function RunLines(job: Job, s: seq<Line>, w: World): World
    requires InTrace(job.infos, s)
  {
    if s == [] then w else StepLine(job, s[|s| - 1], RunLines(job, s[..|s| - 1], w))
  }

  // ----- one batch at a time -----

  function Blocks(job: Job, s: seq<Line>): (b: seq<byte>)
    requires InTrace(job.infos, s)
    ensures |b| == BLK_SIZE * |s|
  {
    if s == [] then [] else
      var rest := Blocks(job, s[..|s| - 1]);
      assert BLK_SIZE * |s| == BLK_SIZE * (|s| - 1) + BLK_SIZE;
      rest + BlockOf(job, s[|s| - 1])
  }

  // A batch of lines, executed by one system call (or by one loop of preads).
  function StepBatch(job: Job, part: seq<Line>, rw: char, w: World): World
    requires InTrace(job.infos, part) && part != []
  {
    var ofs := job.infos[part[0]].Ofs();
    if job.mode == AppendOnly then World(w.file + Blocks(job, part), w.dump)
    else if Writes(job, rw) then World(WriteAt(w.file, ofs, Blocks(job, part)), w.dump)
    else World(w.file, w.dump + ReadAt(w.file, ofs, BLK_SIZE * |part|))
  }

  // The lines of a hint.
  function Part(s: seq<Line>, h: Hint): seq<Line>
    requires h.End() <= |s|
  {
    s[h.startLine..h.End()]
  }

  ghost predicate Fits(s: seq<Line>, h: Hint)
  {
    1 <= h.continuousBlks && h.End() <= |s|
  }

  function StepHint(job: Job, s: seq<Line>, h: Hint, w: World): World
    requires InTrace(job.infos, s) && Fits(s, h)
  {
    StepBatch(job, Part(s, h), h.rw, w)
  }

  ghost predicate AllFit(s: seq<Line>, hs: seq<Hint>)
  {
    forall k :: 0 <= k < |hs| ==> Fits(s, hs[k])
  }

  function RunHints(job: Job, s: seq<Line>, hs: seq<Hint>, w: World): World
    requires InTrace(job.infos, s) && AllFit(s, hs)
  {
    if hs == [] then w else StepHint(job, s, hs[|hs| - 1], RunHints(job, s, hs[..|hs| - 1], w))
  }

  // ----- a batch does what its lines do one by one -----

  // Consecutive blocks, all in one direction.
  ghost predicate Contiguous(job: Job, part: seq<Line>, rw: char)
  {
    && InTrace(job.infos, part)
    && forall i :: 0 <= i < |part| ==>
         job.infos[part[i]].rw == rw && job.infos[part[i]].Ofs() == job.infos[part[0]].Ofs() + BLK_SIZE * i
  }

  lemma BlocksSnoc(job: Job, part: seq<Line>, l: Line)
    requires InTrace(job.infos, part) && l < |job.infos|
    ensures InTrace(job.infos, part + [l])
    ensures Blocks(job, part + [l]) == Blocks(job, part) + BlockOf(job, l)
  {
    hide BlockOf;
    assert (part + [l])[..|part|] == part;
  }

  // Block i of a batch is that of its line i.
  lemma {:induction false} BlocksAt(job: Job, s: seq<Line>, i: nat)
    requires InTrace(job.infos, s) && i < |s|
    ensures Blocks(job, s)[4096 * i..4096 * i + 4096] == BlockOf(job, s[i])
  {
    hide BlockOf;
    var front := s[..|s| - 1];
    if i < |s| - 1 {
      BlocksAt(job, front, i);
      assert Blocks(job, s)[4096 * i..4096 * i + 4096] == Blocks(job, front)[4096 * i..4096 * i + 4096];
    } else {
      assert Blocks(job, s) == Blocks(job, front) + BlockOf(job, s[i]);
    }
  }

  lemma SnocParts(job: Job, part: seq<Line>, l: Line, rw: char)
    requires part != [] && Contiguous(job, part + [l], rw)
    ensures InTrace(job.infos, part) && part[0] < |job.infos| && l < |job.infos| && job.infos[l].rw == rw
    ensures job.infos[l].Ofs() == job.infos[part[0]].Ofs() + BLK_SIZE * |part|
    ensures Blocks(job, part + [l]) == Blocks(job, part) + BlockOf(job, l)
  {
    hide Blocks;
    var all := part + [l];
    assert all[|part|] == l && all[0] == part[0];
    forall i | 0 <= i < |part|
      ensures part[i] < |job.infos|
    {
      assert all[i] == part[i];
    }
    BlocksSnoc(job, part, l);
  }

  lemma BatchSnoc(job: Job, part: seq<Line>, l: Line, rw: char, w: World)
    requires part != [] && Contiguous(job, part + [l], rw)
    ensures InTrace(job.infos, part)
    ensures StepBatch(job, part + [l], rw, w) == StepLine(job, l, StepBatch(job, part, rw, w))
  {
    hide Contiguous, Blocks, BlockOf, WriteAt, ReadAt, InTrace;
    SnocParts(job, part, l, rw);
    var ofs := job.infos[part[0]].Ofs();
    assert (part + [l])[0] == part[0] && BLK_SIZE * |part + [l]| == BLK_SIZE * |part| + BLK_SIZE;
    if job.mode == AppendOnly {
      Associates(w.file, Blocks(job, part), BlockOf(job, l));
    } else if Writes(job, rw) {
      WriteTwice(w.file, ofs, Blocks(job, part), BlockOf(job, l));
    } else {
      ReadTwice(w.file, ofs, BLK_SIZE * |part|, BLK_SIZE);
      Associates(w.dump, ReadAt(w.file, ofs, BLK_SIZE * |part|), ReadAt(w.file, ofs + BLK_SIZE * |part|, BLK_SIZE));
    }
  }

  lemma BatchOne(job: Job, l: Line, rw: char, w: World)
    requires Contiguous(job, [l], rw)
    ensures StepBatch(job, [l], rw, w) == StepLine(job, l, w)
  {
    assert [l][0] == l;
    assert Blocks(job, [l][..0]) == [];
    assert Blocks(job, [l]) == BlockOf(job, l);
  }

  lemma {:induction false} BatchIsLines(job: Job, part: seq<Line>, rw: char, w: World)
    requires part != [] && Contiguous(job, part, rw)
    ensures StepBatch(job, part, rw, w) == RunLines(job, part, w)
  {
    hide StepBatch, StepLine;
    var front, l := part[..|part| - 1], part[|part| - 1];
    assert part == front + [l];
    if front == [] {
      BatchOne(job, l, rw, w);
      assert part == [l];
    } else {
      ContiguousFront(job, part, rw);
      BatchIsLines(job, front, rw, w);
      BatchSnoc(job, front, l, rw, w);
    }
  }

  lemma ContiguousFront(job: Job, part: seq<Line>, rw: char)
    requires |part| > 1 && Contiguous(job, part, rw)
    ensures Contiguous(job, part[..|part| - 1], rw)
  {
  }

  // ----- a worker's batches do what its lines do one by one -----

  lemma {:induction false} RunLinesAppend(job: Job, s: seq<Line>, t: seq<Line>, w: World)
    requires InTrace(job.infos, s) && InTrace(job.infos, t)
    ensures InTrace(job.infos, s + t)
    ensures RunLines(job, s + t, w) == RunLines(job, t, RunLines(job, s, w))
  {
    hide StepLine;
    if t == [] {
      assert s + t == s;
    } else {
      var front, l := t[..|t| - 1], t[|t| - 1];
      RunLinesAppend(job, s, front, w);
      assert (s + t)[..|s + t| - 1] == s + front;
    }
  }

  // With lbas that a file offset can express, linked lines are 4096 bytes apart.
  lemma {:induction false} LinkedSpacing(infos: seq<TraceInfo>, s: seq<Line>, c: nat, h: Hint, j: nat)
    requires Grouping.Bounded(infos) && InTrace(infos, s) && Legal(infos, s, c, h)
    requires h.startLine <= j < h.End()
    ensures infos[s[j]].rw == h.rw
    ensures infos[s[j]].Ofs() == infos[s[h.startLine]].Ofs() + BLK_SIZE * (j - h.startLine)
  {
    if j > h.startLine {
      LinkedSpacing(infos, s, c, h, j - 1);
      assert Linked(infos, s, j);
      NoWrap(infos[s[j]].lba, infos[s[j - 1]].lba);
    }
  }

  lemma HintIsContiguous(job: Job, s: seq<Line>, c: nat, h: Hint)
    requires Grouping.Bounded(job.infos) && InTrace(job.infos, s) && Legal(job.infos, s, c, h)
    ensures Contiguous(job, Part(s, h), h.rw)
  {
    var part := Part(s, h);
    forall i | 0 <= i < |part|
      ensures job.infos[part[i]].rw == h.rw && job.infos[part[i]].Ofs() == job.infos[part[0]].Ofs() + BLK_SIZE * i
    {
      LinkedSpacing(job.infos, s, c, h, h.startLine + i);
    }
  }

  lemma LegalFits(infos: seq<TraceInfo>, s: seq<Line>, c: nat, hs: seq<Hint>)
    requires InTrace(infos, s) && forall k :: 0 <= k < |hs| ==> Legal(infos, s, c, hs[k])
    ensures AllFit(s, hs)
  {
  }

  lemma {:induction false} TiledIsLines(job: Job, s: seq<Line>, c: nat, hs: seq<Hint>, n: nat, w: World)
    requires Grouping.Bounded(job.infos) && InTrace(job.infos, s) && n <= |s| && Tiles(hs, n)
    requires forall k :: 0 <= k < |hs| ==> Legal(job.infos, s, c, hs[k])
    ensures AllFit(s, hs) && InTrace(job.infos, s[..n])
    ensures RunHints(job, s, hs, w) == RunLines(job, s[..n], w)
  {
    hide StepBatch, StepLine, Legal, RunLines;
    LegalFits(job.infos, s, c, hs);
    if hs == [] {
      RunNothing(job, s[..n], w);
    } else {
      var h := hs[|hs| - 1];
      assert Legal(job.infos, s, c, h) && Fits(s, h);
      TiledIsLines(job, s, c, hs[..|hs| - 1], h.startLine, w);
      HintIsContiguous(job, s, c, h);
      BatchIsLines(job, Part(s, h), h.rw, RunHints(job, s, hs[..|hs| - 1], w));
      RunLinesAppend(job, s[..h.startLine], Part(s, h), w);
      assert s[..n] == s[..h.startLine] + Part(s, h);
    }
  }

  lemma RunNothing(job: Job, s: seq<Line>, w: World)
    requires s == []
    ensures InTrace(job.infos, s) && RunLines(job, s, w) == w
  {
  }

  // Batched replay of a worker's lines leaves the same file, and delivers the
  // same bytes, as replaying its lines one by one.
  lemma BatchedIsUnbatched(job: Job, s: seq<Line>, c: nat, hs: seq<Hint>, w: World)
    requires Grouping.Bounded(job.infos) && InTrace(job.infos, s) && LegalTiling(job.infos, s, c, hs)
    ensures AllFit(s, hs)
    ensures RunHints(job, s, hs, w) == RunLines(job, s, w)
  {
    TiledIsLines(job, s, c, hs, |s|, w);
    assert s[..|s|] == s;
  }

  // In append mode the file grows by the blocks of all lines in order, and
  // nothing is read.
  lemma {:induction false} AppendIsConcatenation(job: Job, s: seq<Line>, w: World)
    requires InTrace(job.infos, s) && job.mode == AppendOnly
    ensures RunLines(job, s, w) == World(w.file + Blocks(job, s), w.dump)
  {
    hide BlockOf, Writes;
    if s == [] {
      assert w.file + [] == w.file;
    } else {
      AppendIsConcatenation(job, s[..|s| - 1], w);
      Associates(w.file, Blocks(job, s[..|s| - 1]), BlockOf(job, s[|s| - 1]));
    }
  }
}
