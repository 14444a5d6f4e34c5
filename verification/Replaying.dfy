// replay_worker of helper/replay.c.
module Replaying {
  import opened Bytes
  import opened Containers
  import opened Execution
  import opened Files
  import opened FillBlock
  import opened Hints
  import opened Planning
  import opened Splicing
  import opened Trace
  import Grouping
  import Mt19937

  // ----- one batch in the buffer -----

  lemma SplicePrefix(s: seq<byte>, at: nat, b: seq<byte>)
    requires at + |b| <= |s|
    ensures Splice(s, at, b)[..at + |b|] == s[..at] + b
  {
  }

  lemma NextBlock(job: Job, s: seq<Line>, start: nat, j: nat)
    requires InTrace(job.infos, s) && start <= j < |s|
    ensures InTrace(job.infos, s[start..j]) && InTrace(job.infos, s[start..j + 1])
    ensures Blocks(job, s[start..j + 1]) == Blocks(job, s[start..j]) + BlockOf(job, s[j])
  {
    hide Blocks, BlockOf;
    assert s[start..j + 1] == s[start..j] + [s[j]];
    BlocksSnoc(job, s[start..j], s[j]);
  }

  lemma BlocksNone(job: Job, s: seq<Line>, start: nat)
    requires start <= |s|
    ensures Blocks(job, s[start..start]) == []
  {
  }

  // The loop that fills the buffer for lines start..end.
  method FillBatch(job: Job, infosMap: array<Line>, start: nat, end: nat, blk: array<byte>, gener: RandGener)
    requires start <= end <= infosMap.Length && InTrace(job.infos, infosMap[..end])
    requires BLK_SIZE * (end - start) <= blk.Length
    requires gener.g == job.g && gener.mt.mt.Length == Mt19937.N
    requires blk as object !in gener.Repr() && infosMap as object !in gener.Repr() + {blk}
    modifies blk, gener.Repr()
    ensures InTrace(job.infos, infosMap[start..end])
    ensures blk[..BLK_SIZE * (end - start)] == Blocks(job, infosMap[start..end])
  {
    hide Blocks, Block, Splice;
    ghost var s := infosMap[..end];
    assert s[start..end] == infosMap[start..end];
    BlocksNone(job, s, start);
    var p := 0;
    for j := start to end
      invariant infosMap[..end] == s && InTrace(job.infos, s[start..j])
      invariant p == BLK_SIZE * (j - start) && blk[..p] == Blocks(job, s[start..j])
    {
      NextBlock(job, s, start, j);
      ghost var before := blk[..];
      assert infosMap[j] == s[j];
      FillBlk(blk, p, job.infos[infosMap[j]].md5, gener);
      SplicePrefix(before, p, Block(job.g, job.infos[s[j]].md5));
      p := p + BLK_SIZE;
    }
  }

  // The pread loop, which goes on after short reads and clears what lies past
  // the end of the file.
  method ReadBatch(fd: Handle, blk: array<byte>, blkSize: nat, ofs: nat)
    requires blkSize <= blk.Length
    modifies blk
    ensures blk[..blkSize] == ReadAt(fd.content, ofs, blkSize)
  {
    hide *;
    var done := 0;
    ReadNothing(fd.content, ofs);
    while done != blkSize
      invariant done <= blkSize && blk[..done] == ReadAt(fd.content, ofs, done)
      decreases blkSize - done
    {
      ghost var before := blk[..];
      var ret := fd.PRead(blk, done, blkSize - done, ofs + done);
      if ret == 0 {
        SplicePrefix(before, done, []);
        ReadNothing(fd.content, ofs + done);
        break;
      }
      SplicePrefix(before, done, ReadAt(fd.content, ofs + done, ret));
      ReadTwice(fd.content, ofs, done, ret);
      done := done + ret;
    }
    ghost var before := blk[..];
    Copy(blk, done, Zeros(blkSize - done));
    SplicePrefix(before, done, Zeros(blkSize - done));
    ReadTwice(fd.content, ofs, done, blkSize - done);
    PastEnd(fd.content, ofs + done, blkSize - done);
  }

  lemma ReadNothing(f: File, ofs: nat)
    ensures ReadAt(f, ofs, 0) == []
  {
  }

  lemma PastEnd(f: File, ofs: nat, n: nat)
    requires n == 0 || ofs >= |f|
    ensures ReadAt(f, ofs, n) == Zeros(n)
  {
  }

  // ----- the loops over the hints -----

  // What replay_param_t promises a worker: its hints lie within its lines, and
  // its buffer holds the largest of them.
  ghost predicate Ready(job: Job, s: seq<Line>, hs: seq<Hint>, room: nat)
  {
    && InTrace(job.infos, s) && AllFit(s, hs)
    && forall k :: 0 <= k < |hs| ==> BLK_SIZE * hs[k].continuousBlks <= room
  }

  lemma ReadyAt(job: Job, s: seq<Line>, hs: seq<Hint>, room: nat, k: nat)
    requires Ready(job, s, hs, room) && k < |hs|
    ensures InTrace(job.infos, s) && Fits(s, hs[k]) && InTrace(job.infos, Part(s, hs[k])) && Part(s, hs[k]) != []
    ensures InTrace(job.infos, s[..hs[k].End()]) && s[hs[k].startLine] < |job.infos|
    ensures BLK_SIZE * hs[k].continuousBlks <= room
  {
  }

  lemma RunSnoc(job: Job, s: seq<Line>, hs: seq<Hint>, room: nat, k: nat, w: World)
    requires Ready(job, s, hs, room) && k < |hs|
    ensures InTrace(job.infos, s) && AllFit(s, hs[..k]) && AllFit(s, hs[..k + 1])
    ensures RunHints(job, s, hs[..k + 1], w) == StepHint(job, s, hs[k], RunHints(job, s, hs[..k], w))
  {
    assert hs[..k + 1][..k] == hs[..k];
  }

  lemma RunNoHints(job: Job, s: seq<Line>, hs: seq<Hint>, room: nat, w: World)
    requires Ready(job, s, hs, room)
    ensures InTrace(job.infos, s) && AllFit(s, hs) && AllFit(s, hs[..0]) && RunHints(job, s, hs[..0], w) == w
  {
  }

  // One round of the loop of mode -o w, and of -o rw for a batch of writes.
  method WriteHint(job: Job, infosMap: array<Line>, ghost s: seq<Line>, h: Hint, blk: array<byte>, fd: Handle,
                   gener: RandGener, ghost dump: seq<byte>)
    requires |s| <= infosMap.Length && infosMap[..|s|] == s
    requires Ready(job, s, [h], blk.Length) && job.mode != AppendOnly && Writes(job, h.rw)
    requires gener.g == job.g && gener.mt.mt.Length == Mt19937.N
    requires blk as object !in gener.Repr() && infosMap as object !in gener.Repr() + {blk}
    modifies blk, gener.Repr(), fd
    ensures InTrace(job.infos, s) && Fits(s, h)
    ensures World(fd.content, dump) == StepHint(job, s, h, World(old(fd.content), dump))
  {
    hide Ready, Blocks, WriteAt;
    ReadyAt(job, s, [h], blk.Length, 0);
    assert infosMap[..h.End()] == s[..h.End()] && infosMap[h.startLine..h.End()] == Part(s, h);
    FillBatch(job, infosMap, h.startLine, h.End(), blk, gener);
    assert infosMap[h.startLine] == s[h.startLine] == Part(s, h)[0];
    fd.PWrite(blk, BLK_SIZE * h.continuousBlks, job.infos[infosMap[h.startLine]].Ofs());
  }

  // One round of the loop of mode -o a.
  method AppendHint(job: Job, infosMap: array<Line>, ghost s: seq<Line>, h: Hint, blk: array<byte>, fd: Handle,
                    gener: RandGener, ghost dump: seq<byte>)
    requires |s| <= infosMap.Length && infosMap[..|s|] == s
    requires Ready(job, s, [h], blk.Length) && job.mode == AppendOnly
    requires gener.g == job.g && gener.mt.mt.Length == Mt19937.N
    requires blk as object !in gener.Repr() && infosMap as object !in gener.Repr() + {blk}
    modifies blk, gener.Repr(), fd
    ensures InTrace(job.infos, s) && Fits(s, h)
    ensures World(fd.content, dump) == StepHint(job, s, h, World(old(fd.content), dump))
  {
    hide Ready, Blocks;
    ReadyAt(job, s, [h], blk.Length, 0);
    assert infosMap[..h.End()] == s[..h.End()] && infosMap[h.startLine..h.End()] == Part(s, h);
    FillBatch(job, infosMap, h.startLine, h.End(), blk, gener);
    fd.Append(blk, BLK_SIZE * h.continuousBlks);
  }

  // One round of the loop of mode -o rw for a batch of reads; `delivered` is
  // what fwrite puts into the dump file.
  method ReadHint(job: Job, infosMap: array<Line>, ghost s: seq<Line>, h: Hint, blk: array<byte>, fd: Handle,
                  ghost dump: seq<byte>)
    returns (delivered: seq<byte>)
    requires |s| <= infosMap.Length && infosMap[..|s|] == s && infosMap as object != blk
    requires Ready(job, s, [h], blk.Length) && job.mode == ReadWrite && h.rw != 'W'
    modifies blk
    ensures InTrace(job.infos, s) && Fits(s, h)
    ensures World(fd.content, dump + delivered) == StepHint(job, s, h, World(fd.content, dump))
  {
    hide Ready, ReadAt;
    ReadyAt(job, s, [h], blk.Length, 0);
    assert infosMap[h.startLine] == s[h.startLine] == Part(s, h)[0];
    ReadBatch(fd, blk, BLK_SIZE * h.continuousBlks, job.infos[infosMap[h.startLine]].Ofs());
    delivered := blk[..BLK_SIZE * h.continuousBlks];
  }

  // One round of whichever loop the mode selects.
  method ReplayHint(job: Job, infosMap: array<Line>, ghost s: seq<Line>, h: Hint, blk: array<byte>, fd: Handle,
                    gener: RandGener, ghost dump: seq<byte>)
    returns (delivered: seq<byte>)
    requires |s| <= infosMap.Length && infosMap[..|s|] == s
    requires Ready(job, s, [h], blk.Length)
    requires gener.g == job.g && gener.mt.mt.Length == Mt19937.N
    requires blk as object !in gener.Repr() && infosMap as object !in gener.Repr() + {blk}
    modifies blk, gener.Repr(), fd
    ensures InTrace(job.infos, s) && Fits(s, h)
    ensures World(fd.content, dump + delivered) == StepHint(job, s, h, World(old(fd.content), dump))
  {
    hide Ready, StepHint;
    delivered := [];
    assert dump + [] == dump;
    if job.mode == WriteOnly {
      WriteHint(job, infosMap, s, h, blk, fd, gener, dump);
    } else if job.mode == AppendOnly {
      AppendHint(job, infosMap, s, h, blk, fd, gener, dump);
    } else if h.rw == 'W' {
      WriteHint(job, infosMap, s, h, blk, fd, gener, dump);
    } else {
      delivered := ReadHint(job, infosMap, s, h, blk, fd, dump);
    }
  }

  // ----- the worker -----

  lemma ReadyOne(job: Job, s: seq<Line>, hs: seq<Hint>, room: nat, k: nat)
    requires Ready(job, s, hs, room) && k < |hs|
    ensures Ready(job, s, [hs[k]], room)
  {
  }

  lemma GoodParamReady(job: Job, s: seq<Line>, c: nat, hints: seq<Hint>, p: Param)
    requires GoodParam(job.infos, s, c, hints, p)
    ensures Ready(job, s, hints[p.hintsStart..p.hintsEnd], BLK_SIZE * p.maxBlks)
  {
    hide Tiles, Maximal;
    var hs := hints[p.hintsStart..p.hintsEnd];
    forall k | 0 <= k < |hs|
      ensures Fits(s, hs[k]) && BLK_SIZE * hs[k].continuousBlks <= BLK_SIZE * p.maxBlks
    {
      assert Legal(job.infos, s, c, hs[k]);
      assert hs[k] == hints[p.hintsStart + k];
    }
  }

  // The loop over the worker's hints.  The source has one loop for each mode;
  // the mode does not change during a run.
  method ReplayHints(job: Job, infosMap: array<Line>, ghost s: seq<Line>, hints: array<Hint>, start: nat, end: nat,
                     blk: array<byte>, fd: Handle, gener: RandGener)
    returns (dump: seq<byte>)
    requires |s| <= infosMap.Length && infosMap[..|s|] == s && start <= end <= hints.Length
    requires Ready(job, s, hints[start..end], blk.Length)
    requires gener.g == job.g && gener.mt.mt.Length == Mt19937.N
    requires blk as object !in gener.Repr() && {infosMap, hints as object} !! gener.Repr() + {blk, fd}
    modifies blk, gener.Repr(), fd
    ensures InTrace(job.infos, s) && AllFit(s, hints[start..end])
    ensures World(fd.content, dump) == RunHints(job, s, hints[start..end], World(old(fd.content), []))
  {
    hide Ready, RunHints, StepHint, AllFit, InTrace;
    ghost var hs, w0 := hints[start..end], World(fd.content, []);
    dump := [];
    RunNoHints(job, s, hs, blk.Length, w0);
    for i := start to end
      invariant infosMap[..|s|] == s && hints[start..end] == hs && Ready(job, s, hs, blk.Length)
      invariant InTrace(job.infos, s) && AllFit(s, hs[..i - start])
      invariant World(fd.content, dump) == RunHints(job, s, hs[..i - start], w0)
    {
      RunSnoc(job, s, hs, blk.Length, i - start, w0);
      ReadyOne(job, s, hs, blk.Length, i - start);
      assert hints[i] == hs[i - start];
      var delivered := ReplayHint(job, infosMap, s, hints[i], blk, fd, gener, dump);
      dump := dump + delivered;
    }
    assert hs[..end - start] == hs;
    RunNoHints(job, s, hs, blk.Length, w0);
  }

  // replay_worker: whatever the short reads, the generator's earlier state and
  // the buffer's earlier content, the worker does to its file what its lines do
  // one by one, and its dump file gets all that the read lines read.
  method ReplayWorker(job: Job, tc: TraceContainer, ghost c: nat, hints: array<Hint>, p: Param, blk: array<byte>,
                      fd: Handle, gener: RandGener, dumpRead: bool)
    returns (dump: seq<byte>)
    requires tc.Valid() && Grouping.Bounded(job.infos) && GoodParam(job.infos, tc.Contents(), c, hints[..], p)
    requires blk.Length == BLK_SIZE * p.maxBlks && gener.g == job.g && gener.mt.mt.Length == Mt19937.N
    requires blk as object !in gener.Repr() && {tc, tc.infosMap, hints as object} !! gener.Repr() + {blk, fd}
    modifies blk, gener.Repr(), fd
    ensures InTrace(job.infos, tc.Contents())
    ensures var w := RunLines(job, tc.Contents(), World(old(fd.content), []));
      fd.content == w.file && dump == if dumpRead then w.dump else []
  {
    hide RunHints, RunLines, Ready, GoodParam, LegalTiling;
    ghost var s := tc.Contents();
    GoodParamReady(job, s, c, hints[..], p);
    GoodParamTiling(job, s, c, hints[..], p);
    assert hints[..][p.hintsStart..p.hintsEnd] == hints[p.hintsStart..p.hintsEnd];
    ghost var w0 := World(fd.content, []);
    BatchedIsUnbatched(job, s, c, hints[p.hintsStart..p.hintsEnd], w0);
    dump := ReplayHints(job, tc.infosMap, s, hints, p.hintsStart, p.hintsEnd, blk, fd, gener);
    if !dumpRead {
      dump := [];
    }
  }

  lemma GoodParamTiling(job: Job, s: seq<Line>, c: nat, hints: seq<Hint>, p: Param)
    requires GoodParam(job.infos, s, c, hints, p)
    ensures InTrace(job.infos, s) && p.hintsStart <= p.hintsEnd <= |hints|
    ensures LegalTiling(job.infos, s, c, hints[p.hintsStart..p.hintsEnd])
  {
  }
}
