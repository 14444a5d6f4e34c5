// main of helper/replay.c: the preparation, and the workers.
module Running {
  import opened BucketTable
  import opened Bytes
  import opened Containers
  import opened Execution
  import opened Files
  import opened FillBlock
  import opened Filling
  import opened Gathering
  import opened Grouping
  import opened Hints
  import opened Interleaving
  import opened LastWrites
  import opened Options
  import opened Planning
  import opened Preparing
  import opened Readiness
  import opened Remembering
  import opened Replaying
  import opened StableSort
  import opened Trace
  import Assigning
  import Spreading

  // Whatever the number of workers, the coins, the batch limit and the hash
  // function: if the preparation succeeds, every worker agrees with the
  // sequential replay under every schedule, and leaves and delivers the latest
  // writes.
  method PrepareRun(job: Job, threads: nat, c: nat, coin: Spreading.Coins, hash: HashFunction)
    returns (workers: Pool, hints: array<Hint>, params: seq<Param>, ready: bool, ghost owner: nat -> nat)
    requires threads > 0 && Grouping.Bounded(job.infos) && Apart(job.infos) && job.mode != AppendOnly
    ensures workers.Valid() && fresh(workers.Repr()) && |workers.contents| == threads
    ensures Within(VisitsFor(job.infos, hash), |ContainersFor(job.infos)|)
    ensures Spreading.Positive(SizesFor(job.infos, hash))
    ensures ready <==> Fills(SizesFor(job.infos, hash), threads, Assigning.PerThread(|job.infos|, threads), coin)
    ensures ready ==> |params| == threads && Planned(job.infos, workers.contents, c, hints[..], params)
    ensures ready ==> GoodPlans(job.infos, PlansOf(workers.contents, hints[..], params), c, owner)
    ensures ready ==> AlwaysAgrees(job, PlansOf(workers.contents, hints[..], params), owner)
    ensures ready ==> AlwaysMeans(job, PlansOf(workers.contents, hints[..], params), owner)
  {
    hide *;
    workers, hints, params, ready, owner := Prepare(job.infos, threads, c, coin, hash);
    if ready {
      GoodPlansAgree(job, PlansOf(workers.contents, hints[..], params), c, owner);
      GoodPlansMean(job, PlansOf(workers.contents, hints[..], params), c, owner);
    }
  }

  // ----- the workers one after the other -----

  // One thread: its buffer, its file, which does not exist yet, and its
  // generator.
  method RunWorker(job: Job, workers: Pool, w: nat, ghost c: nat, hints: array<Hint>, p: Param)
    returns (file: File, dump: seq<byte>)
    requires workers.Valid() && w < |workers.contents| && Grouping.Bounded(job.infos)
    requires GoodParam(job.infos, workers.contents[w], c, hints[..], p)
    ensures workers.Valid() && InTrace(job.infos, workers.contents[w])
    ensures World(file, dump) == RunLines(job, workers.contents[w], BLANK)
  {
    hide GoodParam, RunLines, InTrace, Grouping.Bounded, Pool.Valid, TraceContainer.Valid, TraceContainer.Contents;
    Assigning.ContainerAt(workers, w);
    var tc := workers.cs[w];
    var blk := new byte[BLK_SIZE * p.maxBlks];
    var fd := new Handle(None);
    var gener := new RandGener(job.g);
    dump := ReplayWorker(job, tc, c, hints, p, blk, fd, gener, true);
    file := fd.content;
  }

  // The workers' files and dumps so far.
  ghost predicate Ran(job: Job, contents: seq<seq<Line>>, files: seq<File>, dumps: seq<seq<byte>>)
  {
    && |files| == |dumps| <= |contents|
    && forall v :: 0 <= v < |files| ==>
         InTrace(job.infos, contents[v]) && World(files[v], dumps[v]) == RunLines(job, contents[v], BLANK)
  }

  lemma RanStep(job: Job, contents: seq<seq<Line>>, files: seq<File>, dumps: seq<seq<byte>>, file: File, dump: seq<byte>)
    requires Ran(job, contents, files, dumps) && |files| < |contents| && InTrace(job.infos, contents[|files|])
    requires World(file, dump) == RunLines(job, contents[|files|], BLANK)
    ensures Ran(job, contents, files + [file], dumps + [dump])
  {
    hide RunLines, InTrace;
  }

  lemma PlannedAt(infos: seq<TraceInfo>, contents: seq<seq<Line>>, c: nat, hints: seq<Hint>, params: seq<Param>, w: nat)
    requires Planned(infos, contents, c, hints, params) && w < |params|
    ensures w < |contents| && GoodParam(infos, contents[w], c, hints, params[w])
  {
  }

  method RunWorkers(job: Job, workers: Pool, ghost c: nat, hints: array<Hint>, params: seq<Param>)
    returns (files: seq<File>, dumps: seq<seq<byte>>)
    requires workers.Valid() && Grouping.Bounded(job.infos) && |params| == |workers.contents|
    requires Planned(job.infos, workers.contents, c, hints[..], params)
    ensures |files| == |params| && Ran(job, workers.contents, files, dumps)
  {
    hide Pool.Valid, Planned, GoodParam, Ran, Grouping.Bounded;
    files, dumps := [], [];
    RanNone(job, workers.contents);
    for w := 0 to |params|
      invariant workers.Valid() && |files| == w && Ran(job, workers.contents, files, dumps)
    {
      PlannedAt(job.infos, workers.contents, c, hints[..], params, w);
      var file, dump := RunWorker(job, workers, w, c, hints, params[w]);
      RanStep(job, workers.contents, files, dumps, file, dump);
      files, dumps := files + [file], dumps + [dump];
    }
  }

  lemma RanNone(job: Job, contents: seq<seq<Line>>)
    ensures Ran(job, contents, [], [])
  {
  }

  // Every worker's file and dump agree with the sequential replay, and are the
  // latest writes.
  ghost predicate RunAgrees(job: Job, lines: seq<seq<Line>>, owner: nat -> nat, files: seq<File>, dumps: seq<seq<byte>>)
  {
    && InTrace(job.infos, Order(job.infos)) && Split(job.infos, lines, Order(job.infos), owner)
    && |files| == |dumps| == |lines|
    && forall w :: 0 <= w < |lines| ==>
         && InTrace(job.infos, lines[w]) && Agrees(job, lines[w], owner, w, World(files[w], dumps[w]))
         && Means(job, lines[w], owner, w, World(files[w], dumps[w]))
  }

  lemma RanAgrees(job: Job, contents: seq<seq<Line>>, files: seq<File>, dumps: seq<seq<byte>>, owner: nat -> nat)
    requires Apart(job.infos) && job.mode != AppendOnly
    requires Split(job.infos, contents, Order(job.infos), owner)
    requires forall w :: 0 <= w < |contents| ==> InTime(job.infos, contents[w])
    requires Ran(job, contents, files, dumps) && |files| == |contents|
    ensures RunAgrees(job, contents, owner, files, dumps)
  {
    hide RunLines, Order, Share, Agrees, Means;
    OrderInTrace(job.infos);
    forall w | 0 <= w < |contents|
      ensures Agrees(job, contents[w], owner, w, World(files[w], dumps[w]))
      ensures Means(job, contents[w], owner, w, World(files[w], dumps[w]))
    {
      WorkerAgrees(job, contents[w], owner, w);
      AgreesMeans(job, contents[w], owner, w, World(files[w], dumps[w]));
    }
  }

  // The whole program on a parsed trace, with the workers run one after the
  // other, which is one of their schedules.
  method RunTrace(job: Job, threads: nat, c: nat, coin: Spreading.Coins, hash: HashFunction)
    returns (files: seq<File>, dumps: seq<seq<byte>>, ready: bool, ghost lines: seq<seq<Line>>, ghost owner: nat -> nat)
    requires threads > 0 && Grouping.Bounded(job.infos) && Apart(job.infos) && job.mode != AppendOnly
    ensures Within(VisitsFor(job.infos, hash), |ContainersFor(job.infos)|)
    ensures Spreading.Positive(SizesFor(job.infos, hash))
    ensures ready <==> Fills(SizesFor(job.infos, hash), threads, Assigning.PerThread(|job.infos|, threads), coin)
    ensures ready ==> |lines| == threads && RunAgrees(job, lines, owner, files, dumps)
  {
    hide *;
    var workers, hints, params;
    workers, hints, params, ready, owner := Prepare(job.infos, threads, c, coin, hash);
    lines := workers.contents;
    files, dumps := [], [];
    if ready {
      GoodPlansSplit(job.infos, lines, hints[..], params, c, owner);
      files, dumps := RunWorkers(job, workers, c, hints, params);
      RanAgrees(job, lines, files, dumps, owner);
    }
  }

  lemma GoodPlansSplit(infos: seq<TraceInfo>, contents: seq<seq<Line>>, hints: seq<Hint>, params: seq<Param>, c: nat,
                       owner: nat -> nat)
    requires |params| == |contents| && GoodPlans(infos, PlansOf(contents, hints, params), c, owner)
    ensures Split(infos, contents, Order(infos), owner)
    ensures forall w :: 0 <= w < |contents| ==> InTime(infos, contents[w])
  {
    hide Split, Order, LegalTiling, InTime;
    assert LinesIn(PlansOf(contents, hints, params)) == contents;
    forall w | 0 <= w < |contents|
      ensures InTime(infos, contents[w])
    {
      assert InTime(infos, PlansOf(contents, hints, params)[w].lines);
    }
  }

  // ----- two overlapping lines -----

  lemma TwoContainers(infos: seq<TraceInfo>)
    requires |infos| == 2 && infos[0].lba != infos[1].lba
    ensures ContainersFor(infos) == [[0], [1]]
  {
    hide LbaBytes;
    assert EntriesFor(infos, 0) == [];
    assert !Seen(infos, 0, infos[0].lba);
    assert EntriesFor(infos, 1) == [Entry(KeyRef(0, LbaBytes(infos[0].lba)), 0)];
    assert !Seen(infos, 1, infos[1].lba);
    forall k | 0 <= k < 2
      ensures Group(infos, 2, infos[k].lba) == [k]
    {
      GroupGrows(infos, 0, infos[k].lba);
      GroupGrows(infos, 1, infos[k].lba);
      assert Range(0) == [];
    }
  }

  lemma TwoOfThree(a: nat, b: nat, c: nat)
    requires a < 2 && b < 2 && c < 2
    ensures a == b || a == c || b == c
  {
  }

  lemma TwoVisits(visited: seq<nat>)
    requires VisitsAll(visited, 2)
    ensures visited == [0, 1] || visited == [1, 0]
  {
    assert 0 in visited && 1 in visited;
    if |visited| > 2 {
      TwoOfThree(visited[0], visited[1], visited[2]);
    }
  }

  // One line for each of two workers: no coin is drawn, each gets one.
  lemma TwoOwners(coin: Spreading.Coins)
    ensures Spreading.Spread([1, 1], 2, 1, coin).owners == [0, 1]
  {
    var one, two: seq<nat> := [1], [1, 1];
    assert two[..1] == one && one[..0] == [];
    assert Spreading.Spread(one, 2, 1, coin) == Spreading.State(1, 0, 0, [0]);
  }

  // Whatever the coins and the hash function, two workers get one line each.
  lemma TwoLinesPart(infos: seq<TraceInfo>, hash: HashFunction, coin: Spreading.Coins, contents: seq<seq<Line>>)
    requires Grouping.Bounded(infos) && |infos| == 2 && infos[0].lba != infos[1].lba
    requires Assigning.SpreadOut(ContainersFor(infos), VisitsFor(infos, hash), 2, Assigning.PerThread(2, 2), coin,
                                 contents)
    ensures contents == [[0], [1]] || contents == [[1], [0]]
  {
    hide VisitsFor, ContainersFor, Assigning.SpreadOut, VisitsAll, Spreading.Spread, Gather;
    TraceVisits(infos, hash);
    TwoContainers(infos);
    var visited := VisitsFor(infos, hash);
    TwoVisits(visited);
    var owners := SpreadOutParts(ContainersFor(infos), visited, 2, Assigning.PerThread(2, 2), coin, contents);
    assert SizesFor(infos, hash) == [1, 1];
    TwoOwners(coin);
    TwoGathered(visited, owners);
  }

  lemma TwoGathered(visited: seq<nat>, owners: seq<nat>)
    requires (visited == [0, 1] || visited == [1, 0]) && owners == [0, 1]
    ensures Gather([[0], [1]], visited, owners, 0) == [visited[0]]
    ensures Gather([[0], [1]], visited, owners, 1) == [visited[1]]
  {
    var groups: seq<seq<Line>> := [[0], [1]];
    var none: seq<nat> := [];
    assert visited == [visited[0]] + [visited[1]] && owners == [0] + [1];
    assert none + [visited[0]] == [visited[0]] && none + [0 as nat] == [0];
    forall w: nat | w < 2
      ensures Gather(groups, visited, owners, w) == if w == 0 then groups[visited[0]] else groups[visited[1]]
    {
      GatherSnoc(groups, none, none, visited[0], 0, w);
      GatherSnoc(groups, [visited[0]], [0], visited[1], 1, w);
    }
  }

  // So with two overlapping writes the program agrees with the sequential replay
  // at the first one exactly when the second repeats the bytes it overwrites.
  lemma OverlapInParallel(job: Job, hash: HashFunction, coin: Spreading.Coins, contents: seq<seq<Line>>)
    returns (w: nat)
    requires Grouping.Bounded(job.infos) && |job.infos| == 2 && job.mode == WriteOnly
    requires job.infos[0].ts <= job.infos[1].ts && job.infos[0].lba < job.infos[1].lba < job.infos[0].lba + 8
    requires Assigning.SpreadOut(ContainersFor(job.infos), VisitsFor(job.infos, hash), 2, Assigning.PerThread(2, 2), coin,
                                 contents)
    ensures w < |contents| && contents[w] == [0] && InTrace(job.infos, [0]) && InTrace(job.infos, Order(job.infos))
    ensures var d := job.infos[1].Ofs() - job.infos[0].Ofs();
      0 < d < BLK_SIZE
      && (BlockAt(RunLines(job, contents[w], BLANK).file, job.infos[0].lba)
          == BlockAt(Sequential(job).file, job.infos[0].lba)
          <==> BlockOf(job, 0)[d..] == BlockOf(job, 1)[..BLK_SIZE - d])
  {
    hide RunLines, BlockOf, BlockAt, Sequential, Order, Assigning.SpreadOut, VisitsFor, ContainersFor;
    TwoLinesPart(job.infos, hash, coin, contents);
    OverlapDecides(job);
    w := if contents[0] == [0] then 0 else 1;
  }
}
