// main of helper/replay.c between parsing the trace and starting the workers.
module Preparing {
  import opened Assigning
  import opened BucketTable
  import opened Building
  import opened Containers
  import opened Filling
  import opened Gathering
  import opened Grouping
  import opened Hints
  import opened Interleaving
  import opened LinkedHashMap
  import opened Planning
  import opened Readiness
  import opened StableSort
  import opened Trace
  import opened Visiting
  import Spreading

  // ----- the plan -----

  // What the workers are handed, as values.
  function PlansOf(contents: seq<seq<Line>>, hints: seq<Hint>, params: seq<Param>): (plans: seq<WorkerPlan>)
    requires |params| == |contents|
    ensures |plans| == |contents|
  {
    seq(|params|, w requires 0 <= w < |params| => PlanOf(contents[w], hints, params[w]))
  }

  function PlanOf(lines: seq<Line>, hints: seq<Hint>, p: Param): WorkerPlan
  {
    WorkerPlan(lines, if p.hintsStart <= p.hintsEnd <= |hints| then hints[p.hintsStart..p.hintsEnd] else [])
  }

  lemma PlannedIsGood(infos: seq<TraceInfo>, contents: seq<seq<Line>>, sorted: seq<seq<Line>>, c: nat,
                      hints: seq<Hint>, params: seq<Param>, owner: nat -> nat)
    requires Split(infos, contents, Range(|infos|), owner)
    requires sorted == SortedUpTo(infos, contents, |contents|)
    requires |params| == |contents| && Planned(infos, sorted, c, hints, params)
    ensures GoodPlans(infos, PlansOf(sorted, hints, params), c, owner)
  {
    hide Split, MergeSort, LegalTiling, AllMaximal, LargestIs;
    SortSplits(infos, contents, sorted, Range(|infos|), owner);
    forall w | 0 <= w < |contents|
      ensures InTime(infos, sorted[w])
    {
      SplitInTrace(infos, contents, Range(|infos|), owner, w);
      MergeSortChronological(infos, contents[w]);
    }
    assert LinesIn(PlansOf(sorted, hints, params)) == sorted;
  }

  lemma SplitInTrace(infos: seq<TraceInfo>, contents: seq<seq<Line>>, whole: seq<Line>, owner: nat -> nat, w: nat)
    requires Split(infos, contents, whole, owner) && w < |contents|
    ensures InTrace(infos, contents[w])
  {
    hide Keep;
    assert Share(infos, contents[w], whole, owner, w);
  }

  lemma SplitPlannable(infos: seq<TraceInfo>, contents: seq<seq<Line>>, owner: nat -> nat, room: nat)
    requires Split(infos, contents, Range(|infos|), owner)
    requires forall w :: 0 <= w < |contents| ==> contents[w] != []
    requires LinesOf(contents, |contents|) <= room
    ensures Plannable(infos, contents, room)
  {
    hide LinesOf;
    forall w | 0 <= w < |contents|
      ensures InTrace(infos, contents[w])
    {
      assert Share(infos, contents[w], Range(|infos|), owner, w);
    }
  }

  // Is there a worker without lines?  For such a worker the program would sort
  // and cut an array of size 0 as if it had lines.
  method NoneIsEmpty(workers: Pool) returns (ready: bool)
    requires workers.Valid()
    ensures ready <==> forall w :: 0 <= w < |workers.contents| ==> workers.contents[w] != []
  {
    ready := true;
    for w := 0 to |workers.cs|
      invariant ready <==> forall v :: 0 <= v < w ==> workers.contents[v] != []
    {
      assert workers.cs[w].Contents() == workers.contents[w];
      if workers.cs[w].size == 0 {
        ready := false;
      }
    }
  }

  // What the workers have before their lines are sorted: every line on one
  // worker, all lines of one lba together, and an even load if there is at least
  // one line for every worker.  Whether all workers have lines is settled by the
  // sizes of the containers and the coins.
  ghost predicate Distributed(infos: seq<TraceInfo>, threads: nat, coin: Spreading.Coins, hash: HashFunction,
                              contents: seq<seq<Line>>, owner: nat -> nat)
    requires threads > 0
    requires Within(VisitsFor(infos, hash), |ContainersFor(infos)|) && Spreading.Positive(SizesFor(infos, hash))
  {
    var per := PerThread(|infos|, threads);
    && |contents| == threads && Split(infos, contents, Range(|infos|), owner) && LinesOf(contents, threads) == |infos|
    && (forall largest :: per > 0 && AtMost(infos, largest) ==> exists used :: Even(contents, used, per, largest))
    && ((forall w :: 0 <= w < threads ==> contents[w] != []) <==> Fills(SizesFor(infos, hash), threads, per, coin))
  }

  lemma SpreadOutDistributed(infos: seq<TraceInfo>, threads: nat, coin: Spreading.Coins, hash: HashFunction,
                             contents: seq<seq<Line>>)
    returns (owner: nat -> nat)
    requires threads > 0 && Grouping.Bounded(infos)
    requires SpreadOut(ContainersFor(infos), VisitsFor(infos, hash), threads, PerThread(|infos|, threads), coin, contents)
    ensures Within(VisitsFor(infos, hash), |ContainersFor(infos)|) && Spreading.Positive(SizesFor(infos, hash))
    ensures Distributed(infos, threads, coin, hash, contents, owner)
  {
    hide IsGrouping, VisitsAll, VisitsFor, ContainersFor, SpreadOut, Sizes, Split, Fills, Even, AtMost, PerThread,
         LinesOf, Spreading.Positive, Spreading.Bounded;
    var per := PerThread(|infos|, threads);
    TraceVisits(infos, hash);
    owner := SpreadOutSplits(infos, ContainersFor(infos), VisitsFor(infos, hash), threads, per, coin, contents);
    FilledContents(ContainersFor(infos), VisitsFor(infos, hash), threads, per, coin, contents);
    forall largest: nat | per > 0 && AtMost(infos, largest)
      ensures exists used :: Even(contents, used, per, largest)
    {
      AtMostBounds(infos, ContainersFor(infos), VisitsFor(infos, hash), largest);
      var used := EvenContents(ContainersFor(infos), VisitsFor(infos, hash), threads, per, coin, contents, largest);
    }
  }

  // Groups the trace by lba and spreads the groups over the workers.
  method Distribute(infos: seq<TraceInfo>, threads: nat, coin: Spreading.Coins, hash: HashFunction)
    returns (workers: Pool, ghost owner: nat -> nat)
    requires threads > 0 && Grouping.Bounded(infos)
    ensures workers.Valid() && fresh(workers.Repr())
    ensures Within(VisitsFor(infos, hash), |ContainersFor(infos)|) && Spreading.Positive(SizesFor(infos, hash))
    ensures Distributed(infos, threads, coin, hash, workers.contents, owner)
  {
    hide Grouped, Grouping.Bounded, IsGrouping, VisitsAll, SpreadOut, Distributed, PerThread, EntriesFor, GroupsFor,
         Entries, WellFormed, Distinct, Pool.Valid, VisitOrder, SizesFor, Spreading.Positive;
    var m := new HashMap(false, hash);
    var pool := new Pool();
    BuildTraceContainers(m, pool, infos);
    var destroyed;
    GroupedGroups(infos, |infos|, m.Contents(), pool.contents);
    workers, destroyed := SpreadContainers(m, pool, infos, threads, coin, LbaCompare(infos));
    owner := SpreadOutDistributed(infos, threads, coin, hash, workers.contents);
  }

  // The whole preparation.  When every worker has lines, the plans are such that
  // the workers may be started; `ready` says whether that is so.
  method Prepare(infos: seq<TraceInfo>, threads: nat, c: nat, coin: Spreading.Coins, hash: HashFunction)
    returns (workers: Pool, hints: array<Hint>, params: seq<Param>, ready: bool, ghost owner: nat -> nat)
    requires threads > 0 && Grouping.Bounded(infos)
    ensures workers.Valid() && fresh(workers.Repr()) && |workers.contents| == threads && hints.Length == |infos|
    ensures ready ==> |params| == threads && Planned(infos, workers.contents, c, hints[..], params)
    ensures ready ==> GoodPlans(infos, PlansOf(workers.contents, hints[..], params), c, owner)
    ensures Within(VisitsFor(infos, hash), |ContainersFor(infos)|) && Spreading.Positive(SizesFor(infos, hash))
    ensures ready <==> Fills(SizesFor(infos, hash), threads, PerThread(|infos|, threads), coin)
    ensures Safe(SizesFor(infos, hash), threads, PerThread(|infos|, threads)) ==> ready
    ensures forall largest :: Small(infos, threads, largest) ==> ready
    ensures !ready ==> exists w :: 0 <= w < threads && workers.contents[w] == []
  {
    hide Pool.Valid, TraceContainer.Valid, TraceContainer.Contents, Grouping.Bounded, Planned, Plannable, GoodPlans,
         PlansOf, Split, SortedUpTo, LinesOf, UsedBy, Range, VisitsFor, ContainersFor, SizesFor, Fills, Safe,
         Small, Even, PerThread, Within, Spreading.Positive;
    hints := new Hint[|infos|];
    workers, owner := Distribute(infos, threads, coin, hash);
    params := [];
    ready := NoneIsEmpty(workers);
    if ready {
      ghost var contents := workers.contents;
      SplitPlannable(infos, contents, owner, hints.Length);
      params := PlanWorkers(workers, infos, c, hints);
      PlannedIsGood(infos, contents, workers.contents, c, hints[..], params, owner);
    }
    ReadyForAllCoins(infos, threads, PerThread(|infos|, threads), hash);
    forall largest: nat | Small(infos, threads, largest)
      ensures ready
    {
      SmallTraceIsSafe(infos, threads, hash, largest);
    }
  }
}
