// The second loop of assign_params_per_worker (helper/replay.c): every worker's
// lines are sorted by timestamp and cut into hints, which all workers keep in
// one shared array.
module Planning {
  import opened Containers
  import opened Gathering
  import opened Hints
  import opened StableSort
  import opened Trace

  // The part of replay_param_t that is not the container: the worker's range of
  // the shared hints, and the number of blocks that its buffer holds.
  datatype Param = Param(hintsStart: nat, hintsEnd: nat, maxBlks: nat)

  // ----- what is planned for one worker -----

  ghost predicate GoodParam(infos: seq<TraceInfo>, lines: seq<Line>, c: nat, hints: seq<Hint>, p: Param)
  {
    && InTrace(infos, lines) && p.hintsStart < p.hintsEnd <= |hints|
    && LegalTiling(infos, lines, c, hints[p.hintsStart..p.hintsEnd])
    && AllMaximal(infos, lines, c, hints[p.hintsStart..p.hintsEnd])
    && (forall k :: p.hintsStart <= k < p.hintsEnd ==> hints[k].continuousBlks <= p.maxBlks)
    && LargestIs(hints[p.hintsStart..p.hintsEnd], p.maxBlks)
  }

  // The workers' ranges follow each other without gap or overlap.
  ghost predicate Consecutive(params: seq<Param>)
  {
    forall w {:trigger UsedBy(params, w)} :: 0 <= w < |params| ==>
      params[w].hintsStart == UsedBy(params, w) < params[w].hintsEnd
  }

  // Where the hints of the first w workers end.
  function UsedBy(params: seq<Param>, w: nat): nat
    requires w <= |params|
  {
    if w == 0 then 0 else params[w - 1].hintsEnd
  }

  // The first |params| workers are planned.
  ghost predicate Planned(infos: seq<TraceInfo>, contents: seq<seq<Line>>, c: nat, hints: seq<Hint>, params: seq<Param>)
  {
    && |params| <= |contents| && Consecutive(params)
    && forall w :: 0 <= w < |params| ==> GoodParam(infos, contents[w], c, hints, params[w])
  }

  // The number of lines of the first w workers.
  function LinesOf(contents: seq<seq<Line>>, w: nat): nat
    requires w <= |contents|
  {
    if w == 0 then 0 else LinesOf(contents, w - 1) + |contents[w - 1]|
  }

  lemma {:induction false} LinesOfMonotone(contents: seq<seq<Line>>, v: nat, w: nat)
    requires v <= w <= |contents|
    ensures LinesOf(contents, v) <= LinesOf(contents, w)
  {
    if v < w {
      LinesOfMonotone(contents, v, w - 1);
    }
  }

  lemma {:induction false} LinesOfFlatten(contents: seq<seq<Line>>, w: nat)
    requires w <= |contents|
    ensures LinesOf(contents, w) == |Flatten(contents[..w])|
  {
    if w > 0 {
      LinesOfFlatten(contents, w - 1);
      assert contents[..w][..w - 1] == contents[..w - 1];
    }
  }

  lemma {:induction false} LinesOfSameLengths(a: seq<seq<Line>>, b: seq<seq<Line>>, w: nat)
    requires w <= |a| == |b| && forall v :: 0 <= v < |a| ==> |a[v]| == |b[v]|
    ensures LinesOf(a, w) == LinesOf(b, w)
  {
    if w > 0 {
      LinesOfSameLengths(a, b, w - 1);
    }
  }

  // Storing hints behind those of a worker, and sorting other containers, does
  // not touch the worker.
  lemma GoodParamFrame(infos: seq<TraceInfo>, lines: seq<Line>, c: nat, before: seq<Hint>, now: seq<Hint>,
                       p: Param, n: nat)
    requires GoodParam(infos, lines, c, before, p) && p.hintsEnd <= n <= |before| <= |now|
    requires now[..n] == before[..n]
    ensures GoodParam(infos, lines, c, now, p)
  {
    hide LegalTiling, AllMaximal;
    assert now[..n][p.hintsStart..p.hintsEnd] == now[p.hintsStart..p.hintsEnd];
    assert before[..n][p.hintsStart..p.hintsEnd] == before[p.hintsStart..p.hintsEnd];
    forall k | p.hintsStart <= k < p.hintsEnd
      ensures now[k].continuousBlks <= p.maxBlks
    {
      assert now[..n][k] == before[..n][k];
    }
  }

  lemma {:induction false} RangesAscend(params: seq<Param>, v: nat, w: nat)
    requires Consecutive(params) && v <= w <= |params|
    ensures UsedBy(params, v) <= UsedBy(params, w)
  {
    if v < w {
      RangesAscend(params, v, w - 1);
      assert UsedBy(params, w - 1) < params[w - 1].hintsEnd;
    }
  }

  lemma PlannedStep(infos: seq<TraceInfo>, contents: seq<seq<Line>>, sorted: seq<Line>, c: nat,
                    before: seq<Hint>, now: seq<Hint>, params: seq<Param>, p: Param)
    requires Planned(infos, contents, c, before, params) && |params| < |contents|
    requires p.hintsStart == UsedBy(params, |params|) <= |before| == |now|
    requires now[..p.hintsStart] == before[..p.hintsStart]
    requires GoodParam(infos, sorted, c, now, p)
    ensures Planned(infos, contents[|params| := sorted], c, now, params + [p])
  {
    var n := |params|;
    hide Consecutive, LegalTiling, AllMaximal, GoodParam;
    ConsecutiveStep(params, p, infos, sorted, c, now);
    forall w | 0 <= w < n
      ensures GoodParam(infos, contents[w], c, now, params[w])
    {
      RangesAscend(params, w + 1, n);
      GoodParamFrame(infos, contents[w], c, before, now, params[w], p.hintsStart);
    }
  }

  lemma ConsecutiveStep(params: seq<Param>, p: Param, infos: seq<TraceInfo>, lines: seq<Line>, c: nat, hints: seq<Hint>)
    requires Consecutive(params) && p.hintsStart == UsedBy(params, |params|)
    requires GoodParam(infos, lines, c, hints, p)
    ensures Consecutive(params + [p])
  {
    hide LegalTiling, AllMaximal;
    var all := params + [p];
    forall w | 0 <= w < |all|
      ensures all[w].hintsStart == UsedBy(all, w) < all[w].hintsEnd
    {
      if w < |params| {
        assert UsedBy(params, w) == UsedBy(all, w);
      }
    }
  }

  // ----- the loop -----

  // The contents after the first w containers were sorted.
  function SortedUpTo(infos: seq<TraceInfo>, contents: seq<seq<Line>>, w: nat): (r: seq<seq<Line>>)
    ensures |r| == |contents|
    ensures forall v :: 0 <= v < |contents| ==> r[v] == if v < w then MergeSort(infos, contents[v]) else contents[v]
  {
    seq(|contents|, v requires 0 <= v < |contents| => if v < w then MergeSort(infos, contents[v]) else contents[v])
  }

  lemma SortNext(infos: seq<TraceInfo>, contents: seq<seq<Line>>, w: nat)
    requires w < |contents|
    ensures SortedUpTo(infos, contents, w)[w] == contents[w]
    ensures SortedUpTo(infos, contents, w)[w := MergeSort(infos, contents[w])] == SortedUpTo(infos, contents, w + 1)
  {
  }

  // One round of the loop.  The worker must have at least one line.
  method PlanWorker(workers: Pool, infos: seq<TraceInfo>, w: nat, c: nat, hints: array<Hint>, start: nat)
    returns (p: Param)
    requires workers.Valid() && w < |workers.contents| && workers.contents[w] != []
    requires InTrace(infos, workers.contents[w]) && start + |workers.contents[w]| <= hints.Length
    requires hints as object !in workers.Repr()
    modifies workers`contents, workers.Arrays(), hints
    ensures workers.Valid()
    ensures workers.contents == old(workers.contents)[w := MergeSort(infos, old(workers.contents[w]))]
    ensures p.hintsStart == start && p.hintsEnd <= start + |old(workers.contents[w])|
    ensures hints[..start] == old(hints[..start])
    ensures GoodParam(infos, workers.contents[w], c, hints[..], p)
  {
    hide MergeSort, LegalTiling, AllMaximal, InTrace, LargestIs;
    SortedInTrace(infos, workers.contents[w]);
    workers.SortByTs(w, infos);
    var container := workers.cs[w];
    ghost var sorted := workers.contents[w];
    assert container.infosMap[..container.size] == sorted;
    var idx, maxBlks := ExtractHints(infos, container.infosMap, container.size, c, hints, start);
    p := Param(start, idx, maxBlks);
    assert hints[..][start..idx] == hints[start..idx];
  }

  // The loop after w workers; `contents` is what the containers had at first.
  ghost predicate Halfway(infos: seq<TraceInfo>, contents: seq<seq<Line>>, now: seq<seq<Line>>, c: nat,
                          hints: seq<Hint>, params: seq<Param>, idx: nat)
  {
    && Plannable(infos, contents, |hints|) && |params| <= |contents|
    && now == SortedUpTo(infos, contents, |params|)
    && Planned(infos, now, c, hints, params)
    && idx == UsedBy(params, |params|) <= LinesOf(contents, |params|)
  }

  // Every worker has lines, and there is room for a hint for each line.
  ghost predicate Plannable(infos: seq<TraceInfo>, contents: seq<seq<Line>>, room: nat)
  {
    && (forall w :: 0 <= w < |contents| ==> contents[w] != [] && InTrace(infos, contents[w]))
    && LinesOf(contents, |contents|) <= room
  }

  lemma HalfwayStarts(infos: seq<TraceInfo>, contents: seq<seq<Line>>, c: nat, hints: seq<Hint>)
    requires Plannable(infos, contents, |hints|)
    ensures Halfway(infos, contents, contents, c, hints, [], 0)
  {
  }

  lemma HalfwayNext(infos: seq<TraceInfo>, contents: seq<seq<Line>>, now: seq<seq<Line>>, c: nat,
                    hints: seq<Hint>, params: seq<Param>, idx: nat)
    requires Halfway(infos, contents, now, c, hints, params, idx) && |params| < |contents|
    ensures var w := |params|;
      && |now| == |contents| && now[w] == contents[w] != [] && InTrace(infos, now[w])
      && idx + |now[w]| <= |hints|
  {
    LinesOfMonotone(contents, |params| + 1, |contents|);
  }

  lemma HalfwayStep(infos: seq<TraceInfo>, contents: seq<seq<Line>>, now: seq<seq<Line>>, sorted: seq<Line>, c: nat,
                    before: seq<Hint>, hints: seq<Hint>, params: seq<Param>, idx: nat, p: Param)
    requires Halfway(infos, contents, now, c, before, params, idx) && |params| < |contents| == |now|
    requires sorted == MergeSort(infos, now[|params|])
    requires p.hintsStart == idx <= |before| == |hints| && hints[..idx] == before[..idx]
    requires p.hintsEnd <= idx + |now[|params|]| && GoodParam(infos, sorted, c, hints, p)
    ensures Halfway(infos, contents, now[|params| := sorted], c, hints, params + [p], p.hintsEnd)
  {
    hide MergeSort, Planned, GoodParam, Plannable;
    SortNext(infos, contents, |params|);
    PlannedStep(infos, now, sorted, c, before, hints, params, p);
  }

  lemma HalfwayEnds(infos: seq<TraceInfo>, contents: seq<seq<Line>>, now: seq<seq<Line>>, c: nat,
                    hints: seq<Hint>, params: seq<Param>, idx: nat)
    requires Halfway(infos, contents, now, c, hints, params, idx) && |params| == |contents|
    ensures now == SortedUpTo(infos, contents, |contents|) && Planned(infos, now, c, hints, params)
    ensures UsedBy(params, |params|) <= LinesOf(contents, |contents|)
  {
  }

  // The workers' lines end up sorted and cut into hints.
  method PlanWorkers(workers: Pool, infos: seq<TraceInfo>, c: nat, hints: array<Hint>) returns (params: seq<Param>)
    requires workers.Valid() && hints as object !in workers.Repr()
    requires Plannable(infos, workers.contents, hints.Length)
    modifies workers`contents, workers.Arrays(), hints
    ensures workers.Valid()
    ensures workers.contents == SortedUpTo(infos, old(workers.contents), |old(workers.contents)|)
    ensures |params| == |workers.contents| && Planned(infos, workers.contents, c, hints[..], params)
    ensures UsedBy(params, |params|) <= LinesOf(old(workers.contents), |params|)
  {
    hide Pool.Valid, TraceContainer.Valid, TraceContainer.Contents, InTrace, MergeSort, SortedUpTo, Plannable, Planned,
         Halfway, GoodParam, LinesOf, UsedBy;
    ghost var contents := workers.contents;
    params := [];
    var idx := 0;
    HalfwayStarts(infos, contents, c, hints[..]);
    PoolCount(workers);
    for w := 0 to |workers.cs|
      invariant workers.Valid() && |params| == w && workers.cs == old(workers.cs)
      invariant Halfway(infos, contents, workers.contents, c, hints[..], params, idx)
    {
      ghost var before, now := hints[..], workers.contents;
      HalfwayNext(infos, contents, now, c, before, params, idx);
      var p := PlanWorker(workers, infos, w, c, hints, idx);
      HalfwayStep(infos, contents, now, workers.contents[w], c, before, hints[..], params, idx, p);
      params := params + [p];
      idx := p.hintsEnd;
    }
    HalfwayEnds(infos, contents, workers.contents, c, hints[..], params, idx);
  }

  lemma PoolCount(pool: Pool)
    requires pool.Valid()
    ensures |pool.cs| == |pool.contents|
  {
  }
}
