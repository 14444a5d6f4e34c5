// All workers of a run (helper/replay.c): a step executes one batch of one
// worker, and the schedule decides whose.  Whatever the schedule, the workers
// together do what replaying all lines one at a time, in stable timestamp order,
// does to a single file.
module Interleaving {
  import opened Bytes
  import opened Execution
  import opened Files
  import opened FillBlock
  import opened Gathering
  import opened Grouping
  import opened Hints
  import opened Remembering
  import opened Sequences
  import opened StableSort
  import opened Trace

  // What assign_params_per_worker prepared for a worker.
  datatype WorkerPlan = WorkerPlan(lines: seq<Line>, hints: seq<Hint>)

  function LinesIn(plans: seq<WorkerPlan>): (lines: seq<seq<Line>>)
    ensures |lines| == |plans|
    ensures forall w :: 0 <= w < |plans| ==> lines[w] == plans[w].lines
  {
    seq(|plans|, w requires 0 <= w < |plans| => plans[w].lines)
  }

  // All lines by timestamp, lines of one timestamp in trace order.
  function Order(infos: seq<TraceInfo>): seq<Line>
  {
    MergeSort(infos, Range(|infos|))
  }

  // Every worker's lines are in the order of their timestamps, its hints cut them
  // up, and the workers' lines split the whole trace with all lines of one lba on
  // one worker.
  ghost predicate GoodPlans(infos: seq<TraceInfo>, plans: seq<WorkerPlan>, c: nat, owner: nat -> nat)
  {
    && Split(infos, LinesIn(plans), Order(infos), owner)
    && forall w :: 0 <= w < |plans| ==>
         InTime(infos, plans[w].lines) && LegalTiling(infos, plans[w].lines, c, plans[w].hints)
  }

  ghost predicate Runnable(infos: seq<TraceInfo>, plans: seq<WorkerPlan>)
  {
    forall w :: 0 <= w < |plans| ==> InTrace(infos, plans[w].lines) && AllFit(plans[w].lines, plans[w].hints)
  }

  // ----- the workers as a state machine -----

  // How many batches each worker has executed, and what it has done.
  datatype State = State(done: seq<nat>, worlds: seq<World>)

  // Every worker starts with an empty file of its own.
  function Init(plans: seq<WorkerPlan>): State
  {
    State(seq(|plans|, _ => 0), seq(|plans|, _ => BLANK))
  }

  predicate Enabled(plans: seq<WorkerPlan>, st: State, w: nat)
  {
    && |st.done| == |plans| && |st.worlds| == |plans|
    && w < |plans| && st.done[w] < |plans[w].hints|
  }

  // Worker w executes its next batch.
  function Step(job: Job, plans: seq<WorkerPlan>, st: State, w: nat): State
    requires Runnable(job.infos, plans) && Enabled(plans, st, w)
  {
    State(st.done[w := st.done[w] + 1],
          st.worlds[w := StepHint(job, plans[w].lines, plans[w].hints[st.done[w]], st.worlds[w])])
  }

  // A run: the schedule names the worker that goes next; a worker that has
  // finished does nothing.
  function Exec(job: Job, plans: seq<WorkerPlan>, schedule: seq<nat>): State
    requires Runnable(job.infos, plans)
  {
    if schedule == [] then Init(plans) else
      var st := Exec(job, plans, schedule[..|schedule| - 1]);
      var w := schedule[|schedule| - 1];
      if Enabled(plans, st, w) then Step(job, plans, st, w) else st
  }

  ghost predicate Complete(plans: seq<WorkerPlan>, st: State)
  {
    |st.done| == |plans| && forall w :: 0 <= w < |plans| ==> st.done[w] == |plans[w].hints|
  }

  // Every worker has done exactly its first batches.
  ghost predicate Invariant(job: Job, plans: seq<WorkerPlan>, st: State)
    requires Runnable(job.infos, plans)
  {
    && |st.done| == |plans| && |st.worlds| == |plans|
    && forall w :: 0 <= w < |plans| ==> Progressed(job, plans[w], st.done[w], st.worlds[w])
  }

  ghost predicate Progressed(job: Job, plan: WorkerPlan, done: nat, world: World)
    requires InTrace(job.infos, plan.lines) && AllFit(plan.lines, plan.hints)
  {
    done <= |plan.hints| && world == RunHints(job, plan.lines, plan.hints[..done], BLANK)
  }

  lemma ProgressedStep(job: Job, plan: WorkerPlan, done: nat, world: World)
    requires InTrace(job.infos, plan.lines) && AllFit(plan.lines, plan.hints)
    requires Progressed(job, plan, done, world) && done < |plan.hints|
    ensures Progressed(job, plan, done + 1, StepHint(job, plan.lines, plan.hints[done], world))
  {
    assert plan.hints[..done + 1][..done] == plan.hints[..done];
  }

  lemma {:induction false} ExecInvariant(job: Job, plans: seq<WorkerPlan>, schedule: seq<nat>)
    requires Runnable(job.infos, plans)
    ensures Invariant(job, plans, Exec(job, plans, schedule))
  {
    hide StepHint, Progressed;
    if schedule == [] {
      forall w | 0 <= w < |plans|
        ensures Progressed(job, plans[w], 0, BLANK)
      {
        ProgressedStarts(job, plans[w]);
      }
    } else {
      var st := Exec(job, plans, schedule[..|schedule| - 1]);
      var w := schedule[|schedule| - 1];
      ExecInvariant(job, plans, schedule[..|schedule| - 1]);
      if Enabled(plans, st, w) {
        ProgressedStep(job, plans[w], st.done[w], st.worlds[w]);
      }
    }
  }

  lemma ProgressedStarts(job: Job, plan: WorkerPlan)
    requires InTrace(job.infos, plan.lines) && AllFit(plan.lines, plan.hints)
    ensures Progressed(job, plan, 0, BLANK)
  {
    assert plan.hints[..0] == [];
  }

  // A worker has executed as many batches as it was given turns, or all.
  lemma {:induction false} TurnsTaken(job: Job, plans: seq<WorkerPlan>, schedule: seq<nat>, w: nat)
    requires Runnable(job.infos, plans) && w < |plans|
    ensures |Exec(job, plans, schedule).done| == |plans| && |Exec(job, plans, schedule).worlds| == |plans|
    ensures var turns := multiset(schedule)[w];
      Exec(job, plans, schedule).done[w] == if turns < |plans[w].hints| then turns else |plans[w].hints|
  {
    hide StepHint, Runnable;
    if schedule != [] {
      var last := |schedule| - 1;
      TurnsTaken(job, plans, schedule[..last], w);
      assert schedule == schedule[..last] + [schedule[last]];
    }
  }

  // The schedules under which all workers finish are those that give every
  // worker at least as many turns as it has batches.
  lemma CompleteSchedules(job: Job, plans: seq<WorkerPlan>, schedule: seq<nat>)
    requires Runnable(job.infos, plans)
    ensures Complete(plans, Exec(job, plans, schedule))
       <==> forall w :: 0 <= w < |plans| ==> multiset(schedule)[w] >= |plans[w].hints|
  {
    hide Exec, Runnable;
    forall w | 0 <= w < |plans|
      ensures |Exec(job, plans, schedule).done| == |plans|
      ensures Exec(job, plans, schedule).done[w] == |plans[w].hints| <==> multiset(schedule)[w] >= |plans[w].hints|
    {
      TurnsTaken(job, plans, schedule, w);
    }
    ExecInvariant(job, plans, schedule);
  }

  lemma GoodPlansRunnable(infos: seq<TraceInfo>, plans: seq<WorkerPlan>, c: nat, owner: nat -> nat)
    requires GoodPlans(infos, plans, c, owner)
    ensures Runnable(infos, plans)
  {
    hide Split, Order;
    forall w | 0 <= w < |plans|
      ensures AllFit(plans[w].lines, plans[w].hints)
    {
      LegalFits(infos, plans[w].lines, c, plans[w].hints);
    }
  }

  // Once all have finished, every worker has done to its own file what its
  // lines do one by one.
  lemma CompleteWorker(job: Job, plans: seq<WorkerPlan>, c: nat, owner: nat -> nat, schedule: seq<nat>, w: nat)
    requires Grouping.Bounded(job.infos) && GoodPlans(job.infos, plans, c, owner) && w < |plans|
    ensures Runnable(job.infos, plans) && InTrace(job.infos, plans[w].lines)
    ensures Complete(plans, Exec(job, plans, schedule)) ==>
              |Exec(job, plans, schedule).worlds| == |plans|
    ensures Complete(plans, Exec(job, plans, schedule)) ==>
              Exec(job, plans, schedule).worlds[w] == RunLines(job, plans[w].lines, BLANK)
  {
    hide Split, Order, Exec, RunHints, RunLines;
    GoodPlansRunnable(job.infos, plans, c, owner);
    ExecInvariant(job, plans, schedule);
    if Complete(plans, Exec(job, plans, schedule)) {
      var plan := plans[w];
      assert plan.hints[..|plan.hints|] == plan.hints;
      BatchedIsUnbatched(job, plan.lines, c, plan.hints, BLANK);
    }
  }

  // ----- the lines of a split are distinct -----

  lemma {:induction false} RangeOnce(n: nat, l: Line)
    ensures multiset(Range(n))[l] <= 1
  {
    if n > 0 {
      assert Range(n) == Range(n - 1) + [n - 1];
      RangeOnce(n - 1, l);
      if l == n - 1 {
        NotCounted(Range(n - 1), l);
      }
    }
  }

  lemma OrderOnce(infos: seq<TraceInfo>, l: Line)
    ensures multiset(Order(infos))[l] <= 1
  {
    MergeSortConserves(infos, Range(|infos|));
    RangeOnce(|infos|, l);
  }

  lemma ShareDistinct(infos: seq<TraceInfo>, lines: seq<Line>, owner: nat -> nat, w: nat)
    requires Share(infos, lines, Order(infos), owner, w)
    ensures forall i, j :: 0 <= i < j < |lines| ==> lines[i] != lines[j]
  {
    hide Keep, Order;
    forall i, j | 0 <= i < j < |lines|
      ensures lines[i] != lines[j]
    {
      if lines[i] == lines[j] {
        var l := lines[i];
        CountTwice(lines, i, j);
        KeepCounts(lines, OfLba(infos, infos[l].lba), l);
        KeepCounts(Order(infos), OfLba(infos, infos[l].lba), l);
        OrderOnce(infos, l);
      }
    }
  }

  // ----- parallel replay refines sequential replay -----

  // All lines, one at a time, into one empty file.
  function Sequential(job: Job): World
    requires InTrace(job.infos, Order(job.infos))
  {
    RunLines(job, Order(job.infos), BLANK)
  }

  lemma OrderInTrace(infos: seq<TraceInfo>)
    ensures InTrace(infos, Order(infos))
  {
    SortedInTrace(infos, Range(|infos|));
  }

  // The blocks of one worker after all its lines.
  lemma WorkerBlock(job: Job, lines: seq<Line>, owner: nat -> nat, w: nat, lba: nat)
    requires Clear(job.infos, lba) && job.mode != AppendOnly
    requires Share(job.infos, lines, Order(job.infos), owner, w)
    ensures InTrace(job.infos, Order(job.infos)) && InTrace(job.infos, lines)
    ensures BlockAt(RunLines(job, lines, BLANK).file, lba)
         == if w == owner(lba) then BlockAt(Sequential(job).file, lba) else Zeros(BLK_SIZE)
  {
    hide Keep, RunLines, Order, BlockAt;
    OrderInTrace(job.infos);
    BlockAfter(job, lines, lba);
    BlockAfter(job, Order(job.infos), lba);
  }

  // What a worker's reads delivered.
  lemma {:induction false} SameObservations(job: Job, lines: seq<Line>, owner: nat -> nat, w: nat, k: nat)
    requires Apart(job.infos) && job.mode != AppendOnly && k <= |lines|
    requires Share(job.infos, lines, Order(job.infos), owner, w)
    ensures InTrace(job.infos, Order(job.infos)) && InTrace(job.infos, lines) && InTrace(job.infos, lines[..k])
    ensures Observations(job, lines[..k], lines) == Observations(job, lines[..k], Order(job.infos))
  {
    hide Keep, RunLines, Order, Observed;
    OrderInTrace(job.infos);
    if k > 0 {
      SameObservations(job, lines, owner, w, k - 1);
      assert lines[..k][..k - 1] == lines[..k - 1];
      LineShared(job.infos, lines, owner, w, k - 1);
      SameObserved(job, lines, Order(job.infos), lines[k - 1]);
    }
  }

  lemma LineShared(infos: seq<TraceInfo>, lines: seq<Line>, owner: nat -> nat, w: nat, k: nat)
    requires Share(infos, lines, Order(infos), owner, w) && k < |lines|
    ensures var l := lines[k];
      l < |infos| && l in Order(infos)
      && Keep(lines, OfLba(infos, infos[l].lba)) == Keep(Order(infos), OfLba(infos, infos[l].lba))
  {
    hide Keep, Order;
    var p := OfLba(infos, infos[lines[k]].lba);
    KeepMember(lines, p, lines[k]);
    KeepMember(Order(infos), p, lines[k]);
  }

  lemma WorkerDump(job: Job, lines: seq<Line>, owner: nat -> nat, w: nat)
    requires Apart(job.infos) && job.mode != AppendOnly
    requires Share(job.infos, lines, Order(job.infos), owner, w)
    ensures InTrace(job.infos, lines) && InTrace(job.infos, Order(job.infos))
    ensures RunLines(job, lines, BLANK).dump == Observations(job, lines, Order(job.infos))
  {
    hide Keep, RunLines, Order, Observed, Observations;
    ShareDistinct(job.infos, lines, owner, w);
    DumpIsObserved(job, lines, |lines|);
    SameObservations(job, lines, owner, w, |lines|);
    assert lines[..|lines|] == lines;
  }

  // What a worker did, against the sequential replay: its file holds the blocks
  // of the lbas it owns as the sequential replay leaves them, and reads as zero
  // in the blocks of all other lbas; its reads delivered what its read lines see in the
  // sequential replay.
  ghost predicate Agrees(job: Job, lines: seq<Line>, owner: nat -> nat, w: nat, world: World)
    requires InTrace(job.infos, Order(job.infos)) && InTrace(job.infos, lines)
  {
    && world.dump == Observations(job, lines, Order(job.infos))
    && forall lba :: Clear(job.infos, lba) ==>
         BlockAt(world.file, lba) == if w == owner(lba) then BlockAt(Sequential(job).file, lba) else Zeros(BLK_SIZE)
  }

  lemma WorkerAgrees(job: Job, lines: seq<Line>, owner: nat -> nat, w: nat)
    requires Apart(job.infos) && job.mode != AppendOnly
    requires Share(job.infos, lines, Order(job.infos), owner, w)
    ensures InTrace(job.infos, lines) && InTrace(job.infos, Order(job.infos))
    ensures Agrees(job, lines, owner, w, RunLines(job, lines, BLANK))
  {
    hide Keep, RunLines, Order, BlockAt, Observations, Share, Sequential;
    WorkerDump(job, lines, owner, w);
    forall lba: nat | Clear(job.infos, lba)
      ensures BlockAt(RunLines(job, lines, BLANK).file, lba)
           == if w == owner(lba) then BlockAt(Sequential(job).file, lba) else Zeros(BLK_SIZE)
    {
      WorkerBlock(job, lines, owner, w, lba);
    }
  }

  // Whatever the number of workers, the coins, the batch limit and the order in
  // which the workers take turns, every worker agrees with the sequential
  // replay of all lines, if no two blocks of the trace overlap.
  lemma ParallelIsSequential(job: Job, plans: seq<WorkerPlan>, c: nat, owner: nat -> nat, schedule: seq<nat>)
    requires Grouping.Bounded(job.infos) && Apart(job.infos) && job.mode != AppendOnly
    requires GoodPlans(job.infos, plans, c, owner)
    requires Runnable(job.infos, plans) && Complete(plans, Exec(job, plans, schedule))
    ensures InTrace(job.infos, Order(job.infos)) && |Exec(job, plans, schedule).worlds| == |plans|
    ensures forall w :: 0 <= w < |plans| ==>
              InTrace(job.infos, plans[w].lines)
              && Agrees(job, plans[w].lines, owner, w, Exec(job, plans, schedule).worlds[w])
  {
    hide Order, Exec, Agrees, Complete, Share, Runnable, RunLines;
    OrderInTrace(job.infos);
    ExecInvariant(job, plans, schedule);
    forall w | 0 <= w < |plans|
      ensures InTrace(job.infos, plans[w].lines)
      ensures Agrees(job, plans[w].lines, owner, w, Exec(job, plans, schedule).worlds[w])
    {
      CompleteWorker(job, plans, c, owner, schedule, w);
      assert Share(job.infos, LinesIn(plans)[w], Order(job.infos), owner, w);
      WorkerAgrees(job, plans[w].lines, owner, w);
    }
  }

  // Every worker agrees under every schedule under which all finish.
  ghost predicate AlwaysAgrees(job: Job, plans: seq<WorkerPlan>, owner: nat -> nat)
  {
    && Runnable(job.infos, plans) && InTrace(job.infos, Order(job.infos))
    && forall schedule: seq<nat> :: Complete(plans, Exec(job, plans, schedule)) ==> AllAgree(job, plans, owner, schedule)
  }

  ghost predicate AllAgree(job: Job, plans: seq<WorkerPlan>, owner: nat -> nat, schedule: seq<nat>)
    requires Runnable(job.infos, plans) && InTrace(job.infos, Order(job.infos))
  {
    && |Exec(job, plans, schedule).worlds| == |plans|
    && forall w :: 0 <= w < |plans| ==> Agrees(job, plans[w].lines, owner, w, Exec(job, plans, schedule).worlds[w])
  }

  lemma GoodPlansAgree(job: Job, plans: seq<WorkerPlan>, c: nat, owner: nat -> nat)
    requires Grouping.Bounded(job.infos) && Apart(job.infos) && job.mode != AppendOnly
    requires GoodPlans(job.infos, plans, c, owner)
    ensures AlwaysAgrees(job, plans, owner)
  {
    hide Order, Exec, Agrees, Complete, GoodPlans;
    GoodPlansRunnable(job.infos, plans, c, owner);
    OrderInTrace(job.infos);
    forall schedule: seq<nat> | Complete(plans, Exec(job, plans, schedule))
      ensures AllAgree(job, plans, owner, schedule)
    {
      ParallelIsSequential(job, plans, c, owner, schedule);
    }
  }

  // A trace of lbas divisible by 8: each such block of each worker's file is
  // what the sequential replay leaves on the owner of the lba, and zeros on all
  // other workers.
  lemma AlignedBlocksAgree(job: Job, plans: seq<WorkerPlan>, c: nat, owner: nat -> nat, schedule: seq<nat>,
                           w: nat, lba: nat)
    requires Grouping.Bounded(job.infos) && job.mode != AppendOnly && GoodPlans(job.infos, plans, c, owner)
    requires forall i :: 0 <= i < |job.infos| ==> job.infos[i].lba % 8 == 0
    requires Runnable(job.infos, plans) && Complete(plans, Exec(job, plans, schedule)) && w < |plans| && lba % 8 == 0
    ensures InTrace(job.infos, Order(job.infos)) && |Exec(job, plans, schedule).worlds| == |plans|
    ensures BlockAt(Exec(job, plans, schedule).worlds[w].file, lba)
         == if w == owner(lba) then BlockAt(Sequential(job).file, lba) else Zeros(BLK_SIZE)
  {
    hide Order, Exec, Complete, GoodPlans, Runnable, RunLines, Sequential, BlockAt, Observations;
    AlignedIsApart(job.infos, lba);
    ParallelIsSequential(job, plans, c, owner, schedule);
  }

  // ----- overlapping blocks -----

  lemma OrderOfTwo(infos: seq<TraceInfo>)
    requires |infos| == 2 && infos[0].ts <= infos[1].ts
    ensures Order(infos) == [0, 1]
  {
    var s := Range(2);
    assert s == [0, 1] && s[..1] == [0] && s[1..] == [1];
    var l, r: seq<Line> := [0], [1];
    assert MergeSort(infos, l) == l && MergeSort(infos, r) == r;
    assert l[1..] == [] && Merge(infos, [], r) == r;
    assert Merge(infos, l, r) == [0] + Merge(infos, l[1..], r);
    assert MergeSort(infos, s) == Merge(infos, MergeSort(infos, s[..1]), MergeSort(infos, s[1..]));
  }

  lemma RunTwo(job: Job, w: World)
    requires |job.infos| == 2
    ensures InTrace(job.infos, [0]) && InTrace(job.infos, [0, 1])
    ensures RunLines(job, [0], w) == StepLine(job, 0, w)
    ensures RunLines(job, [0, 1], w) == StepLine(job, 1, StepLine(job, 0, w))
  {
    hide StepLine;
    assert [0, 1][..1] == [0] && [0][..0] == [];
  }

  // Two writes to blocks that overlap, on two workers: the first worker agrees
  // with the sequential replay exactly when the second block repeats the bytes
  // that it overwrites there.
  lemma OverlapDecides(job: Job)
    requires |job.infos| == 2 && job.mode == WriteOnly && job.infos[0].ts <= job.infos[1].ts
    requires job.infos[0].lba < job.infos[1].lba < job.infos[0].lba + 8
    ensures InTrace(job.infos, [0]) && InTrace(job.infos, Order(job.infos))
    ensures var d := job.infos[1].Ofs() - job.infos[0].Ofs();
      0 < d < BLK_SIZE
      && (BlockAt(RunLines(job, [0], BLANK).file, job.infos[0].lba) == BlockAt(Sequential(job).file, job.infos[0].lba)
          <==> BlockOf(job, 0)[d..] == BlockOf(job, 1)[..BLK_SIZE - d])
  {
    hide RunLines, BlockOf, WriteAt, Order, ReadAt;
    OrderOfTwo(job.infos);
    RunTwo(job, BLANK);
    OverlapBytes([], job.infos[0].Ofs(), job.infos[1].Ofs() - job.infos[0].Ofs(), BlockOf(job, 0), BlockOf(job, 1));
  }

  lemma OverlapBytes(f: File, ofs: nat, d: nat, b: seq<byte>, c: seq<byte>)
    requires d <= |b| == |c|
    ensures ReadAt(WriteAt(f, ofs, b), ofs, |b|) == b
    ensures ReadAt(WriteAt(WriteAt(f, ofs, b), ofs + d, c), ofs, |b|) == b[..d] + c[..|b| - d]
    ensures b == b[..d] + c[..|b| - d] <==> b[d..] == c[..|b| - d]
  {
    hide WriteAt;
    ReadBack(f, ofs, b);
    var r := ReadAt(WriteAt(WriteAt(f, ofs, b), ofs + d, c), ofs, |b|);
    forall i | 0 <= i < |b|
      ensures r[i] == (b[..d] + c[..|b| - d])[i]
    {
      WriteAtByte(f, ofs, b, ofs + i);
      WriteAtByte(WriteAt(f, ofs, b), ofs + d, c, ofs + i);
    }
    assert b == b[..d] + b[d..];
    assert (b[..d] + c[..|b| - d])[d..] == c[..|b| - d];
  }

  // In append mode every worker's file is the concatenation of the blocks of its
  // lines in order, whatever the schedule.
  lemma ParallelAppends(job: Job, plans: seq<WorkerPlan>, c: nat, owner: nat -> nat, schedule: seq<nat>, w: nat)
    requires Grouping.Bounded(job.infos) && job.mode == AppendOnly
    requires GoodPlans(job.infos, plans, c, owner) && w < |plans|
    requires Runnable(job.infos, plans) && Complete(plans, Exec(job, plans, schedule))
    ensures InTrace(job.infos, plans[w].lines) && |Exec(job, plans, schedule).worlds| == |plans|
    ensures Exec(job, plans, schedule).worlds[w].file == Blocks(job, plans[w].lines)
  {
    hide Order, Exec, RunLines, Blocks;
    CompleteWorker(job, plans, c, owner, schedule, w);
    AppendIsConcatenation(job, plans[w].lines, BLANK);
    assert [] + Blocks(job, plans[w].lines) == Blocks(job, plans[w].lines);
  }
}
