// What a replay leaves in the files and delivers to the reads, in terms of the
// trace records alone: of all writes to a block the one with the greatest
// timestamp counts, and among equal timestamps the one that is last in the
// trace.
module LastWrites {
  import opened Bytes
  import opened Execution
  import opened Files
  import opened FillBlock
  import opened Gathering
  import opened Grouping
  import opened Hints
  import opened Interleaving
  import opened Options
  import opened Remembering
  import opened StableSort
  import opened Trace

  // ----- one line -----

  // A line's block is written at its byte offset.
  ghost predicate Written(f: File, f': File, lba: nat, b: seq<byte>)
  {
    && |b| == 4096
    && |f'| == (if |f| < 512 * lba + 4096 then 512 * lba + 4096 else |f|)
    && forall i :: 0 <= i < |f'| ==>
         f'[i] == if 512 * lba <= i < 512 * lba + 4096 then b[i - 512 * lba] else if i < |f| then f[i] else 0
  }

  // A line's block is read from its byte offset, with zeros past the end.
  ghost predicate Fetched(f: File, lba: nat, b: seq<byte>)
  {
    && |b| == 4096
    && forall i :: 0 <= i < 4096 ==> b[i] == if 512 * lba + i < |f| then f[512 * lba + i] else 0
  }

  // In mode rw the direction of the record decides; mode w writes every line,
  // mode a appends every line.
  lemma LineEffect(job: Job, l: Line, w: World)
    requires l < |job.infos|
    ensures var info, w' := job.infos[l], StepLine(job, l, w);
      && (job.mode == ReadWrite && info.rw == 'W' ==>
            Written(w.file, w'.file, info.lba, Block(job.g, info.md5)) && w'.dump == w.dump)
      && (job.mode == ReadWrite && info.rw != 'W' ==>
            w'.file == w.file && w'.dump == w.dump + BlockAt(w.file, info.lba)
            && Fetched(w.file, info.lba, BlockAt(w.file, info.lba)))
      && (job.mode == WriteOnly ==> Written(w.file, w'.file, info.lba, Block(job.g, info.md5)) && w'.dump == w.dump)
      && (job.mode == AppendOnly ==> w'.file == w.file + Block(job.g, info.md5) && w'.dump == w.dump)
  {
    hide WriteAt, ReadAt, BlockOf, Block, Written, Fetched;
    var info := job.infos[l];
    BlockOfLine(job, l);
    WriteIsWritten(w.file, info.lba, BlockOf(job, l));
    BlockIsFetched(w.file, info.lba);
  }

  lemma BlockOfLine(job: Job, l: Line)
    requires l < |job.infos|
    ensures BlockOf(job, l) == Block(job.g, job.infos[l].md5)
  {
    hide Block;
  }

  lemma WriteIsWritten(f: File, lba: nat, b: seq<byte>)
    requires |b| == 4096
    ensures Written(f, WriteAt(f, 512 * lba, b), lba, b)
  {
    hide WriteAt;
    var f' := WriteAt(f, 512 * lba, b);
    WriteAtByte(f, 512 * lba, b, 0);
    forall i | 0 <= i < |f'|
      ensures f'[i] == if 512 * lba <= i < 512 * lba + 4096 then b[i - 512 * lba] else if i < |f| then f[i] else 0
    {
      WriteAtByte(f, 512 * lba, b, i);
    }
  }

  lemma BlockIsFetched(f: File, lba: nat)
    ensures Fetched(f, lba, BlockAt(f, lba))
  {
  }

  predicate IsWrite(job: Job, l: Line)
    requires l < |job.infos|
  {
    job.mode == WriteOnly || job.infos[l].rw == 'W'
  }

  // How a line changes a block.
  lemma LineOnBlock(job: Job, l: Line, w: World, lba: nat)
    requires l < |job.infos| && Clear(job.infos, lba) && job.mode != AppendOnly
    ensures BlockAt(StepLine(job, l, w).file, lba)
         == if job.infos[l].lba == lba && IsWrite(job, l) then BlockOf(job, l) else BlockAt(w.file, lba)
  {
    hide StepLine, BlockAt, BlockOf, Block, Written;
    BlockOfLine(job, l);
    LineEffect(job, l, w);
    StepBlock(job, l, w, lba);
    if IsWrite(job, l) {
      WrittenBlock(job, l, w, lba);
    }
  }

  lemma WrittenBlock(job: Job, l: Line, w: World, lba: nat)
    requires l < |job.infos| && Clear(job.infos, lba)
    requires Written(w.file, StepLine(job, l, w).file, job.infos[l].lba, BlockOf(job, l))
    ensures BlockAt(StepLine(job, l, w).file, lba)
         == if job.infos[l].lba == lba then BlockOf(job, l) else BlockAt(w.file, lba)
  {
    hide StepLine, BlockOf;
    var f, f' := w.file, StepLine(job, l, w).file;
    forall i | 0 <= i < 4096
      ensures BlockAt(f', lba)[i] == if job.infos[l].lba == lba then BlockOf(job, l)[i] else BlockAt(f, lba)[i]
    {
      assert BlockAt(f', lba)[i] == ByteAt(f', 512 * lba + i);
    }
  }

  // ----- a sequence of lines -----

  // The block after these lines: that of the last write among them to this lba.
  ghost predicate LastIn(job: Job, s: seq<Line>, lba: nat, b: seq<byte>)
    requires InTrace(job.infos, s)
  {
    || (b == Zeros(4096) && forall i :: 0 <= i < |s| ==> !WritesTo(job, s[i], lba))
    || (exists i :: 0 <= i < |s| && WritesTo(job, s[i], lba) && b == BlockOf(job, s[i])
                    && forall j :: i < j < |s| ==> !WritesTo(job, s[j], lba))
  }

  predicate WritesTo(job: Job, l: Line, lba: nat)
    requires l < |job.infos|
  {
    job.infos[l].lba == lba && IsWrite(job, l)
  }

  lemma {:induction false} RunIsLastIn(job: Job, s: seq<Line>, lba: nat)
    requires InTrace(job.infos, s) && Clear(job.infos, lba) && job.mode != AppendOnly
    ensures LastIn(job, s, lba, BlockAt(RunLines(job, s, BLANK).file, lba))
  {
    hide StepLine, BlockAt, BlockOf, WritesTo;
    if s == [] {
      BlankBlock(job, lba, l => true);
    } else {
      var front, l := s[..|s| - 1], s[|s| - 1];
      RunIsLastIn(job, front, lba);
      LineWritesTo(job, l, RunLines(job, front, BLANK), lba);
      LastSnoc(job, front, l, lba, BlockAt(RunLines(job, front, BLANK).file, lba));
      assert s == front + [l];
    }
  }

  lemma LineWritesTo(job: Job, l: Line, w: World, lba: nat)
    requires l < |job.infos| && Clear(job.infos, lba) && job.mode != AppendOnly
    ensures BlockAt(StepLine(job, l, w).file, lba)
         == if WritesTo(job, l, lba) then BlockOf(job, l) else BlockAt(w.file, lba)
  {
    hide StepLine, BlockAt, BlockOf;
    LineOnBlock(job, l, w, lba);
  }

  lemma LastSnoc(job: Job, s: seq<Line>, l: Line, lba: nat, b: seq<byte>)
    requires InTrace(job.infos, s) && l < |job.infos| && LastIn(job, s, lba, b)
    ensures LastIn(job, s + [l], lba, if WritesTo(job, l, lba) then BlockOf(job, l) else b)
  {
    hide WritesTo, BlockOf;
    var all := s + [l];
    assert all[|s|] == l;
    if !WritesTo(job, l, lba) && !(b == Zeros(4096) && forall i :: 0 <= i < |s| ==> !WritesTo(job, s[i], lba)) {
      var i :| 0 <= i < |s| && WritesTo(job, s[i], lba) && b == BlockOf(job, s[i])
               && forall j :: i < j < |s| ==> !WritesTo(job, s[j], lba);
      assert all[i] == s[i];
      assert forall j :: i < j < |all| ==> !WritesTo(job, all[j], lba);
    }
  }

  // ----- the order of the replay -----

  // Line a is replayed before line b.
  predicate Before(infos: seq<TraceInfo>, a: Line, b: Line)
    requires a < |infos| && b < |infos|
  {
    infos[a].ts < infos[b].ts || (infos[a].ts == infos[b].ts && a < b)
  }

  lemma {:induction false} KeepAscending(s: seq<Line>, p: Line -> bool)
    requires forall i, j :: 0 <= i < j < |s| ==> s[i] < s[j]
    ensures forall i, j :: 0 <= i < j < |Keep(s, p)| ==> Keep(s, p)[i] < Keep(s, p)[j]
  {
    hide Keep;
    if s == [] {
      KeepOne(0, p);
    } else {
      var rest := Keep(s[1..], p);
      KeepAscending(s[1..], p);
      KeepTail(s, p);
      forall i | 0 <= i < |rest|
        ensures s[0] < rest[i]
      {
        KeepMember(s[1..], p, rest[i]);
      }
      if p(s[0]) {
        assert Keep(s, p) == [Keep(s, p)[0]] + Keep(s, p)[1..];
      }
    }
  }

  lemma {:induction false} KeepPair(s: seq<Line>, p: Line -> bool, i: nat, j: nat) returns (a: nat, b: nat)
    requires i < j < |s| && p(s[i]) && p(s[j])
    ensures a < b < |Keep(s, p)| && Keep(s, p)[a] == s[i] && Keep(s, p)[b] == s[j]
  {
    hide Keep;
    KeepAround(s, p, i);
    var front, back := Keep(s[..i], p), Keep(s[i + 1..], p);
    KeepMember(s[i + 1..], p, s[j]);
    assert s[i + 1..][j - i - 1] == s[j];
    var k :| 0 <= k < |back| && back[k] == s[j];
    a, b := |front|, |front| + 1 + k;
  }

  lemma OrderIsBefore(infos: seq<TraceInfo>, i: nat, j: nat)
    requires i < j < |Order(infos)|
    ensures Order(infos)[i] < |infos| && Order(infos)[j] < |infos|
    ensures Before(infos, Order(infos)[i], Order(infos)[j])
  {
    hide MergeSort, Keep;
    var n := |infos|;
    var s := Order(infos);
    MergeSortChronological(infos, Range(n));
    var t := infos[s[i]].ts;
    if infos[s[j]].ts == t {
      var p := HasTs(infos, t);
      var a, b := KeepPair(s, p, i, j);
      assert Keep(s, p) == Keep(Range(n), p);
      KeepAscending(Range(n), p);
    }
  }

  lemma InOrder(infos: seq<TraceInfo>, l: Line) returns (i: nat)
    requires l < |infos|
    ensures i < |Order(infos)| && Order(infos)[i] == l
  {
    hide MergeSort;
    SortMember(infos, Range(|infos|));
    assert Range(|infos|)[l] == l;
    assert l in Order(infos);
    i :| 0 <= i < |Order(infos)| && Order(infos)[i] == l;
  }

  // ----- the latest write -----

  // Line k writes to this lba, before the given line if there is one.
  ghost predicate Counts(job: Job, lba: nat, upTo: Option<Line>, k: Line)
  {
    && k < |job.infos| && WritesTo(job, k, lba)
    && (upTo.Some? && upTo.value < |job.infos| ==> Before(job.infos, k, upTo.value))
  }

  // The content of a block, before the given line if there is one: what the
  // latest write wrote, zeros if there is none.
  ghost predicate Holds(job: Job, lba: nat, upTo: Option<Line>, b: seq<byte>)
  {
    || (b == Zeros(4096) && forall k: Line :: !Counts(job, lba, upTo, k))
    || (exists l: Line :: Counts(job, lba, upTo, l) && b == BlockOf(job, l)
                    && forall k: Line :: Counts(job, lba, upTo, k) && k != l ==> Before(job.infos, k, l))
  }

  // A prefix of the order: up to the line that follows it, or all of it.
  ghost predicate Prefix(infos: seq<TraceInfo>, j: nat, upTo: Option<Line>)
  {
    && j <= |Order(infos)|
    && (if upTo.None? then j == |Order(infos)| else j < |Order(infos)| && Order(infos)[j] == upTo.value)
  }

  lemma CountsInPrefix(job: Job, lba: nat, upTo: Option<Line>, j: nat, i: nat)
    requires Prefix(job.infos, j, upTo) && i < |Order(job.infos)|
    ensures Order(job.infos)[i] < |job.infos|
    ensures Counts(job, lba, upTo, Order(job.infos)[i]) <==> i < j && WritesTo(job, Order(job.infos)[i], lba)
  {
    hide Order, WritesTo;
    OrderInTrace(job.infos);
    if upTo.Some? {
      if i < j {
        OrderIsBefore(job.infos, i, j);
      } else if j < i {
        OrderIsBefore(job.infos, j, i);
      }
    }
  }

  lemma LastIsLatest(job: Job, lba: nat, upTo: Option<Line>, j: nat, b: seq<byte>)
    requires Prefix(job.infos, j, upTo) && InTrace(job.infos, Order(job.infos)[..j])
    requires LastIn(job, Order(job.infos)[..j], lba, b)
    ensures Holds(job, lba, upTo, b)
  {
    hide Order, WritesTo, Counts, Before, BlockOf, Prefix;
    var s := Order(job.infos);
    PrefixBound(job.infos, j, upTo);
    OrderInTrace(job.infos);
    if b == Zeros(4096) && forall i :: 0 <= i < j ==> !WritesTo(job, s[..j][i], lba) {
      forall k: Line
        ensures !Counts(job, lba, upTo, k)
      {
        if k < |job.infos| {
          var i := InOrder(job.infos, k);
          CountsInPrefix(job, lba, upTo, j, i);
          assert i < j ==> s[..j][i] == s[i];
        } else {
          NotInTrace(job, lba, upTo, k);
        }
      }
    } else {
      var i :| 0 <= i < j && WritesTo(job, s[..j][i], lba) && b == BlockOf(job, s[..j][i])
               && forall i' :: i < i' < j ==> !WritesTo(job, s[..j][i'], lba);
      CountsInPrefix(job, lba, upTo, j, i);
      forall k: Line | Counts(job, lba, upTo, k) && k != s[i]
        ensures k < |job.infos| && Before(job.infos, k, s[i])
      {
        NotInTrace(job, lba, upTo, k);
        var m := InOrder(job.infos, k);
        CountsInPrefix(job, lba, upTo, j, m);
        assert s[..j][m] == s[m];
        assert m < i;
        OrderIsBefore(job.infos, m, i);
      }
    }
  }

  lemma PrefixBound(infos: seq<TraceInfo>, j: nat, upTo: Option<Line>)
    requires Prefix(infos, j, upTo)
    ensures j <= |Order(infos)|
  {
  }

  lemma NotInTrace(job: Job, lba: nat, upTo: Option<Line>, k: Line)
    ensures Counts(job, lba, upTo, k) ==> k < |job.infos|
  {
  }

  // After the sequential replay every block holds the latest write to it.
  lemma SequentialHolds(job: Job, lba: nat)
    requires Clear(job.infos, lba) && job.mode != AppendOnly
    ensures InTrace(job.infos, Order(job.infos))
    ensures Holds(job, lba, None, BlockAt(Sequential(job).file, lba))
  {
    hide Order, LastIn, Holds, BlockAt, RunLines;
    OrderInTrace(job.infos);
    var s := Order(job.infos);
    assert s[..|s|] == s;
    RunIsLastIn(job, s, lba);
    LastIsLatest(job, lba, None, |s|, BlockAt(Sequential(job).file, lba));
  }

  // What a line sees in the sequential replay is the latest write before it.
  lemma ObservedHolds(job: Job, l: Line)
    requires l < |job.infos| && Apart(job.infos) && job.mode != AppendOnly
    ensures InTrace(job.infos, Order(job.infos))
    ensures Holds(job, job.infos[l].lba, Some(l), Observed(job, Order(job.infos), l))
  {
    hide Order, LastIn, Holds, BlockAt, RunLines, IndexOf;
    OrderInTrace(job.infos);
    var s := Order(job.infos);
    var i := InOrder(job.infos, l);
    var j := IndexOf(s, l);
    assert l in s;
    RunIsLastIn(job, s[..j], job.infos[l].lba);
    LastIsLatest(job, job.infos[l].lba, Some(l), j, Observed(job, s, l));
  }

  // ----- a worker's dump -----

  function IsRead(job: Job): Line -> bool
  {
    (l: Line) => l < |job.infos| && job.mode == ReadWrite && job.infos[l].rw != 'W'
  }

  // One block for every read line, in order: what the latest write before that
  // line wrote.
  ghost predicate Delivers(job: Job, readers: seq<Line>, dump: seq<byte>)
  {
    && |dump| == 4096 * |readers|
    && forall i :: 0 <= i < |readers| ==>
         readers[i] < |job.infos|
         && Holds(job, job.infos[readers[i]].lba, Some(readers[i]), dump[4096 * i..4096 * i + 4096])
  }

  lemma DeliversSnoc(job: Job, readers: seq<Line>, dump: seq<byte>, l: Line, b: seq<byte>)
    requires Delivers(job, readers, dump) && l < |job.infos| && |b| == 4096
    requires Holds(job, job.infos[l].lba, Some(l), b)
    ensures Delivers(job, readers + [l], dump + b)
  {
    hide Holds;
    var all, d := readers + [l], dump + b;
    forall i | 0 <= i < |all|
      ensures all[i] < |job.infos| && Holds(job, job.infos[all[i]].lba, Some(all[i]), d[4096 * i..4096 * i + 4096])
    {
      if i < |readers| {
        assert d[4096 * i..4096 * i + 4096] == dump[4096 * i..4096 * i + 4096];
      } else {
        assert d[4096 * i..4096 * i + 4096] == b;
      }
    }
  }

  lemma DeliversNothing(job: Job)
    ensures Delivers(job, [], [])
  {
  }

  lemma {:induction false} ObservationsDeliver(job: Job, part: seq<Line>)
    requires InTrace(job.infos, part) && Apart(job.infos) && job.mode != AppendOnly
    ensures InTrace(job.infos, Order(job.infos))
    ensures Delivers(job, Keep(part, IsRead(job)), Observations(job, part, Order(job.infos)))
  {
    hide Order, Keep, Delivers, Holds, Observed;
    OrderInTrace(job.infos);
    if part == [] {
      KeepOne(0, IsRead(job));
      DeliversNothing(job);
    } else {
      var front, l := part[..|part| - 1], part[|part| - 1];
      ObservationsDeliver(job, front);
      assert part == front + [l];
      KeepAppend(front, [l], IsRead(job));
      KeepOne(l, IsRead(job));
      assert Keep(front, IsRead(job)) + [] == Keep(front, IsRead(job));
      if IsRead(job)(l) {
        ObservedHolds(job, l);
        ObservedLength(job, l);
        DeliversSnoc(job, Keep(front, IsRead(job)), Observations(job, front, Order(job.infos)), l,
                     Observed(job, Order(job.infos), l));
      }
      ReadsObserved(job, front, l);
    }
  }

  lemma ObservedLength(job: Job, l: Line)
    requires l < |job.infos| && InTrace(job.infos, Order(job.infos))
    ensures |Observed(job, Order(job.infos), l)| == 4096
  {
    hide RunLines, Order;
  }

  lemma ReadsObserved(job: Job, front: seq<Line>, l: Line)
    requires InTrace(job.infos, front) && l < |job.infos| && InTrace(job.infos, Order(job.infos))
    requires job.mode != AppendOnly
    ensures InTrace(job.infos, front + [l])
    ensures Observations(job, front + [l], Order(job.infos))
         == if IsRead(job)(l) then Observations(job, front, Order(job.infos)) + Observed(job, Order(job.infos), l)
            else Observations(job, front, Order(job.infos))
  {
    hide Order, Observed;
    assert (front + [l])[..|front|] == front;
  }

  // ----- a worker -----

  // A worker's lines are those of the lbas it owns, each once, in the order of
  // their timestamps.  Its file holds the latest write to each of these lbas, and
  // zeros in the blocks of all others; each read delivered the latest write
  // before it.
  ghost predicate Means(job: Job, lines: seq<Line>, owner: nat -> nat, w: nat, world: World)
  {
    && InTime(job.infos, lines)
    && (forall l: Line :: l in lines <==> l < |job.infos| && owner(job.infos[l].lba) == w)
    && (forall i, j :: 0 <= i < j < |lines| ==> lines[i] != lines[j])
    && (forall lba: nat :: Clear(job.infos, lba) ==>
          if w == owner(lba) then Holds(job, lba, None, BlockAt(world.file, lba))
          else BlockAt(world.file, lba) == Zeros(4096))
    && Delivers(job, Keep(lines, IsRead(job)), world.dump)
  }

  lemma ShareMembers(infos: seq<TraceInfo>, lines: seq<Line>, owner: nat -> nat, w: nat, l: Line)
    requires Share(infos, lines, Order(infos), owner, w)
    ensures l in lines <==> l < |infos| && owner(infos[l].lba) == w
  {
    hide Keep, Order;
    if l < |infos| {
      var i := InOrder(infos, l);
      KeepMember(lines, OfLba(infos, infos[l].lba), l);
      KeepMember(Order(infos), OfLba(infos, infos[l].lba), l);
    }
  }

  lemma AgreesMeans(job: Job, lines: seq<Line>, owner: nat -> nat, w: nat, world: World)
    requires Apart(job.infos) && job.mode != AppendOnly
    requires Share(job.infos, lines, Order(job.infos), owner, w)
    requires InTrace(job.infos, Order(job.infos)) && InTime(job.infos, lines)
    requires Agrees(job, lines, owner, w, world)
    ensures Means(job, lines, owner, w, world)
  {
    hide Order, Keep, Share, Holds, Delivers, BlockAt, Sequential, Observations;
    forall l: Line
      ensures l in lines <==> l < |job.infos| && owner(job.infos[l].lba) == w
    {
      ShareMembers(job.infos, lines, owner, w, l);
    }
    forall lba: nat | Clear(job.infos, lba)
      ensures if w == owner(lba) then Holds(job, lba, None, BlockAt(world.file, lba))
              else BlockAt(world.file, lba) == Zeros(4096)
    {
      SequentialHolds(job, lba);
    }
    ShareDistinct(job.infos, lines, owner, w);
    ObservationsDeliver(job, lines);
  }

  // Whatever the number of workers, the coins, the batch limit and the order in
  // which the workers take turns: every block ends up as the latest write to it
  // on the worker that owns its lba, and every read delivers the latest write
  // before it.
  lemma ParallelMeans(job: Job, plans: seq<WorkerPlan>, c: nat, owner: nat -> nat, schedule: seq<nat>)
    requires Grouping.Bounded(job.infos) && Apart(job.infos) && job.mode != AppendOnly
    requires GoodPlans(job.infos, plans, c, owner)
    requires Runnable(job.infos, plans) && Complete(plans, Exec(job, plans, schedule))
    ensures |Exec(job, plans, schedule).worlds| == |plans|
    ensures forall w :: 0 <= w < |plans| ==>
              Means(job, plans[w].lines, owner, w, Exec(job, plans, schedule).worlds[w])
  {
    hide Order, Exec, Agrees, Complete, Share, Runnable, Means, LegalTiling;
    ParallelIsSequential(job, plans, c, owner, schedule);
    forall w | 0 <= w < |plans|
      ensures Means(job, plans[w].lines, owner, w, Exec(job, plans, schedule).worlds[w])
    {
      assert Share(job.infos, LinesIn(plans)[w], Order(job.infos), owner, w);
      AgreesMeans(job, plans[w].lines, owner, w, Exec(job, plans, schedule).worlds[w]);
    }
  }

  // Every worker does so under every schedule under which all finish.
  ghost predicate AlwaysMeans(job: Job, plans: seq<WorkerPlan>, owner: nat -> nat)
  {
    && Runnable(job.infos, plans)
    && forall schedule: seq<nat> :: Complete(plans, Exec(job, plans, schedule)) ==> AllMean(job, plans, owner, schedule)
  }

  ghost predicate AllMean(job: Job, plans: seq<WorkerPlan>, owner: nat -> nat, schedule: seq<nat>)
    requires Runnable(job.infos, plans)
  {
    && |Exec(job, plans, schedule).worlds| == |plans|
    && forall w :: 0 <= w < |plans| ==> Means(job, plans[w].lines, owner, w, Exec(job, plans, schedule).worlds[w])
  }

  lemma GoodPlansMean(job: Job, plans: seq<WorkerPlan>, c: nat, owner: nat -> nat)
    requires Grouping.Bounded(job.infos) && Apart(job.infos) && job.mode != AppendOnly
    requires GoodPlans(job.infos, plans, c, owner)
    ensures AlwaysMeans(job, plans, owner)
  {
    hide Order, Exec, Means, Complete, GoodPlans;
    GoodPlansRunnable(job.infos, plans, c, owner);
    forall schedule: seq<nat> | Complete(plans, Exec(job, plans, schedule))
      ensures AllMean(job, plans, owner, schedule)
    {
      ParallelMeans(job, plans, c, owner, schedule);
    }
  }
}
