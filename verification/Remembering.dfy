// What a block holds, and what a read sees, after lines were replayed one by
// one into an empty file: it depends on the lines of that block's lba only.
module Remembering {
  import opened Bytes
  import opened Execution
  import opened Files
  import opened FillBlock
  import opened Grouping
  import opened StableSort
  import opened Trace

  const BLANK := World([], [])

  // The 4 KiB block at this lba overlaps no block of the trace but its own.
  ghost predicate Clear(infos: seq<TraceInfo>, lba: nat)
  {
    forall i :: 0 <= i < |infos| ==> infos[i].lba == lba || infos[i].lba + 8 <= lba || lba + 8 <= infos[i].lba
  }

  // No two blocks of the trace overlap.
  ghost predicate Apart(infos: seq<TraceInfo>)
  {
    forall i :: 0 <= i < |infos| ==> Clear(infos, infos[i].lba)
  }

  // In a trace of lbas divisible by 8 this is so, for every such lba.
  lemma AlignedIsApart(infos: seq<TraceInfo>, lba: nat)
    requires lba % 8 == 0 && forall i :: 0 <= i < |infos| ==> infos[i].lba % 8 == 0
    ensures Apart(infos) && Clear(infos, lba)
  {
  }

  function BlockAt(f: File, lba: nat): seq<byte>
  {
    ReadAt(f, 512 * lba, BLK_SIZE)
  }

  // The block that the last write among these lines left.
  function Remembered(job: Job, k: seq<Line>): seq<byte>
    requires InTrace(job.infos, k)
  {
    if k == [] then Zeros(BLK_SIZE) else
      var l := k[|k| - 1];
      if Writes(job, job.infos[l].rw) then BlockOf(job, l) else Remembered(job, k[..|k| - 1])
  }

  lemma KeptInTrace(infos: seq<TraceInfo>, s: seq<Line>, p: Line -> bool)
    requires InTrace(infos, s)
    ensures InTrace(infos, Keep(s, p))
  {
    forall i | 0 <= i < |Keep(s, p)|
      ensures Keep(s, p)[i] < |infos|
    {
      KeepMember(s, p, Keep(s, p)[i]);
    }
  }

  lemma StepBlock(job: Job, l: Line, w: World, lba: nat)
    requires l < |job.infos| && Clear(job.infos, lba) && job.mode != AppendOnly
    ensures BlockAt(StepLine(job, l, w).file, lba)
         == if job.infos[l].lba == lba && Writes(job, job.infos[l].rw) then BlockOf(job, l) else BlockAt(w.file, lba)
  {
    var info := job.infos[l];
    hide WriteAt, ReadAt, BlockOf;
    if Writes(job, info.rw) {
      if info.lba == lba {
        ReadBack(w.file, info.Ofs(), BlockOf(job, l));
      } else {
        assert info.lba + 8 <= lba || lba + 8 <= info.lba;
        ReadElsewhere(w.file, info.Ofs(), BlockOf(job, l), 512 * lba, BLK_SIZE);
      }
    }
  }

  lemma RememberedSnoc(job: Job, k: seq<Line>, l: Line)
    requires InTrace(job.infos, k) && l < |job.infos|
    ensures InTrace(job.infos, k + [l])
    ensures Remembered(job, k + [l]) == if Writes(job, job.infos[l].rw) then BlockOf(job, l) else Remembered(job, k)
  {
    assert (k + [l])[..|k|] == k;
  }

  // A block holds what the last write to its lba wrote, or zeros.
  lemma {:induction false} BlockAfter(job: Job, s: seq<Line>, lba: nat)
    requires InTrace(job.infos, s) && Clear(job.infos, lba) && job.mode != AppendOnly
    ensures InTrace(job.infos, Keep(s, OfLba(job.infos, lba)))
    ensures BlockAt(RunLines(job, s, BLANK).file, lba) == Remembered(job, Keep(s, OfLba(job.infos, lba)))
  {
    hide Keep, StepLine, Remembered, BlockAt, BlockOf;
    var p := OfLba(job.infos, lba);
    KeptInTrace(job.infos, s, p);
    if s == [] {
      BlankBlock(job, lba, p);
    } else {
      var front, l := s[..|s| - 1], s[|s| - 1];
      BlockAfter(job, front, lba);
      StepBlock(job, l, RunLines(job, front, BLANK), lba);
      assert s == front + [l];
      KeepAppend(front, [l], p);
      KeepOne(l, p);
      assert Keep(front, p) + [] == Keep(front, p);
      RememberedSnoc(job, Keep(front, p), l);
    }
  }

  lemma BlankBlock(job: Job, lba: nat, p: Line -> bool)
    ensures InTrace(job.infos, Keep([], p)) && Remembered(job, Keep([], p)) == Zeros(BLK_SIZE)
    ensures BlockAt([], lba) == Zeros(BLK_SIZE)
  {
  }

  // ----- what a read sees -----

  function IndexOf(s: seq<Line>, l: Line): (i: nat)
    ensures i <= |s| && l !in s[..i]
    ensures i < |s| ==> s[i] == l
    ensures l in s ==> i < |s|
  {
    if s == [] then 0
    else if s[0] == l then 0
    else
      var i := 1 + IndexOf(s[1..], l);
      assert s[..i] == [s[0]] + s[1..][..i - 1];
      i
  }

  // The block that line l sees when the lines of s are replayed one by one.
  function Observed(job: Job, s: seq<Line>, l: Line): seq<byte>
    requires InTrace(job.infos, s) && l < |job.infos|
  {
    BlockAt(RunLines(job, s[..IndexOf(s, l)], BLANK).file, job.infos[l].lba)
  }

  // What the read lines among `part` deliver when s is replayed.
  function Observations(job: Job, part: seq<Line>, s: seq<Line>): seq<byte>
    requires InTrace(job.infos, s) && InTrace(job.infos, part)
  {
    if part == [] then [] else
      var l := part[|part| - 1];
      var before := Observations(job, part[..|part| - 1], s);
      if Writes(job, job.infos[l].rw) then before else before + Observed(job, s, l)
  }

  lemma KeepAround(s: seq<Line>, p: Line -> bool, i: nat)
    requires i < |s| && p(s[i])
    ensures Keep(s, p) == Keep(s[..i], p) + ([s[i]] + Keep(s[i + 1..], p))
  {
    hide Keep;
    assert s == s[..i] + s[i..] && s[i..] == [s[i]] + s[i + 1..];
    KeepAppend(s[..i], s[i..], p);
    KeepCons(s[i], s[i + 1..], p);
  }

  lemma KeepBefore(s: seq<Line>, p: Line -> bool, l: Line)
    requires l in s && p(l)
    ensures IndexOf(Keep(s, p), l) <= |Keep(s, p)|
    ensures Keep(s[..IndexOf(s, l)], p) == Keep(s, p)[..IndexOf(Keep(s, p), l)]
  {
    hide Keep, IndexOf;
    var i := IndexOf(s, l);
    var front := Keep(s[..i], p);
    KeepAround(s, p, i);
    KeepMember(s[..i], p, l);
    FirstAfter(front, l, Keep(s[i + 1..], p));
  }

  lemma {:induction false} IndexIs(s: seq<Line>, l: Line, k: nat)
    requires k < |s| && s[k] == l && l !in s[..k]
    ensures IndexOf(s, l) == k
  {
    if k > 0 {
      assert s[..k][0] == s[0];
      assert s[1..][..k - 1] == s[..k][1..];
      IndexIs(s[1..], l, k - 1);
    }
  }

  lemma FirstAfter(front: seq<Line>, l: Line, back: seq<Line>)
    requires l !in front
    ensures IndexOf(front + ([l] + back), l) == |front|
    ensures (front + ([l] + back))[..|front|] == front
  {
    IndexIs(front + ([l] + back), l, |front|);
  }

  // What a line sees depends on the lines of its lba only.
  lemma ObservedKept(job: Job, s: seq<Line>, l: Line)
    requires InTrace(job.infos, s) && Apart(job.infos) && job.mode != AppendOnly && l in s && l < |job.infos|
    ensures var kept := Keep(s, OfLba(job.infos, job.infos[l].lba));
      InTrace(job.infos, kept) && Observed(job, s, l) == Remembered(job, kept[..IndexOf(kept, l)])
  {
    hide Keep, Remembered, RunLines, BlockAt;
    var p := OfLba(job.infos, job.infos[l].lba);
    KeptInTrace(job.infos, s, p);
    KeepBefore(s, p, l);
    BlockAfter(job, s[..IndexOf(s, l)], job.infos[l].lba);
  }

  lemma SameObserved(job: Job, s: seq<Line>, t: seq<Line>, l: Line)
    requires InTrace(job.infos, s) && InTrace(job.infos, t) && Apart(job.infos) && job.mode != AppendOnly
    requires l in s && l in t && l < |job.infos|
    requires Keep(s, OfLba(job.infos, job.infos[l].lba)) == Keep(t, OfLba(job.infos, job.infos[l].lba))
    ensures Observed(job, s, l) == Observed(job, t, l)
  {
    hide Keep, Remembered, Observed;
    ObservedKept(job, s, l);
    ObservedKept(job, t, l);
  }

  lemma DistinctIndex(s: seq<Line>, k: nat)
    requires k < |s| && forall i, j :: 0 <= i < j < |s| ==> s[i] != s[j]
    ensures IndexOf(s, s[k]) == k
  {
    IndexIs(s, s[k], k);
  }

  // The bytes that replaying s delivers are those its read lines observe.
  lemma {:induction false} DumpIsObserved(job: Job, s: seq<Line>, k: nat)
    requires InTrace(job.infos, s) && k <= |s| && job.mode != AppendOnly
    requires forall i, j :: 0 <= i < j < |s| ==> s[i] != s[j]
    ensures InTrace(job.infos, s[..k])
    ensures RunLines(job, s[..k], BLANK).dump == Observations(job, s[..k], s)
  {
    hide ReadAt, BlockOf, IndexOf;
    if k > 0 {
      DumpIsObserved(job, s, k - 1);
      assert s[..k][..k - 1] == s[..k - 1];
      DistinctIndex(s, k - 1);
    }
  }
}
