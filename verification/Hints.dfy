// Cutting a worker's lines into batches of consecutive blocks ("hints"), the
// second half of assign_params_per_worker in helper/replay.c.
module Hints {
  import opened Trace

  const TWO_64 := 0x1_0000_0000_0000_0000

  // struct trace_replay_hint
  datatype Hint = Hint(continuousBlks: nat, startLine: nat, rw: char)
  {
    function End(): nat { startLine + continuousBlks }
  }

  // A line continues the line before it: the next 4 KiB block (8 sectors on),
  // the same direction.  The difference is one of `unsigned long` values.
  predicate LinkedAt(infos: seq<TraceInfo>, l: Line, before: Line)
    requires l < |infos| && before < |infos|
  {
    (infos[l].lba - infos[before].lba) % TWO_64 == 8 && infos[l].rw == infos[before].rw
  }

  predicate Linked(infos: seq<TraceInfo>, s: seq<Line>, j: nat)
    requires 0 < j < |s| && s[j] < |infos| && s[j - 1] < |infos|
  {
    LinkedAt(infos, s[j], s[j - 1])
  }

  // The largest batch that -c allows; every batch has at least one line.
  function Limit(c: nat): nat
  {
    if c == 0 then 1 else c
  }

  // ----- what a batch may be -----

  ghost predicate Legal(infos: seq<TraceInfo>, s: seq<Line>, c: nat, h: Hint)
    requires InTrace(infos, s)
  {
    && 1 <= h.continuousBlks <= Limit(c) && h.End() <= |s|
    && h.rw == infos[s[h.startLine]].rw
    && forall j :: h.startLine < j < h.End() ==> Linked(infos, s, j)
  }

  // The batch cannot be made longer.
  ghost predicate Maximal(infos: seq<TraceInfo>, s: seq<Line>, c: nat, h: Hint)
    requires InTrace(infos, s) && Legal(infos, s, c, h)
  {
    h.End() == |s| || !Linked(infos, s, h.End()) || h.continuousBlks == Limit(c)
  }

  // The hints cover the first n lines, in order, without gap or overlap.
  ghost predicate Tiles(hs: seq<Hint>, n: nat)
  {
    if hs == [] then n == 0 else
      var h := hs[|hs| - 1];
      h.End() == n && 1 <= h.continuousBlks && Tiles(hs[..|hs| - 1], h.startLine)
  }

  // Where the first k hints end.
  ghost function EndOf(hs: seq<Hint>, k: nat): nat
    requires k <= |hs|
  {
    if k == 0 then 0 else hs[k - 1].End()
  }

  ghost predicate LegalTiling(infos: seq<TraceInfo>, s: seq<Line>, c: nat, hs: seq<Hint>)
    requires InTrace(infos, s)
  {
    Tiles(hs, |s|) && forall k :: 0 <= k < |hs| ==> Legal(infos, s, c, hs[k])
  }

  ghost predicate AllMaximal(infos: seq<TraceInfo>, s: seq<Line>, c: nat, hs: seq<Hint>)
    requires InTrace(infos, s)
  {
    forall k :: 0 <= k < |hs| ==> Legal(infos, s, c, hs[k]) && Maximal(infos, s, c, hs[k])
  }

  // ----- the extraction loop -----

  lemma {:induction false} TilesAreFew(hs: seq<Hint>, n: nat)
    requires Tiles(hs, n)
    ensures |hs| <= n
  {
    if hs != [] {
      TilesAreFew(hs[..|hs| - 1], hs[|hs| - 1].startLine);
    }
  }

  lemma {:induction false} TilesPrefix(hs: seq<Hint>, n: nat, k: nat)
    requires Tiles(hs, n) && k <= |hs|
    ensures Tiles(hs[..k], EndOf(hs, k)) && EndOf(hs, k) <= n
    ensures k < |hs| ==> EndOf(hs, k) == hs[k].startLine < n
  {
    if k == |hs| {
      assert hs[..k] == hs;
    } else {
      var front := hs[..|hs| - 1];
      TilesPrefix(front, hs[|hs| - 1].startLine, k);
      assert front[..k] == hs[..k];
      if k == |front| {
        assert hs[..k] == front;
      }
    }
  }

  lemma TilesExtend(hs: seq<Hint>, n: nat, h: Hint)
    requires Tiles(hs, n) && h.startLine == n && 1 <= h.continuousBlks
    ensures Tiles(hs + [h], h.End())
  {
    assert (hs + [h])[..|hs|] == hs;
  }

  // The inner loop of assign_params_per_worker for one worker.  The worker must
  // have at least one line.
  method ExtractHints(infos: seq<TraceInfo>, lines: array<Line>, size: nat, c: nat,
                      hints: array<Hint>, start: nat)
    returns (idx: nat, maxBlks: nat)
    requires 1 <= size <= lines.Length && InTrace(infos, lines[..size])
    requires start + size <= hints.Length
    modifies hints
    ensures start < idx <= start + size
    ensures hints[..start] == old(hints[..start]) && hints[idx..] == old(hints[idx..])
    ensures LegalTiling(infos, lines[..size], c, hints[start..idx])
    ensures AllMaximal(infos, lines[..size], c, hints[start..idx])
    ensures Unwrapped(infos) ==> BestCut(infos, lines[..size], c, hints[start..idx])
    ensures forall k :: start <= k < idx ==> hints[k].continuousBlks <= maxBlks
    ensures LargestIs(hints[start..idx], maxBlks)
  {
    hide Extracted, Legal, Maximal, Tiles, BestCut, Unwrapped, LargestIs;
    ghost var s := lines[..size];
    ghost var hs: seq<Hint> := [];
    idx, maxBlks := start, 0;
    var consecutive := 0;
    NothingExtracted(infos, s, c);
    NoLargest();
    for j := 1 to size
      invariant consecutive < j && Extracted(infos, s, c, hs, consecutive, j)
      invariant idx == start + |hs| && Saved(old(hints[..]), hints[..], start, hs)
      invariant LargestIs(hs, maxBlks)
    {
      ExtractedFew(infos, s, c, hs, consecutive, j);
      if LinkedAt(infos, lines[j], lines[j - 1]) && j - consecutive < c {
        KeepGoing(infos, s, c, hs, consecutive, j);
      } else {
        var h := Hint(j - consecutive, consecutive, infos[lines[consecutive]].rw);
        CutHere(infos, s, c, hs, consecutive, j, h);
        SaveHint(hints, idx, h, old(hints[..]), start, hs);
        LargestSnoc(hs, maxBlks, h);
        hs := hs + [h];
        idx := idx + 1;
        if h.continuousBlks > maxBlks {
          maxBlks := h.continuousBlks;
        }
        consecutive := j;
      }
    }
    ExtractedFew(infos, s, c, hs, consecutive, size);
    var h := Hint(size - consecutive, consecutive, infos[lines[consecutive]].rw);
    LastCut(infos, s, c, hs, consecutive, h);
    SaveHint(hints, idx, h, old(hints[..]), start, hs);
    LargestSnoc(hs, maxBlks, h);
    hs := hs + [h];
    idx := idx + 1;
    if h.continuousBlks > maxBlks {
      maxBlks := h.continuousBlks;
    }
    assert hints[start..idx] == hs;
    if Unwrapped(infos) {
      ExtractedIsBest(infos, s, c, hs);
    }
    LargestBounds(hints[..], start, idx, maxBlks);
  }

  // The largest batch among these hints; 0 if there are none.
  ghost predicate LargestIs(hs: seq<Hint>, m: nat)
  {
    && (forall k :: 0 <= k < |hs| ==> hs[k].continuousBlks <= m)
    && (if hs == [] then m == 0 else exists k :: 0 <= k < |hs| && hs[k].continuousBlks == m)
  }

  lemma NoLargest()
    ensures LargestIs([], 0)
  {
  }

  lemma LargestSnoc(hs: seq<Hint>, m: nat, h: Hint)
    requires LargestIs(hs, m)
    ensures LargestIs(hs + [h], if h.continuousBlks > m then h.continuousBlks else m)
  {
    var all := hs + [h];
    assert all[|hs|] == h;
    if h.continuousBlks <= m && hs != [] {
      var k :| 0 <= k < |hs| && hs[k].continuousBlks == m;
      assert all[k] == hs[k];
    }
  }

  lemma LargestBounds(hints: seq<Hint>, start: nat, idx: nat, m: nat)
    requires start <= idx <= |hints| && LargestIs(hints[start..idx], m)
    ensures forall k :: start <= k < idx ==> hints[k].continuousBlks <= m
  {
    forall k | start <= k < idx
      ensures hints[k].continuousBlks <= m
    {
      assert hints[start..idx][k - start] == hints[k];
    }
  }

  // The shared array after the hints hs were saved from `start` on.
  ghost predicate Saved(before: seq<Hint>, now: seq<Hint>, start: nat, hs: seq<Hint>)
  {
    && |now| == |before| && start + |hs| <= |now|
    && now[..start] == before[..start]
    && now[start..start + |hs|] == hs
    && now[start + |hs|..] == before[start + |hs|..]
  }

  // `hint = &hints[hints_idx++]` and the stores through it
  method SaveHint(hints: array<Hint>, idx: nat, h: Hint, ghost before: seq<Hint>, ghost start: nat, ghost hs: seq<Hint>)
    requires idx == start + |hs| < hints.Length && Saved(before, hints[..], start, hs)
    modifies hints
    ensures Saved(before, hints[..], start, hs + [h])
  {
    ghost var was := hints[..];
    hints[idx] := h;
    assert hints[..] == was[idx := h];
    assert hints[..][start..idx + 1] == was[start..idx] + [h];
    assert hints[..][idx + 1..] == was[idx..][1..];
  }

  // The hints so far end where the open batch starts; the open batch reaches
  // line j.
  ghost predicate Extracted(infos: seq<TraceInfo>, s: seq<Line>, c: nat, hs: seq<Hint>, consecutive: nat, j: nat)
  {
    && InTrace(infos, s) && consecutive < j <= |s| && j - consecutive <= Limit(c)
    && Tiles(hs, consecutive) && AllMaximal(infos, s, c, hs)
    && forall k :: consecutive < k < j ==> Linked(infos, s, k)
  }

  lemma NothingExtracted(infos: seq<TraceInfo>, s: seq<Line>, c: nat)
    requires InTrace(infos, s) && s != []
    ensures Extracted(infos, s, c, [], 0, 1)
  {
  }

  lemma ExtractedFew(infos: seq<TraceInfo>, s: seq<Line>, c: nat, hs: seq<Hint>, consecutive: nat, j: nat)
    requires Extracted(infos, s, c, hs, consecutive, j)
    ensures |hs| <= consecutive
  {
    TilesAreFew(hs, consecutive);
  }

  lemma KeepGoing(infos: seq<TraceInfo>, s: seq<Line>, c: nat, hs: seq<Hint>, consecutive: nat, j: nat)
    requires Extracted(infos, s, c, hs, consecutive, j) && j < |s|
    requires Linked(infos, s, j) && j - consecutive < c
    ensures Extracted(infos, s, c, hs, consecutive, j + 1)
  {
  }

  lemma CutHere(infos: seq<TraceInfo>, s: seq<Line>, c: nat, hs: seq<Hint>, consecutive: nat, j: nat, h: Hint)
    requires Extracted(infos, s, c, hs, consecutive, j) && j < |s|
    requires !(Linked(infos, s, j) && j - consecutive < c)
    requires h == Hint(j - consecutive, consecutive, infos[s[consecutive]].rw)
    ensures Extracted(infos, s, c, hs + [h], j, j + 1)
  {
    TilesExtend(hs, consecutive, h);
    assert Legal(infos, s, c, h) && Maximal(infos, s, c, h);
  }

  lemma LastCut(infos: seq<TraceInfo>, s: seq<Line>, c: nat, hs: seq<Hint>, consecutive: nat, h: Hint)
    requires Extracted(infos, s, c, hs, consecutive, |s|)
    requires h == Hint(|s| - consecutive, consecutive, infos[s[consecutive]].rw)
    ensures LegalTiling(infos, s, c, hs + [h]) && AllMaximal(infos, s, c, hs + [h])
  {
    TilesExtend(hs, consecutive, h);
    assert Legal(infos, s, c, h) && Maximal(infos, s, c, h);
  }

  // ----- the extraction is optimal -----

  // After any number of hints the greedy tiling has covered at least as much as
  // any other legal tiling.
  lemma {:induction false} GreedyStaysAhead(infos: seq<TraceInfo>, s: seq<Line>, c: nat,
                                            hs: seq<Hint>, other: seq<Hint>, k: nat)
    requires InTrace(infos, s)
    requires LegalTiling(infos, s, c, hs) && AllMaximal(infos, s, c, hs)
    requires LegalTiling(infos, s, c, other)
    requires k <= |hs| && k <= |other|
    ensures EndOf(other, k) <= EndOf(hs, k)
  {
    if k > 0 {
      GreedyStaysAhead(infos, s, c, hs, other, k - 1);
      TilesPrefix(hs, |s|, k - 1);
      TilesPrefix(other, |s|, k - 1);
      LongestFrom(infos, s, c, hs[k - 1], other[k - 1]);
    }
  }

  // A maximal run reaches at least as far as any legal run that does not start
  // after it.
  lemma LongestFrom(infos: seq<TraceInfo>, s: seq<Line>, c: nat, g: Hint, t: Hint)
    requires InTrace(infos, s)
    requires Legal(infos, s, c, g) && Maximal(infos, s, c, g) && Legal(infos, s, c, t)
    requires t.startLine <= g.startLine
    ensures t.End() <= g.End()
  {
  }

  // No legal tiling of the worker's lines uses fewer hints.
  lemma GreedyIsOptimal(infos: seq<TraceInfo>, s: seq<Line>, c: nat, hs: seq<Hint>, other: seq<Hint>)
    requires InTrace(infos, s)
    requires LegalTiling(infos, s, c, hs) && AllMaximal(infos, s, c, hs)
    requires LegalTiling(infos, s, c, other)
    ensures |hs| <= |other|
  {
    var k := if |other| < |hs| then |other| else |hs|;
    GreedyStaysAhead(infos, s, c, hs, other, k);
    TilesPrefix(hs, |s|, k);
    TilesPrefix(other, |s|, k);
    TilesEnd(other, |s|);
  }

  lemma TilesEnd(hs: seq<Hint>, n: nat)
    requires Tiles(hs, n)
    ensures EndOf(hs, |hs|) == n
  {
  }

  // ----- the same in terms of the records -----

  // For lbas whose difference does not wrap, a line is linked to the one before
  // exactly when it is the next 4 KiB block in the same direction.
  lemma LinkedWritten(infos: seq<TraceInfo>, s: seq<Line>, j: nat)
    requires 0 < j < |s| && s[j] < |infos| && s[j - 1] < |infos|
    requires infos[s[j]].lba < TWO_63 && infos[s[j - 1]].lba < TWO_63
    ensures Linked(infos, s, j) <==>
            infos[s[j]].lba == infos[s[j - 1]].lba + 8 && infos[s[j]].rw == infos[s[j - 1]].rw
  {
    NoWrap(infos[s[j]].lba, infos[s[j - 1]].lba);
  }

  const TWO_63 := 0x8000_0000_0000_0000

  lemma NoWrap(a: nat, b: nat)
    requires a < TWO_63 && b < TWO_63
    ensures (a - b) % TWO_64 == 8 <==> a == b + 8
  {
    var q := (a - b) / TWO_64;
    assert a - b == q * TWO_64 + (a - b) % TWO_64;
    if (a - b) % TWO_64 == 8 {
      assert q == 0;
    }
  }

  // Lines from..from + n are a run that may be one batch: the lba steps by 8,
  // the direction stays, and the length is 1 to max(1, c).
  ghost predicate MayBatch(infos: seq<TraceInfo>, s: seq<Line>, c: nat, from: nat, n: nat)
    requires InTrace(infos, s)
  {
    && 1 <= n && (n == 1 || n <= c) && from + n <= |s|
    && forall j :: from < j < from + n ==>
         infos[s[j]].lba == infos[s[j - 1]].lba + 8 && infos[s[j]].rw == infos[s[j - 1]].rw
  }

  function Sum(ns: seq<nat>): nat
  {
    if ns == [] then 0 else Sum(ns[..|ns| - 1]) + ns[|ns| - 1]
  }

  // The lines are cut, from the first to the last, into runs of these lengths.
  ghost predicate MayCut(infos: seq<TraceInfo>, s: seq<Line>, c: nat, ns: seq<nat>)
    requires InTrace(infos, s)
  {
    && Sum(ns) == |s|
    && forall k :: 0 <= k < |ns| ==> MayBatch(infos, s, c, Sum(ns[..k]), ns[k])
  }

  ghost predicate Unwrapped(infos: seq<TraceInfo>)
  {
    forall i :: 0 <= i < |infos| ==> infos[i].lba < TWO_63
  }

  lemma LegalWritten(infos: seq<TraceInfo>, s: seq<Line>, c: nat, h: Hint)
    requires InTrace(infos, s) && Unwrapped(infos)
    ensures Legal(infos, s, c, h) <==>
            MayBatch(infos, s, c, h.startLine, h.continuousBlks) && h.rw == infos[s[h.startLine]].rw
  {
    hide Linked;
    if Legal(infos, s, c, h) {
      forall j | h.startLine < j < h.End()
        ensures infos[s[j]].lba == infos[s[j - 1]].lba + 8 && infos[s[j]].rw == infos[s[j - 1]].rw
      {
        assert Linked(infos, s, j);
        LinkedWritten(infos, s, j);
      }
    }
    if MayBatch(infos, s, c, h.startLine, h.continuousBlks) && h.rw == infos[s[h.startLine]].rw {
      forall j | h.startLine < j < h.End()
        ensures Linked(infos, s, j)
      {
        LinkedWritten(infos, s, j);
      }
    }
  }

  // The hints of a cut.
  function HintsOf(infos: seq<TraceInfo>, s: seq<Line>, ns: seq<nat>): (hs: seq<Hint>)
    ensures |hs| == |ns|
  {
    if ns == [] then [] else
      var front, from := ns[..|ns| - 1], Sum(ns[..|ns| - 1]);
      var rw := if from < |s| && s[from] < |infos| then infos[s[from]].rw else 'W';
      HintsOf(infos, s, front) + [Hint(ns[|ns| - 1], from, rw)]
  }

  lemma {:induction false} HintsTile(infos: seq<TraceInfo>, s: seq<Line>, ns: seq<nat>)
    requires forall k :: 0 <= k < |ns| ==> ns[k] >= 1
    ensures Tiles(HintsOf(infos, s, ns), Sum(ns))
  {
    if ns != [] {
      HintsTile(infos, s, ns[..|ns| - 1]);
      assert HintsOf(infos, s, ns)[..|ns| - 1] == HintsOf(infos, s, ns[..|ns| - 1]);
    }
  }

  lemma {:induction false} HintAt(infos: seq<TraceInfo>, s: seq<Line>, ns: seq<nat>, k: nat)
    requires k < |ns|
    ensures var h, from := HintsOf(infos, s, ns)[k], Sum(ns[..k]);
      && h.continuousBlks == ns[k] && h.startLine == from
      && (from < |s| && s[from] < |infos| ==> h.rw == infos[s[from]].rw)
  {
    if k < |ns| - 1 {
      HintAt(infos, s, ns[..|ns| - 1], k);
      assert ns[..|ns| - 1][..k] == ns[..k];
    }
  }

  lemma CutIsLegal(infos: seq<TraceInfo>, s: seq<Line>, c: nat, ns: seq<nat>)
    requires InTrace(infos, s) && Unwrapped(infos) && MayCut(infos, s, c, ns)
    ensures LegalTiling(infos, s, c, HintsOf(infos, s, ns))
  {
    hide Legal, MayBatch;
    forall k | 0 <= k < |ns|
      ensures ns[k] >= 1 && Legal(infos, s, c, HintsOf(infos, s, ns)[k])
    {
      BatchNotEmpty(infos, s, c, Sum(ns[..k]), ns[k]);
      HintAt(infos, s, ns, k);
      LegalWritten(infos, s, c, HintsOf(infos, s, ns)[k]);
    }
    HintsTile(infos, s, ns);
  }

  lemma BatchNotEmpty(infos: seq<TraceInfo>, s: seq<Line>, c: nat, from: nat, n: nat)
    requires InTrace(infos, s) && MayBatch(infos, s, c, from, n)
    ensures n >= 1 && from < |s|
  {
  }

  // The extracted hints are such a cut, and no such cut has fewer runs.
  function Lengths(hs: seq<Hint>): (ns: seq<nat>)
    ensures |ns| == |hs| && forall k :: 0 <= k < |hs| ==> ns[k] == hs[k].continuousBlks
  {
    seq(|hs|, k requires 0 <= k < |hs| => hs[k].continuousBlks)
  }

  lemma {:induction false} TilesSum(hs: seq<Hint>, n: nat)
    requires Tiles(hs, n)
    ensures Sum(Lengths(hs)) == n
  {
    if hs != [] {
      TilesSum(hs[..|hs| - 1], hs[|hs| - 1].startLine);
      assert Lengths(hs)[..|hs| - 1] == Lengths(hs[..|hs| - 1]);
    }
  }

  ghost predicate BestCut(infos: seq<TraceInfo>, s: seq<Line>, c: nat, hs: seq<Hint>)
    requires InTrace(infos, s)
  {
    && MayCut(infos, s, c, Lengths(hs))
    && forall ns :: MayCut(infos, s, c, ns) ==> |hs| <= |ns|
  }

  lemma ExtractedIsBest(infos: seq<TraceInfo>, s: seq<Line>, c: nat, hs: seq<Hint>)
    requires InTrace(infos, s) && Unwrapped(infos)
    requires LegalTiling(infos, s, c, hs) && AllMaximal(infos, s, c, hs)
    ensures BestCut(infos, s, c, hs)
  {
    hide Legal, MayBatch, Tiles, Maximal, Sum;
    forall k | 0 <= k < |hs|
      ensures MayBatch(infos, s, c, Sum(Lengths(hs)[..k]), hs[k].continuousBlks)
    {
      TilesPrefix(hs, |s|, k);
      TilesSum(hs[..k], EndOf(hs, k));
      assert Lengths(hs)[..k] == Lengths(hs[..k]);
      LegalWritten(infos, s, c, hs[k]);
    }
    TilesSum(hs, |s|);
    forall ns | MayCut(infos, s, c, ns)
      ensures |hs| <= |ns|
    {
      CutIsLegal(infos, s, c, ns);
      GreedyIsOptimal(infos, s, c, hs, HintsOf(infos, s, ns));
    }
  }
}
