// hashmap_sort of helper/map.c: the merge sort on the threaded buckets, with
// its pointer splicing and payload swaps, against ListSortSpec.
module ListSort {
  import opened BucketTable
  import opened LinkedHashMap
  import opened ListSortSpec
  import opened Options
  import opened Sequences

  // ----- runs of buckets -----

  function PayloadOf(b: Bucket): Payload
  {
    Payload(b.key, b.hash, b.value)
  }

  function Payloads(tab: Table, nodes: seq<nat>): (ps: seq<Payload>)
    requires Within(nodes, |tab|)
    ensures |ps| == |nodes|
    ensures forall i :: 0 <= i < |nodes| ==> ps[i] == PayloadOf(tab[nodes[i]])
  {
    seq(|nodes|, i requires 0 <= i < |nodes| => PayloadOf(tab[nodes[i]]))
  }

  // The buckets are linked in this order; where the last one points is left
  // open.
  ghost predicate Run(tab: Table, nodes: seq<nat>)
  {
    Within(nodes, |tab|) && forall i :: 0 <= i < |nodes| - 1 ==> tab[nodes[i]].next == nodes[i + 1]
  }

  // A run whose last bucket points to `after`; an empty one stands for `after`.
  ghost predicate RunTo(tab: Table, nodes: seq<nat>, after: int)
  {
    Run(tab, nodes) && (nodes != [] ==> tab[nodes[|nodes| - 1]].next == after)
  }

  function FirstOr(nodes: seq<nat>, after: int): int
  {
    if nodes == [] then after else nodes[0]
  }

  function LastNode(nodes: seq<nat>): nat
    requires nodes != []
  {
    nodes[|nodes| - 1]
  }

  // The two tables agree outside these buckets.
  ghost predicate SameOutside(tab: Table, tab': Table, nodes: seq<nat>)
  {
    |tab'| == |tab| && forall i :: 0 <= i < |tab| && i !in nodes ==> tab'[i] == tab[i]
  }

  // The two tables have the same payloads everywhere.
  ghost predicate SamePayloads(tab: Table, tab': Table)
  {
    |tab'| == |tab| && forall i :: 0 <= i < |tab| ==> PayloadOf(tab'[i]) == PayloadOf(tab[i])
  }

  // The two tables have the same `next` pointers everywhere.
  ghost predicate SameLinks(tab: Table, tab': Table)
  {
    |tab'| == |tab| && forall i :: 0 <= i < |tab| ==> tab'[i].next == tab[i].next
  }

  // _hashmap_swap_bucket
  function Swapped(tab: Table, i: nat, j: nat): (tab': Table)
    requires i < |tab| && j < |tab|
  {
    tab[i := tab[i].(key := tab[j].key, hash := tab[j].hash, value := tab[j].value)]
     [j := tab[j].(key := tab[i].key, hash := tab[i].hash, value := tab[i].value)]
  }

  method SwapBucket(b: array<Bucket>, i: nat, j: nat)
    requires i < b.Length && j < b.Length && i != j
    modifies b
    ensures b[..] == Swapped(old(b[..]), i, j)
  {
    var tmp := b[i];
    b[i] := b[i].(key := b[j].key, hash := b[j].hash, value := b[j].value);
    b[j] := b[j].(key := tmp.key, hash := tmp.hash, value := tmp.value);
  }

  // ----- the swaps in front of the merge -----

  lemma SwappedPayloads(tab: Table, xs: seq<nat>, ys: seq<nat>, i: nat, j: nat)
    requires Within(xs, |tab|) && Within(ys, |tab|) && Distinct(xs + ys) && i < |xs| && j < |ys|
    ensures var tab' := Swapped(tab, xs[i], ys[j]);
      && SameLinks(tab, tab') && SameOutside(tab, tab', xs + ys)
      && Payloads(tab', xs) == Payloads(tab, xs)[i := Payloads(tab, ys)[j]]
      && Payloads(tab', ys) == Payloads(tab, ys)[j := Payloads(tab, xs)[i]]
  {
    var all := xs + ys;
    assert forall k :: 0 <= k < |xs| ==> all[k] == xs[k];
    assert forall k :: 0 <= k < |ys| ==> all[|xs| + k] == ys[k];
  }

  // When the runs start in the wrong order, their first payloads and their last
  // payloads are exchanged.
  method SwapRunEnds(b: array<Bucket>, start1: nat, end1: nat, start2: nat, end2: nat, cmp: Compare,
                     ghost xs: seq<nat>, ghost ys: seq<nat>)
    requires Within(xs, b.Length) && Within(ys, b.Length) && Distinct(xs + ys) && xs != [] && ys != []
    requires start1 == xs[0] && end1 == LastNode(xs) && start2 == ys[0] && end2 == LastNode(ys)
    modifies b
    ensures SameLinks(old(b[..]), b[..]) && SameOutside(old(b[..]), b[..], xs + ys)
    ensures (Payloads(b[..], xs), Payloads(b[..], ys))
         == SwapEnds(cmp, old(Payloads(b[..], xs)), old(Payloads(b[..], ys)))
  {
    hide Swapped;
    ghost var tab := b[..];
    EndsDiffer(xs, ys);
    if cmp(b[start1].key, b[start2].key) > 0 {
      SwappedPayloads(tab, xs, ys, 0, 0);
      SwapBucket(b, start1, start2);
      SwappedPayloads(b[..], xs, ys, |xs| - 1, |ys| - 1);
      SwapBucket(b, end1, end2);
    }
  }

  lemma EndsDiffer(xs: seq<nat>, ys: seq<nat>)
    requires Distinct(xs + ys) && xs != [] && ys != []
    ensures xs[0] != ys[0] && xs[|xs| - 1] != ys[|ys| - 1]
  {
    var all := xs + ys;
    assert all[0] == xs[0] && all[|xs|] == ys[0];
    assert all[|xs| - 1] == xs[|xs| - 1] && all[|all| - 1] == ys[|ys| - 1];
  }

  // ----- the merge loop -----

  // The order in which the merge loop links what is left of two runs.
  function WeaveNodes(tab: Table, cmp: Compare, xs: seq<nat>, ys: seq<nat>): (r: seq<nat>)
    requires Within(xs, |tab|) && Within(ys, |tab|)
    ensures |r| == |xs| + |ys| && Within(r, |tab|)
  {
    if xs == [] then ys
    else if ys == [] then xs
    else if Above(cmp, PayloadOf(tab[xs[0]]), PayloadOf(tab[ys[0]])) then [ys[0]] + WeaveNodes(tab, cmp, xs, ys[1..])
    else [xs[0]] + WeaveNodes(tab, cmp, xs[1..], ys)
  }

  lemma PayloadsCons(tab: Table, x: nat, nodes: seq<nat>)
    requires x < |tab| && Within(nodes, |tab|)
    ensures Within([x] + nodes, |tab|)
    ensures Payloads(tab, [x] + nodes) == [PayloadOf(tab[x])] + Payloads(tab, nodes)
  {
  }

  lemma PayloadsTail(tab: Table, nodes: seq<nat>)
    requires Within(nodes, |tab|) && nodes != []
    ensures Within(nodes[1..], |tab|) && Payloads(tab, nodes[1..]) == Payloads(tab, nodes)[1..]
  {
  }

  lemma {:induction false} WeaveNodesPayloads(tab: Table, cmp: Compare, xs: seq<nat>, ys: seq<nat>)
    requires Within(xs, |tab|) && Within(ys, |tab|)
    ensures Payloads(tab, WeaveNodes(tab, cmp, xs, ys)) == Weave(cmp, Payloads(tab, xs), Payloads(tab, ys))
  {
    if xs != [] && ys != [] {
      if Above(cmp, PayloadOf(tab[xs[0]]), PayloadOf(tab[ys[0]])) {
        PayloadsTail(tab, ys);
        WeaveNodesPayloads(tab, cmp, xs, ys[1..]);
        PayloadsCons(tab, ys[0], WeaveNodes(tab, cmp, xs, ys[1..]));
      } else {
        PayloadsTail(tab, xs);
        WeaveNodesPayloads(tab, cmp, xs[1..], ys);
        PayloadsCons(tab, xs[0], WeaveNodes(tab, cmp, xs[1..], ys));
      }
    }
  }

  // The state of the merge loop: `done` is linked up to `astart`, which points
  // to what is left of the first run; `bstart` is what is left of the second.
  ghost predicate Weaving(tab': Table, xs: seq<nat>, ys: seq<nat>, after: int,
                          done: seq<nat>, ra: seq<nat>, rb: seq<nat>)
  {
    && xs != [] && ys != [] && done != []
    && Run(tab', done) && Run(tab', ra) && RunTo(tab', rb, after)
    && (ra != [] ==> tab'[LastNode(done)].next == ra[0])
    && Distinct(done + ra + rb) && multiset(done + ra + rb) == multiset(xs + ys)
    && LastNode(done + ra) == LastNode(xs)
    && (if rb == [] then ra != [] else LastNode(rb) == LastNode(ys))
  }

  // The order in which everything will be linked, fixed from the start.
  ghost predicate WillBe(mid: Table, cmp: Compare, done: seq<nat>, ra: seq<nat>, rb: seq<nat>, all: seq<nat>)
  {
    Within(ra, |mid|) && Within(rb, |mid|) && done + WeaveNodes(mid, cmp, ra, rb) == all
  }

  lemma WeavingStarts(tab: Table, xs: seq<nat>, ys: seq<nat>, after: int)
    requires xs != [] && ys != [] && Distinct(xs + ys) && Run(tab, xs) && RunTo(tab, ys, after)
    ensures Weaving(tab, xs, ys, after, [xs[0]], xs[1..], ys)
  {
    assert [xs[0]] + xs[1..] == xs;
    assert forall i :: 0 <= i < |xs| - 1 ==> xs[1..][i] == xs[i + 1];
  }

  lemma ThreeDistinct(s: seq<nat>, t: seq<nat>, u: seq<nat>)
    requires Distinct(s + t + u)
    ensures forall i, j :: 0 <= i < |s| && 0 <= j < |t| ==> s[i] != t[j]
    ensures forall i, j :: 0 <= i < |s| && 0 <= j < |u| ==> s[i] != u[j]
    ensures forall i, j :: 0 <= i < |t| && 0 <= j < |u| ==> t[i] != u[j]
    ensures Distinct(s) && Distinct(t) && Distinct(u)
  {
    var all := s + t + u;
    assert forall i :: 0 <= i < |s| ==> all[i] == s[i];
    assert forall i :: 0 <= i < |t| ==> all[|s| + i] == t[i];
    assert forall i :: 0 <= i < |u| ==> all[|s| + |t| + i] == u[i];
  }

  // Where the loop stands, read off its two pointers.
  lemma WeavingGuards(tab': Table, xs: seq<nat>, ys: seq<nat>, after: int,
                      done: seq<nat>, ra: seq<nat>, rb: seq<nat>)
    requires Weaving(tab', xs, ys, after, done, ra, rb)
    requires forall k :: k in xs + ys ==> k != after
    ensures LastNode(done) == LastNode(xs) <==> ra == []
    ensures FirstOr(rb, after) == after <==> rb == []
    ensures rb != [] ==> LastNode(done) != rb[0]
  {
    if ra == [] {
      assert done + ra == done;
    } else {
      ThreeDistinct(done, ra, rb);
      assert LastNode(done + ra) == LastNode(ra);
    }
    if rb != [] {
      ThreeDistinct(done, ra, rb);
      SameMembers(done + ra + rb, xs + ys, rb[0]);
    }
  }

  lemma SameMembers(s: seq<nat>, t: seq<nat>, x: nat)
    requires multiset(s) == multiset(t)
    ensures x in s <==> x in t
  {
    assert x in s <==> x in multiset(s);
    assert x in t <==> x in multiset(t);
  }

  // The next entry of the first run stays where it is.
  lemma WeavingAdvances(tab': Table, xs: seq<nat>, ys: seq<nat>, after: int,
                        done: seq<nat>, ra: seq<nat>, rb: seq<nat>)
    requires Weaving(tab', xs, ys, after, done, ra, rb) && ra != [] && rb != []
    ensures Weaving(tab', xs, ys, after, done + [ra[0]], ra[1..], rb)
  {
    var d := done + [ra[0]];
    assert d + ra[1..] + rb == done + ra + rb;
    assert d + ra[1..] == done + ra;
    assert forall i :: 0 <= i < |ra| - 1 ==> ra[1..][i] == ra[i + 1];
  }

  // The table after the bucket x is linked in behind the bucket a.
  function Spliced(tab': Table, a: nat, x: nat): Table
    requires a < |tab'| && x < |tab'|
  {
    var tab'' := tab'[x := tab'[x].(next := tab'[a].next)];
    tab''[a := tab''[a].(next := x)]
  }

  // The first entry of the second run is linked in after astart.
  lemma WeavingSplices(tab': Table, xs: seq<nat>, ys: seq<nat>, after: int,
                       done: seq<nat>, ra: seq<nat>, rb: seq<nat>)
    requires Weaving(tab', xs, ys, after, done, ra, rb) && ra != [] && rb != []
    ensures Weaving(Spliced(tab', LastNode(done), rb[0]), xs, ys, after, done + [rb[0]], ra, rb[1..])
    ensures tab'[rb[0]].next == FirstOr(rb[1..], after)
  {
    ThreeDistinct(done, ra, rb);
    var tab'', d := Spliced(tab', LastNode(done), rb[0]), done + [rb[0]];
    assert forall i :: 0 <= i < |rb| - 1 ==> rb[1..][i] == rb[i + 1];
    SplicedDistinct(done, ra, rb);
    assert LastNode(d + ra) == LastNode(ra) == LastNode(done + ra);
  }

  lemma SplicedDistinct(done: seq<nat>, ra: seq<nat>, rb: seq<nat>)
    requires Distinct(done + ra + rb) && rb != []
    ensures Distinct(done + [rb[0]] + ra + rb[1..])
    ensures multiset(done + [rb[0]] + ra + rb[1..]) == multiset(done + ra + rb)
  {
    ThreeDistinct(done, ra, rb);
    assert rb == [rb[0]] + rb[1..];
  }

  lemma SplicedOnlyLinks(tab': Table, a: nat, x: nat, nodes: seq<nat>)
    requires a < |tab'| && x < |tab'| && a in nodes && x in nodes
    ensures SamePayloads(tab', Spliced(tab', a, x)) && SameOutside(tab', Spliced(tab', a, x), nodes)
  {
  }

  lemma WillBeAdvances(mid: Table, tab': Table, cmp: Compare, done: seq<nat>, ra: seq<nat>, rb: seq<nat>, all: seq<nat>)
    requires WillBe(mid, cmp, done, ra, rb, all) && ra != [] && rb != [] && SamePayloads(mid, tab')
    ensures if Above(cmp, PayloadOf(tab'[ra[0]]), PayloadOf(tab'[rb[0]]))
      then WillBe(mid, cmp, done + [rb[0]], ra, rb[1..], all)
      else WillBe(mid, cmp, done + [ra[0]], ra[1..], rb, all)
  {
    if Above(cmp, PayloadOf(tab'[ra[0]]), PayloadOf(tab'[rb[0]])) {
      assert done + [rb[0]] + WeaveNodes(mid, cmp, ra, rb[1..]) == done + ([rb[0]] + WeaveNodes(mid, cmp, ra, rb[1..]));
    } else {
      assert done + [ra[0]] + WeaveNodes(mid, cmp, ra[1..], rb) == done + ([ra[0]] + WeaveNodes(mid, cmp, ra[1..], rb));
    }
  }

  lemma WeavingMembers(tab': Table, xs: seq<nat>, ys: seq<nat>, after: int,
                       done: seq<nat>, ra: seq<nat>, rb: seq<nat>)
    requires Weaving(tab', xs, ys, after, done, ra, rb)
    ensures LastNode(done) < |tab'| && LastNode(done) in xs + ys
    ensures rb != [] ==> rb[0] < |tab'| && rb[0] in xs + ys
    ensures ra != [] ==> ra[0] < |tab'| && tab'[LastNode(done)].next == ra[0]
  {
    var all := done + ra + rb;
    assert all[|done| - 1] == LastNode(done);
    SameMembers(all, xs + ys, LastNode(done));
    if rb != [] {
      assert all[|done| + |ra|] == rb[0];
      SameMembers(all, xs + ys, rb[0]);
    }
  }

  // What one merge leaves: the buckets of both runs linked as one run, whose
  // last bucket may still point to a stale place.
  ghost predicate MergedInto(tab: Table, tab': Table, cmp: Compare, xs: seq<nat>, ys: seq<nat>, ms: seq<nat>)
  {
    && xs != [] && ys != [] && Within(xs, |tab|) && Within(ys, |tab|)
    && ms != [] && ms[0] == xs[0] && Run(tab', ms) && Distinct(ms)
    && multiset(ms) == multiset(xs + ys) && SameOutside(tab, tab', xs + ys)
    && Payloads(tab', ms) == ListSortSpec.MergeRuns(cmp, Payloads(tab, xs), Payloads(tab, ys))
  }

  // The invariant of the merge loop.  mid is the table after the payload swaps.
  ghost predicate Loop(mid: Table, tab': Table, cmp: Compare, xs: seq<nat>, ys: seq<nat>, after: int,
                       done: seq<nat>, ra: seq<nat>, rb: seq<nat>, all: seq<nat>, astart: int, bstart: int)
  {
    && Weaving(tab', xs, ys, after, done, ra, rb) && WillBe(mid, cmp, done, ra, rb, all)
    && done != [] && done[0] == xs[0] && astart == LastNode(done) && bstart == FirstOr(rb, after)
    && SamePayloads(mid, tab') && SameOutside(mid, tab', xs + ys)
  }

  lemma LoopFacts(mid: Table, tab': Table, cmp: Compare, xs: seq<nat>, ys: seq<nat>, after: int,
                  done: seq<nat>, ra: seq<nat>, rb: seq<nat>, all: seq<nat>, astart: int, bstart: int)
    requires Loop(mid, tab', cmp, xs, ys, after, done, ra, rb, all, astart, bstart)
    requires forall k :: k in xs + ys ==> k != after
    ensures xs != [] && (astart == LastNode(xs) <==> ra == []) && (bstart == after <==> rb == [])
    ensures 0 <= astart < |tab'| && (rb != [] ==> bstart == rb[0] && 0 <= bstart < |tab'| && astart != bstart)
    ensures ra != [] ==> tab'[astart].next == ra[0] && 0 <= ra[0] < |tab'|
  {
    hide Weaving, WillBe;
    WeavingSome(tab', xs, ys, after, done, ra, rb);
    WeavingGuards(tab', xs, ys, after, done, ra, rb);
    WeavingMembers(tab', xs, ys, after, done, ra, rb);
  }

  lemma WeavingSome(tab': Table, xs: seq<nat>, ys: seq<nat>, after: int, done: seq<nat>, ra: seq<nat>, rb: seq<nat>)
    requires Weaving(tab', xs, ys, after, done, ra, rb)
    ensures xs != [] && ys != [] && done != []
  {
  }

  // One round of the loop.
  lemma LoopStep(mid: Table, tab': Table, cmp: Compare, xs: seq<nat>, ys: seq<nat>, after: int,
                 done: seq<nat>, ra: seq<nat>, rb: seq<nat>, all: seq<nat>, astart: nat, bstart: nat)
    requires Loop(mid, tab', cmp, xs, ys, after, done, ra, rb, all, astart, bstart)
    requires ra != [] && rb != [] && ra[0] < |tab'| && astart < |tab'| && bstart < |tab'| && bstart == rb[0]
    ensures if Above(cmp, PayloadOf(tab'[ra[0]]), PayloadOf(tab'[bstart]))
      then Loop(mid, Spliced(tab', astart, bstart), cmp, xs, ys, after, done + [rb[0]], ra, rb[1..], all,
                bstart, tab'[bstart].next)
      else Loop(mid, tab', cmp, xs, ys, after, done + [ra[0]], ra[1..], rb, all, ra[0], bstart)
  {
    hide Weaving, WillBe, Spliced, SameOutside, SamePayloads;
    WeavingSome(tab', xs, ys, after, done, ra, rb);
    WeavingMembers(tab', xs, ys, after, done, ra, rb);
    WillBeAdvances(mid, tab', cmp, done, ra, rb, all);
    if Above(cmp, PayloadOf(tab'[ra[0]]), PayloadOf(tab'[bstart])) {
      WeavingSplices(tab', xs, ys, after, done, ra, rb);
      SplicedOnlyLinks(tab', astart, bstart, xs + ys);
      SameChain(mid, tab', Spliced(tab', astart, bstart), xs + ys);
    } else {
      WeavingAdvances(tab', xs, ys, after, done, ra, rb);
    }
  }

  lemma SameChain(mid: Table, tab': Table, tab'': Table, nodes: seq<nat>)
    requires SamePayloads(mid, tab') && SamePayloads(tab', tab'')
    requires SameOutside(mid, tab', nodes) && SameOutside(tab', tab'', nodes)
    ensures SamePayloads(mid, tab'') && SameOutside(mid, tab'', nodes)
  {
  }

  lemma LoopStarts(mid: Table, cmp: Compare, xs: seq<nat>, ys: seq<nat>, after: int)
    requires xs != [] && ys != [] && Distinct(xs + ys) && Run(mid, xs) && RunTo(mid, ys, after)
    ensures Within(xs[1..], |mid|)
    ensures Loop(mid, mid, cmp, xs, ys, after, [xs[0]], xs[1..], ys, [xs[0]] + WeaveNodes(mid, cmp, xs[1..], ys),
                 xs[0], ys[0])
  {
    hide Weaving, WillBe;
    WeavingStarts(mid, xs, ys, after);
    WillBeStarts(mid, cmp, xs, ys);
  }

  // _hashmap_merge.  The heads of the runs never move; the tail of the second
  // run is handed back.  If the second run is used up first, the new tail is the
  // old tail of the first run, and still points to the old head of the second.
  method MergeLists(b: array<Bucket>, start1: nat, end1: nat, start2: nat, end2: nat, cmp: Compare,
                    ghost xs: seq<nat>, ghost ys: seq<nat>, ghost after: int)
    returns (newEnd2: nat, ghost ms: seq<nat>)
    requires xs != [] && ys != [] && Distinct(xs + ys) && Run(b[..], xs) && RunTo(b[..], ys, after)
    requires start1 == xs[0] && end1 == LastNode(xs) && start2 == ys[0] && end2 == LastNode(ys)
    requires forall k :: k in xs + ys ==> k != after
    modifies b
    ensures MergedInto(old(b[..]), b[..], cmp, xs, ys, ms)
    ensures newEnd2 == LastNode(ms)
  {
    hide Loop, Spliced, Distinct, MergedInto, Run, RunTo, SameOutside, SamePayloads, Payloads, SwapEnds;
    ghost var tab := b[..];
    RunBounds(tab, xs, ys, after);
    SwapRunEnds(b, start1, end1, start2, end2, cmp, xs, ys);
    ghost var mid := b[..];
    RunsRelinked(tab, mid, xs, ys, after);
    RunBounds(mid, xs, ys, after);
    LoopStarts(mid, cmp, xs, ys, after);
    ghost var all := [xs[0]] + WeaveNodes(mid, cmp, xs[1..], ys);
    ghost var done, ra, rb := [xs[0]], xs[1..], ys;
    var astart: int, bstart: int := start1, start2;
    var bendnext := b[end2].next;
    LoopFacts(mid, mid, cmp, xs, ys, after, done, ra, rb, all, astart, bstart);
    while astart != end1 && bstart != bendnext
      invariant Loop(mid, b[..], cmp, xs, ys, after, done, ra, rb, all, astart, bstart)
      decreases |ra| + |rb|
    {
      LoopFacts(mid, b[..], cmp, xs, ys, after, done, ra, rb, all, astart, bstart);
      LoopStep(mid, b[..], cmp, xs, ys, after, done, ra, rb, all, astart, bstart);
      if cmp(b[b[astart].next].key, b[bstart].key) > 0 {
        var temp := b[bstart].next;
        SpliceAfter(b, astart, bstart);
        bstart := temp;
        done, rb := done + [rb[0]], rb[1..];
      } else {
        done, ra := done + [ra[0]], ra[1..];
      }
      astart := b[astart].next;
    }
    ghost var tab' := b[..];
    LoopFacts(mid, tab', cmp, xs, ys, after, done, ra, rb, all, astart, bstart);
    if astart == end1 {
      b[astart] := b[astart].(next := bstart);
      newEnd2 := end2;
    } else {
      newEnd2 := end1;
    }
    ms := WeavingEnds(tab, mid, tab', b[..], cmp, xs, ys, after, done, ra, rb, all, astart, bstart);
  }

  // Links the next bucket of the second run in behind the last merged one.
  method SpliceAfter(b: array<Bucket>, a: nat, x: nat)
    requires a < b.Length && x < b.Length && a != x
    modifies b
    ensures b[..] == Spliced(old(b[..]), a, x) && b[a].next == x
  {
    b[x] := b[x].(next := b[a].next);
    b[a] := b[a].(next := x);
  }

  lemma RunBounds(tab: Table, xs: seq<nat>, ys: seq<nat>, after: int)
    requires xs != [] && ys != [] && Run(tab, xs) && RunTo(tab, ys, after)
    ensures Within(xs, |tab|) && Within(ys, |tab|)
    ensures LastNode(xs) < |tab| && LastNode(ys) < |tab| && tab[LastNode(ys)].next == after
  {
  }

  lemma RunsRelinked(tab: Table, mid: Table, xs: seq<nat>, ys: seq<nat>, after: int)
    requires SameLinks(tab, mid) && Run(tab, xs) && RunTo(tab, ys, after)
    ensures Run(mid, xs) && RunTo(mid, ys, after)
  {
  }

  lemma WillBeStarts(mid: Table, cmp: Compare, xs: seq<nat>, ys: seq<nat>)
    requires Within(xs, |mid|) && Within(ys, |mid|) && xs != []
    ensures Within(xs[1..], |mid|)
    ensures WillBe(mid, cmp, [xs[0]], xs[1..], ys, [xs[0]] + WeaveNodes(mid, cmp, xs[1..], ys))
  {
  }

  // After the loop one of the runs is used up, and the rest of the other one is
  // linked, or was linked already.
  lemma WeavingEnds(tab: Table, mid: Table, tab': Table, tab'': Table, cmp: Compare,
                    xs: seq<nat>, ys: seq<nat>, after: int,
                    done: seq<nat>, ra: seq<nat>, rb: seq<nat>, all: seq<nat>, astart: nat, bstart: int)
    returns (ms: seq<nat>)
    requires Within(xs, |tab|) && Within(ys, |tab|) && xs != [] && ys != []
    requires SameLinks(tab, mid) && SameOutside(tab, mid, xs + ys)
    requires (Payloads(mid, xs), Payloads(mid, ys)) == SwapEnds(cmp, Payloads(tab, xs), Payloads(tab, ys))
    requires Loop(mid, tab', cmp, xs, ys, after, done, ra, rb, all, astart, bstart)
    requires all == [xs[0]] + WeaveNodes(mid, cmp, xs[1..], ys)
    requires (ra == [] || rb == []) && astart < |tab'|
    requires tab'' == if ra == [] then tab'[astart := tab'[astart].(next := bstart)] else tab'
    ensures MergedInto(tab, tab'', cmp, xs, ys, ms)
    ensures ms != [] && LastNode(ms) == if ra == [] then LastNode(ys) else LastNode(xs)
  {
    hide WillBe, SwapEnds, Payloads, Weave, WeaveNodes;
    ms := done + ra + rb;
    WeavingMembers(tab', xs, ys, after, done, ra, rb);
    EndsLinked(tab', tab'', xs, ys, after, done, ra, rb, astart, bstart);
    EndsOrder(mid, cmp, done, ra, rb, all);
    EndsPayloads(tab, mid, tab', tab'', cmp, xs, ys, all, astart, bstart);
    EndsOutside(tab, mid, tab', tab'', xs + ys, astart, bstart);
  }

  lemma EndsLinked(tab': Table, tab'': Table, xs: seq<nat>, ys: seq<nat>, after: int,
                   done: seq<nat>, ra: seq<nat>, rb: seq<nat>, astart: nat, bstart: int)
    requires Weaving(tab', xs, ys, after, done, ra, rb) && (ra == [] || rb == [])
    requires astart == LastNode(done) < |tab'| && bstart == FirstOr(rb, after)
    requires tab'' == if ra == [] then tab'[astart := tab'[astart].(next := bstart)] else tab'
    ensures var ms := done + ra + rb;
      Run(tab'', ms) && LastNode(ms) == if ra == [] then LastNode(ys) else LastNode(xs)
  {
    ThreeDistinct(done, ra, rb);
    var ms := done + ra + rb;
    if ra == [] {
      assert ms == done + rb;
      RunKept(tab', tab'', done, astart);
      RunKept(tab', tab'', rb, astart);
      RunJoined(tab'', done, rb);
    } else {
      assert ms == done + ra;
      RunJoined(tab'', done, ra);
    }
  }

  // Changing where one bucket points breaks no run it is not inside of.
  lemma RunKept(tab': Table, tab'': Table, nodes: seq<nat>, a: nat)
    requires Run(tab', nodes) && |tab''| == |tab'| && forall k :: 0 <= k < |tab'| && k != a ==> tab''[k] == tab'[k]
    requires forall k :: 0 <= k < |nodes| - 1 ==> nodes[k] != a
    ensures Run(tab'', nodes)
  {
  }

  lemma RunJoined(tab'': Table, s: seq<nat>, t: seq<nat>)
    requires Run(tab'', s) && Run(tab'', t) && s != [] && t != [] && tab''[LastNode(s)].next == t[0]
    ensures Run(tab'', s + t) && LastNode(s + t) == LastNode(t)
  {
    var all := s + t;
    forall i | 0 <= i < |all| - 1
      ensures tab''[all[i]].next == all[i + 1]
    {
      if i >= |s| {
        assert all[i] == t[i - |s|] && all[i + 1] == t[i - |s| + 1];
      }
    }
  }

  lemma EndsOrder(mid: Table, cmp: Compare, done: seq<nat>, ra: seq<nat>, rb: seq<nat>, all: seq<nat>)
    requires WillBe(mid, cmp, done, ra, rb, all) && (ra == [] || rb == [])
    ensures done + ra + rb == all
  {
    if ra == [] {
      assert done + ra + rb == done + rb;
    } else {
      assert done + ra + rb == done + ra;
    }
  }

  lemma EndsPayloads(tab: Table, mid: Table, tab': Table, tab'': Table, cmp: Compare, xs: seq<nat>, ys: seq<nat>,
                     all: seq<nat>, astart: nat, bstart: int)
    requires Within(xs, |tab|) && Within(ys, |tab|) && xs != [] && ys != [] && |mid| == |tab|
    requires (Payloads(mid, xs), Payloads(mid, ys)) == SwapEnds(cmp, Payloads(tab, xs), Payloads(tab, ys))
    requires Within(xs[1..], |mid|) && all == [xs[0]] + WeaveNodes(mid, cmp, xs[1..], ys)
    requires SamePayloads(mid, tab') && astart < |tab'|
    requires tab'' == tab'[astart := tab'[astart].(next := bstart)] || tab'' == tab'
    ensures Within(all, |tab''|)
    ensures Payloads(tab'', all) == ListSortSpec.MergeRuns(cmp, Payloads(tab, xs), Payloads(tab, ys))
  {
    hide SwapEnds, Weave, WeaveNodes;
    assert Payloads(tab'', all) == Payloads(mid, all);
    PayloadsTail(mid, xs);
    WeaveNodesPayloads(mid, cmp, xs[1..], ys);
    PayloadsCons(mid, xs[0], WeaveNodes(mid, cmp, xs[1..], ys));
  }

  lemma EndsOutside(tab: Table, mid: Table, tab': Table, tab'': Table, nodes: seq<nat>, astart: nat, bstart: int)
    requires SameOutside(tab, mid, nodes) && SameOutside(mid, tab', nodes) && astart in nodes && astart < |tab'|
    requires tab'' == tab'[astart := tab'[astart].(next := bstart)] || tab'' == tab'
    ensures SameOutside(tab, tab'', nodes)
  {
  }

  // ----- one round over the list -----

  // During a round the list is a processed prefix front, whose last bucket may
  // point anywhere, and the rest back, which still ends at NULL.
  ghost predicate PassState(tab: Table, tab': Table, cmp: Compare, gap: nat, nodes: seq<nat>, head: int,
                            front: seq<nat>, back: seq<nat>, prevend: int, start1: int)
    requires Within(nodes, |tab|) && gap > 0
  {
    && Distinct(front + back) && multiset(front + back) == multiset(nodes) && SameOutside(tab, tab', nodes)
    && Run(tab', front) && RunTo(tab', back, NULL) && start1 == FirstOr(back, NULL) && front + back != []
    && head == (front + back)[0] && (front != [] ==> prevend == LastNode(front))
    && Payloads(tab', front) + Pass(cmp, gap, Payloads(tab', back)) == Pass(cmp, gap, Payloads(tab, nodes))
  }

  function RunEnd(back: seq<nat>, n: nat): (e: nat)
    ensures e <= |back| && e <= n
  {
    if |back| <= n then |back| else n
  }

  // Walks to the last bucket of a run of at most `gap` buckets.
  method WalkRun(b: array<Bucket>, start: nat, gap: nat, ghost back: seq<nat>) returns (end: nat)
    requires gap > 0 && back != [] && start == back[0] && RunTo(b[..], back, NULL)
    ensures end == back[RunEnd(back, gap) - 1]
    ensures b[end].next == FirstOr(back[RunEnd(back, gap)..], NULL)
  {
    var counter := gap - 1;
    end := start;
    ghost var i := 0;
    NextInRun(b[..], back, i);
    while counter != 0 && b[end].next != NULL
      invariant 0 <= i < |back| && end == back[i] && counter == gap - 1 - i
      invariant b[end].next == AfterOf(back, i)
    {
      NextInRun(b[..], back, i + 1);
      end := b[end].next;
      counter := counter - 1;
      i := i + 1;
    }
    assert i == RunEnd(back, gap) - 1;
  }

  lemma NextInRun(tab: Table, back: seq<nat>, i: nat)
    requires RunTo(tab, back, NULL)
    ensures i < |back| ==> back[i] < |tab| && tab[back[i]].next == AfterOf(back, i)
  {
  }

  lemma SplitRest(tab': Table, front: seq<nat>, back: seq<nat>, i: nat, j: nat)
    requires Distinct(front + back) && RunTo(tab', back, NULL) && 0 < i < j <= |back|
    ensures Run(tab', back[..i]) && RunTo(tab', back[i..j], FirstOr(back[j..], NULL)) && RunTo(tab', back[j..], NULL)
    ensures back[..i] + back[i..j] == back[..j] && Distinct(back[..j])
    ensures forall k :: k in back[..j] ==> k != FirstOr(back[j..], NULL)
    ensures Apart(front, back[..j]) && Apart(back[j..], back[..j])
  {
    assert back[..i] + back[i..j] == back[..j];
    assert front + back == front + back[..j] + back[j..];
    ThreeDistinct(front, back[..j], back[j..]);
  }

  // No bucket is in both.
  ghost predicate Apart(s: seq<nat>, t: seq<nat>)
  {
    forall k :: 0 <= k < |s| ==> s[k] !in t
  }

  lemma {:induction false} DistinctBag(s: seq<nat>, x: nat)
    requires Distinct(s)
    ensures multiset(s)[x] <= 1
  {
    if s != [] {
      var rest := s[1..];
      assert s == [s[0]] + rest;
      DistinctBag(rest, x);
      assert s[0] !in rest;
    }
  }

  lemma DistinctByBag(s: seq<nat>, t: seq<nat>)
    requires Distinct(s) && multiset(s) == multiset(t)
    ensures Distinct(t)
  {
    forall i, j | 0 <= i < j < |t|
      ensures t[i] != t[j]
    {
      DistinctBag(s, t[i]);
      if t[i] == t[j] {
        CountTwice(t, i, j);
      }
    }
  }

  lemma PermutedDistinct(front: seq<nat>, back: seq<nat>, j: nat, ms: seq<nat>)
    requires Distinct(front + back) && j <= |back| && multiset(ms) == multiset(back[..j])
    ensures Distinct(front + ms + back[j..]) && multiset(front + ms + back[j..]) == multiset(front + back)
  {
    assert front + back == front + back[..j] + back[j..];
    DistinctByBag(front + back, front + ms + back[j..]);
  }

  // What the stores after a merge leave: `*head` or `prevend->next`.
  function Attached(tab': Table, front: seq<nat>, to: int): Table
    requires Within(front, |tab'|)
  {
    if front == [] then tab' else tab'[LastNode(front) := tab'[LastNode(front)].(next := to)]
  }

  // After a merge and before it is attached: three runs that share no bucket.
  lemma StepRuns(tab': Table, merged: Table, front: seq<nat>, back: seq<nat>, e: nat, ms: seq<nat>)
    requires Distinct(front + back) && 0 < e <= |back| && Run(tab', front) && RunTo(tab', back, NULL)
    requires SameOutside(tab', merged, back[..e]) && multiset(ms) == multiset(back[..e])
    ensures Run(merged, front) && RunTo(merged, back[e..], NULL) && Distinct(front + ms + back[e..])
  {
    hide Distinct, SameOutside;
    var rest := back[e..];
    PermutedDistinct(front, back, e, ms);
    assert front + back == front + back[..e] + rest;
    ThreeDistinct(front, back[..e], rest);
    OutsideRun(tab', merged, front, back[..e]);
    OutsideRun(tab', merged, rest, back[..e]);
    assert RunTo(tab', rest, NULL);
  }

  lemma AttachRuns(tab': Table, front: seq<nat>, ms: seq<nat>, rest: seq<nat>)
    requires Distinct(front + ms + rest) && Run(tab', front) && Run(tab', ms) && RunTo(tab', rest, NULL) && ms != []
    ensures Run(Attached(tab', front, ms[0]), front + ms) && RunTo(Attached(tab', front, ms[0]), rest, NULL)
  {
    hide Distinct;
    var tab'' := Attached(tab', front, ms[0]);
    if front == [] {
      assert front + ms == ms;
    } else {
      LastApart(front, ms, rest);
      RunKept(tab', tab'', front, LastNode(front));
      RunKept(tab', tab'', ms, LastNode(front));
      RunKept(tab', tab'', rest, LastNode(front));
      RunJoined(tab'', front, ms);
    }
  }

  lemma LastApart(front: seq<nat>, ms: seq<nat>, rest: seq<nat>)
    requires Distinct(front + ms + rest) && front != []
    ensures forall k :: 0 <= k < |front| - 1 ==> front[k] != LastNode(front)
    ensures forall k :: 0 <= k < |ms| ==> ms[k] != LastNode(front)
    ensures forall k :: 0 <= k < |rest| ==> rest[k] != LastNode(front)
  {
    ThreeDistinct(front, ms, rest);
  }

  lemma StepLinks(tab': Table, merged: Table, front: seq<nat>, back: seq<nat>, e: nat, ms: seq<nat>)
    requires Distinct(front + back) && 0 < e <= |back| && Run(tab', front) && RunTo(tab', back, NULL)
    requires SameOutside(tab', merged, back[..e]) && ms != [] && Run(merged, ms) && multiset(ms) == multiset(back[..e])
    ensures Within(front, |merged|)
    ensures Run(Attached(merged, front, ms[0]), front + ms) && RunTo(Attached(merged, front, ms[0]), back[e..], NULL)
    ensures Within(front + ms, |merged|) && Within(back[e..], |merged|)
  {
    hide Distinct, SameOutside;
    StepRuns(tab', merged, front, back, e, ms);
    AttachRuns(merged, front, ms, back[e..]);
  }

  lemma OutsideRun(tab': Table, merged: Table, nodes: seq<nat>, inside: seq<nat>)
    requires Run(tab', nodes) && SameOutside(tab', merged, inside) && Apart(nodes, inside)
    ensures Run(merged, nodes) && Payloads(merged, nodes) == Payloads(tab', nodes)
    ensures forall i :: 0 <= i < |nodes| ==> merged[nodes[i]] == tab'[nodes[i]]
  {
  }

  lemma AttachedPayloads(tab': Table, front: seq<nat>, to: int, nodes: seq<nat>)
    requires Within(front, |tab'|) && Within(nodes, |tab'|)
    ensures Payloads(Attached(tab', front, to), nodes) == Payloads(tab', nodes)
  {
  }

  lemma PayloadsSplit(tab': Table, s: seq<nat>, t: seq<nat>)
    requires Within(s, |tab'|) && Within(t, |tab'|)
    ensures Within(s + t, |tab'|) && Payloads(tab', s + t) == Payloads(tab', s) + Payloads(tab', t)
  {
  }

  lemma PayloadsSlice(tab': Table, back: seq<nat>, i: nat, j: nat)
    requires Within(back, |tab'|) && i <= j <= |back|
    ensures Within(back[i..j], |tab'|) && Payloads(tab', back[i..j]) == Payloads(tab', back)[i..j]
  {
  }

  lemma StepPayloads(tab': Table, merged: Table, cmp: Compare, gap: nat, front: seq<nat>, back: seq<nat>,
                     e: nat, ms: seq<nat>)
    requires gap > 0 && Distinct(front + back) && Run(tab', front) && RunTo(tab', back, NULL)
    requires |back| > gap && e == RunEnd(back, 2 * gap)
    requires MergedInto(tab', merged, cmp, back[..gap], back[gap..e], ms)
    ensures Within(front, |merged|) && Within(ms, |merged|) && Within(back[e..], |merged|)
    ensures var tab'' := Attached(merged, front, ms[0]);
      Payloads(tab'', front + ms) + Pass(cmp, gap, Payloads(tab'', back[e..]))
      == Payloads(tab', front) + Pass(cmp, gap, Payloads(tab', back))
  {
    hide ListSortSpec.MergeRuns, Distinct, Attached, Payloads, Pass, Run, RunTo, SameOutside;
    MergedParts(tab', merged, cmp, back[..gap], back[gap..e], ms);
    RunWithin(tab', front);
    RunWithin(merged, ms);
    var tab'', rest := Attached(merged, front, ms[0]), back[e..];
    SplitRest(tab', front, back, gap, e);
    RunTos(tab', rest, NULL);
    OutsideRun(tab', merged, front, back[..e]);
    OutsideRun(tab', merged, rest, back[..e]);
    AttachedPayloads(merged, front, ms[0], front);
    AttachedPayloads(merged, front, ms[0], ms);
    AttachedPayloads(merged, front, ms[0], rest);
    AttachedSize(merged, front, ms[0]);
    PayloadsSplit(tab'', front, ms);
    RunTos(tab', back, NULL);
    PassUnfolds(tab', cmp, gap, back, e);
    Associates(Payloads(tab', front), Payloads(merged, ms), Pass(cmp, gap, Payloads(tab', rest)));
  }

  lemma RunWithin(tab': Table, nodes: seq<nat>)
    requires Run(tab', nodes)
    ensures Within(nodes, |tab'|)
  {
  }

  lemma MergedParts(tab: Table, tab': Table, cmp: Compare, xs: seq<nat>, ys: seq<nat>, ms: seq<nat>)
    requires MergedInto(tab, tab', cmp, xs, ys, ms)
    ensures |tab'| == |tab| && ms != []
  {
  }

  lemma RunTos(tab': Table, nodes: seq<nat>, after: int)
    requires RunTo(tab', nodes, after)
    ensures Run(tab', nodes) && Within(nodes, |tab'|)
  {
  }

  lemma PassUnfolds(tab': Table, cmp: Compare, gap: nat, back: seq<nat>, e: nat)
    requires 0 < gap < |back| && e == RunEnd(back, 2 * gap) && Within(back, |tab'|)
    ensures Within(back[..gap], |tab'|) && Within(back[gap..e], |tab'|) && Within(back[e..], |tab'|)
    ensures Pass(cmp, gap, Payloads(tab', back))
         == ListSortSpec.MergeRuns(cmp, Payloads(tab', back[..gap]), Payloads(tab', back[gap..e]))
            + Pass(cmp, gap, Payloads(tab', back[e..]))
  {
    hide ListSortSpec.MergeRuns, Payloads;
    var ps := Payloads(tab', back);
    PayloadsSlice(tab', back, 0, gap);
    PayloadsSlice(tab', back, gap, e);
    PayloadsSlice(tab', back, e, |back|);
    assert back[0..gap] == back[..gap] && ps[0..gap] == ps[..gap];
    assert back[e..|back|] == back[e..] && ps[e..|back|] == ps[e..];
  }

  lemma AttachedSize(tab': Table, front: seq<nat>, to: int)
    requires Within(front, |tab'|)
    ensures |Attached(tab', front, to)| == |tab'|
  {
  }

  lemma StepOutside(tab: Table, tab': Table, merged: Table, nodes: seq<nat>, front: seq<nat>, back: seq<nat>,
                    e: nat, to: int)
    requires multiset(front + back) == multiset(nodes) && e <= |back| && Within(front, |merged|)
    requires SameOutside(tab, tab', nodes) && SameOutside(tab', merged, back[..e])
    ensures SameOutside(tab, Attached(merged, front, to), nodes)
  {
    forall i | 0 <= i < |tab| && i !in nodes
      ensures Attached(merged, front, to)[i] == tab[i]
    {
      SameMembers(front + back, nodes, i);
      assert i !in front + back;
      assert i !in back[..e];
      if front != [] {
        assert LastNode(front) in front;
      }
    }
  }

  // One round of the inner loop of _hashmap_msort.
  lemma PassStep(tab: Table, tab': Table, merged: Table, cmp: Compare, gap: nat, nodes: seq<nat>, head: int,
                 front: seq<nat>, back: seq<nat>, prevend: int, start1: int, e: nat, ms: seq<nat>)
    requires Within(nodes, |tab|) && gap > 0 && PassState(tab, tab', cmp, gap, nodes, head, front, back, prevend, start1)
    requires |back| > gap && e == RunEnd(back, 2 * gap)
    requires MergedInto(tab', merged, cmp, back[..gap], back[gap..e], ms)
    ensures Within(front, |merged|)
    ensures PassState(tab, Attached(merged, front, ms[0]), cmp, gap, nodes, head, front + ms, back[e..],
                      LastNode(ms), FirstOr(back[e..], NULL))
  {
    hide Distinct, Pass, Attached, Payloads, Run, RunTo, SameOutside, ListSortSpec.MergeRuns;
    MergedParts(tab', merged, cmp, back[..gap], back[gap..e], ms);
    RunWithin(tab', front);
    assert back[..gap] + back[gap..e] == back[..e];
    AttachedSize(merged, front, ms[0]);
    PermutedDistinct(front, back, e, ms);
    StepLinks(tab', merged, front, back, e, ms);
    StepPayloads(tab', merged, cmp, gap, front, back, e, ms);
    StepOutside(tab, tab', merged, nodes, front, back, e, ms[0]);
    HeadKept(front, back, ms, e);
  }

  lemma HeadKept(front: seq<nat>, back: seq<nat>, ms: seq<nat>, e: nat)
    requires back != [] && ms != [] && ms[0] == back[0] && e <= |back|
    ensures front + ms + back[e..] != [] && (front + ms + back[e..])[0] == (front + back)[0]
    ensures LastNode(front + ms) == LastNode(ms)
  {
  }

  // At most one run is left: it is linked as it is.
  lemma PassEnds(tab: Table, tab': Table, cmp: Compare, gap: nat, nodes: seq<nat>, head: int,
                 front: seq<nat>, back: seq<nat>, prevend: int, start1: int)
    requires Within(nodes, |tab|) && gap > 0 && PassState(tab, tab', cmp, gap, nodes, head, front, back, prevend, start1)
    requires front != [] && |back| <= gap
    ensures Within(front, |tab'|) && prevend == LastNode(front)
    ensures RoundDone(tab, Attached(tab', front, start1), nodes, front + back, head)
    ensures Within(front + back, |tab'|)
    ensures Payloads(Attached(tab', front, start1), front + back) == Pass(cmp, gap, Payloads(tab, nodes))
  {
    hide Payloads;
    var tab'' := Attached(tab', front, start1);
    ThreeDistinct(front, back, []);
    assert front + back + [] == front + back;
    RunKept(tab', tab'', front, LastNode(front));
    RunKept(tab', tab'', back, LastNode(front));
    if back == [] {
      assert front + back == front;
    } else {
      RunJoined(tab'', front, back);
    }
    assert back[..0] == [];
    StepOutside(tab, tab', tab', nodes, front, back, 0, start1);
    PayloadsSplit(tab', front, back);
    AttachedPayloads(tab', front, start1, front + back);
  }

  // The list after a round: a permutation of the same buckets, ending at NULL.
  ghost predicate RoundDone(tab: Table, tab': Table, nodes: seq<nat>, nodes': seq<nat>, head: int)
  {
    && Distinct(nodes') && multiset(nodes') == multiset(nodes) && SameOutside(tab, tab', nodes)
    && RunTo(tab', nodes', NULL) && nodes' != [] && head == nodes'[0]
  }

  lemma PassStarts(tab: Table, cmp: Compare, gap: nat, nodes: seq<nat>, head: int)
    requires Distinct(nodes) && RunTo(tab, nodes, NULL) && nodes != [] && head == nodes[0] && gap > 0
    ensures PassState(tab, tab, cmp, gap, nodes, head, [], nodes, NULL, head)
  {
    hide Pass, Payloads, Distinct, RunTo;
    NothingInFront(nodes);
    NoRun(tab);
    RunToWithin(tab, nodes, NULL);
    NothingInFront(Pass(cmp, gap, Payloads(tab, nodes)));
  }

  lemma NothingInFront<T>(s: seq<T>)
    ensures [] + s == s
  {
  }

  lemma NoRun(tab: Table)
    ensures Run(tab, []) && Payloads(tab, []) == []
  {
  }

  lemma RunToWithin(tab: Table, nodes: seq<nat>, to: int)
    requires RunTo(tab, nodes, to)
    ensures Within(nodes, |tab|) && SameOutside(tab, tab, nodes)
  {
  }

  lemma PassFacts(tab: Table, tab': Table, cmp: Compare, gap: nat, nodes: seq<nat>, head: int,
                  front: seq<nat>, back: seq<nat>, prevend: int, start1: int)
    requires Within(nodes, |tab|) && gap > 0 && PassState(tab, tab', cmp, gap, nodes, head, front, back, prevend, start1)
    ensures Run(tab', front) && RunTo(tab', back, NULL) && Distinct(front + back) && start1 == FirstOr(back, NULL)
    ensures back != [] ==> (start1 == head <==> front == [])
    ensures front != [] ==> prevend == LastNode(front) && 0 <= prevend < |tab'|
  {
    ThreeDistinct(front, back, []);
    assert front + back + [] == front + back;
  }

  // The second half of the inner loop: the runs from start1 and start2 are
  // merged and attached to what was processed before.
  method MergePair(b: array<Bucket>, head: nat, isFirstIter: bool, gap: nat, cmp: Compare,
                   start1: nat, end1: nat, start2: nat, prevend: int,
                   ghost tab: Table, ghost nodes: seq<nat>, ghost front: seq<nat>, ghost back: seq<nat>)
    returns (newEnd2: nat, temp: int, ghost ms: seq<nat>)
    requires Within(nodes, |tab|) && 0 < gap < |back|
    requires PassState(tab, b[..], cmp, gap, nodes, head, front, back, prevend, start1)
    requires start1 == back[0] && end1 == LastNode(back[..gap]) && start2 == back[gap] && isFirstIter == (front == [])
    modifies b
    ensures PassState(tab, b[..], cmp, gap, nodes, head, front + ms, back[RunEnd(back, 2 * gap)..], newEnd2, temp)
    ensures ms != [] && temp == FirstOr(back[RunEnd(back, 2 * gap)..], NULL)
  {
    hide PassState, Distinct, Run, RunTo, Payloads, Pass, Attached, MergedInto, SameOutside;
    ghost var tab' := b[..];
    ghost var e := RunEnd(back, 2 * gap);
    PassFacts(tab, tab', cmp, gap, nodes, head, front, back, prevend, start1);
    RunTos(tab', back, NULL);
    SplitRest(tab', front, back, gap, e);
    SecondRun(tab', back, gap);
    RunEnds(back, gap, e);
    var end2 := WalkRun(b, start2, gap, back[gap..]);
    temp := b[end2].next;
    newEnd2, ms := MergeLists(b, start1, end1, start2, end2, cmp, back[..gap], back[gap..e], temp);
    PassStep(tab, tab', b[..], cmp, gap, nodes, head, front, back, prevend, start1, e, ms);
    MergedHead(tab', b[..], cmp, back[..gap], back[gap..e], ms);
    MergedParts(tab', b[..], cmp, back[..gap], back[gap..e], ms);
    AttachedIs(b[..], front, ms[0]);
    if !isFirstIter {
      b[prevend] := b[prevend].(next := start1);
    }
  }

  // The inner loop of _hashmap_msort and the store after it.
  method MsortRound(b: array<Bucket>, head: nat, gap: nat, cmp: Compare, ghost nodes: seq<nat>)
    returns (ghost nodes': seq<nat>)
    requires 0 < gap < |nodes| && Distinct(nodes) && RunTo(b[..], nodes, NULL) && head == nodes[0]
    modifies b
    ensures RoundDone(old(b[..]), b[..], nodes, nodes', head)
    ensures Payloads(b[..], nodes') == Pass(cmp, gap, old(Payloads(b[..], nodes)))
  {
    hide PassState, Distinct, Run, RunTo, Payloads, Pass, Attached, RoundDone, SameOutside;
    ghost var tab := b[..];
    RunTos(tab, nodes, NULL);
    ghost var front: seq<nat>, back := [], nodes;
    var start1: int, prevend: int := head, NULL;
    PassStarts(tab, cmp, gap, nodes, head);
    while start1 != NULL
      invariant PassState(tab, b[..], cmp, gap, nodes, head, front, back, prevend, start1)
      invariant front == [] ==> back == nodes
      invariant start1 == FirstOr(back, NULL)
      decreases |back|
    {
      PassFacts(tab, b[..], cmp, gap, nodes, head, front, back, prevend, start1);
      RunTos(b[..], back, NULL);
      var isFirstIter := start1 == head;
      var end1 := WalkRun(b, start1, gap, back);
      var start2 := b[end1].next;
      if start2 == NULL {
        break;
      }
      RunEnds(back, gap, RunEnd(back, 2 * gap));
      var newEnd2, temp;
      ghost var ms;
      newEnd2, temp, ms := MergePair(b, head, isFirstIter, gap, cmp, start1, end1, start2, prevend,
                                     tab, nodes, front, back);
      prevend := newEnd2;
      start1 := temp;
      front, back := front + ms, back[RunEnd(back, 2 * gap)..];
    }
    PassFacts(tab, b[..], cmp, gap, nodes, head, front, back, prevend, start1);
    PassEnds(tab, b[..], cmp, gap, nodes, head, front, back, prevend, start1);
    AttachedIs(b[..], front, start1);
    b[prevend] := b[prevend].(next := start1);
    nodes' := front + back;
  }

  lemma MergedHead(tab: Table, tab': Table, cmp: Compare, xs: seq<nat>, ys: seq<nat>, ms: seq<nat>)
    requires MergedInto(tab, tab', cmp, xs, ys, ms)
    ensures xs != [] && ms != [] && ms[0] == xs[0]
  {
  }

  lemma AttachedIs(tab': Table, front: seq<nat>, to: int)
    requires Within(front, |tab'|)
    ensures Attached(tab', front, to)
         == if front == [] then tab' else tab'[LastNode(front) := tab'[LastNode(front)].(next := to)]
  {
  }

  lemma SecondRun(tab': Table, back: seq<nat>, gap: nat)
    requires RunTo(tab', back, NULL) && 0 < gap < |back|
    ensures RunTo(tab', back[gap..], NULL) && back[gap..][0] == back[gap]
  {
  }

  lemma RunEnds(back: seq<nat>, gap: nat, e: nat)
    requires 0 < gap < |back| && e == RunEnd(back, 2 * gap)
    ensures back[gap..][RunEnd(back[gap..], gap) - 1] == LastNode(back[gap..e])
    ensures back[gap..][RunEnd(back[gap..], gap)..] == back[e..]
    ensures back[..gap] != [] && back[RunEnd(back, gap) - 1] == LastNode(back[..gap])
    ensures back[gap..e] != [] && back[gap..e][0] == back[gap] && back[..gap][0] == back[0]
  {
  }

  // ----- the whole sort -----

  // Between two rounds.
  ghost predicate SortState(tab: Table, tab': Table, cmp: Compare, gap: nat, nodes: seq<nat>, nodes': seq<nat>, head: int)
    requires Within(nodes, |tab|) && gap > 0
  {
    && RoundDone(tab, tab', nodes, nodes', head)
    && ListSortSpec.Passes(cmp, gap, Payloads(tab', nodes')) == SortList(cmp, Payloads(tab, nodes))
  }

  lemma SortStarts(tab: Table, cmp: Compare, nodes: seq<nat>, head: int)
    requires Distinct(nodes) && RunTo(tab, nodes, NULL) && nodes != [] && head == nodes[0]
    ensures SortState(tab, tab, cmp, 1, nodes, nodes, head)
  {
  }

  lemma SortFacts(tab: Table, tab': Table, cmp: Compare, gap: nat, nodes: seq<nat>, nodes': seq<nat>, head: int)
    requires Within(nodes, |tab|) && gap > 0 && SortState(tab, tab', cmp, gap, nodes, nodes', head)
    ensures |nodes'| == |nodes| && nodes' != [] && head == nodes'[0]
    ensures Distinct(nodes') && RunTo(tab', nodes', NULL)
    ensures multiset(nodes') == multiset(nodes) && SameOutside(tab, tab', nodes)
    ensures gap >= |nodes| ==> Payloads(tab', nodes') == SortList(cmp, Payloads(tab, nodes))
  {
    SameBagLength(nodes', nodes);
  }

  lemma SortStep(tab: Table, tab': Table, tab'': Table, cmp: Compare, gap: nat, nodes: seq<nat>,
                 before: seq<nat>, nodes': seq<nat>, head: int)
    requires Within(nodes, |tab|) && gap > 0 && SortState(tab, tab', cmp, gap, nodes, before, head) && gap < |before|
    requires RoundDone(tab', tab'', before, nodes', head)
    requires Payloads(tab'', nodes') == Pass(cmp, gap, Payloads(tab', before))
    ensures SortState(tab, tab'', cmp, 2 * gap, nodes, nodes', head)
  {
    SameOutsideChain(tab, tab', tab'', nodes, before);
  }

  // _hashmap_msort
  method Msort(b: array<Bucket>, head: int, len: nat, cmp: Compare, ghost nodes: seq<nat>)
    returns (ghost nodes': seq<nat>)
    requires len == |nodes| && Distinct(nodes) && RunTo(b[..], nodes, NULL) && head == FirstOr(nodes, NULL)
    modifies b
    ensures Distinct(nodes') && multiset(nodes') == multiset(nodes) && RunTo(b[..], nodes', NULL)
    ensures head == FirstOr(nodes', NULL) && SameOutside(old(b[..]), b[..], nodes)
    ensures Payloads(b[..], nodes') == SortList(cmp, old(Payloads(b[..], nodes)))
  {
    if head == NULL {
      return nodes;
    }
    nodes' := MsortRounds(b, head, len, cmp, nodes);
    SortFacts(old(b[..]), b[..], cmp, len, nodes, nodes', head);
  }

  // The loop over the run lengths.
  method MsortRounds(b: array<Bucket>, head: nat, len: nat, cmp: Compare, ghost nodes: seq<nat>)
    returns (ghost nodes': seq<nat>)
    requires len == |nodes| > 0 && Distinct(nodes) && RunTo(b[..], nodes, NULL) && head == nodes[0]
    modifies b
    ensures SortState(old(b[..]), b[..], cmp, len, nodes, nodes', head)
  {
    hide Distinct, RunTo, Payloads, Pass, SameOutside, SortState, RoundDone, SortList;
    ghost var tab := b[..];
    RunTos(tab, nodes, NULL);
    SortStarts(tab, cmp, nodes, head);
    nodes' := nodes;
    var gap := 1;
    while gap < len
      invariant gap > 0 && SortState(tab, b[..], cmp, gap, nodes, nodes', head)
      decreases len - gap
    {
      ghost var tab', before := b[..], nodes';
      SortFacts(tab, tab', cmp, gap, nodes, before, head);
      nodes' := MsortRound(b, head, gap, cmp, before);
      SortStep(tab, tab', b[..], cmp, gap, nodes, before, nodes', head);
      gap := 2 * gap;
    }
    SortFinished(tab, b[..], cmp, gap, nodes, nodes', head);
  }

  lemma SortFinished(tab: Table, tab': Table, cmp: Compare, gap: nat, nodes: seq<nat>, nodes': seq<nat>, head: int)
    requires Within(nodes, |tab|) && gap >= |nodes| > 0 && SortState(tab, tab', cmp, gap, nodes, nodes', head)
    ensures SortState(tab, tab', cmp, |nodes|, nodes, nodes', head)
  {
    SameBagLength(nodes', nodes);
  }

  lemma SameOutsideChain(tab: Table, tab': Table, tab'': Table, nodes: seq<nat>, nodes': seq<nat>)
    requires SameOutside(tab, tab', nodes) && SameOutside(tab', tab'', nodes') && multiset(nodes') == multiset(nodes)
    ensures SameOutside(tab, tab'', nodes)
  {
    forall i | 0 <= i < |tab| && i !in nodes
      ensures tab''[i] == tab[i]
    {
      SameMembers(nodes', nodes, i);
    }
  }

  // ----- the entries of a list, as payloads -----

  function EntriesOf(ps: seq<Payload>): seq<Entry>
  {
    if ps == [] then [] else
      var rest := EntriesOf(ps[1..]);
      match ps[0].key case Some(k) => [Entry(k, ps[0].value)] + rest case None => rest
  }

  lemma {:induction false} EntriesArePayloads(tab: Table, nodes: seq<nat>)
    requires Within(nodes, |tab|)
    ensures Entries(tab, nodes) == EntriesOf(Payloads(tab, nodes))
  {
    if nodes != [] {
      PayloadsTail(tab, nodes);
      EntriesArePayloads(tab, nodes[1..]);
    }
  }

  lemma {:induction false} EntriesOfAppend(s: seq<Payload>, t: seq<Payload>)
    ensures EntriesOf(s + t) == EntriesOf(s) + EntriesOf(t)
  {
    if s == [] {
      assert s + t == t;
    } else {
      assert s + t == [s[0]] + (s[1..] + t);
      EntriesOfAppend(s[1..], t);
    }
  }

  lemma EntriesWithout(t: seq<Payload>, k: nat)
    requires k < |t|
    ensures multiset(EntriesOf(t)) == multiset(EntriesOf([t[k]])) + multiset(EntriesOf(t[..k] + t[k + 1..]))
  {
    hide EntriesOf;
    EntriesOfAppend(t[..k], t[k + 1..]);
    EntriesOfAppend([t[k]], t[k + 1..]);
    EntriesOfAppend(t[..k], [t[k]] + t[k + 1..]);
    assert t == t[..k] + ([t[k]] + t[k + 1..]);
  }

  lemma {:induction false} SamePayloadBag(s: seq<Payload>, t: seq<Payload>)
    requires multiset(s) == multiset(t)
    ensures multiset(EntriesOf(s)) == multiset(EntriesOf(t))
  {
    hide EntriesOf;
    if s == [] {
      assert |multiset(t)| == |t|;
    } else {
      assert s[0] in multiset(t);
      var k :| 0 <= k < |t| && t[k] == s[0];
      PayloadBagCancel(s, t, k);
      SamePayloadBag(s[1..], t[..k] + t[k + 1..]);
      EntriesOfAppend([s[0]], s[1..]);
      assert s == [s[0]] + s[1..];
      EntriesWithout(t, k);
    }
  }

  lemma PayloadBagCancel(s: seq<Payload>, t: seq<Payload>, k: nat)
    requires s != [] && k < |t| && t[k] == s[0] && multiset(s) == multiset(t)
    ensures multiset(s[1..]) == multiset(t[..k] + t[k + 1..])
  {
    assert s == [s[0]] + s[1..];
    assert t == t[..k] + [t[k]] + t[k + 1..];
    assert multiset(s[1..]) == multiset(s) - multiset{s[0]};
    assert multiset(t[..k] + t[k + 1..]) == multiset(t) - multiset{t[k]};
  }

  // hashmap_sort.  The list is again a NULL-terminated list of the same buckets
  // from m->first.  m->last is not touched and payloads have left their probe
  // chains, so afterwards the map can be iterated, but not searched.
  method HashmapSort(m: HashMap, cmp: Compare)
    requires m.Listed()
    modifies m`nodes, m.buckets
    ensures m.Listed() && multiset(m.nodes) == multiset(old(m.nodes))
    ensures Payloads(m.buckets[..], m.nodes) == SortList(cmp, old(Payloads(m.buckets[..], m.nodes)))
    ensures multiset(m.Contents()) == multiset(old(m.Contents()))
  {
    hide RunTo, Payloads, SortList, Entries, Distinct, Threaded;
    ghost var tab, nodes := m.buckets[..], m.nodes;
    ThreadedIsRun(tab, nodes, m.first);
    ghost var sorted := Msort(m.buckets, m.first, m.count, cmp, nodes);
    SameBagLength(sorted, nodes);
    RunIsThreaded(m.buckets[..], sorted, m.first);
    SortedEntries(tab, m.buckets[..], cmp, nodes, sorted);
    m.nodes := sorted;
  }

  lemma SortedEntries(tab: Table, tab': Table, cmp: Compare, nodes: seq<nat>, sorted: seq<nat>)
    requires Within(nodes, |tab|) && Within(sorted, |tab'|)
    requires Payloads(tab', sorted) == SortList(cmp, Payloads(tab, nodes))
    ensures multiset(Entries(tab', sorted)) == multiset(Entries(tab, nodes))
    ensures |Entries(tab', sorted)| == |Entries(tab, nodes)|
  {
    hide Payloads, SortList, Entries, EntriesOf;
    SortConserves(cmp, Payloads(tab, nodes));
    SamePayloadBag(Payloads(tab', sorted), Payloads(tab, nodes));
    EntriesArePayloads(tab, nodes);
    EntriesArePayloads(tab', sorted);
    SameBagLength(Entries(tab', sorted), Entries(tab, nodes));
  }

  lemma ThreadedIsRun(tab: Table, nodes: seq<nat>, first: int)
    requires Threaded(tab, nodes, first)
    ensures Distinct(nodes) && RunTo(tab, nodes, NULL) && first == FirstOr(nodes, NULL) && Within(nodes, |tab|)
  {
  }

  lemma RunIsThreaded(tab: Table, nodes: seq<nat>, first: int)
    requires Distinct(nodes) && RunTo(tab, nodes, NULL) && first == FirstOr(nodes, NULL)
    ensures Threaded(tab, nodes, first) && Within(nodes, |tab|)
  {
  }
}
