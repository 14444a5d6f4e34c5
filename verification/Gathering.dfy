// Where the lines of a trace end up when whole containers are handed to
// workers: every line on one worker, all lines of one lba together.
module Gathering {
  import opened BucketTable
  import opened Grouping
  import opened Sequences
  import opened StableSort
  import opened Trace

  // The lba of the lines in a container.
  function LbaOf(infos: seq<TraceInfo>, group: seq<Line>): nat
  {
    if group != [] && group[0] < |infos| then infos[group[0]].lba else 0
  }

  // One container for every lba, holding its lines in trace order.
  ghost predicate IsGrouping(infos: seq<TraceInfo>, groups: seq<seq<Line>>)
  {
    && (forall h :: 0 <= h < |groups| ==>
          groups[h] != [] && groups[h] == Group(infos, |infos|, LbaOf(infos, groups[h])))
    && (forall h, k :: 0 <= h < k < |groups| ==> LbaOf(infos, groups[h]) != LbaOf(infos, groups[k]))
    && (forall l {:trigger HasGroup(infos, groups, infos[l].lba)} ::
          0 <= l < |infos| ==> HasGroup(infos, groups, infos[l].lba))
  }

  ghost predicate HasGroup(infos: seq<TraceInfo>, groups: seq<seq<Line>>, lba: nat)
  {
    exists h :: 0 <= h < |groups| && LbaOf(infos, groups[h]) == lba
  }

  lemma GroupLba(infos: seq<TraceInfo>, l: Line)
    requires l < |infos|
    ensures Group(infos, |infos|, infos[l].lba) != []
    ensures LbaOf(infos, Group(infos, |infos|, infos[l].lba)) == infos[l].lba
  {
    var lba := infos[l].lba;
    var group := Group(infos, |infos|, lba);
    assert Range(|infos|)[l] == l;
    KeepMember(Range(|infos|), OfLba(infos, lba), l);
    KeepMember(Range(|infos|), OfLba(infos, lba), group[0]);
  }

  // What build_trace_containers leaves in the map and in the containers.
  lemma GroupedIsGrouping(infos: seq<TraceInfo>, es: seq<Entry>, groups: seq<seq<Line>>)
    requires Grouped(infos, |infos|, es, groups) && Bounded(infos)
    ensures IsGrouping(infos, groups)
  {
    hide LbaBytes;
    forall h | 0 <= h < |groups|
      ensures groups[h] != [] && LbaOf(infos, groups[h]) == infos[es[h].key.addr].lba
    {
      assert GroupAt(infos, |infos|, es[h], h, groups[h]);
      GroupLba(infos, es[h].key.addr);
    }
    forall l | 0 <= l < |infos|
      ensures HasGroup(infos, groups, infos[l].lba)
    {
      assert HasKey(es, LbaBytes(infos[l].lba));
      var h :| 0 <= h < |es| && es[h].key.bytes == LbaBytes(infos[l].lba);
      LbaBytesInjective(infos[es[h].key.addr].lba, infos[l].lba);
    }
  }

  // ----- which worker has what -----

  // The lines of the containers that went to worker w, in the order in which
  // the containers were visited.
  function Gather(groups: seq<seq<Line>>, visited: seq<nat>, owners: seq<nat>, w: nat): seq<Line>
    requires |owners| == |visited| && Within(visited, |groups|)
  {
    if visited == [] then [] else
      var last := |visited| - 1;
      var before := Gather(groups, visited[..last], owners[..last], w);
      if owners[last] == w then before + groups[visited[last]] else before
  }

  lemma GatherSnoc(groups: seq<seq<Line>>, visited: seq<nat>, owners: seq<nat>, h: nat, owner: nat, w: nat)
    requires |owners| == |visited| && Within(visited, |groups|) && h < |groups|
    ensures Gather(groups, visited + [h], owners + [owner], w)
         == if owner == w then Gather(groups, visited, owners, w) + groups[h] else Gather(groups, visited, owners, w)
  {
    assert (visited + [h])[..|visited|] == visited && (owners + [owner])[..|visited|] == owners;
  }

  // The visit at which the container of this lba was placed.
  function VisitOf(infos: seq<TraceInfo>, groups: seq<seq<Line>>, visited: seq<nat>, lba: nat): (k: nat)
    requires Within(visited, |groups|)
    ensures k <= |visited|
    ensures k < |visited| ==> LbaOf(infos, groups[visited[k]]) == lba
    ensures k == |visited| ==> forall j :: 0 <= j < |visited| ==> LbaOf(infos, groups[visited[j]]) != lba
  {
    if visited == [] then 0 else
      var last := |visited| - 1;
      if LbaOf(infos, groups[visited[last]]) == lba then last else
        var k := VisitOf(infos, groups, visited[..last], lba);
        if k == last then |visited| else k
  }

  // The worker whose lines include those of this lba.
  function OwnerOf(infos: seq<TraceInfo>, groups: seq<seq<Line>>, visited: seq<nat>, owners: seq<nat>, lba: nat): nat
    requires |owners| == |visited| && Within(visited, |groups|)
  {
    var k := VisitOf(infos, groups, visited, lba);
    if k < |visited| then owners[k] else 0
  }

  // Every line has one of n workers as its owner.
  ghost predicate Owned(infos: seq<TraceInfo>, whole: seq<Line>, owner: nat -> nat, n: nat)
  {
    forall l :: l in whole ==> l < |infos| && owner(infos[l].lba) < n
  }

  // Worker w has the lines of the lbas it owns, those of one lba in the order
  // they have in `whole`, and no others.
  ghost predicate Share(infos: seq<TraceInfo>, lines: seq<Line>, whole: seq<Line>, owner: nat -> nat, w: nat)
  {
    && InTrace(infos, lines)
    && forall lba :: Keep(lines, OfLba(infos, lba)) == if w == owner(lba) then Keep(whole, OfLba(infos, lba)) else []
  }

  ghost predicate Split(infos: seq<TraceInfo>, lines: seq<seq<Line>>, whole: seq<Line>, owner: nat -> nat)
  {
    && Owned(infos, whole, owner, |lines|)
    && forall w :: 0 <= w < |lines| ==> Share(infos, lines[w], whole, owner, w)
  }

  lemma {:induction false} KeepAll(s: seq<Line>, p: Line -> bool)
    requires forall l :: l in s ==> p(l)
    ensures Keep(s, p) == s
  {
    if s != [] {
      assert forall l :: l in s[1..] ==> l in s;
      KeepAll(s[1..], p);
    }
  }

  lemma KeepOfGroup(infos: seq<TraceInfo>, group: seq<Line>, lba: nat)
    requires group == Group(infos, |infos|, LbaOf(infos, group))
    ensures Keep(group, OfLba(infos, lba)) == if lba == LbaOf(infos, group) then group else []
  {
    forall l | l in group
      ensures OfLba(infos, LbaOf(infos, group))(l)
    {
      KeepMember(Range(|infos|), OfLba(infos, LbaOf(infos, group)), l);
    }
    if lba == LbaOf(infos, group) {
      KeepAll(group, OfLba(infos, lba));
    } else {
      forall i | 0 <= i < |group|
        ensures !OfLba(infos, lba)(group[i])
      {
        assert group[i] in group;
      }
      KeepNone(group, OfLba(infos, lba));
    }
  }

  lemma {:induction false} GatherOfLba(infos: seq<TraceInfo>, groups: seq<seq<Line>>, visited: seq<nat>, owners: seq<nat>,
                                       w: nat, lba: nat)
    requires IsGrouping(infos, groups) && Within(visited, |groups|) && Distinct(visited) && |owners| == |visited|
    ensures var k := VisitOf(infos, groups, visited, lba);
      Keep(Gather(groups, visited, owners, w), OfLba(infos, lba))
      == if k < |visited| && owners[k] == w then Group(infos, |infos|, lba) else []
  {
    hide Keep, Group;
    if visited == [] {
      KeepNone([], OfLba(infos, lba));
    } else {
      var last := |visited| - 1;
      var group := groups[visited[last]];
      GatherOfLba(infos, groups, visited[..last], owners[..last], w, lba);
      KeepOfGroup(infos, group, lba);
      KeepAppend(Gather(groups, visited[..last], owners[..last], w), group, OfLba(infos, lba));
    }
  }

  lemma {:induction false} GatherInTrace(infos: seq<TraceInfo>, groups: seq<seq<Line>>, visited: seq<nat>,
                                         owners: seq<nat>, w: nat)
    requires IsGrouping(infos, groups) && Within(visited, |groups|) && |owners| == |visited|
    ensures InTrace(infos, Gather(groups, visited, owners, w))
  {
    if visited != [] {
      var last := |visited| - 1;
      var group := groups[visited[last]];
      GatherInTrace(infos, groups, visited[..last], owners[..last], w);
      forall i | 0 <= i < |group|
        ensures group[i] < |infos|
      {
        KeepMember(Range(|infos|), OfLba(infos, LbaOf(infos, group)), group[i]);
      }
    }
  }

  // Every one of n containers is visited exactly once.
  ghost predicate VisitsAll(visited: seq<nat>, n: nat)
  {
    Within(visited, n) && Distinct(visited) && forall h :: 0 <= h < n ==> h in visited
  }

  lemma VisitAt(visited: seq<nat>, n: nat, h: nat) returns (k: nat)
    requires VisitsAll(visited, n) && h < n
    ensures k < |visited| && visited[k] == h
  {
    assert h in visited;
    k :| 0 <= k < |visited| && visited[k] == h;
  }

  lemma GroupOfLine(infos: seq<TraceInfo>, groups: seq<seq<Line>>, l: Line) returns (h: nat)
    requires IsGrouping(infos, groups) && l < |infos|
    ensures h < |groups| && LbaOf(infos, groups[h]) == infos[l].lba
  {
    hide LbaOf, Group;
    assert HasGroup(infos, groups, infos[l].lba);
    h :| 0 <= h < |groups| && LbaOf(infos, groups[h]) == infos[l].lba;
  }

  lemma LineVisited(infos: seq<TraceInfo>, groups: seq<seq<Line>>, visited: seq<nat>, l: Line)
    requires IsGrouping(infos, groups) && l < |infos| && VisitsAll(visited, |groups|)
    ensures Within(visited, |groups|)
    ensures VisitOf(infos, groups, visited, infos[l].lba) < |visited|
  {
    hide LbaOf, IsGrouping, VisitOf;
    var h := GroupOfLine(infos, groups, l);
    var k := VisitAt(visited, |groups|, h);
  }

  // If every container is visited once and goes to one of the workers, the
  // lines are split among them.
  lemma GatherSplits(infos: seq<TraceInfo>, groups: seq<seq<Line>>, visited: seq<nat>, owners: seq<nat>,
                     lines: seq<seq<Line>>, owner: nat -> nat)
    requires IsGrouping(infos, groups) && VisitsAll(visited, |groups|)
    requires |owners| == |visited| && forall k :: 0 <= k < |owners| ==> owners[k] < |lines|
    requires Within(visited, |groups|)
    requires forall w :: 0 <= w < |lines| ==> lines[w] == Gather(groups, visited, owners, w)
    requires forall lba :: owner(lba) == OwnerOf(infos, groups, visited, owners, lba)
    ensures Split(infos, lines, Range(|infos|), owner)
  {
    hide Gather, Share, IsGrouping, VisitsAll, OwnerOf, Owned;
    GatherOwned(infos, groups, visited, owners, |lines|, owner);
    forall w | 0 <= w < |lines|
      ensures Share(infos, lines[w], Range(|infos|), owner, w)
    {
      GatherShare(infos, groups, visited, owners, owner, w);
    }
  }

  lemma GatherShare(infos: seq<TraceInfo>, groups: seq<seq<Line>>, visited: seq<nat>, owners: seq<nat>,
                    owner: nat -> nat, w: nat)
    requires IsGrouping(infos, groups) && VisitsAll(visited, |groups|)
    requires |owners| == |visited| && Within(visited, |groups|)
    requires forall lba :: owner(lba) == OwnerOf(infos, groups, visited, owners, lba)
    ensures Share(infos, Gather(groups, visited, owners, w), Range(|infos|), owner, w)
  {
    hide Gather, Keep, IsGrouping, VisitsAll, OwnerOf, OfLba;
    GatherInTrace(infos, groups, visited, owners, w);
    forall lba: nat
      ensures Keep(Gather(groups, visited, owners, w), OfLba(infos, lba))
           == if w == owner(lba) then Keep(Range(|infos|), OfLba(infos, lba)) else []
    {
      GatheredOfLba(infos, groups, visited, owners, w, lba);
    }
  }

  lemma GatherOwned(infos: seq<TraceInfo>, groups: seq<seq<Line>>, visited: seq<nat>, owners: seq<nat>,
                    n: nat, owner: nat -> nat)
    requires IsGrouping(infos, groups) && VisitsAll(visited, |groups|)
    requires |owners| == |visited| && forall k :: 0 <= k < |owners| ==> owners[k] < n
    requires Within(visited, |groups|)
    requires forall lba :: owner(lba) == OwnerOf(infos, groups, visited, owners, lba)
    ensures Owned(infos, Range(|infos|), owner, n)
  {
    hide IsGrouping, VisitsAll, OwnerOf;
    forall l | l in Range(|infos|)
      ensures l < |infos| && owner(infos[l].lba) < n
    {
      OwnerIsWorker(infos, groups, visited, owners, n, l);
    }
  }

  lemma OwnerIsWorker(infos: seq<TraceInfo>, groups: seq<seq<Line>>, visited: seq<nat>, owners: seq<nat>,
                      n: nat, l: Line)
    requires IsGrouping(infos, groups) && VisitsAll(visited, |groups|) && l < |infos|
    requires |owners| == |visited| && forall k :: 0 <= k < |owners| ==> owners[k] < n
    ensures Within(visited, |groups|)
    ensures OwnerOf(infos, groups, visited, owners, infos[l].lba) < n
  {
    hide IsGrouping, VisitsAll, VisitOf;
    LineVisited(infos, groups, visited, l);
  }

  lemma VisitsParts(visited: seq<nat>, n: nat)
    requires VisitsAll(visited, n)
    ensures Within(visited, n) && Distinct(visited)
  {
  }

  lemma GatheredOfLba(infos: seq<TraceInfo>, groups: seq<seq<Line>>, visited: seq<nat>, owners: seq<nat>,
                      w: nat, lba: nat)
    requires IsGrouping(infos, groups) && VisitsAll(visited, |groups|) && |owners| == |visited|
    ensures Within(visited, |groups|)
    ensures Keep(Gather(groups, visited, owners, w), OfLba(infos, lba))
         == if w == OwnerOf(infos, groups, visited, owners, lba) then Keep(Range(|infos|), OfLba(infos, lba)) else []
  {
    hide Gather, Keep, IsGrouping, LbaOf, VisitOf;
    GatherOfLba(infos, groups, visited, owners, w, lba);
    if VisitOf(infos, groups, visited, lba) == |visited| {
      NoLines(infos, groups, visited, lba);
    }
  }

  lemma NoLines(infos: seq<TraceInfo>, groups: seq<seq<Line>>, visited: seq<nat>, lba: nat)
    requires IsGrouping(infos, groups) && VisitsAll(visited, |groups|) && Within(visited, |groups|)
    requires VisitOf(infos, groups, visited, lba) == |visited|
    ensures Group(infos, |infos|, lba) == []
  {
    hide IsGrouping, VisitsAll, Keep, VisitOf;
    forall l | 0 <= l < |infos|
      ensures infos[l].lba != lba
    {
      LineVisited(infos, groups, visited, l);
    }
    KeepNone(Range(|infos|), OfLba(infos, lba));
  }

  // ----- sorting by timestamp keeps the split -----

  lemma SortShare(infos: seq<TraceInfo>, lines: seq<Line>, whole: seq<Line>, owner: nat -> nat, w: nat)
    requires Share(infos, lines, whole, owner, w)
    ensures Share(infos, MergeSort(infos, lines), MergeSort(infos, whole), owner, w)
  {
    hide Keep, OfLba, MergeSort;
    SortedInTrace(infos, lines);
    forall lba: nat
      ensures Keep(MergeSort(infos, lines), OfLba(infos, lba))
           == if w == owner(lba) then Keep(MergeSort(infos, whole), OfLba(infos, lba)) else []
    {
      KeepOfSorted(infos, lines, OfLba(infos, lba));
      KeepOfSorted(infos, whole, OfLba(infos, lba));
      SortNothing(infos);
    }
  }

  lemma SortNothing(infos: seq<TraceInfo>)
    ensures MergeSort(infos, []) == []
  {
  }

  // Sorting every worker's lines by timestamp is a split of all lines sorted.
  lemma SortSplits(infos: seq<TraceInfo>, lines: seq<seq<Line>>, sorted: seq<seq<Line>>, whole: seq<Line>,
                   owner: nat -> nat)
    requires Split(infos, lines, whole, owner) && |sorted| == |lines|
    requires forall w :: 0 <= w < |lines| ==> sorted[w] == MergeSort(infos, lines[w])
    ensures Split(infos, sorted, MergeSort(infos, whole), owner)
  {
    hide Share, MergeSort;
    forall w | 0 <= w < |lines|
      ensures Share(infos, sorted[w], MergeSort(infos, whole), owner, w)
    {
      SortShare(infos, lines[w], whole, owner, w);
    }
    assert forall l :: l in MergeSort(infos, whole) ==> l in whole by {
      SortMember(infos, whole);
    }
  }

  // ----- a split loses nothing -----

  function Flatten(lines: seq<seq<Line>>): seq<Line>
  {
    if lines == [] then [] else Flatten(lines[..|lines| - 1]) + lines[|lines| - 1]
  }

  lemma {:induction false} KeepCounts(s: seq<Line>, p: Line -> bool, l: Line)
    requires p(l)
    ensures multiset(Keep(s, p))[l] == multiset(s)[l]
  {
    if s != [] {
      KeepCounts(s[1..], p, l);
      KeepTail(s, p);
      CountHead(s, l);
      if p(s[0]) {
        CountHead(Keep(s, p), l);
      }
    }
  }

  lemma {:induction false} FlattenCounts(infos: seq<TraceInfo>, lines: seq<seq<Line>>, whole: seq<Line>,
                                         owner: nat -> nat, n: nat, l: Line)
    requires Split(infos, lines, whole, owner) && n <= |lines| && l < |infos|
    ensures multiset(Flatten(lines[..n]))[l] == if owner(infos[l].lba) < n then multiset(whole)[l] else 0
  {
    hide Share, Flatten, Owned;
    if n == 0 {
      FlattenNone(lines[..0]);
    } else {
      FlattenCounts(infos, lines, whole, owner, n - 1, l);
      FlattenNext(lines, n);
      ShareCounts(infos, lines[n - 1], whole, owner, n - 1, l);
      assert multiset(Flatten(lines[..n]))[l] == multiset(Flatten(lines[..n - 1]))[l] + multiset(lines[n - 1])[l];
    }
  }

  lemma FlattenNone(lines: seq<seq<Line>>)
    requires lines == []
    ensures Flatten(lines) == []
  {
  }

  lemma FlattenNext(lines: seq<seq<Line>>, n: nat)
    requires 0 < n <= |lines|
    ensures Flatten(lines[..n]) == Flatten(lines[..n - 1]) + lines[n - 1]
  {
    assert lines[..n][..n - 1] == lines[..n - 1];
  }

  // How often worker w has a line.
  lemma ShareCounts(infos: seq<TraceInfo>, lines: seq<Line>, whole: seq<Line>, owner: nat -> nat, w: nat, l: Line)
    requires Share(infos, lines, whole, owner, w) && l < |infos|
    ensures multiset(lines)[l] == if w == owner(infos[l].lba) then multiset(whole)[l] else 0
  {
    hide Keep;
    KeepCounts(lines, OfLba(infos, infos[l].lba), l);
    KeepCounts(whole, OfLba(infos, infos[l].lba), l);
  }

  lemma {:induction false} FlattenMember(lines: seq<seq<Line>>, l: Line)
    requires l in Flatten(lines)
    ensures exists w :: 0 <= w < |lines| && l in lines[w]
  {
    var last := |lines| - 1;
    if l !in lines[last] {
      FlattenMember(lines[..last], l);
      var w :| 0 <= w < last && l in lines[..last][w];
      assert l in lines[w];
    }
  }

  lemma SplitCounts(infos: seq<TraceInfo>, lines: seq<seq<Line>>, whole: seq<Line>, owner: nat -> nat, l: Line)
    requires Split(infos, lines, whole, owner)
    ensures multiset(Flatten(lines))[l] == multiset(whole)[l]
  {
    hide Flatten, Keep, Share;
    if l < |infos| {
      assert lines[..|lines|] == lines;
      FlattenCounts(infos, lines, whole, owner, |lines|, l);
    } else {
      if l in Flatten(lines) {
        FlattenMember(lines, l);
        var w :| 0 <= w < |lines| && l in lines[w];
        assert Share(infos, lines[w], whole, owner, w);
        ShareInTrace(infos, lines[w], whole, owner, w, l);
      }
      NotCounted(Flatten(lines), l);
    }
    if l !in whole {
      NotCounted(whole, l);
    }
  }

  lemma ShareInTrace(infos: seq<TraceInfo>, lines: seq<Line>, whole: seq<Line>, owner: nat -> nat, w: nat, l: Line)
    requires Share(infos, lines, whole, owner, w) && l in lines
    ensures l < |infos|
  {
  }

  // Together the workers have exactly the lines of the whole, each as often as
  // it occurs there.
  lemma SplitConserves(infos: seq<TraceInfo>, lines: seq<seq<Line>>, whole: seq<Line>, owner: nat -> nat)
    requires Split(infos, lines, whole, owner)
    ensures multiset(Flatten(lines)) == multiset(whole)
    ensures |Flatten(lines)| == |whole|
  {
    hide Flatten, Split;
    forall l: Line
      ensures multiset(Flatten(lines))[l] == multiset(whole)[l]
    {
      SplitCounts(infos, lines, whole, owner, l);
    }
    assert |multiset(Flatten(lines))| == |Flatten(lines)| && |multiset(whole)| == |whole|;
  }
}
