// When every worker gets lines, told from the trace before any coin is drawn:
// the containers, and the order in which assign_params_per_worker of
// helper/replay.c visits them, do not depend on the coins.
module Readiness {
  import opened Assigning
  import opened BucketTable
  import opened Filling
  import opened Gathering
  import opened Grouping
  import opened ListSort
  import opened ListSortSpec
  import opened Options
  import opened Planning
  import opened Trace
  import opened Visiting
  import Lcg
  import Spreading

  // trace_container_cmp: the difference of two lbas, cut down to an int.
  function LbaCompare(infos: seq<TraceInfo>): Compare
  {
    (a, b) => Lcg.WrapInt(KeyLba(infos, a) - KeyLba(infos, b))
  }

  // The lba that a key points to.
  function KeyLba(infos: seq<TraceInfo>, key: Option<KeyRef>): nat
  {
    if key.Some? && key.value.addr < |infos| then infos[key.value.addr].lba else 0
  }

  // ----- the visits -----

  // The handles in the order in which the containers are visited.
  function VisitsFor(infos: seq<TraceInfo>, hash: HashFunction): seq<nat>
  {
    VisitOrder(LbaCompare(infos), hash, EntriesFor(infos, |infos|))
  }

  function ContainersFor(infos: seq<TraceInfo>): seq<seq<Line>>
  {
    GroupsFor(infos, |infos|)
  }

  // The sizes of the containers in the order of the visits.
  function SizesFor(infos: seq<TraceInfo>, hash: HashFunction): (sizes: seq<nat>)
    requires Within(VisitsFor(infos, hash), |ContainersFor(infos)|)
  {
    Sizes(ContainersFor(infos), VisitsFor(infos, hash))
  }

  lemma EntriesOfCons(p: Payload, ps: seq<Payload>)
    requires p.key.Some?
    ensures EntriesOf([p] + ps) == [Entry(p.key.value, p.value)] + EntriesOf(ps)
  {
    assert ([p] + ps)[1..] == ps;
  }

  lemma {:induction false} PayloadsKeepEntries(es: seq<Entry>, hash: HashFunction)
    ensures EntriesOf(PayloadsFor(es, hash)) == es
  {
    hide EntriesOf;
    if es == [] {
      NoPayloads(PayloadsFor(es, hash));
    } else {
      var p := Payload(Some(es[0].key), hash(es[0].key.bytes), es[0].value);
      assert PayloadsFor(es, hash) == [p] + PayloadsFor(es[1..], hash);
      EntriesOfCons(p, PayloadsFor(es[1..], hash));
      PayloadsKeepEntries(es[1..], hash);
    }
  }

  lemma NoPayloads(ps: seq<Payload>)
    requires ps == []
    ensures EntriesOf(ps) == []
  {
  }

  lemma OrderIsRearranged(cmp: Compare, hash: HashFunction, es: seq<Entry>)
    requires Numbered(es)
    ensures VisitsAll(VisitOrder(cmp, hash, es), |es|)
  {
    hide SortList, EntriesOf, PayloadsFor, VisitsAll, Numbered;
    SortConserves(cmp, PayloadsFor(es, hash));
    SamePayloadBag(SortList(cmp, PayloadsFor(es, hash)), PayloadsFor(es, hash));
    PayloadsKeepEntries(es, hash);
    RearrangedVisitsAll(es, EntriesOf(SortList(cmp, PayloadsFor(es, hash))));
  }

  // The trace's containers group its lines, and the visits meet each once.
  lemma TraceVisits(infos: seq<TraceInfo>, hash: HashFunction)
    requires Grouping.Bounded(infos)
    ensures IsGrouping(infos, ContainersFor(infos)) && NoneEmpty(ContainersFor(infos))
    ensures VisitsAll(VisitsFor(infos, hash), |ContainersFor(infos)|)
    ensures Within(VisitsFor(infos, hash), |ContainersFor(infos)|)
    ensures Spreading.Positive(SizesFor(infos, hash))
  {
    hide Grouped, IsGrouping, GroupsFor, EntriesFor, VisitOrder, Numbered, NoneEmpty;
    GroupedFor(infos, |infos|);
    GroupedIsGrouping(infos, EntriesFor(infos, |infos|), ContainersFor(infos));
    GroupingNoneEmpty(infos, ContainersFor(infos));
    GroupedNumbered(infos, |infos|, EntriesFor(infos, |infos|), ContainersFor(infos));
    OrderIsRearranged(LbaCompare(infos), hash, EntriesFor(infos, |infos|));
    SizesPositive(ContainersFor(infos), VisitsFor(infos, hash));
  }

  lemma SizesPositive(groups: seq<seq<Line>>, visited: seq<nat>)
    requires Within(visited, |groups|) && NoneEmpty(groups)
    ensures Spreading.Positive(Sizes(groups, visited))
  {
  }

  // ----- what the workers get -----

  lemma {:induction false} GatherLoad(groups: seq<seq<Line>>, visited: seq<nat>, owners: seq<nat>, w: nat)
    requires |owners| == |visited| && Within(visited, |groups|)
    ensures |Gather(groups, visited, owners, w)| == Spreading.Load(Sizes(groups, visited), owners, w)
  {
    if visited != [] {
      var last := |visited| - 1;
      GatherLoad(groups, visited[..last], owners[..last], w);
      assert Sizes(groups, visited)[..last] == Sizes(groups, visited[..last]);
    }
  }

  lemma {:induction false} LoadsAreLines(groups: seq<seq<Line>>, visited: seq<nat>, owners: seq<nat>,
                                         contents: seq<seq<Line>>, n: nat)
    requires |owners| == |visited| && Within(visited, |groups|) && n <= |contents|
    requires forall w :: 0 <= w < |contents| ==> contents[w] == Gather(groups, visited, owners, w)
    ensures Spreading.SumLoads(Sizes(groups, visited), owners, n) == LinesOf(contents, n)
  {
    hide Gather, Spreading.Load;
    if n > 0 {
      LoadsAreLines(groups, visited, owners, contents, n - 1);
      GatherLoad(groups, visited, owners, n - 1);
    }
  }

  // What SpreadOut says, opened up.
  lemma SpreadOutParts(groups: seq<seq<Line>>, visited: seq<nat>, threads: nat, per: nat, coin: Spreading.Coins,
                       contents: seq<seq<Line>>)
    returns (owners: seq<nat>)
    requires SpreadOut(groups, visited, threads, per, coin, contents)
    ensures Within(visited, |groups|) && Spreading.Positive(Sizes(groups, visited))
    ensures owners == Spreading.Spread(Sizes(groups, visited), threads, per, coin).owners
    ensures |owners| == |visited| && |contents| == threads
    ensures forall k :: 0 <= k < |owners| ==> owners[k] < threads
    ensures forall w :: 0 <= w < |contents| ==> contents[w] == Gather(groups, visited, owners, w)
  {
    hide Gather, Spreading.Spread, Spreading.Load;
    owners := Spreading.Spread(Sizes(groups, visited), threads, per, coin).owners;
  }

  // The lines are split among the workers.
  lemma SpreadOutSplits(infos: seq<TraceInfo>, groups: seq<seq<Line>>, visited: seq<nat>, threads: nat, per: nat,
                        coin: Spreading.Coins, contents: seq<seq<Line>>)
    returns (owner: nat -> nat)
    requires IsGrouping(infos, groups) && VisitsAll(visited, |groups|)
    requires SpreadOut(groups, visited, threads, per, coin, contents)
    ensures Split(infos, contents, Range(|infos|), owner) && |contents| == threads
    ensures LinesOf(contents, threads) == |infos|
  {
    hide IsGrouping, VisitsAll, SpreadOut, Gather, Split, OwnerOf;
    var owners := SpreadOutParts(groups, visited, threads, per, coin, contents);
    owner := lba => OwnerOf(infos, groups, visited, owners, lba);
    GatherSplits(infos, groups, visited, owners, contents, owner);
    SplitConserves(infos, contents, Range(|infos|), owner);
    LinesOfFlatten(contents, threads);
    assert contents[..threads] == contents;
  }

  // Which workers have lines, in terms of the sizes and the coins.
  lemma FilledContents(groups: seq<seq<Line>>, visited: seq<nat>, threads: nat, per: nat, coin: Spreading.Coins,
                       contents: seq<seq<Line>>)
    requires SpreadOut(groups, visited, threads, per, coin, contents)
    ensures Within(visited, |groups|) && Spreading.Positive(Sizes(groups, visited)) && |contents| == threads
    ensures (forall w :: 0 <= w < threads ==> contents[w] != [])
       <==> Fills(Sizes(groups, visited), threads, per, coin)
  {
    hide SpreadOut, Gather, Spreading.Spread, Spreading.Load, Sizes;
    var owners := SpreadOutParts(groups, visited, threads, per, coin, contents);
    forall w | 0 <= w < threads
      ensures |contents[w]| == Spreading.Load(Sizes(groups, visited), owners, w)
    {
      GatherLoad(groups, visited, owners, w);
    }
  }

  // The first `used` workers were moved past: they have strictly between
  // per - largest and per + largest lines.  Workers after the next have none.
  ghost predicate Even(contents: seq<seq<Line>>, used: nat, per: nat, largest: nat)
  {
    && used < |contents|
    && (forall w :: 0 <= w < used ==> per < |contents[w]| + largest && |contents[w]| < per + largest)
    && (forall w :: used < w < |contents| ==> contents[w] == [])
  }

  lemma EvenContents(groups: seq<seq<Line>>, visited: seq<nat>, threads: nat, per: nat, coin: Spreading.Coins,
                     contents: seq<seq<Line>>, largest: nat)
    returns (used: nat)
    requires SpreadOut(groups, visited, threads, per, coin, contents) && per > 0 && threads > 0
    requires Within(visited, |groups|) && Spreading.Bounded(Sizes(groups, visited), largest)
    ensures Even(contents, used, per, largest)
  {
    hide SpreadOut, Gather, Spreading.Spread, Spreading.Load, Sizes, Spreading.Bounded;
    var sizes := Sizes(groups, visited);
    var owners := SpreadOutParts(groups, visited, threads, per, coin, contents);
    Spreading.SpreadInvariant(sizes, threads, per, coin);
    Spreading.SpreadBalanced(sizes, threads, per, coin, largest);
    used := Spreading.Spread(sizes, threads, per, coin).cur;
    forall w | 0 <= w < threads
      ensures |contents[w]| == Spreading.Load(sizes, owners, w)
      ensures w > used ==> contents[w] == []
    {
      GatherLoad(groups, visited, owners, w);
      if w > used {
        Spreading.NoLoad(sizes, owners, w);
      }
    }
  }

  // ----- every worker gets lines -----

  // The exact condition, for all coins.
  lemma ReadyForAllCoins(infos: seq<TraceInfo>, threads: nat, per: nat, hash: HashFunction)
    requires Grouping.Bounded(infos) && threads > 0
    ensures Within(VisitsFor(infos, hash), |ContainersFor(infos)|) && Spreading.Positive(SizesFor(infos, hash))
    ensures (forall coin: Spreading.Coins :: Fills(SizesFor(infos, hash), threads, per, coin))
       <==> Safe(SizesFor(infos, hash), threads, per)
  {
    hide VisitsFor, ContainersFor, SizesFor, Fills, Safe;
    TraceVisits(infos, hash);
    SafeContainersFillAll(SizesFor(infos, hash), threads, per);
  }

  // No lba has more lines than this.
  ghost predicate AtMost(infos: seq<TraceInfo>, largest: nat)
  {
    forall lba :: |Group(infos, |infos|, lba)| <= largest
  }

  // No lba has so many lines that coins could leave a worker without any,
  // whatever the order of the visits.
  ghost predicate Small(infos: seq<TraceInfo>, threads: nat, largest: nat)
    requires threads > 0
  {
    var per := PerThread(|infos|, threads);
    0 < per && largest <= per && (threads - 1) * largest <= per && AtMost(infos, largest)
  }

  lemma AtMostBounds(infos: seq<TraceInfo>, groups: seq<seq<Line>>, visited: seq<nat>, largest: nat)
    requires AtMost(infos, largest) && IsGrouping(infos, groups) && Within(visited, |groups|)
    ensures Spreading.Bounded(Sizes(groups, visited), largest)
  {
    hide Group, LbaOf, HasGroup;
    forall k | 0 <= k < |visited|
      ensures |groups[visited[k]]| <= largest
    {
      assert groups[visited[k]] == Group(infos, |infos|, LbaOf(infos, groups[visited[k]]));
    }
  }

  // Given to a single worker, the containers are all lines.
  lemma AllLines(infos: seq<TraceInfo>, groups: seq<seq<Line>>, visited: seq<nat>)
    requires IsGrouping(infos, groups) && NoneEmpty(groups) && VisitsAll(visited, |groups|)
    ensures Within(visited, |groups|) && Spreading.Total(Sizes(groups, visited)) == |infos|
  {
    hide IsGrouping, VisitsAll, Gather, Split, Spreading.Spread, Spreading.Load, Spreading.Total, Sizes, NoneEmpty;
    VisitsParts(visited, |groups|);
    SizesPositive(groups, visited);
    var sizes := Sizes(groups, visited);
    Spreading.SpreadInvariant(sizes, 1, 0, STAY);
    var owners := Spreading.Spread(sizes, 1, 0, STAY).owners;
    var contents := [Gather(groups, visited, owners, 0)];
    var _ := SpreadOutSplits(infos, groups, visited, 1, 0, STAY, contents);
    LoadsAreLines(groups, visited, owners, contents, 1);
    Spreading.LoadsAddUp(sizes, owners, 1);
  }

  lemma PerThreadFits(n: nat, threads: nat)
    requires threads > 0
    ensures threads * PerThread(n, threads) <= n
  {
  }

  lemma SmallIsSafe(infos: seq<TraceInfo>, groups: seq<seq<Line>>, visited: seq<nat>, threads: nat, largest: nat)
    requires threads > 0 && Small(infos, threads, largest)
    requires IsGrouping(infos, groups) && NoneEmpty(groups) && VisitsAll(visited, |groups|)
    ensures Within(visited, |groups|) && Spreading.Positive(Sizes(groups, visited))
    ensures Safe(Sizes(groups, visited), threads, PerThread(|infos|, threads))
  {
    hide IsGrouping, VisitsAll, Sizes, NoneEmpty, AtMost, Safe, Spreading.Total, Spreading.Bounded, PerThread;
    AllLines(infos, groups, visited);
    SizesPositive(groups, visited);
    AtMostBounds(infos, groups, visited, largest);
    PerThreadFits(|infos|, threads);
    SmallContainersAreSafe(Sizes(groups, visited), threads, PerThread(|infos|, threads), largest);
  }

  // In terms of the trace alone: if no lba has too many lines, all coins fill all
  // workers.
  lemma SmallTraceIsSafe(infos: seq<TraceInfo>, threads: nat, hash: HashFunction, largest: nat)
    requires threads > 0 && Grouping.Bounded(infos) && Small(infos, threads, largest)
    ensures Within(VisitsFor(infos, hash), |ContainersFor(infos)|) && Spreading.Positive(SizesFor(infos, hash))
    ensures Safe(SizesFor(infos, hash), threads, PerThread(|infos|, threads))
  {
    hide IsGrouping, VisitsAll, VisitsFor, ContainersFor, Sizes, Safe, PerThread, Small, NoneEmpty;
    TraceVisits(infos, hash);
    SmallIsSafe(infos, ContainersFor(infos), VisitsFor(infos, hash), threads, largest);
  }

  // If no lba has too many lines, no worker is left without lines, whatever the
  // coins and the order of the visits.
  lemma SmallFillsAll(infos: seq<TraceInfo>, groups: seq<seq<Line>>, visited: seq<nat>, threads: nat,
                      coin: Spreading.Coins, contents: seq<seq<Line>>, largest: nat)
    requires threads > 0 && IsGrouping(infos, groups) && VisitsAll(visited, |groups|)
    requires SpreadOut(groups, visited, threads, PerThread(|infos|, threads), coin, contents)
    requires Small(infos, threads, largest)
    ensures |contents| == threads && forall w :: 0 <= w < threads ==> contents[w] != []
  {
    hide IsGrouping, VisitsAll, SpreadOut, Sizes, Small, Safe, Fills, Progress;
    var per := PerThread(|infos|, threads);
    GroupingNoneEmpty(infos, groups);
    SmallIsSafe(infos, groups, visited, threads, largest);
    SafeContainersFillAll(Sizes(groups, visited), threads, per);
    FilledContents(groups, visited, threads, per, coin, contents);
  }

  // ----- the order of the visits -----

  lemma Compared(infos: seq<TraceInfo>, a: Option<KeyRef>, b: Option<KeyRef>)
    ensures LbaCompare(infos)(a, b) == Lcg.WrapInt(KeyLba(infos, a) - KeyLba(infos, b))
  {
  }

  // The comparator on two keys: the difference of the lbas modulo 2^32, as a
  // number that fits an int.
  lemma CompareIsTruncated(infos: seq<TraceInfo>, a: KeyRef, b: KeyRef)
    requires a.addr < |infos| && b.addr < |infos|
    ensures var r, d := LbaCompare(infos)(Some(a), Some(b)), infos[a.addr].lba - infos[b.addr].lba;
      && -0x8000_0000 <= r < 0x8000_0000 && (r - d) % 0x1_0000_0000 == 0
      && (-0x8000_0000 <= d < 0x8000_0000 ==> r == d)
  {
    var r, d := LbaCompare(infos)(Some(a), Some(b)), infos[a.addr].lba - infos[b.addr].lba;
    Compared(infos, Some(a), Some(b));
    if -0x8000_0000 <= d < 0x8000_0000 {
      NearNumbers(r, d);
    }
  }

  lemma NearNumbers(r: int, d: int)
    requires -0x8000_0000 <= r < 0x8000_0000 && -0x8000_0000 <= d < 0x8000_0000 && (r - d) % 0x1_0000_0000 == 0
    ensures r == d
  {
  }

  // The lbas in the order in which the trace mentions them first are ascending,
  // and no two are 2^31 or more apart.
  ghost predicate FirstSeenAscending(infos: seq<TraceInfo>)
  {
    forall h, k :: 0 <= h < k < |ContainersFor(infos)| ==>
      0 < LbaOf(infos, ContainersFor(infos)[k]) - LbaOf(infos, ContainersFor(infos)[h]) < 0x8000_0000
  }

  lemma ContainerLba(infos: seq<TraceInfo>, k: nat)
    requires Grouping.Bounded(infos) && k < |ContainersFor(infos)|
    ensures var es := EntriesFor(infos, |infos|);
      && k < |es| && es[k].key.addr < |infos| && es[k].value == k
      && LbaOf(infos, ContainersFor(infos)[k]) == infos[es[k].key.addr].lba
  {
    hide EntriesFor, LbaBytes, DistinctKeys, HasKey, GroupsFor;
    GroupedFor(infos, |infos|);
    var es := EntriesFor(infos, |infos|);
    assert GroupAt(infos, |infos|, es[k], k, ContainersFor(infos)[k]);
    GroupLba(infos, es[k].key.addr);
  }

  // How the comparator orders two containers of such a trace.
  lemma AscendingCompared(infos: seq<TraceInfo>, hash: HashFunction, h: nat, k: nat)
    requires Grouping.Bounded(infos) && FirstSeenAscending(infos)
    requires h < |ContainersFor(infos)| && k < |ContainersFor(infos)|
    ensures var ps := PayloadsFor(EntriesFor(infos, |infos|), hash);
      && |ps| == |ContainersFor(infos)|
      && (LbaCompare(infos)(ps[h].key, ps[k].key) <= 0 <==> h <= k)
  {
    hide EntriesFor, GroupsFor, LbaCompare, LbaOf;
    ContainerLba(infos, h);
    ContainerLba(infos, k);
    var es := EntriesFor(infos, |infos|);
    CompareIsTruncated(infos, es[h].key, es[k].key);
  }

  // Then the containers are visited in that order: the sort leaves an ascending
  // list alone.
  lemma AscendingVisits(infos: seq<TraceInfo>, hash: HashFunction)
    requires Grouping.Bounded(infos) && FirstSeenAscending(infos)
    ensures VisitsFor(infos, hash) == Range(|ContainersFor(infos)|)
  {
    hide EntriesFor, GroupsFor, LbaCompare, SortList, EntriesOf, FirstSeenAscending;
    var es := EntriesFor(infos, |infos|);
    var ps := PayloadsFor(es, hash);
    forall h, k | 0 <= h < |ps| && 0 <= k < |ps|
      ensures LbaCompare(infos)(ps[h].key, ps[k].key) <= 0 <==> h <= k
    {
      AscendingCompared(infos, hash, h, k);
    }
    SortKeepsOrdered(LbaCompare(infos), ps);
    PayloadsKeepEntries(es, hash);
    forall k | 0 <= k < |es|
      ensures Handles(es)[k] == k
    {
      ContainerLba(infos, k);
    }
  }

  // A worker's share is the largest number of lines that all can have.
  lemma PerThreadShare(n: nat, threads: nat)
    requires threads > 0
    ensures var per := PerThread(n, threads); threads * per <= n < threads * per + threads
  {
  }
}
