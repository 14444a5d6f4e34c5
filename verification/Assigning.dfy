// The first loop of assign_params_per_worker (helper/replay.c): whole
// containers are handed to workers, with a coin where one would overfill the
// current worker.
module Assigning {
  import opened BucketTable
  import opened Containers
  import opened Gathering
  import opened Grouping
  import opened LinkedHashMap
  import opened ListSort
  import opened ListSortSpec
  import opened Sequences
  import opened Trace
  import opened Visiting
  import Spreading

  function Sizes(groups: seq<seq<Line>>, visited: seq<nat>): (sizes: seq<nat>)
    requires Within(visited, |groups|)
    ensures |sizes| == |visited|
    ensures forall k :: 0 <= k < |visited| ==> sizes[k] == |groups[visited[k]]|
  {
    seq(|visited|, k requires 0 <= k < |visited| => |groups[visited[k]]|)
  }

  // per_thread_lines
  function PerThread(validLines: nat, threads: nat): nat
    requires threads > 0
  {
    validLines / threads
  }

  ghost predicate NoneEmpty(groups: seq<seq<Line>>)
  {
    forall h :: 0 <= h < |groups| ==> groups[h] != []
  }

  // The visited containers are spread as far as `st`, and the workers have
  // exactly their lines.
  ghost predicate Progress(groups: seq<seq<Line>>, visited: seq<nat>, threads: nat, per: nat, coin: Spreading.Coins,
                           st: Spreading.State, contents: seq<seq<Line>>)
  {
    && Within(visited, |groups|) && NoneEmpty(groups)
    && st == Spreading.Spread(Sizes(groups, visited), threads, per, coin)
    && Spreading.Invariant(Sizes(groups, visited), st, threads, per)
    && |contents| == threads
    && forall w :: 0 <= w < threads ==> contents[w] == Gather(groups, visited, st.owners, w)
  }

  // The workers have what Spread assigns to them.
  ghost predicate SpreadOut(groups: seq<seq<Line>>, visited: seq<nat>, threads: nat, per: nat, coin: Spreading.Coins,
                            contents: seq<seq<Line>>)
  {
    && Within(visited, |groups|) && NoneEmpty(groups)
    && Progress(groups, visited, threads, per, coin,
                Spreading.Spread(Sizes(groups, visited), threads, per, coin), contents)
  }

  lemma ProgressStarts(groups: seq<seq<Line>>, threads: nat, per: nat, coin: Spreading.Coins, contents: seq<seq<Line>>)
    requires NoneEmpty(groups) && threads > 0
    requires |contents| == threads && forall w :: 0 <= w < threads ==> contents[w] == []
    ensures Progress(groups, [], threads, per, coin, Spreading.START, contents)
  {
    Spreading.SpreadInvariant([], threads, per, coin);
    assert Sizes(groups, []) == [];
  }

  lemma SizesSnoc(groups: seq<seq<Line>>, visited: seq<nat>, h: nat)
    requires Within(visited, |groups|) && h < |groups|
    ensures Sizes(groups, visited + [h]) == Sizes(groups, visited) + [|groups[h]|]
  {
  }

  lemma ProgressParts(groups: seq<seq<Line>>, visited: seq<nat>, threads: nat, per: nat, coin: Spreading.Coins,
                      st: Spreading.State, contents: seq<seq<Line>>, size: nat)
    requires Progress(groups, visited, threads, per, coin, st, contents) && size > 0
    ensures |contents| == threads && Spreading.Toss(st, size, threads, per, coin).cur < threads
  {
    Spreading.TossInvariant(Sizes(groups, visited), st, size, threads, per, coin);
  }

  lemma ProgressStep(groups: seq<seq<Line>>, visited: seq<nat>, threads: nat, per: nat, coin: Spreading.Coins,
                     st: Spreading.State, contents: seq<seq<Line>>, h: nat)
    requires Progress(groups, visited, threads, per, coin, st, contents) && h < |groups| && groups[h] != []
    ensures var tossed := Spreading.Toss(st, |groups[h]|, threads, per, coin);
      && tossed.cur < |contents|
      && Progress(groups, visited + [h], threads, per, coin, Spreading.Place(tossed, |groups[h]|, threads, per),
                  contents[tossed.cur := contents[tossed.cur] + groups[h]])
  {
    hide Gather, Spreading.Spread, Spreading.Invariant;
    var size := |groups[h]|;
    var tossed := Spreading.Toss(st, size, threads, per, coin);
    ProgressParts(groups, visited, threads, per, coin, st, contents, size);
    SizesSnoc(groups, visited, h);
    Spreading.SpreadSnoc(Sizes(groups, visited), size, threads, per, coin);
    Spreading.SpreadInvariant(Sizes(groups, visited + [h]), threads, per, coin);
    OwnersCount(Sizes(groups, visited), st, threads, per);
    forall w | 0 <= w < threads
      ensures contents[tossed.cur := contents[tossed.cur] + groups[h]][w]
           == Gather(groups, visited + [h], st.owners + [tossed.cur], w)
    {
      GatherSnoc(groups, visited, st.owners, h, tossed.cur, w);
    }
  }

  lemma OwnersCount(sizes: seq<nat>, st: Spreading.State, threads: nat, per: nat)
    requires Spreading.Invariant(sizes, st, threads, per)
    ensures |st.owners| == |sizes|
  {
  }

  lemma VisitsSnoc(visited: seq<nat>, k: nat)
    requires k < |visited|
    ensures visited[..k + 1] == visited[..k] + [visited[k]]
  {
  }

  // The workers' containers, before any container is visited.
  method CreateWorkers(threads: nat) returns (workers: Pool)
    ensures workers.Valid() && fresh(workers.Repr())
    ensures |workers.contents| == threads && forall w :: 0 <= w < threads ==> workers.contents[w] == []
  {
    workers := new Pool();
    for i := 0 to threads
      invariant workers.Valid() && fresh(workers.Repr())
      invariant |workers.contents| == i && forall w :: 0 <= w < i ==> workers.contents[w] == []
    {
      var _ := workers.Create();
    }
  }

  // hashmap_sort, for the walk that follows.
  method SortMap(m: HashMap, cmp: Compare, ghost infos: seq<TraceInfo>, ghost groups: seq<seq<Line>>)
    requires m.Valid() && !m.removable && Bounded(infos) && Grouped(infos, |infos|, m.Contents(), groups)
    modifies m`nodes, m.buckets
    ensures m.Listed() && |m.Contents()| == |m.nodes|
    ensures IsGrouping(infos, groups) && NoneEmpty(groups)
    ensures VisitsAll(Handles(m.Contents()), |groups|)
    ensures Handles(m.Contents()) == VisitOrder(cmp, m.hash, old(m.Contents()))
  {
    hide Grouped, IsGrouping, NoneEmpty, WellFormed, VisitsAll, Entries, EntriesOf, PayloadsFor, DistinctKeys, Payloads,
         SortList, Numbered;
    ValidParts(m.buckets[..], m.nodes, m.first, m.last, m.hash, m.removable);
    ghost var es, nodes := m.Contents(), m.nodes;
    ValidPayloads(m);
    GroupedIsGrouping(infos, es, groups);
    GroupingNoneEmpty(infos, groups);
    GroupedNumbered(infos, |infos|, es, groups);
    HashmapSort(m, cmp);
    RearrangedVisitsAll(es, m.Contents());
    SameBagLength(m.nodes, nodes);
    SameBagLength(m.Contents(), es);
    EntriesArePayloads(m.buckets[..], m.nodes);
  }

  lemma ValidPayloads(m: HashMap)
    requires m.Valid() && !m.removable
    ensures Within(m.nodes, |m.buckets[..]|)
    ensures Payloads(m.buckets[..], m.nodes) == PayloadsFor(m.Contents(), m.hash)
  {
    hide Entries, Chained, Occupied, DistinctKeys, Payloads, PayloadsFor;
    ValidParts(m.buckets[..], m.nodes, m.first, m.last, m.hash, m.removable);
    PayloadsOfEntries(m.buckets[..], m.nodes, m.hash);
  }

  // Where the walk over the list of the map stands after k buckets.
  ghost predicate Walked(m: HashMap, k: nat, current: int, destroyed: seq<nat>)
    reads m, m.buckets
  {
    && m.Listed() && |m.Contents()| == |m.nodes| && k <= |m.nodes|
    && current == (if k < |m.nodes| then m.nodes[k] else NULL)
    && destroyed == Handles(m.Contents())[..k]
  }

  lemma WalkAt(m: HashMap, k: nat, current: int, destroyed: seq<nat>, n: nat)
    requires Walked(m, k, current, destroyed) && VisitsAll(Handles(m.Contents()), n)
    ensures current != NULL ==> k < |m.nodes| && 0 <= current < m.buckets.Length
    ensures current != NULL ==> m.buckets[current].value < n
    ensures current != NULL ==> Walked(m, k + 1, m.buckets[current].next, destroyed + [m.buckets[current].value])
    ensures current == NULL ==> destroyed == Handles(m.Contents())
  {
    hide Entries;
    if current != NULL {
      EntriesAt(m.buckets[..], m.nodes, k);
      VisitsSnoc(Handles(m.Contents()), k);
    } else {
      assert k == |m.nodes|;
    }
  }

  // The walk over the sorted list.
  method WalkContainers(m: HashMap, pool: Pool, workers: Pool, threads: nat, per: nat, coin: Spreading.Coins)
    returns (destroyed: seq<nat>)
    requires threads > 0 && m.Listed() && |m.Contents()| == |m.nodes|
    requires VisitsAll(Handles(m.Contents()), |pool.contents|) && NoneEmpty(pool.contents) && pool.Valid()
    requires workers.Valid() && workers.Repr() !! pool.Repr() && workers.Repr() !! {m, m.buckets as object}
    requires |workers.contents| == threads && forall w :: 0 <= w < threads ==> workers.contents[w] == []
    modifies workers.Repr()
    ensures workers.Valid() && fresh(workers.Repr() - old(workers.Repr()))
    ensures destroyed == Handles(m.Contents())
    ensures SpreadOut(pool.contents, destroyed, threads, per, coin, workers.contents)
  {
    hide Pool.Valid, TraceContainer.Valid, TraceContainer.Contents, HashMap.Valid, HashMap.Listed, HashMap.Contents,
         Entries, Threaded, Distinct, Within, WellFormed, VisitsAll, NoneEmpty,
         Walked, Handles, Progress, SpreadOut, Gather, Sizes, Spreading.Spread, Spreading.Invariant;
    var current, cur, lines, drawn := m.first, 0, 0, 0;
    destroyed := [];
    ghost var st, k := Spreading.START, 0;
    ProgressStarts(pool.contents, threads, per, coin, workers.contents);
    WalkStarts(m);
    while current != NULL
      invariant Walked(m, k, current, destroyed) && k <= |m.nodes|
      invariant workers.Valid() && fresh(workers.Repr() - old(workers.Repr())) && pool.Valid()
      invariant workers.Repr() !! pool.Repr() && workers.Repr() !! {m, m.buckets as object}
      invariant st.cur == cur && st.lines == lines && st.coins == drawn
      invariant Progress(pool.contents, destroyed, threads, per, coin, st, workers.contents)
      decreases |m.nodes| - k
    {
      WalkAt(m, k, current, destroyed, |pool.contents|);
      var h := m.buckets[current].value;
      cur, lines, drawn, st := PlaceContainer(pool, workers, h, threads, per, coin, cur, lines, drawn, st, destroyed);
      destroyed := destroyed + [h];
      current := m.buckets[current].next;
      k := k + 1;
    }
    WalkAt(m, k, current, destroyed, |pool.contents|);
    ProgressEnds(pool.contents, destroyed, threads, per, coin, st, workers.contents);
  }

  lemma WalkStarts(m: HashMap)
    requires m.Listed() && |m.Contents()| == |m.nodes|
    ensures Walked(m, 0, m.first, [])
  {
  }

  lemma ProgressEnds(groups: seq<seq<Line>>, visited: seq<nat>, threads: nat, per: nat, coin: Spreading.Coins,
                     st: Spreading.State, contents: seq<seq<Line>>)
    requires Progress(groups, visited, threads, per, coin, st, contents)
    ensures SpreadOut(groups, visited, threads, per, coin, contents)
  {
  }

  // Whether to move on before a container of this size is placed.
  method TossCoin(size: nat, threads: nat, per: nat, coin: Spreading.Coins, cur0: nat, lines0: nat, drawn0: nat,
                  ghost owners: seq<nat>)
    returns (cur: nat, lines: nat, drawn: nat)
    requires threads > 0 && size > 0
    ensures Spreading.State(cur, lines, drawn, owners)
         == Spreading.Toss(Spreading.State(cur0, lines0, drawn0, owners), size, threads, per, coin)
  {
    cur, lines, drawn := cur0, lines0, drawn0;
    if cur != threads - 1 {
      if size + lines > per {
        var probability := (per - lines) * 100 / size;
        var r := coin(drawn);
        drawn := drawn + 1;
        if r % 100 < probability {
          cur, lines := cur + 1, 0;
        }
      }
    }
  }

  lemma ContainerAt(pool: Pool, h: nat)
    requires pool.Valid() && h < |pool.contents|
    ensures h < |pool.cs| && pool.cs[h].Valid() && pool.cs[h].Contents() == pool.contents[h]
    ensures pool.cs[h].size == |pool.contents[h]|
    ensures pool.cs[h] in pool.Repr() && pool.cs[h].infosMap in pool.Repr()
    ensures NoneEmpty(pool.contents) ==> pool.contents[h] != []
  {
  }

  // The lines of container h are appended to those of worker w.
  method GiveLines(pool: Pool, workers: Pool, h: nat, w: nat)
    requires pool.Valid() && h < |pool.contents| && workers.Valid() && w < |workers.contents|
    requires workers.Repr() !! pool.Repr()
    modifies workers.Repr()
    ensures workers.Valid() && fresh(workers.Repr() - old(workers.Repr()))
    ensures pool.Valid() && pool.contents == old(pool.contents)
    ensures workers.contents == old(workers.contents)[w := old(workers.contents[w]) + pool.contents[h]]
  {
    hide TraceContainer.Valid, TraceContainer.Contents;
    ContainerAt(pool, h);
    workers.AddCollection(w, pool.cs[h]);
  }

  // One round of the walk.
  method PlaceContainer(pool: Pool, workers: Pool, h: nat, threads: nat, per: nat, coin: Spreading.Coins,
                        cur0: nat, lines0: nat, drawn0: nat, ghost st0: Spreading.State, ghost visited: seq<nat>)
    returns (cur: nat, lines: nat, drawn: nat, ghost st: Spreading.State)
    requires threads > 0 && pool.Valid() && h < |pool.contents| && NoneEmpty(pool.contents)
    requires workers.Valid() && workers.Repr() !! pool.Repr()
    requires st0.cur == cur0 && st0.lines == lines0 && st0.coins == drawn0
    requires Progress(pool.contents, visited, threads, per, coin, st0, workers.contents)
    modifies workers.Repr()
    ensures workers.Valid() && fresh(workers.Repr() - old(workers.Repr()))
    ensures pool.Valid() && pool.contents == old(pool.contents)
    ensures st.cur == cur && st.lines == lines && st.coins == drawn
    ensures Progress(pool.contents, visited + [h], threads, per, coin, st, workers.contents)
  {
    hide Pool.Valid, TraceContainer.Valid, TraceContainer.Contents, NoneEmpty, Progress, Gather, Sizes,
         Spreading.Toss, Spreading.Spread, Spreading.Invariant;
    ContainerAt(pool, h);
    var size := pool.cs[h].size;
    cur, lines, drawn := TossCoin(size, threads, per, coin, cur0, lines0, drawn0, st0.owners);
    ProgressParts(pool.contents, visited, threads, per, coin, st0, workers.contents, size);
    ProgressStep(pool.contents, visited, threads, per, coin, st0, workers.contents, h);
    st := Spreading.Place(Spreading.Toss(st0, size, threads, per, coin), size, threads, per);
    GiveLines(pool, workers, h, cur);
    lines := lines + size;
    if cur != threads - 1 {
      if lines >= per {
        cur, lines := cur + 1, 0;
      }
    }
  }

  // Sorts the map, walks its list and hands every container to a worker.
  // `destroyed` lists the containers in the order in which they are visited,
  // added to a worker and freed.
  method SpreadContainers(m: HashMap, pool: Pool, infos: seq<TraceInfo>, threads: nat, coin: Spreading.Coins,
                          cmp: Compare)
    returns (workers: Pool, destroyed: seq<nat>)
    requires threads > 0 && m.Valid() && !m.removable
    requires pool.Valid() && {m, m.buckets as object} !! pool.Repr()
    requires Bounded(infos) && Grouped(infos, |infos|, m.Contents(), pool.contents)
    modifies m`nodes, m.buckets
    ensures workers.Valid() && fresh(workers.Repr())
    ensures VisitsAll(destroyed, |pool.contents|) && IsGrouping(infos, pool.contents)
    ensures destroyed == VisitOrder(cmp, m.hash, old(m.Contents()))
    ensures SpreadOut(pool.contents, destroyed, threads, PerThread(|infos|, threads), coin, workers.contents)
  {
    hide Pool.Valid, TraceContainer.Valid, TraceContainer.Contents, HashMap.Valid, HashMap.Listed, HashMap.Contents,
         Entries, Threaded, Distinct, Within, WellFormed, VisitsAll, NoneEmpty,
         IsGrouping, Grouped, Bounded, SpreadOut, Handles, VisitOrder;
    workers := CreateWorkers(threads);
    SortMap(m, cmp, infos, pool.contents);
    destroyed := WalkContainers(m, pool, workers, threads, PerThread(|infos|, threads), coin);
  }

  lemma GroupingNoneEmpty(infos: seq<TraceInfo>, groups: seq<seq<Line>>)
    requires IsGrouping(infos, groups)
    ensures NoneEmpty(groups)
  {
    hide LbaOf, Group, HasGroup;
  }
}
