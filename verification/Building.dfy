// The loop of build_trace_containers (helper/replay.c).  A container pointer,
// the value stored in the map, is the container's number in its pool.
module Building {
  import opened BucketTable
  import opened Containers
  import opened Grouping
  import opened LinkedHashMap
  import opened Options
  import opened Trace

  method BuildTraceContainers(m: HashMap, pool: Pool, infos: seq<TraceInfo>)
    requires m.Valid() && m.Contents() == [] && Bounded(infos)
    requires pool.Valid() && pool.contents == [] && {m, m.buckets as object} !! pool.Repr()
    modifies m, m.buckets, pool.Repr()
    ensures m.Valid() && (m.buckets == old(m.buckets) || fresh(m.buckets))
    ensures pool.Valid() && fresh(pool.Repr() - old(pool.Repr()))
    ensures {m, m.buckets as object} !! pool.Repr()
    ensures Grouped(infos, |infos|, m.Contents(), pool.contents)
  {
    hide Pool.Valid, TraceContainer.Valid, TraceContainer.Contents, HashMap.Contents, Entries, WellFormed, Grouped,
         Bounded, Distinct, AfterOf, HeadOf, LbaBytes, Find, Put;
    GroupedStarts(infos);
    for i := 0 to |infos|
      invariant m.Valid() && (m.buckets == old(m.buckets) || fresh(m.buckets))
      invariant pool.Valid() && fresh(pool.Repr() - old(pool.Repr()))
      invariant {m, m.buckets as object} !! pool.Repr()
      invariant Grouped(infos, i, m.Contents(), pool.contents)
    {
      PlaceLine(m, pool, infos, i);
    }
  }

  // One round of the loop.
  method PlaceLine(m: HashMap, pool: Pool, infos: seq<TraceInfo>, i: nat)
    requires m.Valid() && Bounded(infos) && i < |infos|
    requires pool.Valid() && {m, m.buckets as object} !! pool.Repr()
    requires Grouped(infos, i, m.Contents(), pool.contents)
    modifies m, m.buckets, pool.Repr()
    ensures m.Valid() && (m.buckets == old(m.buckets) || fresh(m.buckets))
    ensures pool.Valid() && fresh(pool.Repr() - old(pool.Repr()))
    ensures {m, m.buckets as object} !! pool.Repr()
    ensures Grouped(infos, i + 1, m.Contents(), pool.contents)
  {
    hide Pool.Valid, TraceContainer.Valid, TraceContainer.Contents, HashMap.Contents, Entries, WellFormed, Grouped,
         Bounded, Distinct, AfterOf, HeadOf, LbaBytes, Find, Put;
    ghost var es, groups := m.Contents(), pool.contents;
    var key := KeyRef(i, LbaBytes(infos[i].lba));
    var found, h := m.Get(key.bytes);
    if !found {
      GroupedNew(infos, i, es, groups, Entry(key, |groups|));
      h := NewContainer(m, pool, key);
    } else {
      GroupedOld(infos, i, es, groups, Find(es, key.bytes).value);
    }
    pool.AddLine(h, i);
    assert pool.contents == if found then groups[h := groups[h] + [i]] else groups + [[i]] by {
      Appended(groups, i);
    }
  }

  lemma Appended(groups: seq<seq<Line>>, i: Line)
    ensures (groups + [[]])[|groups| := (groups + [[]])[|groups|] + [i]] == groups + [[i]]
  {
    var none: seq<Line> := [];
    assert none + [i] == [i];
  }

  // A new, empty container is entered in the map under the bytes of its lba.
  method NewContainer(m: HashMap, pool: Pool, key: KeyRef) returns (h: nat)
    requires m.Valid() && Find(m.Contents(), key.bytes) == None
    requires pool.Valid() && {m, m.buckets as object} !! pool.Repr()
    modifies m, m.buckets, pool
    ensures m.Valid() && (m.buckets == old(m.buckets) || fresh(m.buckets))
    ensures pool.Valid() && fresh(pool.Repr() - old(pool.Repr())) && {m, m.buckets as object} !! pool.Repr()
    ensures h == |old(pool.contents)| && pool.contents == old(pool.contents) + [[]]
    ensures m.Contents() == old(m.Contents()) + [Entry(key, h)]
  {
    hide WellFormed, Entries;
    h := pool.Create();
    m.Set(key, h);
  }
}
