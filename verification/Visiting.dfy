// The order in which assign_params_per_worker of helper/replay.c visits the
// containers: hashmap_sort rearranges the entries of the map, so that every
// container is visited exactly once.
module Visiting {
  import opened BucketTable
  import opened Gathering
  import opened Grouping
  import opened ListSort
  import opened ListSortSpec
  import opened Options
  import opened Sequences
  import opened Trace

  // The container handles stored in the entries.
  function Handles(es: seq<Entry>): (hs: seq<nat>)
    ensures |hs| == |es|
    ensures forall k :: 0 <= k < |es| ==> hs[k] == es[k].value
  {
    seq(|es|, k requires 0 <= k < |es| => es[k].value)
  }

  // The payloads that a map without tombstones keeps for these entries.
  function PayloadsFor(es: seq<Entry>, hash: HashFunction): seq<Payload>
  {
    seq(|es|, k requires 0 <= k < |es| => Payload(Some(es[k].key), hash(es[k].key.bytes), es[k].value))
  }

  // The order in which the handles are met once the map is sorted.
  function VisitOrder(cmp: Compare, hash: HashFunction, es: seq<Entry>): seq<nat>
  {
    Handles(EntriesOf(SortList(cmp, PayloadsFor(es, hash))))
  }

  lemma PayloadsOfEntries(tab: Table, nodes: seq<nat>, hash: HashFunction)
    requires Within(nodes, |tab|) && |Entries(tab, nodes)| == |nodes| && Hashed(tab, hash)
    ensures Payloads(tab, nodes) == PayloadsFor(Entries(tab, nodes), hash)
  {
    hide Entries;
    forall k | 0 <= k < |nodes|
      ensures Payloads(tab, nodes)[k] == PayloadsFor(Entries(tab, nodes), hash)[k]
    {
      EntriesAt(tab, nodes, k);
    }
  }

  // Entry k holds handle k.
  ghost predicate Numbered(es: seq<Entry>)
  {
    forall k :: 0 <= k < |es| ==> es[k].value == k
  }

  lemma CountOnce(es: seq<Entry>, v: nat)
    requires Numbered(es) && v < |es|
    ensures multiset(es)[es[v]] == 1
  {
    assert es == es[..v] + [es[v]] + es[v + 1..];
    assert es[v] !in es[..v] && es[v] !in es[v + 1..];
    assert multiset(es[..v])[es[v]] == 0 && multiset(es[v + 1..])[es[v]] == 0;
  }

  lemma InBoth(s: seq<Entry>, t: seq<Entry>, e: Entry)
    requires multiset(s) == multiset(t) && e in s
    ensures e in t
  {
    assert e in multiset(t);
  }

  // A rearrangement of numbered entries holds every handle once.
  lemma RearrangedVisitsAll(es: seq<Entry>, sorted: seq<Entry>)
    requires Numbered(es) && multiset(sorted) == multiset(es)
    ensures VisitsAll(Handles(sorted), |es|)
  {
    var hs := Handles(sorted);
    forall i | 0 <= i < |sorted|
      ensures hs[i] < |es| && sorted[i] == es[hs[i]]
    {
      InBoth(sorted, es, sorted[i]);
    }
    forall i, j | 0 <= i < j < |hs|
      ensures hs[i] != hs[j]
    {
      if hs[i] == hs[j] {
        CountTwice(sorted, i, j);
        CountOnce(es, hs[i]);
      }
    }
    forall h | 0 <= h < |es|
      ensures h in hs
    {
      InBoth(es, sorted, es[h]);
      var i :| 0 <= i < |sorted| && sorted[i] == es[h];
      assert hs[i] == h;
    }
  }

  lemma GroupedNumbered(infos: seq<TraceInfo>, n: nat, es: seq<Entry>, groups: seq<seq<Line>>)
    requires Grouped(infos, n, es, groups)
    ensures Numbered(es) && |es| == |groups|
  {
    hide LbaBytes, Group, DistinctKeys, HasKey;
    forall k | 0 <= k < |es|
      ensures es[k].value == k
    {
      assert GroupAt(infos, n, es[k], k, groups[k]);
    }
  }

  // On a list without tombstones the entries are those of the buckets, one for
  // one.
  lemma {:induction false} EntriesAt(tab: Table, nodes: seq<nat>, k: nat)
    requires Within(nodes, |tab|) && |Entries(tab, nodes)| == |nodes| && k < |nodes|
    ensures tab[nodes[k]].Live() && Entries(tab, nodes)[k] == tab[nodes[k]].ToEntry()
  {
    EntriesCount(tab, nodes[1..]);
    if k > 0 {
      EntriesAt(tab, nodes[1..], k - 1);
    }
  }
}
