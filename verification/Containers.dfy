// struct trace_container of helper/replay.c: a growing array of trace lines.
module Containers {
  import opened Splicing
  import opened StableSort
  import opened Trace
  import opened TraceSort

  const DEFAULT_COLLECTIONS_CAPACITY: nat := 64

  class TraceContainer {
    var infosMap: array<Line>
    var size: nat
    var capacity: nat

    ghost predicate Valid()
      reads this
    {
      size <= capacity == infosMap.Length && 0 < capacity
    }

    ghost function Contents(): seq<Line>
      requires Valid()
      reads this, infosMap
    {
      infosMap[..size]
    }

    // trace_container_create
    constructor (capacity: nat)
      requires capacity > 0
      ensures Valid() && fresh(infosMap) && Contents() == []
    {
      infosMap := new Line[capacity];
      size := 0;
      this.capacity := capacity;
    }

    // trace_container_add: the array is doubled when it is full
    method Add(info: Line)
      requires Valid()
      modifies this, infosMap
      ensures Valid() && (infosMap == old(infosMap) || fresh(infosMap))
      ensures Contents() == old(Contents()) + [info]
    {
      if size == capacity {
        Grow();
      }
      infosMap[size] := info;
      size := size + 1;
    }

    // realloc
    method Grow()
      requires Valid()
      modifies this
      ensures Valid() && fresh(infosMap) && capacity == 2 * old(capacity)
      ensures size == old(size) && Contents() == old(Contents())
    {
      capacity := capacity * 2;
      var larger := new Line[capacity];
      for i := 0 to size
        invariant larger.Length == capacity == 2 * infosMap.Length && size <= infosMap.Length
        invariant larger[..i] == infosMap[..i]
        invariant infosMap == old(infosMap) && size == old(size) && capacity == 2 * old(capacity)
      {
        larger[i] := infosMap[i];
      }
      infosMap := larger;
    }

    // trace_container_add_collection
    method AddCollection(other: TraceContainer)
      requires Valid() && other.Valid() && other != this && other.infosMap != infosMap
      modifies this, infosMap
      ensures Valid() && (infosMap == old(infosMap) || fresh(infosMap))
      ensures Contents() == old(Contents()) + other.Contents()
    {
      for i := 0 to other.size
        invariant Valid() && other.Valid() && (infosMap == old(infosMap) || fresh(infosMap))
        invariant other.infosMap != infosMap && other.Contents() == old(other.Contents())
        invariant Contents() == old(Contents()) + other.Contents()[..i]
      {
        Add(other.infosMap[i]);
      }
    }

    // trace_container_sort_infomap_by_ts.  For an empty container `tc->size - 1`
    // would be a huge unsigned number.
    method SortByTs(infos: seq<TraceInfo>)
      requires Valid() && size > 0
      modifies infosMap
      ensures Valid() && Contents() == MergeSort(infos, old(Contents()))
    {
      hide MergeSort;
      var temp := new Line[size];
      MergeSortArray(infos, infosMap, 0, size - 1, temp);
      SplicedPrefix(old(infosMap[..]), MergeSort(infos, old(infosMap[0..size])), size);
    }
  }

  // The containers a run allocates.  A `struct trace_container *` is the number
  // of its container here.
  class Pool {
    var cs: seq<TraceContainer>
    // the lines in each container
    ghost var contents: seq<seq<Line>>

    ghost function Arrays(): set<object>
      reads this, cs
    {
      set c | c in cs :: c.infosMap as object
    }

    ghost function Repr(): set<object>
      reads this, cs
    {
      {this as object} + (set c: TraceContainer | c in cs :: c as object) + Arrays()
    }

    // Valid containers that share nothing.
    ghost predicate Valid()
      reads this, cs, Arrays()
    {
      && |contents| == |cs|
      && (forall i :: 0 <= i < |cs| ==> cs[i].Valid() && cs[i].Contents() == contents[i])
      && (forall i, j :: 0 <= i < j < |cs| ==> cs[i] != cs[j] && cs[i].infosMap != cs[j].infosMap)
    }

    constructor ()
      ensures Valid() && contents == [] && cs == [] && fresh(Repr())
    {
      cs, contents := [], [];
    }

    // trace_container_create(DEFAULT_COLLECTIONS_CAPACITY, ...)
    method Create() returns (h: nat)
      requires Valid()
      modifies this
      ensures Valid() && fresh(Repr() - old(Repr()))
      ensures h == |old(contents)| && contents == old(contents) + [[]]
    {
      h := |cs|;
      var c := new TraceContainer(DEFAULT_COLLECTIONS_CAPACITY);
      cs := cs + [c];
      contents := contents + [[]];
    }

    // trace_container_add
    method AddLine(h: nat, info: Line)
      requires Valid() && h < |contents|
      modifies Repr()
      ensures Valid() && fresh(Repr() - old(Repr()))
      ensures contents == old(contents)[h := old(contents[h]) + [info]]
    {
      var c := cs[h];
      c.Add(info);
      contents := contents[h := contents[h] + [info]];
    }

    // trace_container_add_collection, of a container in another pool
    method AddCollection(h: nat, other: TraceContainer)
      requires Valid() && h < |contents| && other.Valid()
      requires other !in Repr() && other.infosMap !in Repr()
      modifies Repr()
      ensures Valid() && fresh(Repr() - old(Repr()))
      ensures contents == old(contents)[h := old(contents[h]) + other.Contents()]
    {
      var c := cs[h];
      c.AddCollection(other);
      contents := contents[h := contents[h] + other.Contents()];
    }

    // trace_container_sort_infomap_by_ts
    method SortByTs(h: nat, infos: seq<TraceInfo>)
      requires Valid() && h < |contents| && contents[h] != []
      modifies this`contents, Arrays()
      ensures Valid() && contents == old(contents)[h := MergeSort(infos, old(contents[h]))]
    {
      hide MergeSort;
      var c := cs[h];
      c.SortByTs(infos);
      contents := contents[h := MergeSort(infos, contents[h])];
    }
  }

  lemma SplicedPrefix(s: seq<Line>, b: seq<Line>, n: nat)
    requires |b| == n <= |s|
    ensures Splice(s, 0, b)[..n] == b
  {
  }
}
