// The hash map of helper/map.c: open addressing with linear probing, threaded
// by a list in insertion order.  `removable` stands for the compile-time choice
// of __HASHMAP_REMOVABLE.
module LinkedHashMap {
  import opened BucketTable
  import opened Bytes
  import opened Options

  const DEFAULT_CAPACITY: nat := 20

  // ----- the abstract map: entries in insertion order -----

  // hashmap_set
  function Put(es: seq<Entry>, key: KeyRef, value: nat): (r: seq<Entry>)
  {
    match Find(es, key.bytes)
    case None => es + [Entry(key, value)]
    case Some(e) => Replace(es, key.bytes, Entry(e.key, value))
  }

  // hashmap_set_free: the key pointer is replaced too
  function PutFree(es: seq<Entry>, key: KeyRef, value: nat): (r: seq<Entry>)
  {
    match Find(es, key.bytes)
    case None => es + [Entry(key, value)]
    case Some(e) => Replace(es, key.bytes, Entry(key, value))
  }

  // hashmap_get_set: only an absent key changes the map
  function PutNew(es: seq<Entry>, key: KeyRef, value: nat): (r: seq<Entry>)
  {
    match Find(es, key.bytes)
    case None => es + [Entry(key, value)]
    case Some(e) => es
  }

  // ----- what holds between calls -----

  ghost predicate AllLive(tab: Table, nodes: seq<nat>)
    requires Within(nodes, |tab|)
  {
    forall i :: 0 <= i < |nodes| ==> tab[nodes[i]].Live()
  }

  ghost predicate WellFormed(tab: Table, nodes: seq<nat>, first: int, last: int, hash: HashFunction, removable: bool)
  {
    && |tab| > 0 && Threaded(tab, nodes, first) && last == LastOf(nodes)
    && Occupied(tab, nodes) && Chained(tab) && Hashed(tab, hash)
    && DistinctKeys(Entries(tab, nodes))
    && (removable || AllLive(tab, nodes))
  }

  // `m->last->next = idx` and the stores into the bucket at idx
  function Linked(tab: Table, last: int, idx: nat, b: Bucket): Table
    requires idx < |tab| && (last == HEAD || 0 <= last < |tab|)
  {
    (if last == HEAD then tab else tab[last := tab[last].(next := idx)])[idx := b]
  }

  // A new entry in the free bucket where its probe stopped.
  lemma Inserted(tab: Table, nodes: seq<nat>, first: int, last: int, hash: HashFunction, removable: bool,
                 idx: nat, b: Bucket)
    requires WellFormed(tab, nodes, first, last, hash, removable)
    requires idx < |tab| && tab[idx].Free()
    requires b.Live() && b.next == NULL && b.hash == hash(b.key.value.bytes)
    requires Crowded(tab, Start(b.hash, |tab|), idx)
    requires forall k :: 0 <= k < |tab| ==> !Matches(tab[k], b.key.value.bytes)
    ensures WellFormed(Linked(tab, last, idx, b), nodes + [idx],
                       if last == HEAD then idx else first, idx, hash, removable)
    ensures Entries(Linked(tab, last, idx, b), nodes + [idx]) == Entries(tab, nodes) + [b.ToEntry()]
  {
    hide Threaded, Occupied, Chained, Hashed, Linked, DistinctKeys;
    LinkedParts(tab, nodes, first, last, idx, b);
    var tab' := Linked(tab, last, idx, b);
    LinkedThreaded(tab, nodes, first, last, idx, b);
    LinkedChained(tab, tab', hash, idx, b);
    LinkedEntries(tab, nodes, tab', idx, b);
    FindMiss(tab, nodes, b.key.value.bytes);
    FindNone(Entries(tab, nodes), b.key.value.bytes);
    DistinctSnoc(Entries(tab, nodes), b.ToEntry());
  }

  // tab' is tab but for the bucket at idx, and `next` pointers.
  ghost predicate SameBut(tab: Table, tab': Table, idx: nat, b: Bucket)
  {
    && |tab'| == |tab| && idx < |tab| && tab'[idx] == b
    && forall k :: 0 <= k < |tab| && k != idx ==>
         tab'[k].key == tab[k].key && tab'[k].value == tab[k].value && tab'[k].hash == tab[k].hash
  }

  lemma LinkedParts(tab: Table, nodes: seq<nat>, first: int, last: int, idx: nat, b: Bucket)
    requires Threaded(tab, nodes, first) && last == LastOf(nodes) && Occupied(tab, nodes)
    requires idx < |tab| && tab[idx].Free()
    ensures Within(nodes, |tab|) && (last == HEAD || 0 <= last < |tab|)
    ensures idx !in nodes && SameBut(tab, Linked(tab, last, idx, b), idx, b)
    ensures AllLive(tab, nodes) && b.Live() ==>
              Within(nodes + [idx], |tab|) && AllLive(Linked(tab, last, idx, b), nodes + [idx])
  {
  }

  lemma LinkedThreaded(tab: Table, nodes: seq<nat>, first: int, last: int, idx: nat, b: Bucket)
    requires Threaded(tab, nodes, first) && last == LastOf(nodes) && Occupied(tab, nodes)
    requires idx < |tab| && tab[idx].Free() && !b.Free() && b.next == NULL
    requires last == HEAD || 0 <= last < |tab|
    ensures Threaded(Linked(tab, last, idx, b), nodes + [idx], if last == HEAD then idx else first)
    ensures Occupied(Linked(tab, last, idx, b), nodes + [idx])
  {
    var tab', all := Linked(tab, last, idx, b), nodes + [idx];
    assert idx !in nodes;
    forall i | 0 <= i < |all|
      ensures tab'[all[i]].next == AfterOf(all, i)
    {
      if i + 1 < |nodes| {
        assert all[i] != last;
      }
    }
    forall i | 0 <= i < |tab'|
      ensures tab'[i].Free() <==> i !in all
    {
      assert i in all <==> i in nodes || i == idx;
    }
  }

  lemma LinkedChained(tab: Table, tab': Table, hash: HashFunction, idx: nat, b: Bucket)
    requires SameBut(tab, tab', idx, b) && tab[idx].Free() && b.Live()
    requires Chained(tab) && Hashed(tab, hash) && b.hash == hash(b.key.value.bytes)
    requires Crowded(tab, Start(b.hash, |tab|), idx)
    ensures Chained(tab') && Hashed(tab', hash)
  {
    forall i | 0 <= i < |tab'| && tab'[i].Live()
      ensures Reachable(tab', i)
    {
      if i != idx {
        assert Reachable(tab, i);
      }
    }
  }

  lemma LinkedEntries(tab: Table, nodes: seq<nat>, tab': Table, idx: nat, b: Bucket)
    requires Within(nodes, |tab|) && idx !in nodes && SameBut(tab, tab', idx, b) && b.Live()
    ensures Within(nodes + [idx], |tab'|)
    ensures Entries(tab', nodes + [idx]) == Entries(tab, nodes) + [b.ToEntry()]
  {
    EntriesFrame(tab, tab', nodes);
    EntriesAppend(tab', nodes, [idx]);
    assert [idx][1..] == [];
    assert Entries(tab', [idx]) == [b.ToEntry()];
  }

  lemma DistinctSnoc(es: seq<Entry>, e: Entry)
    requires DistinctKeys(es) && !HasKey(es, e.key.bytes)
    ensures DistinctKeys(es + [e])
  {
  }

  // ----- changing a bucket in place -----

  // A live bucket gets a new value, and possibly a new pointer to the same key.
  lemma Overwritten(tab: Table, nodes: seq<nat>, first: int, last: int, hash: HashFunction, removable: bool,
                    idx: nat, b: Bucket)
    requires WellFormed(tab, nodes, first, last, hash, removable)
    requires idx < |tab| && tab[idx].Live() && b.Live()
    requires b.next == tab[idx].next && b.hash == tab[idx].hash && b.key.value.bytes == tab[idx].key.value.bytes
    ensures WellFormed(tab[idx := b], nodes, first, last, hash, removable)
    ensures Entries(tab[idx := b], nodes) == Replace(Entries(tab, nodes), b.key.value.bytes, b.ToEntry())
  {
    hide DistinctKeys, Chained, Hashed, Entries, Replace;
    var tab' := tab[idx := b];
    assert idx in nodes;
    var i :| 0 <= i < |nodes| && nodes[i] == idx;
    EntriesReplaced(tab, nodes, i, b);
    ReplaceKeepsDistinct(Entries(tab, nodes), b.key.value.bytes, b.ToEntry());
    InPlaceChained(tab, tab', hash, idx, b);
  }

  // A live bucket becomes a tombstone.
  lemma Buried(tab: Table, nodes: seq<nat>, first: int, last: int, hash: HashFunction, idx: nat, b: Bucket)
    requires WellFormed(tab, nodes, first, last, hash, true)
    requires idx < |tab| && tab[idx].Live() && b.key.None? && b.value != 0 && b.next == tab[idx].next
    ensures WellFormed(tab[idx := b], nodes, first, last, hash, true)
    ensures Entries(tab[idx := b], nodes) == Without(Entries(tab, nodes), tab[idx].key.value.bytes)
  {
    hide DistinctKeys, Chained, Hashed, Entries, Without;
    var tab' := tab[idx := b];
    assert idx in nodes;
    var i :| 0 <= i < |nodes| && nodes[i] == idx;
    EntriesRemoved(tab, nodes, i, b);
    WithoutKeepsDistinct(Entries(tab, nodes), tab[idx].key.value.bytes);
    InPlaceChained(tab, tab', hash, idx, b);
  }

  // Chains only depend on which buckets are free.
  lemma InPlaceChained(tab: Table, tab': Table, hash: HashFunction, idx: nat, b: Bucket)
    requires idx < |tab| && tab' == tab[idx := b] && tab[idx].Live() && !b.Free()
    requires b.Live() ==> b.hash == tab[idx].hash && b.key.value.bytes == tab[idx].key.value.bytes
    requires Chained(tab) && Hashed(tab, hash)
    ensures Chained(tab') && Hashed(tab', hash)
  {
    forall i | 0 <= i < |tab'| && tab'[i].Live()
      ensures Reachable(tab', i)
    {
      assert Reachable(tab, i);
    }
  }

  lemma ReplaceKeepsDistinct(es: seq<Entry>, bytes: seq<byte>, e: Entry)
    requires DistinctKeys(es) && e.key.bytes == bytes
    ensures DistinctKeys(Replace(es, bytes, e))
  {
    ReplaceKeepsKeys(es, bytes, e);
  }

  // ----- resizing -----

  // During a resize the list is a relocated prefix in the new table newTab, followed
  // by an untouched suffix in the old table oldTab; the pointer between them is the
  // `next` of the last relocated bucket, or m->first.
  ghost predicate HalfMoved(oldTab: Table, newTab: Table, moved: seq<nat>, rest: seq<nat>, first: int, last: int,
                            hash: HashFunction, es: seq<Entry>)
  {
    && |newTab| > 0 && Within(moved, |newTab|) && Distinct(moved) && last == LastOf(moved)
    && (moved != [] ==> first == moved[0])
    && (forall i :: 0 <= i < |moved| - 1 ==> newTab[moved[i]].next == moved[i + 1])
    && (if moved == [] then first else newTab[moved[|moved| - 1]].next) == HeadOf(rest)
    && Within(rest, |oldTab|) && (forall i :: 0 <= i < |rest| ==> oldTab[rest[i]].next == AfterOf(rest, i))
    && Occupied(newTab, moved) && AllLive(newTab, moved) && Chained(newTab)
    && Hashed(newTab, hash) && Hashed(oldTab, hash)
    && Entries(newTab, moved) + Entries(oldTab, rest) == es
  }

  lemma MoveStarts(oldTab: Table, nodes: seq<nat>, first: int, last: int, hash: HashFunction, removable: bool, n: nat)
    requires WellFormed(oldTab, nodes, first, last, hash, removable) && n > 0
    ensures HalfMoved(oldTab, seq(n, _ => EMPTY), [], nodes, first, HEAD, hash, Entries(oldTab, nodes))
  {
    var newTab := seq(n, _ => EMPTY);
    assert forall i :: 0 <= i < n ==> newTab[i] == EMPTY;
    assert Entries(newTab, []) + Entries(oldTab, nodes) == Entries(oldTab, nodes);
  }

  // The tombstone at the seam is dropped from the list.
  lemma MoveSkips(oldTab: Table, newTab: Table, moved: seq<nat>, rest: seq<nat>, first: int, last: int,
                  hash: HashFunction, es: seq<Entry>)
    requires HalfMoved(oldTab, newTab, moved, rest, first, last, hash, es)
    requires rest != [] && !oldTab[rest[0]].Live()
    ensures var next := oldTab[rest[0]].next;
      if last == HEAD then HalfMoved(oldTab, newTab, moved, rest[1..], next, last, hash, es)
      else 0 <= last < |newTab|
           && HalfMoved(oldTab, newTab[last := newTab[last].(next := next)], moved, rest[1..], first, last, hash, es)
  {
    var next := oldTab[rest[0]].next;
    assert next == HeadOf(rest[1..]);
    RestThreaded(oldTab, rest);
    if last != HEAD {
      var newTab' := newTab[last := newTab[last].(next := next)];
      NextOnly(newTab, newTab', moved, last, hash);
    }
  }

  lemma RestThreaded(oldTab: Table, rest: seq<nat>)
    requires Within(rest, |oldTab|) && rest != []
    requires forall i :: 0 <= i < |rest| ==> oldTab[rest[i]].next == AfterOf(rest, i)
    ensures Within(rest[1..], |oldTab|)
    ensures forall i :: 0 <= i < |rest[1..]| ==> oldTab[rest[1..][i]].next == AfterOf(rest[1..], i)
    ensures oldTab[rest[0]].next == HeadOf(rest[1..])
  {
    forall i | 0 <= i < |rest[1..]|
      ensures oldTab[rest[1..][i]].next == AfterOf(rest[1..], i)
    {
      assert rest[1..][i] == rest[i + 1];
    }
  }

  // Storing a `next` pointer changes nothing else.
  lemma NextOnly(newTab: Table, newTab': Table, moved: seq<nat>, last: nat, hash: HashFunction)
    requires last < |newTab| && Within(moved, |newTab|)
    requires exists next :: newTab' == newTab[last := newTab[last].(next := next)]
    ensures |newTab'| == |newTab| && Entries(newTab', moved) == Entries(newTab, moved)
    ensures Occupied(newTab, moved) ==> Occupied(newTab', moved)
    ensures AllLive(newTab, moved) ==> AllLive(newTab', moved)
    ensures Chained(newTab) ==> Chained(newTab')
    ensures Hashed(newTab, hash) ==> Hashed(newTab', hash)
  {
    EntriesFrame(newTab, newTab', moved);
    if Chained(newTab) {
      forall i | 0 <= i < |newTab'| && newTab'[i].Live()
        ensures Reachable(newTab', i)
      {
        assert Reachable(newTab, i);
      }
    }
  }

  // The entry at the seam is copied to the free bucket idx of the new table,
  // and the last relocated bucket is made to point there.
  lemma MoveEntry(oldTab: Table, newTab: Table, moved: seq<nat>, rest: seq<nat>, first: int, last: int,
                  hash: HashFunction, es: seq<Entry>, idx: nat)
    requires HalfMoved(oldTab, newTab, moved, rest, first, last, hash, es)
    requires rest != [] && oldTab[rest[0]].Live()
    requires idx < |newTab| && newTab[idx].Free() && Crowded(newTab, Start(oldTab[rest[0]].hash, |newTab|), idx)
    ensures last == HEAD || 0 <= last < |newTab|
    ensures HalfMoved(oldTab, Linked(newTab, last, idx, oldTab[rest[0]]), moved + [idx], rest[1..],
                      if last == HEAD then idx else first, idx, hash, es)
  {
    hide Chained, Hashed, Entries, Occupied, AllLive, Linked;
    var o := oldTab[rest[0]];
    RestThreaded(oldTab, rest);
    OldHash(oldTab, hash, rest[0]);
    MovedParts(newTab, moved, last, idx, o);
    var tab' := Linked(newTab, last, idx, o);
    MovedLinks(newTab, moved, first, last, idx, o);
    LinkedChained(newTab, tab', hash, idx, o);
    LinkedEntries(newTab, moved, tab', idx, o);
    EntriesHead(oldTab, rest);
    assert (Entries(newTab, moved) + [o.ToEntry()]) + Entries(oldTab, rest[1..])
        == Entries(newTab, moved) + ([o.ToEntry()] + Entries(oldTab, rest[1..]));
  }

  lemma MovedParts(newTab: Table, moved: seq<nat>, last: int, idx: nat, o: Bucket)
    requires Within(moved, |newTab|) && last == LastOf(moved) && Occupied(newTab, moved) && AllLive(newTab, moved)
    requires idx < |newTab| && newTab[idx].Free() && o.Live()
    ensures last == HEAD || 0 <= last < |newTab|
    ensures idx !in moved && Within(moved + [idx], |newTab|)
    ensures SameBut(newTab, Linked(newTab, last, idx, o), idx, o)
    ensures Occupied(Linked(newTab, last, idx, o), moved + [idx]) && AllLive(Linked(newTab, last, idx, o), moved + [idx])
  {
    var tab', all := Linked(newTab, last, idx, o), moved + [idx];
    forall i | 0 <= i < |tab'|
      ensures tab'[i].Free() <==> i !in all
    {
      assert i in all <==> i in moved || i == idx;
    }
  }

  lemma MovedLinks(newTab: Table, moved: seq<nat>, first: int, last: int, idx: nat, o: Bucket)
    requires Within(moved, |newTab|) && Distinct(moved) && last == LastOf(moved)
    requires moved != [] ==> first == moved[0]
    requires forall i :: 0 <= i < |moved| - 1 ==> newTab[moved[i]].next == moved[i + 1]
    requires idx < |newTab| && idx !in moved && (last == HEAD || 0 <= last < |newTab|)
    ensures var tab', all := Linked(newTab, last, idx, o), moved + [idx];
      && Distinct(all) && tab'[idx].next == o.next
      && (if last == HEAD then idx else first) == all[0]
      && forall i :: 0 <= i < |all| - 1 ==> all[i] < |tab'| && tab'[all[i]].next == all[i + 1]
  {
    var tab', all := Linked(newTab, last, idx, o), moved + [idx];
    forall i | 0 <= i < |all| - 1
      ensures tab'[all[i]].next == all[i + 1]
    {
      if i < |moved| - 1 {
        assert moved[i] != moved[|moved| - 1];
      }
    }
  }

  lemma OldHash(oldTab: Table, hash: HashFunction, i: nat)
    requires Hashed(oldTab, hash) && i < |oldTab| && oldTab[i].Live()
    ensures oldTab[i].hash == hash(oldTab[i].key.value.bytes)
  {
  }

  lemma EntriesHead(tab: Table, nodes: seq<nat>)
    requires Within(nodes, |tab|) && nodes != []
    ensures Within(nodes[1..], |tab|)
    ensures Entries(tab, nodes)
         == if tab[nodes[0]].Live() then [tab[nodes[0]].ToEntry()] + Entries(tab, nodes[1..])
            else Entries(tab, nodes[1..])
  {
  }

  // With nothing left in the old table the new one is complete.
  lemma MoveEnds(oldTab: Table, newTab: Table, moved: seq<nat>, first: int, last: int, hash: HashFunction,
                 es: seq<Entry>, removable: bool)
    requires HalfMoved(oldTab, newTab, moved, [], first, last, hash, es) && DistinctKeys(es)
    ensures WellFormed(newTab, moved, first, last, hash, removable)
    ensures Within(moved, |newTab|) && Entries(newTab, moved) == es && |moved| == |es|
  {
    assert Entries(oldTab, []) == [];
    assert Entries(newTab, moved) + [] == Entries(newTab, moved);
    EntriesCount(newTab, moved);
  }

  // ----- the map -----

  class HashMap {
    const removable: bool
    const hash: HashFunction
    var buckets: array<Bucket>
    var capacity: nat
    var count: nat
    var tombstoneCount: nat
    var first: int
    var last: int
    // the indices of the buckets on the list
    ghost var nodes: seq<nat>

    // The list part of the invariant, all that is left after a sort.
    ghost predicate Listed()
      reads this, buckets
    {
      && buckets.Length == capacity && Threaded(buckets[..], nodes, first)
      && count == |nodes| && tombstoneCount == |nodes| - |Contents()|
    }

    ghost predicate Valid()
      reads this, buckets
    {
      && WellFormed(buckets[..], nodes, first, last, hash, removable) && Listed()
      && DEFAULT_CAPACITY <= capacity && 4 * count <= 3 * capacity
    }

    ghost function Contents(): seq<Entry>
      requires Within(nodes, buckets.Length)
      reads this, buckets
    {
      Entries(buckets[..], nodes)
    }

    // hashmap_create
    constructor (removable: bool, hash: HashFunction)
      ensures Valid() && Contents() == [] && fresh(buckets) && capacity == 20
      ensures this.removable == removable && this.hash == hash
    {
      this.removable := removable;
      this.hash := hash;
      capacity := DEFAULT_CAPACITY;
      buckets := new Bucket[DEFAULT_CAPACITY](_ => EMPTY);
      count, tombstoneCount := 0, 0;
      first, last := NULL, HEAD;
      nodes := [];
    }

    // `m->last->next`
    function LastNext(): int
      requires last == HEAD || 0 <= last < buckets.Length
      reads this, buckets
    {
      if last == HEAD then first else buckets[last].next
    }

    // `m->last->next = target`
    method StoreLastNext(target: int)
      requires last == HEAD || 0 <= last < buckets.Length
      modifies this`first, buckets
      ensures first == if last == HEAD then target else old(first)
      ensures buckets[..] == if last == HEAD then old(buckets[..])
                             else old(buckets[..])[last := old(buckets[last]).(next := target)]
    {
      if last == HEAD {
        first := target;
      } else {
        buckets[last] := buckets[last].(next := target);
      }
    }

    // resize_entry: the new table has no tombstones, so any bucket without a
    // key is free.
    method ResizeEntry(oldEntry: Bucket, ghost moved: seq<nat>) returns (index: nat)
      requires 0 < capacity == buckets.Length && Within(moved, capacity) && |moved| < capacity
      requires Occupied(buckets[..], moved) && AllLive(buckets[..], moved)
      modifies buckets
      ensures index < capacity && old(buckets[..])[index].Free()
      ensures Crowded(old(buckets[..]), Start(oldEntry.hash, capacity), index)
      ensures buckets[..] == old(buckets[..])[index := oldEntry]
    {
      ghost var s := buckets[..];
      ghost var start := Start(oldEntry.hash, capacity);
      ghost var free := SomeAbsent(moved, capacity);
      assert s[free].Free();
      index := Start(oldEntry.hash, capacity);
      while buckets[index].key.Some?
        invariant index < capacity && Crowded(s, start, index) && buckets[..] == s
        decreases Distance(index, free, capacity)
      {
        ProbeAdvances(s, start, index, free);
        index := Next(index, capacity);
      }
      KeylessIsFree(s, moved, index);
      buckets[index] := oldEntry;
    }

    // One round of the resize loop.
    method Relocate(oldBuckets: array<Bucket>, ghost moved: seq<nat>, ghost rest: seq<nat>, ghost es: seq<Entry>)
      returns (ghost moved': seq<nat>)
      requires rest != [] && buckets != oldBuckets && 0 < capacity == buckets.Length && |moved| < capacity
      requires HalfMoved(oldBuckets[..], buckets[..], moved, rest, first, last, hash, es)
      modifies this`first, this`last, buckets
      ensures HalfMoved(oldBuckets[..], buckets[..], moved', rest[1..], first, last, hash, es)
      ensures |moved'| <= |moved| + 1
    {
      hide HalfMoved;
      ghost var oldTab, newTab := oldBuckets[..], buckets[..];
      SeamAt(oldTab, newTab, moved, rest, first, last, hash, es);
      var current := LastNext();
      if oldBuckets[current].key.None? {
        MoveSkips(oldTab, newTab, moved, rest, first, last, hash, es);
        StoreLastNext(oldBuckets[current].next);
        moved' := moved;
      } else {
        var entry := ResizeEntry(oldBuckets[current], moved);
        MoveEntry(oldTab, newTab, moved, rest, first, last, hash, es, entry);
        moved' := moved + [entry];
        StoreLastNext(entry);
        LinkedAfterCopy(newTab, last, entry, oldTab[rest[0]]);
        last := entry;
      }
    }

    // hashmap_resize: the list is walked once, every live entry moves to its
    // new bucket, tombstones are dropped.
    method Resize()
      requires Valid() && nodes != []
      modifies this, buckets
      ensures Valid() && fresh(buckets)
      ensures Contents() == old(Contents())
      ensures capacity == 2 * old(capacity) && 4 * (count + 1) <= 3 * capacity
      ensures tombstoneCount == 0
    {
      hide HalfMoved, WellFormed, Threaded, DistinctKeys, Entries, Occupied, AllLive;
      ValidParts(buckets[..], nodes, first, last, hash, removable);
      ghost var es := Contents();
      var oldBuckets := buckets;
      capacity := capacity * 2;
      buckets := new Bucket[capacity](_ => EMPTY);
      MoveStarts(oldBuckets[..], nodes, first, last, hash, removable, capacity);
      assert buckets[..] == seq(capacity, _ => EMPTY);
      last := HEAD;
      if removable {
        count := count - tombstoneCount;
        tombstoneCount := 0;
      }
      ghost var moved := RelocateAll(oldBuckets, nodes, es);
      MoveEnds(oldBuckets[..], buckets[..], moved, first, last, hash, es, removable);
      ValidParts(buckets[..], moved, first, last, hash, removable);
      nodes := moved;
    }

    // The loop of hashmap_resize, which assumes that the list is not empty.
    method RelocateAll(oldBuckets: array<Bucket>, ghost nodes0: seq<nat>, ghost es: seq<Entry>)
      returns (ghost moved: seq<nat>)
      requires nodes0 != [] && buckets != oldBuckets && |nodes0| < capacity == buckets.Length
      requires HalfMoved(oldBuckets[..], buckets[..], [], nodes0, first, last, hash, es)
      modifies this`first, this`last, buckets
      ensures HalfMoved(oldBuckets[..], buckets[..], moved, [], first, last, hash, es)
    {
      hide HalfMoved;
      ghost var rest := nodes0[1..];
      moved := Relocate(oldBuckets, [], nodes0, es);
      SeamAt(oldBuckets[..], buckets[..], moved, rest, first, last, hash, es);
      while LastNext() != NULL
        invariant HalfMoved(oldBuckets[..], buckets[..], moved, rest, first, last, hash, es)
        invariant last == HEAD || 0 <= last < buckets.Length
        invariant LastNext() == HeadOf(rest) && |moved| + |rest| <= |nodes0|
        decreases |rest|
      {
        moved := Relocate(oldBuckets, moved, rest, es);
        rest := rest[1..];
        SeamAt(oldBuckets[..], buckets[..], moved, rest, first, last, hash, es);
      }
      assert rest == [];
    }

    // find_entry: stops at the key, or at the free bucket that ends its chain.
    method FindEntry(bytes: seq<byte>) returns (index: nat)
      requires Valid()
      ensures index < capacity
      ensures Matches(buckets[index], bytes) || Vacant(buckets[..], bytes, index)
    {
      ghost var tab := buckets[..];
      var h := hash(bytes);
      ghost var free := SomeAbsent(nodes, capacity);
      assert tab[free].Free();
      index := Start(h, capacity);
      while !StopsAt(buckets[index], bytes, h)
        invariant index < capacity
        invariant Crowded(tab, Start(h, capacity), index) && Missed(tab, bytes, Start(h, capacity), index)
        decreases Distance(index, free, capacity)
      {
        KeepProbing(tab, nodes, bytes, index);
        ProbeAdvances(tab, Start(h, capacity), index, free);
        index := Next(index, capacity);
      }
      StopReason(tab, nodes, hash, bytes, index);
    }

    // The condition of the probing loop in either build.
    predicate StopsAt(b: Bucket, bytes: seq<byte>, h: nat)
    {
      || (if removable then b.key.None? && b.value == 0 else b.key.None?)
      || (b.key.Some? && |b.key.value.bytes| == |bytes| && b.hash == h && b.key.value.bytes == bytes)
    }

    // The bucket where the probe for this absent key ends.
    ghost predicate Vacant(tab: Table, bytes: seq<byte>, index: nat)
    {
      && index < |tab| && tab[index].Free() && Crowded(tab, Start(hash(bytes), |tab|), index)
      && forall k :: 0 <= k < |tab| ==> !Matches(tab[k], bytes)
    }

    lemma KeepProbing(tab: Table, nodes: seq<nat>, bytes: seq<byte>, index: nat)
      requires Within(nodes, |tab|) && Occupied(tab, nodes) && Hashed(tab, hash) && index < |tab|
      requires !StopsAt(tab[index], bytes, hash(bytes))
      ensures !tab[index].Free() && !Matches(tab[index], bytes)
    {
    }

    lemma StopReason(tab: Table, nodes: seq<nat>, hash: HashFunction, bytes: seq<byte>, index: nat)
      requires |tab| > 0 && hash == this.hash && Occupied(tab, nodes) && Chained(tab) && Hashed(tab, hash)
      requires Within(nodes, |tab|) && (removable || AllLive(tab, nodes))
      requires index < |tab| && StopsAt(tab[index], bytes, hash(bytes))
      requires Crowded(tab, Start(hash(bytes), |tab|), index) && Missed(tab, bytes, Start(hash(bytes), |tab|), index)
      ensures Matches(tab[index], bytes) || Vacant(tab, bytes, index)
    {
      if tab[index].key.None? {
        forall k | 0 <= k < |tab|
          ensures !Matches(tab[k], bytes)
        {
          ProbeMisses(tab, hash, bytes, index, k);
        }
      }
    }

    // What find_entry found, in terms of the entries.
    lemma FoundEntry(bytes: seq<byte>, index: nat)
      requires Valid() && index < capacity
      requires Matches(buckets[index], bytes) || Vacant(buckets[..], bytes, index)
      ensures Find(Contents(), bytes)
           == if buckets[index].Live() then Some(buckets[index].ToEntry()) else None
    {
      if Matches(buckets[index], bytes) {
        assert index in nodes;
        var i :| 0 <= i < |nodes| && nodes[i] == index;
        FindHit(buckets[..], nodes, i);
      } else {
        FindMiss(buckets[..], nodes, bytes);
      }
    }

    // The stores of a new entry: link it at the end of the list, fill it in.
    method StoreEntry(index: nat, key: KeyRef, value: nat)
      requires index < buckets.Length && (last == HEAD || (0 <= last < buckets.Length && last != index))
      modifies this`first, this`last, this`count, buckets
      ensures buckets[..] == Linked(old(buckets[..]), old(last), index, Bucket(NULL, Some(key), hash(key.bytes), value))
      ensures first == (if old(last) == HEAD then index else old(first)) && last == index
      ensures count == old(count) + 1
    {
      ghost var tab, last0 := buckets[..], last;
      StoreLastNext(index);
      last := index;
      buckets[index] := buckets[index].(next := NULL);
      count := count + 1;
      buckets[index] := buckets[index].(key := Some(key), hash := hash(key.bytes), value := value);
      LinkedBeforeFill(tab, last0, index, Bucket(NULL, Some(key), hash(key.bytes), value));
    }

    // A new entry goes into the bucket where the probe for its key ended.
    method AddEntry(index: nat, key: KeyRef, value: nat)
      requires Valid() && Vacant(buckets[..], key.bytes, index)
      requires 4 * (count + 1) <= 3 * capacity
      modifies this`first, this`last, this`count, this`nodes, buckets
      ensures Valid() && Contents() == old(Contents()) + [Entry(key, value)]
    {
      hide WellFormed, Entries, Chained, Hashed, DistinctKeys, Occupied, Threaded, Linked, AllLive;
      ghost var tab := buckets[..];
      ghost var b := Bucket(NULL, Some(key), hash(key.bytes), value);
      VacantParts(tab, nodes, first, last, hash, removable, key.bytes, index);
      Inserted(tab, nodes, first, last, hash, removable, index, b);
      StoreEntry(index, key, value);
      nodes := nodes + [index];
      ValidParts(buckets[..], nodes, first, last, hash, removable);
    }

    lemma VacantParts(tab: Table, nodes: seq<nat>, first: int, last: int, hash: HashFunction, removable: bool,
                      bytes: seq<byte>, index: nat)
      requires WellFormed(tab, nodes, first, last, hash, removable) && hash == this.hash
      requires Vacant(tab, bytes, index)
      ensures last == HEAD || (0 <= last < |tab| && last != index)
      ensures Within(nodes, |tab|)
      ensures last == HEAD <==> nodes == []
    {
    }

    // A live bucket of the list is overwritten in place.
    method OverwriteEntry(index: nat, key: KeyRef, value: nat)
      requires Valid() && index < capacity && Matches(buckets[index], key.bytes)
      modifies buckets
      ensures Valid() && Contents() == Replace(old(Contents()), key.bytes, Entry(key, value))
    {
      ghost var tab := buckets[..];
      buckets[index] := buckets[index].(key := Some(key), value := value);
      Overwritten(tab, nodes, first, last, hash, removable, index, buckets[index]);
    }

    // The load test in front of the inserting operations, in integers:
    // count + 1 > 0.75 * capacity.
    method MakeRoom()
      requires Valid()
      modifies this, buckets
      ensures Valid() && Contents() == old(Contents()) && (buckets == old(buckets) || fresh(buckets))
      ensures 4 * (count + 1) <= 3 * capacity
      ensures capacity == if 4 * (old(count) + 1) > 3 * old(capacity) then 2 * old(capacity) else old(capacity)
      ensures capacity == old(capacity) ==> buckets == old(buckets) && buckets[..] == old(buckets[..])
    {
      if 4 * (count + 1) > 3 * capacity {
        Resize();
      }
    }

    // hashmap_set
    method Set(key: KeyRef, value: nat)
      requires Valid()
      modifies this, buckets
      ensures Valid() && (buckets == old(buckets) || fresh(buckets))
      ensures Contents() == Put(old(Contents()), key, value)
    {
      hide WellFormed, Entries;
      MakeRoom();
      var entry := FindEntry(key.bytes);
      FoundEntry(key.bytes, entry);
      if buckets[entry].key.None? {
        AddEntry(entry, key, value);
      } else {
        OverwriteEntry(entry, buckets[entry].key.value, value);
      }
    }

    // hashmap_get_set: the value found, or the value that was put
    method GetSet(key: KeyRef, value: nat) returns (existed: bool, out: nat)
      requires Valid()
      modifies this, buckets
      ensures Valid() && (buckets == old(buckets) || fresh(buckets))
      ensures Contents() == PutNew(old(Contents()), key, value)
      ensures existed == Find(old(Contents()), key.bytes).Some?
      ensures Find(Contents(), key.bytes).Some? && out == Find(Contents(), key.bytes).value.value
    {
      hide WellFormed, Entries;
      MakeRoom();
      var entry := FindEntry(key.bytes);
      FoundEntry(key.bytes, entry);
      if buckets[entry].key.None? {
        ghost var es := Contents();
        AddEntry(entry, key, value);
        FindAppended(es, Entry(key, value));
        return false, value;
      }
      return true, buckets[entry].value;
    }

    // hashmap_set_free: `freed` is what the callback gets to see
    method SetFree(key: KeyRef, value: nat) returns (freed: Option<Entry>)
      requires Valid()
      modifies this, buckets
      ensures Valid() && (buckets == old(buckets) || fresh(buckets))
      ensures Contents() == PutFree(old(Contents()), key, value)
      ensures freed == Find(old(Contents()), key.bytes)
    {
      hide WellFormed, Entries;
      MakeRoom();
      var entry := FindEntry(key.bytes);
      FoundEntry(key.bytes, entry);
      if buckets[entry].key.None? {
        AddEntry(entry, key, value);
        return None;
      }
      freed := Some(Entry(buckets[entry].key.value, buckets[entry].value));
      OverwriteEntry(entry, key, value);
    }

    // hashmap_get: a missing key yields 0
    method Get(bytes: seq<byte>) returns (found: bool, out: nat)
      requires Valid()
      ensures found == Find(Contents(), bytes).Some?
      ensures out == if found then Find(Contents(), bytes).value.value else 0
    {
      hide WellFormed, Entries;
      var entry := FindEntry(bytes);
      FoundEntry(bytes, entry);
      return buckets[entry].key.Some?, buckets[entry].value;
    }

    // hashmap_remove_free; hashmap_remove is the same without the callback
    method RemoveFree(bytes: seq<byte>) returns (freed: Option<Entry>)
      requires Valid() && removable
      modifies this`tombstoneCount, buckets
      ensures Valid() && Contents() == Without(old(Contents()), bytes)
      ensures freed == Find(old(Contents()), bytes)
    {
      var entry := FindEntry(bytes);
      FoundEntry(bytes, entry);
      if buckets[entry].key.Some? {
        ghost var tab := buckets[..];
        freed := Some(Entry(buckets[entry].key.value, buckets[entry].value));
        buckets[entry] := buckets[entry].(key := None, value := 0xDEAD);
        tombstoneCount := tombstoneCount + 1;
        Buried(tab, nodes, first, last, hash, entry, buckets[entry]);
        FindNone(Entries(tab, nodes), bytes);
        WithoutKeepsDistinct(Entries(tab, nodes), bytes);
      } else {
        freed := None;
        WithoutAbsent(Contents(), bytes);
      }
    }

    // hashmap_size
    method Size() returns (n: int)
      requires Listed()
      ensures n == |Contents()|
    {
      n := count - tombstoneCount;
    }

    // hashmap_iterate: the entries in the order the callback sees them.  It
    // needs the list only, so it also works after a sort.
    method Iterate() returns (seen: seq<Entry>)
      requires Listed()
      ensures seen == Contents()
    {
      var current := first;
      seen := [];
      ghost var i := 0;
      EntriesNone(buckets[..]);
      while current != NULL
        invariant 0 <= i <= |nodes|
        invariant current == if i < |nodes| then nodes[i] else NULL
        invariant seen == Entries(buckets[..], nodes[..i])
        decreases |nodes| - i
      {
        VisitNode(buckets[..], nodes, i);
        if buckets[current].key.Some? {
          seen := seen + [Entry(buckets[current].key.value, buckets[current].value)];
        }
        current := buckets[current].next;
        i := i + 1;
      }
      assert nodes[..i] == nodes;
    }
  }

  lemma EntriesNone(tab: Table)
    ensures Entries(tab, []) == []
  {
  }

  lemma VisitNode(tab: Table, nodes: seq<nat>, i: nat)
    requires Within(nodes, |tab|) && i < |nodes|
    ensures Within(nodes[..i], |tab|) && Within(nodes[..i + 1], |tab|)
    ensures Entries(tab, nodes[..i + 1])
         == if tab[nodes[i]].Live() then Entries(tab, nodes[..i]) + [tab[nodes[i]].ToEntry()]
            else Entries(tab, nodes[..i])
  {
    assert nodes[..i + 1] == nodes[..i] + [nodes[i]];
    EntriesAppend(tab, nodes[..i], [nodes[i]]);
    assert [nodes[i]][1..] == [];
    assert Entries(tab, []) == [];
  }

  lemma {:induction false} FindAppended(es: seq<Entry>, e: Entry)
    requires Find(es, e.key.bytes) == None
    ensures Find(es + [e], e.key.bytes) == Some(e)
  {
    if es != [] {
      assert (es + [e])[1..] == es[1..] + [e];
      FindAppended(es[1..], e);
    }
  }

  lemma {:induction false} WithoutAbsent(es: seq<Entry>, bytes: seq<byte>)
    requires Find(es, bytes) == None
    ensures Without(es, bytes) == es
  {
    if es != [] {
      WithoutAbsent(es[1..], bytes);
    }
  }

  lemma LinkedBeforeFill(tab: Table, last: int, idx: nat, b: Bucket)
    requires idx < |tab| && (last == HEAD || (0 <= last < |tab| && last != idx))
    ensures var tab' := if last == HEAD then tab else tab[last := tab[last].(next := idx)];
      Linked(tab, last, idx, b) == tab'[idx := tab'[idx].(next := NULL)][idx := b]
  {
  }

  lemma ValidParts(tab: Table, nodes: seq<nat>, first: int, last: int, hash: HashFunction, removable: bool)
    requires WellFormed(tab, nodes, first, last, hash, removable)
    ensures Threaded(tab, nodes, first) && Within(nodes, |tab|) && DistinctKeys(Entries(tab, nodes))
    ensures |Entries(tab, nodes)| <= |nodes|
    ensures !removable ==> |Entries(tab, nodes)| == |nodes|
  {
    EntriesCount(tab, nodes);
  }

  lemma SeamAt(oldTab: Table, newTab: Table, moved: seq<nat>, rest: seq<nat>, first: int, last: int,
               hash: HashFunction, es: seq<Entry>)
    requires HalfMoved(oldTab, newTab, moved, rest, first, last, hash, es)
    ensures last == HEAD || (0 <= last < |newTab| && !newTab[last].Free())
    ensures (if last == HEAD then first else newTab[last].next) == HeadOf(rest)
    ensures Within(rest, |oldTab|) && Within(moved, |newTab|) && Occupied(newTab, moved) && AllLive(newTab, moved)
  {
  }

  // Copying the entry before or after storing the pointer to it is the same.
  lemma LinkedAfterCopy(newTab: Table, last: int, idx: nat, o: Bucket)
    requires idx < |newTab| && newTab[idx].Free() && (last == HEAD || (0 <= last < |newTab| && !newTab[last].Free()))
    ensures Linked(newTab, last, idx, o)
         == if last == HEAD then newTab[idx := o] else newTab[idx := o][last := newTab[idx := o][last].(next := idx)]
  {
  }

  lemma KeylessIsFree(tab: Table, moved: seq<nat>, i: nat)
    requires Within(moved, |tab|) && Occupied(tab, moved) && AllLive(tab, moved)
    requires i < |tab| && tab[i].key.None?
    ensures tab[i].Free()
  {
  }
}
