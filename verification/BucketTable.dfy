// The bucket array of helper/map.c as a value: linear probing, and the list
// that is threaded through the buckets.  A pointer to a bucket is its index.
module BucketTable {
  import opened Bytes
  import opened Options

  // A key: the address the caller passed, and the bytes stored there.
  datatype KeyRef = KeyRef(addr: nat, bytes: seq<byte>)

  datatype Entry = Entry(key: KeyRef, value: nat)

  // struct bucket; ksize is the number of key bytes
  datatype Bucket = Bucket(next: int, key: Option<KeyRef>, hash: nat, value: nat)
  {
    // never used since the array was allocated
    predicate Free() { key.None? && value == 0 }

    predicate Live() { key.Some? }

    function ToEntry(): Entry
      requires Live()
    {
      Entry(key.value, value)
    }
  }

  const NULL: int := -1
  // `(struct bucket *)&m->first`, the imaginary bucket before the first one
  const HEAD: int := -2

  const EMPTY := Bucket(NULL, None, 0, 0)

  type Table = seq<Bucket>
  type HashFunction = seq<byte> -> nat

  // ----- probing -----

  function Start(hash: nat, capacity: nat): (i: nat)
    requires capacity > 0
    ensures i < capacity
  {
    hash % capacity
  }

  // `(index + 1) % m->capacity`
  function Next(index: nat, capacity: nat): (i: nat)
    requires index < capacity
    ensures i == if index + 1 == capacity then 0 else index + 1
  {
    (index + 1) % capacity
  }

  // Probing from `start` passes j before it reaches i.
  predicate Passes(start: nat, i: nat, j: nat)
  {
    if start <= i then start <= j < i else start <= j || j < i
  }

  // Steps from index to target.
  function Distance(index: nat, target: nat, capacity: nat): nat
    requires index < capacity && target < capacity
  {
    if index <= target then target - index else capacity - index + target
  }

  // Probing from `start` to `index` passes no free bucket.
  ghost predicate Crowded(tab: Table, start: nat, index: nat)
  {
    forall j :: 0 <= j < |tab| && Passes(start, index, j) ==> !tab[j].Free()
  }

  // No bucket between the home position of a key and its bucket is free.
  ghost predicate Reachable(tab: Table, i: nat)
    requires i < |tab|
  {
    Crowded(tab, Start(tab[i].hash, |tab|), i)
  }

  ghost predicate Chained(tab: Table)
  {
    forall i :: 0 <= i < |tab| && tab[i].Live() ==> Reachable(tab, i)
  }

  ghost predicate Hashed(tab: Table, hash: HashFunction)
  {
    forall i :: 0 <= i < |tab| && tab[i].Live() ==> tab[i].hash == hash(tab[i].key.value.bytes)
  }

  predicate Matches(b: Bucket, bytes: seq<byte>)
  {
    b.key.Some? && b.key.value.bytes == bytes
  }

  // Probing from `start` to `index` passes no bucket with this key.
  ghost predicate Missed(tab: Table, bytes: seq<byte>, start: nat, index: nat)
  {
    forall j :: 0 <= j < |tab| && Passes(start, index, j) ==> !Matches(tab[j], bytes)
  }

  // As long as there is a free bucket, a probe that does not stop comes closer
  // to it.
  lemma ProbeAdvances(tab: Table, start: nat, index: nat, free: nat)
    requires start < |tab| && index < |tab| && Crowded(tab, start, index) && !tab[index].Free()
    requires free < |tab| && tab[free].Free()
    ensures Crowded(tab, start, Next(index, |tab|))
    ensures Distance(Next(index, |tab|), free, |tab|) < Distance(index, free, |tab|)
    ensures forall j :: 0 <= j < |tab| && Passes(start, Next(index, |tab|), j) ==> j == index || Passes(start, index, j)
  {
    assert !Passes(start, index, free);
    var i := Next(index, |tab|);
    forall j | 0 <= j < |tab| && Passes(start, i, j)
      ensures !tab[j].Free()
    {
      assert j == index || Passes(start, index, j);
    }
  }

  // A probe that stops at a free bucket shows that the key is absent.
  lemma ProbeMisses(tab: Table, hash: HashFunction, bytes: seq<byte>, index: nat, k: nat)
    requires |tab| > 0 && Chained(tab) && Hashed(tab, hash)
    requires Missed(tab, bytes, Start(hash(bytes), |tab|), index) && index < |tab| && tab[index].Free()
    requires k < |tab|
    ensures !Matches(tab[k], bytes)
  {
  }

  // ----- the list -----

  ghost predicate Distinct(nodes: seq<nat>)
  {
    forall i, j :: 0 <= i < j < |nodes| ==> nodes[i] != nodes[j]
  }

  ghost predicate Within(nodes: seq<nat>, n: nat)
  {
    forall i :: 0 <= i < |nodes| ==> nodes[i] < n
  }

  function HeadOf(nodes: seq<nat>): int
  {
    if nodes == [] then NULL else nodes[0]
  }

  function LastOf(nodes: seq<nat>): int
  {
    if nodes == [] then HEAD else nodes[|nodes| - 1]
  }

  // The pointer that node i of the list must hold.
  function AfterOf(nodes: seq<nat>, i: nat): int
  {
    if i + 1 < |nodes| then nodes[i + 1] else NULL
  }

  // Following `next` from `first` visits exactly these buckets, once each, and
  // ends at NULL.
  ghost predicate Threaded(tab: Table, nodes: seq<nat>, first: int)
  {
    && Within(nodes, |tab|) && Distinct(nodes) && first == HeadOf(nodes)
    && forall i :: 0 <= i < |nodes| ==> tab[nodes[i]].next == AfterOf(nodes, i)
  }

  // The list visits all buckets that are in use and no others.
  ghost predicate Occupied(tab: Table, nodes: seq<nat>)
  {
    forall i :: 0 <= i < |tab| ==> (tab[i].Free() <==> i !in nodes)
  }

  // ----- entries -----

  // The live entries in list order.
  function Entries(tab: Table, nodes: seq<nat>): (es: seq<Entry>)
    requires Within(nodes, |tab|)
  {
    if nodes == [] then [] else
      var rest := Entries(tab, nodes[1..]);
      if tab[nodes[0]].Live() then [tab[nodes[0]].ToEntry()] + rest else rest
  }

  ghost predicate HasKey(es: seq<Entry>, bytes: seq<byte>)
  {
    exists i :: 0 <= i < |es| && es[i].key.bytes == bytes
  }

  ghost predicate DistinctKeys(es: seq<Entry>)
  {
    forall i, j :: 0 <= i < j < |es| ==> es[i].key.bytes != es[j].key.bytes
  }

  function Find(es: seq<Entry>, bytes: seq<byte>): Option<Entry>
  {
    if es == [] then None else if es[0].key.bytes == bytes then Some(es[0]) else Find(es[1..], bytes)
  }

  // The entry with this key gives way to e.
  function Replace(es: seq<Entry>, bytes: seq<byte>, e: Entry): (r: seq<Entry>)
    ensures |r| == |es|
  {
    if es == [] then []
    else if es[0].key.bytes == bytes then [e] + es[1..]
    else [es[0]] + Replace(es[1..], bytes, e)
  }

  function Without(es: seq<Entry>, bytes: seq<byte>): seq<Entry>
  {
    if es == [] then []
    else if es[0].key.bytes == bytes then es[1..]
    else [es[0]] + Without(es[1..], bytes)
  }

  lemma {:induction false} EntriesFrame(tab: Table, tab': Table, nodes: seq<nat>)
    requires Within(nodes, |tab|) && |tab'| == |tab|
    requires forall i :: 0 <= i < |nodes| ==>
               tab'[nodes[i]].key == tab[nodes[i]].key && tab'[nodes[i]].value == tab[nodes[i]].value
    ensures Entries(tab', nodes) == Entries(tab, nodes)
  {
    if nodes != [] {
      EntriesFrame(tab, tab', nodes[1..]);
    }
  }

  lemma {:induction false} EntriesAppend(tab: Table, s: seq<nat>, t: seq<nat>)
    requires Within(s, |tab|) && Within(t, |tab|)
    ensures Within(s + t, |tab|)
    ensures Entries(tab, s + t) == Entries(tab, s) + Entries(tab, t)
  {
    if s == [] {
      assert s + t == t;
    } else {
      assert s + t == [s[0]] + (s[1..] + t);
      EntriesAppend(tab, s[1..], t);
    }
  }

  lemma {:induction false} EntriesMember(tab: Table, nodes: seq<nat>, i: nat)
    requires Within(nodes, |tab|) && i < |nodes| && tab[nodes[i]].Live()
    ensures tab[nodes[i]].ToEntry() in Entries(tab, nodes)
  {
    if i > 0 {
      EntriesMember(tab, nodes[1..], i - 1);
    }
  }

  lemma {:induction false} EntriesCount(tab: Table, nodes: seq<nat>)
    requires Within(nodes, |tab|)
    ensures |Entries(tab, nodes)| <= |nodes|
    ensures (forall i :: 0 <= i < |nodes| ==> tab[nodes[i]].Live()) ==> |Entries(tab, nodes)| == |nodes|
  {
    if nodes != [] {
      EntriesCount(tab, nodes[1..]);
    }
  }

  lemma DistinctTail(es: seq<Entry>)
    requires DistinctKeys(es) && es != []
    ensures DistinctKeys(es[1..])
    ensures forall e :: e in es[1..] ==> e.key.bytes != es[0].key.bytes
  {
  }

  // The entries of the tail of the list, and the head's key among them.
  lemma EntriesTail(tab: Table, nodes: seq<nat>, i: nat)
    requires Within(nodes, |tab|) && 0 < i < |nodes| && tab[nodes[i]].Live()
    requires DistinctKeys(Entries(tab, nodes))
    ensures DistinctKeys(Entries(tab, nodes[1..]))
    ensures tab[nodes[0]].Live() ==> tab[nodes[0]].key.value.bytes != tab[nodes[i]].key.value.bytes
  {
    EntriesMember(tab, nodes[1..], i - 1);
    if tab[nodes[0]].Live() {
      DistinctTail(Entries(tab, nodes));
      assert Entries(tab, nodes)[1..] == Entries(tab, nodes[1..]);
    }
  }

  // A key found in a live bucket of the list is the entry that Find returns.
  lemma {:induction false} FindHit(tab: Table, nodes: seq<nat>, i: nat)
    requires Within(nodes, |tab|) && i < |nodes| && tab[nodes[i]].Live()
    requires DistinctKeys(Entries(tab, nodes))
    ensures Find(Entries(tab, nodes), tab[nodes[i]].key.value.bytes) == Some(tab[nodes[i]].ToEntry())
  {
    if i > 0 {
      EntriesTail(tab, nodes, i);
      FindHit(tab, nodes[1..], i - 1);
    }
  }

  lemma {:induction false} FindMiss(tab: Table, nodes: seq<nat>, bytes: seq<byte>)
    requires Within(nodes, |tab|)
    requires forall k :: 0 <= k < |tab| ==> !Matches(tab[k], bytes)
    ensures Find(Entries(tab, nodes), bytes) == None
  {
    if nodes != [] {
      FindMiss(tab, nodes[1..], bytes);
    }
  }

  lemma {:induction false} EntriesReplaced(tab: Table, nodes: seq<nat>, i: nat, b: Bucket)
    requires Within(nodes, |tab|) && Distinct(nodes) && i < |nodes| && tab[nodes[i]].Live()
    requires DistinctKeys(Entries(tab, nodes)) && b.Live()
    ensures Entries(tab[nodes[i] := b], nodes)
         == Replace(Entries(tab, nodes), tab[nodes[i]].key.value.bytes, b.ToEntry())
  {
    var tab' := tab[nodes[i] := b];
    if i == 0 {
      EntriesFrame(tab, tab', nodes[1..]);
    } else {
      EntriesTail(tab, nodes, i);
      EntriesReplaced(tab, nodes[1..], i - 1, b);
    }
  }

  lemma {:induction false} EntriesRemoved(tab: Table, nodes: seq<nat>, i: nat, b: Bucket)
    requires Within(nodes, |tab|) && Distinct(nodes) && i < |nodes| && tab[nodes[i]].Live()
    requires DistinctKeys(Entries(tab, nodes)) && !b.Live()
    ensures Entries(tab[nodes[i] := b], nodes) == Without(Entries(tab, nodes), tab[nodes[i]].key.value.bytes)
  {
    var tab' := tab[nodes[i] := b];
    if i == 0 {
      EntriesFrame(tab, tab', nodes[1..]);
    } else {
      EntriesTail(tab, nodes, i);
      EntriesRemoved(tab, nodes[1..], i - 1, b);
    }
  }

  // ----- abstract laws -----

  lemma {:induction false} ReplaceKeepsKeys(es: seq<Entry>, bytes: seq<byte>, e: Entry)
    requires e.key.bytes == bytes
    ensures forall i :: 0 <= i < |es| ==> Replace(es, bytes, e)[i].key.bytes == es[i].key.bytes
  {
    if es != [] && es[0].key.bytes != bytes {
      ReplaceKeepsKeys(es[1..], bytes, e);
    }
  }

  lemma {:induction false} FindNone(es: seq<Entry>, bytes: seq<byte>)
    ensures Find(es, bytes) == None <==> !HasKey(es, bytes)
  {
    if es != [] {
      FindNone(es[1..], bytes);
      HasKeyTail(es, bytes);
    }
  }

  lemma HasKeyTail(es: seq<Entry>, bytes: seq<byte>)
    requires es != []
    ensures HasKey(es, bytes) <==> es[0].key.bytes == bytes || HasKey(es[1..], bytes)
  {
    if HasKey(es, bytes) {
      var i :| 0 <= i < |es| && es[i].key.bytes == bytes;
      assert i > 0 ==> es[1..][i - 1] == es[i];
    }
    if HasKey(es[1..], bytes) {
      var i :| 0 <= i < |es[1..]| && es[1..][i].key.bytes == bytes;
      assert es[i + 1] == es[1..][i];
    }
  }

  lemma DistinctCons(e: Entry, es: seq<Entry>)
    ensures DistinctKeys([e] + es) <==> !HasKey(es, e.key.bytes) && DistinctKeys(es)
  {
    var all := [e] + es;
    assert forall i :: 0 <= i < |es| ==> all[i + 1] == es[i];
    if DistinctKeys(all) {
      forall i | 0 <= i < |es|
        ensures es[i].key.bytes != e.key.bytes
      {
        assert all[0] == e;
      }
      forall i, j | 0 <= i < j < |es|
        ensures es[i].key.bytes != es[j].key.bytes
      {
        assert all[i + 1].key.bytes != all[j + 1].key.bytes;
      }
    }
  }

  lemma {:induction false} WithoutKeys(es: seq<Entry>, bytes: seq<byte>, other: seq<byte>)
    requires HasKey(Without(es, bytes), other)
    ensures HasKey(es, other)
  {
    HasKeyTail(es, other);
    if es[0].key.bytes != bytes {
      var r := Without(es, bytes);
      HasKeyTail(r, other);
      if r[0].key.bytes != other {
        assert r[1..] == Without(es[1..], bytes);
        WithoutKeys(es[1..], bytes, other);
      }
    }
  }

  lemma {:induction false} WithoutKeepsDistinct(es: seq<Entry>, bytes: seq<byte>)
    requires DistinctKeys(es)
    ensures DistinctKeys(Without(es, bytes)) && !HasKey(Without(es, bytes), bytes)
    ensures |Without(es, bytes)| == if HasKey(es, bytes) then |es| - 1 else |es|
  {
    if es != [] {
      assert es == [es[0]] + es[1..];
      DistinctCons(es[0], es[1..]);
      HasKeyTail(es, bytes);
      if es[0].key.bytes != bytes {
        var r := Without(es[1..], bytes);
        WithoutKeepsDistinct(es[1..], bytes);
        if HasKey(r, es[0].key.bytes) {
          WithoutKeys(es[1..], bytes, es[0].key.bytes);
        }
        DistinctCons(es[0], r);
        assert ([es[0]] + r)[1..] == r;
        HasKeyTail([es[0]] + r, bytes);
      }
    }
  }

  // ----- fewer nodes than buckets -----

  function Drop(s: seq<nat>, x: nat): (r: seq<nat>)
    ensures |r| <= |s| && (x in s ==> |r| < |s|)
    ensures forall y :: y in r <==> y in s && y != x
  {
    if s == [] then [] else
      var rest := Drop(s[1..], x);
      assert forall y :: y in s <==> y == s[0] || y in s[1..];
      if s[0] == x then rest else [s[0]] + rest
  }

  lemma {:induction false} SomeAbsent(s: seq<nat>, n: nat) returns (f: nat)
    requires (forall y :: y in s ==> y < n) && |s| < n
    ensures f < n && f !in s
    decreases n
  {
    if n - 1 in s {
      f := SomeAbsent(Drop(s, n - 1), n - 1);
    } else {
      f := n - 1;
    }
  }
}
