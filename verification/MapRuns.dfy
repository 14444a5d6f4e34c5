// Every run of operations on the hash map of helper/map.c behaves like a finite
// map together with the list of its keys in insertion order.
module MapRuns {
  import opened BucketTable
  import opened Bytes
  import opened LinkedHashMap
  import opened Options

  type Key = seq<byte>

  // ----- the reference: a finite map and an order -----

  datatype Reference = Reference(m: map<Key, nat>, order: seq<Key>)

  datatype Op =
    | SetOp(key: KeyRef, value: nat)
    | SetFreeOp(key: KeyRef, value: nat)
    | GetSetOp(key: KeyRef, value: nat)
    | GetOp(bytes: Key)
    | RemoveOp(bytes: Key)

  // What a call returns: whether the key was there, and a value.
  datatype Reply = Reply(found: bool, value: nat)

  function Bind(r: Reference, k: Key, v: nat): Reference
  {
    Reference(r.m[k := v], if k in r.m then r.order else r.order + [k])
  }

  function Unbind(r: Reference, k: Key): Reference
  {
    Reference(r.m - {k}, DropKey(r.order, k))
  }

  function DropKey(order: seq<Key>, k: Key): seq<Key>
  {
    if order == [] then []
    else if order[0] == k then order[1..]
    else [order[0]] + DropKey(order[1..], k)
  }

  function Lookup(r: Reference, k: Key): Reply
  {
    if k in r.m then Reply(true, r.m[k]) else Reply(false, 0)
  }

  function Step(r: Reference, op: Op): (Reference, Reply)
  {
    match op
    case SetOp(key, value) => (Bind(r, key.bytes, value), Reply(true, value))
    case SetFreeOp(key, value) => (Bind(r, key.bytes, value), Lookup(r, key.bytes))
    case GetSetOp(key, value) =>
      if key.bytes in r.m then (r, Lookup(r, key.bytes)) else (Bind(r, key.bytes, value), Reply(false, value))
    case GetOp(bytes) => (r, Lookup(r, bytes))
    case RemoveOp(bytes) => (Unbind(r, bytes), Lookup(r, bytes))
  }

  function Run(ops: seq<Op>): (Reference, seq<Reply>)
  {
    if ops == [] then (Reference(map[], []), []) else
      var (r, replies) := Run(ops[..|ops| - 1]);
      var (r', reply) := Step(r, ops[|ops| - 1]);
      (r', replies + [reply])
  }

  // ----- entries as a reference map -----

  function ToMap(es: seq<Entry>): map<Key, nat>
  {
    if es == [] then map[] else ToMap(es[1..])[es[0].key.bytes := es[0].value]
  }

  function Keys(es: seq<Entry>): seq<Key>
  {
    seq(|es|, i requires 0 <= i < |es| => es[i].key.bytes)
  }

  function Abstract(es: seq<Entry>): Reference
  {
    Reference(ToMap(es), Keys(es))
  }

  lemma {:induction false} FindIsLookup(es: seq<Entry>, k: Key)
    ensures k in ToMap(es) <==> Find(es, k).Some?
    ensures k in ToMap(es) ==> ToMap(es)[k] == Find(es, k).value.value
  {
    if es != [] {
      FindIsLookup(es[1..], k);
    }
  }

  lemma {:induction false} ToMapAppend(es: seq<Entry>, e: Entry)
    requires e.key.bytes !in ToMap(es)
    ensures ToMap(es + [e]) == ToMap(es)[e.key.bytes := e.value]
    ensures Keys(es + [e]) == Keys(es) + [e.key.bytes]
  {
    if es == [] {
      assert es + [e] == [e];
      assert [e][1..] == [];
    } else {
      assert (es + [e])[1..] == es[1..] + [e];
      ToMapAppend(es[1..], e);
    }
  }

  lemma {:induction false} ToMapReplace(es: seq<Entry>, e: Entry)
    requires DistinctKeys(es) && Find(es, e.key.bytes).Some?
    ensures ToMap(Replace(es, e.key.bytes, e)) == ToMap(es)[e.key.bytes := e.value]
    ensures Keys(Replace(es, e.key.bytes, e)) == Keys(es)
  {
    ReplaceKeepsKeys(es, e.key.bytes, e);
    DistinctTail(es);
    if es[0].key.bytes != e.key.bytes {
      ToMapReplace(es[1..], e);
      assert ([es[0]] + Replace(es[1..], e.key.bytes, e))[1..] == Replace(es[1..], e.key.bytes, e);
    } else {
      assert ([e] + es[1..])[1..] == es[1..];
    }
  }

  lemma {:induction false} ToMapWithout(es: seq<Entry>, k: Key)
    requires DistinctKeys(es)
    ensures ToMap(Without(es, k)) == ToMap(es) - {k}
    ensures Keys(Without(es, k)) == DropKey(Keys(es), k)
  {
    if es != [] {
      DistinctTail(es);
      assert Keys(es)[1..] == Keys(es[1..]);
      if es[0].key.bytes != k {
        ToMapWithout(es[1..], k);
        var r := Without(es[1..], k);
        assert ([es[0]] + r)[1..] == r;
        assert Keys([es[0]] + r) == [es[0].key.bytes] + Keys(r);
      } else {
        FindNone(es[1..], k);
        FindIsLookup(es[1..], k);
      }
    }
  }

  // Each operation on the entries is the reference operation.
  lemma PutIsBind(es: seq<Entry>, key: KeyRef, value: nat)
    requires DistinctKeys(es)
    ensures Abstract(Put(es, key, value)) == Bind(Abstract(es), key.bytes, value)
    ensures Abstract(PutFree(es, key, value)) == Bind(Abstract(es), key.bytes, value)
    ensures Abstract(PutNew(es, key, value))
         == if key.bytes in ToMap(es) then Abstract(es) else Bind(Abstract(es), key.bytes, value)
  {
    FindIsLookup(es, key.bytes);
    match Find(es, key.bytes)
    case None =>
      ToMapAppend(es, Entry(key, value));
    case Some(e) =>
      FindKey(es, key.bytes);
      ToMapReplace(es, Entry(e.key, value));
      ToMapReplace(es, Entry(key, value));
  }

  lemma {:induction false} FindKey(es: seq<Entry>, k: Key)
    requires Find(es, k).Some?
    ensures Find(es, k).value.key.bytes == k
  {
    if es[0].key.bytes != k {
      FindKey(es[1..], k);
    }
  }

  // Which key pointer stays: `Put` keeps that of the entry it overwrites,
  // `PutFree` stores the new one, and neither touches other keys.
  lemma FindAfterPut(es: seq<Entry>, key: KeyRef, value: nat, k: Key)
    requires DistinctKeys(es)
    ensures Find(Put(es, key, value), k)
         == if k != key.bytes then Find(es, k)
            else Some(Entry(match Find(es, k) case Some(e) => e.key case None => key, value))
    ensures Find(PutFree(es, key, value), k) == if k == key.bytes then Some(Entry(key, value)) else Find(es, k)
  {
    match Find(es, key.bytes)
    case None =>
      FindAppended(es, Entry(key, value), k);
    case Some(e) =>
      FindKey(es, key.bytes);
      FindReplaced(es, Entry(e.key, value), k);
      FindReplaced(es, Entry(key, value), k);
  }

  lemma {:induction false} FindAppended(es: seq<Entry>, e: Entry, k: Key)
    requires Find(es, e.key.bytes).None?
    ensures Find(es + [e], k) == if k == e.key.bytes then Some(e) else Find(es, k)
  {
    if es == [] {
      assert es + [e] == [e];
    } else {
      assert (es + [e])[1..] == es[1..] + [e];
      FindAppended(es[1..], e, k);
    }
  }

  lemma {:induction false} FindReplaced(es: seq<Entry>, e: Entry, k: Key)
    requires Find(es, e.key.bytes).Some?
    ensures Find(Replace(es, e.key.bytes, e), k) == if k == e.key.bytes then Some(e) else Find(es, k)
  {
    if es[0].key.bytes != e.key.bytes {
      FindReplaced(es[1..], e, k);
      assert ([es[0]] + Replace(es[1..], e.key.bytes, e))[1..] == Replace(es[1..], e.key.bytes, e);
    } else {
      assert ([e] + es[1..])[1..] == es[1..];
    }
  }

  lemma WithoutIsUnbind(es: seq<Entry>, k: Key)
    requires DistinctKeys(es)
    ensures Abstract(Without(es, k)) == Unbind(Abstract(es), k)
  {
    ToMapWithout(es, k);
  }

  // ----- whole runs -----

  method Perform(m: HashMap, op: Op) returns (reply: Reply)
    requires m.Valid() && (op.RemoveOp? ==> m.removable)
    modifies m, m.buckets
    ensures m.Valid() && (m.buckets == old(m.buckets) || fresh(m.buckets))
    ensures (Abstract(m.Contents()), reply) == Step(old(Abstract(m.Contents())), op)
  {
    hide WellFormed, Put, PutFree, PutNew, Without, ToMap, Keys;
    ghost var es := m.Contents();
    ValidParts(m.buckets[..], m.nodes, m.first, m.last, m.hash, m.removable);
    match op
    case SetOp(key, value) =>
      PutIsBind(es, key, value);
      m.Set(key, value);
      reply := Reply(true, value);
    case SetFreeOp(key, value) =>
      PutIsBind(es, key, value);
      FindIsLookup(es, key.bytes);
      var freed := m.SetFree(key, value);
      reply := match freed case Some(e) => Reply(true, e.value) case None => Reply(false, 0);
    case GetSetOp(key, value) =>
      PutIsBind(es, key, value);
      FindIsLookup(es, key.bytes);
      var existed, out := m.GetSet(key, value);
      FindIsLookup(m.Contents(), key.bytes);
      reply := Reply(existed, out);
    case GetOp(bytes) =>
      FindIsLookup(es, bytes);
      var found, out := m.Get(bytes);
      reply := Reply(found, out);
    case RemoveOp(bytes) =>
      WithoutIsUnbind(es, bytes);
      FindIsLookup(es, bytes);
      var freed := m.RemoveFree(bytes);
      reply := match freed case Some(e) => Reply(true, e.value) case None => Reply(false, 0);
  }

  // Whatever the operations and the hash function, across any number of resizes
  // and with or without removal, a fresh map answers every call like the
  // reference, and ends with the same keys in the same order.
  method RunOps(removable: bool, hash: HashFunction, ops: seq<Op>) returns (replies: seq<Reply>, seen: seq<Entry>)
    requires forall i :: 0 <= i < |ops| && ops[i].RemoveOp? ==> removable
    ensures replies == Run(ops).1
    ensures Abstract(seen) == Run(ops).0
  {
    hide Step, ToMap, Keys;
    var m := new HashMap(removable, hash);
    replies := [];
    EmptyRun();
    for i := 0 to |ops|
      invariant m.Valid() && fresh(m) && fresh(m.buckets) && m.removable == removable
      invariant (Abstract(m.Contents()), replies) == Run(ops[..i])
    {
      assert ops[..i + 1][..i] == ops[..i];
      var reply := Perform(m, ops[i]);
      replies := replies + [reply];
    }
    assert ops[..|ops|] == ops;
    seen := m.Iterate();
  }

  lemma EmptyRun()
    ensures Run([]) == (Abstract([]), [])
  {
    assert Keys([]) == [];
  }
}
