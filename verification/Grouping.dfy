// build_trace_containers of helper/replay.c: one container for every lba, found
// through the hash map by the bytes of the lba.
module Grouping {
  import opened BucketTable
  import opened Bytes
  import opened LinkedHashMap
  import opened Options
  import opened StableSort
  import opened Trace

  // ----- keys -----

  // The bytes of an `unsigned long` in memory.
  function LittleEndian(v: nat, n: nat): (b: seq<byte>)
    ensures |b| == n
  {
    if n == 0 then [] else [v % 256] + LittleEndian(v / 256, n - 1)
  }

  function Pow256(n: nat): nat
  {
    if n == 0 then 1 else 256 * Pow256(n - 1)
  }

  lemma {:induction false} LittleEndianInjective(v: nat, w: nat, n: nat)
    requires v < Pow256(n) && w < Pow256(n) && LittleEndian(v, n) == LittleEndian(w, n)
    ensures v == w
  {
    if n > 0 {
      var a, b := LittleEndian(v, n), LittleEndian(w, n);
      assert a[0] == v % 256 && b[0] == w % 256;
      assert a[1..] == LittleEndian(v / 256, n - 1) && b[1..] == LittleEndian(w / 256, n - 1);
      LittleEndianInjective(v / 256, w / 256, n - 1);
    }
  }

  function LbaBytes(lba: nat): seq<byte>
  {
    LittleEndian(lba, 8)
  }

  // The largest lba whose byte offset, `lba << 9`, is still a file offset.
  const LBA_LIMIT: nat := 0x40_0000_0000_0000

  ghost predicate Bounded(infos: seq<TraceInfo>)
  {
    forall i :: 0 <= i < |infos| ==> infos[i].lba < LBA_LIMIT
  }

  lemma LbaBytesInjective(v: nat, w: nat)
    requires v < LBA_LIMIT && w < LBA_LIMIT && LbaBytes(v) == LbaBytes(w)
    ensures v == w
  {
    assert Pow256(2) == 0x1_0000;
    assert Pow256(4) == 0x1_0000_0000;
    assert Pow256(6) == 0x1_0000_0000_0000;
    assert Pow256(8) == 0x1_0000_0000_0000_0000;
    LittleEndianInjective(v, w, 8);
  }

  // ----- groups -----

  function Range(n: nat): (s: seq<Line>)
    ensures |s| == n && forall i :: 0 <= i < n ==> s[i] == i
  {
    seq(n, i requires 0 <= i < n => i)
  }

  function OfLba(infos: seq<TraceInfo>, lba: nat): Line -> bool
  {
    (l: Line) => l < |infos| && infos[l].lba == lba
  }

  // The lines of one lba among the first n, in trace order.
  function Group(infos: seq<TraceInfo>, n: nat, lba: nat): seq<Line>
  {
    Keep(Range(n), OfLba(infos, lba))
  }

  lemma GroupGrows(infos: seq<TraceInfo>, n: nat, lba: nat)
    requires n < |infos|
    ensures Group(infos, n + 1, lba) == if infos[n].lba == lba then Group(infos, n, lba) + [n] else Group(infos, n, lba)
  {
    assert Range(n + 1) == Range(n) + [n];
    KeepAppend(Range(n), [n], OfLba(infos, lba));
    KeepOne(n, OfLba(infos, lba));
  }

  // One of the first n lines has this lba.
  predicate Seen(infos: seq<TraceInfo>, n: nat, lba: nat)
    requires n <= |infos|
  {
    exists l :: 0 <= l < n && infos[l].lba == lba
  }

  // The entries after n lines: one for the first line of every lba, numbered in
  // the order in which the lbas appear.
  function EntriesFor(infos: seq<TraceInfo>, n: nat): seq<Entry>
    requires n <= |infos|
  {
    if n == 0 then [] else
      var es, lba := EntriesFor(infos, n - 1), infos[n - 1].lba;
      if Seen(infos, n - 1, lba) then es else es + [Entry(KeyRef(n - 1, LbaBytes(lba)), |es|)]
  }

  // After n lines the map has one entry for every lba seen, under the bytes of
  // that lba; its value is the container with the lines of that lba.
  ghost predicate Grouped(infos: seq<TraceInfo>, n: nat, es: seq<Entry>, groups: seq<seq<Line>>)
  {
    && n <= |infos| && |es| == |groups| && DistinctKeys(es) && es == EntriesFor(infos, n)
    && (forall k :: 0 <= k < |es| ==> GroupAt(infos, n, es[k], k, groups[k]))
    && (forall l {:trigger HasKey(es, LbaBytes(infos[l].lba))} :: 0 <= l < n ==> HasKey(es, LbaBytes(infos[l].lba)))
  }

  ghost predicate GroupAt(infos: seq<TraceInfo>, n: nat, e: Entry, k: nat, group: seq<Line>)
    requires n <= |infos|
  {
    && e.value == k && e.key.addr < n && e.key.bytes == LbaBytes(infos[e.key.addr].lba)
    && group == Group(infos, n, infos[e.key.addr].lba)
  }

  lemma GroupedStarts(infos: seq<TraceInfo>)
    ensures Grouped(infos, 0, [], [])
  {
  }

  // A line has an entry exactly when its lba was seen.
  lemma FoundIsSeen(infos: seq<TraceInfo>, n: nat, es: seq<Entry>, groups: seq<seq<Line>>)
    requires Bounded(infos) && Grouped(infos, n, es, groups) && n < |infos|
    ensures Find(es, LbaBytes(infos[n].lba)).Some? <==> Seen(infos, n, infos[n].lba)
  {
    hide LbaBytes, EntriesFor, DistinctKeys;
    var lba := infos[n].lba;
    FindNone(es, LbaBytes(lba));
    if HasKey(es, LbaBytes(lba)) {
      var k :| 0 <= k < |es| && es[k].key.bytes == LbaBytes(lba);
      assert GroupAt(infos, n, es[k], k, groups[k]);
      LbaBytesInjective(infos[es[k].key.addr].lba, lba);
    }
    if Seen(infos, n, lba) {
      var l :| 0 <= l < n && infos[l].lba == lba;
      assert HasKey(es, LbaBytes(infos[l].lba));
    }
  }

  // A line whose lba has no entry yet.
  lemma GroupedNew(infos: seq<TraceInfo>, n: nat, es: seq<Entry>, groups: seq<seq<Line>>, e: Entry)
    requires Bounded(infos) && Grouped(infos, n, es, groups) && n < |infos|
    requires Find(es, LbaBytes(infos[n].lba)) == None
    requires e == Entry(KeyRef(n, LbaBytes(infos[n].lba)), |groups|)
    ensures Grouped(infos, n + 1, es + [e], groups + [[n]])
  {
    var lba := infos[n].lba;
    FindNone(es, LbaBytes(lba));
    FoundIsSeen(infos, n, es, groups);
    DistinctSnoc(es, e);
    forall k | 0 <= k < |es|
      ensures GroupAt(infos, n + 1, es[k], k, groups[k])
    {
      GroupGrows(infos, n, infos[es[k].key.addr].lba);
    }
    GroupGrows(infos, n, lba);
    forall l | 0 <= l < n
      ensures infos[l].lba != lba
    {
      assert HasKey(es, LbaBytes(infos[l].lba));
    }
    KeepNone(Range(n), OfLba(infos, lba));
    KeysAppend(infos, n, es, e);
  }

  lemma KeysAppend(infos: seq<TraceInfo>, n: nat, es: seq<Entry>, e: Entry)
    requires n < |infos| && e.key.bytes == LbaBytes(infos[n].lba)
    requires forall l :: 0 <= l < n ==> HasKey(es, LbaBytes(infos[l].lba))
    ensures forall l :: 0 <= l < n + 1 ==> HasKey(es + [e], LbaBytes(infos[l].lba))
  {
    var all := es + [e];
    forall l | 0 <= l < n + 1
      ensures HasKey(all, LbaBytes(infos[l].lba))
    {
      if l < n {
        assert HasKey(es, LbaBytes(infos[l].lba));
        var i :| 0 <= i < |es| && es[i].key.bytes == LbaBytes(infos[l].lba);
        assert all[i].key.bytes == LbaBytes(infos[l].lba);
      } else {
        assert all[|es|].key.bytes == LbaBytes(infos[l].lba);
      }
    }
  }

  // A line whose lba has an entry.
  lemma GroupedOld(infos: seq<TraceInfo>, n: nat, es: seq<Entry>, groups: seq<seq<Line>>, e: Entry)
    requires Bounded(infos) && Grouped(infos, n, es, groups) && n < |infos|
    requires Find(es, LbaBytes(infos[n].lba)) == Some(e)
    ensures e.value < |groups|
    ensures Grouped(infos, n + 1, es, groups[e.value := groups[e.value] + [n]])
  {
    var lba := infos[n].lba;
    var i := FindIndex(es, LbaBytes(lba));
    FoundIsSeen(infos, n, es, groups);
    LbaBytesInjective(infos[e.key.addr].lba, lba);
    forall k | 0 <= k < |es|
      ensures GroupAt(infos, n + 1, es[k], k, groups[e.value := groups[e.value] + [n]][k])
    {
      GroupGrows(infos, n, infos[es[k].key.addr].lba);
      if k != i {
        assert es[k].key.bytes != es[i].key.bytes;
      }
    }
    assert es[i].key.bytes == LbaBytes(lba);
  }

  lemma {:induction false} FindIndex(es: seq<Entry>, bytes: seq<byte>) returns (i: nat)
    requires Find(es, bytes).Some?
    ensures i < |es| && es[i] == Find(es, bytes).value && es[i].key.bytes == bytes
  {
    if es[0].key.bytes == bytes {
      i := 0;
    } else {
      i := FindIndex(es[1..], bytes);
      i := i + 1;
    }
  }

  // The containers after n lines.
  function GroupsFor(infos: seq<TraceInfo>, n: nat): (groups: seq<seq<Line>>)
    requires n <= |infos|
    ensures |groups| == |EntriesFor(infos, n)|
  {
    var es := EntriesFor(infos, n);
    seq(|es|, k requires 0 <= k < |es| => Group(infos, n, LbaAt(infos, es[k].key.addr)))
  }

  function LbaAt(infos: seq<TraceInfo>, l: Line): nat
  {
    if l < |infos| then infos[l].lba else 0
  }

  lemma GroupedGroups(infos: seq<TraceInfo>, n: nat, es: seq<Entry>, groups: seq<seq<Line>>)
    requires Grouped(infos, n, es, groups)
    ensures es == EntriesFor(infos, n) && groups == GroupsFor(infos, n)
  {
    hide EntriesFor, Group, LbaBytes, DistinctKeys;
    forall k | 0 <= k < |groups|
      ensures groups[k] == GroupsFor(infos, n)[k]
    {
      assert GroupAt(infos, n, es[k], k, groups[k]);
    }
  }

  // Map and containers after n lines are determined by the trace.
  lemma {:induction false} GroupedFor(infos: seq<TraceInfo>, n: nat)
    requires Bounded(infos) && n <= |infos|
    ensures Grouped(infos, n, EntriesFor(infos, n), GroupsFor(infos, n))
  {
    hide Grouped, GroupsFor, LbaBytes;
    if n == 0 {
      GroupedStarts(infos);
      GroupedGroups(infos, 0, [], []);
    } else {
      var es, groups := EntriesFor(infos, n - 1), GroupsFor(infos, n - 1);
      var bytes := LbaBytes(infos[n - 1].lba);
      GroupedFor(infos, n - 1);
      FoundIsSeen(infos, n - 1, es, groups);
      if Find(es, bytes).Some? {
        var e := Find(es, bytes).value;
        GroupedOld(infos, n - 1, es, groups, e);
        GroupedGroups(infos, n, es, groups[e.value := groups[e.value] + [n - 1]]);
      } else {
        var e := Entry(KeyRef(n - 1, bytes), |groups|);
        GroupedNew(infos, n - 1, es, groups, e);
        GroupedGroups(infos, n, es + [e], groups + [[n - 1]]);
      }
    }
  }
}
