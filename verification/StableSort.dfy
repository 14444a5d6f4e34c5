// What it means to sort lines by timestamp stably, and the merge sort that
// does it.
module StableSort {
  import opened Sequences
  import opened Trace

  // The lines of s that satisfy p, in order.
  function Keep(s: seq<Line>, p: Line -> bool): seq<Line>
  {
    if s == [] then [] else (if p(s[0]) then [s[0]] else []) + Keep(s[1..], p)
  }

  function AtTs(infos: seq<TraceInfo>, t: nat): Line -> bool
  {
    (l: Line) => Ts(infos, l) == t
  }

  ghost predicate Sorted(infos: seq<TraceInfo>, s: seq<Line>)
  {
    forall i, j :: 0 <= i < j < |s| ==> Ts(infos, s[i]) <= Ts(infos, s[j])
  }

  // r has the lines of s by timestamp, and lines of one timestamp in the order
  // they have in s.
  ghost predicate StableSorted(infos: seq<TraceInfo>, s: seq<Line>, r: seq<Line>)
  {
    Sorted(infos, r) && forall t :: Keep(r, AtTs(infos, t)) == Keep(s, AtTs(infos, t))
  }

  // ----- merging -----

  function Merge(infos: seq<TraceInfo>, l: seq<Line>, r: seq<Line>): (m: seq<Line>)
    ensures |m| == |l| + |r|
  {
    if l == [] then r
    else if r == [] then l
    else if Ts(infos, l[0]) <= Ts(infos, r[0]) then [l[0]] + Merge(infos, l[1..], r)
    else [r[0]] + Merge(infos, l, r[1..])
  }

  function MergeSort(infos: seq<TraceInfo>, s: seq<Line>): (r: seq<Line>)
    ensures |r| == |s|
  {
    if |s| <= 1 then s else
      var half := (|s| + 1) / 2;
      Merge(infos, MergeSort(infos, s[..half]), MergeSort(infos, s[half..]))
  }

  // ----- Keep -----

  lemma {:induction false} KeepAppend(s: seq<Line>, u: seq<Line>, p: Line -> bool)
    ensures Keep(s + u, p) == Keep(s, p) + Keep(u, p)
  {
    hide Keep;
    if s == [] {
      assert s + u == u;
      KeepOne(0, p);
    } else {
      var head, rest := s[0], s[1..];
      assert s == [head] + rest && s + u == [head] + (rest + u);
      KeepAppend(rest, u, p);
      KeepCons(head, rest + u, p);
      KeepCons(head, rest, p);
      Associates(if p(head) then [head] else [], Keep(rest, p), Keep(u, p));
    }
  }

  lemma {:induction false} KeepMember(s: seq<Line>, p: Line -> bool, l: Line)
    ensures l in Keep(s, p) <==> l in s && p(l)
  {
    if s != [] {
      KeepMember(s[1..], p, l);
      assert l in s <==> l == s[0] || l in s[1..];
    }
  }

  lemma {:induction false} KeepNone(s: seq<Line>, p: Line -> bool)
    requires forall i :: 0 <= i < |s| ==> !p(s[i])
    ensures Keep(s, p) == []
  {
    if s != [] {
      KeepNone(s[1..], p);
    }
  }

  lemma {:induction false} KeepTwice(s: seq<Line>, p: Line -> bool, q: Line -> bool)
    ensures Keep(Keep(s, p), q) == Keep(Keep(s, q), p)
  {
    if s != [] {
      KeepTwice(s[1..], p, q);
      KeepAppend(if p(s[0]) then [s[0]] else [], Keep(s[1..], p), q);
      KeepAppend(if q(s[0]) then [s[0]] else [], Keep(s[1..], q), p);
      KeepOne(s[0], p);
      KeepOne(s[0], q);
    }
  }

  lemma KeepTail(s: seq<Line>, p: Line -> bool)
    requires s != []
    ensures p(s[0]) ==> Keep(s, p) != [] && Keep(s, p)[0] == s[0] && Keep(s, p)[1..] == Keep(s[1..], p)
    ensures !p(s[0]) ==> Keep(s, p) == Keep(s[1..], p)
  {
  }

  lemma KeepOne(l: Line, p: Line -> bool)
    ensures Keep([l], p) == if p(l) then [l] else []
    ensures Keep([], p) == []
  {
    assert [l][1..] == [];
  }

  // ----- the merge sort is a stable sort -----

  lemma {:induction false} MergeMember(infos: seq<TraceInfo>, l: seq<Line>, r: seq<Line>, x: Line)
    ensures x in Merge(infos, l, r) <==> x in l || x in r
  {
    if l != [] && r != [] {
      assert x in l <==> x == l[0] || x in l[1..];
      assert x in r <==> x == r[0] || x in r[1..];
      if Ts(infos, l[0]) <= Ts(infos, r[0]) {
        MergeMember(infos, l[1..], r, x);
      } else {
        MergeMember(infos, l, r[1..], x);
      }
    }
  }

  ghost predicate AtLeast(infos: seq<TraceInfo>, t: nat, s: seq<Line>)
  {
    forall x :: x in s ==> t <= Ts(infos, x)
  }

  lemma SortedCons(infos: seq<TraceInfo>, x: Line, s: seq<Line>)
    requires Sorted(infos, s) && AtLeast(infos, Ts(infos, x), s)
    ensures Sorted(infos, [x] + s)
  {
    var u := [x] + s;
    forall i, j | 0 <= i < j < |u|
      ensures Ts(infos, u[i]) <= Ts(infos, u[j])
    {
      assert u[j] == s[j - 1];
      assert s[j - 1] in s;
      if i > 0 {
        assert u[i] == s[i - 1];
      }
    }
  }

  lemma SortedHead(infos: seq<TraceInfo>, s: seq<Line>)
    requires Sorted(infos, s) && s != []
    ensures AtLeast(infos, Ts(infos, s[0]), s)
    ensures Sorted(infos, s[1..])
  {
  }

  lemma {:induction false} MergeSorted(infos: seq<TraceInfo>, l: seq<Line>, r: seq<Line>)
    requires Sorted(infos, l) && Sorted(infos, r)
    ensures Sorted(infos, Merge(infos, l, r))
  {
    if l != [] && r != [] {
      SortedHead(infos, l);
      SortedHead(infos, r);
      if Ts(infos, l[0]) <= Ts(infos, r[0]) {
        MergeSorted(infos, l[1..], r);
        forall x | x in Merge(infos, l[1..], r)
          ensures Ts(infos, l[0]) <= Ts(infos, x)
        {
          MergeMember(infos, l[1..], r, x);
        }
        SortedCons(infos, l[0], Merge(infos, l[1..], r));
      } else {
        MergeSorted(infos, l, r[1..]);
        forall x | x in Merge(infos, l, r[1..])
          ensures Ts(infos, r[0]) <= Ts(infos, x)
        {
          MergeMember(infos, l, r[1..], x);
        }
        SortedCons(infos, r[0], Merge(infos, l, r[1..]));
      }
    }
  }

  lemma {:induction false} MergeStable(infos: seq<TraceInfo>, l: seq<Line>, r: seq<Line>, t: nat)
    requires Sorted(infos, l)
    ensures Keep(Merge(infos, l, r), AtTs(infos, t)) == Keep(l, AtTs(infos, t)) + Keep(r, AtTs(infos, t))
  {
    var p := AtTs(infos, t);
    if l == [] || r == [] {
      assert Keep([], p) == [];
    } else if Ts(infos, l[0]) <= Ts(infos, r[0]) {
      SortedHead(infos, l);
      MergeStable(infos, l[1..], r, t);
      TakenLeft(l[0], l[1..], r, Merge(infos, l[1..], r), p);
      assert l == [l[0]] + l[1..];
    } else {
      MergeStable(infos, l, r[1..], t);
      // a line taken from the right is earlier than all that is left of l
      SortedHead(infos, l);
      if p(r[0]) {
        KeepNone(l, p);
      }
      TakenRight(r[0], l, r[1..], Merge(infos, l, r[1..]), p);
      assert r == [r[0]] + r[1..];
    }
  }

  lemma TakenLeft(x: Line, l: seq<Line>, r: seq<Line>, m: seq<Line>, p: Line -> bool)
    requires Keep(m, p) == Keep(l, p) + Keep(r, p)
    ensures Keep([x] + m, p) == Keep([x] + l, p) + Keep(r, p)
  {
    hide Keep;
    KeepCons(x, m, p);
    KeepCons(x, l, p);
    Associates(if p(x) then [x] else [], Keep(l, p), Keep(r, p));
  }

  lemma TakenRight(x: Line, l: seq<Line>, r: seq<Line>, m: seq<Line>, p: Line -> bool)
    requires Keep(m, p) == Keep(l, p) + Keep(r, p) && (p(x) ==> Keep(l, p) == [])
    ensures Keep([x] + m, p) == Keep(l, p) + Keep([x] + r, p)
  {
    hide Keep;
    KeepCons(x, m, p);
    KeepCons(x, r, p);
    assert p(x) ==> Keep(l, p) + Keep(r, p) == Keep(r, p);
  }

  lemma KeepCons(x: Line, s: seq<Line>, p: Line -> bool)
    ensures Keep([x] + s, p) == (if p(x) then [x] else []) + Keep(s, p)
  {
    assert ([x] + s)[1..] == s;
  }

  lemma {:induction false} MergeSortStable(infos: seq<TraceInfo>, s: seq<Line>)
    ensures StableSorted(infos, s, MergeSort(infos, s))
  {
    hide Keep, Merge;
    if |s| > 1 {
      var half := (|s| + 1) / 2;
      MergeSortStable(infos, s[..half]);
      MergeSortStable(infos, s[half..]);
      var l, r := MergeSort(infos, s[..half]), MergeSort(infos, s[half..]);
      MergeSorted(infos, l, r);
      forall t
        ensures Keep(Merge(infos, l, r), AtTs(infos, t)) == Keep(s, AtTs(infos, t))
      {
        HalvesStable(infos, s, half, l, r, t);
      }
    }
  }

  lemma HalvesStable(infos: seq<TraceInfo>, s: seq<Line>, half: nat, l: seq<Line>, r: seq<Line>, t: nat)
    requires half <= |s| && StableSorted(infos, s[..half], l) && StableSorted(infos, s[half..], r)
    ensures Keep(Merge(infos, l, r), AtTs(infos, t)) == Keep(s, AtTs(infos, t))
  {
    hide Keep, Merge;
    MergeStable(infos, l, r, t);
    assert s == s[..half] + s[half..];
    KeepAppend(s[..half], s[half..], AtTs(infos, t));
  }

  // ----- a stable sort is unique -----

  lemma KeepFirst(infos: seq<TraceInfo>, a: seq<Line>, b: seq<Line>)
    requires a != [] && Sorted(infos, b)
    requires forall t :: Keep(a, AtTs(infos, t)) == Keep(b, AtTs(infos, t))
    ensures b != [] && Ts(infos, b[0]) <= Ts(infos, a[0])
  {
    var p := AtTs(infos, Ts(infos, a[0]));
    assert a[0] in Keep(a, p) by {
      KeepMember(a, p, a[0]);
    }
    KeepMember(b, p, a[0]);
    SortedHead(infos, b);
  }

  lemma {:induction false} StableSortUnique(infos: seq<TraceInfo>, a: seq<Line>, b: seq<Line>)
    requires Sorted(infos, a) && Sorted(infos, b)
    requires forall t :: Keep(a, AtTs(infos, t)) == Keep(b, AtTs(infos, t))
    ensures a == b
  {
    if a == [] {
      if b != [] {
        KeepFirst(infos, b, a);
      }
    } else {
      KeepFirst(infos, a, b);
      KeepFirst(infos, b, a);
      var t0 := Ts(infos, a[0]);
      KeepTail(a, AtTs(infos, t0));
      KeepTail(b, AtTs(infos, t0));
      forall t
        ensures Keep(a[1..], AtTs(infos, t)) == Keep(b[1..], AtTs(infos, t))
      {
        KeepTail(a, AtTs(infos, t));
        KeepTail(b, AtTs(infos, t));
      }
      SortedHead(infos, a);
      SortedHead(infos, b);
      StableSortUnique(infos, a[1..], b[1..]);
      assert a == [a[0]] + a[1..];
      assert b == [b[0]] + b[1..];
    }
  }

  // Sorting after selecting is selecting after sorting.
  lemma KeepOfSorted(infos: seq<TraceInfo>, s: seq<Line>, p: Line -> bool)
    ensures Keep(MergeSort(infos, s), p) == MergeSort(infos, Keep(s, p))
  {
    var r := MergeSort(infos, s);
    MergeSortStable(infos, s);
    MergeSortStable(infos, Keep(s, p));
    KeepSorted(infos, r, p);
    forall t
      ensures Keep(Keep(r, p), AtTs(infos, t)) == Keep(MergeSort(infos, Keep(s, p)), AtTs(infos, t))
    {
      KeepTwice(r, p, AtTs(infos, t));
      KeepTwice(s, p, AtTs(infos, t));
    }
    StableSortUnique(infos, Keep(r, p), MergeSort(infos, Keep(s, p)));
  }

  lemma {:induction false} KeepSorted(infos: seq<TraceInfo>, s: seq<Line>, p: Line -> bool)
    requires Sorted(infos, s)
    ensures Sorted(infos, Keep(s, p))
  {
    if s != [] {
      SortedHead(infos, s);
      KeepSorted(infos, s[1..], p);
      if p(s[0]) {
        forall x | x in Keep(s[1..], p)
          ensures Ts(infos, s[0]) <= Ts(infos, x)
        {
          KeepMember(s[1..], p, x);
        }
        SortedCons(infos, s[0], Keep(s[1..], p));
      }
    }
  }

  // ----- conservation -----

  lemma BagHead(s: seq<Line>)
    requires s != []
    ensures multiset(s) == multiset{s[0]} + multiset(s[1..])
  {
    assert s == [s[0]] + s[1..];
  }

  lemma BagCons(x: Line, s: seq<Line>)
    ensures multiset([x] + s) == multiset{x} + multiset(s)
  {
  }

  lemma BagHalves(s: seq<Line>, half: nat)
    requires half <= |s|
    ensures multiset(s) == multiset(s[..half]) + multiset(s[half..])
  {
    assert s == s[..half] + s[half..];
  }

  lemma {:induction false} MergeConserves(infos: seq<TraceInfo>, l: seq<Line>, r: seq<Line>)
    ensures multiset(Merge(infos, l, r)) == multiset(l) + multiset(r)
  {
    if l != [] && r != [] {
      if Ts(infos, l[0]) <= Ts(infos, r[0]) {
        MergeConserves(infos, l[1..], r);
        BagHead(l);
        BagCons(l[0], Merge(infos, l[1..], r));
      } else {
        MergeConserves(infos, l, r[1..]);
        BagHead(r);
        BagCons(r[0], Merge(infos, l, r[1..]));
      }
    }
  }

  lemma MergeSortHalves(infos: seq<TraceInfo>, s: seq<Line>, half: nat)
    requires |s| > 1 && half == (|s| + 1) / 2
    ensures MergeSort(infos, s) == Merge(infos, MergeSort(infos, s[..half]), MergeSort(infos, s[half..]))
  {
  }

  lemma MergeSortShort(infos: seq<TraceInfo>, s: seq<Line>)
    requires |s| <= 1
    ensures MergeSort(infos, s) == s
  {
  }

  lemma {:induction false} MergeSortConserves(infos: seq<TraceInfo>, s: seq<Line>)
    ensures multiset(MergeSort(infos, s)) == multiset(s)
  {
    hide Merge, MergeSort;
    if |s| <= 1 {
      MergeSortShort(infos, s);
    } else {
      var half := (|s| + 1) / 2;
      MergeSortConserves(infos, s[..half]);
      MergeSortConserves(infos, s[half..]);
      MergeConserves(infos, MergeSort(infos, s[..half]), MergeSort(infos, s[half..]));
      MergeSortHalves(infos, s, half);
      BagHalves(s, half);
    }
  }

  // ----- the same in terms of the records -----

  function HasTs(infos: seq<TraceInfo>, t: nat): Line -> bool
  {
    (l: Line) => l < |infos| && infos[l].ts == t
  }

  // The timestamps of the records do not descend.
  ghost predicate InTime(infos: seq<TraceInfo>, s: seq<Line>)
  {
    InTrace(infos, s) && forall i, j :: 0 <= i < j < |s| ==> infos[s[i]].ts <= infos[s[j]].ts
  }

  // The lines of s by the timestamps of their records, those of one timestamp in
  // the order they have in s.
  ghost predicate Chronological(infos: seq<TraceInfo>, s: seq<Line>, r: seq<Line>)
  {
    && InTime(infos, r)
    && forall t :: Keep(r, HasTs(infos, t)) == Keep(s, HasTs(infos, t))
  }

  lemma {:induction false} KeepSame(s: seq<Line>, p: Line -> bool, q: Line -> bool)
    requires forall i :: 0 <= i < |s| ==> p(s[i]) == q(s[i])
    ensures Keep(s, p) == Keep(s, q)
  {
    if s != [] {
      KeepSame(s[1..], p, q);
    }
  }

  lemma KeepTs(infos: seq<TraceInfo>, s: seq<Line>, t: nat)
    requires InTrace(infos, s)
    ensures Keep(s, HasTs(infos, t)) == Keep(s, AtTs(infos, t))
  {
    hide Keep;
    KeepSame(s, HasTs(infos, t), AtTs(infos, t));
  }

  lemma SortMember(infos: seq<TraceInfo>, s: seq<Line>)
    ensures forall l :: l in MergeSort(infos, s) <==> l in s
  {
    hide MergeSort;
    MergeSortConserves(infos, s);
    assert forall l :: l in MergeSort(infos, s) <==> l in multiset(MergeSort(infos, s));
    assert forall l :: l in s <==> l in multiset(s);
  }

  lemma SortedInTrace(infos: seq<TraceInfo>, s: seq<Line>)
    requires InTrace(infos, s)
    ensures InTrace(infos, MergeSort(infos, s))
  {
    hide MergeSort;
    SortMember(infos, s);
    var r := MergeSort(infos, s);
    forall i | 0 <= i < |r|
      ensures r[i] < |infos|
    {
      assert r[i] in s;
    }
  }

  lemma MergeSortChronological(infos: seq<TraceInfo>, s: seq<Line>)
    requires InTrace(infos, s)
    ensures Chronological(infos, s, MergeSort(infos, s))
  {
    hide MergeSort, Keep, HasTs, AtTs;
    var r := MergeSort(infos, s);
    SortedInTrace(infos, s);
    MergeSortStable(infos, s);
    forall i, j | 0 <= i < j < |r|
      ensures infos[r[i]].ts <= infos[r[j]].ts
    {
      assert Ts(infos, r[i]) <= Ts(infos, r[j]);
    }
    forall t
      ensures Keep(r, HasTs(infos, t)) == Keep(s, HasTs(infos, t))
    {
      KeepTs(infos, r, t);
      KeepTs(infos, s, t);
    }
  }
}
