// What hashmap_sort of helper/map.c does to the sequence of entries on the
// list.  The bottom-up merge sort swaps the payloads of the first and of the
// last buckets of two runs where it would have to swap the runs, so its result
// is a rearrangement of the entries, but in general not an ascending one.
module ListSortSpec {
  import opened BucketTable
  import opened Options

  // The part of a bucket that _hashmap_swap_bucket exchanges.
  datatype Payload = Payload(key: Option<KeyRef>, hash: nat, value: nat)

  // A comparator, handed two key pointers.  Nothing is assumed about it.
  type Compare = (Option<KeyRef>, Option<KeyRef>) -> int

  predicate Above(cmp: Compare, x: Payload, y: Payload)
  {
    cmp(x.key, y.key) > 0
  }

  // The two payload swaps in front of the merge loop.  Runs of one bucket have
  // the same first and last bucket.
  function SwapEnds(cmp: Compare, xs: seq<Payload>, ys: seq<Payload>): (r: (seq<Payload>, seq<Payload>))
    requires xs != [] && ys != []
    ensures |r.0| == |xs| && |r.1| == |ys|
  {
    if Above(cmp, xs[0], ys[0]) then
      var xs1, ys1 := xs[0 := ys[0]], ys[0 := xs[0]];
      (xs1[|xs| - 1 := ys1[|ys| - 1]], ys1[|ys| - 1 := xs1[|xs| - 1]])
    else
      (xs, ys)
  }

  // The merge loop after the first entry of the first run.
  function Weave(cmp: Compare, xs: seq<Payload>, ys: seq<Payload>): (r: seq<Payload>)
    ensures |r| == |xs| + |ys|
  {
    if xs == [] then ys
    else if ys == [] then xs
    else if Above(cmp, xs[0], ys[0]) then [ys[0]] + Weave(cmp, xs, ys[1..])
    else [xs[0]] + Weave(cmp, xs[1..], ys)
  }

  // _hashmap_merge
  function MergeRuns(cmp: Compare, xs: seq<Payload>, ys: seq<Payload>): (r: seq<Payload>)
    requires xs != [] && ys != []
    ensures |r| == |xs| + |ys|
  {
    var (us, vs) := SwapEnds(cmp, xs, ys);
    [us[0]] + Weave(cmp, us[1..], vs)
  }

  // One round of _hashmap_msort: runs of `gap` entries are merged in pairs; a
  // run without a partner stays as it is.
  function Pass(cmp: Compare, gap: nat, ps: seq<Payload>): (r: seq<Payload>)
    requires gap > 0
    ensures |r| == |ps|
  {
    if |ps| <= gap then ps else
      var end := if |ps| <= 2 * gap then |ps| else 2 * gap;
      MergeRuns(cmp, ps[..gap], ps[gap..end]) + Pass(cmp, gap, ps[end..])
  }

  function Passes(cmp: Compare, gap: nat, ps: seq<Payload>): (r: seq<Payload>)
    requires gap > 0
    ensures |r| == |ps|
    decreases |ps| - gap
  {
    if gap < |ps| then Passes(cmp, 2 * gap, Pass(cmp, gap, ps)) else ps
  }

  // hashmap_sort
  function SortList(cmp: Compare, ps: seq<Payload>): (r: seq<Payload>)
    ensures |r| == |ps|
  {
    Passes(cmp, 1, ps)
  }

  // ----- nothing is lost, whatever the comparator -----

  lemma BagUpdate(s: seq<Payload>, i: nat, x: Payload)
    requires i < |s|
    ensures multiset(s[i := x]) + multiset{s[i]} == multiset(s) + multiset{x}
  {
  }

  lemma ExchangeConserves(xs: seq<Payload>, ys: seq<Payload>, i: nat, j: nat)
    requires i < |xs| && j < |ys|
    ensures multiset(xs[i := ys[j]]) + multiset(ys[j := xs[i]]) == multiset(xs) + multiset(ys)
  {
    BagUpdate(xs, i, ys[j]);
    BagUpdate(ys, j, xs[i]);
    BagRearranged(multiset(xs), multiset(xs[i := ys[j]]), multiset(ys), multiset(ys[j := xs[i]]), xs[i], ys[j]);
  }

  lemma BagRearranged(a: multiset<Payload>, a': multiset<Payload>, b: multiset<Payload>, b': multiset<Payload>,
                      x: Payload, y: Payload)
    requires a' + multiset{x} == a + multiset{y} && b' + multiset{y} == b + multiset{x}
    ensures a' + b' == a + b
  {
    forall e
      ensures (a' + b')[e] == (a + b)[e]
    {
      assert (a' + multiset{x})[e] == (a + multiset{y})[e];
      assert (b' + multiset{y})[e] == (b + multiset{x})[e];
    }
  }

  lemma SwapEndsConserves(cmp: Compare, xs: seq<Payload>, ys: seq<Payload>)
    requires xs != [] && ys != []
    ensures var (us, vs) := SwapEnds(cmp, xs, ys); multiset(us) + multiset(vs) == multiset(xs) + multiset(ys)
  {
    ExchangeConserves(xs, ys, 0, 0);
    ExchangeConserves(xs[0 := ys[0]], ys[0 := xs[0]], |xs| - 1, |ys| - 1);
  }

  lemma {:induction false} WeaveConserves(cmp: Compare, xs: seq<Payload>, ys: seq<Payload>)
    ensures multiset(Weave(cmp, xs, ys)) == multiset(xs) + multiset(ys)
  {
    if xs != [] && ys != [] {
      if Above(cmp, xs[0], ys[0]) {
        assert ys == [ys[0]] + ys[1..];
        WeaveConserves(cmp, xs, ys[1..]);
      } else {
        assert xs == [xs[0]] + xs[1..];
        WeaveConserves(cmp, xs[1..], ys);
      }
    }
  }

  lemma MergeRunsConserves(cmp: Compare, xs: seq<Payload>, ys: seq<Payload>)
    requires xs != [] && ys != []
    ensures multiset(MergeRuns(cmp, xs, ys)) == multiset(xs) + multiset(ys)
  {
    var (us, vs) := SwapEnds(cmp, xs, ys);
    SwapEndsConserves(cmp, xs, ys);
    WeaveConserves(cmp, us[1..], vs);
    assert us == [us[0]] + us[1..];
  }

  lemma {:induction false} PassConserves(cmp: Compare, gap: nat, ps: seq<Payload>)
    requires gap > 0
    ensures multiset(Pass(cmp, gap, ps)) == multiset(ps)
  {
    hide MergeRuns;
    if |ps| > gap {
      var end := if |ps| <= 2 * gap then |ps| else 2 * gap;
      MergeRunsConserves(cmp, ps[..gap], ps[gap..end]);
      PassConserves(cmp, gap, ps[end..]);
      BagOfThree(ps, gap, end);
    }
  }

  lemma BagOfThree(ps: seq<Payload>, i: nat, j: nat)
    requires i <= j <= |ps|
    ensures multiset(ps) == multiset(ps[..i]) + multiset(ps[i..j]) + multiset(ps[j..])
  {
    assert ps == ps[..i] + ps[i..j] + ps[j..];
  }

  lemma {:induction false} PassesConserve(cmp: Compare, gap: nat, ps: seq<Payload>)
    requires gap > 0
    ensures multiset(Passes(cmp, gap, ps)) == multiset(ps)
    decreases |ps| - gap
  {
    if gap < |ps| {
      PassConserves(cmp, gap, ps);
      PassesConserve(cmp, 2 * gap, Pass(cmp, gap, ps));
    }
  }

  // For any comparator, transitive or not, the sort keeps exactly the entries
  // it was given.
  lemma SortConserves(cmp: Compare, ps: seq<Payload>)
    ensures multiset(SortList(cmp, ps)) == multiset(ps)
  {
    PassesConserve(cmp, 1, ps);
  }

  // ----- an ordered list is left alone -----

  ghost predicate Ordered(cmp: Compare, ps: seq<Payload>)
  {
    forall i, j :: 0 <= i < j < |ps| ==> cmp(ps[i].key, ps[j].key) <= 0
  }

  lemma {:induction false} WeaveOrdered(cmp: Compare, xs: seq<Payload>, ys: seq<Payload>)
    requires forall i, j :: 0 <= i < |xs| && 0 <= j < |ys| ==> cmp(xs[i].key, ys[j].key) <= 0
    ensures Weave(cmp, xs, ys) == xs + ys
  {
    if xs != [] && ys != [] {
      WeaveOrdered(cmp, xs[1..], ys);
      assert [xs[0]] + (xs[1..] + ys) == xs + ys;
    }
  }

  lemma MergeRunsOrdered(cmp: Compare, xs: seq<Payload>, ys: seq<Payload>)
    requires xs != [] && ys != []
    requires forall i, j :: 0 <= i < |xs| && 0 <= j < |ys| ==> cmp(xs[i].key, ys[j].key) <= 0
    ensures MergeRuns(cmp, xs, ys) == xs + ys
  {
    WeaveOrdered(cmp, xs[1..], ys);
    assert [xs[0]] + (xs[1..] + ys) == xs + ys;
  }

  lemma {:induction false} PassOrdered(cmp: Compare, gap: nat, ps: seq<Payload>)
    requires gap > 0 && Ordered(cmp, ps)
    ensures Pass(cmp, gap, ps) == ps
  {
    hide MergeRuns;
    if |ps| > gap {
      var end := if |ps| <= 2 * gap then |ps| else 2 * gap;
      MergeRunsOrdered(cmp, ps[..gap], ps[gap..end]);
      PassOrdered(cmp, gap, ps[end..]);
      assert ps == ps[..gap] + ps[gap..end] + ps[end..];
    }
  }

  lemma {:induction false} PassesOrdered(cmp: Compare, gap: nat, ps: seq<Payload>)
    requires gap > 0 && Ordered(cmp, ps)
    ensures Passes(cmp, gap, ps) == ps
    decreases |ps| - gap
  {
    if gap < |ps| {
      PassOrdered(cmp, gap, ps);
      PassesOrdered(cmp, 2 * gap, ps);
    }
  }

  ghost predicate TransitiveOn(cmp: Compare, ps: seq<Payload>)
  {
    forall i, j, k | 0 <= i < |ps| && 0 <= j < |ps| && 0 <= k < |ps| ::
      (cmp(ps[i].key, ps[j].key) <= 0 && cmp(ps[j].key, ps[k].key) <= 0) ==> cmp(ps[i].key, ps[k].key) <= 0
  }

  lemma {:induction false} NeighboursOrdered(cmp: Compare, ps: seq<Payload>, i: nat, j: nat)
    requires TransitiveOn(cmp, ps)
    requires forall k :: 0 < k < |ps| ==> cmp(ps[k - 1].key, ps[k].key) <= 0
    requires i < j < |ps|
    ensures cmp(ps[i].key, ps[j].key) <= 0
    decreases j
  {
    assert cmp(ps[j - 1].key, ps[j].key) <= 0;
    if i < j - 1 {
      NeighboursOrdered(cmp, ps, i, j - 1);
    }
  }

  // With a transitive comparator a list whose neighbours are in order comes out
  // unchanged.
  lemma SortKeepsOrdered(cmp: Compare, ps: seq<Payload>)
    requires TransitiveOn(cmp, ps)
    requires forall k :: 0 < k < |ps| ==> cmp(ps[k - 1].key, ps[k].key) <= 0
    ensures SortList(cmp, ps) == ps
  {
    forall i, j | 0 <= i < j < |ps|
      ensures cmp(ps[i].key, ps[j].key) <= 0
    {
      NeighboursOrdered(cmp, ps, i, j);
    }
    PassesOrdered(cmp, 1, ps);
  }

  // ----- the sort does not sort -----

  // Merging two runs of one bucket swaps their payloads twice, that is not at
  // all.
  lemma SingleRuns(cmp: Compare, x: Payload, y: Payload)
    ensures MergeRuns(cmp, [x], [y]) == [x, y]
  {
    var (us, vs) := SwapEnds(cmp, [x], [y]);
    assert us == [x] && vs == [y];
    assert Weave(cmp, us[1..], vs) == vs;
  }

  // So the first round never does anything, for any list and comparator.
  lemma {:induction false} FirstPassIdle(cmp: Compare, ps: seq<Payload>)
    ensures Pass(cmp, 1, ps) == ps
  {
    if |ps| > 1 {
      assert ps[..1] == [ps[0]] && ps[1..2] == [ps[1]];
      SingleRuns(cmp, ps[0], ps[1]);
      FirstPassIdle(cmp, ps[2..]);
      assert ps == [ps[0], ps[1]] + ps[2..];
    }
  }

  // A list of two entries is never put in order: it comes out sorted exactly
  // when it went in sorted.
  lemma TwoEntriesStay(cmp: Compare, x: Payload, y: Payload)
    ensures SortList(cmp, [x, y]) == [x, y]
    ensures Ordered(cmp, SortList(cmp, [x, y])) <==> cmp(x.key, y.key) <= 0
  {
    FirstPassIdle(cmp, [x, y]);
    assert Passes(cmp, 2, [x, y]) == [x, y];
    assert [x, y][0] == x && [x, y][1] == y;
  }

  // ----- when one merge yields an ordered run -----

  // On these entries the comparator is transitive and total.
  ghost predicate Comparable(cmp: Compare, all: seq<Payload>)
  {
    && TransitiveOn(cmp, all)
    && forall i, j :: 0 <= i < |all| && 0 <= j < |all| ==>
         cmp(all[i].key, all[j].key) <= 0 || cmp(all[j].key, all[i].key) <= 0
  }

  ghost predicate Among(s: seq<Payload>, all: seq<Payload>)
  {
    forall e :: e in s ==> e in all
  }

  ghost predicate LeastOf(cmp: Compare, x: Payload, s: seq<Payload>)
  {
    forall e :: e in s ==> cmp(x.key, e.key) <= 0
  }

  lemma OrderedCons(cmp: Compare, x: Payload, s: seq<Payload>)
    ensures Ordered(cmp, [x] + s) <==> LeastOf(cmp, x, s) && Ordered(cmp, s)
  {
    var u := [x] + s;
    assert forall i :: 0 <= i < |s| ==> u[i + 1] == s[i];
    if Ordered(cmp, u) {
      forall e | e in s
        ensures cmp(x.key, e.key) <= 0
      {
        var i :| 0 <= i < |s| && s[i] == e;
        assert cmp(u[0].key, u[i + 1].key) <= 0;
      }
      forall i, j | 0 <= i < j < |s|
        ensures cmp(s[i].key, s[j].key) <= 0
      {
        assert cmp(u[i + 1].key, u[j + 1].key) <= 0;
      }
    }
  }

  lemma Chain(cmp: Compare, all: seq<Payload>, x: Payload, y: Payload, z: Payload)
    requires Comparable(cmp, all) && x in all && y in all && z in all
    ensures cmp(x.key, y.key) <= 0 && cmp(y.key, z.key) <= 0 ==> cmp(x.key, z.key) <= 0
    ensures cmp(x.key, y.key) <= 0 || cmp(y.key, x.key) <= 0
  {
    var i :| 0 <= i < |all| && all[i] == x;
    var j :| 0 <= j < |all| && all[j] == y;
    var k :| 0 <= k < |all| && all[k] == z;
  }

  // What is at most y is at most everything that y is at most.
  lemma LeastChain(cmp: Compare, all: seq<Payload>, x: Payload, y: Payload, s: seq<Payload>)
    requires Comparable(cmp, all) && x in all && y in all && Among(s, all)
    requires cmp(x.key, y.key) <= 0 && LeastOf(cmp, y, s)
    ensures LeastOf(cmp, x, s)
  {
    forall e | e in s
      ensures cmp(x.key, e.key) <= 0
    {
      Chain(cmp, all, x, y, e);
    }
  }

  lemma WeaveMember(cmp: Compare, xs: seq<Payload>, ys: seq<Payload>)
    ensures forall e :: e in Weave(cmp, xs, ys) <==> e in xs || e in ys
  {
    hide Weave;
    WeaveConserves(cmp, xs, ys);
    assert forall e :: e in Weave(cmp, xs, ys) <==> e in multiset(Weave(cmp, xs, ys));
    assert forall e :: e in xs <==> e in multiset(xs);
    assert forall e :: e in ys <==> e in multiset(ys);
  }

  lemma LeastOfWoven(cmp: Compare, x: Payload, xs: seq<Payload>, ys: seq<Payload>)
    ensures LeastOf(cmp, x, Weave(cmp, xs, ys)) <==> LeastOf(cmp, x, xs) && LeastOf(cmp, x, ys)
  {
    hide Weave;
    WeaveMember(cmp, xs, ys);
  }

  lemma HeadAndTail(s: seq<Payload>)
    requires s != []
    ensures s == [s[0]] + s[1..] && s[0] in s && forall e :: e in s[1..] ==> e in s
  {
  }

  // The woven run is ordered exactly when both runs are.
  lemma {:induction false} WeaveOrders(cmp: Compare, all: seq<Payload>, xs: seq<Payload>, ys: seq<Payload>)
    requires Comparable(cmp, all) && Among(xs, all) && Among(ys, all)
    ensures Ordered(cmp, Weave(cmp, xs, ys)) <==> Ordered(cmp, xs) && Ordered(cmp, ys)
  {
    hide Ordered, LeastOf, Comparable;
    if xs == [] || ys == [] {
      NoneOrdered(cmp);
    } else {
      HeadAndTail(xs);
      HeadAndTail(ys);
      Chain(cmp, all, xs[0], ys[0], xs[0]);
      if cmp(xs[0].key, ys[0].key) > 0 {
        WeaveOrders(cmp, all, xs, ys[1..]);
        WeaveStep(cmp, all, ys[0], ys[1..], xs[0], xs[1..]);
        LeastOfWoven(cmp, ys[0], xs, ys[1..]);
        OrderedCons(cmp, ys[0], Weave(cmp, xs, ys[1..]));
      } else {
        WeaveOrders(cmp, all, xs[1..], ys);
        WeaveStep(cmp, all, xs[0], xs[1..], ys[0], ys[1..]);
        LeastOfWoven(cmp, xs[0], xs[1..], ys);
        OrderedCons(cmp, xs[0], Weave(cmp, xs[1..], ys));
      }
    }
  }

  lemma NoneOrdered(cmp: Compare)
    ensures Ordered(cmp, [])
  {
  }

  // The smaller head x in front of what is left of its run and of the other.
  lemma WeaveStep(cmp: Compare, all: seq<Payload>, x: Payload, xs: seq<Payload>, y: Payload, ys: seq<Payload>)
    requires Comparable(cmp, all) && Among([x] + xs, all) && Among([y] + ys, all)
    requires cmp(x.key, y.key) <= 0
    ensures Ordered(cmp, [x] + xs) <==> LeastOf(cmp, x, xs) && Ordered(cmp, xs)
    ensures Ordered(cmp, [y] + ys) ==> LeastOf(cmp, x, [y] + ys)
  {
    hide Ordered, Comparable;
    assert x in [x] + xs && y in [y] + ys;
    assert forall e :: e in ys ==> e in [y] + ys;
    OrderedCons(cmp, x, xs);
    OrderedCons(cmp, y, ys);
    if Ordered(cmp, [y] + ys) {
      LeastChain(cmp, all, x, y, ys);
    }
  }

  // One call of _hashmap_merge yields an ordered run exactly when the two runs
  // are ordered after their first and last entries were exchanged, and the first
  // one starts with the smaller entry.
  lemma MergeRunsOrders(cmp: Compare, xs: seq<Payload>, ys: seq<Payload>)
    requires xs != [] && ys != [] && Comparable(cmp, xs + ys)
    ensures var (us, vs) := SwapEnds(cmp, xs, ys);
      Ordered(cmp, MergeRuns(cmp, xs, ys))
      <==> Ordered(cmp, us) && Ordered(cmp, vs) && cmp(us[0].key, vs[0].key) <= 0
  {
    hide Ordered, Comparable, LeastOf, Weave, SwapEnds;
    var (us, vs) := SwapEnds(cmp, xs, ys);
    SwapEndsAmong(cmp, xs, ys);
    HeadAndTail(us);
    HeadAndTail(vs);
    WeaveOrders(cmp, xs + ys, us[1..], vs);
    LeastOfWoven(cmp, us[0], us[1..], vs);
    OrderedCons(cmp, us[0], Weave(cmp, us[1..], vs));
    if cmp(us[0].key, vs[0].key) <= 0 {
      WeaveStep(cmp, xs + ys, us[0], us[1..], vs[0], vs[1..]);
    } else {
      assert !LeastOf(cmp, us[0], vs) by {
        NotLeast(cmp, us[0], vs);
      }
    }
    OrderedCons(cmp, us[0], us[1..]);
  }

  lemma NotLeast(cmp: Compare, x: Payload, s: seq<Payload>)
    requires s != [] && cmp(x.key, s[0].key) > 0
    ensures !LeastOf(cmp, x, s)
  {
    assert s[0] in s;
  }

  lemma SwapEndsAmong(cmp: Compare, xs: seq<Payload>, ys: seq<Payload>)
    requires xs != [] && ys != []
    ensures Among(SwapEnds(cmp, xs, ys).0, xs + ys) && Among(SwapEnds(cmp, xs, ys).1, xs + ys)
  {
    hide SwapEnds;
    var (us, vs) := SwapEnds(cmp, xs, ys);
    SwapEndsConserves(cmp, xs, ys);
    assert forall e :: e in us ==> e in multiset(us) + multiset(vs);
    assert forall e :: e in vs ==> e in multiset(us) + multiset(vs);
    assert forall e :: e in multiset(xs) + multiset(ys) ==> e in xs + ys;
  }

  // What is exchanged, for runs of at least two entries.
  lemma SwappedRuns(cmp: Compare, xs: seq<Payload>, ys: seq<Payload>)
    requires |xs| >= 2 && |ys| >= 2
    ensures SwapEnds(cmp, xs, ys)
         == if cmp(xs[0].key, ys[0].key) <= 0 then (xs, ys)
            else ([ys[0]] + xs[1..|xs| - 1] + [ys[|ys| - 1]], [xs[0]] + ys[1..|ys| - 1] + [xs[|xs| - 1]])
  {
    if cmp(xs[0].key, ys[0].key) > 0 {
      var (us, vs) := SwapEnds(cmp, xs, ys);
      assert us == [ys[0]] + xs[1..|xs| - 1] + [ys[|ys| - 1]];
      assert vs == [xs[0]] + ys[1..|ys| - 1] + [xs[|xs| - 1]];
    }
  }

  // With three or four entries the sort is a single merge, of the first two with
  // the others.
  lemma FourEntries(cmp: Compare, ps: seq<Payload>)
    requires 2 < |ps| <= 4
    ensures SortList(cmp, ps) == MergeRuns(cmp, ps[..2], ps[2..])
  {
    hide MergeRuns;
    FirstPassIdle(cmp, ps);
    var merged := MergeRuns(cmp, ps[..2], ps[2..]);
    assert ps[2..|ps|] == ps[2..];
    assert Pass(cmp, 2, ps) == merged + Pass(cmp, 2, ps[|ps|..]);
    assert Pass(cmp, 2, ps[|ps|..]) == [];
    assert Passes(cmp, 2, ps) == Passes(cmp, 4, merged);
  }

  // Where pair k of runs starts in a round.
  function PairStart(gap: nat, k: nat): nat
  {
    if k == 0 then 0 else PairStart(gap, k - 1) + 2 * gap
  }

  function PairEnd(gap: nat, k: nat, n: nat): (end: nat)
    ensures end <= n
  {
    if n <= PairStart(gap, k) + 2 * gap then n else PairStart(gap, k) + 2 * gap
  }

  // A round merges the runs of every pair, each at its place.
  lemma {:induction false} PassAt(cmp: Compare, gap: nat, ps: seq<Payload>, k: nat)
    requires gap > 0 && PairStart(gap, k) + gap < |ps|
    ensures var from, end := PairStart(gap, k), PairEnd(gap, k, |ps|);
      Pass(cmp, gap, ps)[from..end] == MergeRuns(cmp, ps[from..from + gap], ps[from + gap..end])
  {
    hide MergeRuns, Pass;
    PassFirst(cmp, gap, ps);
    if k > 0 {
      var first := PairEnd(gap, 0, |ps|);
      var rest := ps[first..];
      PassAt(cmp, gap, rest, k - 1);
      Shifted(Pass(cmp, gap, ps), first, PairStart(gap, k), PairEnd(gap, k, |ps|));
      Shifted(ps, first, PairStart(gap, k), PairStart(gap, k) + gap);
      Shifted(ps, first, PairStart(gap, k) + gap, PairEnd(gap, k, |ps|));
    }
  }

  lemma PassFirst(cmp: Compare, gap: nat, ps: seq<Payload>)
    requires gap > 0 && |ps| > gap
    ensures var first := PairEnd(gap, 0, |ps|);
      && Pass(cmp, gap, ps)[0..first] == MergeRuns(cmp, ps[0..gap], ps[gap..first])
      && Pass(cmp, gap, ps)[first..] == Pass(cmp, gap, ps[first..])
  {
    hide MergeRuns;
    assert ps[0..gap] == ps[..gap];
  }

  lemma Shifted(ps: seq<Payload>, off: nat, from: nat, end: nat)
    requires off <= from <= end <= |ps|
    ensures ps[off..][from - off..end - off] == ps[from..end]
  {
  }
}
