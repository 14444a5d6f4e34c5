// The in-place sorts of helper/replay.c over an array of trace lines.
module TraceSort {
  import opened Sequences
  import opened Splicing
  import opened StableSort
  import opened Trace

  // ----- merge sort -----

  // The next line of the left half goes to the buffer.
  method PushLeft(infos: seq<TraceInfo>, temp: array<Line>, k: nat, x: Line,
                  ghost l: seq<Line>, ghost r: seq<Line>, ghost i: nat, ghost m: nat)
    requires k < temp.Length && i < |l| && x == l[i] && Merged(infos, l, r, temp[..k], i, m)
    requires m == |r| || (m < |r| && Ts(infos, l[i]) <= Ts(infos, r[m]))
    modifies temp
    ensures Merged(infos, l, r, temp[..k + 1], i + 1, m)
  {
    hide Merged;
    TakeLeft(infos, l, r, temp[..k], i, m);
    ghost var t := temp[..k];
    temp[k] := x;
    assert temp[..k + 1] == t + [x];
  }

  // The next line of the right half goes to the buffer.
  method PushRight(infos: seq<TraceInfo>, temp: array<Line>, k: nat, x: Line,
                   ghost l: seq<Line>, ghost r: seq<Line>, ghost i: nat, ghost m: nat)
    requires k < temp.Length && m < |r| && x == r[m] && Merged(infos, l, r, temp[..k], i, m)
    requires i == |l| || (i < |l| && Ts(infos, l[i]) > Ts(infos, r[m]))
    modifies temp
    ensures Merged(infos, l, r, temp[..k + 1], i, m + 1)
  {
    hide Merged;
    TakeRight(infos, l, r, temp[..k], i, m);
    ghost var t := temp[..k];
    temp[k] := x;
    assert temp[..k + 1] == t + [x];
  }

  // _merge_array_by_ts: merge into the temporary buffer, then copy back.
  method MergeArray(infos: seq<TraceInfo>, a: array<Line>, begin: nat, mid: nat, end: nat, temp: array<Line>)
    requires begin <= mid < end < a.Length && end - begin < temp.Length && a != temp
    modifies a, temp
    ensures a[..] == Splice(old(a[..]), begin, Merge(infos, old(a[begin..mid + 1]), old(a[mid + 1..end + 1])))
  {
    hide Merge, Splice;
    var k := MergeRuns(infos, a, begin, mid, end, temp, a[begin..mid + 1], a[mid + 1..end + 1]);
    Copy(a, begin, temp[..k]);
  }

  method MergeRuns(infos: seq<TraceInfo>, a: array<Line>, begin: nat, mid: nat, end: nat, temp: array<Line>,
                   ghost l: seq<Line>, ghost r: seq<Line>)
    returns (k: nat)
    requires begin <= mid < end < a.Length && end - begin < temp.Length && a != temp
    requires l == a[begin..mid + 1] && r == a[mid + 1..end + 1]
    modifies temp
    ensures k <= temp.Length && temp[..k] == Merge(infos, l, r)
  {
    hide Merge, Merged, Ts;
    var i: nat, m: nat := begin, mid + 1;
    k := 0;
    NothingMerged(infos, l, r);
    while i <= mid && m <= end
      invariant begin <= i <= mid + 1 <= m <= end + 1 && k == (i - begin) + (m - mid - 1)
      invariant Merged(infos, l, r, temp[..k], i - begin, m - mid - 1)
    {
      if Ts(infos, a[i]) <= Ts(infos, a[m]) {
        PushLeft(infos, temp, k, a[i], l, r, i - begin, m - mid - 1);
        k, i := k + 1, i + 1;
      } else {
        PushRight(infos, temp, k, a[m], l, r, i - begin, m - mid - 1);
        k, m := k + 1, m + 1;
      }
    }
    while i <= mid
      invariant begin <= i <= mid + 1 <= m <= end + 1 && k == (i - begin) + (m - mid - 1)
      invariant i <= mid ==> m == end + 1
      invariant Merged(infos, l, r, temp[..k], i - begin, m - mid - 1)
    {
      PushLeft(infos, temp, k, a[i], l, r, i - begin, m - mid - 1);
      k, i := k + 1, i + 1;
    }
    while m <= end
      invariant i == mid + 1 <= m <= end + 1 && k == (i - begin) + (m - mid - 1)
      invariant Merged(infos, l, r, temp[..k], i - begin, m - mid - 1)
    {
      PushRight(infos, temp, k, a[m], l, r, i - begin, m - mid - 1);
      k, m := k + 1, m + 1;
    }
    AllMerged(infos, l, r, temp[..k]);
  }

  // t is what the merge of l and r starts with, when i lines of l and m lines
  // of r have been taken.
  ghost predicate Merged(infos: seq<TraceInfo>, l: seq<Line>, r: seq<Line>, t: seq<Line>, i: nat, m: nat)
  {
    i <= |l| && m <= |r| && t + Merge(infos, l[i..], r[m..]) == Merge(infos, l, r)
  }

  lemma NothingMerged(infos: seq<TraceInfo>, l: seq<Line>, r: seq<Line>)
    ensures Merged(infos, l, r, [], 0, 0)
  {
    assert l[0..] == l && r[0..] == r;
  }

  lemma AllMerged(infos: seq<TraceInfo>, l: seq<Line>, r: seq<Line>, t: seq<Line>)
    requires Merged(infos, l, r, t, |l|, |r|)
    ensures t == Merge(infos, l, r)
  {
    assert Merge(infos, l[|l|..], r[|r|..]) == [];
  }

  lemma TakeLeft(infos: seq<TraceInfo>, l: seq<Line>, r: seq<Line>, t: seq<Line>, i: nat, m: nat)
    requires Merged(infos, l, r, t, i, m) && i < |l|
    requires m == |r| || (m < |r| && Ts(infos, l[i]) <= Ts(infos, r[m]))
    ensures Merged(infos, l, r, t + [l[i]], i + 1, m)
  {
    assert l[i..][1..] == l[i + 1..];
    if m == |r| {
      assert r[m..] == [];
      assert l[i..] == [l[i]] + l[i + 1..];
    }
    assert Merge(infos, l[i..], r[m..]) == [l[i]] + Merge(infos, l[i + 1..], r[m..]);
    Associates(t, [l[i]], Merge(infos, l[i + 1..], r[m..]));
  }

  lemma TakeRight(infos: seq<TraceInfo>, l: seq<Line>, r: seq<Line>, t: seq<Line>, i: nat, m: nat)
    requires Merged(infos, l, r, t, i, m) && m < |r|
    requires i == |l| || (i < |l| && Ts(infos, l[i]) > Ts(infos, r[m]))
    ensures Merged(infos, l, r, t + [r[m]], i, m + 1)
  {
    assert r[m..][1..] == r[m + 1..];
    if i == |l| {
      assert l[i..] == [];
      assert r[m..] == [r[m]] + r[m + 1..];
    }
    assert Merge(infos, l[i..], r[m..]) == [r[m]] + Merge(infos, l[i..], r[m + 1..]);
    Associates(t, [r[m]], Merge(infos, l[i..], r[m + 1..]));
  }

  // _trace_infomap_msort_by_ts: every merge uses the same temporary buffer.
  method MergeSortArray(infos: seq<TraceInfo>, a: array<Line>, begin: nat, end: nat, temp: array<Line>)
    requires begin <= end < a.Length && end - begin < temp.Length && a != temp
    modifies a, temp
    ensures a[..] == Splice(old(a[..]), begin, MergeSort(infos, old(a[begin..end + 1])))
    ensures InTrace(infos, old(a[begin..end + 1])) ==>
              Chronological(infos, old(a[begin..end + 1]), a[begin..end + 1])
    decreases end - begin
  {
    hide Splice, Merge, MergeSort, Chronological, InTrace;
    ghost var s := a[..];
    if begin < end {
      var mid := (begin + end) / 2;
      MergeSortArray(infos, a, begin, mid, temp);
      ghost var s1 := a[..];
      MergeSortArray(infos, a, mid + 1, end, temp);
      ghost var s2 := a[..];
      HalvesSorted(infos, s, s1, s2, begin, mid, end);
      MergeArray(infos, a, begin, mid, end, temp);
    } else {
      OneLine(infos, s, begin);
    }
    if InTrace(infos, s[begin..end + 1]) {
      ChronologicalInPlace(infos, s, a[..], begin, end);
      assert a[begin..end + 1] == a[..][begin..end + 1];
    }
  }

  lemma ChronologicalInPlace(infos: seq<TraceInfo>, s: seq<Line>, r: seq<Line>, begin: nat, end: nat)
    requires begin <= end < |s| && r == Splice(s, begin, MergeSort(infos, s[begin..end + 1]))
    requires InTrace(infos, s[begin..end + 1])
    ensures Chronological(infos, s[begin..end + 1], r[begin..end + 1])
  {
    hide Splice, MergeSort, Chronological, InTrace;
    MergeSortChronological(infos, s[begin..end + 1]);
    assert r[begin..end + 1] == MergeSort(infos, s[begin..end + 1]);
  }

  lemma OneLine(infos: seq<TraceInfo>, s: seq<Line>, at: nat)
    requires at < |s|
    ensures s == Splice(s, at, MergeSort(infos, s[at..at + 1]))
  {
  }

  lemma HalvesSorted(infos: seq<TraceInfo>, s: seq<Line>, s1: seq<Line>, s2: seq<Line>,
                     begin: nat, mid: nat, end: nat)
    requires begin < end < |s| && mid == (begin + end) / 2
    requires s1 == Splice(s, begin, MergeSort(infos, s[begin..mid + 1]))
    requires s2 == Splice(s1, mid + 1, MergeSort(infos, s1[mid + 1..end + 1]))
    ensures Splice(s2, begin, Merge(infos, s2[begin..mid + 1], s2[mid + 1..end + 1]))
         == Splice(s, begin, MergeSort(infos, s[begin..end + 1]))
  {
    hide Splice, Merge, MergeSort;
    var x, y := MergeSort(infos, s[begin..mid + 1]), MergeSort(infos, s[mid + 1..end + 1]);
    SpliceKeepsRest(s, begin, x, mid + 1, end + 1);
    assert s2 == Splice(s, begin, x + y) by {
      SpliceTwice(s, begin, x, y);
    }
    assert s2[begin..mid + 1] == x && s2[mid + 1..end + 1] == y by {
      assert s2[begin..end + 1] == x + y;
      SliceOfSlice(s2, begin, mid + 1, end + 1, x, y);
    }
    assert s[begin..end + 1] == s[begin..mid + 1] + s[mid + 1..end + 1];
    SortedHalves(infos, s[begin..end + 1], s[begin..mid + 1], s[mid + 1..end + 1]);
    SpliceOver(s, begin, x + y, Merge(infos, x, y));
  }

  lemma SpliceKeepsRest<T>(s: seq<T>, at: nat, b: seq<T>, lo: nat, hi: nat)
    requires at + |b| <= lo <= hi <= |s|
    ensures Splice(s, at, b)[lo..hi] == s[lo..hi]
  {
    var r := Splice(s, at, b);
    forall i | lo <= i < hi
      ensures r[i] == s[i]
    {
      assert r[i] == s[at + |b|..][i - at - |b|];
    }
  }

  lemma SliceOfSlice<T>(s: seq<T>, lo: nat, mid: nat, hi: nat, x: seq<T>, y: seq<T>)
    requires lo <= mid <= hi <= |s| && |x| == mid - lo && s[lo..hi] == x + y
    ensures s[lo..mid] == x && s[mid..hi] == y
  {
    assert s[lo..mid] == s[lo..hi][..mid - lo];
    assert s[mid..hi] == s[lo..hi][mid - lo..];
  }

  lemma SortedHalves(infos: seq<TraceInfo>, u: seq<Line>, l: seq<Line>, r: seq<Line>)
    requires u == l + r && |u| > 1 && |l| == (|u| + 1) / 2
    ensures MergeSort(infos, u) == Merge(infos, MergeSort(infos, l), MergeSort(infos, r))
  {
    assert u[..|l|] == l && u[|l|..] == r;
  }

  // ----- quicksort -----

  // Lines outside low..end keep their places, those inside are permuted.
  ghost predicate PermutedWithin(s: seq<Line>, r: seq<Line>, low: nat, end: nat)
  {
    && |r| == |s| && low <= end <= |s|
    && r[..low] == s[..low] && r[end..] == s[end..]
    && multiset(r[low..end]) == multiset(s[low..end])
  }

  lemma PermutedSelf(s: seq<Line>, low: nat, end: nat)
    requires low <= end <= |s|
    ensures PermutedWithin(s, s, low, end)
  {
  }

  lemma PermutedChain(s: seq<Line>, r: seq<Line>, q: seq<Line>, low: nat, end: nat)
    requires PermutedWithin(s, r, low, end) && PermutedWithin(r, q, low, end)
    ensures PermutedWithin(s, q, low, end)
  {
  }

  function Swapped(s: seq<Line>, i: nat, j: nat): (r: seq<Line>)
    requires i < |s| && j < |s|
    ensures |r| == |s|
  {
    s[i := s[j]][j := s[i]]
  }

  lemma SwapPermutes(s: seq<Line>, i: nat, j: nat, low: nat, end: nat)
    requires low <= i < end && low <= j < end && end <= |s|
    ensures PermutedWithin(s, Swapped(s, i, j), low, end)
  {
    var u := s[low..end];
    var r := Swapped(s, i, j);
    assert r[low..end] == u[i - low := u[j - low]][j - low := u[i - low]];
    assert r[..low] == s[..low] && r[end..] == s[end..];
  }

  lemma PermutedMembers(s: seq<Line>, r: seq<Line>, low: nat, end: nat, x: nat) returns (y: nat)
    requires PermutedWithin(s, r, low, end) && low <= x < end
    ensures low <= y < end && s[y] == r[x]
  {
    assert r[x] == r[low..end][x - low];
    assert r[x] in multiset(s[low..end]);
    assert r[x] in s[low..end];
    var k :| 0 <= k < end - low && s[low..end][k] == r[x];
    y := low + k;
  }

  // A permutation of a part of the range is one of the range.
  lemma PermutedWider(s: seq<Line>, r: seq<Line>, low: nat, end: nat, low': nat, end': nat)
    requires PermutedWithin(s, r, low', end') && low <= low' && end' <= end <= |s|
    ensures PermutedWithin(s, r, low, end)
  {
    OutsideSlices(s, r, low', end', low, end);
    ThreeParts(s, low, low', end', end);
    ThreeParts(r, low, low', end', end);
  }

  lemma ThreeParts(s: seq<Line>, a: nat, b: nat, c: nat, d: nat)
    requires a <= b <= c <= d <= |s|
    ensures multiset(s[a..d]) == multiset(s[a..b]) + multiset(s[b..c]) + multiset(s[c..d])
  {
    assert s[a..d] == s[a..b] + s[b..c] + s[c..d];
  }

  lemma OutsideSlices(s: seq<Line>, r: seq<Line>, low': nat, end': nat, low: nat, end: nat)
    requires PermutedWithin(s, r, low', end') && low <= low' && end' <= end <= |s|
    ensures r[..low] == s[..low] && r[low..low'] == s[low..low']
    ensures r[end'..end] == s[end'..end] && r[end..] == s[end..]
  {
    forall k | 0 <= k < low' || end' <= k < |s|
      ensures r[k] == s[k]
    {
      if k < low' {
        assert r[k] == r[..low'][k] && s[k] == s[..low'][k];
      } else {
        assert r[k] == r[end'..][k - end'] && s[k] == s[end'..][k - end'];
      }
    }
  }

  // Lines around position p: earlier ones before it, the others after it.
  ghost predicate Around(infos: seq<TraceInfo>, s: seq<Line>, low: nat, p: nat, end: nat)
  {
    && low <= p < end <= |s|
    && (forall x :: low <= x < p ==> Ts(infos, s[x]) < Ts(infos, s[p]))
    && (forall x :: p < x < end ==> Ts(infos, s[p]) <= Ts(infos, s[x]))
  }

  // The lines before i, compared with the pivot in front of them.
  ghost predicate Split(infos: seq<TraceInfo>, s: seq<Line>, low: nat, p: nat, i: nat)
  {
    && low <= p < i <= |s|
    && (forall x :: low < x <= p ==> Ts(infos, s[x]) < Ts(infos, s[low]))
    && (forall x :: p < x < i ==> Ts(infos, s[low]) <= Ts(infos, s[x]))
  }

  lemma SwappedSelf(s: seq<Line>, i: nat)
    requires i < |s|
    ensures Swapped(s, i, i) == s
  {
  }

  lemma SplitStart(infos: seq<TraceInfo>, s: seq<Line>, low: nat)
    requires low < |s|
    ensures Split(infos, s, low, low, low + 1)
  {
  }

  lemma SplitLater(infos: seq<TraceInfo>, s: seq<Line>, low: nat, p: nat, i: nat)
    requires Split(infos, s, low, p, i) && i < |s| && Ts(infos, s[low]) <= Ts(infos, s[i])
    ensures Split(infos, s, low, p, i + 1)
  {
  }

  lemma SplitEarlier(infos: seq<TraceInfo>, s: seq<Line>, low: nat, p: nat, i: nat)
    requires Split(infos, s, low, p, i) && i < |s| && Ts(infos, s[i]) < Ts(infos, s[low])
    ensures Split(infos, Swapped(s, i, p + 1), low, p + 1, i + 1)
  {
  }

  lemma SplitDone(infos: seq<TraceInfo>, s: seq<Line>, low: nat, p: nat, end: nat)
    requires Split(infos, s, low, p, end)
    ensures Around(infos, Swapped(s, low, p), low, p, end)
  {
  }

  method Swap(a: array<Line>, i: nat, j: nat)
    requires i < a.Length && j < a.Length
    modifies a
    ensures a[..] == Swapped(old(a[..]), i, j)
  {
    var tmp := a[i];
    a[i] := a[j];
    a[j] := tmp;
  }

  // _partition_by_ts
  method Partition(infos: seq<TraceInfo>, a: array<Line>, low: nat, high: nat) returns (p: nat)
    requires low <= high < a.Length
    modifies a
    ensures low <= p <= high
    ensures PermutedWithin(old(a[..]), a[..], low, high + 1)
    ensures Around(infos, a[..], low, p, high + 1)
  {
    hide PermutedWithin, Around, Split, Swapped, Ts;
    ghost var s := a[..];
    PermutedSelf(s, low, high + 1);
    SplitStart(infos, s, low);
    p := low;
    for i := low + 1 to high + 1
      invariant low <= p < i && Split(infos, a[..], low, p, i)
      invariant PermutedWithin(s, a[..], low, high + 1)
    {
      ghost var before := a[..];
      p := Place(infos, a, low, p, i, high + 1);
      PermutedChain(s, before, a[..], low, high + 1);
    }
    ghost var before := a[..];
    SplitDone(infos, before, low, p, high + 1);
    SwapPermutes(before, low, p, low, high + 1);
    Swap(a, low, p);
    PermutedChain(s, before, a[..], low, high + 1);
  }

  // One round of the loop: line i joins the earlier lines or the others.
  method Place(infos: seq<TraceInfo>, a: array<Line>, low: nat, p: nat, i: nat, ghost end: nat) returns (q: nat)
    requires low <= p < i < end <= a.Length && Split(infos, a[..], low, p, i)
    modifies a
    ensures low <= q < i + 1 && Split(infos, a[..], low, q, i + 1)
    ensures PermutedWithin(old(a[..]), a[..], low, end)
  {
    hide PermutedWithin, Split;
    q := p;
    if Ts(infos, a[i]) < Ts(infos, a[low]) {
      SplitEarlier(infos, a[..], low, p, i);
      q := p + 1;
      SwapPermutes(a[..], i, q, low, end);
      if i != q {
        Swap(a, i, q);
      } else {
        SwappedSelf(a[..], i);
      }
    } else {
      SplitLater(infos, a[..], low, p, i);
      PermutedSelf(a[..], low, end);
    }
  }

  ghost predicate SortedRange(infos: seq<TraceInfo>, s: seq<Line>, low: nat, end: nat)
  {
    end <= |s| && forall i, j :: low <= i < j < end ==> Ts(infos, s[i]) <= Ts(infos, s[j])
  }

  lemma SortedSlice(infos: seq<TraceInfo>, s: seq<Line>, low: nat, end: nat)
    requires low <= end && SortedRange(infos, s, low, end)
    ensures Sorted(infos, s[low..end])
  {
  }

  // _trace_infomap_qsort_by_ts: `pivot - 1` is only computed when pivot > 0.
  method QuickSort(infos: seq<TraceInfo>, a: array<Line>, low: nat, high: nat)
    requires low <= high + 1 <= a.Length
    modifies a
    ensures PermutedWithin(old(a[..]), a[..], low, high + 1)
    ensures SortedRange(infos, a[..], low, high + 1)
    decreases high + 1 - low
  {
    hide PermutedWithin, Around, SortedRange;
    ghost var s := a[..];
    if low < high {
      var p := Partition(infos, a, low, high);
      ghost var s1 := a[..];
      if p > 0 {
        QuickSort(infos, a, low, p - 1);
      } else {
        ShortSorted(infos, s1, low, p);
      }
      ghost var s2 := a[..];
      QuickSort(infos, a, p + 1, high);
      ghost var s3 := a[..];
      QuickSorted(infos, s, s1, s2, s3, low, p, high + 1);
    } else {
      ShortSorted(infos, s, low, high + 1);
    }
  }

  lemma ShortSorted(infos: seq<TraceInfo>, s: seq<Line>, low: nat, end: nat)
    requires low <= end <= |s| && end <= low + 1
    ensures PermutedWithin(s, s, low, end) && SortedRange(infos, s, low, end)
  {
  }

  lemma QuickSorted(infos: seq<TraceInfo>, s: seq<Line>, s1: seq<Line>, s2: seq<Line>, s3: seq<Line>,
                    low: nat, p: nat, end: nat)
    requires PermutedWithin(s, s1, low, end) && Around(infos, s1, low, p, end)
    requires PermutedWithin(s1, s2, low, p) && SortedRange(infos, s2, low, p)
    requires PermutedWithin(s2, s3, p + 1, end) && SortedRange(infos, s3, p + 1, end)
    ensures PermutedWithin(s, s3, low, end) && SortedRange(infos, s3, low, end)
  {
    LeftSorted(infos, s1, s2, low, p, end);
    RightSorted(infos, s2, s3, low, p, end);
    PermutedWider(s1, s2, low, end, low, p);
    PermutedWider(s2, s3, low, end, p + 1, end);
    PermutedChain(s, s1, s2, low, end);
    PermutedChain(s, s2, s3, low, end);
  }

  lemma LeftSorted(infos: seq<TraceInfo>, s1: seq<Line>, s2: seq<Line>, low: nat, p: nat, end: nat)
    requires Around(infos, s1, low, p, end)
    requires PermutedWithin(s1, s2, low, p)
    ensures Around(infos, s2, low, p, end)
  {
    assert s2[p] == s2[p..][0] && s1[p] == s1[p..][0];
    forall x | low <= x < p
      ensures Ts(infos, s2[x]) < Ts(infos, s2[p])
    {
      var y := PermutedMembers(s1, s2, low, p, x);
    }
    forall x | p < x < end
      ensures s2[x] == s1[x]
    {
      assert s2[x] == s2[p..][x - p] && s1[x] == s1[p..][x - p];
    }
  }

  lemma RightSorted(infos: seq<TraceInfo>, s2: seq<Line>, s3: seq<Line>, low: nat, p: nat, end: nat)
    requires Around(infos, s2, low, p, end) && SortedRange(infos, s2, low, p)
    requires PermutedWithin(s2, s3, p + 1, end) && SortedRange(infos, s3, p + 1, end)
    ensures SortedRange(infos, s3, low, end)
  {
    forall x | low <= x <= p
      ensures s3[x] == s2[x]
    {
      assert s3[x] == s3[..p + 1][x] && s2[x] == s2[..p + 1][x];
    }
    forall x | p < x < end
      ensures Ts(infos, s3[p]) <= Ts(infos, s3[x])
    {
      var y := PermutedMembers(s2, s3, p + 1, end, x);
    }
  }

  // ----- the two sorts agree on timestamps -----

  function Timestamps(infos: seq<TraceInfo>, s: seq<Line>): (t: seq<nat>)
    ensures |t| == |s| && forall i :: 0 <= i < |s| ==> t[i] == Ts(infos, s[i])
  {
    seq(|s|, i requires 0 <= i < |s| => Ts(infos, s[i]))
  }

  lemma BagWithout(s: seq<nat>, k: nat)
    requires k < |s|
    ensures multiset(s) == multiset(s[..k] + s[k + 1..]) + multiset{s[k]}
  {
    assert s == s[..k] + [s[k]] + s[k + 1..];
  }

  lemma BagCancel(x: multiset<nat>, y: multiset<nat>, e: nat)
    requires x + multiset{e} == y + multiset{e}
    ensures x == y
  {
    assert x == (x + multiset{e}) - multiset{e};
    assert y == (y + multiset{e}) - multiset{e};
  }

  lemma {:induction false} SameTimestampBag(infos: seq<TraceInfo>, a: seq<Line>, b: seq<Line>)
    requires multiset(a) == multiset(b)
    ensures multiset(Timestamps(infos, a)) == multiset(Timestamps(infos, b))
  {
    if a == [] {
      assert b == [] by {
        assert |multiset(b)| == |b|;
      }
    } else {
      assert a[0] in multiset(b);
      var k :| 0 <= k < |b| && b[k] == a[0];
      var b' := b[..k] + b[k + 1..];
      BagTail(a);
      BagWithout(b, k);
      BagCancel(multiset(a[1..]), multiset(b'), a[0]);
      SameTimestampBag(infos, a[1..], b');
      BagTail(Timestamps(infos, a));
      assert Timestamps(infos, a)[1..] == Timestamps(infos, a[1..]);
      TimestampsWithout(infos, b, k);
    }
  }

  lemma TimestampsWithout(infos: seq<TraceInfo>, s: seq<Line>, k: nat)
    requires k < |s|
    ensures multiset(Timestamps(infos, s))
         == multiset(Timestamps(infos, s[..k] + s[k + 1..])) + multiset{Ts(infos, s[k])}
  {
    var t := Timestamps(infos, s);
    BagWithout(t, k);
    assert Timestamps(infos, s[..k] + s[k + 1..]) == t[..k] + t[k + 1..];
  }

  ghost predicate Ascending(t: seq<nat>)
  {
    forall i, j :: 0 <= i < j < |t| ==> t[i] <= t[j]
  }

  lemma {:induction false} SortedBagUnique(t: seq<nat>, u: seq<nat>)
    requires multiset(t) == multiset(u) && Ascending(t) && Ascending(u)
    ensures t == u
  {
    hide Ascending;
    if t == [] {
      assert |multiset(u)| == |u|;
    } else {
      SameHead(t, u);
      SameTails(t, u);
      SortedBagUnique(t[1..], u[1..]);
      assert t == [t[0]] + t[1..] && u == [u[0]] + u[1..];
    }
  }

  lemma SameTails(t: seq<nat>, u: seq<nat>)
    requires multiset(t) == multiset(u) && Ascending(t) && Ascending(u)
    requires t != [] && u != [] && t[0] == u[0]
    ensures multiset(t[1..]) == multiset(u[1..]) && Ascending(t[1..]) && Ascending(u[1..])
  {
    hide Ascending;
    AscendingTail(t);
    AscendingTail(u);
    BagTail(t);
    BagTail(u);
    BagCancel(multiset(t[1..]), multiset(u[1..]), t[0]);
  }

  lemma BagTail(t: seq<nat>)
    requires t != []
    ensures multiset(t) == multiset(t[1..]) + multiset{t[0]}
  {
    assert t == [t[0]] + t[1..];
  }

  lemma AscendingTail(t: seq<nat>)
    requires Ascending(t) && t != []
    ensures Ascending(t[1..])
  {
    var s := t[1..];
    forall i, j | 0 <= i < j < |s|
      ensures s[i] <= s[j]
    {
      assert s[i] == t[i + 1] && s[j] == t[j + 1];
    }
  }

  lemma SameHead(t: seq<nat>, u: seq<nat>)
    requires multiset(t) == multiset(u) && Ascending(t) && Ascending(u) && t != []
    ensures u != [] && t[0] == u[0]
  {
    assert |multiset(t)| == |t| && |multiset(u)| == |u|;
    assert t[0] in multiset(u) && u[0] in multiset(t);
    assert t[0] in u && u[0] in t;
  }

  // Any two sorted permutations of the same lines, such as the results of the
  // merge sort and of the quicksort, have the same sequence of timestamps.
  lemma SortedTimestamps(infos: seq<TraceInfo>, s: seq<Line>, q: seq<Line>)
    requires Sorted(infos, q) && multiset(q) == multiset(s)
    ensures Timestamps(infos, q) == Timestamps(infos, MergeSort(infos, s))
  {
    var m := MergeSort(infos, s);
    MergeSortStable(infos, s);
    MergeSortConserves(infos, s);
    SameTimestampBag(infos, q, m);
    SortedBagUnique(Timestamps(infos, q), Timestamps(infos, m));
  }

  // On the lines of a container, which has at least one, the quicksort yields
  // the timestamps of the merge sort.
  method QuickSortLines(infos: seq<TraceInfo>, a: array<Line>)
    requires a.Length > 0
    modifies a
    ensures multiset(a[..]) == multiset(old(a[..])) && Sorted(infos, a[..])
    ensures Timestamps(infos, a[..]) == Timestamps(infos, MergeSort(infos, old(a[..])))
    ensures InTrace(infos, old(a[..])) ==>
              InTrace(infos, a[..]) && forall i, j :: 0 <= i < j < a.Length ==> infos[a[i]].ts <= infos[a[j]].ts
  {
    hide MergeSort, Timestamps, SortedRange, Sorted;
    ghost var s := a[..];
    QuickSort(infos, a, 0, a.Length - 1);
    assert a[0..a.Length] == a[..] && s[0..a.Length] == s;
    assert a[..][0..a.Length] == a[..];
    SortedSlice(infos, a[..], 0, a.Length);
    SortedTimestamps(infos, s, a[..]);
    if InTrace(infos, s) {
      SortedRecords(infos, s, a[..]);
    }
  }

  lemma SortedRecords(infos: seq<TraceInfo>, s: seq<Line>, r: seq<Line>)
    requires InTrace(infos, s) && multiset(r) == multiset(s) && Sorted(infos, r)
    ensures InTrace(infos, r) && forall i, j :: 0 <= i < j < |r| ==> infos[r[i]].ts <= infos[r[j]].ts
  {
    forall i | 0 <= i < |r|
      ensures r[i] < |infos|
    {
      assert r[i] in multiset(s);
      assert r[i] in s;
    }
    forall i, j | 0 <= i < j < |r|
      ensures infos[r[i]].ts <= infos[r[j]].ts
    {
      assert Ts(infos, r[i]) <= Ts(infos, r[j]);
    }
  }
}
