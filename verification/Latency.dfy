// The rolling latency window of a resolver and its percentiles.
module Latency {

  function Least(a: nat, b: nat): nat {
    if a < b then a else b
  }

  // The most recent samples, at most size of them, in order.
  function Last(samples: seq<real>, size: nat): seq<real> {
    samples[|samples| - Least(|samples|, size)..]
  }

  predicate Sorted(s: seq<real>) {
    forall i, j | 0 <= i < j < |s| :: s[i] <= s[j]
  }

  function Total(s: seq<real>): real {
    if s == [] then 0.0 else Total(s[..|s| - 1]) + s[|s| - 1]
  }

  lemma {:induction false} TotalBetween(s: seq<real>, low: real, high: real)
    requires forall i | 0 <= i < |s| :: low <= s[i] <= high
    ensures |s| as real * low <= Total(s) <= |s| as real * high
  {
    if s != [] {
      TotalBetween(s[..|s| - 1], low, high);
      assert |s| as real * low == (|s| - 1) as real * low + low;
      assert |s| as real * high == (|s| - 1) as real * high + high;
    }
  }

  lemma MeanBetween(total: real, n: nat, low: real, high: real)
    requires n > 0 && n as real * low <= total <= n as real * high
    ensures low <= total / n as real <= high
  {
    var mean := total / n as real;
    assert mean * n as real == total;
    assert mean < low ==> mean * n as real < low * n as real;
    assert mean > high ==> mean * n as real > high * n as real;
  }

  // t is the samples in order.
  ghost predicate Sorts(t: seq<real>, samples: seq<real>) {
    Sorted(t) && multiset(t) == multiset(samples)
  }

  lemma SameHead(t: seq<real>, u: seq<real>)
    requires Sorted(t) && Sorted(u) && multiset(t) == multiset(u) && t != [] && u != []
    ensures t[0] == u[0]
  {
    assert t[0] in multiset(u) && u[0] in multiset(t);
    var i :| 0 <= i < |u| && u[i] == t[0];
    var j :| 0 <= j < |t| && t[j] == u[0];
  }

  // There is only one way to sort, so "the sample at a rank" is well defined.
  lemma {:induction false} SortsUnique(t: seq<real>, u: seq<real>)
    requires Sorted(t) && Sorted(u) && multiset(t) == multiset(u)
    ensures t == u
  {
    if t == [] {
      assert |multiset(u)| == 0;
    } else {
      assert |t| == |multiset(t)| == |multiset(u)| == |u|;
      SameHead(t, u);
      assert t == [t[0]] + t[1..] && u == [u[0]] + u[1..];
      assert multiset(t[1..]) == multiset(t) - multiset{t[0]};
      assert multiset(u[1..]) == multiset(u) - multiset{u[0]};
      SortsUnique(t[1..], u[1..]);
    }
  }

  // The median rank, the 99th percentile rank and the mean of a sorted window.
  ghost predicate Summarizes(t: seq<real>, p50: real, p99: real, avg: real) {
    var n := |t|;
    if n == 0 then p50 == p99 == avg == 0.0
    else
      && p50 == t[n / 2] && p99 == t[99 * n / 100] && p50 <= p99
      && avg * n as real == Total(t)
      && t[0] <= avg <= t[n - 1]
  }

  // Up to i, the samples are in order, but for the one at j on its way down.
  ghost predicate SortedBut(s: seq<real>, i: nat, j: nat) {
    i < |s| && forall p, q | 0 <= p < q <= i && q != j :: s[p] <= s[q]
  }

  function Swapped(s: seq<real>, j: nat): seq<real>
    requires 0 < j < |s|
  {
    s[j := s[j - 1]][j - 1 := s[j]]
  }

  lemma SwapMovesDown(s: seq<real>, i: nat, j: nat)
    requires SortedBut(s, i, j) && 0 < j <= i && s[j] < s[j - 1]
    ensures SortedBut(Swapped(s, j), i, j - 1)
  {
  }

  lemma SwapPermutes(s: seq<real>, j: nat)
    requires 0 < j < |s|
    ensures multiset(Swapped(s, j)) == multiset(s)
  {
  }

  lemma SwapsEnd(s: seq<real>, i: nat, j: nat)
    requires SortedBut(s, i, j) && j <= i && (j > 0 ==> s[j - 1] <= s[j])
    ensures Sorted(s[..i + 1])
  {
    assert forall p | 0 <= p < j :: p < j - 1 ==> s[p] <= s[j - 1];
  }

  // The inner loop of the sort: the sample at i goes down to its place.
  method Sink(a: array<real>, i: nat)
    requires i < a.Length && Sorted(a[..i])
    modifies a
    ensures Sorted(a[..i + 1]) && multiset(a[..]) == multiset(old(a[..]))
  {
    hide SortedBut, Sorted, Swapped;
    var j := i;
    StartsSorted(a[..], i);
    while j > 0 && a[j] < a[j - 1]
      invariant 0 <= j <= i
      invariant SortedBut(a[..], i, j)
      invariant multiset(a[..]) == multiset(old(a[..]))
    {
      ghost var before := a[..];
      SwapMovesDown(before, i, j);
      SwapPermutes(before, j);
      a[j], a[j - 1] := a[j - 1], a[j];
      SwappedIs(before, a[..], j);
      j := j - 1;
    }
    SwapsEnd(a[..], i, j);
  }

  // Insertion sort by swaps of neighbours.
  method InsertionSort(a: array<real>)
    modifies a
    ensures Sorted(a[..])
    ensures multiset(a[..]) == multiset(old(a[..]))
  {
    hide Sorted;
    ShortIsSorted(a[..]);
    var i := 1;
    while i < a.Length
      invariant 1 <= i
      invariant if a.Length == 0 then Sorted(a[..]) else i <= a.Length && Sorted(a[..i])
      invariant multiset(a[..]) == multiset(old(a[..]))
    {
      Sink(a, i);
      i := i + 1;
    }
    assert a.Length > 0 ==> a[..a.Length] == a[..];
  }

  lemma SwappedIs(s: seq<real>, t: seq<real>, j: nat)
    requires 0 < j < |s| == |t| && t[j] == s[j - 1] && t[j - 1] == s[j]
    requires forall k | 0 <= k < |s| && k != j && k != j - 1 :: t[k] == s[k]
    ensures t == Swapped(s, j)
  {
  }

  lemma ShortIsSorted(s: seq<real>)
    ensures |s| == 0 ==> Sorted(s)
    ensures |s| > 0 ==> Sorted(s[..1])
  {
  }

  lemma StartsSorted(s: seq<real>, i: nat)
    requires i < |s| && Sorted(s[..i])
    ensures SortedBut(s, i, i)
  {
    assert forall p | 0 <= p < i :: s[p] == s[..i][p];
  }

  class LatencyTracker {
    const buf: array<real>
    var idx: nat
    var filled: bool
    ghost var samples: seq<real>

    // The window, oldest sample first, as the buffer holds it.
    ghost function Window(): seq<real>
      requires idx <= buf.Length
      reads this, buf
    {
      if filled then buf[idx..] + buf[..idx] else buf[..idx]
    }

    ghost predicate Valid()
      reads this, buf
    {
      && idx < buf.Length
      && (filled <==> |samples| >= buf.Length)
      && Window() == Last(samples, buf.Length)
    }

    constructor (size: nat)
      requires size >= 1
      ensures Valid() && samples == [] && buf.Length == size && fresh(buf)
    {
      buf := new real[size](_ => 0.0);
      idx, filled, samples := 0, false, [];
    }

    method Add(ms: real)
      requires Valid()
      modifies this, buf
      ensures Valid() && samples == old(samples) + [ms]
    {
      ghost var before, size := Window(), buf.Length;
      buf[idx] := ms;
      idx := idx + 1;
      samples := samples + [ms];
      if idx >= buf.Length {
        idx := 0;
        filled := true;
      }
      assert Window() == (if |before| == size then before[1..] else before) + [ms];
    }

    method Percentiles() returns (p50: real, p99: real, avg: real)
      requires Valid()
      ensures exists t | Sorts(t, Last(samples, buf.Length)) :: Summarizes(t, p50, p99, avg)
    {
      hide Sorted, Last, Summarizes, Sorts, Total;
      var n := idx;
      if filled {
        n := buf.Length;
      }
      if n == 0 {
        NothingToSort();
        return 0.0, 0.0, 0.0;
      }
      ghost var window := Window();
      var copy := CopyOf(n);
      SameMultiset(n, copy[..]);
      p50, p99, avg := Statistics(copy);
      SortsWindow(copy[..], window);
    }

    // What was copied is the window, in another order.
    lemma SameMultiset(n: nat, held: seq<real>)
      requires idx < buf.Length && n == (if filled then buf.Length else idx) && held == buf[..n]
      ensures multiset(held) == multiset(Window())
    {
      if filled {
        assert held == buf[..idx] + buf[idx..];
      }
    }

    method CopyOf(n: nat) returns (copy: array<real>)
      requires n <= buf.Length
      ensures fresh(copy) && copy.Length == n && copy[..] == buf[..n]
    {
      var window := buf[..n];
      copy := new real[n](i requires 0 <= i < n => window[i]);
      assert copy[..] == window;
    }
  }

  // The figures of a copy of the window, which is sorted in place.
  method Statistics(copy: array<real>) returns (p50: real, p99: real, avg: real)
    requires copy.Length > 0
    modifies copy
    ensures Sorted(copy[..]) && multiset(copy[..]) == multiset(old(copy[..]))
    ensures Summarizes(copy[..], p50, p99, avg)
  {
    hide Sorted, Summarizes, Total;
    var n := copy.Length;
    InsertionSort(copy);
    avg := SumOf(copy);
    avg := avg / n as real;
    var p50Idx, p99Idx := n / 2, 99 * n / 100;
    if p50Idx >= n {
      p50Idx := n - 1;
    }
    if p99Idx >= n {
      p99Idx := n - 1;
    }
    RanksInRange(n);
    p50, p99 := copy[p50Idx], copy[p99Idx];
    SummaryHolds(copy[..], avg);
  }

  lemma NothingToSort()
    ensures Sorts([], []) && Summarizes([], 0.0, 0.0, 0.0)
  {
  }

  lemma RanksInRange(n: nat)
    requires n > 0
    ensures n / 2 < n && 99 * n / 100 < n
  {
  }

  lemma SortsWindow(t: seq<real>, samples: seq<real>)
    requires Sorted(t) && multiset(t) == multiset(samples)
    ensures Sorts(t, samples)
  {
  }

  lemma MeanHolds(t: seq<real>)
    requires |t| > 0 && Sorted(t)
    ensures t[0] <= Total(t) / |t| as real <= t[|t| - 1]
  {
    hide Total;
    var low, high := t[0], t[|t| - 1];
    assert forall i | 0 <= i < |t| :: low <= t[i] <= high;
    TotalBetween(t, low, high);
    hide Sorted;
    MeanBetween(Total(t), |t|, low, high);
  }

  lemma MeanTimesCount(total: real, n: nat)
    requires n > 0
    ensures total / n as real * n as real == total
  {
  }

  lemma SummaryHolds(t: seq<real>, avg: real)
    requires |t| > 0 && Sorted(t) && avg == Total(t) / |t| as real
    ensures Summarizes(t, t[|t| / 2], t[99 * |t| / 100], avg)
  {
    hide Total;
    var n := |t|;
    MeanHolds(t);
    MeanTimesCount(Total(t), n);
    assert n / 2 <= 99 * n / 100 < n;
  }

  method SumOf(a: array<real>) returns (sum: real)
    ensures sum == Total(a[..])
  {
    sum := 0.0;
    for i := 0 to a.Length
      invariant sum == Total(a[..i])
    {
      assert a[..i + 1][..i] == a[..i];
      sum := sum + a[i];
    }
    assert a[..a.Length] == a[..];
  }
}
