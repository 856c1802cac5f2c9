/** `calculatePriceDifference`: the mean of the ticket prices, their median
    after an in-place ascending sort, and the difference of the two. Prices
    are exact integers and the statistics exact reals. */
module PriceStats {
  import opened Wrappers
  import opened Tickets

  /** The price of every ticket, one per ticket, in order. */
  function Prices(ts: seq<Ticket>): (r: seq<int>)
    ensures |r| == |ts| && forall i :: 0 <= i < |ts| ==> r[i] == ts[i].price
  {
    if ts == [] then [] else Prices(ts[..|ts| - 1]) + [ts[|ts| - 1].price]
  }

  function Sum(s: seq<int>): int {
    if s == [] then 0 else Sum(s[..|s| - 1]) + s[|s| - 1]
  }

  /** The average of the prices, falling back to 0.0 for no prices. */
  function Mean(s: seq<int>): (r: real)
    ensures s == [] ==> r == 0.0
    ensures s != [] ==> r * (|s| as real) == Sum(s) as real
  {
    if s == [] then 0.0 else (Sum(s) as real) / (|s| as real)
  }

  /** A sum of values in [lo, hi] lies between |s|*lo and |s|*hi. */
  lemma {:induction false} SumBounds(s: seq<int>, lo: int, hi: int)
    requires forall i :: 0 <= i < |s| ==> lo <= s[i] <= hi
    ensures |s| * lo <= Sum(s) <= |s| * hi
  {
    if s != [] {
      SumBounds(s[..|s| - 1], lo, hi);
    }
  }

  /** The mean lies between the least and the greatest price. */
  lemma MeanBounds(s: seq<int>, lo: int, hi: int)
    requires s != []
    requires forall i :: 0 <= i < |s| ==> lo <= s[i] <= hi
    ensures lo as real <= Mean(s) <= hi as real
  {
    SumBounds(s, lo, hi);
    MeanBetween(Sum(s), |s|, lo, hi, Mean(s));
  }

  /** The same bound, stated over the total and the count. */
  lemma MeanBetween(total: int, count: nat, lo: int, hi: int, q: real)
    requires count > 0 && q * (count as real) == total as real
    requires count * lo <= total <= count * hi
    ensures lo as real <= q <= hi as real
  {
    var n := count as real;
    assert ((count * lo) as real) == (lo as real) * n;
    assert ((count * hi) as real) == (hi as real) * n;
    QuotientBounds(q, n, total as real, lo as real, hi as real);
  }

  /** A quotient by a positive count inherits the bounds of the total. */
  lemma QuotientBounds(q: real, n: real, total: real, lo: real, hi: real)
    requires n > 0.0 && q * n == total && lo * n <= total <= hi * n
    ensures lo <= q <= hi
  {
  }

  /** Prices that are all equal have that price as their mean. */
  lemma MeanOfEqual(s: seq<int>, p: int)
    requires s != []
    requires forall i :: 0 <= i < |s| ==> s[i] == p
    ensures Mean(s) == p as real
  {
    MeanBounds(s, p, p);
  }

  predicate IsSorted(s: seq<int>) {
    forall i, j :: 0 <= i < j < |s| ==> s[i] <= s[j]
  }

  /** `x` placed before the first element of `s` not smaller than it. */
  function Insert(x: int, s: seq<int>): (r: seq<int>)
    ensures |r| == |s| + 1
  {
    if s == [] || x <= s[0] then [x] + s
    else [s[0]] + Insert(x, s[1..])
  }

  /** Inserting adds exactly one `x` and nothing else. */
  lemma {:induction false} InsertPermutes(x: int, s: seq<int>)
    ensures multiset(Insert(x, s)) == multiset(s) + multiset{x}
  {
    if s != [] && x > s[0] {
      InsertPermutes(x, s[1..]);
      assert s == [s[0]] + s[1..];
    }
  }

  /** A lower bound of `x` and of all of `s` bounds the insertion too. */
  lemma {:induction false} InsertLowerBound(lo: int, x: int, s: seq<int>)
    requires lo <= x && forall k :: 0 <= k < |s| ==> lo <= s[k]
    ensures forall k :: 0 <= k < |s| + 1 ==> lo <= Insert(x, s)[k]
  {
    if s != [] && x > s[0] {
      InsertLowerBound(lo, x, s[1..]);
    }
  }

  /** A sorted list stays sorted when an element no larger than all of it
      is put in front. */
  lemma ConsSorted(h: int, t: seq<int>)
    requires IsSorted(t) && forall k :: 0 <= k < |t| ==> h <= t[k]
    ensures IsSorted([h] + t)
  {
    var r := [h] + t;
    forall i, j | 0 <= i < j < |r| ensures r[i] <= r[j] {
      assert r[j] == t[j - 1];
      if i > 0 {
        assert r[i] == t[i - 1];
      }
    }
  }

  /** Inserting into a sorted list keeps it sorted. */
  lemma {:induction false} InsertSorted(x: int, s: seq<int>)
    requires IsSorted(s)
    ensures IsSorted(Insert(x, s))
  {
    if s == [] || x <= s[0] {
      ConsSorted(x, s);
    } else {
      var tail := s[1..];
      InsertSorted(x, tail);
      InsertLowerBound(s[0], x, tail);
      ConsSorted(s[0], Insert(x, tail));
    }
  }

  /** The ascending arrangement of a list of prices (an insertion sort). */
  function Sort(s: seq<int>): (r: seq<int>)
    ensures |r| == |s|
  {
    if s == [] then [] else Insert(s[|s| - 1], Sort(s[..|s| - 1]))
  }

  /** The sort is sorted and a permutation of its input. */
  lemma {:induction false} SortSpec(s: seq<int>)
    ensures IsSorted(Sort(s)) && multiset(Sort(s)) == multiset(s)
  {
    if s != [] {
      var init := s[..|s| - 1];
      SortSpec(init);
      InsertSorted(s[|s| - 1], Sort(init));
      InsertPermutes(s[|s| - 1], Sort(init));
      assert s == init + [s[|s| - 1]];
    }
  }

  /** The head of a sorted list is its least element. */
  lemma SortedHeadLeast(s: seq<int>, v: int)
    requires IsSorted(s) && v in multiset(s)
    ensures s[0] <= v
  {
    assert v in s;
    var k :| 0 <= k < |s| && s[k] == v;
  }

  /** A sorted list without its head is still sorted. */
  lemma SortedTail(s: seq<int>)
    requires IsSorted(s) && s != []
    ensures IsSorted(s[1..])
  {
    forall i, j | 0 <= i < j < |s| - 1 ensures s[1..][i] <= s[1..][j] {
      assert s[1..][i] == s[i + 1] && s[1..][j] == s[j + 1];
    }
  }

  /** A list has only one ascending arrangement: two sorted lists with the
      same elements are equal. Ties need no stable placement. */
  lemma {:induction false} SortedUnique(a: seq<int>, b: seq<int>)
    requires IsSorted(a) && IsSorted(b) && multiset(a) == multiset(b)
    ensures a == b
  {
    if a != [] {
      assert |b| == |a| by {
        assert |multiset(b)| == |multiset(a)|;
      }
      assert a[0] in multiset(a) && b[0] in multiset(b);
      SortedHeadLeast(a, b[0]);
      SortedHeadLeast(b, a[0]);
      assert a[0] == b[0];
      assert multiset(a[1..]) == multiset(b[1..]) by {
        assert a == [a[0]] + a[1..] && b == [b[0]] + b[1..];
        assert multiset(a) == multiset{a[0]} + multiset(a[1..]);
        assert multiset(b) == multiset{a[0]} + multiset(b[1..]);
        forall v ensures multiset(a[1..])[v] == multiset(b[1..])[v] {
          assert multiset(a)[v] == multiset{a[0]}[v] + multiset(a[1..])[v];
          assert multiset(b)[v] == multiset{a[0]}[v] + multiset(b[1..])[v];
        }
      }
      SortedTail(a);
      SortedTail(b);
      SortedUnique(a[1..], b[1..]);
      assert a == [a[0]] + a[1..] && b == [b[0]] + b[1..];
    }
  }

  /** Exchanges the neighbours at `j - 1` and `j`. */
  method SwapDown(a: array<int>, j: nat)
    requires 0 < j < a.Length
    modifies a
    ensures a[..] == old(a[..])[j - 1 := old(a[j])][j := old(a[j - 1])]
    ensures multiset(a[..]) == old(multiset(a[..]))
  {
    a[j - 1], a[j] := a[j], a[j - 1];
  }

  /** One insertion step: moves `a[i]` down into the sorted prefix `a[..i]`
      until its left neighbour is not larger, leaving `a[i + 1..]` alone. */
  method SinkInto(a: array<int>, i: nat)
    requires i < a.Length && IsSorted(a[..i])
    modifies a
    ensures IsSorted(a[..i + 1])
    ensures multiset(a[..]) == old(multiset(a[..]))
    ensures a[i + 1..] == old(a[i + 1..])
  {
    var j := i;
    while j > 0 && a[j - 1] > a[j]
      invariant 0 <= j <= i
      invariant multiset(a[..]) == old(multiset(a[..]))
      invariant a[i + 1..] == old(a[i + 1..])
      invariant forall k, l :: 0 <= k < l <= i && k != j && l != j ==> a[k] <= a[l]
      invariant forall l :: j < l <= i ==> a[j] < a[l]
    {
      SwapDown(a, j);
      j := j - 1;
    }
  }

  /** `Collections.sort(prices)`: an in-place ascending sort. Afterwards
      the array is sorted and holds the same prices as before. */
  method SortInPlace(a: array<int>)
    modifies a
    ensures IsSorted(a[..])
    ensures multiset(a[..]) == old(multiset(a[..]))
  {
    for i := 0 to a.Length
      invariant IsSorted(a[..i])
      invariant multiset(a[..]) == old(multiset(a[..]))
    {
      SinkInto(a, i);
    }
    assert a[..a.Length] == a[..];
  }

  /** The median of a sorted price list: the middle element for an odd
      count, the exact mean of the two central elements for an even one,
      and 0.0 (like the mean) for no prices at all. Of a sorted list, the
      first half (rounded up) lies at or below it and the last half (rounded
      up) at or above it. */
  function Median(s: seq<int>): (r: real)
    ensures s == [] ==> r == 0.0
    ensures IsSorted(s) ==> forall i :: 0 <= i < (|s| + 1) / 2 ==> s[i] as real <= r
    ensures IsSorted(s) ==> forall i :: |s| / 2 <= i < |s| ==> r <= s[i] as real
    ensures s != [] && |s| % 2 == 0 ==> r - s[|s| / 2 - 1] as real == s[|s| / 2] as real - r
  {
    var size := |s|;
    if size == 0 then 0.0
    else if size % 2 == 1 then s[size / 2] as real
    else (s[size / 2 - 1] + s[size / 2]) as real / 2.0
  }

  /** The median exactly as lines 98-104 compute it: for an even count the
      two central prices are added in 32-bit `int` arithmetic before the
      division by 2.0, and for an empty list the even branch reads index -1. */
  function MedianAsWritten(s: seq<int>): (r: Result<real, Error>)
    ensures r.Failure? <==> s == []
  {
    var size := |s|;
    if size % 2 == 1 then Success(s[size / 2] as real)
    else if size / 2 - 1 < 0 then Failure(IndexOutOfBounds(size / 2 - 1))
    else Success(Wrap32(s[size / 2 - 1] + s[size / 2]) as real / 2.0)
  }

  /** An empty price list makes the source's median fail at `get(-1)`. */
  lemma MedianAsWrittenEmpty()
    ensures MedianAsWritten([]) == Failure(IndexOutOfBounds(-1))
  {
  }

  /** Two maximal `int` prices overflow in the source's addition: its
      median is -1.0, below every price, where the true median is 2^31-1. */
  lemma MedianAsWrittenOverflow()
    ensures IsSorted([Int32Max, Int32Max])
    ensures MedianAsWritten([Int32Max, Int32Max]) == Success(-1.0)
    ensures Median([Int32Max, Int32Max]) == Int32Max as real
  {
    assert Wrap32(Int32Max + Int32Max) == -2;
  }

  /** Away from the empty list and the overflow, the source's median is the
      exact one. */
  lemma MedianAsWrittenAgrees(s: seq<int>)
    requires s != []
    requires |s| % 2 == 0 ==> Int32Min <= s[|s| / 2 - 1] + s[|s| / 2] <= Int32Max
    ensures MedianAsWritten(s) == Success(Median(s))
  {
  }

  /** The three printed statistics. */
  datatype PriceReport = PriceReport(mean: real, median: real, difference: real)

  /** Mean, median of the ascending arrangement, and mean minus median. */
  function PriceReportOf(prices: seq<int>): PriceReport {
    var mean := Mean(prices);
    var median := Median(Sort(prices));
    PriceReport(mean, median, mean - median)
  }

  /** The median lies between two of the prices (the least and the
      greatest), whatever their order before sorting. */
  lemma MedianWithinPrices(prices: seq<int>)
    requires prices != []
    ensures exists i :: 0 <= i < |prices| && prices[i] as real <= PriceReportOf(prices).median
    ensures exists j :: 0 <= j < |prices| && PriceReportOf(prices).median <= prices[j] as real
  {
    var sorted := Sort(prices);
    SortSpec(prices);
    assert sorted[0] in multiset(prices) && sorted[|sorted| - 1] in multiset(prices) by {
      assert sorted[0] in multiset(sorted) && sorted[|sorted| - 1] in multiset(sorted);
    }
    assert sorted[0] in prices && sorted[|sorted| - 1] in prices;
  }

  /** With no prices both statistics fall back to 0.0 and nothing fails. */
  lemma PriceReportEmpty()
    ensures PriceReportOf([]) == PriceReport(0.0, 0.0, 0.0)
  {
  }

  /** One price is its own mean and median: the difference is 0. */
  lemma PriceReportSingle(p: int)
    ensures PriceReportOf([p]) == PriceReport(p as real, p as real, 0.0)
  {
    assert [p][..0] == [];
    assert Sort([p]) == Insert(p, []) == [p];
    assert Sum([p]) == p;
  }

  /** Prices that are all equal (of any count) have mean == median, so the
      difference is 0. */
  lemma PriceReportEqual(prices: seq<int>, p: int)
    requires prices != []
    requires forall i :: 0 <= i < |prices| ==> prices[i] == p
    ensures PriceReportOf(prices) == PriceReport(p as real, p as real, 0.0)
  {
    MeanOfEqual(prices, p);
    var sorted := Sort(prices);
    SortSpec(prices);
    forall i | 0 <= i < |sorted| ensures sorted[i] == p {
      assert sorted[i] in multiset(prices) by {
        assert sorted[i] in multiset(sorted);
      }
    }
  }

  /** `calculatePriceDifference` without the printing: extract the prices,
      average them, copy them into a list sorted in place, and take the
      median of the sorted list. The median is the corrected one (`Median`):
      it gives 0.0 for no prices where the source fails at `get(-1)`, and
      the exact midpoint where the source's `int` sum wraps around
      (`MedianAsWritten` keeps the source's behaviour). */
  method CalculatePriceDifference(tickets: seq<Ticket>) returns (r: PriceReport)
    ensures r == PriceReportOf(Prices(tickets))
  {
    var prices := Prices(tickets);
    var averagePrice := Mean(prices);
    var sorted := new int[|prices|](i requires 0 <= i < |prices| => prices[i]);
    assert sorted[..] == prices;
    SortInPlace(sorted);
    SortSpec(prices);
    SortedUnique(sorted[..], Sort(prices));
    var medianPrice := Median(sorted[..]);
    r := PriceReport(averagePrice, medianPrice, averagePrice - medianPrice);
  }
}
