/** What a latency test reports about its samples (client.go, server.go). The two percentiles
    the source computes in floating point use exact rationals. */
module LatencyReport {
  import opened Wire
  import opened Arithmetic

  const WRAP32 := 0x1_0000_0000

  function AsInt64(x: int): int64 {
    var r := x % 0x1_0000_0000_0000_0000;
    if r < 0x8000_0000_0000_0000 then r else r - 0x1_0000_0000_0000_0000
  }

  /** Division towards zero. */
  function TruncDiv(x: int, n: nat): int
    requires n > 0
  {
    if x >= 0 then x / n else -((-x) / n)
  }

  // ---------------------------------------------------------------- sorting

  ghost predicate Sorted(s: seq<int>) {
    forall i, j :: 0 <= i < j < |s| ==> s[i] <= s[j]
  }

  function Insert(s: seq<int>, x: int): (r: seq<int>)
    ensures |r| == |s| + 1
  {
    if |s| == 0 || s[|s| - 1] <= x then s + [x]
    else Insert(s[..|s| - 1], x) + [s[|s| - 1]]
  }

  /** The samples in ascending order. */
  function Sort(s: seq<int>): (r: seq<int>)
    ensures |r| == |s|
  {
    if |s| == 0 then [] else Insert(Sort(s[..|s| - 1]), s[|s| - 1])
  }

  lemma {:induction false} InsertContents(s: seq<int>, x: int)
    ensures multiset(Insert(s, x)) == multiset(s) + multiset{x}
  {
    if |s| > 0 && s[|s| - 1] > x {
      var init, last := s[..|s| - 1], s[|s| - 1];
      InsertContents(init, x);
      assert s == init + [last];
    }
  }

  lemma AllAtMost(t: seq<int>, s: seq<int>, x: int, m: int)
    requires multiset(t) == multiset(s) + multiset{x} && x <= m && forall i :: 0 <= i < |s| ==> s[i] <= m
    ensures forall i :: 0 <= i < |t| ==> t[i] <= m
  {
    forall i | 0 <= i < |t|
      ensures t[i] <= m
    {
      assert t[i] in multiset(t);
    }
  }

  lemma {:induction false} InsertSorts(s: seq<int>, x: int)
    requires Sorted(s)
    ensures Sorted(Insert(s, x))
  {
    if |s| > 0 && s[|s| - 1] > x {
      var init, last := s[..|s| - 1], s[|s| - 1];
      InsertSorts(init, x);
      InsertContents(init, x);
      AllAtMost(Insert(init, x), init, x, last);
    }
  }

  lemma {:induction false} SortSorts(s: seq<int>)
    ensures Sorted(Sort(s)) && multiset(Sort(s)) == multiset(s)
  {
    if |s| > 0 {
      var init, last := s[..|s| - 1], s[|s| - 1];
      SortSorts(init);
      InsertSorts(Sort(init), last);
      InsertContents(Sort(init), last);
      assert s == init + [last];
    }
  }

  /** Sorted sequences with the same contents end alike. */
  lemma LastsAgree(a: seq<int>, b: seq<int>)
    requires Sorted(a) && Sorted(b) && multiset(a) == multiset(b) && |a| > 0 && |b| > 0
    ensures a[|a| - 1] == b[|b| - 1]
  {
    assert a[|a| - 1] in multiset(b) && b[|b| - 1] in multiset(a);
    assert a[|a| - 1] in b && b[|b| - 1] in a;
  }

  lemma WithoutLast(a: seq<int>)
    requires |a| > 0
    ensures multiset(a[..|a| - 1]) == multiset(a) - multiset{a[|a| - 1]}
  {
    assert a == a[..|a| - 1] + [a[|a| - 1]];
  }

  lemma SameLength(a: seq<int>, b: seq<int>)
    requires multiset(a) == multiset(b)
    ensures |a| == |b|
  {
    assert |a| == |multiset(a)|;
    assert |b| == |multiset(b)|;
  }

  lemma WithoutLasts(a: seq<int>, b: seq<int>)
    requires Sorted(a) && Sorted(b) && multiset(a) == multiset(b) && |a| == |b| > 0
    ensures var n := |a| - 1; Sorted(a[..n]) && Sorted(b[..n]) && multiset(a[..n]) == multiset(b[..n])
  {
    LastsAgree(a, b);
    WithoutLast(a);
    WithoutLast(b);
  }

  /** Whatever the algorithm, sorting gives this sequence. */
  lemma {:induction false} SortUnique(a: seq<int>, b: seq<int>)
    requires Sorted(a) && Sorted(b) && multiset(a) == multiset(b)
    ensures a == b
  {
    hide Sorted;
    SameLength(a, b);
    if |a| > 0 {
      var n := |a| - 1;
      LastsAgree(a, b);
      WithoutLasts(a, b);
      SortUnique(a[..n], b[..n]);
      assert a == a[..n] + [a[n]];
    }
  }

  /** Sorts in place. */
  method SortSlice(a: array<int64>)
    modifies a
    ensures a[..] == Sort(old(a[..]))
  {
    var s := Sort(a[..]);
    forall i | 0 <= i < a.Length {
      a[i] := s[i];
    }
  }

  // ---------------------------------------------------------------- ranks

  function CountLe(s: seq<int>, v: int): nat {
    if |s| == 0 then 0 else CountLe(s[..|s| - 1], v) + if s[|s| - 1] <= v then 1 else 0
  }

  function CountLess(s: seq<int>, v: int): nat {
    CountLe(s, v - 1)
  }

  /** `v` is the k-th smallest of the samples, counted from 1. */
  ghost predicate Rank(s: seq<int>, v: int, k: nat) {
    CountLess(s, v) < k <= CountLe(s, v)
  }

  lemma {:induction false} CountInsert(s: seq<int>, x: int, v: int)
    ensures CountLe(Insert(s, x), v) == CountLe(s, v) + if x <= v then 1 else 0
  {
    if |s| == 0 || s[|s| - 1] <= x {
      assert (s + [x])[..|s|] == s;
    } else {
      var init, last := s[..|s| - 1], s[|s| - 1];
      CountInsert(init, x, v);
      assert (Insert(init, x) + [last])[..|s|] == Insert(init, x);
    }
  }

  lemma {:induction false} CountSort(s: seq<int>, v: int)
    ensures CountLe(Sort(s), v) == CountLe(s, v)
  {
    if |s| > 0 {
      CountSort(s[..|s| - 1], v);
      CountInsert(Sort(s[..|s| - 1]), s[|s| - 1], v);
    }
  }

  /** In a sorted sequence the first `i` elements are those counted, up to any value in between. */
  lemma {:induction false} CountSorted(s: seq<int>, i: nat, v: int)
    requires i <= |s|
    requires forall j :: 0 <= j < i ==> s[j] <= v
    ensures CountLe(s, v) >= i
    ensures (forall j :: i <= j < |s| ==> s[j] > v) ==> CountLe(s, v) == i
  {
    if |s| > 0 {
      CountSorted(s[..|s| - 1], if i == |s| then i - 1 else i, v);
    }
  }

  lemma {:induction false} CountAtMost(s: seq<int>, i: nat, v: int)
    requires i <= |s| && forall j :: i <= j < |s| ==> s[j] > v
    ensures CountLe(s, v) <= i
  {
    if |s| > 0 {
      CountAtMost(s[..|s| - 1], if i == |s| then i - 1 else i, v);
    }
  }

  /** What index `i` of the sorted samples holds. */
  lemma SortRank(s: seq<int>, i: nat)
    requires i < |s|
    ensures Rank(s, Sort(s)[i], i + 1)
  {
    hide Sort, CountLe;
    var t := Sort(s);
    SortSorts(s);
    CountSort(s, t[i]);
    CountSort(s, t[i] - 1);
    CountSorted(t, i + 1, t[i]);
    CountAtMost(t, i, t[i] - 1);
  }

  lemma {:induction false} CountMonotone(s: seq<int>, v: int, w: int)
    requires v <= w
    ensures CountLe(s, v) <= CountLe(s, w) <= |s|
  {
    if |s| > 0 {
      CountMonotone(s[..|s| - 1], v, w);
    }
  }

  /** A later rank is not a smaller sample, and a rank determines its sample. */
  lemma RanksOrdered(s: seq<int>, v: int, k: nat, w: int, j: nat)
    requires Rank(s, v, k) && Rank(s, w, j) && k <= j
    ensures v <= w && (k == j ==> v == w)
  {
    if w < v {
      CountMonotone(s, w, v - 1);
    }
    if v < w {
      CountMonotone(s, v, w - 1);
    }
  }

  // ---------------------------------------------------------------- which samples are reported

  /** One sample is treated as two, so that no index is negative. */
  function Fixed(n: uint32): uint32 {
    if n == 1 then 2 else n
  }

  /** rttCountFixed * p, in 32 bits. */
  function Product(n: uint32, p: nat): uint32 {
    (Fixed(n) * p) % WRAP32
  }

  /** The index the source computes for percentile `p`, in 32 bits. */
  function Index(n: uint32, p: nat): uint32 {
    (Product(n, p) / 100 + WRAP32 - 1) % WRAP32
  }

  /** The two indexes that go through floating point: 99.9% and 99.99% of the count, less one, towards
      zero. */
  function Index999(n: uint32): nat
    requires n >= 1
  {
    Fixed(n) * 999 / 1000 - 1
  }

  function Index9999(n: uint32): nat
    requires n >= 1
  {
    Fixed(n) * 9999 / 10000 - 1
  }

  datatype Report =
    | DivisionPanic
    | IndexPanic
    | Report(avg: int, min: int, max: int, p50: int, p90: int, p95: int, p99: int, p999: int, p9999: int)

  /** Whether every index falls within the samples. */
  predicate InRange(n: uint32) {
    Index(n, 50) < n && Index(n, 90) < n && Index(n, 95) < n && Index(n, 99) < n
  }

  /** What a report says: the average by 64-bit arithmetic, the smallest and the largest sample, and the
      samples of the ranks computed. */
  ghost predicate Describes(r: Report, s: seq<int>)
    requires 1 <= |s| < WRAP32
  {
    var n := |s|;
    && r.Report?
    && r.avg == TruncDiv(AsInt64(Sum(s)), n)
    && Rank(s, r.min, 1) && Rank(s, r.max, n)
    && Rank(s, r.p50, Index(n, 50) + 1) && Rank(s, r.p90, Index(n, 90) + 1)
    && Rank(s, r.p95, Index(n, 95) + 1) && Rank(s, r.p99, Index(n, 99) + 1)
    && Rank(s, r.p999, Index999(n) + 1) && Rank(s, r.p9999, Index9999(n) + 1)
  }

  lemma AddWraps(x: int, y: int)
    ensures AsInt64(AsInt64(x) + y) == AsInt64(x + y)
  {
  }

  method SumOf(numbers: array<int64>) returns (sum: int64)
    ensures sum == AsInt64(Sum(numbers[..]))
  {
    sum := 0;
    assert AsInt64(0) == 0;
    hide AsInt64;
    var i := 0;
    while i < numbers.Length
      invariant 0 <= i <= numbers.Length && sum == AsInt64(Sum(numbers[..i]))
    {
      assert numbers[..i + 1][..i] == numbers[..i];
      AddWraps(Sum(numbers[..i]), numbers[i]);
      sum := AsInt64(sum + numbers[i]);
      i := i + 1;
    }
    assert numbers[..] == numbers[..i];
  }

  lemma FractionsInRange(n: uint32)
    requires n >= 1
    ensures Index999(n) < n && Index9999(n) < n
  {
  }

  lemma RanksRead(s: seq<int>)
    ensures forall i :: 0 <= i < |s| ==> Rank(s, Sort(s)[i], i + 1)
  {
    forall i | 0 <= i < |s|
      ensures Rank(s, Sort(s)[i], i + 1)
    {
      SortRank(s, i);
    }
  }

  /** The average, then the samples sorted in place, then the percentiles by index. No samples at all, and
      an index out of range, panic. */
  method CalcLatency(numbers: array<int64>) returns (r: Report)
    requires numbers.Length < WRAP32
    modifies numbers
    ensures numbers[..] == Sort(old(numbers[..]))
    ensures if numbers.Length == 0 then r.DivisionPanic?
            else if InRange(numbers.Length) then Describes(r, old(numbers[..]))
            else r.IndexPanic?
  {
    ghost var s := numbers[..];
    var n: uint32 := numbers.Length;
    var sum := SumOf(numbers);
    if n == 0 {
      return DivisionPanic;
    }
    var elapsed := TruncDiv(sum, n);
    SortSlice(numbers);
    var i50, i90, i95, i99 := Index(n, 50), Index(n, 90), Index(n, 95), Index(n, 99);
    if i50 >= n || i90 >= n || i95 >= n || i99 >= n {
      return IndexPanic;
    }
    FractionsInRange(n);
    r := Report(elapsed, numbers[0], numbers[n - 1], numbers[i50], numbers[i90], numbers[i95], numbers[i99],
                numbers[Index999(n)], numbers[Index9999(n)]);
    RanksRead(s);
  }

  // ---------------------------------------------------------------- for how many samples this works

  /** The largest count for which no product wraps around. */
  const MAX_COUNT := 43383508

  predicate Percentile(p: nat) {
    p == 50 || p == 90 || p == 95 || p == 99
  }

  /** An index is in range exactly if the 32-bit product it comes from reaches 100. */
  lemma IndexInRange(n: uint32, p: nat)
    requires Percentile(p)
    ensures Index(n, p) < n <==> Product(n, p) >= 100
    ensures Product(n, p) >= 100 ==> Index(n, p) + 1 == Product(n, p) / 100
  {
    assert Product(n, p) <= Fixed(n) * p;
  }

  /** Exactly when the report does not panic, 0 samples included. */
  lemma NoPanicIff(n: uint32)
    ensures InRange(n) ==> n > 0
    ensures InRange(n) <==> forall p :: Percentile(p) ==> Product(n, p) >= 100
  {
    forall p | Percentile(p)
      ensures Index(n, p) < n <==> Product(n, p) >= 100
    {
      IndexInRange(n, p);
    }
    assert Percentile(50) && Percentile(90) && Percentile(95) && Percentile(99);
  }

  lemma NoWrap(n: uint32, p: nat)
    requires 1 <= n <= MAX_COUNT && Percentile(p)
    ensures Product(n, p) == Fixed(n) * p >= 100
  {
    MulLe(Fixed(n), MAX_COUNT, p);
    MulLe(2, Fixed(n), p);
    if n == 1 {
      assert Fixed(n) == 2;
    }
  }

  /** Up to MAX_COUNT samples the ranks are the percentages of the count, rounded down. */
  lemma RanksAreExact(n: uint32, p: nat)
    requires 1 <= n <= MAX_COUNT && Percentile(p)
    ensures Index(n, p) < n && Index(n, p) + 1 == Fixed(n) * p / 100
  {
    NoWrap(n, p);
    hide Product, Fixed, Percentile;
    IndexInRange(n, p);
  }

  /** One sample more and the report panics: 99% of the count wraps around to 95, and the index to
      2^32 - 1. */
  lemma FirstPanic(n: uint32)
    requires n <= MAX_COUNT + 1
    ensures InRange(n) <==> 1 <= n <= MAX_COUNT
  {
    if 1 <= n <= MAX_COUNT {
      RanksAreExact(n, 50);
      RanksAreExact(n, 90);
      RanksAreExact(n, 95);
      RanksAreExact(n, 99);
    } else if n > MAX_COUNT {
      assert Product(n, 99) == 95;
      assert Index(n, 99) == WRAP32 - 1;
    }
  }

  // ---------------------------------------------------------------- what the report means

  /** The ranks computed are in order; the two floating-point ones never are out of it. */
  predicate Ascending(n: uint32) {
    Index(n, 50) <= Index(n, 90) <= Index(n, 95) <= Index(n, 99)
  }

  lemma SmallIsAscending(n: uint32)
    requires 1 <= n <= MAX_COUNT
    ensures Ascending(n) && InRange(n)
  {
    hide Index;
    RanksAreExact(n, 50);
    RanksAreExact(n, 90);
    RanksAreExact(n, 95);
    RanksAreExact(n, 99);
  }

  lemma FractionsLast(n: uint32)
    requires n >= 1 && Index(n, 99) < n
    ensures Index(n, 99) <= Index999(n) <= Index9999(n) < n
  {
    IndexInRange(n, 99);
    assert Product(n, 99) <= Fixed(n) * 99;
  }

  predicate InOrder(r: Report) {
    r.Report? && r.min <= r.p50 <= r.p90 <= r.p95 <= r.p99 <= r.p999 <= r.p9999 <= r.max
  }

  lemma PercentilesOrdered(r: Report, s: seq<int>)
    requires 1 <= |s| < WRAP32 && InRange(|s|) && Ascending(|s|) && Describes(r, s)
    ensures InOrder(r)
  {
    hide Rank, Index999, Index9999;
    var n := |s|;
    FractionsLast(n);
    hide Index;
    RanksOrdered(s, r.min, 1, r.p50, Index(n, 50) + 1);
    RanksOrdered(s, r.p50, Index(n, 50) + 1, r.p90, Index(n, 90) + 1);
    RanksOrdered(s, r.p90, Index(n, 90) + 1, r.p95, Index(n, 95) + 1);
    RanksOrdered(s, r.p95, Index(n, 95) + 1, r.p99, Index(n, 99) + 1);
    RanksOrdered(s, r.p99, Index(n, 99) + 1, r.p999, Index999(n) + 1);
    RanksOrdered(s, r.p999, Index999(n) + 1, r.p9999, Index9999(n) + 1);
    RanksOrdered(s, r.p9999, Index9999(n) + 1, r.max, n);
  }

  /** Samples that are all different: 0 up to n - 1. */
  function Iota(n: nat): seq<int> {
    seq(n, i => i)
  }

  lemma {:induction false} IotaCount(n: nat, v: nat)
    ensures CountLe(Iota(n), v) == if v < n then v + 1 else n
  {
    if n > 0 {
      assert Iota(n)[..n - 1] == Iota(n - 1);
      IotaCount(n - 1, v);
    }
  }

  lemma IotaNone(n: nat)
    ensures CountLe(Iota(n), -1) == 0
  {
    CountAtMost(Iota(n), 0, -1);
  }

  lemma IotaRank(n: nat, i: nat)
    requires i < n
    ensures Rank(Iota(n), i, i + 1)
  {
    IotaCount(n, i);
    if i > 0 {
      IotaCount(n, i - 1);
    } else {
      IotaNone(n);
    }
  }

  /** The report on those samples shows the ranks computed, whatever they are. */
  lemma IotaReport(n: uint32) returns (r: Report)
    requires n >= 1 && InRange(n)
    ensures Describes(r, Iota(n))
    ensures r.p50 == Index(n, 50) && r.p90 == Index(n, 90) && r.p95 == Index(n, 95) && r.p99 == Index(n, 99)
  {
    hide Rank, Index, Index999, Index9999, AsInt64;
    FractionsInRange(n);
    r := Report(TruncDiv(AsInt64(Sum(Iota(n))), n), 0, n - 1, Index(n, 50), Index(n, 90), Index(n, 95), Index(n, 99),
                Index999(n), Index9999(n));
    IotaRank(n, 0);
    IotaRank(n, n - 1);
    IotaRank(n, Index(n, 50));
    IotaRank(n, Index(n, 90));
    IotaRank(n, Index(n, 95));
    IotaRank(n, Index(n, 99));
    IotaRank(n, Index999(n));
    IotaRank(n, Index9999(n));
  }

  /** For a count that does not panic, every report is in order exactly if the ranks computed are. */
  lemma OrderedIff(n: uint32)
    requires n >= 1 && InRange(n)
    ensures (forall r, s :: |s| == n && Describes(r, s) ==> InOrder(r)) <==> Ascending(n)
  {
    hide Describes, Index;
    if Ascending(n) {
      forall r, s | |s| == n && Describes(r, s)
        ensures InOrder(r)
      {
        PercentilesOrdered(r, s);
      }
    } else {
      var r := IotaReport(n);
      assert |Iota(n)| == n && Describes(r, Iota(n));
    }
  }

  /** From two samples on, the percentile reported covers the share of the samples its name says, rounded
      down, exactly if the product its rank comes from does not wrap around. */
  lemma CoverIff(n: uint32, p: nat)
    requires n >= 2 && Percentile(p) && Index(n, p) < n
    ensures (forall s, v :: |s| == n && Rank(s, v, Index(n, p) + 1) ==> CountLe(s, v) >= n * p / 100)
              <==> n * p < WRAP32
  {
    IndexInRange(n, p);
    hide Index;
    if n * p >= WRAP32 {
      var v := Index(n, p);
      IotaRank(n, v);
      IotaCount(n, v);
      assert Product(n, p) <= n * p - WRAP32;
      assert |Iota(n)| == n && Rank(Iota(n), v, Index(n, p) + 1);
    }
  }

  /** A count that does not panic and for which both fail: 99% of 43400000, wrapped around, is a smaller rank
      than 95%. */
  lemma WrappedRanks()
    ensures InRange(43_400_000) && !Ascending(43_400_000) && 43_400_000 * 99 >= WRAP32
  {
    assert Product(43_400_000, 50) == 2_170_000_000 && Product(43_400_000, 90) == 3_906_000_000;
    assert Product(43_400_000, 95) == 4_123_000_000 && Product(43_400_000, 99) == 1_632_704;
    hide Product;
    assert Index(43_400_000, 99) == 16326 && Index(43_400_000, 95) == 41_229_999;
  }

  lemma RankOfShare(n: uint32, p: nat)
    requires n >= 2 && Percentile(p) && Index(n, p) < n && n * p < WRAP32
    ensures Index(n, p) + 1 == n * p / 100
  {
    IndexInRange(n, p);
  }

  /** So where nothing wraps each percentile is the sample whose rank is the share its name says, rounded
      down: at least that many samples are no larger, and fewer are smaller. The two floating-point
      percentiles always are. */
  lemma PercentilesCover(r: Report, s: seq<int>)
    requires 2 <= |s| < WRAP32 && InRange(|s|) && Describes(r, s)
    ensures |s| * 50 < WRAP32 ==> CountLess(s, r.p50) < |s| * 50 / 100 <= CountLe(s, r.p50)
    ensures |s| * 90 < WRAP32 ==> CountLess(s, r.p90) < |s| * 90 / 100 <= CountLe(s, r.p90)
    ensures |s| * 95 < WRAP32 ==> CountLess(s, r.p95) < |s| * 95 / 100 <= CountLe(s, r.p95)
    ensures |s| * 99 < WRAP32 ==> CountLess(s, r.p99) < |s| * 99 / 100 <= CountLe(s, r.p99)
    ensures CountLess(s, r.p999) < |s| * 999 / 1000 <= CountLe(s, r.p999)
    ensures CountLess(s, r.p9999) < |s| * 9999 / 10000 <= CountLe(s, r.p9999)
  {
    hide CountLe, CountLess, Index, AsInt64, TruncDiv;
    var n := |s|;
    if n * 50 < WRAP32 {
      RankOfShare(n, 50);
    }
    if n * 90 < WRAP32 {
      RankOfShare(n, 90);
    }
    if n * 95 < WRAP32 {
      RankOfShare(n, 95);
    }
    if n * 99 < WRAP32 {
      RankOfShare(n, 99);
    }
  }

  /** With the first rank all samples are at least `lo`, with the last all are at most `hi`. */
  lemma {:induction false} CountedBounds(s: seq<int>, v: int)
    ensures CountLe(s, v) <= |s|
    ensures CountLe(s, v) == 0 <==> forall i :: 0 <= i < |s| ==> s[i] > v
    ensures CountLe(s, v) == |s| ==> forall i :: 0 <= i < |s| ==> s[i] <= v
  {
    if |s| > 0 {
      var init := s[..|s| - 1];
      CountedBounds(init, v);
      assert forall i {:trigger s[i]} {:trigger init[i]} :: 0 <= i < |init| ==> s[i] == init[i];
    }
  }

  lemma {:induction false} SumBounds(s: seq<int>, lo: int, hi: int)
    requires forall i :: 0 <= i < |s| ==> lo <= s[i] <= hi
    ensures |s| * lo <= Sum(s) <= |s| * hi
  {
    if |s| > 0 {
      SumBounds(s[..|s| - 1], lo, hi);
      assert |s| * lo == (|s| - 1) * lo + lo && |s| * hi == (|s| - 1) * hi + hi;
    }
  }

  lemma TruncDivBetween(x: int, n: nat, lo: int, hi: int)
    requires n > 0 && n * lo <= x <= n * hi
    ensures lo <= TruncDiv(x, n) <= hi
  {
    var q := TruncDiv(x, n);
    if q < lo {
      MulLe(q + 1, lo, n);
    }
    if q > hi {
      MulLe(hi + 1, q, n);
    }
  }

  /** The average lies between the smallest and the largest sample if the samples' sum fits in 64 bits. */
  lemma AverageBetween(r: Report, s: seq<int>)
    requires 1 <= |s| < WRAP32 && Describes(r, s)
    requires AsInt64(Sum(s)) == Sum(s)
    ensures r.min <= r.avg <= r.max
  {
    CountedBounds(s, r.min - 1);
    CountedBounds(s, r.max);
    SumBounds(s, r.min, r.max);
    TruncDivBetween(Sum(s), |s|, r.min, r.max);
  }

  lemma WrapOnce(x: nat)
    requires x < 0x1_0000_0000_0000_0000
    ensures AsInt64(x) == if x < 0x8000_0000_0000_0000 then x else x - 0x1_0000_0000_0000_0000
  {
  }

  lemma SmallestNonNegative(r: Report, s: seq<int>)
    requires 1 <= |s| < WRAP32 && Describes(r, s) && forall i :: 0 <= i < |s| ==> s[i] >= 0
    ensures 0 <= r.min <= r.max
  {
    hide CountLe, Index, Index999, Index9999, AsInt64, TruncDiv;
    CountedBounds(s, r.min);
    hide Rank;
    RanksOrdered(s, r.min, 1, r.max, |s|);
  }

  lemma {:induction false} NonNegativeSum(s: seq<int>)
    requires forall i :: 0 <= i < |s| ==> s[i] >= 0
    ensures Sum(s) >= 0
  {
    if |s| > 0 {
      NonNegativeSum(s[..|s| - 1]);
    }
  }

  lemma NegativeQuotient(x: int, n: nat)
    requires n > 0 && x + n <= 0
    ensures TruncDiv(x, n) < 0
  {
    assert -x == n * (-x / n) + -x % n;
  }

  lemma SmallQuotient(x: int, n: nat)
    requires n > 0 && x < 0 < x + n
    ensures TruncDiv(x, n) == 0
  {
  }

  /** A quotient lies between two natural numbers exactly if the dividend does between their products. */
  lemma QuotientBetween(x: int, n: nat, lo: nat, hi: nat)
    requires n > 0 && lo <= hi
    ensures lo <= TruncDiv(x, n) <= hi <==> (n * lo <= x || (lo == 0 && x + n > 0)) && x < n * hi + n
  {
    var q := TruncDiv(x, n);
    MulLe(0, hi, n);
    if x >= 0 {
      assert x == n * q + x % n;
      MulNext(hi, n);
      if q < lo {
        MulLe(q + 1, lo, n);
        MulNext(q, n);
      } else {
        MulLe(lo, q, n);
      }
      if q <= hi {
        MulLe(q, hi, n);
      } else {
        MulLe(hi + 1, q, n);
      }
    } else {
      MulLe(0, lo, n);
      if x + n <= 0 {
        NegativeQuotient(x, n);
      } else {
        SmallQuotient(x, n);
      }
      if lo > 0 {
        MulLe(1, lo, n);
      }
    }
  }

  /** For durations, which are not negative, the average is in place exactly if the 64-bit sum is between so
      many times the smallest and so many times the largest sample, give or take what division drops. */
  lemma AverageIff(r: Report, s: seq<int>)
    requires 1 <= |s| < WRAP32 && Describes(r, s) && forall i :: 0 <= i < |s| ==> s[i] >= 0
    ensures var sum, n := AsInt64(Sum(s)), |s|;
            r.min <= r.avg <= r.max <==> (n * r.min <= sum || (r.min == 0 && sum + n > 0)) && sum < n * r.max + n
  {
    SmallestNonNegative(r, s);
    hide Rank, AsInt64, TruncDiv;
    QuotientBetween(AsInt64(Sum(s)), |s|, r.min, r.max);
  }

  /** Unless the exact sum is within a nanosecond a sample of 2^64, that is exactly if it fits in 64 bits: a
      sum that wraps then gives a negative average. */
  lemma AverageExact(r: Report, s: seq<int>)
    requires 1 <= |s| < WRAP32 && Describes(r, s)
    requires (forall i :: 0 <= i < |s| ==> s[i] >= 0) && Sum(s) <= 0x1_0000_0000_0000_0000 - |s|
    ensures r.min <= r.avg <= r.max <==> Sum(s) < 0x8000_0000_0000_0000
  {
    NonNegativeSum(s);
    WrapOnce(Sum(s));
    SmallestNonNegative(r, s);
    hide CountLe, Rank, Sum, AsInt64, TruncDiv;
    if Sum(s) < 0x8000_0000_0000_0000 {
      AverageBetween(r, s);
    } else {
      NegativeQuotient(AsInt64(Sum(s)), |s|);
    }
  }

  /** A sum that does not fit can make it negative: two samples of 2^62 ns, about 146 years each. */
  lemma AverageWraps(r: Report)
    requires Describes(r, [0x4000_0000_0000_0000, 0x4000_0000_0000_0000])
    ensures r.avg == -0x4000_0000_0000_0000 < r.min == 0x4000_0000_0000_0000
  {
    var x := 0x4000_0000_0000_0000;
    var s := [x, x];
    assert s[..1] == [x] && [x][..0] == [];
    assert Sum(s) == x + x;
    CountedBounds(s, r.min);
    CountedBounds(s, r.min - 1);
  }
}
