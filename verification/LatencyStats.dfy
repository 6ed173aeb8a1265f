/** Exact latency statistics: percentiles read off a lazily sorted vector. */
module LatencyStats {
  import opened Mqtt
  import opened Arithmetic

  const TWO64: int := 0x1_0000_0000_0000_0000
  const TWO128: int := 0x1_0000_0000_0000_0000_0000_0000_0000_0000

  type U64 = v: int | 0 <= v < 0x1_0000_0000_0000_0000

  // ---- sorting, as the library's in-place sort leaves the vector ----

  predicate Sorted(s: seq<U64>) {
    forall i, j :: 0 <= i < j < |s| ==> s[i] <= s[j]
  }

  lemma Prepend(v: U64, t: seq<U64>)
    requires Sorted(t) && forall x :: x in multiset(t) ==> v <= x
    ensures Sorted([v] + t)
  {
    forall i | 0 <= i < |t| ensures v <= t[i] {
      assert t[i] in multiset(t);
    }
  }

  /** The tail of a sorted vector is sorted, and above its head. */
  lemma TailSorted(s: seq<U64>)
    requires Sorted(s) && s != []
    ensures Sorted(s[1..]) && forall x :: x in multiset(s[1..]) ==> s[0] <= x
  {
    forall x | x in multiset(s[1..]) ensures s[0] <= x {
      assert x in s[1..];
    }
  }

  lemma HeadAndTail(s: seq<U64>)
    requires s != []
    ensures multiset(s) == multiset{s[0]} + multiset(s[1..])
  {
    assert s == [s[0]] + s[1..];
  }

  /** A head below a sorted tail and below v, which is somewhere in the new tail. */
  lemma HeadBelow(s: seq<U64>, v: U64, t: seq<U64>)
    requires Sorted(s) && s != [] && s[0] <= v && Sorted(t) && multiset(t) == multiset(s[1..]) + multiset{v}
    ensures Sorted([s[0]] + t) && multiset([s[0]] + t) == multiset(s) + multiset{v}
  {
    TailSorted(s);
    HeadAndTail(s);
    Prepend(s[0], t);
  }

  lemma NewHead(s: seq<U64>, v: U64)
    requires Sorted(s) && (s == [] || v <= s[0])
    ensures Sorted([v] + s) && multiset([v] + s) == multiset(s) + multiset{v}
  {
  }

  function InsertSorted(s: seq<U64>, v: U64): (r: seq<U64>)
    requires Sorted(s)
    ensures Sorted(r) && multiset(r) == multiset(s) + multiset{v}
  {
    if s == [] || v <= s[0] then
      NewHead(s, v);
      [v] + s
    else
      TailSorted(s);
      var t := InsertSorted(s[1..], v);
      HeadBelow(s, v, t);
      [s[0]] + t
  }

  function Sort(s: seq<U64>): (r: seq<U64>)
    ensures Sorted(r) && multiset(r) == multiset(s) && |r| == |s|
  {
    if s == [] then [] else
      HeadAndTail(s);
      var r := InsertSorted(Sort(s[1..]), s[0]);
      assert |multiset(r)| == |multiset(s)|;
      r
  }

  lemma HeadIsLeast(a: seq<U64>, v: U64)
    requires Sorted(a) && v in multiset(a)
    ensures a != [] && a[0] <= v && a[0] in multiset(a)
    ensures multiset(a[1..]) == multiset(a) - multiset{a[0]}
  {
    assert v in a;
    assert a == [a[0]] + a[1..];
  }

  lemma {:induction false} SortedIsUnique(a: seq<U64>, b: seq<U64>)
    requires Sorted(a) && Sorted(b) && multiset(a) == multiset(b)
    ensures a == b
    decreases |a|
  {
    if a == [] {
      assert |multiset(b)| == |multiset(a)| == 0;
    } else {
      assert a[0] in multiset(a);
      HeadIsLeast(b, a[0]);
      HeadIsLeast(a, b[0]);
      assert a[0] == b[0];
      SortedIsUnique(a[1..], b[1..]);
      Rejoin(a, b);
    }
  }

  lemma Rejoin(a: seq<U64>, b: seq<U64>)
    requires a != [] && b != [] && a[0] == b[0] && a[1..] == b[1..]
    ensures a == b
  {
    assert a == [a[0]] + a[1..] && b == [b[0]] + b[1..];
  }

  // ---- nearest-rank percentile ----

  /** The rank of fraction num/den among n samples: num * n / den, rounded up. */
  function Rank(num: nat, den: nat, n: nat): nat
    requires den > 0
  {
    (num * n + den - 1) / den
  }

  function Percentile(sorted: seq<U64>, num: nat, den: nat): U64
    requires sorted != [] && den > 0
  {
    var rank := Rank(num, den, |sorted|);
    var index := if rank == 0 then 0 else rank - 1;
    sorted[if index < |sorted| - 1 then index else |sorted| - 1]
  }

  /** How many samples are at or below u. */
  function AtOrBelow(s: seq<U64>, u: int): nat {
    if s == [] then 0 else (if s[0] <= u then 1 else 0) + AtOrBelow(s[1..], u)
  }

  /** In a sorted vector more than k samples are at or below u exactly when the
      one at index k is. */
  lemma {:induction false} CountInSorted(s: seq<U64>, u: int, k: nat)
    requires Sorted(s) && k < |s|
    ensures AtOrBelow(s, u) >= k + 1 <==> s[k] <= u
    decreases |s|
  {
    AtOrBelowBound(s[1..], u);
    if k > 0 {
      CountInSorted(s[1..], u, k - 1);
      assert s[1..][k - 1] == s[k];
      assert s[0] <= s[k];
      if s[0] > u { AboveMeansNone(s[1..], u); }
    } else if s[0] > u {
      AboveMeansNone(s[1..], u);
    }
  }

  lemma {:induction false} AtOrBelowBound(s: seq<U64>, u: int)
    ensures AtOrBelow(s, u) <= |s|
    decreases |s|
  {
    if s != [] { AtOrBelowBound(s[1..], u); }
  }

  lemma {:induction false} AboveMeansNone(s: seq<U64>, u: int)
    requires forall i :: 0 <= i < |s| ==> s[i] > u
    ensures AtOrBelow(s, u) == 0
    decreases |s|
  {
    if s != [] { AboveMeansNone(s[1..], u); }
  }

  lemma RankBounds(num: nat, den: nat, n: nat)
    requires 0 < num <= den && n > 0
    ensures 1 <= Rank(num, den, n) <= n
    ensures forall k: nat :: den * k >= num * n <==> k >= Rank(num, den, n)
  {
    var r := Rank(num, den, n);
    var x := num * n;
    assert x >= 1 && x <= den * n by {
      MulLe(1, n, num);
      MulLe(num, den, n);
    }
    DivUp(x, den);
    assert (r - 1) * den < x <= r * den;
    if r > n {
      MulLe(n, r - 1, den);
      assert false;
    }
    forall k: nat ensures den * k >= x <==> k >= r {
      if k >= r { MulLe(r, k, den); } else { MulLe(k, r - 1, den); }
    }
  }

  lemma DivUp(x: nat, den: nat)
    requires den > 0 && x > 0
    ensures var r := (x + den - 1) / den; (r - 1) * den < x <= r * den
  {
    var y := x + den - 1;
    assert y == y / den * den + y % den;
  }

  /** The percentile is the least value at or below which at least num/den of
      the samples fall: it decides that question for every candidate u. */
  lemma NearestRank(s: seq<U64>, num: nat, den: nat, u: int)
    requires Sorted(s) && s != [] && 0 < num <= den
    ensures den * AtOrBelow(s, u) >= num * |s| <==> Percentile(s, num, den) <= u
    ensures Percentile(s, num, den) in s
  {
    RankBounds(num, den, |s|);
    var r := Rank(num, den, |s|);
    CountInSorted(s, u, r - 1);
  }

  lemma PercentileMonotone(s: seq<U64>, p: nat, q: nat, den: nat)
    requires Sorted(s) && s != [] && 0 < p <= q <= den
    ensures s[0] <= Percentile(s, p, den) <= Percentile(s, q, den) <= s[|s| - 1]
  {
    NearestRank(s, q, den, Percentile(s, q, den));
    NearestRank(s, p, den, Percentile(s, q, den));
    MulLe(p, q, |s|);
  }

  // ---- the summary ----

  function Sum(s: seq<U64>): nat {
    if s == [] then 0 else s[0] + Sum(s[1..])
  }

  lemma {:induction false} SumBounds(s: seq<U64>, lo: nat, hi: nat)
    requires forall i :: 0 <= i < |s| ==> lo <= s[i] <= hi
    ensures lo * |s| <= Sum(s) <= hi * |s|
    decreases |s|
  {
    if s != [] {
      SumBounds(s[1..], lo, hi);
      OneTermMore(lo, hi, |s| - 1, Sum(s[1..]), s[0]);
    }
  }

  lemma OneTermMore(lo: nat, hi: nat, n: nat, sum: nat, x: nat)
    requires lo * n <= sum <= hi * n && lo <= x <= hi
    ensures lo * (n + 1) <= x + sum <= hi * (n + 1)
  {
  }

  datatype Summary = Summary(count: nat, min: U64, p50: U64, p95: U64, p99: U64, max: U64, mean: nat)

  /** Every statistic, read off the sorted vector. */
  function Statistics(s: seq<U64>): Summary
    requires s != []
  {
    Summary(|s|, s[0], Percentile(s, 50, 100), Percentile(s, 95, 100), Percentile(s, 99, 100),
            s[|s| - 1], Sum(s) / |s|)
  }

  function SummaryOf(values: seq<U64>): Option<Summary> {
    if values == [] then None else Some(Statistics(Sort(values)))
  }

  lemma SummaryDependsOnMultiset(a: seq<U64>, b: seq<U64>)
    requires multiset(a) == multiset(b)
    ensures SummaryOf(a) == SummaryOf(b)
  {
    assert |multiset(a)| == |multiset(b)|;
    SortedIsUnique(Sort(a), Sort(b));
  }

  /** The statistics are ordered, the mean lies between the extremes, and neither
      the 128-bit sum nor the 64-bit mean overflows for any vector that fits
      in memory. */
  lemma SummaryIsSane(values: seq<U64>)
    requires values != [] && |values| < TWO64
    ensures var m := SummaryOf(values).value;
            && m.count == |values|
            && m.min <= m.p50 <= m.p95 <= m.p99 <= m.max
            && m.min <= m.mean <= m.max < TWO64
            && m.min in values && m.max in values && (forall v :: v in values ==> m.min <= v <= m.max)
    ensures Sum(Sort(values)) < TWO128
  {
    var s := Sort(values);
    StatisticsAreOrdered(s);
    SumFits(s);
    ExtremesAreAttained(values, s);
  }

  lemma ExtremesAreAttained(values: seq<U64>, s: seq<U64>)
    requires Sorted(s) && multiset(s) == multiset(values) && s != []
    ensures s[0] in values && s[|s| - 1] in values
    ensures forall v :: v in values ==> s[0] <= v <= s[|s| - 1]
  {
    assert s[0] in multiset(s) && s[|s| - 1] in multiset(s);
    assert s[0] in multiset(values) && s[|s| - 1] in multiset(values);
    forall v | v in values ensures s[0] <= v <= s[|s| - 1] {
      assert v in multiset(values);
      assert v in multiset(s);
      var i :| 0 <= i < |s| && s[i] == v;
    }
  }

  lemma StatisticsAreOrdered(s: seq<U64>)
    requires Sorted(s) && s != []
    ensures var m := Statistics(s); m.min <= m.p50 <= m.p95 <= m.p99 <= m.max && m.min <= m.mean <= m.max
  {
    PercentileMonotone(s, 50, 95, 100);
    PercentileMonotone(s, 95, 99, 100);
    SumBounds(s, s[0], s[|s| - 1]);
    MeanBetween(Sum(s), s[0], s[|s| - 1], |s|);
  }

  lemma MeanBetween(sum: nat, lo: nat, hi: nat, n: nat)
    requires n > 0 && lo * n <= sum <= hi * n
    ensures lo <= sum / n <= hi
  {
    var q := sum / n;
    assert sum == q * n + sum % n;
    if q < lo {
      MulLe(q + 1, lo, n);
      assert false;
    }
    assert q * n <= hi * n;
  }

  lemma SumFits(s: seq<U64>)
    requires |s| < TWO64
    ensures Sum(s) < TWO128
  {
    SumBounds(s, 0, TWO64 - 1);
    MulLe(|s|, TWO64 - 1, TWO64 - 1);
    assert (TWO64 - 1) * (TWO64 - 1) < TWO128;
  }

  // ---- what each field means, in terms of the samples as recorded ----

  lemma {:induction false} InsertSortedCounts(s: seq<U64>, v: U64, u: int)
    requires Sorted(s)
    ensures AtOrBelow(InsertSorted(s, v), u) == AtOrBelow(s, u) + (if v <= u then 1 else 0)
    ensures Sum(InsertSorted(s, v)) == Sum(s) + v
    decreases |s|
  {
    if s == [] || v <= s[0] {
      assert ([v] + s)[1..] == s;
    } else {
      TailSorted(s);
      var t := InsertSorted(s[1..], v);
      InsertSortedCounts(s[1..], v, u);
      assert ([s[0]] + t)[1..] == t;
    }
  }

  /** Sorting changes neither the sum nor how many samples are at or below u. */
  lemma {:induction false} SortCounts(s: seq<U64>, u: int)
    ensures AtOrBelow(Sort(s), u) == AtOrBelow(s, u) && Sum(Sort(s)) == Sum(s)
    decreases |s|
  {
    if s != [] {
      SortCounts(s[1..], u);
      InsertSortedCounts(Sort(s[1..]), s[0], u);
    }
  }

  /** p50, p95 and p99 are the least values at or below which 50, 95 and 99 of a hundred
      samples fall: each answers that question for every candidate u. */
  lemma SummaryPercentiles(values: seq<U64>, u: int)
    requires values != []
    ensures var m := SummaryOf(values).value;
            && (100 * AtOrBelow(values, u) >= 50 * |values| <==> m.p50 <= u)
            && (100 * AtOrBelow(values, u) >= 95 * |values| <==> m.p95 <= u)
            && (100 * AtOrBelow(values, u) >= 99 * |values| <==> m.p99 <= u)
  {
    SortCounts(values, u);
    NearestRank(Sort(values), 50, 100, u);
    NearestRank(Sort(values), 95, 100, u);
    NearestRank(Sort(values), 99, 100, u);
  }

  predicate RoundedDown(sum: nat, n: nat, q: nat) {
    q * n <= sum < (q + 1) * n
  }

  lemma RoundsDown(sum: nat, n: nat)
    requires n > 0
    ensures RoundedDown(sum, n, sum / n)
  {
    assert sum == sum / n * n + sum % n;
  }

  /** The mean is the sum of the samples over their number, rounded down. */
  lemma SummaryMean(values: seq<U64>)
    requires values != []
    ensures SummaryOf(values).value.count == |values|
    ensures RoundedDown(Sum(values), |values|, SummaryOf(values).value.mean)
  {
    SortCounts(values, 0);
    RoundsDown(Sum(values), |values|);
  }

  /** There is no summary exactly when nothing was recorded. */
  lemma NoSummaryIffEmpty(values: seq<U64>)
    ensures SummaryOf(values) == None <==> |values| == 0
  {
  }

  // ---- any order of record, merge and intermediate summary ----

  datatype Op = Record(value: U64) | Merge(others: seq<U64>) | Summarize

  datatype Vector = Vector(values: seq<U64>, sorted: bool)

  predicate FlagHonest(v: Vector) {
    v.sorted ==> Sorted(v.values)
  }

  function Perform(v: Vector, op: Op): Vector {
    match op
    case Record(x) => Vector(v.values + [x], false)
    case Merge(others) => Vector(v.values + others, false)
    case Summarize => if v.values == [] then v else Vector(if v.sorted then v.values else Sort(v.values), true)
  }

  function PerformAll(v: Vector, ops: seq<Op>): Vector
    decreases |ops|
  {
    if ops == [] then v else PerformAll(Perform(v, ops[0]), ops[1..])
  }

  function Recorded(ops: seq<Op>): multiset<U64> {
    if ops == [] then multiset{}
    else (match ops[0]
          case Record(x) => multiset{x}
          case Merge(others) => multiset(others)
          case Summarize => multiset{}) + Recorded(ops[1..])
  }

  lemma {:induction false} PerformAllKeepsSamples(v: Vector, ops: seq<Op>)
    requires FlagHonest(v)
    ensures FlagHonest(PerformAll(v, ops))
    ensures multiset(PerformAll(v, ops).values) == multiset(v.values) + Recorded(ops)
    decreases |ops|
  {
    if ops != [] {
      PerformAllKeepsSamples(Perform(v, ops[0]), ops[1..]);
    }
  }

  /** Taking a summary leaves the vector sorted and marked so. */
  lemma SummarizeSorts(v: Vector)
    requires FlagHonest(v) && v.values != []
    ensures var w := Perform(v, Summarize); w.sorted && Sorted(w.values) && w.values == Sort(v.values)
  {
    if v.sorted { SortedIsUnique(v.values, Sort(v.values)); }
  }

  /** Two histories that recorded the same samples report the same summary,
      whatever the order and however often a summary was taken on the way. */
  lemma HistoryIsIrrelevant(ops: seq<Op>, ops': seq<Op>)
    requires Recorded(ops) == Recorded(ops')
    ensures SummaryOf(PerformAll(Vector([], false), ops).values)
            == SummaryOf(PerformAll(Vector([], false), ops').values)
  {
    PerformAllKeepsSamples(Vector([], false), ops);
    PerformAllKeepsSamples(Vector([], false), ops');
    SummaryDependsOnMultiset(PerformAll(Vector([], false), ops).values, PerformAll(Vector([], false), ops').values);
  }

  // ---- the object ----

  method Total(values: seq<U64>) returns (sum: nat)
    ensures sum == Sum(values)
  {
    sum := 0;
    for i := 0 to |values|
      invariant sum + Sum(values[i..]) == Sum(values)
    {
      sum := sum + values[i];
      assert values[i..][1..] == values[i + 1..];
    }
  }

  method ReadOff(s: seq<U64>) returns (m: Summary)
    requires s != []
    ensures m == Statistics(s)
  {
    var sum := Total(s);
    m := Summary(|s|, s[0], Percentile(s, 50, 100), Percentile(s, 95, 100), Percentile(s, 99, 100),
                 s[|s| - 1], sum / |s|);
  }

  class Samples {
    var values: seq<U64>
    var sorted: bool

    ghost function State(): Vector
      reads this
    {
      Vector(values, sorted)
    }

    ghost predicate Valid()
      reads this
    {
      FlagHonest(State())
    }

    constructor ()
      ensures Valid() && State() == Vector([], false)
    {
      values, sorted := [], false;
    }

    method Add(nanos: U64)
      requires Valid()
      modifies this
      ensures Valid() && State() == Perform(old(State()), Record(nanos))
    {
      values := values + [nanos];
      sorted := false;
    }

    method Absorb(other: Samples)
      requires Valid()
      modifies this
      ensures Valid() && State() == Perform(old(State()), Merge(old(other.values)))
    {
      values := values + other.values;
      sorted := false;
    }

    method Summarise() returns (r: Option<Summary>)
      requires Valid()
      modifies this
      ensures Valid() && State() == Perform(old(State()), Summarize)
      ensures r == SummaryOf(old(values))
    {
      if values == [] {
        return None;
      }
      if !sorted {
        values := Sort(values);
        sorted := true;
      }
      SortedIsUnique(Sort(old(values)), values);
      var m := ReadOff(values);
      r := Some(m);
    }
  }
}
