/**
 The two percentiles of the measurement scripts over exact reals: the interpolated one of the pacing run and the
 nearest-rank one of the session ramp.
 */
module Percentile {
  import opened Common

  datatype PercentileError = EmptyArray | OutOfRange(p: real)

  // ---------------------------------------------------------------- sorting

  function Insert(x: real, sorted: seq<real>): seq<real> {
    if sorted == [] || x <= sorted[0] then [x] + sorted else [sorted[0]] + Insert(x, sorted[1..])
  }

  function Sort(values: seq<real>): seq<real> {
    if values == [] then [] else Insert(values[0], Sort(values[1..]))
  }

  ghost predicate Ascending(s: seq<real>) { forall i, j :: 0 <= i <= j < |s| ==> s[i] <= s[j] }

  function Ceil(r: real): (c: int)
    ensures c as real >= r && (c - 1) as real < r
  {
    if r.Floor as real == r then r.Floor else r.Floor + 1
  }

  // ---------------------------------------------------------------- the two percentiles

  function Scaled(gap: real, fraction: real): real { gap * fraction }

  /** The value at a fractional position of a sorted list. */
  function ValueAt(sorted: seq<real>, rank: real): real
    requires 0.0 <= rank <= (|sorted| - 1) as real
  {
    var lower, upper := sorted[rank.Floor], sorted[Ceil(rank)];
    lower + Scaled(upper - lower, rank - rank.Floor as real)
  }

  /** p percent of m. */
  function Share(p: real, m: real): real { p / 100.0 * m }

  function Rank(n: nat, p: real): (rank: real)
    requires n > 0 && 0.0 <= p <= 100.0
    ensures 0.0 <= rank <= (n - 1) as real
  {
    Share(p, (n - 1) as real)
  }

  lemma Fraction(q: real, m: real)
    requires 0.0 <= q <= 1.0 && 0.0 <= m
    ensures 0.0 <= q * m <= m && 0.0 <= m * q <= m
  {
    assert (1.0 - q) * m == m - q * m;
  }

  lemma ShareMonotone(p: real, q: real, m: real)
    requires p <= q && 0.0 <= m
    ensures Share(p, m) <= Share(q, m)
  {
    assert (q - p) / 100.0 * m == q / 100.0 * m - p / 100.0 * m;
  }

  lemma ShareOneMore(p: real, m: real)
    ensures Share(p, m + 1.0) == Share(p, m) + p / 100.0
  {
  }

  /** Interpolation between closest ranks. */
  function InterpolatedPercentile(values: seq<real>, p: real): (r: Result<real, PercentileError>)
    ensures r.Failure? <==> values == [] || p < 0.0 || p > 100.0
  {
    if values == [] then Failure(EmptyArray)
    else if !(0.0 <= p <= 100.0) then Failure(OutOfRange(p))
    else
      SortLength(values);
      Success(ValueAt(Sort(values), Rank(|values|, p)))
  }

  function NearestIndex(n: nat, p: real): (idx: nat)
    requires n > 0
    ensures idx < n
  {
    var idx := Ceil(Share(p, n as real)) - 1;
    var capped := if idx < n - 1 then idx else n - 1;
    if capped > 0 then capped else 0
  }

  function NearestRankPercentile(values: seq<real>, p: real): real {
    if values == [] then 0.0
    else
      SortLength(values);
      Sort(values)[NearestIndex(|values|, p)]
  }

  // ---------------------------------------------------------------- sorting is right, and there is one right answer

  lemma {:induction false} InsertContents(x: real, sorted: seq<real>)
    ensures multiset(Insert(x, sorted)) == multiset(sorted) + multiset{x}
  {
    if !(sorted == [] || x <= sorted[0]) {
      InsertContents(x, sorted[1..]);
      assert sorted == [sorted[0]] + sorted[1..];
    }
  }

  lemma {:induction false} SortContents(values: seq<real>)
    ensures multiset(Sort(values)) == multiset(values)
  {
    if values == [] {
    } else {
      SortContents(values[1..]);
      InsertContents(values[0], Sort(values[1..]));
      assert values == [values[0]] + values[1..];
    }
  }

  lemma SortLength(values: seq<real>)
    ensures |Sort(values)| == |values|
  {
    SortContents(values);
    assert |multiset(Sort(values))| == |multiset(values)|;
  }

  lemma AscendingCons(x: real, s: seq<real>)
    requires Ascending(s) && forall y :: y in s ==> x <= y
    ensures Ascending([x] + s)
  {
    assert forall i :: 0 <= i < |s| ==> s[i] in s;
  }

  lemma InsertMembers(x: real, sorted: seq<real>)
    ensures forall y :: y in Insert(x, sorted) <==> y == x || y in sorted
  {
    InsertContents(x, sorted);
    forall y ensures y in Insert(x, sorted) <==> y == x || y in sorted {
      assert y in Insert(x, sorted) <==> y in multiset(Insert(x, sorted));
      assert y in sorted <==> y in multiset(sorted);
    }
  }

  lemma {:induction false} InsertAscending(x: real, sorted: seq<real>)
    requires Ascending(sorted)
    ensures Ascending(Insert(x, sorted))
  {
    if sorted == [] {
    } else if x <= sorted[0] {
      assert sorted == [sorted[0]] + sorted[1..];
      AscendingCons(x, sorted);
    } else {
      InsertAscending(x, sorted[1..]);
      InsertMembers(x, sorted[1..]);
      AscendingCons(sorted[0], Insert(x, sorted[1..]));
    }
  }

  lemma {:induction false} SortAscending(values: seq<real>)
    ensures Ascending(Sort(values))
  {
    if values == [] {
    } else {
      SortAscending(values[1..]);
      InsertAscending(values[0], Sort(values[1..]));
    }
  }

  lemma SameFirst(xs: seq<real>, ys: seq<real>)
    requires Ascending(xs) && Ascending(ys) && multiset(xs) == multiset(ys)
    ensures |xs| == |ys| && (xs != [] ==> xs[0] == ys[0])
  {
    assert |xs| == |multiset(xs)| == |multiset(ys)| == |ys|;
    if xs != [] {
      assert xs[0] in multiset(xs) && ys[0] in multiset(ys);
    }
  }

  lemma DropOne(xs: seq<real>)
    requires xs != []
    ensures multiset(xs[1..]) == multiset(xs) - multiset{xs[0]}
  {
    assert xs == [xs[0]] + xs[1..];
  }

  lemma SameRest(xs: seq<real>, ys: seq<real>)
    requires xs != [] && ys != [] && xs[0] == ys[0] && multiset(xs) == multiset(ys)
    ensures multiset(xs[1..]) == multiset(ys[1..])
  {
    DropOne(xs);
    DropOne(ys);
  }

  lemma {:induction false} AscendingUnique(xs: seq<real>, ys: seq<real>)
    requires Ascending(xs) && Ascending(ys) && multiset(xs) == multiset(ys)
    ensures xs == ys
  {
    SameFirst(xs, ys);
    if xs == [] {
    } else {
      hide Ascending;
      SameRest(xs, ys);
      AscendingUnique(xs[1..], ys[1..]);
    }
  }

  /** Neither percentile depends on the order the samples came in. */
  lemma OrderIndependent(values: seq<real>, other: seq<real>, p: real)
    requires multiset(values) == multiset(other)
    ensures InterpolatedPercentile(values, p) == InterpolatedPercentile(other, p)
    ensures NearestRankPercentile(values, p) == NearestRankPercentile(other, p)
  {
    assert |multiset(values)| == |values| && |multiset(other)| == |other|;
    SortContents(values);
    SortContents(other);
    SortAscending(values);
    SortAscending(other);
    AscendingUnique(Sort(values), Sort(other));
  }

  // ---------------------------------------------------------------- interpolation

  lemma ScaledInGap(gap: real, f: real)
    requires 0.0 <= gap && 0.0 <= f <= 1.0
    ensures 0.0 <= Scaled(gap, f) <= gap
    ensures f == 0.0 ==> Scaled(gap, f) == 0.0
  {
    Fraction(f, gap);
  }

  lemma ScaleMonotone(d: real, f: real, g: real)
    requires 0.0 <= d && f <= g
    ensures Scaled(d, f) <= Scaled(d, g)
  {
    assert d * (g - f) == d * g - d * f;
  }

  /** The interpolated value lies between its two neighbours. */
  lemma ValueInBracket(s: seq<real>, rank: real)
    requires Ascending(s) && 0.0 <= rank <= (|s| - 1) as real
    ensures s[rank.Floor] <= ValueAt(s, rank) <= s[Ceil(rank)]
  {
    ScaledInGap(s[Ceil(rank)] - s[rank.Floor], rank - rank.Floor as real);
    hide Scaled;
  }

  lemma ValueMonotone(s: seq<real>, a: real, b: real)
    requires Ascending(s) && 0.0 <= a <= b <= (|s| - 1) as real
    ensures ValueAt(s, a) <= ValueAt(s, b)
  {
    ValueInBracket(s, a);
    ValueInBracket(s, b);
    hide Scaled;
    if a.Floor == b.Floor {
      if Ceil(a) == Ceil(b) {
        ScaleMonotone(s[Ceil(a)] - s[a.Floor], a - a.Floor as real, b - b.Floor as real);
      } else {
        ScaledInGap(s[Ceil(a)] - s[a.Floor], a - a.Floor as real);
        assert Ceil(a) == a.Floor;
      }
    } else {
      assert Ceil(a) <= b.Floor;
    }
  }

  lemma SortMembers(values: seq<real>)
    ensures forall v :: v in Sort(values) <==> v in values
  {
    SortContents(values);
    hide Sort;
    forall v ensures v in Sort(values) <==> v in values {
      assert v in Sort(values) <==> v in multiset(Sort(values));
      assert v in values <==> v in multiset(values);
    }
  }

  ghost predicate IsLeast(low: real, values: seq<real>) { low in values && forall v :: v in values ==> low <= v }

  ghost predicate IsGreatest(high: real, values: seq<real>) { high in values && forall v :: v in values ==> v <= high }

  lemma SortEnds(values: seq<real>)
    requires values != []
    ensures |Sort(values)| == |values|
    ensures IsLeast(Sort(values)[0], values) && IsGreatest(Sort(values)[|values| - 1], values)
  {
    SortLength(values);
    SortAscending(values);
    SortMembers(values);
    var s := Sort(values);
    hide Sort;
    forall v | v in values ensures s[0] <= v <= s[|s| - 1] {
      var i :| 0 <= i < |s| && s[i] == v;
    }
    assert s[0] in s && s[|s| - 1] in s;
  }

  lemma ValueWithinEnds(s: seq<real>, rank: real)
    requires Ascending(s) && 0.0 <= rank <= (|s| - 1) as real
    ensures s[0] <= ValueAt(s, rank) <= s[|s| - 1]
    ensures ValueAt(s, 0.0) == s[0] && ValueAt(s, (|s| - 1) as real) == s[|s| - 1]
  {
    ValueInBracket(s, rank);
    ValueInBracket(s, 0.0);
    ValueInBracket(s, (|s| - 1) as real);
    hide ValueAt;
  }

  /** A percentile lies between the least sample and the greatest, which are the percentiles for 0 and 100. */
  lemma InterpolatedRange(values: seq<real>, p: real, low: real, high: real)
    requires 0.0 <= p <= 100.0 && IsLeast(low, values) && IsGreatest(high, values)
    ensures InterpolatedPercentile(values, p).Success? && low <= InterpolatedPercentile(values, p).value <= high
    ensures InterpolatedPercentile(values, 0.0) == Success(low)
    ensures InterpolatedPercentile(values, 100.0) == Success(high)
  {
    var s, m := Sort(values), (|values| - 1) as real;
    SortEnds(values);
    SortAscending(values);
    assert s[0] == low && s[|s| - 1] == high;
    hide Sort, Share, ValueAt, IsLeast, IsGreatest;
    ValueWithinEnds(s, Rank(|values|, p));
  }

  /** A higher p never gives a lower percentile. */
  lemma InterpolatedMonotone(values: seq<real>, p: real, q: real)
    requires values != [] && 0.0 <= p <= q <= 100.0
    ensures InterpolatedPercentile(values, p).value <= InterpolatedPercentile(values, q).value
  {
    SortLength(values);
    SortAscending(values);
    ShareMonotone(p, q, (|values| - 1) as real);
    hide Share, ValueAt, Sort;
    ValueMonotone(Sort(values), Rank(|values|, p), Rank(|values|, q));
  }

  /** Between position k and the next, both ends included, the value is the weighted mean of the two samples. */
  lemma WeightedMean(s: seq<real>, k: nat, f: real)
    requires k + 1 < |s| && 0.0 <= f <= 1.0
    ensures ValueAt(s, k as real + f) == (1.0 - f) * s[k] + f * s[k + 1]
  {
    var rank := k as real + f;
    if f == 1.0 {
      assert rank == (k + 1) as real && rank.Floor == k + 1;
      ScaledInGap(0.0, 0.0);
      assert ValueAt(s, rank) == s[k + 1];
    } else {
      assert rank.Floor == k;
      if f == 0.0 {
        ScaledInGap(0.0, 0.0);
        assert ValueAt(s, rank) == s[k];
      } else {
        assert Ceil(rank) == k + 1;
      }
    }
  }

  /** With the samples in ascending order s, a percentile whose position p percent of n - 1 lies a fraction f behind k
      is the mean of s[k] and s[k + 1], weighted by f. */
  lemma InterpolatedMeaning(values: seq<real>, s: seq<real>, p: real, k: nat, f: real)
    requires Ascending(s) && multiset(s) == multiset(values) && 0.0 <= p <= 100.0
    requires k + 1 < |s| && 0.0 <= f <= 1.0 && p / 100.0 * (|s| - 1) as real == k as real + f
    ensures InterpolatedPercentile(values, p) == Success((1.0 - f) * s[k] + f * s[k + 1])
  {
    assert |multiset(values)| == |values| && |multiset(s)| == |s|;
    SortContents(values);
    SortAscending(values);
    assert Share(p, (|s| - 1) as real) == k as real + f;
    hide Sort, Share, ValueAt, Ascending;
    AscendingUnique(Sort(values), s);
    WeightedMean(s, k, f);
  }

  function OneTo(n: nat): seq<real> { seq(n, (i: nat) => (i + 1) as real) }

  lemma ValueAtOneTo(n: nat, rank: real)
    requires 0.0 <= rank <= (n - 1) as real
    ensures ValueAt(OneTo(n), rank) == 1.0 + rank
  {
    var s := OneTo(n);
    var k := rank.Floor;
    var f := rank - k as real;
    if k + 1 < n {
      WeightedMean(s, k, f);
      assert s[k] == (k + 1) as real && s[k + 1] == s[k] + 1.0;
    } else {
      assert f == 0.0;
      ScaledInGap(0.0, 0.0);
    }
  }

  /** The percentile of samples holding 1, 2, .. n in any order is 1 plus p percent of n - 1, for every n and p. */
  lemma PercentileOfOneTo(values: seq<real>, n: nat, p: real)
    requires n > 0 && 0.0 <= p <= 100.0 && multiset(values) == multiset(OneTo(n))
    ensures InterpolatedPercentile(values, p) == Success(1.0 + p / 100.0 * (n - 1) as real)
  {
    var s := OneTo(n);
    assert Ascending(s);
    assert |multiset(values)| == |values| && |multiset(s)| == |s|;
    SortContents(values);
    SortAscending(values);
    assert Share(p, (n - 1) as real) == p / 100.0 * (n - 1) as real;
    hide Sort, Share, ValueAt, Ascending, OneTo;
    AscendingUnique(Sort(values), s);
    ValueAtOneTo(n, Rank(n, p));
  }

  // ---------------------------------------------------------------- nearest rank

  /** How many samples are at most v. */
  function CountAtMost(values: seq<real>, v: real): nat {
    if values == [] then 0 else (if values[0] <= v then 1 else 0) + CountAtMost(values[1..], v)
  }

  lemma {:induction false} InsertCounts(x: real, sorted: seq<real>, v: real)
    ensures CountAtMost(Insert(x, sorted), v) == CountAtMost(sorted, v) + if x <= v then 1 else 0
  {
    if sorted == [] || x <= sorted[0] {
      assert ([x] + sorted)[1..] == sorted;
    } else {
      InsertCounts(x, sorted[1..], v);
      assert ([sorted[0]] + Insert(x, sorted[1..]))[1..] == Insert(x, sorted[1..]);
    }
  }

  lemma {:induction false} SortCounts(values: seq<real>, v: real)
    ensures CountAtMost(Sort(values), v) == CountAtMost(values, v)
  {
    if values == [] {
    } else {
      SortCounts(values[1..], v);
      InsertCounts(values[0], Sort(values[1..]), v);
    }
  }

  /** In a sorted list the samples at most v are the first ones. */
  lemma {:induction false} CountPrefix(s: seq<real>, v: real, k: nat)
    requires k <= |s|
    ensures (forall i :: 0 <= i < k ==> s[i] <= v) ==> CountAtMost(s, v) >= k
    ensures (forall i :: k <= i < |s| ==> s[i] > v) ==> CountAtMost(s, v) <= k
  {
    if s == [] {
    } else {
      CountPrefix(s[1..], v, if k == 0 then 0 else k - 1);
    }
  }

  lemma NearestIndexMeaning(n: nat, p: real)
    requires n > 0 && 0.0 <= p <= 100.0
    ensures p == 0.0 ==> NearestIndex(n, p) == 0
    ensures var idx := NearestIndex(n, p); p > 0.0 ==> idx as real < Share(p, n as real) <= (idx + 1) as real
  {
  }

  /** r covers the share, and no smaller value does. */
  ghost predicate LeastCovering(r: real, values: seq<real>, share: real) {
    && r in values && CountAtMost(values, r) as real >= share
    && forall v :: v < r ==> (CountAtMost(values, v) as real) < share
  }

  /** The nearest-rank percentile is the least sample with at least p percent of all samples at or below it. */
  lemma NearestRankMeaning(values: seq<real>, p: real)
    requires values != [] && 0.0 < p <= 100.0
    ensures LeastCovering(NearestRankPercentile(values, p), values, p / 100.0 * |values| as real)
  {
    NearestRankCovers(values, p);
    assert Share(p, |values| as real) == p / 100.0 * |values| as real;
    hide LeastCovering, NearestRankPercentile;
  }

  lemma NearestRankCovers(values: seq<real>, p: real)
    requires values != [] && 0.0 < p <= 100.0
    ensures LeastCovering(NearestRankPercentile(values, p), values, Share(p, |values| as real))
  {
    var s, n := Sort(values), |values|;
    SortLength(values);
    SortAscending(values);
    SortMembers(values);
    NearestIndexMeaning(n, p);
    var idx := NearestIndex(n, p);
    hide Sort, Share, CountAtMost, NearestIndex;
    SortCounts(values, s[idx]);
    CountPrefix(s, s[idx], idx + 1);
    forall v | v < s[idx] ensures (CountAtMost(values, v) as real) < Share(p, n as real) {
      SortCounts(values, v);
      CountPrefix(s, v, idx);
    }
  }

  /** Outside (0, 100] the index is clamped, so any p gives a sample, and no sample at all gives zero. */
  lemma NearestRankClamped(values: seq<real>, p: real)
    ensures values == [] ==> NearestRankPercentile(values, p) == 0.0
    ensures values != [] && p <= 0.0 ==> IsLeast(NearestRankPercentile(values, p), values)
    ensures values != [] && p >= 100.0 ==> IsGreatest(NearestRankPercentile(values, p), values)
  {
    if values != [] {
      SortEnds(values);
      var m := |values| as real;
      if p <= 0.0 { ShareMonotone(p, 0.0, m); }
      if p >= 100.0 { ShareMonotone(100.0, p, m); }
      hide Sort, Share, IsLeast, IsGreatest;
    }
  }

  /** Both percentiles pick from the same pair of neighbours, so they never differ by more than their gap. */
  lemma SameBracket(values: seq<real>, p: real)
    requires values != [] && 0.0 <= p <= 100.0
    ensures |Sort(values)| == |values|
    ensures var rank := Rank(|values|, p); var s := Sort(values);
            && NearestIndex(|values|, p) in {rank.Floor, Ceil(rank)}
            && s[rank.Floor] <= NearestRankPercentile(values, p) <= s[Ceil(rank)]
            && s[rank.Floor] <= InterpolatedPercentile(values, p).value <= s[Ceil(rank)]
  {
    var n := |values|;
    SortLength(values);
    SortAscending(values);
    var m := (n - 1) as real;
    var rank := Rank(n, p);
    ShareOneMore(p, m);
    NearestIndexMeaning(n, p);
    assert m + 1.0 == n as real;
    hide Sort, Share, ValueAt, NearestIndex;
    ValueInBracket(Sort(values), rank);
  }
}
