/** Sample statistics used by the olympic filter: the extended reals that
  * stand for the f64 infinities the filter seeds its running minimum and
  * maximum with, the (min, max, sum, count) aggregate of a run of valid
  * samples, and the trimmed mean that the filter writes out. */
module Samples {

  /** A sample bound: the running minimum starts at PosInf and the running
    * maximum at NegInf, exactly as the Rust filter seeds them with f64 infinities. */
  datatype Ext = NegInf | Fin(v: real) | PosInf

  /** The order of f64 restricted to the infinities and finite values. */
  predicate Below(a: Ext, b: Ext)
  {
    match a
    case NegInf => !b.NegInf?
    case Fin(x) => (b.Fin? && x < b.v) || b.PosInf?
    case PosInf => false
  }

  /** `if b < a { a = b }`: the update of a running minimum. */
  function Lower(a: Ext, b: Ext): Ext
  {
    if Below(b, a) then b else a
  }

  /** `if b > a { a = b }`: the update of a running maximum. */
  function Higher(a: Ext, b: Ext): Ext
  {
    if Below(a, b) then b else a
  }

  /** What the Rust filter keeps for a run of samples: one entry of each of its
    * four deques (minimum, maximum, total, count). */
  datatype Strip = Strip(lo: Ext, hi: Ext, sum: real, count: nat)

  /** The aggregate of no sample at all: the seeds of the Rust filter's loops. */
  const Empty := Strip(PosInf, NegInf, 0.0, 0)

  /** One valid sample folded into a running aggregate. */
  function Include(s: Strip, z: real): Strip
  {
    Strip(Lower(s.lo, Fin(z)), Higher(s.hi, Fin(z)), s.sum + z, s.count + 1)
  }

  /** Two aggregates combined, as the reduction over the deques does it. */
  function Merge(a: Strip, b: Strip): Strip
  {
    Strip(Lower(a.lo, b.lo), Higher(a.hi, b.hi), a.sum + b.sum, a.count + b.count)
  }

  /** Brute-force aggregate of a sequence of valid samples, scanned left to right. */
  function Summary(vs: seq<real>): Strip
  {
    if vs == [] then Empty else Include(Summary(vs[..|vs| - 1]), vs[|vs| - 1])
  }

  /** Appending a sample to a run folds it into the run's aggregate. */
  lemma SummaryOfSnoc(vs: seq<real>, z: real)
    ensures Summary(vs + [z]) == Include(Summary(vs), z)
  {
    assert (vs + [z])[..|vs|] == vs;
  }

  function Sum(vs: seq<real>): real
  {
    if vs == [] then 0.0 else Sum(vs[..|vs| - 1]) + vs[|vs| - 1]
  }

  function Smallest(vs: seq<real>): real
    requires |vs| > 0
  {
    if |vs| == 1 then vs[0]
    else
      var m := Smallest(vs[..|vs| - 1]);
      if vs[|vs| - 1] < m then vs[|vs| - 1] else m
  }

  function Largest(vs: seq<real>): real
    requires |vs| > 0
  {
    if |vs| == 1 then vs[0]
    else
      var m := Largest(vs[..|vs| - 1]);
      if vs[|vs| - 1] > m then vs[|vs| - 1] else m
  }

  /** The olympic mean of a non-empty neighbourhood: the mean after dropping
    * one occurrence of the largest and one of the smallest value, or the
    * plain mean when there are only one or two values. */
  function OlympicMean(vs: seq<real>): real
    requires |vs| > 0
  {
    var n := |vs|;
    if n > 2 then (Sum(vs) - Largest(vs) - Smallest(vs)) / ((n - 2) as real)
    else Sum(vs) / (n as real)
  }

  /** Smallest is a lower bound of the sequence and one of its elements. */
  lemma {:induction false} SmallestIsLeast(vs: seq<real>) returns (i: nat)
    requires |vs| > 0
    ensures i < |vs| && vs[i] == Smallest(vs)
    ensures forall j :: 0 <= j < |vs| ==> Smallest(vs) <= vs[j]
  {
    if |vs| == 1 {
      i := 0;
    } else {
      var init := vs[..|vs| - 1];
      var k := SmallestIsLeast(init);
      assert forall j :: 0 <= j < |vs| - 1 ==> vs[j] == init[j];
      i := if vs[|vs| - 1] < Smallest(init) then |vs| - 1 else k;
    }
  }

  /** Largest is an upper bound of the sequence and one of its elements. */
  lemma {:induction false} LargestIsGreatest(vs: seq<real>) returns (i: nat)
    requires |vs| > 0
    ensures i < |vs| && vs[i] == Largest(vs)
    ensures forall j :: 0 <= j < |vs| ==> vs[j] <= Largest(vs)
  {
    if |vs| == 1 {
      i := 0;
    } else {
      var init := vs[..|vs| - 1];
      var k := LargestIsGreatest(init);
      assert forall j :: 0 <= j < |vs| - 1 ==> vs[j] == init[j];
      i := if vs[|vs| - 1] > Largest(init) then |vs| - 1 else k;
    }
  }

  /** The brute-force aggregate is the count, the sum, the smallest and the
    * largest of the samples; an empty run keeps the infinite seeds. */
  lemma {:induction false} SummaryMeaning(vs: seq<real>)
    ensures Summary(vs).count == |vs| && Summary(vs).sum == Sum(vs)
    ensures vs == [] ==> Summary(vs).lo == PosInf && Summary(vs).hi == NegInf
    ensures vs != [] ==> Summary(vs).lo == Fin(Smallest(vs)) && Summary(vs).hi == Fin(Largest(vs))
  {
    if vs != [] {
      SummaryMeaning(vs[..|vs| - 1]);
    }
  }

  /** The olympic mean needs nothing but the aggregate: the count, the sum
    * and the two extremes of a non-empty run determine it. */
  lemma OlympicMeanOfSummary(vs: seq<real>)
    requires |vs| > 0
    ensures var s := Summary(vs);
      s.lo.Fin? && s.hi.Fin? && s.count == |vs| &&
      OlympicMean(vs) == if s.count > 2 then (s.sum - s.hi.v - s.lo.v) / ((s.count - 2) as real)
                         else s.sum / (s.count as real)
  {
    SummaryMeaning(vs);
  }

  lemma LowerAssociates(p: Ext, q: Ext, r: Ext)
    ensures Lower(Lower(p, q), r) == Lower(p, Lower(q, r))
  {
  }

  lemma HigherAssociates(p: Ext, q: Ext, r: Ext)
    ensures Higher(Higher(p, q), r) == Higher(p, Higher(q, r))
  {
  }

  /** Folding one more sample in after a merge is merging after folding it in. */
  lemma IncludeAfterMerge(sa: Strip, si: Strip, z: real)
    ensures Include(Merge(sa, si), z) == Merge(sa, Include(si, z))
  {
    LowerAssociates(sa.lo, si.lo, Fin(z));
    HigherAssociates(sa.hi, si.hi, Fin(z));
  }

  lemma MergeEmpty(sa: Strip)
    ensures Merge(sa, Empty) == sa
  {
    assert Lower(sa.lo, PosInf) == sa.lo;
    assert Higher(sa.hi, NegInf) == sa.hi;
  }

  /** Aggregating a concatenation is merging the aggregates of the parts:
    * the fact that lets strips be summarised once and combined later. */
  lemma {:induction false} SummaryOfConcat(a: seq<real>, b: seq<real>)
    ensures Summary(a + b) == Merge(Summary(a), Summary(b))
  {
    if b == [] {
      assert a + b == a;
      MergeEmpty(Summary(a));
    } else {
      var init := b[..|b| - 1];
      var z := b[|b| - 1];
      assert (a + b)[..|a + b| - 1] == a + init;
      assert (a + b)[|a + b| - 1] == z;
      assert Summary(a + b) == Include(Summary(a + init), z);
      SummaryOfConcat(a, init);
      IncludeAfterMerge(Summary(a), Summary(init), z);
    }
  }

  lemma {:induction false} SumOfConcat(a: seq<real>, b: seq<real>)
    ensures Sum(a + b) == Sum(a) + Sum(b)
  {
    if b == [] {
      assert a + b == a;
    } else {
      assert (a + b)[..|a + b| - 1] == a + b[..|b| - 1];
      SumOfConcat(a, b[..|b| - 1]);
    }
  }

  /** n copies of x added up; keeps the bounds below free of products. */
  function Times(n: nat, x: real): real
  {
    if n == 0 then 0.0 else Times(n - 1, x) + x
  }

  lemma {:induction false} TimesIsProduct(n: nat, x: real)
    ensures Times(n, x) == (n as real) * x
  {
    if n > 0 {
      TimesIsProduct(n - 1, x);
    }
  }

  lemma {:induction false} SumBetween(vs: seq<real>, lo: real, hi: real)
    requires forall j :: 0 <= j < |vs| ==> lo <= vs[j] <= hi
    ensures Times(|vs|, lo) <= Sum(vs) <= Times(|vs|, hi)
  {
    if vs != [] {
      SumBetween(vs[..|vs| - 1], lo, hi);
    }
  }

  /** Taking the element at index i out of the sum. */
  lemma SumWithout(vs: seq<real>, i: nat)
    requires i < |vs|
    ensures Sum(vs) == vs[i] + Sum(vs[..i] + vs[i + 1..])
  {
    var before, here, after := vs[..i], [vs[i]], vs[i + 1..];
    assert vs == before + (here + after);
    SumOfConcat(before, here + after);
    SumOfConcat(here, after);
    SumOfConcat(before, after);
    assert here[..0] == [];
  }

  /** Removing one element from a sequence whose elements lie in [lo, hi]
    * leaves a sum within (|vs| - 1) times those bounds. */
  lemma WithoutStaysBetween(vs: seq<real>, i: nat, lo: real, hi: real)
    requires i < |vs|
    requires forall j :: 0 <= j < |vs| ==> lo <= vs[j] <= hi
    ensures var rest := vs[..i] + vs[i + 1..];
      |rest| == |vs| - 1 && forall j :: 0 <= j < |rest| ==> lo <= rest[j] <= hi
  {
    var rest := vs[..i] + vs[i + 1..];
    forall j | 0 <= j < |rest| ensures lo <= rest[j] <= hi {
      if j < i { assert rest[j] == vs[j]; } else { assert rest[j] == vs[j + 1]; }
    }
  }

  lemma SumWithoutBetween(vs: seq<real>, i: nat, lo: real, hi: real)
    requires i < |vs|
    requires forall j :: 0 <= j < |vs| ==> lo <= vs[j] <= hi
    ensures Times(|vs| - 1, lo) <= Sum(vs) - vs[i] <= Times(|vs| - 1, hi)
  {
    var rest := vs[..i] + vs[i + 1..];
    WithoutStaysBetween(vs, i, lo, hi);
    SumWithout(vs, i);
    SumBetween(rest, lo, hi);
  }

  /** The olympic mean never leaves the range of the samples it is taken
    * over: trimming one extreme value at each end keeps it a mean. */
  lemma OlympicMeanInRange(vs: seq<real>)
    requires |vs| > 0
    ensures Smallest(vs) <= OlympicMean(vs) <= Largest(vs)
  {
    var n := |vs|;
    var m, mx := Smallest(vs), Largest(vs);
    var iMin := SmallestIsLeast(vs);
    var iMax := LargestIsGreatest(vs);
    if n > 2 {
      var t := Sum(vs) - mx - m;
      SumWithoutBetween(vs, iMin, m, mx);
      SumWithoutBetween(vs, iMax, m, mx);
      assert Times(n - 1, mx) == Times(n - 2, mx) + mx;
      assert Times(n - 1, m) == Times(n - 2, m) + m;
      DivideBetween(t, n - 2, m, mx);
    } else {
      SumBetween(vs, m, mx);
      DivideBetween(Sum(vs), n, m, mx);
    }
  }

  lemma DivideBetween(t: real, k: nat, lo: real, hi: real)
    requires k > 0 && Times(k, lo) <= t <= Times(k, hi)
    ensures lo <= t / (k as real) <= hi
  {
    TimesIsProduct(k, lo);
    TimesIsProduct(k, hi);
    assert t / (k as real) * (k as real) == t;
  }
}
