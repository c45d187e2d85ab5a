/** The site-wise maximum mean discrepancy in `compare_dynamics_MMD`. For
    every site the reduced features of all subsamples are collected, the
    reference and query means are compared with `mmd_rbf`, and a bootstrap
    of 500 neutral comparisons (reference against reference control) gives
    an empirical p-value. The exponential of the RBF kernel and the random
    draws are inputs. */
module Discrepancy {
  import opened TextUtil
  import opened Frames
  import opened Features
  import opened Divergence

  // ---------------------------------------------------------------------
  // Kernels and `mmd_rbf`.

  type Kernel = (seq<real>, seq<real>) -> real

  ghost predicate Symmetric(k: Kernel) {
    forall x: seq<real>, y: seq<real> :: k(x, y) == k(y, x)
  }

  ghost predicate UnitDiagonal(k: Kernel) {
    forall x: seq<real> :: k(x, x) == 1.0
  }

  /** `gamma=1.0/6` of `mmd_rbf`. */
  const Gamma: real := 1.0 / 6.0

  /** The squared Euclidean distance of two feature vectors. */
  function SqDist(x: seq<real>, y: seq<real>): (d: real)
    ensures d >= 0.0
  {
    if x == [] || y == [] then 0.0
    else
      assert (x[0] - y[0]) * (x[0] - y[0]) >= 0.0;
      (x[0] - y[0]) * (x[0] - y[0]) + SqDist(x[1..], y[1..])
  }

  /** One entry of `rbf_kernel` with parameter `gamma`:
      `exp(-gamma * ||x - y||^2)`, for a given exponential. */
  function RbfValue(exp: real -> real, gamma: real, x: seq<real>, y: seq<real>): real {
    exp(-gamma * SqDist(x, y))
  }

  function Rbf(exp: real -> real, gamma: real): Kernel {
    (x: seq<real>, y: seq<real>) => RbfValue(exp, gamma, x, y)
  }

  lemma {:induction false} SqDistSymmetric(x: seq<real>, y: seq<real>)
    ensures SqDist(x, y) == SqDist(y, x)
  {
    if x != [] && y != [] {
      SqDistSymmetric(x[1..], y[1..]);
      assert (x[0] - y[0]) * (x[0] - y[0]) == (y[0] - x[0]) * (y[0] - x[0]);
    }
  }

  lemma {:induction false} SqDistSelf(x: seq<real>)
    ensures SqDist(x, x) == 0.0
  {
    if x != [] {
      SqDistSelf(x[1..]);
    }
  }

  lemma RbfValueSymmetric(exp: real -> real, gamma: real, x: seq<real>, y: seq<real>)
    ensures RbfValue(exp, gamma, x, y) == RbfValue(exp, gamma, y, x)
  {
    SqDistSymmetric(x, y);
    var a, b := -gamma * SqDist(x, y), -gamma * SqDist(y, x);
    assert a == b;
    assert exp(a) == exp(b);
  }

  /** The RBF kernel is symmetric, and it is 1 on equal vectors whenever
      the exponential maps 0 to 1. */
  lemma RbfIsKernel(exp: real -> real, gamma: real)
    requires exp(0.0) == 1.0
    ensures Symmetric(Rbf(exp, gamma)) && UnitDiagonal(Rbf(exp, gamma))
  {
    var k := Rbf(exp, gamma);
    forall x: seq<real>, y: seq<real> ensures k(x, y) == k(y, x) {
      RbfValueSymmetric(exp, gamma, x, y);
    }
    forall x: seq<real> ensures k(x, x) == 1.0 {
      SqDistSelf(x);
      assert RbfValue(exp, gamma, x, x) == exp(-gamma * 0.0);
    }
  }

  /** The sum of `k(x, y)` over the rows `y` of `ys`. */
  function RowSum(x: seq<real>, ys: Matrix, k: Kernel): real {
    if ys == [] then 0.0 else k(x, ys[0]) + RowSum(x, ys[1..], k)
  }

  /** The sum of the kernel matrix `k(X[i], Y[j])`. */
  function KernelSum(xs: Matrix, ys: Matrix, k: Kernel): real {
    if xs == [] then 0.0 else RowSum(xs[0], ys, k) + KernelSum(xs[1..], ys, k)
  }

  /** `rbf_kernel(X, Y).mean()`. */
  function KernelMean(xs: Matrix, ys: Matrix, k: Kernel): real
    requires |xs| > 0 && |ys| > 0
  {
    KernelSum(xs, ys, k) / (|xs| as real * |ys| as real)
  }

  /** `XX.mean() + YY.mean() - 2 * XY.mean()`. */
  function Mmd(xs: Matrix, ys: Matrix, k: Kernel): real
    requires |xs| > 0 && |ys| > 0
  {
    KernelMean(xs, xs, k) + KernelMean(ys, ys, k) - 2.0 * KernelMean(xs, ys, k)
  }

  /** A table has no discrepancy with itself, whatever the kernel. */
  lemma MmdSelf(xs: Matrix, k: Kernel)
    requires |xs| > 0
    ensures Mmd(xs, xs, k) == 0.0
  {
  }

  /** Under a symmetric kernel the discrepancy is symmetric. */
  lemma MmdSymmetric(xs: Matrix, ys: Matrix, k: Kernel)
    requires |xs| > 0 && |ys| > 0 && Symmetric(k)
    ensures Mmd(xs, ys, k) == Mmd(ys, xs, k)
  {
    KernelSumSwap(xs, ys, k);
    assert |xs| as real * |ys| as real == |ys| as real * |xs| as real;
  }

  /** Two single vectors (as `mmd_rbf` receives them, reshaped to one row)
      differ by `2 - 2 k(a, b)` under a kernel that is 1 on equal vectors. */
  lemma MmdSingle(a: seq<real>, b: seq<real>, k: Kernel)
    requires UnitDiagonal(k)
    ensures Mmd([a], [b], k) == 2.0 - 2.0 * k(a, b)
  {
    SingleSum(a, a, k);
    SingleSum(b, b, k);
    SingleSum(a, b, k);
  }

  lemma SingleSum(a: seq<real>, b: seq<real>, k: Kernel)
    ensures KernelSum([a], [b], k) == k(a, b)
  {
    assert [a][1..] == [] && [b][1..] == [];
    assert RowSum(a, [b], k) == k(a, b) + RowSum(a, [], k);
    assert KernelSum([a], [b], k) == RowSum(a, [b], k) + KernelSum([], [b], k);
  }

  lemma {:induction false} KernelSumSwap(xs: Matrix, ys: Matrix, k: Kernel)
    requires Symmetric(k)
    ensures KernelSum(xs, ys, k) == KernelSum(ys, xs, k)
  {
    if ys != [] {
      KernelSumCons(xs, ys[0], ys[1..], k);
      assert [ys[0]] + ys[1..] == ys;
      KernelSumSwap(xs, ys[1..], k);
    } else {
      KernelSumEmpty(xs, k);
    }
  }

  lemma {:induction false} KernelSumEmpty(xs: Matrix, k: Kernel)
    ensures KernelSum(xs, [], k) == 0.0
  {
    if xs != [] {
      KernelSumEmpty(xs[1..], k);
    }
  }

  /** Peeling the first row of the second argument. */
  lemma {:induction false} KernelSumCons(xs: Matrix, y: seq<real>, ys: Matrix, k: Kernel)
    requires Symmetric(k)
    ensures KernelSum(xs, [y] + ys, k) == RowSum(y, xs, k) + KernelSum(xs, ys, k)
  {
    if xs != [] {
      KernelSumCons(xs[1..], y, ys, k);
      assert ([y] + ys)[1..] == ys;
      assert k(xs[0], y) == k(y, xs[0]);
    }
  }

  // ---------------------------------------------------------------------
  // The mean feature vector (`DataFrame(samples).mean()`).

  function Sum(xs: seq<real>): real {
    if xs == [] then 0.0 else xs[0] + Sum(xs[1..])
  }

  /** Component `c` is the average of component `c` over the samples. */
  function MeanVector(samples: Matrix, w: nat): (v: seq<real>)
    requires |samples| > 0 && Rectangular(samples, w)
    ensures |v| == w
  {
    seq(w, c requires 0 <= c < w => Sum(Column(samples, c)) / |samples| as real)
  }

  /** The mean of copies of one vector is that vector. */
  lemma MeanOfCopies(samples: Matrix, v: seq<real>)
    requires |samples| > 0
    requires forall i | 0 <= i < |samples| :: samples[i] == v
    ensures MeanVector(samples, |v|) == v
  {
    forall c | 0 <= c < |v| ensures MeanVector(samples, |v|)[c] == v[c] {
      SumOfConstant(Column(samples, c), v[c]);
    }
  }

  lemma {:induction false} SumOfConstant(xs: seq<real>, x: real)
    requires forall i | 0 <= i < |xs| :: xs[i] == x
    ensures Sum(xs) == |xs| as real * x
  {
    if xs != [] {
      SumOfConstant(xs[1..], x);
    }
  }

  // ---------------------------------------------------------------------
  // The bootstrap.

  /** `for t in range(500)`. */
  const Rounds: nat := 500

  /** The p-value cutoff `0.99`. */
  const Level: real := 0.99

  /** Every draw is a pair of indices `randint(0, subsamples - 1)`. */
  predicate InRange(draws: seq<(int, int)>, s: nat) {
    forall t | 0 <= t < |draws| :: 0 <= draws[t].0 < s && 0 <= draws[t].1 < s
  }

  /** The neutral discrepancy of round `t`: a drawn reference sample
      against a drawn reference-control sample. */
  function Neutral(refs: Matrix, ctls: Matrix, draws: seq<(int, int)>, t: nat, k: Kernel): real
    requires t < |draws| && 0 <= draws[t].0 < |refs| && 0 <= draws[t].1 < |ctls|
  {
    Mmd([refs[draws[t].0]], [ctls[draws[t].1]], k)
  }

  /** The number of neutral discrepancies the observed one exceeds. */
  function Exceeded(obs: real, neutral: seq<real>): (c: nat)
    ensures c <= |neutral|
  {
    if neutral == [] then 0
    else Exceeded(obs, neutral[..|neutral| - 1]) + (if obs > neutral[|neutral| - 1] then 1 else 0)
  }

  /** `cntGREATER / (cntGREATER + cntLESSER)`. */
  function EmpiricalP(greater: nat, lesser: nat): real
    requires greater + lesser > 0
  {
    greater as real / (greater + lesser) as real
  }

  /** The bootstrap loop: counters start at 1 and every round adds one to
      exactly one of them. */
  method Bootstrap(obs: real, refs: Matrix, ctls: Matrix, draws: seq<(int, int)>, k: Kernel)
    returns (greater: nat, lesser: nat, neutral: seq<real>)
    requires |draws| == Rounds && |ctls| == |refs| && InRange(draws, |refs|)
    ensures |neutral| == Rounds
    ensures forall t | 0 <= t < Rounds :: neutral[t] == Neutral(refs, ctls, draws, t, k)
    ensures greater == 1 + Exceeded(obs, neutral)
    ensures lesser == 1 + Rounds - Exceeded(obs, neutral)
    ensures greater + lesser == Rounds + 2
  {
    greater, lesser, neutral := 1, 1, [];
    var t := 0;
    while t < Rounds
      invariant t <= Rounds && |neutral| == t
      invariant forall e | 0 <= e < t :: neutral[e] == Neutral(refs, ctls, draws, e, k)
      invariant greater == 1 + Exceeded(obs, neutral)
      invariant lesser == 1 + t - Exceeded(obs, neutral)
    {
      var x := Mmd([refs[draws[t].0]], [ctls[draws[t].1]], k);
      ghost var before := neutral;
      neutral := neutral + [x];
      assert neutral[..|neutral| - 1] == before;
      if obs > x {
        greater := greater + 1;
      }
      if obs <= x {
        lesser := lesser + 1;
      }
      t := t + 1;
    }
  }

  /** The empirical p-value of 502 counts lies in [1/502, 501/502]. */
  lemma PValueBounds(greater: nat, lesser: nat)
    requires greater >= 1 && lesser >= 1 && greater + lesser == Rounds + 2
    ensures 1.0 / 502.0 <= EmpiricalP(greater, lesser) <= 501.0 / 502.0
    ensures 0.0 < EmpiricalP(greater, lesser) < 1.0
  {
  }

  /** A site is significant exactly when the observed discrepancy exceeds
      at least 496 of the 500 neutral ones. */
  lemma SignificantCount(greater: nat, lesser: nat)
    requires greater + lesser == Rounds + 2
    ensures EmpiricalP(greater, lesser) > Level <==> greater >= 497
  {
    assert EmpiricalP(greater, lesser) == greater as real / 502.0;
  }

  // ---------------------------------------------------------------------
  // One site.

  /** What the analysis keeps for a site: the observed discrepancy of the
      mean vectors, the two counters and the label. */
  datatype SiteStat = SiteStat(mmd: real, greater: nat, lesser: nat, verdict: Label)

  /** Row `i + 1` of every table exists, so site `i` can be read. */
  predicate Readable(tables: seq<Matrix>, i: nat) {
    forall j | 0 <= j < |tables| :: i + 1 < |tables[j]|
  }

  /** Every table has more than `n` rows, so sites `0 .. n - 1` can be read. */
  predicate Reaches(tables: seq<Matrix>, n: nat) {
    forall j | 0 <= j < |tables| :: n < |tables[j]|
  }

  /** The samples of site `i`: from every subsample's table the data row
      `iloc[i]` reads, which is written row `i + 1`. */
  function SamplesAt(tables: seq<Matrix>, i: nat): (s: Matrix)
    requires Readable(tables, i)
    ensures |s| == |tables|
  {
    seq(|tables|, j requires 0 <= j < |tables| => tables[j][i + 1])
  }

  predicate Widths(tables: seq<Matrix>, w: nat) {
    forall j | 0 <= j < |tables| :: Rectangular(tables[j], w)
  }

  /** The per-site computation. */
  function SiteStatOf(refT: seq<Matrix>, ctlT: seq<Matrix>, queryT: seq<Matrix>, w: nat, k: Kernel,
                      draws: seq<(int, int)>, i: nat): SiteStat
    requires |refT| > 0 && |ctlT| == |refT| && |queryT| == |refT|
    requires Widths(refT, w) && Widths(ctlT, w) && Widths(queryT, w)
    requires Readable(refT, i) && Readable(ctlT, i) && Readable(queryT, i)
    requires |draws| == Rounds && InRange(draws, |refT|)
  {
    var refs := SamplesAt(refT, i);
    var ctls := SamplesAt(ctlT, i);
    var obs := Mmd([MeanVector(refs, w)], [MeanVector(SamplesAt(queryT, i), w)], k);
    var neutral := seq(Rounds, t requires 0 <= t < Rounds => Neutral(refs, ctls, draws, t, k));
    var g := 1 + Exceeded(obs, neutral);
    var l := 1 + Rounds - Exceeded(obs, neutral);
    SiteStat(obs, g, l, if EmpiricalP(g, l) > Level then Sig else Ns)
  }

  /** The sample collection of one table for site `i`, subsample by
      subsample (the inner `for j in range(subsamples)` loop). */
  method CollectSamples(tables: seq<Matrix>, i: nat) returns (r: Option<Matrix>)
    ensures r.Some? <==> Readable(tables, i)
    ensures r.Some? ==> r.value == SamplesAt(tables, i)
  {
    var samples: Matrix := [];
    var j := 0;
    while j < |tables|
      invariant j <= |tables| && |samples| == j
      invariant forall e | 0 <= e < j :: i + 1 < |tables[e]| && samples[e] == tables[e][i + 1]
    {
      var s := SiteSample(tables[j], i);
      if s.None? {
        return None;
      }
      samples := samples + [s.value];
      j := j + 1;
    }
    r := Some(samples);
  }

  // ---------------------------------------------------------------------
  // All sites.

  datatype MmdError =
    | NoSubsamples  // no feature vector to average (ValueError)
    | MissingRow    // `iloc[i]` past the last data row (IndexError)
    | NoResidues    // the residue file is empty (EmptyDataError)
    | NoSites       // no site: the joined table has fewer than four columns to name (ValueError)

  /** One row of the `maxMeanDiscrepancy` table: pos, res, MMD, pval. */
  datatype MmdRow = MmdRow(pos: int, res: string, mmd: real, verdict: Label)

  datatype MmdReport = MmdReport(stats: seq<SiteStat>, table: seq<MmdRow>)

  /** Every site below `n` has 500 draws in range. */
  predicate DrawsFor(draws: seq<seq<(int, int)>>, s: nat, n: nat) {
    |draws| >= n && forall i | 0 <= i < n :: |draws[i]| == Rounds && InRange(draws[i], s)
  }

  /** What the caller guarantees: one table of each kind per subsample, the
      reduced features of one width in all three kinds, and 500 draws in
      range for every site. */
  predicate Inputs(length: int, refT: seq<Matrix>, ctlT: seq<Matrix>, queryT: seq<Matrix>, w: nat,
                   draws: seq<seq<(int, int)>>)
  {
    |ctlT| == |refT| && |queryT| == |refT| && Widths(refT, w) && Widths(ctlT, w) && Widths(queryT, w) &&
    |draws| >= Sites(length - 1) &&
    forall i | 0 <= i < Sites(length - 1) :: |draws[i]| == Rounds && (|refT| > 0 ==> InRange(draws[i], |refT|))
  }

  /** The rows of the inner join with the residue codes. */
  function MmdTable(stats: seq<SiteStat>, codes: seq<string>): (rows: seq<MmdRow>)
    ensures |rows| == if |stats| <= |codes| then |stats| else |codes|
  {
    var m := if |stats| <= |codes| then |stats| else |codes|;
    seq(m, i requires 0 <= i < m => MmdRow(i + 1, codes[i], stats[i].mmd, stats[i].verdict))
  }

  /** `range(length_prot - 1)` sites; no subsample is an error once there
      is a site, and so is a table too short for the last site. After the
      loop an empty residue file cannot be read, and with no site at all the
      joined table has no MMD and pval columns to name. */
  function Discrepancies(length: int, refT: seq<Matrix>, ctlT: seq<Matrix>, queryT: seq<Matrix>, w: nat,
                         codes: seq<string>, k: Kernel, draws: seq<seq<(int, int)>>): (r: Result<MmdReport, MmdError>)
    requires Inputs(length, refT, ctlT, queryT, w, draws)
  {
    var n := Sites(length - 1);
    if n > 0 && |refT| == 0 then Err(NoSubsamples)
    else if n > 0 && !(Reaches(refT, n) && Reaches(ctlT, n) && Reaches(queryT, n)) then Err(MissingRow)
    else if |codes| == 0 then Err(MmdError.NoResidues)
    else if n == 0 then Err(MmdError.NoSites)
    else
      var stats := seq(n, i requires 0 <= i < n => SiteStatOf(refT, ctlT, queryT, w, k, draws[i], i));
      Ok(MmdReport(stats, MmdTable(stats, codes)))
  }

  /** The site loop of `compare_dynamics_MMD`. */
  method CompareDynamicsMMD(length: int, refT: seq<Matrix>, ctlT: seq<Matrix>, queryT: seq<Matrix>, w: nat,
                            codes: seq<string>, k: Kernel, draws: seq<seq<(int, int)>>)
    returns (r: Result<MmdReport, MmdError>)
    requires Inputs(length, refT, ctlT, queryT, w, draws)
    ensures r == Discrepancies(length, refT, ctlT, queryT, w, codes, k, draws)
  {
    var n := Sites(length - 1);
    if n > 0 && |refT| == 0 {
      return Err(NoSubsamples);
    }
    var stats: seq<SiteStat> := [];
    var i := 0;
    while i < n
      invariant i <= n && |stats| == i
      invariant i == 0 || (Reaches(refT, i) && Reaches(ctlT, i) && Reaches(queryT, i))
      invariant n > 0 ==> |refT| > 0 && DrawsFor(draws, |refT|, n)
      invariant forall e | 0 <= e < i ::
        Readable(refT, e) && Readable(ctlT, e) && Readable(queryT, e) &&
        stats[e] == SiteStatOf(refT, ctlT, queryT, w, k, draws[e], e)
    {
      var refs := CollectSamples(refT, i);
      var ctls := CollectSamples(ctlT, i);
      var queries := CollectSamples(queryT, i);
      if refs.None? || ctls.None? || queries.None? {
        NotReached(refT, ctlT, queryT, i, n);
        return Err(MissingRow);
      }
      var s := SiteStep(refT, ctlT, queryT, w, k, draws[i], i, refs.value, ctls.value, queries.value);
      StatsExtend(refT, ctlT, queryT, w, k, draws, stats, s);
      stats := stats + [s];
      i := i + 1;
    }
    if |codes| == 0 {
      return Err(MmdError.NoResidues);
    }
    if n == 0 {
      return Err(MmdError.NoSites);
    }
    assert stats == seq(n, i requires 0 <= i < n => SiteStatOf(refT, ctlT, queryT, w, k, draws[i], i));
    r := Ok(MmdReport(stats, MmdTable(stats, codes)));
  }

  /** One pass of the site loop body. */
  method SiteStep(refT: seq<Matrix>, ctlT: seq<Matrix>, queryT: seq<Matrix>, w: nat, k: Kernel,
                  draws: seq<(int, int)>, i: nat, refs: Matrix, ctls: Matrix, queries: Matrix) returns (s: SiteStat)
    requires |refT| > 0 && |ctlT| == |refT| && |queryT| == |refT|
    requires Widths(refT, w) && Widths(ctlT, w) && Widths(queryT, w)
    requires Readable(refT, i) && Readable(ctlT, i) && Readable(queryT, i)
    requires |draws| == Rounds && InRange(draws, |refT|)
    requires refs == SamplesAt(refT, i) && ctls == SamplesAt(ctlT, i) && queries == SamplesAt(queryT, i)
    ensures s == SiteStatOf(refT, ctlT, queryT, w, k, draws, i)
  {
    SamplesWidth(refT, w, i);
    SamplesWidth(queryT, w, i);
    var obs := Mmd([MeanVector(refs, w)], [MeanVector(queries, w)], k);
    var greater, lesser, neutral := Bootstrap(obs, refs, ctls, draws, k);
    assert neutral == seq(Rounds, t requires 0 <= t < Rounds => Neutral(refs, ctls, draws, t, k));
    var p := EmpiricalP(greater, lesser);
    s := SiteStat(obs, greater, lesser, if p > Level then Sig else Ns);
  }

  lemma SamplesWidth(tables: seq<Matrix>, w: nat, i: nat)
    requires Widths(tables, w) && Readable(tables, i)
    ensures Rectangular(SamplesAt(tables, i), w)
  {
    forall j | 0 <= j < |tables| ensures |SamplesAt(tables, i)[j]| == w {
      assert Rectangular(tables[j], w);
    }
  }

  lemma NotReached(refT: seq<Matrix>, ctlT: seq<Matrix>, queryT: seq<Matrix>, i: nat, n: nat)
    requires i < n
    requires !(Readable(refT, i) && Readable(ctlT, i) && Readable(queryT, i))
    ensures !(Reaches(refT, n) && Reaches(ctlT, n) && Reaches(queryT, n))
  {
  }

  lemma StatsExtend(refT: seq<Matrix>, ctlT: seq<Matrix>, queryT: seq<Matrix>, w: nat, k: Kernel,
                    draws: seq<seq<(int, int)>>, stats: seq<SiteStat>, s: SiteStat)
    requires |refT| > 0 && |ctlT| == |refT| && |queryT| == |refT|
    requires Widths(refT, w) && Widths(ctlT, w) && Widths(queryT, w)
    requires DrawsFor(draws, |refT|, |stats| + 1)
    requires Readable(refT, |stats|) && Readable(ctlT, |stats|) && Readable(queryT, |stats|)
    requires forall e | 0 <= e < |stats| ::
        Readable(refT, e) && Readable(ctlT, e) && Readable(queryT, e) &&
        stats[e] == SiteStatOf(refT, ctlT, queryT, w, k, draws[e], e)
    requires s == SiteStatOf(refT, ctlT, queryT, w, k, draws[|stats|], |stats|)
    ensures forall e | 0 <= e <= |stats| ::
        Readable(refT, e) && Readable(ctlT, e) && Readable(queryT, e) &&
        (stats + [s])[e] == SiteStatOf(refT, ctlT, queryT, w, k, draws[e], e)
  {
    forall e | 0 <= e <= |stats|
      ensures Readable(refT, e) && Readable(ctlT, e) && Readable(queryT, e) &&
        (stats + [s])[e] == SiteStatOf(refT, ctlT, queryT, w, k, draws[e], e)
    {
      if e < |stats| {
        assert (stats + [s])[e] == stats[e];
      } else {
        assert (stats + [s])[e] == s;
      }
    }
  }

  // ---------------------------------------------------------------------
  // What the site loop promises.

  /** The analysis fails exactly when there is no site, no residue code,
      no subsample or a table too short for the last site; each failure is
      reported by the first step that meets it. */
  lemma DiscrepanciesFail(length: int, refT: seq<Matrix>, ctlT: seq<Matrix>, queryT: seq<Matrix>, w: nat,
                          codes: seq<string>, k: Kernel, draws: seq<seq<(int, int)>>)
    requires Inputs(length, refT, ctlT, queryT, w, draws)
    ensures Discrepancies(length, refT, ctlT, queryT, w, codes, k, draws).Err? <==>
      Sites(length - 1) == 0 || |codes| == 0 || |refT| == 0 || !(Reaches(refT, Sites(length - 1)) &&
        Reaches(ctlT, Sites(length - 1)) && Reaches(queryT, Sites(length - 1)))
    ensures Discrepancies(length, refT, ctlT, queryT, w, codes, k, draws) == Err(MmdError.NoSites) <==>
      Sites(length - 1) == 0 && |codes| > 0
    ensures Discrepancies(length, refT, ctlT, queryT, w, codes, k, draws) == Err(MmdError.NoResidues) <==>
      |codes| == 0 && (Sites(length - 1) == 0 || (|refT| > 0 && Reaches(refT, Sites(length - 1)) &&
        Reaches(ctlT, Sites(length - 1)) && Reaches(queryT, Sites(length - 1))))
    ensures Discrepancies(length, refT, ctlT, queryT, w, codes, k, draws) == Err(NoSubsamples) <==>
      Sites(length - 1) > 0 && |refT| == 0
  {
  }

  /** Tables of `length_prot` written rows are long enough for every one
      of the `length_prot - 1` sites: the last site reads the last row. */
  lemma FullTablesReach(length: int, tables: seq<Matrix>)
    requires length >= 1 && forall j | 0 <= j < |tables| :: |tables[j]| >= length
    ensures Reaches(tables, Sites(length - 1))
  {
  }

  /** Site `i` of a successful analysis: 502 counts in all, a p-value in
      [1/502, 501/502], "sig" exactly when the p-value exceeds 0.99, that
      is when the observed discrepancy beats at least 496 neutral ones, and
      the observed discrepancy is that of the two mean vectors. */
  lemma SiteVerdict(length: int, refT: seq<Matrix>, ctlT: seq<Matrix>, queryT: seq<Matrix>, w: nat,
                    codes: seq<string>, k: Kernel, draws: seq<seq<(int, int)>>, i: nat)
    requires Inputs(length, refT, ctlT, queryT, w, draws)
    requires Discrepancies(length, refT, ctlT, queryT, w, codes, k, draws).Ok?
    requires i < Sites(length - 1)
    ensures var r := Discrepancies(length, refT, ctlT, queryT, w, codes, k, draws).value;
      |r.stats| == Sites(length - 1) && Readable(refT, i) && Readable(queryT, i) && |refT| > 0 &&
      r.stats[i].greater + r.stats[i].lesser == Rounds + 2 &&
      1.0 / 502.0 <= EmpiricalP(r.stats[i].greater, r.stats[i].lesser) <= 501.0 / 502.0 &&
      (r.stats[i].verdict == Sig <==> EmpiricalP(r.stats[i].greater, r.stats[i].lesser) > Level) &&
      (r.stats[i].verdict == Sig <==> r.stats[i].greater >= 497) &&
      r.stats[i].mmd == Mmd([MeanVector(SamplesAt(refT, i), w)], [MeanVector(SamplesAt(queryT, i), w)], k)
  {
    var r := Discrepancies(length, refT, ctlT, queryT, w, codes, k, draws).value;
    var st := r.stats[i];
    assert st == SiteStatOf(refT, ctlT, queryT, w, k, draws[i], i);
    PValueBounds(st.greater, st.lesser);
    SignificantCount(st.greater, st.lesser);
  }

  /** The joined table: one row per site that has a residue code, site `i`
      at position `i + 1`. */
  lemma MmdTableRow(stats: seq<SiteStat>, codes: seq<string>, i: nat)
    requires i < |stats| && i < |codes|
    ensures i < |MmdTable(stats, codes)|
    ensures MmdTable(stats, codes)[i] == MmdRow(i + 1, codes[i], stats[i].mmd, stats[i].verdict)
  {
  }
}
