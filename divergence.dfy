/** The site-wise comparison of atom fluctuation in `compare_dynamics_KL`.
    The flux tables are cut to the protein length; every site gets a KL
    divergence of its subsample fluxes (reference against query); that value
    takes the sign of the whole-run flux difference; and a two-sample KS test
    labels the site significant under a Bonferroni-style cutoff. The entropy
    and the KS test are library numerics and come in as functions. */
module Divergence {
  import opened TextUtil
  import opened Frames

  /** A site's verdict, written "sig" or "ns". */
  datatype Label = Sig | Ns

  function LabelText(l: Label): (s: string)
    ensures s == "sig" || s == "ns"
    ensures (s == "sig") == l.Sig?
  {
    if l.Sig? then "sig" else "ns"
  }

  /** What `ks_2samp` returns for one site. */
  datatype KsResult = KsResult(statistic: real, pvalue: real)

  datatype DivergenceError =
    | TooShort    // `iloc` past the last row of a flux table (IndexError)
    | ZeroLength  // the cutoff `0.05 / (0 * 0.5)` (ZeroDivisionError)
    | NoSites     // a negative length leaves no KS result to take `statistic` of (AttributeError)
    | NoResidues  // the residue file is empty (EmptyDataError)

  /** One row of the `divergenceMetrics` table: pos, res, dFLUX, KL, D,
      pvalue, p_value, FLUX_ref, FLUX_query. */
  datatype SiteRow = SiteRow(pos: int, res: string, dFlux: real, kl: real, d: real,
                             pvalue: real, verdict: Label, fluxRef: real, fluxQuery: real)

  /** The signed divergence per site, the KS results and labels per site,
      and the joined table. */
  datatype Report = Report(signed: seq<real>, tests: seq<KsResult>, labels: seq<Label>, table: seq<SiteRow>)

  /** The number of sites `range(length_prot)` visits. */
  function Sites(length: int): (n: nat)
    ensures length >= 0 ==> n == length
    ensures length < 0 ==> n == 0
  {
    if length < 0 then 0 else length
  }

  /** The multiple-test cutoff `0.05 / (length_prot * 0.5)`. */
  function Cutoff(length: int): (c: real)
    requires length != 0
    ensures length > 0 ==> c > 0.0 && c * (length as real) == 0.1
    ensures length < 0 ==> c < 0.0
  {
    0.05 / (length as real * 0.5)
  }

  // ---------------------------------------------------------------------
  // The per-site values.

  /** The KL divergence of every site: `entropy(ref, query)` works column by
      column, and column `d` of the transposed subsample table is the
      samples of site `d`. */
  function Divergences(ref: Matrix, query: Matrix, n: nat, entropy: (seq<real>, seq<real>) -> real): (kl: seq<real>)
    requires n <= |ref| && n <= |query|
    ensures |kl| == n
  {
    seq(n, d requires 0 <= d < n => entropy(ref[d], query[d]))
  }

  /** The KS result of every site. */
  function Tests(ref: Matrix, query: Matrix, n: nat, ks: (seq<real>, seq<real>) -> KsResult): (ts: seq<KsResult>)
    requires n <= |ref| && n <= |query|
    ensures |ts| == n
  {
    seq(n, d requires 0 <= d < n => ks(ref[d], query[d]))
  }

  /** The label of every site: significant exactly when its p-value is
      strictly below the cutoff. */
  function Labels(ts: seq<KsResult>, cutoff: real): (ls: seq<Label>)
    ensures |ls| == |ts|
    ensures forall d | 0 <= d < |ts| :: (ls[d] == Sig <==> ts[d].pvalue < cutoff)
  {
    if ts == [] then [] else [if ts[0].pvalue < cutoff then Sig else Ns] + Labels(ts[1..], cutoff)
  }

  /** `dfflux_all_query - dfflux_all_ref`. */
  function Difference(query: seq<real>, ref: seq<real>): (diff: seq<real>)
    requires |query| == |ref|
    ensures |diff| == |query|
  {
    seq(|query|, i requires 0 <= i < |query| => query[i] - ref[i])
  }

  /** `np.where(diff_flux < 0, -myKL, myKL)`: the divergence keeps its
      magnitude at every site. */
  function SignedKL(kl: seq<real>, diff: seq<real>): (s: seq<real>)
    requires |kl| == |diff|
    ensures |s| == |kl|
    ensures forall d | 0 <= d < |kl| :: Abs(s[d]) == Abs(kl[d])
  {
    seq(|kl|, d requires 0 <= d < |kl| => if diff[d] < 0.0 then -kl[d] else kl[d])
  }

  /** The rows of the inner join of the per-site columns with the residue
      codes: as many as both have, site `i` at position `i + 1`. */
  function Table(n: nat, codes: seq<string>, diff: seq<real>, signed: seq<real>, tests: seq<KsResult>,
                 labels: seq<Label>, ref: seq<real>, query: seq<real>): (rows: seq<SiteRow>)
    requires |diff| == n && |signed| == n && |tests| == n && |labels| == n && |ref| == n && |query| == n
    ensures |rows| == if n <= |codes| then n else |codes|
  {
    var m := if n <= |codes| then n else |codes|;
    seq(m, i requires 0 <= i < m =>
      SiteRow(i + 1, codes[i], diff[i], signed[i], tests[i].statistic, tests[i].pvalue, labels[i], ref[i], query[i]))
  }

  // ---------------------------------------------------------------------
  // The whole comparison.

  /** Everything short of a table is an IndexError; a zero length is a
      division by zero; a negative length leaves the KS frame without a
      `statistic` column; an empty residue file cannot be read. `allRef` and
      `allQuery` are the whole-run flux columns, `subRef[d]` and
      `subQuery[d]` the subsample fluxes of site `d`, `codes` the residue
      codes of the resinfo table. */
  function Compare(length: int, allRef: seq<real>, allQuery: seq<real>, subRef: Matrix, subQuery: Matrix,
                   codes: seq<string>, entropy: (seq<real>, seq<real>) -> real,
                   ks: (seq<real>, seq<real>) -> KsResult): (r: Result<Report, DivergenceError>)
  {
    var n := Sites(length);
    if n > |allRef| || n > |allQuery| || n > |subRef| || n > |subQuery| then Err(TooShort)
    else if length == 0 then Err(ZeroLength)
    else if length < 0 then Err(NoSites)
    else if |codes| == 0 then Err(NoResidues)
    else
      var kl := Divergences(subRef, subQuery, n, entropy);
      var tests := Tests(subRef, subQuery, n, ks);
      var labels := Labels(tests, Cutoff(length));
      var diff := Difference(allQuery[..n], allRef[..n]);
      var signed := SignedKL(kl, diff);
      Ok(Report(signed, tests, labels, Table(n, codes, diff, signed, tests, labels, allRef[..n], allQuery[..n])))
  }

  /** The `for d in range(0, length_prot)` loop: one KS test and one label
      per site, appended in site order. */
  method SiteTests(ref: Matrix, query: Matrix, n: nat, cutoff: real, ks: (seq<real>, seq<real>) -> KsResult)
    returns (tests: seq<KsResult>, labels: seq<Label>)
    requires n <= |ref| && n <= |query|
    ensures |tests| == n && |labels| == n
    ensures forall d | 0 <= d < n :: tests[d] == ks(ref[d], query[d])
    ensures forall d | 0 <= d < n :: (labels[d] == Sig <==> tests[d].pvalue < cutoff)
  {
    tests, labels := [], [];
    var d := 0;
    while d < n
      invariant d <= n && |tests| == d && |labels| == d
      invariant forall e | 0 <= e < d :: tests[e] == ks(ref[e], query[e])
      invariant forall e | 0 <= e < d :: (labels[e] == Sig <==> tests[e].pvalue < cutoff)
    {
      var t := ks(ref[d], query[d]);
      var l := if t.pvalue < cutoff then Sig else Ns;
      tests := tests + [t];
      labels := labels + [l];
      d := d + 1;
    }
  }

  /** `compare_dynamics_KL` up to its output files. */
  method CompareDynamicsKL(length: int, allRef: seq<real>, allQuery: seq<real>, subRef: Matrix, subQuery: Matrix,
                           codes: seq<string>, entropy: (seq<real>, seq<real>) -> real,
                           ks: (seq<real>, seq<real>) -> KsResult) returns (r: Result<Report, DivergenceError>)
    ensures r == Compare(length, allRef, allQuery, subRef, subQuery, codes, entropy, ks)
  {
    var n := Sites(length);
    if n > |allRef| || n > |allQuery| || n > |subRef| || n > |subQuery| {
      return Err(TooShort);
    }
    var kl := Divergences(subRef, subQuery, n, entropy);
    if length == 0 {
      return Err(ZeroLength);
    }
    var cutoff := Cutoff(length);
    var tests, labels := SiteTests(subRef, subQuery, n, cutoff, ks);
    if length < 0 {
      return Err(NoSites);
    }
    if |codes| == 0 {
      return Err(NoResidues);
    }
    assert tests == Tests(subRef, subQuery, n, ks);
    LabelsUnique(tests, cutoff, labels);
    var diff := Difference(allQuery[..n], allRef[..n]);
    var signed := SignedKL(kl, diff);
    r := Ok(Report(signed, tests, labels, Table(n, codes, diff, signed, tests, labels, allRef[..n], allQuery[..n])));
  }

  /** Labels agreeing with the cutoff at every site are the labels. */
  lemma LabelsUnique(ts: seq<KsResult>, cutoff: real, ls: seq<Label>)
    requires |ls| == |ts|
    requires forall d | 0 <= d < |ts| :: (ls[d] == Sig <==> ts[d].pvalue < cutoff)
    ensures ls == Labels(ts, cutoff)
  {
    var spec := Labels(ts, cutoff);
    forall d | 0 <= d < |ts| ensures ls[d] == spec[d] {
      assert ls[d] == Sig <==> spec[d] == Sig;
    }
  }

  // ---------------------------------------------------------------------
  // What the comparison promises.

  /** The comparison fails exactly when a table is shorter than the number
      of sites, when the length is not positive, or when there is no residue
      code; each failure is reported by the first step that meets it. */
  lemma CompareFails(length: int, allRef: seq<real>, allQuery: seq<real>, subRef: Matrix, subQuery: Matrix,
                     codes: seq<string>, entropy: (seq<real>, seq<real>) -> real, ks: (seq<real>, seq<real>) -> KsResult)
    ensures Compare(length, allRef, allQuery, subRef, subQuery, codes, entropy, ks).Err? <==>
      length <= 0 || |codes| == 0 ||
      Sites(length) > |allRef| || Sites(length) > |allQuery| || Sites(length) > |subRef| || Sites(length) > |subQuery|
    ensures Compare(length, allRef, allQuery, subRef, subQuery, codes, entropy, ks) == Err(ZeroLength) <==> length == 0
    ensures Compare(length, allRef, allQuery, subRef, subQuery, codes, entropy, ks) == Err(NoSites) <==> length < 0
    ensures Compare(length, allRef, allQuery, subRef, subQuery, codes, entropy, ks) == Err(NoResidues) <==>
      length > 0 && |codes| == 0 &&
      Sites(length) <= |allRef| && Sites(length) <= |allQuery| && Sites(length) <= |subRef| && Sites(length) <= |subQuery|
  {
  }

  /** Exactly `length_prot` labels, in site order: site `d` is significant
      if and only if its p-value is strictly below `0.05 / (length_prot * 0.5)`. */
  lemma BonferroniLabels(length: int, allRef: seq<real>, allQuery: seq<real>, subRef: Matrix, subQuery: Matrix,
                         codes: seq<string>, entropy: (seq<real>, seq<real>) -> real,
                         ks: (seq<real>, seq<real>) -> KsResult, d: nat)
    requires Compare(length, allRef, allQuery, subRef, subQuery, codes, entropy, ks).Ok?
    requires d < Sites(length)
    ensures length > 0
    ensures |Compare(length, allRef, allQuery, subRef, subQuery, codes, entropy, ks).value.labels| == length
    ensures Compare(length, allRef, allQuery, subRef, subQuery, codes, entropy, ks).value.tests[d] == ks(subRef[d], subQuery[d])
    ensures Compare(length, allRef, allQuery, subRef, subQuery, codes, entropy, ks).value.labels[d] == Sig <==>
      ks(subRef[d], subQuery[d]).pvalue < 0.05 / (length as real * 0.5)
  {
    var r := Compare(length, allRef, allQuery, subRef, subQuery, codes, entropy, ks).value;
    assert r.tests == Tests(subRef, subQuery, Sites(length), ks);
  }

  /** The signed divergence of site `d` is the KL divergence, negated
      exactly where the query's whole-run flux is below the reference's. */
  lemma {:induction false} SignRule(length: int, allRef: seq<real>, allQuery: seq<real>, subRef: Matrix, subQuery: Matrix,
                  codes: seq<string>, entropy: (seq<real>, seq<real>) -> real,
                  ks: (seq<real>, seq<real>) -> KsResult, d: nat)
    requires Compare(length, allRef, allQuery, subRef, subQuery, codes, entropy, ks).Ok?
    requires d < Sites(length)
    ensures |Compare(length, allRef, allQuery, subRef, subQuery, codes, entropy, ks).value.signed| == length
    ensures allQuery[d] - allRef[d] < 0.0 ==>
      Compare(length, allRef, allQuery, subRef, subQuery, codes, entropy, ks).value.signed[d] == -entropy(subRef[d], subQuery[d])
    ensures allQuery[d] - allRef[d] >= 0.0 ==>
      Compare(length, allRef, allQuery, subRef, subQuery, codes, entropy, ks).value.signed[d] == entropy(subRef[d], subQuery[d])
  {
    var n := Sites(length);
    var kl := Divergences(subRef, subQuery, n, entropy);
    var diff := Difference(allQuery[..n], allRef[..n]);
    assert kl[d] == entropy(subRef[d], subQuery[d]);
    assert diff[d] == allQuery[d] - allRef[d];
    assert Compare(length, allRef, allQuery, subRef, subQuery, codes, entropy, ks).value.signed == SignedKL(kl, diff);
  }

  /** With a non-negative divergence, the signed value is negative only at a
      site where the query fluctuates less, is negative at every such site
      whose divergence is positive, and is the divergence itself where the
      flux did not fall. */
  lemma SignedSign(kl: seq<real>, diff: seq<real>, d: nat)
    requires |kl| == |diff| && d < |kl| && kl[d] >= 0.0
    ensures SignedKL(kl, diff)[d] < 0.0 ==> diff[d] < 0.0
    ensures diff[d] < 0.0 && kl[d] > 0.0 ==> SignedKL(kl, diff)[d] < 0.0
    ensures diff[d] >= 0.0 ==> SignedKL(kl, diff)[d] == kl[d]
    ensures Abs(SignedKL(kl, diff)[d]) == kl[d]
  {
  }

  /** The joined table has a row for every site that also has a residue
      code; row `i` holds position `i + 1`, code `i` and the values of site `i`. */
  lemma TableRow(length: int, allRef: seq<real>, allQuery: seq<real>, subRef: Matrix, subQuery: Matrix,
                 codes: seq<string>, entropy: (seq<real>, seq<real>) -> real,
                 ks: (seq<real>, seq<real>) -> KsResult, i: nat)
    requires Compare(length, allRef, allQuery, subRef, subQuery, codes, entropy, ks).Ok?
    requires i < |Compare(length, allRef, allQuery, subRef, subQuery, codes, entropy, ks).value.table|
    ensures |Compare(length, allRef, allQuery, subRef, subQuery, codes, entropy, ks).value.table| ==
      if length <= |codes| then length else |codes|
    ensures var r := Compare(length, allRef, allQuery, subRef, subQuery, codes, entropy, ks).value;
      var row := r.table[i];
      row.pos == i + 1 && row.res == codes[i] && row.dFlux == allQuery[i] - allRef[i] &&
      row.kl == r.signed[i] && row.d == ks(subRef[i], subQuery[i]).statistic &&
      row.pvalue == ks(subRef[i], subQuery[i]).pvalue && row.verdict == r.labels[i] &&
      row.fluxRef == allRef[i] && row.fluxQuery == allQuery[i]
  {
  }
}
