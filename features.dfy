/** `feature_vector`: for each state (reference, query, reference control)
    and each scope (the whole run, or subsample i) the flux table loses its
    index column and has one column min-max normalised; the correlation
    matrix loses its first and last columns for the subsamples and the whole
    query run; the feature table is written; the correlation matrix is
    sparsified and reduced to k columns by an external reduction. The
    plotter puts the flux column in front of the correlation part and of
    the reduced part, with k = 5; the analyzer keeps the correlation part
    alone, with k = int(0.25 * length). The written tables are read back
    by the discrepancy analysis with their first line taken as a header. */
module Features {
  import opened TextUtil
  import opened Frames

  datatype Program = Plotter | Analyzer
  datatype State = Reference | Query | ReferenceControl
  datatype Scope = Whole | Subsample(index: nat)

  datatype FeatureError = NoComponents(k: int)

  /** `int(0.25 * length)`: a quarter of the length, truncated toward zero. */
  function SetSize(length: int): (k: int)
    ensures 0 <= length ==> 0 <= k && 4 * k <= length < 4 * k + 4
    ensures length < 0 ==> k <= 0 && 4 * k - 4 < length <= 4 * k
  {
    if length >= 0 then length / 4 else -((-length) / 4)
  }

  /** The number of reduced columns each program asks for. */
  function Components(prog: Program, length: int): int {
    match prog
    case Plotter => 5
    case Analyzer => SetSize(length)
  }

  /** The correlation matrix of a subsample or of the whole query run loses
      its first and last columns; the whole reference and reference-control
      matrices are used as read. */
  predicate Trimmed(state: State, scope: Scope) {
    scope.Subsample? || state == Query
  }

  /** The flux column that is normalised once the index column is gone:
      `AtomicFlx` (the first) for a whole run, column i for subsample i. */
  function FluxColumn(scope: Scope): nat {
    match scope
    case Whole => 0
    case Subsample(i) => i
  }

  /** What the source needs of the two tables it reads to get through
      the preprocessing. */
  predicate Usable(state: State, scope: Scope, flux: Matrix, fw: nat, corr: Matrix, cw: nat) {
    && Rectangular(flux, fw) && FluxColumn(scope) + 1 < fw
    && Normalisable(DropColumn(flux, 0), FluxColumn(scope))
    && Rectangular(corr, cw) && (Trimmed(state, scope) ==> cw >= 2)
  }

  /** The flux part of a feature row: the whole normalised table for a whole
      run, only the normalised column i for subsample i. */
  function FluxPart(state: State, scope: Scope, flux: Matrix, fw: nat, corr: Matrix, cw: nat): Matrix
    requires Usable(state, scope, flux, fw, corr, cw)
  {
    var n := Normalised(DropColumn(flux, 0), FluxColumn(scope));
    match scope
    case Whole => n
    case Subsample(i) => AsTable(Column(n, i))
  }

  /** The correlation part, before sparsification. */
  function CorrPart(state: State, scope: Scope, corr: Matrix, cw: nat): Matrix
    requires Rectangular(corr, cw) && (Trimmed(state, scope) ==> cw >= 2)
  {
    if Trimmed(state, scope) then DropColumn(DropColumn(corr, 0), cw - 2) else corr
  }

  /** The feature table that is written (before sparsification). */
  function FeatureTable(prog: Program, state: State, scope: Scope, flux: Matrix, fw: nat, corr: Matrix, cw: nat): Matrix
    requires Usable(state, scope, flux, fw, corr, cw)
  {
    var c := CorrPart(state, scope, corr, cw);
    match prog
    case Plotter => JoinColumns(FluxPart(state, scope, flux, fw, corr, cw), c)
    case Analyzer => c
  }

  /** The reduction's input: the correlation part, sparsified. */
  function ReductionInput(state: State, scope: Scope, corr: Matrix, cw: nat): Matrix
    requires Rectangular(corr, cw) && (Trimmed(state, scope) ==> cw >= 2)
  {
    Sparse(CorrPart(state, scope, corr, cw))
  }

  /** The reduced feature table that is written, or the reduction's refusal
      of a non-positive number of components. */
  function ReducedTable(prog: Program, state: State, scope: Scope, flux: Matrix, fw: nat, corr: Matrix, cw: nat,
                   length: int, reduce: (Matrix, nat) -> Matrix): Result<Matrix, FeatureError>
    requires Usable(state, scope, flux, fw, corr, cw)
  {
    var k := Components(prog, length);
    if k < 1 then Err(NoComponents(k))
    else
      var red := reduce(ReductionInput(state, scope, corr, cw), k);
      match prog
      case Plotter => Ok(JoinColumns(FluxPart(state, scope, flux, fw, corr, cw), red))
      case Analyzer => Ok(red)
  }

  /** One per-state, per-scope block of `feature_vector`. The two tables are
      updated in place as in the source: afterwards `flux` is the index-free,
      normalised flux table and `corr` the trimmed, sparsified matrix. */
  method FeatureVector(prog: Program, state: State, scope: Scope, flux: Frame, corr: Frame,
                       length: int, reduce: (Matrix, nat) -> Matrix)
    returns (features: Matrix, reduced: Result<Matrix, FeatureError>)
    requires flux != corr && flux.Valid() && corr.Valid()
    requires Usable(state, scope, flux.rows, flux.width, corr.rows, corr.width)
    modifies flux, corr
    ensures features == FeatureTable(prog, state, scope, old(flux.rows), old(flux.width), old(corr.rows), old(corr.width))
    ensures reduced == ReducedTable(prog, state, scope, old(flux.rows), old(flux.width), old(corr.rows), old(corr.width), length, reduce)
    ensures flux.Valid() && flux.width == old(flux.width) - 1
    ensures flux.rows == Normalised(DropColumn(old(flux.rows), 0), FluxColumn(scope))
    ensures corr.Valid() && corr.width == if Trimmed(state, scope) then old(corr.width) - 2 else old(corr.width)
    ensures corr.rows == ReductionInput(state, scope, old(corr.rows), old(corr.width))
  {
    ghost var fluxRows, fw, corrRows, cw := flux.rows, flux.width, corr.rows, corr.width;
    var fluxPart := PrepareFlux(state, scope, flux, corrRows, cw);
    TrimCorrelations(state, scope, corr);
    assert corr.rows == CorrPart(state, scope, corrRows, cw);
    features := if prog == Plotter then JoinColumns(fluxPart, corr.rows) else corr.rows;
    assert features == FeatureTable(prog, state, scope, fluxRows, fw, corrRows, cw);
    corr.Sparsify();
    assert corr.rows == ReductionInput(state, scope, corrRows, cw);
    var k := Components(prog, length);
    if k < 1 {
      reduced := Err(NoComponents(k));
      return;
    }
    var red := reduce(corr.rows, k);
    reduced := Ok(if prog == Plotter then JoinColumns(fluxPart, red) else red);
    assert reduced == ReducedTable(prog, state, scope, fluxRows, fw, corrRows, cw, length, reduce);
  }

  /** The flux steps: delete the index column, normalise the scope's column
      and pick the flux part. */
  method PrepareFlux(state: State, scope: Scope, flux: Frame, ghost corr: Matrix, ghost cw: nat)
    returns (fluxPart: Matrix)
    requires flux.Valid() && Usable(state, scope, flux.rows, flux.width, corr, cw)
    modifies flux
    ensures fluxPart == FluxPart(state, scope, old(flux.rows), old(flux.width), corr, cw)
    ensures flux.Valid() && flux.width == old(flux.width) - 1
    ensures flux.rows == Normalised(DropColumn(old(flux.rows), 0), FluxColumn(scope))
  {
    flux.DeleteColumn(0);
    var col := FluxColumn(scope);
    flux.NormaliseColumn(col);
    fluxPart := if scope.Whole? then flux.rows else AsTable(flux.Get(col));
  }

  /** `del M[M.columns[0]]; del M[M.columns[-1]]` where the scope asks for it. */
  method TrimCorrelations(state: State, scope: Scope, corr: Frame)
    requires corr.Valid() && (Trimmed(state, scope) ==> corr.width >= 2)
    modifies corr
    ensures corr.Valid() && corr.width == if Trimmed(state, scope) then old(corr.width) - 2 else old(corr.width)
    ensures corr.rows == CorrPart(state, scope, old(corr.rows), old(corr.width))
  {
    if Trimmed(state, scope) {
      corr.DeleteColumn(0);
      corr.DeleteColumn(corr.width - 1);
    }
  }

  /** The feature and reduced tables of one subsample. */
  type Tables = (Matrix, Result<Matrix, FeatureError>)

  /** Subsample i's pair of tables: the feature table and the reduced
      table (or the reduction's refusal). */
  function SubsampleTable(prog: Program, state: State, flux: Matrix, fw: nat, corrs: seq<Matrix>, cw: nat,
                          i: nat, length: int, reduce: (Matrix, nat) -> Matrix): Tables
    requires i < |corrs| && Usable(state, Subsample(i), flux, fw, corrs[i], cw)
  {
    (FeatureTable(prog, state, Subsample(i), flux, fw, corrs[i], cw),
     ReducedTable(prog, state, Subsample(i), flux, fw, corrs[i], cw, length, reduce))
  }

  /** The `for i in range(subsamples)` loop of one state: every iteration
      reads the same flux table and the correlation matrix of subsample i
      afresh, and entry i of the result is what iteration i writes. */
  method SubsampleFeatures(prog: Program, state: State, flux: Matrix, fw: nat, corrs: seq<Matrix>, cw: nat,
                           subsamples: int, length: int, reduce: (Matrix, nat) -> Matrix)
    returns (tables: seq<Tables>)
    requires subsamples <= |corrs|
    requires forall i | 0 <= i < subsamples :: Usable(state, Subsample(i), flux, fw, corrs[i], cw)
    ensures |tables| == if subsamples < 0 then 0 else subsamples
    ensures forall i | 0 <= i < |tables| :: tables[i] == SubsampleTable(prog, state, flux, fw, corrs, cw, i, length, reduce)
  {
    tables := [];
    var i := 0;
    while i < subsamples
      invariant 0 <= i && (i == 0 || i <= subsamples)
      invariant |tables| == i
      invariant forall j {:trigger tables[j]} | 0 <= j < i :: tables[j] == SubsampleTable(prog, state, flux, fw, corrs, cw, j, length, reduce)
    {
      var t := SubsampleStep(prog, state, flux, fw, corrs, cw, i, length, reduce);
      SubsampleExtend(prog, state, flux, fw, corrs, cw, tables, t, length, reduce);
      tables := tables + [t];
      i := i + 1;
    }
  }

  lemma SubsampleExtend(prog: Program, state: State, flux: Matrix, fw: nat, corrs: seq<Matrix>, cw: nat,
                        tables: seq<Tables>, t: Tables, length: int, reduce: (Matrix, nat) -> Matrix)
    requires |tables| < |corrs|
    requires forall j | 0 <= j <= |tables| :: Usable(state, Subsample(j), flux, fw, corrs[j], cw)
    requires forall j {:trigger tables[j]} | 0 <= j < |tables| :: tables[j] == SubsampleTable(prog, state, flux, fw, corrs, cw, j, length, reduce)
    requires t == SubsampleTable(prog, state, flux, fw, corrs, cw, |tables|, length, reduce)
    ensures forall j {:trigger (tables + [t])[j]} | 0 <= j <= |tables| :: (tables + [t])[j] == SubsampleTable(prog, state, flux, fw, corrs, cw, j, length, reduce)
  {
  }

  /** One iteration: fresh frames are read and preprocessed in place. */
  method SubsampleStep(prog: Program, state: State, flux: Matrix, fw: nat, corrs: seq<Matrix>, cw: nat,
                       i: nat, length: int, reduce: (Matrix, nat) -> Matrix)
    returns (t: Tables)
    requires i < |corrs| && Usable(state, Subsample(i), flux, fw, corrs[i], cw)
    ensures t == SubsampleTable(prog, state, flux, fw, corrs, cw, i, length, reduce)
  {
    var fluxFrame := new Frame(flux, fw);
    var corrFrame := new Frame(corrs[i], cw);
    var f, r := FeatureVector(prog, state, Subsample(i), fluxFrame, corrFrame, length, reduce);
    t := (f, r);
  }

  // ---------------------------------------------------------------------
  // Properties of the preprocessing.

  /** The correlation part of a subsample or of the whole query run is the
      matrix without its first and last columns, so exactly two narrower;
      the whole reference and reference-control matrices are unchanged. */
  lemma CorrPartShape(state: State, scope: Scope, corr: Matrix, cw: nat)
    requires Rectangular(corr, cw) && (Trimmed(state, scope) ==> cw >= 2)
    ensures Trimmed(state, scope) <==> (scope.Subsample? || state == Query)
    ensures Trimmed(state, scope) ==>
      Rectangular(CorrPart(state, scope, corr, cw), cw - 2)
      && forall i | 0 <= i < |corr| :: CorrPart(state, scope, corr, cw)[i] == corr[i][1..cw - 1]
    ensures !Trimmed(state, scope) ==> CorrPart(state, scope, corr, cw) == corr
  {
    if Trimmed(state, scope) {
      DropFirstAndLast(corr, cw);
    }
  }

  /** For subsample i the flux part is the one column i of the index-free
      flux table, min-max normalised; every value lies in [0, 1]. */
  lemma SubsampleFluxPart(state: State, i: nat, flux: Matrix, fw: nat, corr: Matrix, cw: nat)
    requires Usable(state, Subsample(i), flux, fw, corr, cw)
    ensures var n := DropColumn(flux, 0);
      var p := FluxPart(state, Subsample(i), flux, fw, corr, cw);
      |p| == |flux| && Rectangular(p, 1)
      && forall r | 0 <= r < |flux| ::
        p[r] == [Scale(n[r][i], MinOf(Column(n, i)), MaxOf(Column(n, i)))] && 0.0 <= p[r][0] <= 1.0
  {
    var n := DropColumn(flux, 0);
    var p := FluxPart(state, Subsample(i), flux, fw, corr, cw);
    NormalisedRange(n, i);
    NormalisedOthers(n, i);
    forall r | 0 <= r < |flux|
      ensures p[r] == [Scale(n[r][i], MinOf(Column(n, i)), MaxOf(Column(n, i)))]
    {
      NormalisedAt(n, i, r);
      assert Column(Normalised(n, i), i)[r] == Normalised(n, i)[r][i];
    }
  }

  /** The plotter's feature rows are the flux part followed by the
      correlation part, for the rows both have. */
  lemma PlotterFeatureRows(state: State, scope: Scope, flux: Matrix, fw: nat, corr: Matrix, cw: nat)
    requires Usable(state, scope, flux, fw, corr, cw)
    ensures var f := FluxPart(state, scope, flux, fw, corr, cw);
      var c := CorrPart(state, scope, corr, cw);
      var feats := FeatureTable(Plotter, state, scope, flux, fw, corr, cw);
      |feats| == (if |flux| <= |corr| then |flux| else |corr|)
      && forall i | 0 <= i < |feats| :: feats[i] == f[i] + c[i]
  {
    FluxPartRows(state, scope, flux, fw, corr, cw);
    if Trimmed(state, scope) {
      DropFirstAndLast(corr, cw);
    }
  }

  /** The plotter's reduced rows are the flux part followed by the
      reduction's row; with a reduction that keeps the row count and returns
      five columns, a subsample's reduced row is one flux value and five
      reduced values. */
  lemma PlotterReducedRows(state: State, scope: Scope, flux: Matrix, fw: nat, corr: Matrix, cw: nat,
                           length: int, reduce: (Matrix, nat) -> Matrix)
    requires Usable(state, scope, flux, fw, corr, cw)
    requires var m := ReductionInput(state, scope, corr, cw);
      |reduce(m, 5)| == |m| && Rectangular(reduce(m, 5), 5)
    ensures var f := FluxPart(state, scope, flux, fw, corr, cw);
      var red := reduce(ReductionInput(state, scope, corr, cw), 5);
      var out := ReducedTable(Plotter, state, scope, flux, fw, corr, cw, length, reduce);
      out.Ok? && |out.value| == (if |flux| <= |corr| then |flux| else |corr|)
      && (forall i | 0 <= i < |out.value| :: out.value[i] == f[i] + red[i])
      && (scope.Subsample? ==> Rectangular(out.value, 6))
  {
    FluxPartRows(state, scope, flux, fw, corr, cw);
    if Trimmed(state, scope) {
      DropFirstAndLast(corr, cw);
    }
    var f := FluxPart(state, scope, flux, fw, corr, cw);
    var red := reduce(ReductionInput(state, scope, corr, cw), 5);
    var out := ReducedTable(Plotter, state, scope, flux, fw, corr, cw, length, reduce);
    assert out == Ok(JoinColumns(f, red));
    if scope.Subsample? {
      SubsampleFluxPart(state, scope.index, flux, fw, corr, cw);
      forall i | 0 <= i < |out.value| ensures |out.value[i]| == 6 {
        assert out.value[i] == f[i] + red[i];
      }
    }
  }

  /** The flux part has one row per residue. */
  lemma FluxPartRows(state: State, scope: Scope, flux: Matrix, fw: nat, corr: Matrix, cw: nat)
    requires Usable(state, scope, flux, fw, corr, cw)
    ensures |FluxPart(state, scope, flux, fw, corr, cw)| == |flux|
    ensures |CorrPart(state, scope, corr, cw)| == |corr|
  {
  }

  /** The analyzer's feature table is the correlation part by itself and its
      reduced table is exactly the reduction's output with int(0.25 * length)
      columns: no flux column is put in front. A length below 4 leaves no
      component to ask for. */
  lemma AnalyzerRows(state: State, scope: Scope, flux: Matrix, fw: nat, corr: Matrix, cw: nat,
                     length: int, reduce: (Matrix, nat) -> Matrix)
    requires Usable(state, scope, flux, fw, corr, cw)
    ensures FeatureTable(Analyzer, state, scope, flux, fw, corr, cw) == CorrPart(state, scope, corr, cw)
    ensures length >= 4 ==> SetSize(length) >= 1
    ensures length >= 4 ==>
      ReducedTable(Analyzer, state, scope, flux, fw, corr, cw, length, reduce)
      == Ok(reduce(ReductionInput(state, scope, corr, cw), SetSize(length)))
    ensures length < 4 ==> ReducedTable(Analyzer, state, scope, flux, fw, corr, cw, length, reduce).Err?
  {
  }

  // ---------------------------------------------------------------------
  // Writing a table (`to_string(header=False, index=True)`) and reading it
  // back with `read_csv(sep="\s+")`, whose first line becomes the header.

  /** The text of one value; `to_string`'s float formatting is not modelled,
      only that it yields one non-empty word. */
  ghost predicate WordFormatter(fmt: real -> string) {
    forall x: real :: fmt(x) != [] && NoSpace(fmt(x))
  }

  function Cells(row: seq<real>, fmt: real -> string): (cs: seq<string>)
    ensures |cs| == |row| && forall j | 0 <= j < |row| :: cs[j] == fmt(row[j])
  {
    if row == [] then [] else [fmt(row[0])] + Cells(row[1..], fmt)
  }

  /** Line `i` of the written table: the index label, then the values. */
  function TableLine(i: nat, row: seq<real>, fmt: real -> string): string {
    Join([NatToString(i)] + Cells(row, fmt), ' ')
  }

  function TableLines(rows: Matrix, fmt: real -> string, start: nat): (ls: seq<string>)
    ensures |ls| == |rows|
    ensures forall i | 0 <= i < |rows| :: ls[i] == TableLine(start + i, rows[i], fmt)
  {
    if rows == [] then [] else [TableLine(start, rows[0], fmt)] + TableLines(rows[1..], fmt, start + 1)
  }

  /** The written text of a non-empty table (no trailing newline). */
  function TableText(rows: Matrix, fmt: real -> string): string
    requires |rows| >= 1
  {
    Join(TableLines(rows, fmt, 0), '\n')
  }

  /** Reading with a header line: the first line names the columns, every
      further line is a data row, and the first column (the written index)
      is deleted. */
  function ReadWithHeader(text: string): seq<seq<string>> {
    DataRows(SplitOn(text, '\n')[1..])
  }

  function DataRows(lines: seq<string>): (rows: seq<seq<string>>)
    ensures |rows| == |lines|
  {
    if lines == [] then [] else [SplitWs(lines[0])[1..]] + DataRows(lines[1..])
  }

  /** The table read back has one row fewer than the one written, and data
      row i holds the values of written row i + 1: the first written row is
      consumed as the header. */
  lemma ReadBackOffset(rows: Matrix, fmt: real -> string)
    requires |rows| >= 1 && WordFormatter(fmt)
    ensures |ReadWithHeader(TableText(rows, fmt))| == |rows| - 1
    ensures forall i | 0 <= i < |rows| - 1 :: ReadWithHeader(TableText(rows, fmt))[i] == Cells(rows[i + 1], fmt)
  {
    var ls := TableLines(rows, fmt, 0);
    forall i | 0 <= i < |ls| ensures '\n' !in ls[i] && SplitWs(ls[i])[1..] == Cells(rows[i], fmt) {
      TableLineFields(i, rows[i], fmt);
    }
    SplitOnJoin(ls, '\n');
    DataRowsOf(ls[1..], rows[1..], fmt);
  }

  lemma {:induction false} DataRowsOf(ls: seq<string>, rows: Matrix, fmt: real -> string)
    requires |ls| == |rows|
    requires forall i | 0 <= i < |ls| :: SplitWs(ls[i])[1..] == Cells(rows[i], fmt)
    ensures forall i | 0 <= i < |ls| :: DataRows(ls)[i] == Cells(rows[i], fmt)
  {
    if ls != [] {
      var tail := DataRows(ls[1..]);
      DataRowsOf(ls[1..], rows[1..], fmt);
      assert DataRows(ls) == [SplitWs(ls[0])[1..]] + tail;
      forall i | 0 <= i < |ls| ensures DataRows(ls)[i] == Cells(rows[i], fmt) {
        if i > 0 {
          assert DataRows(ls)[i] == tail[i - 1];
          assert rows[1..][i - 1] == rows[i];
        }
      }
    }
  }

  /** A written line splits on whitespace into the index label and the
      values, and holds no newline. */
  lemma TableLineFields(i: nat, row: seq<real>, fmt: real -> string)
    requires WordFormatter(fmt)
    ensures '\n' !in TableLine(i, row, fmt)
    ensures SplitWs(TableLine(i, row, fmt))[1..] == Cells(row, fmt)
  {
    var fields := [NatToString(i)] + Cells(row, fmt);
    forall j | 0 <= j < |fields| ensures NoSpace(fields[j]) && fields[j] != [] {
      if j > 0 {
        var x := row[j - 1];
        assert fields[j] == fmt(x);
        assert fmt(x) != [] && NoSpace(fmt(x));
      } else {
        DigitsNoSpace(NatToString(i));
      }
    }
    SplitWsJoin(fields);
    JoinNoSpaceLine(fields);
  }

  lemma DigitsNoSpace(s: string)
    requires forall k | 0 <= k < |s| :: IsDigit(s[k])
    ensures NoSpace(s)
  {
    forall k | 0 <= k < |s| ensures !IsSpace(s[k]) {
      assert IsDigit(s[k]);
    }
  }

  lemma {:induction false} JoinNoSpaceLine(fields: seq<string>)
    requires |fields| >= 1
    requires forall j | 0 <= j < |fields| :: NoSpace(fields[j])
    ensures '\n' !in Join(fields, ' ')
  {
    assert IsSpace('\n');
    if |fields| > 1 {
      JoinNoSpaceLine(fields[1..]);
      assert '\n' !in fields[0];
    } else {
      assert '\n' !in fields[0];
    }
  }

  /** The sample the discrepancy analysis takes for site i from a written
      table: data row i of the read-back, which is written row i + 1, and
      nothing (the source's IndexError) past the last readable row. */
  function SiteSample(written: Matrix, i: nat): (r: Option<seq<real>>)
    ensures r.Some? <==> i + 1 < |written|
    ensures r.Some? ==> r.value == written[i + 1]
  {
    if i + 1 < |written| then Some(written[i + 1]) else None
  }

  /** What the discrepancy analysis takes for site i is what reading the
      written table back with a header gives as data row i: a sample exists
      exactly for the rows the read-back has, and it is that row's cells. */
  lemma SiteSampleReadsBack(written: Matrix, i: nat, fmt: real -> string)
    requires |written| >= 1 && WordFormatter(fmt)
    ensures SiteSample(written, i).Some? <==> i < |ReadWithHeader(TableText(written, fmt))|
    ensures SiteSample(written, i).Some? ==>
      ReadWithHeader(TableText(written, fmt))[i] == Cells(SiteSample(written, i).value, fmt)
  {
    ReadBackOffset(written, fmt);
  }
}
