/**
 * The tallying half of `GetCommBufferSize.py`: `parse` reads the
 * `MPI_Pack` lines of one function into a table of rows, and
 * `xmake_string` sums one column of that table into a size expression
 * such as `24  + 1 * (NXBANDS) + 2 * (N_PHOT_PROC)`.
 */
module PackTally {
  import opened Wrappers
  import opened PyStrings

  /** One row of the table `parse` builds: its Variable, Type and Dimension columns. */
  datatype Row = Row(variable: string, kind: string, dimension: string)

  /**
   * How tallying fails: `parse` raises IndexError on a pack line with fewer
   * than three comma-separated fields, and `xmake_string` raises
   * UnboundLocalError when no row has dimension `1`.
   */
  datatype TallyError = TooFewFields(line: string) | NoUnitDimension

  /** `one.count('MPI_Pack')` is not zero. */
  predicate IsPackLine(line: string) {
    Contains(line, "MPI_Pack")
  }

  /** The row `parse` reads from one pack line (lines 222-229). */
  function LineRow(line: string): Result<Row, TallyError> {
    var word := Split(line, ",");
    if |word| < 3 then Failure(TooFewFields(line))
    else Success(Row(Strip(AfterLast(word[0], ">")), Strip(word[2]), Strip(word[1])))
  }

  /**
   * What `parse` returns for `lines` (lines 213-230): one row per pack
   * line, in order, or the error of the first pack line that has too few
   * fields.
   */
  function Rows(lines: seq<string>): Result<seq<Row>, TallyError>
    decreases |lines|
  {
    if lines == [] then Success([])
    else
      var front := Rows(lines[..|lines| - 1]);
      var last := lines[|lines| - 1];
      if front.Failure? || !IsPackLine(last) then front
      else match LineRow(last)
        case Failure(e) => Failure(e)
        case Success(row) => Success(front.value + [row])
  }

  /** The pack lines among `lines`, in order. */
  function PackLines(lines: seq<string>): (r: seq<string>)
    ensures |r| <= |lines|
    decreases |lines|
  {
    if lines == [] then []
    else PackLines(lines[..|lines| - 1]) + (if IsPackLine(lines[|lines| - 1]) then [lines[|lines| - 1]] else [])
  }

  /** A line is a pack line exactly when it is one of the lines and `one.count('MPI_Pack')` is not zero. */
  lemma {:induction false} PackLinesExactly(lines: seq<string>, one: string)
    ensures one in PackLines(lines) <==> one in lines && IsPackLine(one)
    decreases |lines|
  {
    if lines != [] {
      var front := lines[..|lines| - 1];
      PackLinesExactly(front, one);
      assert lines == front + [lines[|lines| - 1]];
    }
  }

  /** Once the lines read so far hold an error, reading more keeps it. */
  lemma {:induction false} RowsFailureStays(lines: seq<string>, n: nat)
    requires n <= |lines| && Rows(lines[..n]).Failure?
    ensures Rows(lines) == Rows(lines[..n])
    decreases |lines|
  {
    if n < |lines| {
      var front := lines[..|lines| - 1];
      assert front[..n] == lines[..n];
      RowsFailureStays(front, n);
    } else {
      assert lines[..n] == lines;
    }
  }

  /** `parse` (lines 213-230), without the astropy table. */
  method Parse(lines: seq<string>) returns (r: Result<seq<Row>, TallyError>)
    ensures r == Rows(lines)
  {
    var rows: seq<Row> := [];
    var i := 0;
    while i < |lines|
      invariant i <= |lines| && Rows(lines[..i]) == Success(rows)
    {
      assert lines[..i + 1][..i] == lines[..i];
      var one := lines[i];
      if IsPackLine(one) {
        var word := Split(one, ",");
        if |word| < 3 {
          RowsFailureStays(lines, i + 1);
          return Failure(TooFewFields(one));
        }
        var xxvar := AfterLast(word[0], ">");
        rows := rows + [Row(Strip(xxvar), Strip(word[2]), Strip(word[1]))];
      }
      i := i + 1;
    }
    assert lines[..i] == lines;
    return Success(rows);
  }

  /**
   * `parse` succeeds exactly when every pack line has three fields, and
   * then its rows are those of the pack lines, one each, in order.
   */
  lemma {:induction false} RowsOfPackLines(lines: seq<string>)
    ensures Rows(lines).Success? <==>
              forall k :: 0 <= k < |PackLines(lines)| ==> LineRow(PackLines(lines)[k]).Success?
    ensures Rows(lines).Success? ==>
              |Rows(lines).value| == |PackLines(lines)| &&
              forall k :: 0 <= k < |PackLines(lines)| ==> LineRow(PackLines(lines)[k]) == Success(Rows(lines).value[k])
    decreases |lines|
  {
    if lines != [] {
      var front := lines[..|lines| - 1];
      var last := lines[|lines| - 1];
      RowsOfPackLines(front);
      var before := PackLines(front);
      assert PackLines(lines) == before + (if IsPackLine(last) then [last] else []);
      if Rows(front).Failure? {
        var k :| 0 <= k < |before| && LineRow(before[k]).Failure?;
        assert PackLines(lines)[k] == before[k];
      } else if IsPackLine(last) {
        assert PackLines(lines)[|before|] == last;
      }
    }
  }

  /** Stripped: no white space at either end. */
  predicate Stripped(s: string) {
    s == [] || (!IsSpace(s[0]) && !IsSpace(s[|s| - 1]))
  }

  /** A piece free of `t` stays free of it once stripped. */
  lemma StripFree(p: string, t: string)
    ensures !Contains(p, t) ==> !Contains(Strip(p), t)
  {
    StripContains(p, t);
  }

  /** The variable field: the text after the last `>`, which holds no comma if the field held none. */
  lemma VariableFree(w: string)
    ensures !Contains(Strip(AfterLast(w, ">")), ">")
    ensures !Contains(w, ",") ==> !Contains(Strip(AfterLast(w, ">")), ",")
  {
    var v := AfterLast(w, ">");
    SuffixAfterLast(w, ">");
    assert w[|w| - |v|..|w|] == v;
    SliceContains(w, ",", |w| - |v|, |w|);
    StripFree(v, ",");
    StripFree(v, ">");
  }

  /**
   * A pack line gives a row exactly when it holds at least two commas; the
   * row's fields are stripped, hold no comma, and the variable holds no
   * `>`.
   */
  lemma LineRowFields(line: string)
    ensures LineRow(line).Success? <==> multiset(line)[','] >= 2
    ensures LineRow(line).Success? ==>
              var row := LineRow(line).value;
              && Stripped(row.variable) && Stripped(row.kind) && Stripped(row.dimension)
              && !Contains(row.variable, ",") && !Contains(row.variable, ">")
              && !Contains(row.kind, ",") && !Contains(row.dimension, ",")
  {
    var word := Split(line, ",");
    SplitCount(line, ',');
    if |word| >= 3 {
      SplitPieces(line, ",");
      assert word[0] in word && word[1] in word && word[2] in word;
      VariableFree(word[0]);
      StripFree(word[1], ",");
      StripFree(word[2], ",");
    }
  }

  /**
   * The order `numpy.unique` sorts strings in: character by character,
   * with a proper prefix first.
   */
  predicate Before(a: string, b: string)
    decreases |a|
  {
    if a == [] then b != []
    else b != [] && (a[0] < b[0] || (a[0] == b[0] && Before(a[1..], b[1..])))
  }

  lemma {:induction false} BeforeIrreflexive(a: string)
    ensures !Before(a, a)
    decreases |a|
  {
    if a != [] {
      BeforeIrreflexive(a[1..]);
    }
  }

  lemma {:induction false} BeforeTransitive(a: string, b: string, c: string)
    requires Before(a, b) && Before(b, c)
    ensures Before(a, c)
    decreases |a|
  {
    if a != [] && a[0] == b[0] && b[0] == c[0] {
      BeforeTransitive(a[1..], b[1..], c[1..]);
    }
  }

  lemma {:induction false} BeforeTotal(a: string, b: string)
    requires a != b
    ensures Before(a, b) || Before(b, a)
    decreases |a|
  {
    if a != [] && b != [] && a[0] == b[0] {
      assert a == [a[0]] + a[1..] && b == [b[0]] + b[1..];
      BeforeTotal(a[1..], b[1..]);
    }
  }

  /** One distinct dimension and the number of rows that have it. */
  datatype Tally = Tally(dimension: string, count: nat)

  /** One more occurrence of `d` in a list of tallies sorted by dimension. */
  function Add(ts: seq<Tally>, d: string): seq<Tally>
    decreases |ts|
  {
    if ts == [] then [Tally(d, 1)]
    else if ts[0].dimension == d then [Tally(d, ts[0].count + 1)] + ts[1..]
    else if Before(d, ts[0].dimension) then [Tally(d, 1)] + ts
    else [ts[0]] + Add(ts[1..], d)
  }

  /**
   * `numpy.unique(ds, return_counts=True)`: the distinct dimensions of
   * `ds` in sorted order, each with its number of occurrences.
   */
  function Unique(ds: seq<string>): seq<Tally>
    decreases |ds|
  {
    if ds == [] then [] else Add(Unique(ds[..|ds| - 1]), ds[|ds| - 1])
  }

  /** Strictly increasing dimensions, so no dimension twice. */
  predicate Sorted(ts: seq<Tally>) {
    forall i, j :: 0 <= i < j < |ts| ==> Before(ts[i].dimension, ts[j].dimension)
  }

  /** Every tally counts at least one row. */
  predicate Positive(ts: seq<Tally>) {
    forall k :: 0 <= k < |ts| ==> ts[k].count >= 1
  }

  /** The rows the tallies count for dimension `d`. */
  function Count(ts: seq<Tally>, d: string): nat
    decreases |ts|
  {
    if ts == [] then 0 else (if ts[0].dimension == d then ts[0].count else 0) + Count(ts[1..], d)
  }

  /** The rows the tallies count in all. */
  function Total(ts: seq<Tally>): nat
    decreases |ts|
  {
    if ts == [] then 0 else ts[0].count + Total(ts[1..])
  }

  /** Every dimension of `ts` comes after `x`. */
  predicate AllAfter(x: string, ts: seq<Tally>) {
    forall k :: 0 <= k < |ts| ==> Before(x, ts[k].dimension)
  }

  lemma {:induction false} AddAfter(ts: seq<Tally>, d: string, x: string)
    requires AllAfter(x, ts) && Before(x, d)
    ensures AllAfter(x, Add(ts, d))
    decreases |ts|
  {
    if ts != [] && ts[0].dimension != d && !Before(d, ts[0].dimension) {
      AddAfter(ts[1..], d, x);
    }
  }

  lemma {:induction false} AddSorted(ts: seq<Tally>, d: string)
    requires Sorted(ts)
    ensures Sorted(Add(ts, d))
    decreases |ts|
  {
    if ts == [] {
    } else if ts[0].dimension == d {
      assert forall k :: 0 <= k < |ts| ==> Add(ts, d)[k].dimension == ts[k].dimension;
    } else if Before(d, ts[0].dimension) {
      forall j | 0 < j < |ts|
        ensures Before(d, ts[j].dimension)
      {
        BeforeTransitive(d, ts[0].dimension, ts[j].dimension);
      }
      assert forall j :: 0 < j <= |ts| ==> Add(ts, d)[j] == ts[j - 1];
    } else {
      BeforeTotal(d, ts[0].dimension);
      AddSorted(ts[1..], d);
      AddAfter(ts[1..], d, ts[0].dimension);
      var added := Add(ts[1..], d);
      assert Add(ts, d) == [ts[0]] + added;
      assert forall j :: 0 < j <= |added| ==> Add(ts, d)[j] == added[j - 1];
    }
  }

  lemma {:induction false} AddCounts(ts: seq<Tally>, d: string)
    requires Positive(ts)
    ensures Positive(Add(ts, d)) && Total(Add(ts, d)) == Total(ts) + 1
    ensures forall e :: Count(Add(ts, d), e) == Count(ts, e) + (if e == d then 1 else 0)
    decreases |ts|
  {
    if ts == [] {
    } else if ts[0].dimension == d {
      assert Add(ts, d)[1..] == ts[1..];
    } else if Before(d, ts[0].dimension) {
      assert Add(ts, d)[1..] == ts;
    } else {
      AddCounts(ts[1..], d);
      assert Add(ts, d)[1..] == Add(ts[1..], d);
    }
  }

  /**
   * `Unique` is what `numpy.unique` promises: sorted distinct dimensions,
   * each counted as often as it occurs and at least once, and the counts
   * add up to the number of rows.
   */
  lemma {:induction false} UniqueTallies(ds: seq<string>)
    ensures Sorted(Unique(ds)) && Positive(Unique(ds)) && Total(Unique(ds)) == |ds|
    ensures forall d :: Count(Unique(ds), d) == multiset(ds)[d]
    decreases |ds|
  {
    if ds != [] {
      var front := ds[..|ds| - 1];
      UniqueTallies(front);
      AddSorted(Unique(front), ds[|ds| - 1]);
      AddCounts(Unique(front), ds[|ds| - 1]);
      assert ds == front + [ds[|ds| - 1]];
    }
  }

  /** A dimension is among the tallies exactly when it occurs. */
  lemma UniqueDimensions(ds: seq<string>, d: string)
    ensures (exists k :: 0 <= k < |Unique(ds)| && Unique(ds)[k].dimension == d) <==> d in ds
  {
    UniqueTallies(ds);
    var ts := Unique(ds);
    if exists k :: 0 <= k < |ts| && ts[k].dimension == d {
      var k :| 0 <= k < |ts| && ts[k].dimension == d;
      CountAtLeast(ts, k);
    } else {
      CountAbsent(ts, d);
    }
  }

  lemma {:induction false} CountAtLeast(ts: seq<Tally>, k: nat)
    requires k < |ts|
    ensures Count(ts, ts[k].dimension) >= ts[k].count
    decreases |ts|
  {
    if k > 0 {
      CountAtLeast(ts[1..], k - 1);
    }
  }

  lemma {:induction false} CountAbsent(ts: seq<Tally>, d: string)
    requires forall k :: 0 <= k < |ts| ==> ts[k].dimension != d
    ensures Count(ts, d) == 0
    decreases |ts|
  {
    if ts != [] {
      CountAbsent(ts[1..], d);
    }
  }

  /** The decimal digits of `n`, as `%d` prints it. */
  function Decimal(n: nat): (r: string)
    ensures r != [] && forall k :: 0 <= k < |r| ==> '0' <= r[k] <= '9'
    decreases n
  {
    if n < 10 then [(n + 48) as char] else Decimal(n / 10) + [(n % 10 + 48) as char]
  }

  /** The number a string of decimal digits denotes. */
  function DecimalValue(s: string): int
    decreases |s|
  {
    if s == [] then 0 else 10 * DecimalValue(s[..|s| - 1]) + (s[|s| - 1] as int - 48)
  }

  /** Reading back the digits `Decimal` prints gives the number, and there is no leading zero. */
  lemma {:induction false} DecimalRoundTrip(n: nat)
    ensures DecimalValue(Decimal(n)) == n
    ensures Decimal(n)[0] == '0' ==> n == 0
    decreases n
  {
    if n >= 10 {
      DecimalRoundTrip(n / 10);
      var s := Decimal(n);
      assert s[..|s| - 1] == Decimal(n / 10);
    }
  }

  /** The term `' + %d * (%s)'` that a dimension other than `1` contributes. */
  function Term(t: Tally): string {
    " + " + Decimal(t.count) + " * (" + t.dimension + ")"
  }

  /** The terms of all tallies but the one for dimension `1`, in order. */
  function Terms(ts: seq<Tally>): string
    decreases |ts|
  {
    if ts == [] then []
    else Terms(ts[..|ts| - 1]) + (if ts[|ts| - 1].dimension == "1" then [] else Term(ts[|ts| - 1]))
  }

  /** The count of the last tally for dimension `1`, if there is one. */
  function UnitCount(ts: seq<Tally>): Option<nat>
    decreases |ts|
  {
    if ts == [] then None
    else if ts[|ts| - 1].dimension == "1" then Some(ts[|ts| - 1].count)
    else UnitCount(ts[..|ts| - 1])
  }

  /**
   * What `xmake_string` returns for the dimensions of a table (lines
   * 234-246): the number of rows of dimension `1`, a space, and the terms of
   * the other dimensions; it fails when there is no dimension `1`.
   */
  function SizeExpression(ds: seq<string>): Result<string, TallyError> {
    match UnitCount(Unique(ds))
      case None => Failure(NoUnitDimension)
      case Some(ntot) => Success(Decimal(ntot) + " " + Terms(Unique(ds)))
  }

  /** `xmake_string` (lines 234-246), given the Dimension column. */
  method XMakeString(dimensions: seq<string>) returns (r: Result<string, TallyError>)
    ensures r == SizeExpression(dimensions)
  {
    var tallies := Unique(dimensions);
    var xstring := "";
    var ntot: Option<nat> := None;
    var i := 0;
    while i < |tallies|
      invariant i <= |tallies|
      invariant xstring == Terms(tallies[..i]) && ntot == UnitCount(tallies[..i])
    {
      assert tallies[..i + 1][..i] == tallies[..i];
      if tallies[i].dimension == "1" {
        ntot := Some(tallies[i].count);
      } else {
        xstring := xstring + Term(tallies[i]);
      }
      i := i + 1;
    }
    assert tallies[..i] == tallies;
    if ntot.None? {
      return Failure(NoUnitDimension);
    }
    return Success(Decimal(ntot.value) + " " + xstring);
  }

  /** With distinct positive tallies, the last one for `1` holds all the rows counted for `1`. */
  lemma {:induction false} UnitCountIsCount(ts: seq<Tally>)
    requires Sorted(ts) && Positive(ts)
    ensures UnitCount(ts) == if Count(ts, "1") > 0 then Some(Count(ts, "1")) else None
    decreases |ts|
  {
    if ts != [] {
      var front := ts[..|ts| - 1];
      var last := ts[|ts| - 1];
      assert ts == front + [last];
      UnitCountIsCount(front);
      CountSnoc(front, last, "1");
      if last.dimension == "1" {
        forall k | 0 <= k < |front|
          ensures front[k].dimension != "1"
        {
          BeforeIrreflexive("1");
          assert Before(ts[k].dimension, ts[|ts| - 1].dimension);
        }
        CountAbsent(front, "1");
      }
    }
  }

  lemma {:induction false} CountSnoc(ts: seq<Tally>, t: Tally, d: string)
    ensures Count(ts + [t], d) == Count(ts, d) + (if t.dimension == d then t.count else 0)
    decreases |ts|
  {
    if ts != [] {
      assert (ts + [t])[1..] == ts[1..] + [t];
      CountSnoc(ts[1..], t, d);
    }
  }

  /**
   * `xmake_string` fails exactly when no row has dimension `1`; otherwise
   * its leading number is the number of such rows.
   */
  lemma SizeExpressionMeaning(ds: seq<string>)
    ensures SizeExpression(ds).Success? <==> "1" in ds
    ensures SizeExpression(ds).Success? ==>
              SizeExpression(ds).value == Decimal(multiset(ds)["1"]) + " " + Terms(Unique(ds))
  {
    UniqueTallies(ds);
    UnitCountIsCount(Unique(ds));
  }

  /** The Dimension column of the rows of one Type, in order. */
  function KindDimensions(rows: seq<Row>, kind: string): (ds: seq<string>)
    ensures |ds| <= |rows|
    decreases |rows|
  {
    if rows == [] then []
    else (if rows[0].kind == kind then [rows[0].dimension] else []) + KindDimensions(rows[1..], kind)
  }

  /** Some row of that Type has dimension `1`. */
  predicate HasUnit(rows: seq<Row>, kind: string) {
    exists k :: 0 <= k < |rows| && rows[k].kind == kind && rows[k].dimension == "1"
  }

  lemma {:induction false} KindDimensionsUnit(rows: seq<Row>, kind: string)
    ensures "1" in KindDimensions(rows, kind) <==> HasUnit(rows, kind)
    decreases |rows|
  {
    if rows != [] {
      KindDimensionsUnit(rows[1..], kind);
      if HasUnit(rows[1..], kind) {
        var k :| 0 <= k < |rows[1..]| && rows[1..][k].kind == kind && rows[1..][k].dimension == "1";
        assert rows[k + 1] == rows[1..][k];
      }
      if HasUnit(rows, kind) && !(rows[0].kind == kind && rows[0].dimension == "1") {
        var k :| 0 <= k < |rows| && rows[k].kind == kind && rows[k].dimension == "1";
        assert rows[1..][k - 1] == rows[k];
      }
    }
  }

  /**
   * What `doit` computes for one function's text (lines 298-313), without
   * the printing and the table files: nothing when it has no pack line,
   * otherwise the integer and the double size expressions.
   */
  function FunctionSizes(text: string): Result<Option<(string, string)>, TallyError> {
    match Rows(Split(text, "\n"))
      case Failure(e) => Failure(e)
      case Success(rows) =>
        if rows == [] then Success(None)
        else match SizeExpression(KindDimensions(rows, "MPI_INT"))
          case Failure(e) => Failure(e)
          case Success(ints) =>
            match SizeExpression(KindDimensions(rows, "MPI_DOUBLE"))
              case Failure(e) => Failure(e)
              case Success(doubles) => Success(Some((ints, doubles)))
  }

  /**
   * `doit` gets through a function exactly when its pack lines all parse
   * and, if there are any, both the `MPI_INT` and the `MPI_DOUBLE` rows
   * include one of dimension `1`.
   */
  lemma FunctionSizesSucceed(text: string)
    ensures FunctionSizes(text).Success? <==>
              Rows(Split(text, "\n")).Success? &&
              (Rows(Split(text, "\n")).value == [] ||
               (HasUnit(Rows(Split(text, "\n")).value, "MPI_INT") && HasUnit(Rows(Split(text, "\n")).value, "MPI_DOUBLE")))
  {
    var parsed := Rows(Split(text, "\n"));
    if parsed.Success? {
      var rows := parsed.value;
      KindDimensionsUnit(rows, "MPI_INT");
      KindDimensionsUnit(rows, "MPI_DOUBLE");
      SizeExpressionMeaning(KindDimensions(rows, "MPI_INT"));
      SizeExpressionMeaning(KindDimensions(rows, "MPI_DOUBLE"));
    }
  }
}
