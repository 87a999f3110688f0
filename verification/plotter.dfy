/**
 * The run-log report generator of scripts/plotter.py.
 *
 * A loaded run log is a table of column names and numeric rows. A report
 * is the list of pages that would be saved into the PDF document; a page
 * records its title, axis labels and one curve per plotted series, each
 * curve naming the table and the columns it draws. Rendering is left out.
 */
module Plotter {
  import opened Strings
  import opened Wrappers

  /** A run log as loaded from a `.state` file. */
  datatype Table = Table(columns: seq<string>, rows: seq<seq<real>>)

  /** One plotted series: column `yname` against column `xname` of table `table`. */
  datatype Curve = Curve(table: nat, xname: string, yname: string, legend: string, style: string)

  datatype Page = Page(title: string, xlabel: string, ylabel: string, curves: seq<Curve>)

  /** The Python exceptions a page can raise. */
  datatype PlotError =
    | IndexError     // a column index past the first table's columns, or no table at all
    | MissingColumn  // a table without a column the page looks up by name

  /**
   * The saved pages, and the exception that stopped the report if any.
   * The PDF context manager keeps the pages saved before an exception.
   */
  datatype Report = Report(pages: seq<Page>, failure: Option<PlotError>)

  /** Base column offsets of the single-run report. */
  const SingleOffsets: seq<nat> := [0, 1, 4]

  /** Column offsets of the training, validation and test blocks. */
  const TrainBlock: nat := 1
  const ValidBlock: nat := 8
  const TestBlock: nat := 15

  /** Metric entries of the comparison report; entry `c` plots column `c + 1`. */
  const Catalogue: seq<nat> := [0, 1, 4, 7, 8, 11, 14, 15, 18, 22]

  /** The two x-axes of the comparison report: epoch and elapsed time. */
  const EpochColumn: nat := 0
  const TimeColumn: nat := 22

  /** `os.path.basename`: the text after the last '/'. */
  function Basename(path: string): (r: string)
    ensures '/' !in r
    ensures |r| <= |path| && r == path[|path| - |r|..]
  {
    path[RFind(path, '/') + 1..]
  }

  /** The base name with every ".state" removed. */
  function StrippedName(path: string): string
  {
    RemoveAll(Basename(path), ".state")
  }

  /**
   * The display label of a run log: the stripped base name with every
   * occurrence of its text up to and including the first '_' removed.
   */
  function Label(path: string): string
  {
    var name := StrippedName(path);
    RemoveAll(name, name[..Find(name, '_') + 1])
  }

  /** Without an underscore the label is the stripped base name. */
  lemma LabelWithoutUnderscore(path: string)
    requires '_' !in StrippedName(path)
    ensures Label(path) == StrippedName(path)
  {
  }

  /**
   * With stripped name `p + "_" + q`, where `p` has no underscore and the
   * prefix `p + "_"` does not recur in `q`, the label is `q`.
   */
  lemma LabelDropsRunPrefix(path: string, p: string, q: string)
    requires StrippedName(path) == p + "_" + q
    requires '_' !in p
    requires !Occurs(q, p + "_")
    ensures Label(path) == q
  {
    var name := StrippedName(path);
    assert name[|p|] == '_';
    assert name[..|p|] == p;
    assert Find(name, '_') == |p|;
    assert name[..|p| + 1] == p + "_";
    assert name[|p + "_"|..] == q;
    RemoveAllAbsent(q, p + "_");
  }

  /**
   * Every later occurrence of the prefix is removed too: a stripped name
   * `p + "_" + x + p + "_"` gives `x`, so "a_xa_" gives "x".
   */
  lemma LabelRemovesRecurringPrefix(path: string, p: string, x: string)
    requires StrippedName(path) == p + "_" + x + p + "_"
    requires '_' !in p
    requires (p + "_")[0] !in x
    ensures Label(path) == x
  {
    var name := StrippedName(path);
    var pat := p + "_";
    assert name[|p|] == '_';
    assert name[..|p|] == p;
    assert Find(name, '_') == |p|;
    assert name[..|p| + 1] == pat;
    assert pat <= name;
    assert name[|pat|..] == x + pat;
    RemoveAllTrailing(x, pat);
  }

  /**
   * `get_csvs`: load every path in order, returning the labels and the
   * tables side by side. Reading a file is the parameter `load`.
   */
  method GetCsvs(paths: seq<string>, load: string -> Table) returns (names: seq<string>, tables: seq<Table>)
    ensures |names| == |paths| && |tables| == |paths|
    ensures forall i :: 0 <= i < |paths| ==> names[i] == Label(paths[i]) && tables[i] == load(paths[i])
  {
    names := [];
    tables := [];
    var k := 0;
    while k < |paths|
      invariant 0 <= k <= |paths|
      invariant |names| == k && |tables| == k
      invariant forall i :: 0 <= i < k ==> names[i] == Label(paths[i]) && tables[i] == load(paths[i])
    {
      names := names + [Label(paths[k])];
      tables := tables + [load(paths[k])];
      k := k + 1;
    }
  }

  /** Save pages in order until the first one that raises. */
  function Emit(attempts: seq<Result<Page, PlotError>>): (r: Report)
    ensures |r.pages| <= |attempts|
    ensures forall i :: 0 <= i < |r.pages| ==> attempts[i] == Success(r.pages[i])
    ensures r.failure == None <==> |r.pages| == |attempts|
    ensures r.failure != None ==> attempts[|r.pages|] == Failure(r.failure.value)
  {
    if |attempts| == 0 then Report([], None)
    else match attempts[0]
      case Failure(e) => Report([], Some(e))
      case Success(p) =>
        var rest := Emit(attempts[1..]);
        Report([p] + rest.pages, rest.failure)
  }

  /** One page of `plot_one`: train, validation and test curves of the metric at `col`. */
  function SinglePage(title: string, t: Table, col: nat): (r: Result<Page, PlotError>)
    ensures r.Success? <==> col + TestBlock < |t.columns|
    ensures r.Success? ==>
      var p := r.value;
      && p.title == title
      && p.xlabel == t.columns[0]
      && p.ylabel == RemoveAll(t.columns[col + TrainBlock], "train_")
      && |p.curves| == 3
      && (forall j :: 0 <= j < 3 ==> p.curves[j].table == 0 && p.curves[j].xname == t.columns[0])
      && p.curves[0].yname == t.columns[col + TrainBlock]
      && p.curves[1].yname == t.columns[col + ValidBlock]
      && p.curves[2].yname == t.columns[col + TestBlock]
  {
    if col + TestBlock >= |t.columns| then Failure(IndexError)
    else
      var xname := t.columns[0];
      var y0 := t.columns[col + TrainBlock];
      var y1 := t.columns[col + ValidBlock];
      var y2 := t.columns[col + TestBlock];
      Success(Page(title, xname, RemoveAll(y0, "train_"),
                   [Curve(0, xname, y0, y0, "r--"), Curve(0, xname, y1, y1, "g:"), Curve(0, xname, y2, y2, "b-")]))
  }

  /** The pages of the single-run report under a given title. */
  function SingleReport(title: string, t: Table): (r: Report)
    ensures r.failure == None <==> |t.columns| >= 20
    ensures |r.pages| == (if |t.columns| < 16 then 0 else if |t.columns| < 17 then 1 else if |t.columns| < 20 then 2 else 3)
    ensures forall k :: 0 <= k < |r.pages| ==> Success(r.pages[k]) == SinglePage(title, t, SingleOffsets[k])
  {
    var attempts := [SinglePage(title, t, 0), SinglePage(title, t, 1), SinglePage(title, t, 4)];
    var r := Emit(attempts);
    assert attempts[0].Success? <==> |t.columns| >= 16;
    assert attempts[1].Success? <==> |t.columns| >= 17;
    assert attempts[2].Success? <==> |t.columns| >= 20;
    r
  }

  /**
   * `plot_one`: the report of one run, one page per base offset 0, 1 and 4,
   * each titled by the run's label and plotting the metric's train,
   * validation and test columns against column 0. The pages before the
   * first column index that does not exist are kept.
   */
  function PlotOne(path: string, t: Table): (r: Report)
    ensures r.failure == None <==> |t.columns| >= 20
    ensures |r.pages| == (if |t.columns| < 16 then 0 else if |t.columns| < 17 then 1 else if |t.columns| < 20 then 2 else 3)
    ensures forall k :: 0 <= k < |r.pages| ==>
      var col := SingleOffsets[k];
      var p := r.pages[k];
      && p.title == Label(path)
      && p.xlabel == t.columns[0]
      && p.ylabel == RemoveAll(t.columns[col + 1], "train_")
      && |p.curves| == 3
      && (forall j :: 0 <= j < 3 ==> p.curves[j].table == 0 && p.curves[j].xname == t.columns[0])
      && p.curves[0].yname == t.columns[col + 1]
      && p.curves[1].yname == t.columns[col + 8]
      && p.curves[2].yname == t.columns[col + 15]
  {
    SingleReport(Label(path), t)
  }

  /** True when table `t` has a column named `name`. */
  predicate HasColumn(t: Table, name: string)
  {
    name in t.columns
  }

  /** The y label of a comparison page: the column name without its split prefix. */
  function MetricLabel(yname: string): string
  {
    RemoveAll(RemoveAll(RemoveAll(yname, "train_"), "valid_"), "test_")
  }

  /**
   * `plot_many_wrt`: one comparison page plotting column `ycol + 1` against
   * column `xcol`, both named after the first table, with one curve per run
   * that looks the two columns up by name in its own table.
   */
  function ComparisonPage(names: seq<string>, tables: seq<Table>, xcol: nat, ycol: nat): (r: Result<Page, PlotError>)
    requires |names| == |tables|
    ensures r.Success? <==>
      && |tables| > 0 && ycol + 1 < |tables[0].columns| && xcol < |tables[0].columns|
      && forall i :: 0 <= i < |tables| ==>
           HasColumn(tables[i], tables[0].columns[xcol]) && HasColumn(tables[i], tables[0].columns[ycol + 1])
    ensures r.Success? ==>
      var xname := tables[0].columns[xcol];
      var yname := tables[0].columns[ycol + 1];
      && r.value.title == yname
      && r.value.xlabel == xname
      && r.value.ylabel == MetricLabel(yname)
      && |r.value.curves| == |tables|
      && forall i :: 0 <= i < |tables| ==> r.value.curves[i] == Curve(i, xname, yname, names[i], "")
  {
    if |tables| == 0 || ycol + 1 >= |tables[0].columns| || xcol >= |tables[0].columns| then Failure(IndexError)
    else
      var xname := tables[0].columns[xcol];
      var yname := tables[0].columns[ycol + 1];
      if exists i :: 0 <= i < |tables| && !(HasColumn(tables[i], xname) && HasColumn(tables[i], yname)) then
        Failure(MissingColumn)
      else
        Success(Page(yname, xname, MetricLabel(yname),
                     seq(|tables|, i requires 0 <= i < |tables| => Curve(i, xname, yname, names[i], ""))))
  }

  /** The x column of comparison page `k`: epoch first, then time. */
  function ComparisonX(k: nat): nat
  {
    if k % 2 == 0 then EpochColumn else TimeColumn
  }

  /** The catalogue entry of comparison page `k`. */
  function ComparisonY(k: nat): nat
    requires k < 2 * |Catalogue|
  {
    Catalogue[k / 2]
  }

  /** The twenty page attempts of `plot_many`, in order. */
  function ComparisonAttempts(names: seq<string>, tables: seq<Table>): (r: seq<Result<Page, PlotError>>)
    requires |names| == |tables|
    ensures |r| == 2 * |Catalogue|
    ensures forall k :: 0 <= k < |r| ==> r[k] == ComparisonPage(names, tables, ComparisonX(k), ComparisonY(k))
  {
    seq(2 * |Catalogue|, k requires 0 <= k < 2 * |Catalogue| =>
          ComparisonPage(names, tables, ComparisonX(k), ComparisonY(k)))
  }

  /** True when every table has every column the comparison report looks up. */
  predicate SharesCatalogueColumns(tables: seq<Table>)
    requires |tables| > 0 && |tables[0].columns| > 23
  {
    forall i, k :: 0 <= i < |tables| && 0 <= k < 2 * |Catalogue| ==>
      HasColumn(tables[i], tables[0].columns[ComparisonX(k)]) &&
      HasColumn(tables[i], tables[0].columns[ComparisonY(k) + 1])
  }

  /** `plot_many` after `get_csvs`: two pages per catalogue entry. */
  function PlotManyTables(names: seq<string>, tables: seq<Table>): (r: Report)
    requires |names| == |tables|
    ensures r.failure == None <==>
      |tables| > 0 && |tables[0].columns| > 23 && SharesCatalogueColumns(tables)
    ensures r.failure == None ==> |r.pages| == 20
    ensures |tables| == 0 ==> r == Report([], Some(IndexError))
  {
    PlotManyOutcome(names, tables);
    Emit(ComparisonAttempts(names, tables))
  }

  lemma PlotManyOutcome(names: seq<string>, tables: seq<Table>)
    requires |names| == |tables|
    ensures var r := Emit(ComparisonAttempts(names, tables));
      && (r.failure == None <==> |tables| > 0 && |tables[0].columns| > 23 && SharesCatalogueColumns(tables))
      && (|tables| == 0 ==> r == Report([], Some(IndexError)))
  {
    if |tables| == 0 {
      ComparisonAttemptFails(names, tables, 0);
    } else if |tables[0].columns| <= 23 {
      ComparisonAttemptFails(names, tables, 19);
    } else if SharesCatalogueColumns(tables) {
      AllComparisonPagesSucceed(names, tables);
    } else {
      var i, k :| 0 <= i < |tables| && 0 <= k < 2 * |Catalogue| && !(
        HasColumn(tables[i], tables[0].columns[ComparisonX(k)]) &&
        HasColumn(tables[i], tables[0].columns[ComparisonY(k) + 1]));
      ComparisonAttemptFails(names, tables, k);
    }
  }

  /** A failing attempt stops the comparison report. */
  lemma ComparisonAttemptFails(names: seq<string>, tables: seq<Table>, k: nat)
    requires |names| == |tables| && k < 2 * |Catalogue|
    requires ComparisonPage(names, tables, ComparisonX(k), ComparisonY(k)).Failure?
    ensures Emit(ComparisonAttempts(names, tables)).failure != None
    ensures |tables| == 0 ==> Emit(ComparisonAttempts(names, tables)) == Report([], Some(IndexError))
  {
    var attempts := ComparisonAttempts(names, tables);
    assert attempts[k].Failure?;
    if |tables| == 0 {
      assert attempts[0] == Failure(IndexError);
    }
  }

  lemma AllComparisonPagesSucceed(names: seq<string>, tables: seq<Table>)
    requires |names| == |tables|
    requires |tables| > 0 && |tables[0].columns| > 23 && SharesCatalogueColumns(tables)
    ensures forall k :: 0 <= k < 2 * |Catalogue| ==> ComparisonAttempts(names, tables)[k].Success?
  {
    forall k | 0 <= k < 2 * |Catalogue|
      ensures ComparisonPage(names, tables, ComparisonX(k), ComparisonY(k)).Success?
    {
      assert ComparisonY(k) + 1 < |tables[0].columns|;
    }
  }

  /**
   * Page `k` of the comparison report plots catalogue entry `k / 2` against
   * the epoch (even `k`) or the time (odd `k`), with one curve per run in
   * input order, labelled by the run's name.
   */
  lemma ComparisonPageContents(names: seq<string>, tables: seq<Table>, k: nat)
    requires |names| == |tables|
    requires k < |PlotManyTables(names, tables).pages|
    ensures |tables| > 0
    ensures ComparisonX(k) < |tables[0].columns| && Catalogue[k / 2] + 1 < |tables[0].columns|
    ensures
      var p := PlotManyTables(names, tables).pages[k];
      var cols := tables[0].columns;
      && p.title == cols[Catalogue[k / 2] + 1]
      && p.xlabel == cols[ComparisonX(k)]
      && p.ylabel == MetricLabel(cols[Catalogue[k / 2] + 1])
      && |p.curves| == |tables|
      && forall i :: 0 <= i < |tables| ==>
           p.curves[i] == Curve(i, cols[ComparisonX(k)], cols[Catalogue[k / 2] + 1], names[i], "")
  {
    var attempts := ComparisonAttempts(names, tables);
    assert attempts[k] == Success(PlotManyTables(names, tables).pages[k]);
  }

  /** `plot_many`: load every run log, then build the comparison report. */
  function PlotMany(paths: seq<string>, load: string -> Table): (r: Report)
    ensures paths == [] ==> r == Report([], Some(IndexError))
    ensures r.failure == None ==>
      |r.pages| == 20 && forall k :: 0 <= k < 20 ==>
        |r.pages[k].curves| == |paths| &&
        forall i :: 0 <= i < |paths| ==> r.pages[k].curves[i].legend == Label(paths[i])
  {
    var names := seq(|paths|, i requires 0 <= i < |paths| => Label(paths[i]));
    var tables := seq(|paths|, i requires 0 <= i < |paths| => load(paths[i]));
    var r := PlotManyTables(names, tables);
    forall k | 0 <= k < |r.pages| ensures |r.pages[k].curves| == |paths| &&
        forall i :: 0 <= i < |paths| ==> r.pages[k].curves[i].legend == Label(paths[i]) {
      ComparisonPageContents(names, tables, k);
    }
    r
  }
}
