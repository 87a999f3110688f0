/**
 * The text table of src/text/table.cpp: a title, a header of column
 * names and rows of named values with markings, printed as a bordered
 * grid. Printing produces the list of output lines, without line ends.
 *
 * `nano::align` (align.hpp) is not part of this model; it is taken to
 * left-align its text and pad it with spaces up to the requested width.
 */
module TextTable {
  import opened Strings
  import opened Wrappers

  datatype Row = Row(name: string, values: seq<string>, markings: seq<string>)

  datatype Table = Table(title: string, header: seq<string>, rows: seq<Row>)

  function Cols(t: Table): nat
  {
    |t.header|
  }

  function Rows(t: Table): nat
  {
    |t.rows|
  }

  /** Every row has one value and one marking per header column, as the source asserts. */
  predicate WellFormed(t: Table)
  {
    forall r :: 0 <= r < |t.rows| ==> |t.rows[r].values| == Cols(t) && |t.rows[r].markings| == Cols(t)
  }

  /** `row(i)`: the bounds-checked `at`, which throws `out_of_range` past the end. */
  function RowAt(t: Table, i: nat): (r: Option<Row>)
    ensures r.Some? <==> i < Rows(t)
    ensures r.Some? ==> r.value == t.rows[i]
  {
    if i < |t.rows| then Some(t.rows[i]) else None
  }

  /** `clear()`: drop the rows, keep the title and the header. */
  function Clear(t: Table): (r: Table)
    ensures Rows(r) == 0
    ensures r.title == t.title && r.header == t.header && Cols(r) == Cols(t)
    ensures WellFormed(r)
  {
    Table(t.title, t.header, [])
  }

  /** The text of cell `c` of a row: its value followed by its marking. */
  function Cell(row: Row, c: nat): string
    requires c < |row.values| && c < |row.markings|
  {
    row.values[c] + row.markings[c]
  }

  /**
   * `name_colsize()`: the width of the name column, the longest of the
   * title and the row names.
   */
  method NameColsize(t: Table) returns (size: nat)
    ensures size >= |t.title|
    ensures forall r :: 0 <= r < |t.rows| ==> size >= |t.rows[r].name|
    ensures size == |t.title| || exists r :: 0 <= r < |t.rows| && size == |t.rows[r].name|
    ensures size == NameWidth(t)
  {
    size := |t.title|;
    var i := 0;
    while i < |t.rows|
      invariant 0 <= i <= |t.rows|
      invariant size >= |t.title|
      invariant forall r :: 0 <= r < i ==> size >= |t.rows[r].name|
      invariant size == |t.title| || exists r :: 0 <= r < i && size == |t.rows[r].name|
      invariant NameWidthFrom(t, size, i) == NameWidth(t)
    {
      if |t.rows[i].name| > size {
        size := |t.rows[i].name|;
      }
      i := i + 1;
    }
  }

  /** The running maximum of row-name lengths from row `i` on, starting at `acc`. */
  function NameWidthFrom(t: Table, acc: nat, i: nat): (w: nat)
    requires i <= |t.rows|
    ensures w >= acc
    ensures forall r :: i <= r < |t.rows| ==> w >= |t.rows[r].name|
    ensures w == acc || exists r :: i <= r < |t.rows| && w == |t.rows[r].name|
    decreases |t.rows| - i
  {
    if i == |t.rows| then acc
    else NameWidthFrom(t, if |t.rows[i].name| > acc then |t.rows[i].name| else acc, i + 1)
  }

  /** The width of the name column. */
  function NameWidth(t: Table): (w: nat)
    ensures w >= |t.title| && forall r :: 0 <= r < |t.rows| ==> w >= |t.rows[r].name|
  {
    NameWidthFrom(t, |t.title|, 0)
  }

  /** The width of value column `c`: the longest of its header and its cells in rows `i..`. */
  function ColumnWidthFrom(t: Table, c: nat, i: nat): (w: nat)
    requires WellFormed(t) && c < Cols(t) && i <= |t.rows|
    ensures w >= |t.header[c]|
    ensures forall r :: i <= r < |t.rows| ==> w >= |Cell(t.rows[r], c)|
    ensures w == |t.header[c]| || exists r :: i <= r < |t.rows| && w == |Cell(t.rows[r], c)|
    decreases |t.rows| - i
  {
    if i == |t.rows| then |t.header[c]|
    else
      var rest := ColumnWidthFrom(t, c, i + 1);
      var here := |Cell(t.rows[i], c)|;
      if here > rest then here else rest
  }

  /**
   * `value_colsizes()`: one width per column, the longest of the column's
   * header and of its cells (value and marking together).
   */
  function ValueColsizes(t: Table): (sizes: seq<nat>)
    requires WellFormed(t)
    ensures |sizes| == Cols(t)
    ensures forall c :: 0 <= c < Cols(t) ==> sizes[c] >= |t.header[c]|
    ensures forall c, r :: 0 <= c < Cols(t) && 0 <= r < |t.rows| ==> sizes[c] >= |Cell(t.rows[r], c)|
    ensures forall c :: 0 <= c < Cols(t) ==>
      sizes[c] == |t.header[c]| || exists r :: 0 <= r < |t.rows| && sizes[c] == |Cell(t.rows[r], c)|
  {
    seq(Cols(t), c requires 0 <= c < Cols(t) => ColumnWidthFrom(t, c, 0))
  }

  function Sum(xs: seq<nat>): nat
  {
    if |xs| == 0 then 0 else xs[0] + Sum(xs[1..])
  }

  /** `rowsize`: the length of a row-separator line. */
  function RowSize(t: Table): nat
    requires WellFormed(t)
  {
    NameWidth(t) + 2 + Cols(t) * 3 + Sum(ValueColsizes(t))
  }

  function Dashes(n: nat): (s: string)
    ensures |s| == n && forall i :: 0 <= i < n ==> s[i] == '-'
  {
    Repeat('-', n)
  }

  /** Left alignment padded with spaces to `width` (text already that wide is kept). */
  function Align(s: string, width: nat): (r: string)
    ensures |s| <= width ==> |r| == width
    ensures s <= r
    ensures forall i :: |s| <= i < |r| ==> r[i] == ' '
  {
    if |s| >= width then s else s + Repeat(' ', width - |s|)
  }

  /** `"+"` and `size + 2` dashes per column. */
  function DelimCells(sizes: seq<nat>): (s: string)
    ensures |s| == Sum(sizes) + 3 * |sizes|
  {
    if |sizes| == 0 then "" else "+" + Dashes(sizes[0] + 2) + DelimCells(sizes[1..])
  }

  /** `print_row_delim()`. */
  function RowDelim(t: Table): (s: string)
    requires WellFormed(t)
    ensures |s| == RowSize(t) + 2
    ensures s[0] == '|' && s[|s| - 1] == '|'
    ensures forall i :: 1 <= i < NameWidth(t) + 3 ==> s[i] == '-'
  {
    "|" + Dashes(NameWidth(t) + 2) + DelimCells(ValueColsizes(t)) + "|"
  }

  /** The aligned value cells of one line, one per column. */
  function LineCells(cells: seq<string>, sizes: seq<nat>): (s: string)
    requires |cells| == |sizes|
    requires forall c :: 0 <= c < |cells| ==> |cells[c]| <= sizes[c]
    ensures |s| == Sum(sizes) + 3 * |sizes|
  {
    if |cells| == 0 then ""
    else Align("| " + cells[0], sizes[0] + 3) + LineCells(cells[1..], sizes[1..])
  }

  /** A bordered line: the name cell, the value cells and the closing bar. */
  function Line(t: Table, first: string, cells: seq<string>): (s: string)
    requires WellFormed(t)
    requires |first| <= NameWidth(t)
    requires |cells| == Cols(t)
    requires forall c :: 0 <= c < |cells| ==> |cells[c]| <= ValueColsizes(t)[c]
    ensures |s| == RowSize(t) + 2
    ensures "| " + first <= s && s[|s| - 1] == '|'
  {
    Align("| " + first, NameWidth(t) + 3) + LineCells(cells, ValueColsizes(t)) + "|"
  }

  function HeaderLine(t: Table): (s: string)
    requires WellFormed(t)
    ensures |s| == RowSize(t) + 2
  {
    Line(t, t.title, t.header)
  }

  function RowCells(t: Table, r: nat): (cells: seq<string>)
    requires WellFormed(t) && r < |t.rows|
    ensures |cells| == Cols(t)
    ensures forall c :: 0 <= c < Cols(t) ==> cells[c] == Cell(t.rows[r], c)
  {
    seq(Cols(t), c requires 0 <= c < Cols(t) => Cell(t.rows[r], c))
  }

  function RowLine(t: Table, r: nat): (s: string)
    requires WellFormed(t) && r < |t.rows|
    ensures |s| == RowSize(t) + 2
  {
    Line(t, t.rows[r].name, RowCells(t, r))
  }

  /**
   * The row loop of `print`: the lines `items[r..]`, each but the very
   * first (`r == 0`) preceded by `sep` when separators are asked for.
   */
  function RowLoop(items: seq<string>, sep: string, useSep: bool, r: nat): (lines: seq<string>)
    requires r <= |items|
    decreases |items| - r
  {
    if r == |items| then []
    else (if r > 0 && useSep then [sep] else []) + [items[r]] + RowLoop(items, sep, useSep, r + 1)
  }

  /** The row lines of a table, in row order. */
  function RowLines(t: Table): (lines: seq<string>)
    requires WellFormed(t)
    ensures |lines| == |t.rows|
    ensures forall r :: 0 <= r < |t.rows| ==> lines[r] == RowLine(t, r)
  {
    seq(|t.rows|, r requires 0 <= r < |t.rows| => RowLine(t, r))
  }

  /** `print(os, use_row_delim)`: the lines written, in order. */
  function Print(t: Table, useRowDelim: bool): (lines: seq<string>)
    requires WellFormed(t)
    ensures |lines| >= 4
    ensures lines[0] == RowDelim(t) && lines[1] == HeaderLine(t) && lines[2] == RowDelim(t)
    ensures lines[|lines| - 1] == RowDelim(t)
  {
    [RowDelim(t), HeaderLine(t), RowDelim(t)] + RowLoop(RowLines(t), Dashes(RowSize(t)), useRowDelim, 0) + [RowDelim(t)]
  }

  /**
   * Reference layout of the row part: without separators, the items as
   * they are; with them, the items on the even lines and a separator on
   * each odd line in between.
   */
  function Interleaved(items: seq<string>, sep: string, useSep: bool): (lines: seq<string>)
  {
    var n := |items|;
    if !useSep then items
    else if n == 0 then []
    else seq(2 * n - 1, i requires 0 <= i < 2 * n - 1 => if i % 2 == 0 then items[i / 2] else sep)
  }

  /** Items `r..` without separators. */
  lemma {:induction false} RowLoopPlain(items: seq<string>, sep: string, r: nat)
    requires r <= |items|
    ensures RowLoop(items, sep, false, r) == items[r..]
    decreases |items| - r
  {
    if r < |items| {
      RowLoopPlain(items, sep, r + 1);
      assert items[r..] == [items[r]] + items[r + 1..];
    }
  }

  /** Items `r..`, `r > 0`, each preceded by a separator. */
  lemma {:induction false} RowLoopSeparated(items: seq<string>, sep: string, r: nat)
    requires 0 < r <= |items|
    ensures |RowLoop(items, sep, true, r)| == 2 * (|items| - r)
    ensures forall i :: 0 <= i < 2 * (|items| - r) ==>
      RowLoop(items, sep, true, r)[i] == if i % 2 == 0 then sep else items[r + i / 2]
    decreases |items| - r
  {
    if r < |items| {
      RowLoopSeparated(items, sep, r + 1);
      var rest := RowLoop(items, sep, true, r + 1);
      var lines := RowLoop(items, sep, true, r);
      assert lines == [sep, items[r]] + rest;
      forall i | 2 <= i < 2 * (|items| - r)
        ensures lines[i] == if i % 2 == 0 then sep else items[r + i / 2]
      {
        Halves(i - 2);
      }
    }
  }

  /** How the parity and the half of an index move when it grows by one or two. */
  lemma Halves(i: nat)
    ensures (i + 1) % 2 == 1 - i % 2 && (i + 2) % 2 == i % 2
    ensures (i + 2) / 2 == i / 2 + 1
    ensures i % 2 == 1 ==> (i + 1) / 2 == i / 2 + 1
    ensures i % 2 == 0 ==> (i + 1) / 2 == i / 2
  {
  }

  /** The row loop writes exactly the reference layout. */
  lemma RowLoopLayout(items: seq<string>, sep: string, useSep: bool)
    ensures RowLoop(items, sep, useSep, 0) == Interleaved(items, sep, useSep)
  {
    if !useSep {
      RowLoopPlain(items, sep, 0);
    } else if |items| > 0 {
      RowLoopSeparated(items, sep, 1);
      var lines := RowLoop(items, sep, true, 0);
      var whole := Interleaved(items, sep, true);
      assert lines == [items[0]] + RowLoop(items, sep, true, 1);
      forall i | 1 <= i < |whole|
        ensures lines[i] == whole[i]
      {
        Halves(i - 1);
      }
    }
  }

  /** Interleaving keeps the items' width and adds one separator between each two items. */
  lemma InterleavedShape(items: seq<string>, sep: string, useSep: bool, w: nat)
    requires forall i :: 0 <= i < |items| ==> |items[i]| == w
    ensures var lines := Interleaved(items, sep, useSep);
      var n := |items|;
      && |lines| == n + (if useSep && n > 0 then n - 1 else 0)
      && (forall i :: 0 <= i < |lines| ==> |lines[i]| == w || (useSep && lines[i] == sep))
  {
  }

  /**
   * What `print` writes: a delimiter, the header line, a delimiter, the
   * row lines in order (interleaved with separators when asked), and a
   * closing delimiter. Every line other
   * than a separator is exactly `RowSize + 2` characters wide, so
   * separators are two characters shorter than the rest of the table.
   */
  lemma PrintShape(t: Table, useRowDelim: bool)
    requires WellFormed(t)
    ensures var lines := Print(t, useRowDelim);
      var n := |t.rows|;
      && lines == [RowDelim(t), HeaderLine(t), RowDelim(t)] + Interleaved(RowLines(t), Dashes(RowSize(t)), useRowDelim) + [RowDelim(t)]
      && |lines| == 4 + n + (if useRowDelim && n > 0 then n - 1 else 0)
      && (forall i :: 0 <= i < |lines| ==> |lines[i]| == RowSize(t) + 2 || (useRowDelim && lines[i] == Dashes(RowSize(t))))
  {
    var sep := Dashes(RowSize(t));
    var rows := RowLines(t);
    RowLoopLayout(rows, sep, useRowDelim);
    InterleavedShape(rows, sep, useRowDelim, RowSize(t) + 2);
    FrameShape(RowDelim(t), HeaderLine(t), Interleaved(rows, sep, useRowDelim), sep, useRowDelim, RowSize(t) + 2);
  }

  /** The frame around the rows keeps every line's width property. */
  lemma FrameShape(d: string, h: string, mid: seq<string>, sep: string, useSep: bool, w: nat)
    requires |d| == w && |h| == w
    requires forall i :: 0 <= i < |mid| ==> |mid[i]| == w || (useSep && mid[i] == sep)
    ensures var lines := [d, h, d] + mid + [d];
      forall i :: 0 <= i < |lines| ==> |lines[i]| == w || (useSep && lines[i] == sep)
  {
    var lines := [d, h, d] + mid + [d];
    assert forall i :: 3 <= i < 3 + |mid| ==> lines[i] == mid[i - 3];
  }

  /** Cleared tables print only the frame: delimiter, header, delimiter, delimiter. */
  lemma PrintCleared(t: Table, useRowDelim: bool)
    requires WellFormed(t)
    ensures Print(Clear(t), useRowDelim) == [RowDelim(Clear(t)), HeaderLine(Clear(t)), RowDelim(Clear(t)), RowDelim(Clear(t))]
  {
  }
}
