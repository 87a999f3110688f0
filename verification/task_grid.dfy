/**
 * The sample geometry and the image export of the generic task of
 * src/nanocv/task.cpp: a sample's region, and `save_as_images`, which cuts
 * a list of samples into groups of `grows * gcols`, lays each group out
 * row by row on a grid and names one PNG file per group.
 *
 * Pixels, borders and colours are left out: a grid is modelled by the
 * cells it fills (row, column and the sample placed there) and the path
 * it is saved to. Samples are a type parameter.
 */
module TaskGrid {
  import opened Strings
  import opened Arith

  /** A rectangle: its top-left corner and its extent. */
  datatype Rect = Rect(x: int, y: int, width: nat, height: nat)

  /** The sample dimensions of a task, `n_rows()` and `n_cols()`. */
  datatype Dims = Dims(rows: nat, cols: nat)

  /** `sample_region(x, y)`: a sample-sized rectangle with its corner at `(x, y)`. */
  function SampleRegion(d: Dims, x: int, y: int): Rect
  {
    Rect(x, y, d.cols, d.rows)
  }

  /** `sample_size()`: the region at the origin. */
  function SampleSize(d: Dims): Rect
  {
    SampleRegion(d, 0, 0)
  }

  /** Moving a rectangle keeps its extent. */
  function Translate(r: Rect, dx: int, dy: int): Rect
  {
    Rect(r.x + dx, r.y + dy, r.width, r.height)
  }

  /**
   * The sample size sits at the origin with the task's columns as width and
   * rows as height, and every sample region is that rectangle moved to its
   * corner.
   */
  lemma SampleRegionIsMovedSize(d: Dims, x: int, y: int)
    ensures SampleSize(d).x == 0 && SampleSize(d).y == 0
    ensures SampleSize(d).width == d.cols && SampleSize(d).height == d.rows
    ensures SampleRegion(d, x, y) == Translate(SampleSize(d), x, y)
  {
  }

  function Min(a: int, b: int): int
  {
    if a <= b then a else b
  }

  /**
   * The reference grouping: consecutive slices of at most `cap` samples,
   * starting at index `i`, each as long as possible.
   */
  function GroupsFrom<T>(samples: seq<T>, cap: nat, i: nat): seq<seq<T>>
    requires cap > 0 && i <= |samples|
    decreases |samples| - i
  {
    if i == |samples| then []
    else
      var j := Min(i + cap, |samples|);
      [samples[i..j]] + GroupsFrom(samples, cap, j)
  }

  function Flatten<T>(groups: seq<seq<T>>): seq<T>
  {
    if groups == [] then [] else groups[0] + Flatten(groups[1..])
  }

  /** The groups, put back together, are exactly the samples from `i` on: none lost, none repeated, order kept. */
  lemma {:induction false} GroupsFlatten<T>(samples: seq<T>, cap: nat, i: nat)
    requires cap > 0 && i <= |samples|
    ensures Flatten(GroupsFrom(samples, cap, i)) == samples[i..]
    decreases |samples| - i
  {
    if i < |samples| {
      var j := Min(i + cap, |samples|);
      var rest := GroupsFrom(samples, cap, j);
      assert GroupsFrom(samples, cap, i)[1..] == rest;
      GroupsFlatten(samples, cap, j);
      assert samples[i..] == samples[i..j] + samples[j..];
    }
  }

  /** Every group holds `cap` samples except the last, which holds between one and `cap`. */
  lemma {:induction false} GroupSizes<T>(samples: seq<T>, cap: nat, i: nat)
    requires cap > 0 && i <= |samples|
    ensures var gs := GroupsFrom(samples, cap, i);
      forall g :: 0 <= g < |gs| ==>
        && 0 < |gs[g]| <= cap
        && (g < |gs| - 1 ==> |gs[g]| == cap)
    decreases |samples| - i
  {
    if i < |samples| {
      var j := Min(i + cap, |samples|);
      GroupSizes(samples, cap, j);
      var gs := GroupsFrom(samples, cap, i);
      assert gs[1..] == GroupsFrom(samples, cap, j);
      forall g | 0 <= g < |gs|
        ensures 0 < |gs[g]| <= cap && (g < |gs| - 1 ==> |gs[g]| == cap)
      {
        if g > 0 {
          assert gs[g] == gs[1..][g - 1];
        } else if 0 < |gs| - 1 {
          assert j < |samples|;
        }
      }
    }
  }

  /** There are `ceil((|samples| - i) / cap)` groups. */
  lemma {:induction false} GroupCount<T>(samples: seq<T>, cap: nat, i: nat)
    requires cap > 0 && i <= |samples|
    ensures |GroupsFrom(samples, cap, i)| == (|samples| - i + cap - 1) / cap
    decreases |samples| - i
  {
    var n := |samples|;
    if i == n {
      DivModUnique(cap - 1, cap, 0, cap - 1);
    } else {
      var j := Min(i + cap, n);
      GroupCount(samples, cap, j);
      if j == n {
        DivModUnique(n - i + cap - 1, cap, 1, n - i - 1);
      } else {
        var x := n - j + cap - 1;
        DivModUnique(x + cap, cap, x / cap + 1, x % cap);
      }
    }
  }

  /** A sample placed on a grid, at row `row` and column `col`. */
  datatype Cell<T> = Cell(row: nat, col: nat, sample: T)

  /** One saved image: the file it goes to and the cells it fills. */
  datatype Grid<T> = Grid(path: string, cells: seq<Cell<T>>)

  /** The reference layout: the `k`-th sample of a group goes to row `k / gcols`, column `k % gcols`. */
  function RowMajor<T>(group: seq<T>, gcols: nat): seq<Cell<T>>
    requires gcols > 0
  {
    seq(|group|, k requires 0 <= k < |group| => Cell(k / gcols, k % gcols, group[k]))
  }

  /**
   * A group of at most `grows * gcols` samples lands inside the grid, on
   * pairwise different cells, and the cells read back in order give the group.
   */
  lemma RowMajorFits<T>(group: seq<T>, grows: nat, gcols: nat)
    requires gcols > 0 && |group| <= grows * gcols
    ensures var cells := RowMajor(group, gcols);
      && (forall k :: 0 <= k < |cells| ==> cells[k].row < grows && cells[k].col < gcols)
      && (forall k, l :: 0 <= k < l < |cells| ==> (cells[k].row, cells[k].col) != (cells[l].row, cells[l].col))
      && Samples(cells) == group
  {
    var cells := RowMajor(group, gcols);
    forall k | 0 <= k < |cells|
      ensures cells[k].row < grows
    {
      DivBelow(k, gcols, grows);
    }
    forall k, l | 0 <= k < l < |cells|
      ensures (cells[k].row, cells[k].col) != (cells[l].row, cells[l].col)
    {
      assert k == (k / gcols) * gcols + k % gcols;
      assert l == (l / gcols) * gcols + l % gcols;
    }
  }

  /** Laying out one more sample appends its cell. */
  lemma RowMajorSnoc<T>(group: seq<T>, k: nat, gcols: nat)
    requires k < |group| && gcols > 0
    ensures RowMajor(group[..k + 1], gcols) == RowMajor(group[..k], gcols) + [Cell(k / gcols, k % gcols, group[k])]
  {
  }

  lemma RowMajorWhole<T>(group: seq<T>, k: nat, gcols: nat)
    requires k == |group| && gcols > 0
    ensures RowMajor(group[..k], gcols) == RowMajor(group, gcols)
  {
    assert group[..k] == group;
  }

  /** The samples a grid shows, in cell order. */
  function Samples<T>(cells: seq<Cell<T>>): (s: seq<T>)
    ensures |s| == |cells|
  {
    seq(|cells|, k requires 0 <= k < |cells| => cells[k].sample)
  }

  /** The file name of the `g`-th image (counted from one). */
  function GroupPath(basepath: string, g: nat): string
  {
    basepath + "_group" + NatToString(g) + ".png"
  }

  /** Different groups go to different files: no image overwrites another. */
  lemma GroupPathsDistinct(basepath: string, g: nat, h: nat)
    requires g != h
    ensures GroupPath(basepath, g) != GroupPath(basepath, h)
  {
    var a, b := NatToString(g), NatToString(h);
    var pre := basepath + "_group";
    var x, y := GroupPath(basepath, g), GroupPath(basepath, h);
    if x == y {
      assert |a| == |b|;
      assert x == pre + a + ".png" && y == pre + b + ".png";
      assert x[|pre|..|pre| + |a|] == a;
      assert y[|pre|..|pre| + |b|] == b;
      NatToStringInjective(g, h);
    }
  }

  /**
   * `save_as_images(samples, basepath, grows, gcols, ...)`: cut the samples
   * into groups of `grows * gcols`, lay each out row by row and name the
   * `g`-th image `basepath_group<g>.png`. With no samples nothing is
   * saved; the source loops forever when samples are given but the grid
   * holds no cell, so that case is excluded.
   */
  method SaveAsImages<T>(samples: seq<T>, basepath: string, grows: nat, gcols: nat)
    returns (grids: seq<Grid<T>>)
    requires |samples| == 0 || grows * gcols > 0
    ensures |samples| == 0 ==> grids == []
    ensures grows * gcols > 0 ==>
      var groups := GroupsFrom(samples, grows * gcols, 0);
      && |grids| == |groups|
      && forall g :: 0 <= g < |grids| ==>
        && grids[g].path == GroupPath(basepath, g + 1)
        && grids[g].cells == RowMajor(groups[g], gcols)
  {
    var cap := grows * gcols;
    grids := [];
    if |samples| == 0 {
      return;
    }
    assert gcols > 0;
    var i, g := 0, 1;
    ghost var done: seq<seq<T>> := [];
    while i < |samples|
      invariant 0 <= i <= |samples|
      invariant g == |grids| + 1 && |done| == |grids|
      invariant done + GroupsFrom(samples, cap, i) == GroupsFrom(samples, cap, 0)
      invariant forall h :: 0 <= h < |grids| ==>
        grids[h].path == GroupPath(basepath, h + 1) && grids[h].cells == RowMajor(done[h], gcols)
      decreases |samples| - i
    {
      ghost var i0 := i;
      var gsamples;
      gsamples, i := TakeGroup(samples, cap, i);
      assert GroupsFrom(samples, cap, i0) == [gsamples] + GroupsFrom(samples, cap, i);
      assert (done + [gsamples]) + GroupsFrom(samples, cap, i) == done + GroupsFrom(samples, cap, i0);
      var cells := Compose(gsamples, grows, gcols);
      grids := grids + [Grid(GroupPath(basepath, g), cells)];
      done := done + [gsamples];
      g := g + 1;
    }
    assert done + [] == done;
  }

  /** The grouping loop of `save_as_images`: take samples from `i0` on until the group is full or none remain. */
  method TakeGroup<T>(samples: seq<T>, cap: nat, i0: nat) returns (gsamples: seq<T>, i: nat)
    requires cap > 0 && i0 < |samples|
    ensures i == Min(i0 + cap, |samples|) && i0 < i
    ensures gsamples == samples[i0..i]
  {
    gsamples, i := [], i0;
    while i < |samples| && |gsamples| < cap
      invariant i0 <= i <= |samples|
      invariant gsamples == samples[i0..i] && |gsamples| == i - i0 <= cap
      decreases |samples| - i
    {
      gsamples := gsamples + [samples[i]];
      i := i + 1;
    }
  }

  /**
   * The composing loop of `save_as_images`: walk the rows, and in each row
   * the columns, placing the next sample until the group runs out.
   */
  method Compose<T>(gsamples: seq<T>, grows: nat, gcols: nat) returns (cells: seq<Cell<T>>)
    requires gcols > 0 && |gsamples| <= grows * gcols
    ensures cells == RowMajor(gsamples, gcols)
  {
    cells := [];
    var k := 0;
    for r := 0 to grows
      invariant k == Min(r * gcols, |gsamples|)
      invariant cells == RowMajor(gsamples[..k], gcols)
    {
      k, cells := ComposeRow(gsamples, gcols, r, k, cells);
    }
    RowMajorWhole(gsamples, k, gcols);
  }

  /** One row of the composing loop: the columns of row `r`, while samples remain. */
  method ComposeRow<T>(gsamples: seq<T>, gcols: nat, r: nat, k0: nat, cells0: seq<Cell<T>>)
    returns (k: nat, cells: seq<Cell<T>>)
    requires gcols > 0 && k0 == Min(r * gcols, |gsamples|)
    requires cells0 == RowMajor(gsamples[..k0], gcols)
    ensures k == Min((r + 1) * gcols, |gsamples|)
    ensures cells == RowMajor(gsamples[..k], gcols)
  {
    k, cells := k0, cells0;
    var c := 0;
    assert (r + 1) * gcols == r * gcols + gcols;
    while c < gcols && k < |gsamples|
      invariant 0 <= c <= gcols && k == k0 + c && k <= |gsamples|
      invariant cells == RowMajor(gsamples[..k], gcols)
    {
      DivModUnique(k, gcols, r, c);
      RowMajorSnoc(gsamples, k, gcols);
      cells := cells + [Cell(r, c, gsamples[k])];
      c := c + 1;
      k := k + 1;
    }
  }


  /** `basepath` for the samples of one label: `_<label>` is appended unless the label is empty. */
  function LabelBasePath(basepath: string, name: string): (p: string)
    ensures name == [] ==> p == basepath
    ensures name != [] ==> |p| == |basepath| + 1 + |name| && p[..|basepath|] == basepath
  {
    if name == [] then basepath else basepath + "_" + name
  }

  /**
   * `save_as_images(fold, basepath, ...)`: for each label of the task, the
   * samples of that label in the fold are saved under the label's base
   * path. The sampler that selects them is the parameter `select`.
   */
  method SaveLabelsAsImages<T>(labels: seq<string>, select: string -> seq<T>, basepath: string,
                               grows: nat, gcols: nat)
    returns (saved: seq<seq<Grid<T>>>)
    requires forall l :: 0 <= l < |labels| ==> |select(labels[l])| == 0 || grows * gcols > 0
    ensures |saved| == |labels|
    ensures forall l :: 0 <= l < |labels| && |select(labels[l])| == 0 ==> saved[l] == []
    ensures grows * gcols > 0 ==> forall l :: 0 <= l < |labels| ==>
      var groups := GroupsFrom(select(labels[l]), grows * gcols, 0);
      && |saved[l]| == |groups|
      && forall g :: 0 <= g < |saved[l]| ==>
        && saved[l][g].path == GroupPath(LabelBasePath(basepath, labels[l]), g + 1)
        && saved[l][g].cells == RowMajor(groups[g], gcols)
  {
    saved := [];
    for l := 0 to |labels|
      invariant |saved| == l
      invariant forall m :: 0 <= m < l && |select(labels[m])| == 0 ==> saved[m] == []
      invariant grows * gcols > 0 ==> forall m :: 0 <= m < l ==>
        var groups := GroupsFrom(select(labels[m]), grows * gcols, 0);
        && |saved[m]| == |groups|
        && forall g :: 0 <= g < |saved[m]| ==>
          && saved[m][g].path == GroupPath(LabelBasePath(basepath, labels[m]), g + 1)
          && saved[m][g].cells == RowMajor(groups[g], gcols)
    {
      var grids := SaveAsImages(select(labels[l]), LabelBasePath(basepath, labels[l]), grows, gcols);
      saved := saved + [grids];
    }
  }
}
