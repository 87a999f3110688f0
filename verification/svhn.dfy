/**
 * The SVHN task of src/cortex/tasks/task_svhn.cpp: decoding the image and
 * label arrays of the "32x32" MATLAB files into RGB images and labelled
 * samples, and the sample counts `load(dir)` insists on.
 *
 * The MAT-file parsing (io/mat5.h) and gzip decompression are not part of
 * this model: `decode` receives the uncompressed buffers together with
 * what the array parser found in them (whether it succeeded, the
 * dimensions, and the type and start offset of the data section).
 */
module Svhn {
  import opened Strings
  import opened Arith
  import opened Wrappers
  import opened MemVision
  import TaskGrid

  /** The MAT-file element types the checks distinguish. */
  datatype DataType = UInt8 | Compressed | OtherType

  /** A parsed array: whether header and body loaded, its dimensions, and its data section. */
  datatype MatArray = MatArray(loaded: bool, dims: seq<int>, dtype: DataType, dbegin: nat)

  datatype Pixel = Pixel(red: byte, green: byte, blue: byte)

  /** An image as rows of pixels. */
  type Image = seq<seq<Pixel>>

  /** A sample: the image it comes from, its region, label, class and fold. */
  datatype Sample = Sample(index: nat, region: TaskGrid.Rect, name: string, target: nat, fold: Fold)

  datatype State = State(images: seq<Image>, samples: seq<Sample>)

  /**
   * The class of a raw label: 10 stands for the digit 0, 1 to 9 are
   * themselves, and any other value marks a sample to skip.
   */
  function MapLabel(raw: byte): (r: Option<nat>)
    ensures r.Some? ==> r.value < 10
  {
    if raw == 10 then Some(0)
    else if raw < 1 || raw > 9 then None
    else Some(raw as nat)
  }

  /** The raw label the files use for a class. */
  function RawLabel(cls: nat): byte
    requires cls < 10
  {
    if cls == 0 then 10 else cls as byte
  }

  /** The accepted raw labels are exactly 1 to 10, and `RawLabel` inverts the mapping both ways. */
  lemma MapLabelInverse(raw: byte, cls: nat)
    ensures MapLabel(raw).Some? <==> 1 <= raw <= 10
    ensures MapLabel(raw).Some? ==> RawLabel(MapLabel(raw).value) == raw
    ensures cls < 10 ==> MapLabel(RawLabel(cls)) == Some(cls)
  {
  }

  /** The shape checks: images `[rows, cols, 3, N]`, labels `[N, 1]`. */
  predicate DimsMatch(iarr: MatArray, larr: MatArray, rows: nat, cols: nat)
  {
    && |iarr.dims| == 4 && iarr.dims[0] == rows && iarr.dims[1] == cols && iarr.dims[2] == 3
    && |larr.dims| == 2 && larr.dims[1] == 1
    && iarr.dims[3] == larr.dims[0]
  }

  /** Every check `decode` makes before it reads any sample. */
  predicate Decodable(iarr: MatArray, larr: MatArray, rows: nat, cols: nat)
  {
    && iarr.loaded && larr.loaded
    && DimsMatch(iarr, larr, rows, cols)
    && iarr.dtype == UInt8 && larr.dtype == UInt8
    && iarr.dims[3] >= 0
  }

  /** The number of samples the arrays declare. */
  function Count(iarr: MatArray): nat
    requires |iarr.dims| == 4 && iarr.dims[3] >= 0
  {
    iarr.dims[3]
  }

  /** The byte offset of channel `k` of pixel `q` (row-major) within an image starting at `ibeg`. */
  function Offset(ibeg: nat, px: nat, k: nat, q: nat): nat
  {
    ibeg + px * k + q
  }

  /** Where sample `i`'s image starts: images are `rows * cols * 3` bytes apart. */
  function ImageStart(dbegin: nat, i: nat, rows: nat, cols: nat): nat
  {
    dbegin + i * (rows * cols * 3)
  }

  lemma RowMajorBound(r: nat, c: nat, rows: nat, cols: nat)
    requires r < rows && c < cols
    ensures r * cols + c < rows * cols
  {
    assert (rows - r - 1) * cols >= 0;
    assert rows * cols == r * cols + cols + (rows - r - 1) * cols;
  }

  /** The pixel at `q`: its red, green and blue bytes come from three planes `px` bytes apart. */
  function PixelAt(idata: seq<byte>, ibeg: nat, px: nat, q: nat): Pixel
    requires q < px && ibeg + 3 * px <= |idata|
  {
    Pixel(idata[Offset(ibeg, px, 0, q)], idata[Offset(ibeg, px, 1, q)], idata[Offset(ibeg, px, 2, q)])
  }

  /**
   * The reference image: the loops of `decode` visit `(r, c)` with the
   * running index `q = r * cols + c` and store that pixel with
   * `set(c, r, ...)`, at row `c` and column `r`. The planes are thus read
   * column by column, as MATLAB stores them; the image has `cols` rows of
   * `rows` pixels, which is the requested size when the two agree.
   */
  function ImageAt(idata: seq<byte>, ibeg: nat, rows: nat, cols: nat): (img: Image)
    requires ibeg + 3 * (rows * cols) <= |idata|
    ensures |img| == cols && forall y :: 0 <= y < cols ==> |img[y]| == rows
  {
    seq(cols, y requires 0 <= y < cols =>
      seq(rows, x requires 0 <= x < rows =>
        RowMajorBound(x, y, rows, cols);
        PixelAt(idata, ibeg, rows * cols, x * cols + y)))
  }

  /**
   * Column-major placement: pixel `q` of the planes is at row `q % cols`
   * and column `q / cols`, so consecutive bytes run down a column. For a
   * 32x32 image, byte 1 is at row 1, column 0, and byte 32 at row 0, column 1.
   */
  lemma ImageAtColumnMajor(idata: seq<byte>, ibeg: nat, rows: nat, cols: nat, q: nat)
    requires ibeg + 3 * (rows * cols) <= |idata| && q < rows * cols
    ensures 0 < cols && q % cols < cols && q / cols < rows
    ensures ImageAt(idata, ibeg, rows, cols)[q % cols][q / cols] == PixelAt(idata, ibeg, rows * cols, q)
  {
    assert 0 < cols;
    DivBelow(q, cols, rows);
    assert (q / cols) * cols + q % cols == q;
  }

  /**
   * Within one image the three planes and all pixel positions are read at
   * pairwise different offsets, all inside the image's `3 * px` bytes.
   */
  lemma OffsetInjective(ibeg: nat, px: nat, k1: nat, q1: nat, k2: nat, q2: nat)
    requires k1 < 3 && k2 < 3 && q1 < px && q2 < px
    ensures ibeg <= Offset(ibeg, px, k1, q1) < ibeg + 3 * px
    ensures Offset(ibeg, px, k1, q1) == Offset(ibeg, px, k2, q2) ==> k1 == k2 && q1 == q2
  {
    var y := px * k1 + q1;
    DivModUnique(y, px, k1, q1);
    DivModUnique(px * k2 + q2, px, k2, q2);
    MulMonotone(k1, 2, px);
  }

  /** The pixel position of `(r, c)` determines the row and column. */
  lemma PositionInjective(r1: nat, c1: nat, r2: nat, c2: nat, cols: nat)
    requires c1 < cols && c2 < cols
    ensures r1 * cols + c1 == r2 * cols + c2 ==> r1 == r2 && c1 == c2
  {
    DivModUnique(r1 * cols + c1, cols, r1, c1);
    DivModUnique(r2 * cols + c2, cols, r2, c2);
  }

  /** Images of different samples occupy disjoint byte ranges, in sample order. */
  lemma ImagesDisjoint(dbegin: nat, i: nat, j: nat, rows: nat, cols: nat)
    requires i < j
    ensures ImageStart(dbegin, i, rows, cols) + rows * cols * 3 <= ImageStart(dbegin, j, rows, cols)
  {
    MulMonotone(i + 1, j, rows * cols * 3);
  }

  /** The label of sample `i` maps to a class. */
  predicate Accepts(ldata: seq<byte>, lbeg: nat, i: nat)
    requires lbeg + i < |ldata|
  {
    MapLabel(ldata[lbeg + i]).Some?
  }

  /** The samples accepted among the first `n`, as (sample index, class) pairs in order. */
  function Accepted(ldata: seq<byte>, lbeg: nat, n: nat): seq<(nat, nat)>
    requires lbeg + n <= |ldata|
  {
    if n == 0 then []
    else
      var prev := Accepted(ldata, lbeg, n - 1);
      match MapLabel(ldata[lbeg + n - 1])
      case Some(cls) => prev + [(n - 1, cls)]
      case None => prev
  }

  /**
   * The accepted samples are exactly those whose raw label maps to a
   * class, in increasing order, each with that class; there are at most `n`.
   */
  lemma {:induction false} AcceptedExactly(ldata: seq<byte>, lbeg: nat, n: nat)
    requires lbeg + n <= |ldata|
    ensures var acc := Accepted(ldata, lbeg, n);
      && |acc| <= n
      && (forall j :: 0 <= j < |acc| ==> acc[j].0 < n && MapLabel(ldata[lbeg + acc[j].0]) == Some(acc[j].1))
      && (forall j, l :: 0 <= j < l < |acc| ==> acc[j].0 < acc[l].0)
      && (forall i :: 0 <= i < n && Accepts(ldata, lbeg, i) ==> exists j :: 0 <= j < |acc| && acc[j].0 == i)
  {
    if n > 0 {
      AcceptedExactly(ldata, lbeg, n - 1);
      var prev := Accepted(ldata, lbeg, n - 1);
      var acc := Accepted(ldata, lbeg, n);
      if MapLabel(ldata[lbeg + n - 1]).Some? {
        assert acc == prev + [(n - 1, MapLabel(ldata[lbeg + n - 1]).value)];
        forall i | 0 <= i < n && Accepts(ldata, lbeg, i)
          ensures exists j :: 0 <= j < |acc| && acc[j].0 == i
        {
          if i == n - 1 {
            assert acc[|acc| - 1].0 == i;
          } else {
            var j :| 0 <= j < |prev| && prev[j].0 == i;
            assert acc[j] == prev[j];
          }
        }
      }
    }
  }

  /** The sample added for an accepted label: the whole image, "digit<class>", fold 0 of the protocol. */
  function SampleFor(index: nat, cls: nat, rows: nat, cols: nat, p: Protocol): Sample
  {
    Sample(index, TaskGrid.SampleRegion(TaskGrid.Dims(rows, cols), 0, 0), "digit" + NatToString(cls), cls, Fold(0, p))
  }

  /** The label data holds every sample's raw label, and each accepted sample's image lies inside the image data. */
  predicate BuffersCover(idata: seq<byte>, ldata: seq<byte>, iarr: MatArray, larr: MatArray, rows: nat, cols: nat)
    requires Decodable(iarr, larr, rows, cols)
  {
    && larr.dbegin + Count(iarr) <= |ldata|
    && forall i :: 0 <= i < Count(iarr) && MapLabel(ldata[larr.dbegin + i]).Some? ==>
        ImageStart(iarr.dbegin, i, rows, cols) + 3 * (rows * cols) <= |idata|
  }

  /**
   * `decode(idata, ldata, p)`: check the arrays, then turn every sample
   * with an accepted label into an image and a sample; return how many.
   * Reads past the end of a buffer are undefined in the source and are
   * excluded by `BuffersCover`.
   */
  method Decode(t: State, idata: seq<byte>, ldata: seq<byte>, iarr: MatArray, larr: MatArray,
                rows: nat, cols: nat, p: Protocol)
    returns (cnt: nat, r: State)
    requires Decodable(iarr, larr, rows, cols) ==> rows == cols && BuffersCover(idata, ldata, iarr, larr, rows, cols)
    ensures !Decodable(iarr, larr, rows, cols) ==> cnt == 0 && r == t
    ensures Decodable(iarr, larr, rows, cols) ==>
      var acc := Accepted(ldata, larr.dbegin, Count(iarr));
      && cnt == |acc| == |r.images| - |t.images| == |r.samples| - |t.samples|
      && r.images[..|t.images|] == t.images && r.samples[..|t.samples|] == t.samples
      && forall j :: 0 <= j < cnt ==>
        && ImageStart(iarr.dbegin, acc[j].0, rows, cols) + 3 * (rows * cols) <= |idata|
        && r.images[|t.images| + j] == ImageAt(idata, ImageStart(iarr.dbegin, acc[j].0, rows, cols), rows, cols)
        && r.samples[|t.samples| + j] == SampleFor(|r.images| - cnt + j, acc[j].1, rows, cols, p)
  {
    if !Decodable(iarr, larr, rows, cols) {
      return 0, t;
    }
    var n := Count(iarr);
    var lbeg := larr.dbegin;
    r := t;
    cnt := 0;
    for i := 0 to n
      invariant cnt == |Accepted(ldata, lbeg, i)| == |r.images| - |t.images| == |r.samples| - |t.samples|
      invariant r.images[..|t.images|] == t.images && r.samples[..|t.samples|] == t.samples
      invariant forall j :: 0 <= j < cnt ==>
        var a := Accepted(ldata, lbeg, i)[j];
        && ImageStart(iarr.dbegin, a.0, rows, cols) + 3 * (rows * cols) <= |idata|
        && r.images[|t.images| + j] == ImageAt(idata, ImageStart(iarr.dbegin, a.0, rows, cols), rows, cols)
        && r.samples[|t.samples| + j] == SampleFor(|t.images| + j, a.1, rows, cols, p)
    {
      var raw := ldata[lbeg + i];
      var mapped := MapLabel(raw);
      if mapped.None? {
        continue;
      }
      var ibeg := ImageStart(iarr.dbegin, i, rows, cols);
      var image := ReadImage(idata, ibeg, rows, cols, Pixel(0, 0, 0));
      var sample := SampleFor(|r.images|, mapped.value, rows, cols, p);
      r := State(r.images + [image], r.samples + [sample]);
      cnt := cnt + 1;
    }
  }

  /** A `rows`-row image of `cols` pixels, before any pixel is set. */
  function Blank(rows: nat, cols: nat, fill: Pixel): (img: Image)
    ensures |img| == rows && forall y :: 0 <= y < rows ==> |img[y]| == cols
  {
    seq(rows, y => seq(cols, x => fill))
  }

  /** `image.set(row, col, pixel)`: replace one pixel, leaving the others. */
  function SetPixel(img: Image, row: nat, col: nat, p: Pixel): (r: Image)
    requires row < |img| && col < |img[row]|
    ensures |r| == |img| && forall y :: 0 <= y < |r| ==> |r[y]| == |img[y]|
    ensures r[row][col] == p
    ensures forall y, x :: 0 <= y < |r| && 0 <= x < |r[y]| && (y, x) != (row, col) ==> r[y][x] == img[y][x]
  {
    img[row := img[row][col := p]]
  }

  /**
   * The pixel loops of `decode`: an `irows x icols` image, then row by row
   * and column by column with a running pixel index, `set(c, r, ...)`. The
   * writes stay inside the image only when it is square.
   */
  method ReadImage(idata: seq<byte>, ibeg: nat, rows: nat, cols: nat, fill: Pixel) returns (img: Image)
    requires ibeg + 3 * (rows * cols) <= |idata|
    requires rows == cols
    ensures img == ImageAt(idata, ibeg, rows, cols)
  {
    var px := rows * cols;
    ghost var ref := ImageAt(idata, ibeg, rows, cols);
    img := Blank(rows, cols, fill);
    var q := 0;
    for r := 0 to rows
      invariant q == r * cols
      invariant |img| == rows && forall y :: 0 <= y < rows ==> |img[y]| == cols
      invariant forall y, x :: 0 <= y < rows && 0 <= x < cols ==> img[y][x] == (if x < r then ref[y][x] else fill)
    {
      for c := 0 to cols
        invariant q == r * cols + c
        invariant |img| == rows && forall y :: 0 <= y < rows ==> |img[y]| == cols
        invariant forall y, x :: 0 <= y < rows && 0 <= x < cols ==>
          img[y][x] == (if x < r || (x == r && y < c) then ref[y][x] else fill)
      {
        RowMajorBound(r, c, rows, cols);
        img := SetPixel(img, c, r, PixelAt(idata, ibeg, px, q));
        q := q + 1;
      }
    }
    forall y | 0 <= y < rows
      ensures img[y] == ref[y]
    {
    }
  }

  /** The file names below the data directory. */
  function TrainFile(dir: string): string { dir + "/train_32x32.mat" }
  function ExtraFile(dir: string): string { dir + "/extra_32x32.mat" }
  function TestFile(dir: string): string { dir + "/test_32x32.mat" }

  const TrainSamples := 73257
  const ExtraSamples := 531131
  const TestSamples := 26032

  /**
   * `load(dir)`: the training and extra files together must yield
   * `73257 + 531131` samples and the test file `26032`. `loaded` gives the
   * number of samples a file yields; the test file is only read when the
   * training count is right.
   */
  function LoadDir(dir: string, loaded: string -> nat): (r: (bool, seq<string>))
    ensures r.0 <==>
      && loaded(TrainFile(dir)) + loaded(ExtraFile(dir)) == TrainSamples + ExtraSamples
      && loaded(TestFile(dir)) == TestSamples
    ensures |r.1| >= 2 && r.1[..2] == [TrainFile(dir), ExtraFile(dir)]
    ensures |r.1| == 3 <==> loaded(TrainFile(dir)) + loaded(ExtraFile(dir)) == TrainSamples + ExtraSamples
  {
    if loaded(TrainFile(dir)) + loaded(ExtraFile(dir)) != TrainSamples + ExtraSamples then
      (false, [TrainFile(dir), ExtraFile(dir)])
    else
      (loaded(TestFile(dir)) == TestSamples, [TrainFile(dir), ExtraFile(dir), TestFile(dir)])
  }
}
